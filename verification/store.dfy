/** `LabelStore` of dossier/label/label.py over an ordered key-value table,
    the table being a sequence of rows in strictly ascending key order. */
module Store {
  import opened Results
  import opened Ordering
  import opened Labels
  import opened Latest

  /** The bounds `LabelStore.get` puts on the tick field: Python 2's
      `-sys.maxint - 1` and `sys.maxint` on a 64-bit build. */
  const LONG_MIN: int := -0x8000_0000_0000_0000
  const LONG_MAX: int := 0x7FFF_FFFF_FFFF_FFFF

  /** The table: one row per key, keys strictly ascending. */
  predicate Sorted(s: seq<Row>)
  {
    forall i, j :: 0 <= i < j < |s| ==> KeyLt(s[i].key, s[j].key)
  }

  /** Every row decodes into a label (rows written by `put` always do). */
  predicate Decodable(s: seq<Row>)
  {
    forall x :: x in s ==> FromKv(x).Success?
  }

  lemma SortedHeadBelow(s: seq<Row>)
    requires Sorted(s) && |s| > 0
    ensures forall x :: x in s[1..] ==> KeyLt(s[0].key, x.key)
  {
    forall x | x in s[1..]
      ensures KeyLt(s[0].key, x.key)
    {
      var j :| 0 <= j < |s| - 1 && s[1..][j] == x;
      assert s[1 + j] == x;
    }
  }

  lemma SortedCons(h: Row, s: seq<Row>)
    requires Sorted(s)
    requires forall x :: x in s ==> KeyLt(h.key, x.key)
    ensures Sorted([h] + s)
  {
    forall i, j | 0 <= i < j < |s| + 1
      ensures KeyLt(([h] + s)[i].key, ([h] + s)[j].key)
    {
      assert ([h] + s)[j] == s[j - 1];
      if i > 0 {
        assert ([h] + s)[i] == s[i - 1];
      }
    }
  }

  lemma BelowHeadBelowAll(h: Row, s: seq<Row>)
    requires Sorted(s) && |s| > 0 && KeyLt(h.key, s[0].key)
    ensures forall x :: x in s ==> KeyLt(h.key, x.key)
  {
    SortedHeadBelow(s);
    forall x | x in s
      ensures KeyLt(h.key, x.key)
    {
      if x != s[0] {
        assert x in s[1..];
        KeyLtTransitive(h.key, s[0].key, x.key);
      }
    }
  }

  /** The store's put of one row: a row already under the same key is overwritten. */
  function Insert(s: seq<Row>, row: Row): (r: seq<Row>)
    requires Sorted(s)
    ensures Sorted(r)
    ensures forall x :: x in r <==> x == row || (x in s && x.key != row.key)
  {
    if |s| == 0 then [row]
    else
      KeyLtTotal(row.key, s[0].key);
      SortedHeadBelow(s);
      if KeyLt(row.key, s[0].key) then
        BelowHeadBelowAll(row, s);
        KeyLtIrreflexive(row.key);
        SortedCons(row, s);
        [row] + s
      else if row.key == s[0].key then
        assert forall x :: x in s ==> x == s[0] || x in s[1..];
        KeyLtIrreflexive(row.key);
        SortedCons(row, s[1..]);
        [row] + s[1..]
      else
        var rest := Insert(s[1..], row);
        KeyLtIrreflexive(row.key);
        assert forall x :: x in s ==> x == s[0] || x in s[1..];
        SortedCons(s[0], rest);
        [s[0]] + rest
  }

  /** `LabelStore.put(label)`: the label's row and its reversal's row. */
  function Put(s: seq<Row>, l: Label): (r: seq<Row>)
    requires Sorted(s)
    ensures Sorted(r)
    ensures forall x :: x in r <==>
      || x == ToKv(l)
      || x == ToKv(Reversed(l))
      || (x in s && x.key != ToKv(l).key && x.key != ToKv(Reversed(l)).key)
    ensures Decodable(s) ==> Decodable(r)
  {
    KvRoundTrip(l);
    KvRoundTrip(Reversed(l));
    Insert(Insert(s, ToKv(l)), ToKv(Reversed(l)))
  }

  /** Row `k` lies within the inclusive scan range `[lo, hi]`. */
  predicate InRange(k: Key, lo: seq<Field>, hi: seq<Field>)
  {
    FieldsLe(lo, Fields(k)) && FieldsLe(Fields(k), hi)
  }

  /** The store's range scan: the rows within `[lo, hi]`, in key order. */
  function Scan(s: seq<Row>, lo: seq<Field>, hi: seq<Field>): (r: seq<Row>)
    ensures forall x :: x in r <==> x in s && InRange(x.key, lo, hi)
    ensures Sorted(s) ==> Sorted(r)
  {
    if |s| == 0 then []
    else
      var rest := Scan(s[1..], lo, hi);
      assert forall x :: x in s ==> x == s[0] || x in s[1..];
      if InRange(s[0].key, lo, hi) then
        (if Sorted(s) then SortedHeadBelow(s); SortedCons(s[0], rest); [s[0]] + rest
         else [s[0]] + rest)
      else rest
  }

  /** What `get` asks for: the five identity fields exactly as given, and a
      tick complement inside the 64-bit bounds of the scan. */
  predicate GetMatches(k: Key, cid1: string, cid2: string, annotatorId: string,
                       subid1: string, subid2: string)
  {
    && k.c1 == cid1 && k.c2 == cid2 && k.s1 == subid1 && k.s2 == subid2 && k.ann == annotatorId
    && LONG_MIN <= k.t <= LONG_MAX
  }

  /** `get`'s scan range holds exactly the keys it means to match. */
  lemma GetRangeExact(k: Key, p: Key)
    ensures InRange(k, Fields(p.(t := LONG_MIN)), Fields(p.(t := LONG_MAX)))
      <==> GetMatches(k, p.c1, p.c2, p.ann, p.s1, p.s2)
  {
    var lo, hi := p.(t := LONG_MIN), p.(t := LONG_MAX);
    KeyLtLex(lo, k);
    KeyLtLex(k, hi);
    assert Prefix(lo) == Prefix(p) && Prefix(hi) == Prefix(p);
    if InRange(k, Fields(lo), Fields(hi)) {
      if Prefix(k) != Prefix(p) {
        if Fields(lo) == Fields(k) {
          FieldsInjective(lo, k);
        }
        if Fields(k) == Fields(hi) {
          FieldsInjective(k, hi);
        }
        FieldsLtAsymmetric(Prefix(p), Prefix(k));
      }
      PrefixInjective(k, p);
      if Fields(lo) == Fields(k) {
        FieldsInjective(lo, k);
      }
      if Fields(k) == Fields(hi) {
        FieldsInjective(k, hi);
      }
    }
    FieldsLtIrreflexive(Prefix(p));
  }

  /** `LabelStore.get(cid1, cid2, annotator_id, subid1, subid2)`: the first
      row of the scan over every tick of that exact key, decoded; `NotFound`
      (the source's KeyError) when the scan is empty. The label comes back in
      the orientation asked for, never the mirrored one. */
  function Get(s: seq<Row>, cid1: string, cid2: string, annotatorId: string,
               subid1: string, subid2: string): (r: Result<Label, Error>)
    ensures r.Success? ==>
      && r.value.contentId1 == cid1 && r.value.contentId2 == cid2
      && r.value.subtopicId1 == subid1 && r.value.subtopicId2 == subid2
      && r.value.annotatorId == annotatorId
      && LONG_MIN <= TimeComplement(r.value.epochTicks) <= LONG_MAX
  {
    var p := Key(cid1, cid2, subid1, subid2, annotatorId, 0);
    var rows := Scan(s, Fields(p.(t := LONG_MIN)), Fields(p.(t := LONG_MAX)));
    if |rows| == 0 then Failure(NotFound)
    else
      assert rows[0] in rows;
      GetRangeExact(rows[0].key, p);
      FromKv(rows[0])
  }

  /** On a sorted table `get` fails with `NotFound` exactly when no row has
      the requested key, and otherwise decodes the matching row with the
      smallest tick complement, that is the most recent label. */
  lemma GetNewest(s: seq<Row>, cid1: string, cid2: string, annotatorId: string,
                  subid1: string, subid2: string)
    requires Sorted(s)
    ensures Get(s, cid1, cid2, annotatorId, subid1, subid2) == Failure(NotFound)
      <==> forall x :: x in s ==> !GetMatches(x.key, cid1, cid2, annotatorId, subid1, subid2)
    ensures (exists x :: x in s && GetMatches(x.key, cid1, cid2, annotatorId, subid1, subid2)) ==>
      exists x :: x in s && GetMatches(x.key, cid1, cid2, annotatorId, subid1, subid2)
        && Get(s, cid1, cid2, annotatorId, subid1, subid2) == FromKv(x)
        && forall y :: y in s && GetMatches(y.key, cid1, cid2, annotatorId, subid1, subid2) ==>
             x.key.t <= y.key.t
  {
    var p := Key(cid1, cid2, subid1, subid2, annotatorId, 0);
    var rows := Scan(s, Fields(p.(t := LONG_MIN)), Fields(p.(t := LONG_MAX)));
    forall k: Key
      ensures InRange(k, Fields(p.(t := LONG_MIN)), Fields(p.(t := LONG_MAX)))
        <==> GetMatches(k, cid1, cid2, annotatorId, subid1, subid2)
    {
      GetRangeExact(k, p);
    }
    if |rows| > 0 {
      var x := rows[0];
      assert x in rows;
      forall y | y in s && GetMatches(y.key, cid1, cid2, annotatorId, subid1, subid2)
        ensures x.key.t <= y.key.t
      {
        assert y in rows;
        if y != x {
          var j :| 0 <= j < |rows| && rows[j] == y;
          assert KeyLt(x.key, y.key);
          KeyLtLex(x.key, y.key);
          FieldsLtIrreflexive(Prefix(x.key));
          assert Prefix(x.key) == Prefix(y.key);
        }
      }
    } else {
      forall x | x in s
        ensures !GetMatches(x.key, cid1, cid2, annotatorId, subid1, subid2)
      {
        assert x !in rows;
      }
    }
  }

  /** A row whose key no other row of the same identity undercuts is what `get` returns. */
  lemma GetFindsNewestRow(s: seq<Row>, row: Row)
    requires Sorted(s) && row in s
    requires LONG_MIN <= row.key.t <= LONG_MAX
    requires forall y :: y in s && y.key.(t := 0) == row.key.(t := 0) ==> row.key.t <= y.key.t
    ensures Get(s, row.key.c1, row.key.c2, row.key.ann, row.key.s1, row.key.s2) == FromKv(row)
  {
    var k := row.key;
    GetNewest(s, k.c1, k.c2, k.ann, k.s1, k.s2);
    var x :| x in s && GetMatches(x.key, k.c1, k.c2, k.ann, k.s1, k.s2)
        && Get(s, k.c1, k.c2, k.ann, k.s1, k.s2) == FromKv(x)
        && forall y :: y in s && GetMatches(y.key, k.c1, k.c2, k.ann, k.s1, k.s2) ==> x.key.t <= y.key.t;
    assert x.key.(t := 0) == k.(t := 0);
    assert x.key == k;
    var i :| 0 <= i < |s| && s[i] == x;
    var j :| 0 <= j < |s| && s[j] == row;
    if i != j {
      KeyLtIrreflexive(k);
    }
  }

  /** After `put(l)`, `get` in either orientation finds the label, provided
      its ticks fit the 64-bit key and no newer label of the same key in that
      orientation is already stored. */
  lemma PutThenGet(s: seq<Row>, l: Label)
    requires Sorted(s)
    requires LONG_MIN <= TimeComplement(l.epochTicks) <= LONG_MAX
    requires forall x :: x in s && x.key.(t := 0) == ToKv(l).key.(t := 0) ==>
      ToKv(l).key.t <= x.key.t
    requires forall x :: x in s && x.key.(t := 0) == ToKv(Reversed(l)).key.(t := 0) ==>
      ToKv(l).key.t <= x.key.t
    ensures Get(Put(s, l), l.contentId1, l.contentId2, l.annotatorId, l.subtopicId1, l.subtopicId2)
      == Success(l)
    ensures Get(Put(s, l), l.contentId2, l.contentId1, l.annotatorId, l.subtopicId2, l.subtopicId1)
      == Success(Reversed(l))
  {
    var s' := Put(s, l);
    var rev := Reversed(l);
    KvRoundTrip(l);
    KvRoundTrip(rev);
    GetFindsNewestRow(s', ToKv(l));
    GetFindsNewestRow(s', ToKv(rev));
  }

  /** `imap(Label._from_kvlayer, rows)` consumed in full: the decoded labels
      in row order, or the error of the first row that does not decode. */
  function DecodeAll(rows: seq<Row>): (r: Result<seq<Label>, Error>)
    ensures r.Success? <==> forall i :: 0 <= i < |rows| ==> FromKv(rows[i]).Success?
    ensures r.Success? ==>
      |r.value| == |rows| && forall i :: 0 <= i < |rows| ==> FromKv(rows[i]) == Success(r.value[i])
    ensures r.Failure? ==>
      exists i :: (0 <= i < |rows| && FromKv(rows[i]) == Failure(r.error)
        && forall j :: 0 <= j < i ==> FromKv(rows[j]).Success?)
  {
    if |rows| == 0 then Success([])
    else
      var head := FromKv(rows[0]);
      if head.Failure? then
        assert FromKv(rows[0]) == Failure(head.error);
        Failure(head.error)
      else
        var tail := DecodeAll(rows[1..]);
        assert forall i :: 1 <= i < |rows| ==> rows[i] == rows[1..][i - 1];
        if tail.Failure? then
          var i :| 0 <= i < |rows| - 1 && FromKv(rows[1..][i]) == Failure(tail.error)
            && forall j :: 0 <= j < i ==> FromKv(rows[1..][j]).Success?;
          assert FromKv(rows[i + 1]) == Failure(tail.error);
          Failure(tail.error)
        else
          Success([head.value] + tail.value)
  }

  /** The text `get_all_for_content_id` appends to an id for its upper bound. */
  const HighChar: char := '\U{FF}'

  /** `get_all_for_content_id`'s scan range: from the 1-tuple `(content_id,)`
      to the 1-tuple `(content_id + '\xff',)`. */
  predicate InContentRange(k: Key, contentId: string)
  {
    InRange(k, [Str(contentId)], [Str(contentId + [HighChar])])
  }

  /** The range holds exactly the keys whose first id lies between the id
      itself and the id followed by `'\xff'`. */
  lemma ContentRangeExact(k: Key, contentId: string)
    ensures InContentRange(k, contentId) <==>
      StrLe(contentId, k.c1) && StrLt(k.c1, contentId + [HighChar])
  {
    var hi := contentId + [HighChar];
    var rest := Fields(k)[1..];
    assert Fields(k) == [Str(k.c1)] + rest && |rest| == 5;
    assert [Str(contentId)] == [Str(contentId)] + [];
    assert [Str(hi)] == [Str(hi)] + [];
    FieldsLtSplitHead(Str(contentId), [], Str(k.c1), rest);
    FieldsLtSplitHead(Str(k.c1), rest, Str(hi), []);
    assert FieldsLt([], rest) && !FieldsLt(rest, []);
    assert FieldLt(Str(contentId), Str(k.c1)) == StrLt(contentId, k.c1);
    assert FieldLt(Str(k.c1), Str(hi)) == StrLt(k.c1, hi);
    assert [Str(contentId)] != Fields(k) && Fields(k) != [Str(hi)];
  }

  lemma FieldsLtSplitHead(x: Field, xs: seq<Field>, y: Field, ys: seq<Field>)
    ensures FieldsLt([x] + xs, [y] + ys) <==> FieldLt(x, y) || (x == y && FieldsLt(xs, ys))
  {
    assert ([x] + xs)[1..] == xs && ([y] + ys)[1..] == ys;
    if x == y {
      FieldLtIrreflexive(x);
    }
  }

  /** Every row whose first id is the requested id is in range. */
  lemma ContentRangeHoldsOwnId(k: Key)
    ensures InContentRange(k, k.c1)
  {
    ContentRangeExact(k, k.c1);
    StrLtPrefix(k.c1, [HighChar]);
  }

  /** The range also admits ids that merely start with the requested id,
      such as `"ab"` for `"a"`. */
  lemma ContentRangeAdmitsExtension(k: Key)
    requires k.c1 == "ab"
    ensures InContentRange(k, "a")
  {
    ContentRangeExact(k, "a");
    assert StrLt("a", "ab");
    assert "a" + [HighChar] == ['a', HighChar];
    assert StrLt("ab", ['a', HighChar]);
  }

  /** `LabelStore.get_all_for_content_id(content_id)`: the labels of every
      row in the id's scan range, decoded and reduced by `latest_labels`. */
  function GetAllForContentId(s: seq<Row>, contentId: string): (r: Result<seq<Label>, Error>)
    ensures Decodable(s) ==> r.Success?
  {
    var rows := Scan(s, [Str(contentId)], [Str(contentId + [HighChar])]);
    match DecodeAll(rows)
    case Failure(e) => Failure(e)
    case Success(ls) => Success(LatestLabels(ls))
  }

  /** Each label `get_all_for_content_id` yields is decoded from a stored row
      in the id's range; it raises only on such a row that does not decode,
      so never on a table of decodable rows. */
  lemma GetAllSound(s: seq<Row>, contentId: string)
    ensures var r := GetAllForContentId(s, contentId);
      && (r.Success? ==> forall l :: l in r.value ==>
            exists x :: x in s && InContentRange(x.key, contentId) && FromKv(x) == Success(l))
      && (r.Failure? ==>
            exists x :: x in s && InContentRange(x.key, contentId) && FromKv(x) == Failure(r.error))
      && (Decodable(s) ==> r.Success?)
  {
    var rows := Scan(s, [Str(contentId)], [Str(contentId + [HighChar])]);
    match DecodeAll(rows)
    case Failure(e) =>
      FailureFromRow(rows, e);
    case Success(ls) =>
      LatestFromRows(rows, ls);
  }

  lemma FailureFromRow(rows: seq<Row>, e: Error)
    requires DecodeAll(rows) == Failure(e)
    ensures exists x :: x in rows && FromKv(x) == Failure(e)
  {
    var i :| 0 <= i < |rows| && FromKv(rows[i]) == Failure(e);
    assert rows[i] in rows;
  }

  /** Every label `latest_labels` keeps was decoded from one of the rows. */
  lemma LatestFromRows(rows: seq<Row>, ls: seq<Label>)
    requires DecodeAll(rows) == Success(ls)
    ensures forall l :: l in LatestLabels(ls) ==> exists x :: x in rows && FromKv(x) == Success(l)
  {
    LatestMembers(ls);
    forall l | l in LatestLabels(ls)
      ensures exists x :: x in rows && FromKv(x) == Success(l)
    {
      var i :| 0 <= i < |ls| && ls[i] == l;
      assert rows[i] in rows;
    }
  }

  /** Every decodable row has an equal label among what `latest_labels` keeps. */
  lemma RowsCoveredByLatest(rows: seq<Row>, ls: seq<Label>)
    requires DecodeAll(rows) == Success(ls)
    ensures forall x :: x in rows ==>
      FromKv(x).Success? && exists l :: l in LatestLabels(ls) && Eq(l, FromKv(x).value)
  {
    LatestCovers(ls);
    forall x | x in rows
      ensures FromKv(x).Success? && exists l :: l in LatestLabels(ls) && Eq(l, FromKv(x).value)
    {
      var i :| 0 <= i < |rows| && rows[i] == x;
      assert ls[i] in ls;
    }
  }

  /** Every stored label whose row starts with the requested id is represented
      in the answer by an equal label. */
  lemma GetAllCovers(s: seq<Row>, contentId: string)
    requires GetAllForContentId(s, contentId).Success?
    ensures forall x :: x in s && x.key.c1 == contentId ==>
      FromKv(x).Success? &&
      exists l :: l in GetAllForContentId(s, contentId).value && Eq(l, FromKv(x).value)
  {
    var rows := Scan(s, [Str(contentId)], [Str(contentId + [HighChar])]);
    var ls := DecodeAll(rows).value;
    RowsCoveredByLatest(rows, ls);
    forall x | x in s && x.key.c1 == contentId
      ensures x in rows
    {
      ContentRangeHoldsOwnId(x.key);
    }
  }

  /** Every row in `cid`'s range is stored under `cid` itself, with the same
      subtopic on both sides: each label then has one orientation in the
      range. */
  predicate PlainRange(s: seq<Row>, contentId: string)
  {
    forall x :: x in s && InContentRange(x.key, contentId) ==>
      x.key.c1 == contentId && x.key.s1 == x.key.s2
  }

  /** Rows decoded in key order, all in one orientation, give grouped labels. */
  lemma DecodedGrouped(rows: seq<Row>, ls: seq<Label>, contentId: string)
    requires Sorted(rows) && |ls| == |rows|
    requires forall i :: 0 <= i < |rows| ==> FromKv(rows[i]) == Success(ls[i])
    requires forall i :: 0 <= i < |rows| ==>
      rows[i].key.c1 == contentId && rows[i].key.s1 == rows[i].key.s2
    ensures Grouped(ls)
  {
    forall i, j | 0 <= i < j < |ls| && Eq(ls[i], ls[j])
      ensures ls[j].epochTicks <= ls[i].epochTicks
      ensures forall k :: i < k < j ==> Eq(ls[i], ls[k])
    {
      var ki, kj := rows[i].key, rows[j].key;
      assert ToKv(ls[i]).key == ki && ToKv(ls[j]).key == kj;
      assert Prefix(ki) == Prefix(kj);
      KeyLtLex(ki, kj);
      FieldsLtIrreflexive(Prefix(ki));
      forall k | i < k < j
        ensures Eq(ls[i], ls[k])
      {
        var kk := rows[k].key;
        assert ToKv(ls[k]).key == kk;
        KeyLtLex(ki, kk);
        KeyLtLex(kk, kj);
        if Prefix(ki) != Prefix(kk) {
          FieldsLtAsymmetric(Prefix(ki), Prefix(kk));
          assert false;
        }
        PrefixInjective(ki, kk);
      }
    }
  }

  /** Decoded grouped rows: no row holds a label newer than the equal label
      `latest_labels` keeps. */
  lemma DecodedNewest(rows: seq<Row>, ls: seq<Label>)
    requires Grouped(ls) && |ls| == |rows|
    requires forall i :: 0 <= i < |rows| ==> FromKv(rows[i]) == Success(ls[i])
    ensures forall l, x :: (l in LatestLabels(ls) && x in rows
      && FromKv(x).Success? && Eq(FromKv(x).value, l)) ==>
      FromKv(x).value.epochTicks <= l.epochTicks
  {
    LatestGroupedNewest(ls);
    forall l, x | l in LatestLabels(ls) && x in rows && FromKv(x).Success? && Eq(FromKv(x).value, l)
      ensures FromKv(x).value.epochTicks <= l.epochTicks
    {
      var i :| 0 <= i < |rows| && rows[i] == x;
      assert ls[i] in ls;
      EqSymmetric(FromKv(x).value, l);
    }
  }

  /** On a plain range every scanned row is under the id, without subtopics. */
  lemma ScanPlain(s: seq<Row>, contentId: string)
    requires PlainRange(s, contentId)
    ensures var rows := Scan(s, [Str(contentId)], [Str(contentId + [HighChar])]);
      forall i :: 0 <= i < |rows| ==> rows[i].key.c1 == contentId && rows[i].key.s1 == rows[i].key.s2
  {
    var rows := Scan(s, [Str(contentId)], [Str(contentId + [HighChar])]);
    forall i | 0 <= i < |rows|
      ensures rows[i].key.c1 == contentId && rows[i].key.s1 == rows[i].key.s2
    {
      assert rows[i] in rows;
    }
  }

  /** On a plain range `get_all_for_content_id` yields one label per
      identity, and each is the most recent stored in the range. */
  lemma GetAllNewest(s: seq<Row>, contentId: string)
    requires Sorted(s) && PlainRange(s, contentId)
    ensures var r := GetAllForContentId(s, contentId);
      r.Success? ==>
        && (forall i, j :: 0 <= i < j < |r.value| ==> !Eq(r.value[i], r.value[j]))
        && (forall l, x ::
              (l in r.value && x in s && InContentRange(x.key, contentId)
               && FromKv(x).Success? && Eq(FromKv(x).value, l)) ==>
              FromKv(x).value.epochTicks <= l.epochTicks)
  {
    var rows := Scan(s, [Str(contentId)], [Str(contentId + [HighChar])]);
    if DecodeAll(rows).Success? {
      var ls := DecodeAll(rows).value;
      ScanPlain(s, contentId);
      DecodedGrouped(rows, ls, contentId);
      LatestGroupedDistinct(ls);
      DecodedNewest(rows, ls);
    }
  }


  /** `LabelStore.everything(include_deleted)`: the whole table decoded, and
      reduced by `latest_labels` unless superseded labels are asked for. */
  function Everything(s: seq<Row>, includeDeleted: bool): (r: Result<seq<Label>, Error>)
    ensures Decodable(s) <==> r.Success?
    ensures r.Success? && includeDeleted ==>
      |r.value| == |s| && forall i :: 0 <= i < |s| ==> FromKv(s[i]) == Success(r.value[i])
    ensures r.Success? && !includeDeleted ==>
      && (forall l :: l in r.value ==> exists x :: x in s && FromKv(x) == Success(l))
      && (forall x :: x in s ==> exists l :: l in r.value && Eq(l, FromKv(x).value))
  {
    match DecodeAll(s)
    case Failure(e) => Failure(e)
    case Success(ls) =>
      if includeDeleted then Success(ls)
      else
        LatestFromRows(s, ls);
        RowsCoveredByLatest(s, ls);
        Success(LatestLabels(ls))
  }
}
