/** The `Label` value type of dossier/label/label.py: a coreference judgment
    between two content items, with order-insensitive identity, a recency
    order that matches the store's key order, and a two-way storage encoding. */
module Labels {
  import opened Results
  import opened Ordering
  import Decimal

  /** UNIX epoch plus 100 years, in milliseconds: stored keys hold the
      complement of a label's ticks against it so that an ascending scan of
      unsigned integers meets the newest label first. */
  const MAX_MILLI_TICKS: int := ((60 * 60 * 24) * 365 * 100) * 1000

  /** A human judgment about whether two items are coreferent. */
  datatype CorefValue = Negative | Unknown | Positive

  /** The integer behind each judgment (`CorefValue.value`). */
  function ValueToInt(v: CorefValue): int
  {
    match v
    case Negative => -1
    case Unknown => 0
    case Positive => 1
  }

  /** The exceptions raised by the label code: `CorefValue(i)` on an integer
      other than -1, 0, 1; `int(s)` on a stored value that is not a number;
      `LabelStore.get` when nothing is stored under the requested key. */
  datatype Error = InvalidValue(given: int) | MalformedRow | NotFound

  /** `CorefValue(i)`. */
  function ValueOfInt(i: int): (r: Result<CorefValue, Error>)
    ensures r.Success? <==> -1 <= i <= 1
    ensures r.Success? ==> ValueToInt(r.value) == i
    ensures r.Failure? ==> r.error == InvalidValue(i)
  {
    if i == -1 then Success(Negative)
    else if i == 0 then Success(Unknown)
    else if i == 1 then Success(Positive)
    else Failure(InvalidValue(i))
  }

  /** A judgment argument as callers pass it: the enumeration or a raw integer. */
  datatype ValueArg = Enum(v: CorefValue) | Raw(i: int)

  /** `CorefValue(value) if isinstance(value, int) else value`. */
  function ResolveValue(value: ValueArg): (r: Result<CorefValue, Error>)
    ensures value.Enum? ==> r == Success(value.v)
    ensures value.Raw? ==> (r.Success? <==> -1 <= value.i <= 1)
    ensures value.Raw? && r.Success? ==> ValueToInt(r.value) == value.i
    ensures r.Failure? ==> r.error == InvalidValue(value.i)
  {
    match value
    case Enum(v) => Success(v)
    case Raw(i) => ValueOfInt(i)
  }

  datatype Label = Label(
    contentId1: string,
    contentId2: string,
    subtopicId1: string,
    subtopicId2: string,
    annotatorId: string,
    epochTicks: int,
    value: CorefValue)

  /** `Label(content_id1, content_id2, annotator_id, value, subtopic_id1,
      subtopic_id2, epoch_ticks)`: a missing subtopic becomes the empty
      string and an integer value must name a judgment. The ticks are an
      explicit argument here (the source defaults them to the wall clock). */
  function NewLabel(contentId1: string, contentId2: string, annotatorId: string, value: ValueArg,
                    subtopicId1: Option<string>, subtopicId2: Option<string>, epochTicks: int)
    : (r: Result<Label, Error>)
    ensures r.Success? <==> value.Enum? || -1 <= value.i <= 1
    ensures r.Failure? ==> r.error == InvalidValue(value.i)
    ensures r.Success? ==>
      && r.value.contentId1 == contentId1 && r.value.contentId2 == contentId2
      && r.value.annotatorId == annotatorId && r.value.epochTicks == epochTicks
      && (subtopicId1.None? ==> r.value.subtopicId1 == "")
      && (subtopicId2.None? ==> r.value.subtopicId2 == "")
      && (subtopicId1.Some? ==> r.value.subtopicId1 == subtopicId1.value)
      && (subtopicId2.Some? ==> r.value.subtopicId2 == subtopicId2.value)
      && (value.Enum? ==> r.value.value == value.v)
      && (value.Raw? ==> ValueToInt(r.value.value) == value.i)
  {
    match ResolveValue(value)
    case Failure(e) => Failure(e)
    case Success(v) =>
      var s1 := if subtopicId1.Some? then subtopicId1.value else "";
      var s2 := if subtopicId2.Some? then subtopicId2.value else "";
      Success(Label(contentId1, contentId2, s1, s2, annotatorId, epochTicks, v))
  }

  /** `normalize_pair(x, y)`: the two strings in ascending order. */
  function NormalizePair(x: string, y: string): (r: (string, string))
    ensures StrLe(r.0, r.1)
    ensures r == (x, y) || r == (y, x)
  {
    StrLtTotal(x, y);
    if StrLt(y, x) then (y, x) else (x, y)
  }

  lemma NormalizePairSymmetric(x: string, y: string)
    ensures NormalizePair(x, y) == NormalizePair(y, x)
  {
    if x != y {
      StrLtTotal(x, y);
      if StrLt(x, y) {
        StrLtAsymmetric(x, y);
      } else {
        StrLtAsymmetric(y, x);
      }
    }
  }

  /** `unordered_pair_eq(p, q)`. */
  predicate UnorderedPairEq(p: (string, string), q: (string, string))
  {
    (p.0 == q.0 && p.1 == q.1) || (p.0 == q.1 && p.1 == q.0)
  }

  /** The law the source documents: unordered equality is equality of the
      pairs read as sets. */
  lemma UnorderedPairEqIsSetEq(p: (string, string), q: (string, string))
    ensures UnorderedPairEq(p, q) <==> {p.0, p.1} == {q.0, q.1}
  {
    if {p.0, p.1} == {q.0, q.1} {
      assert p.0 in {q.0, q.1} && p.1 in {q.0, q.1};
      assert q.0 in {p.0, p.1} && q.1 in {p.0, p.1};
    }
  }

  /** Unordered equality is exactly equality after normalization. */
  lemma UnorderedPairEqIffNormalized(p: (string, string), q: (string, string))
    ensures UnorderedPairEq(p, q) <==> NormalizePair(p.0, p.1) == NormalizePair(q.0, q.1)
  {
    NormalizePairSymmetric(p.0, p.1);
    NormalizePairSymmetric(q.0, q.1);
  }

  /** `Label.reversed()`: both pairs swapped, everything else kept. */
  function Reversed(l: Label): (r: Label)
    ensures r.contentId1 == l.contentId2 && r.contentId2 == l.contentId1
    ensures r.subtopicId1 == l.subtopicId2 && r.subtopicId2 == l.subtopicId1
    ensures r.annotatorId == l.annotatorId && r.epochTicks == l.epochTicks && r.value == l.value
  {
    l.(contentId1 := l.contentId2, contentId2 := l.contentId1,
       subtopicId1 := l.subtopicId2, subtopicId2 := l.subtopicId1)
  }

  /** `Label.__eq__`: the annotator and both unordered pairs agree; ticks
      and value play no part. */
  predicate Eq(l1: Label, l2: Label)
  {
    && l1.annotatorId == l2.annotatorId
    && UnorderedPairEq((l1.contentId1, l1.contentId2), (l2.contentId1, l2.contentId2))
    && UnorderedPairEq((l1.subtopicId1, l1.subtopicId2), (l2.subtopicId1, l2.subtopicId2))
  }

  /** The tuple `Label.__hash__` hashes: the annotator and both normalized pairs. */
  function Identity(l: Label): (string, (string, string), (string, string))
  {
    (l.annotatorId,
     NormalizePair(l.contentId1, l.contentId2),
     NormalizePair(l.subtopicId1, l.subtopicId2))
  }

  /** Hash/equality consistency: equal labels hash alike, and labels that
      hash alike are equal. */
  lemma EqIffSameIdentity(l1: Label, l2: Label)
    ensures Eq(l1, l2) <==> Identity(l1) == Identity(l2)
  {
    UnorderedPairEqIffNormalized((l1.contentId1, l1.contentId2), (l2.contentId1, l2.contentId2));
    UnorderedPairEqIffNormalized((l1.subtopicId1, l1.subtopicId2), (l2.subtopicId1, l2.subtopicId2));
  }

  /** Label equality is an equivalence relation. */
  lemma EqTransitive(a: Label, b: Label, c: Label)
    requires Eq(a, b) && Eq(b, c)
    ensures Eq(a, c)
  {
    EqIffSameIdentity(a, b);
    EqIffSameIdentity(b, c);
    EqIffSameIdentity(a, c);
  }

  lemma EqSymmetric(a: Label, b: Label)
    requires Eq(a, b)
    ensures Eq(b, a)
  {
  }

  /** `lab == lab.reversed()` for every label, and reversing twice gives the label back. */
  lemma ReversedLaws(l: Label)
    ensures Eq(l, Reversed(l)) && Identity(l) == Identity(Reversed(l))
    ensures Reversed(Reversed(l)) == l
  {
    EqIffSameIdentity(l, Reversed(l));
  }

  /** `time_complement(t)`. */
  function TimeComplement(t: int): int
  {
    MAX_MILLI_TICKS - t
  }

  /** The complement reverses the order of ticks and undoes itself; ticks in
      `[0, MAX_MILLI_TICKS]` keep a complement in the same unsigned range. */
  lemma TimeComplementLaws(t1: int, t2: int)
    ensures t1 < t2 <==> TimeComplement(t2) < TimeComplement(t1)
    ensures TimeComplement(TimeComplement(t1)) == t1
    ensures 0 <= t1 <= MAX_MILLI_TICKS ==> 0 <= TimeComplement(t1) <= MAX_MILLI_TICKS
  {
  }

  /** The key tuple shared by the store's rows and by `Label._cmp_value`:
      four id strings, the annotator, and a complemented tick count. */
  datatype Key = Key(c1: string, c2: string, s1: string, s2: string, ann: string, t: int)

  /** The five string fields of a key. */
  function Prefix(k: Key): seq<Field>
  {
    [Str(k.c1), Str(k.c2), Str(k.s1), Str(k.s2), Str(k.ann)]
  }

  /** A key as the tuple the store and Python compare. */
  function Fields(k: Key): seq<Field>
  {
    Prefix(k) + [Int(k.t)]
  }

  lemma FieldsInjective(a: Key, b: Key)
    requires Fields(a) == Fields(b)
    ensures a == b
  {
    assert Fields(a)[0] == Fields(b)[0] && Fields(a)[1] == Fields(b)[1];
    assert Fields(a)[2] == Fields(b)[2] && Fields(a)[3] == Fields(b)[3];
    assert Fields(a)[4] == Fields(b)[4] && Fields(a)[5] == Fields(b)[5];
  }

  lemma PrefixInjective(a: Key, b: Key)
    requires Prefix(a) == Prefix(b)
    ensures a.(t := 0) == b.(t := 0)
  {
    assert Prefix(a)[0] == Prefix(b)[0] && Prefix(a)[1] == Prefix(b)[1];
    assert Prefix(a)[2] == Prefix(b)[2] && Prefix(a)[3] == Prefix(b)[3];
    assert Prefix(a)[4] == Prefix(b)[4];
  }

  /** Tuple order on keys. */
  predicate KeyLt(a: Key, b: Key)
  {
    FieldsLt(Fields(a), Fields(b))
  }

  /** Keys compare on their five strings first and on the tick field last. */
  lemma KeyLtLex(a: Key, b: Key)
    ensures KeyLt(a, b) <==> FieldsLt(Prefix(a), Prefix(b)) || (Prefix(a) == Prefix(b) && a.t < b.t)
  {
    FieldsLtSplit(Prefix(a), Int(a.t), Prefix(b), Int(b.t));
  }

  lemma KeyLtIrreflexive(a: Key)
    ensures !KeyLt(a, a)
  {
    FieldsLtIrreflexive(Fields(a));
  }

  lemma KeyLtTransitive(a: Key, b: Key, c: Key)
    requires KeyLt(a, b) && KeyLt(b, c)
    ensures KeyLt(a, c)
  {
    FieldsLtTransitive(Fields(a), Fields(b), Fields(c));
  }

  lemma KeyLtTotal(a: Key, b: Key)
    ensures KeyLt(a, b) || a == b || KeyLt(b, a)
  {
    FieldsLtTotal(Fields(a), Fields(b));
    if Fields(a) == Fields(b) {
      FieldsInjective(a, b);
    }
  }

  /** `Label._cmp_value`: normalized pairs, annotator, complemented ticks. */
  function CmpValue(l: Label): (k: Key)
    ensures StrLe(k.c1, k.c2) && StrLe(k.s1, k.s2)
  {
    var (c1, c2) := NormalizePair(l.contentId1, l.contentId2);
    var (s1, s2) := NormalizePair(l.subtopicId1, l.subtopicId2);
    Key(c1, c2, s1, s2, l.annotatorId, TimeComplement(l.epochTicks))
  }

  /** `Label.__lt__`. */
  predicate Lt(l1: Label, l2: Label)
  {
    KeyLt(CmpValue(l1), CmpValue(l2))
  }

  /** Not after: the ordering a sorted sequence of labels keeps. */
  predicate Le(l1: Label, l2: Label)
  {
    !Lt(l2, l1)
  }

  /** The string part of `_cmp_value` is the label's identity: two labels
      agree on it exactly when they are equal. */
  lemma CmpPrefixIsIdentity(a: Label, b: Label)
    ensures Prefix(CmpValue(a)) == Prefix(CmpValue(b)) <==> Eq(a, b)
  {
    EqIffSameIdentity(a, b);
    if Prefix(CmpValue(a)) == Prefix(CmpValue(b)) {
      PrefixInjective(CmpValue(a), CmpValue(b));
    }
  }

  /** `<` is a strict total order on `_cmp_value`; labels with the same
      `_cmp_value` are equal and carry the same ticks. */
  lemma LtStrictTotalOrder(a: Label, b: Label, c: Label)
    ensures !Lt(a, a)
    ensures Lt(a, b) && Lt(b, c) ==> Lt(a, c)
    ensures Lt(a, b) ==> !Lt(b, a)
    ensures Lt(a, b) || Lt(b, a) || (Eq(a, b) && a.epochTicks == b.epochTicks)
    ensures Eq(a, b) && a.epochTicks == b.epochTicks ==> !Lt(a, b)
  {
    KeyLtIrreflexive(CmpValue(a));
    if Lt(a, b) && Lt(b, c) {
      KeyLtTransitive(CmpValue(a), CmpValue(b), CmpValue(c));
    }
    if Lt(a, b) && Lt(b, a) {
      KeyLtTransitive(CmpValue(a), CmpValue(b), CmpValue(a));
    }
    KeyLtTotal(CmpValue(a), CmpValue(b));
    CmpPrefixIsIdentity(a, b);
    if Eq(a, b) && a.epochTicks == b.epochTicks {
      PrefixInjective(CmpValue(a), CmpValue(b));
      KeyLtIrreflexive(CmpValue(a));
    }
  }

  /** Among equal labels, whatever orientation each was built in, the one
      with more ticks sorts strictly first. */
  lemma MoreRecentSortsFirst(a: Label, b: Label)
    requires Eq(a, b)
    ensures Lt(b, a) <==> a.epochTicks < b.epochTicks
  {
    CmpPrefixIsIdentity(a, b);
    KeyLtLex(CmpValue(b), CmpValue(a));
    FieldsLtIrreflexive(Prefix(CmpValue(a)));
  }

  /** Labels equal to one another form one contiguous block of the order:
      anything sorted between two equal labels is equal to them. */
  lemma EqualLabelsContiguous(a: Label, b: Label, c: Label)
    requires Le(a, b) && Le(b, c) && Eq(a, c)
    ensures Eq(a, b) && Eq(b, c)
  {
    var ka, kb, kc := CmpValue(a), CmpValue(b), CmpValue(c);
    CmpPrefixIsIdentity(a, c);
    KeyLtTotal(ka, kb);
    KeyLtTotal(kb, kc);
    KeyLtLex(ka, kb);
    KeyLtLex(kb, kc);
    if Prefix(ka) != Prefix(kb) {
      assert FieldsLt(Prefix(ka), Prefix(kb)) && FieldsLt(Prefix(kb), Prefix(kc));
      FieldsLtAsymmetric(Prefix(ka), Prefix(kb));
      assert false;
    }
    CmpPrefixIsIdentity(a, b);
    CmpPrefixIsIdentity(b, c);
  }

  /** One stored row: the key tuple and the judgment as text. */
  datatype Row = Row(key: Key, val: string)

  /** `Label._to_kvlayer()`. */
  function ToKv(l: Label): Row
  {
    Row(Key(l.contentId1, l.contentId2, l.subtopicId1, l.subtopicId2, l.annotatorId,
            TimeComplement(l.epochTicks)),
        Decimal.ShowInt(ValueToInt(l.value)))
  }

  /** `Label._from_kvlayer(row)`: the ticks are recovered from their
      complement and the value text is parsed back into a judgment. */
  function FromKv(row: Row): (r: Result<Label, Error>)
    ensures r.Success? <==>
      Decimal.ParseInt(row.val).Some? && -1 <= Decimal.ParseInt(row.val).value <= 1
    ensures Decimal.ParseInt(row.val).None? ==> r == Failure(MalformedRow)
    ensures r.Success? ==> ToKv(r.value).key == row.key
  {
    match Decimal.ParseInt(row.val)
    case None => Failure(MalformedRow)
    case Some(i) =>
      var k := row.key;
      NewLabel(k.c1, k.c2, k.ann, Raw(i), Some(k.s1), Some(k.s2), MAX_MILLI_TICKS - k.t)
  }

  /** Decoding an encoded label gives back every field, ticks and value included. */
  lemma KvRoundTrip(l: Label)
    ensures FromKv(ToKv(l)) == Success(l)
  {
    Decimal.ParseShowInt(ValueToInt(l.value));
  }

  /** Re-encoding a decoded row whose value text is canonical gives the row back. */
  lemma KvRowRoundTrip(row: Row)
    requires row.val == "-1" || row.val == "0" || row.val == "1"
    ensures FromKv(row).Success? && ToKv(FromKv(row).value) == row
  {
    var i := if row.val == "-1" then -1 else if row.val == "0" then 0 else 1;
    Decimal.ParseShowInt(i);
    assert Decimal.ShowInt(i) == row.val;
  }

  /** A label whose pairs are both in ascending order is stored under its own
      `_cmp_value`, so for such labels the store's key order is the label order. */
  lemma StoredKeyIsCmpValue(l: Label)
    requires StrLe(l.contentId1, l.contentId2) && StrLe(l.subtopicId1, l.subtopicId2)
    ensures ToKv(l).key == CmpValue(l)
  {
    if l.contentId1 != l.contentId2 {
      StrLtAsymmetric(l.contentId1, l.contentId2);
    }
    if l.subtopicId1 != l.subtopicId2 {
      StrLtAsymmetric(l.subtopicId1, l.subtopicId2);
    }
  }

  /** When one pair is ascending and the other descending, neither stored row
      of the label carries its `_cmp_value`. */
  lemma MixedOrientationNotStoredInOrder(t: int, v: CorefValue)
    ensures var l := Label("a", "b", "y", "x", "", t, v);
      ToKv(l).key != CmpValue(l) && ToKv(Reversed(l)).key != CmpValue(l)
  {
    var l := Label("a", "b", "y", "x", "", t, v);
    assert StrLt("x", "y");
    assert CmpValue(l).s1 == "x";
    assert StrLt("a", "b");
    assert CmpValue(l).c1 == "a";
  }

  // ---- The comparisons `Label` inherits from its tuple base ----

  /** The key the inherited tuple comparisons look at first: the raw fields in
      declaration order (the value field is reached only on a tie of all six). */
  function RawKey(l: Label): Key
  {
    Key(l.contentId1, l.contentId2, l.subtopicId1, l.subtopicId2, l.annotatorId, l.epochTicks)
  }

  /** `a > b` as the class actually has it: `functools.total_ordering` adds
      nothing to a tuple subclass, so this is `tuple.__gt__` on the raw fields. */
  predicate GtAsWritten(a: Label, b: Label)
    requires RawKey(a) != RawKey(b)
  {
    KeyLt(RawKey(b), RawKey(a))
  }

  /** A label one millisecond newer than another with the same fields is
      both `<` it (recency order) and `>` it (inherited tuple order). */
  lemma GtAsWrittenContradictsLt(l: Label)
    ensures var newer := l.(epochTicks := l.epochTicks + 1);
      RawKey(newer) != RawKey(l) && Lt(newer, l) && GtAsWritten(newer, l)
  {
    var newer := l.(epochTicks := l.epochTicks + 1);
    MoreRecentSortsFirst(l, newer);
    KeyLtLex(RawKey(l), RawKey(newer));
  }

  /** `a > b` as the ordering decorator intends: the converse of `<`. */
  predicate Gt(a: Label, b: Label)
  {
    Lt(b, a)
  }

  /** The intended `>` never agrees with `<`, and exactly one of `<`, `>`
      and same-identity-same-ticks holds. */
  lemma GtConsistentWithLt(a: Label, b: Label)
    ensures Gt(a, b) ==> !Lt(a, b)
    ensures Gt(a, b) || Lt(a, b) || (Eq(a, b) && a.epochTicks == b.epochTicks)
    ensures Gt(a, b) <==> !Le(a, b)
  {
    LtStrictTotalOrder(a, b, a);
  }

  /** `a != b` as Python 2 has it: `Label` defines no `__ne__`, so the
      tuple's field-by-field inequality applies. */
  predicate NeAsWritten(a: Label, b: Label)
  {
    a != b
  }

  /** A label with two distinct content ids is both `==` and `!=` its reversal. */
  lemma NeAsWrittenContradictsEq(l: Label)
    requires l.contentId1 != l.contentId2
    ensures Eq(l, Reversed(l)) && NeAsWritten(l, Reversed(l))
  {
    assert Reversed(l).contentId1 != l.contentId1;
  }

  /** `a != b` as intended: the negation of `==`. */
  predicate Ne(a: Label, b: Label)
  {
    !Eq(a, b)
  }

  /** The intended `!=` is hash-consistent and never separates a label from its reversal. */
  lemma NeConsistentWithEq(a: Label, b: Label)
    ensures Ne(a, b) <==> Identity(a) != Identity(b)
    ensures !Ne(a, Reversed(a))
  {
    EqIffSameIdentity(a, b);
    ReversedLaws(a);
  }
}
