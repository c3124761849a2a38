/** The connected-component scenarios of dossier/label/tests/test_label_store.py:
    labels between single-letter content ids, no subtopics, an empty
    annotator, written with `LabelStore.put` and queried from `"a"` with
    value 1. Ticks are explicit: every label has ticks 1, and a superseding
    label has ticks 2. */
module Scenarios {
  import opened Results
  import opened Ordering
  import opened Labels
  import opened Store
  import opened Component
  import opened Latest

  /** `Label(c1, c2, '', value, epoch_ticks=t)`. */
  function Plain(c1: string, c2: string, t: int, v: CorefValue): Label
  {
    Label(c1, c2, "", "", "", t, v)
  }

  function AB(): Label { Plain("a", "b", 1, Positive) }
  function BC(v: CorefValue): Label { Plain("b", "c", 1, v) }
  function CD(): Label { Plain("c", "d", 1, Positive) }
  /** The later `bc` label that supersedes the first one. */
  function BCLater(v: CorefValue): Label { Plain("b", "c", 2, v) }

  /** For one-letter ids, `get_all_for_content_id`'s range holds only the
      id's own rows. */
  lemma LetterRange(k: Key, x: string)
    requires |x| == 1 && |k.c1| == 1
    ensures InContentRange(k, x) ==> k.c1 == x
  {
    ContentRangeExact(k, x);
    if k.c1 != x {
      if k.c1[0] < x[0] {
        assert StrLt(k.c1, x);
        StrLtAsymmetric(k.c1, x);
      } else {
        var hi := x + [HighChar];
        assert hi[0] == x[0] && k.c1[0] != hi[0];
        assert StrLt(hi, k.c1);
        StrLtAsymmetric(hi, k.c1);
      }
    }
  }

  /** A table of one-letter ids without subtopics keeps every range plain. */
  lemma LettersPlain(s: seq<Row>, x: string)
    requires |x| == 1
    requires forall y :: y in s ==> |y.key.c1| == 1 && y.key.s1 == y.key.s2
    ensures PlainRange(s, x)
  {
    forall y | y in s && InContentRange(y.key, x)
      ensures y.key.c1 == x
    {
      LetterRange(y.key, x);
    }
  }

  // ---- ab, bc, cd ----

  /** `put(ab); put(bc); put(cd)` with `bc` carrying value `v`. */
  function Three(v: CorefValue): seq<Row>
  {
    Put(Put(Put([], AB()), BC(v)), CD())
  }

  /** The rows `Three(v)` holds: each label in both orientations. */
  ghost predicate HoldsThree(s: seq<Row>, v: CorefValue)
  {
    forall x :: x in s <==>
      || x == ToKv(AB()) || x == ToKv(Reversed(AB()))
      || x == ToKv(BC(v)) || x == ToKv(Reversed(BC(v)))
      || x == ToKv(CD()) || x == ToKv(Reversed(CD()))
  }

  lemma ThreeRows(v: CorefValue)
    ensures Sorted(Three(v)) && Decodable(Three(v)) && HoldsThree(Three(v), v)
  {
  }

  lemma ThreeDecodes(v: CorefValue)
    ensures FromKv(ToKv(AB())) == Success(AB())
    ensures FromKv(ToKv(Reversed(AB()))) == Success(Reversed(AB()))
    ensures FromKv(ToKv(BC(v))) == Success(BC(v))
    ensures FromKv(ToKv(Reversed(BC(v)))) == Success(Reversed(BC(v)))
    ensures FromKv(ToKv(CD())) == Success(CD())
    ensures FromKv(ToKv(Reversed(CD()))) == Success(Reversed(CD()))
  {
    KvRoundTrip(AB());
    KvRoundTrip(Reversed(AB()));
    KvRoundTrip(BC(v));
    KvRoundTrip(Reversed(BC(v)));
    KvRoundTrip(CD());
    KvRoundTrip(Reversed(CD()));
  }

  lemma ThreePlain(s: seq<Row>, v: CorefValue, x: string)
    requires HoldsThree(s, v) && |x| == 1
    ensures PlainRange(s, x)
  {
    LettersPlain(s, x);
  }

  /** Whatever a one-letter id's query answers was written by one of the
      three puts, in the orientation that starts with that id. */
  lemma ThreeAnswers(s: seq<Row>, v: CorefValue, c: string, l: Label)
    requires HoldsThree(s, v) && |c| == 1 && l in Current(StoreLookup(s), c)
    ensures l.contentId1 == c
    ensures || l == AB() || l == Reversed(AB()) || l == BC(v) || l == Reversed(BC(v))
            || l == CD() || l == Reversed(CD())
  {
    ThreePlain(s, v, c);
    CurrentFromRow(s, c, l);
    var y :| y in s && y.key.c1 == c && FromKv(y) == Success(l);
    ThreeDecodes(v);
  }

  /** No other row under a label's first id holds an equal label. */
  predicate Alone(s: seq<Row>, l: Label)
  {
    forall y :: y in s && y.key.c1 == l.contentId1 && y != ToKv(l) ==>
      FromKv(y).Success? && !Eq(FromKv(y).value, l)
  }

  lemma ThreeAloneAB(s: seq<Row>, v: CorefValue)
    requires HoldsThree(s, v)
    ensures Alone(s, AB())
  {
    ThreeDecodes(v);
  }

  lemma ThreeAloneBC(s: seq<Row>, v: CorefValue)
    requires HoldsThree(s, v)
    ensures Alone(s, BC(v))
  {
    ThreeDecodes(v);
  }

  lemma ThreeAloneCD(s: seq<Row>, v: CorefValue)
    requires HoldsThree(s, v)
    ensures Alone(s, CD())
  {
    ThreeDecodes(v);
  }

  /** The label a row of the three puts holds is answered when its first id
      is queried. */
  lemma ThreeAnswered(s: seq<Row>, v: CorefValue, l: Label)
    requires HoldsThree(s, v) && Sorted(s) && Decodable(s)
    requires l == AB() || l == BC(v) || l == CD()
    ensures l in Current(StoreLookup(s), l.contentId1)
  {
    ThreePlain(s, v, l.contentId1);
    ThreeAloneAB(s, v);
    ThreeAloneBC(s, v);
    ThreeAloneCD(s, v);
    KvRoundTrip(l);
    assert ToKv(l) in s;
    NewestRowAnswered(s, l.contentId1, ToKv(l));
  }

  /** The edges a query with value `w` finds among the three puts: `ab` and
      `cd` when `w` is 1, `bc` when `w` is the value `bc` was written with. */
  lemma ThreeEdge(s: seq<Row>, v: CorefValue, w: CorefValue, x: string, y: string)
    requires HoldsThree(s, v) && |x| == 1 && Edge(StoreLookup(s), w, x, y)
    ensures || y == x
            || (w == Positive && ((x == "a" && y == "b") || (x == "b" && y == "a")))
            || (w == Positive && ((x == "c" && y == "d") || (x == "d" && y == "c")))
            || (w == v && ((x == "b" && y == "c") || (x == "c" && y == "b")))
  {
    var ls := Current(StoreLookup(s), x);
    EndpointsMember(ls, w, y);
    var l :| l in ls && l.value == w && (y == l.contentId1 || y == l.contentId2);
    ThreeAnswers(s, v, x, l);
  }

  /** Every label a component over the three puts holds is one of them, up
      to orientation. */
  lemma ThreeLabels(s: seq<Row>, v: CorefValue, w: CorefValue, labels: seq<Label>,
                    visited: set<string>, x: Label)
    requires HoldsThree(s, v) && forall c :: c in visited ==> |c| == 1
    requires IsComponent(StoreLookup(s), "a", w, labels, visited) && x in labels
    ensures x.value == w && x.contentId1 in visited
    ensures || Identity(x) == Identity(AB()) || Identity(x) == Identity(BC(v))
            || Identity(x) == Identity(CD())
    ensures || x == AB() || x == Reversed(AB()) || x == BC(v) || x == Reversed(BC(v))
            || x == CD() || x == Reversed(CD())
  {
    var c :| c in visited && x in Current(StoreLookup(s), c);
    ThreeAnswers(s, v, c, x);
    ReversedLaws(AB());
    ReversedLaws(BC(v));
    ReversedLaws(CD());
  }

  /** The first label of each orientation-`a`-`b`-`c` row is answered. */
  lemma ThreeAllAnswered(s: seq<Row>, v: CorefValue)
    requires HoldsThree(s, v) && Sorted(s) && Decodable(s)
    ensures AB() in Current(StoreLookup(s), "a")
    ensures BC(v) in Current(StoreLookup(s), "b")
    ensures CD() in Current(StoreLookup(s), "c")
  {
    ThreeAnswered(s, v, AB());
    ThreeAnswered(s, v, BC(v));
    ThreeAnswered(s, v, CD());
  }

  /** A component over any lookup whose edges from `ids` stay in `ids`
      visits only `ids`. */
  lemma VisitedWithin(g: Lookup, v: CorefValue, start: string, ids: set<string>,
                      labels: seq<Label>, visited: set<string>)
    requires start in ids && forall x, y :: x in ids && Edge(g, v, x, y) ==> y in ids
    requires IsComponent(g, start, v, labels, visited)
    ensures visited <= ids
  {
    forall c | c in visited
      ensures c in ids
    {
      ReachableWithinClosed(g, v, start, ids, c);
    }
  }

  /** With every value 1, no edge of value 1 leaves `a`, `b`, `c`, `d`. */
  lemma ChainClosed(s: seq<Row>)
    requires HoldsThree(s, Positive)
    ensures forall x, y :: x in {"a", "b", "c", "d"} && Edge(StoreLookup(s), Positive, x, y) ==>
      y in {"a", "b", "c", "d"}
  {
    forall x, y | x in {"a", "b", "c", "d"} && Edge(StoreLookup(s), Positive, x, y)
      ensures y in {"a", "b", "c", "d"}
    {
      ThreeEdge(s, Positive, Positive, x, y);
    }
  }

  /** With `bc` at -1, no edge of value 1 leaves `a` and `b`. */
  lemma PairClosed(s: seq<Row>)
    requires HoldsThree(s, Negative)
    ensures forall x, y :: x in {"a", "b"} && Edge(StoreLookup(s), Positive, x, y) ==>
      y in {"a", "b"}
  {
    forall x, y | x in {"a", "b"} && Edge(StoreLookup(s), Positive, x, y)
      ensures y in {"a", "b"}
    {
      ThreeEdge(s, Negative, Positive, x, y);
    }
  }

  /** A matching current label of a visited id has both ends visited. */
  lemma CoveredEnds(g: Lookup, w: CorefValue, start: string, labels: seq<Label>,
                    visited: set<string>, c: string, l: Label)
    requires IsComponent(g, start, w, labels, visited)
    requires c in visited && l in Current(g, c) && l.value == w
    ensures l.contentId1 in visited && l.contentId2 in visited
  {
    assert Covers(Current(g, c), w, visited, Identities(labels));
  }

  /** A matching current label of a visited id has an equal label in the
      answer. */
  lemma CoveredKey(g: Lookup, w: CorefValue, start: string, labels: seq<Label>,
                   visited: set<string>, c: string, l: Label)
    requires IsComponent(g, start, w, labels, visited)
    requires c in visited && l in Current(g, c) && l.value == w
    ensures Identity(l) in Identities(labels)
  {
    assert Covers(Current(g, c), w, visited, Identities(labels));
  }

  /** A chain of answered labels of value `w` from `a` to `b`, `b` to `c`
      and `c` to `d`, with no edge leaving those ids, makes the component of
      `a` exactly those ids. */
  lemma ChainOver(g: Lookup, w: CorefValue, a: string, b: string, c: string, d: string,
                  ab: Label, bc: Label, cd: Label, labels: seq<Label>, visited: set<string>)
    requires ab.value == w && ab.contentId1 == a && ab.contentId2 == b && ab in Current(g, a)
    requires bc.value == w && bc.contentId1 == b && bc.contentId2 == c && bc in Current(g, b)
    requires cd.value == w && cd.contentId1 == c && cd.contentId2 == d && cd in Current(g, c)
    requires forall x, y :: x in {a, b, c, d} && Edge(g, w, x, y) ==> y in {a, b, c, d}
    requires IsComponent(g, a, w, labels, visited)
    ensures visited == {a, b, c, d}
  {
    VisitedWithin(g, w, a, {a, b, c, d}, labels, visited);
    CoveredEnds(g, w, a, labels, visited, a, ab);
    CoveredEnds(g, w, a, labels, visited, b, bc);
    CoveredEnds(g, w, a, labels, visited, c, cd);
    FourOf(visited, a, b, c, d);
  }

  /** A set within four elements that holds all four is exactly them. */
  lemma FourOf(xs: set<string>, a: string, b: string, c: string, d: string)
    requires xs <= {a, b, c, d} && a in xs && b in xs && c in xs && d in xs
    ensures xs == {a, b, c, d}
  {
  }

  /** The ids the scenarios visit are single letters. */
  lemma OneLetterIds(xs: set<string>)
    requires xs <= {"a", "b", "c", "d"}
    ensures forall c :: c in xs ==> |c| == 1
  {
  }

  /** A set within one element that holds it is exactly it. */
  lemma OneOf<T>(xs: set<T>, a: T)
    requires xs <= {a} && a in xs
    ensures xs == {a}
  {
  }

  /** A set within three elements that holds all three is exactly them. */
  lemma ThreeOf<T>(xs: set<T>, a: T, b: T, c: T)
    requires xs <= {a, b, c} && a in xs && b in xs && c in xs
    ensures xs == {a, b, c}
  {
  }

  /** Labels whose keys all lie in `keys` have their hash keys in `keys`. */
  lemma KeysWithin(labels: seq<Label>, keys: set<(string, (string, string), (string, string))>)
    requires forall x :: x in labels ==> Identity(x) in keys
    ensures Identities(labels) <= keys
  {
    IdentitiesOf(labels);
  }

  /** The hash keys of a component over the three puts. */
  lemma ThreeKeys(s: seq<Row>, v: CorefValue, w: CorefValue, labels: seq<Label>,
                  visited: set<string>)
    requires HoldsThree(s, v) && forall c :: c in visited ==> |c| == 1
    requires IsComponent(StoreLookup(s), "a", w, labels, visited)
    ensures Identities(labels) <= {Identity(AB()), Identity(BC(v)), Identity(CD())}
  {
    var keys := {Identity(AB()), Identity(BC(v)), Identity(CD())};
    forall x | x in labels
      ensures Identity(x) in keys
    {
      ThreeLabels(s, v, w, labels, visited, x);
    }
    KeysWithin(labels, keys);
  }

  /** Over any table holding the rows of `put(ab); put(bc); put(cd)`, all
      with value 1, in which the three are answered. */
  lemma ChainOverThree(s: seq<Row>, labels: seq<Label>, visited: set<string>)
    requires HoldsThree(s, Positive)
    requires AB() in Current(StoreLookup(s), "a") && BC(Positive) in Current(StoreLookup(s), "b")
    requires CD() in Current(StoreLookup(s), "c")
    requires IsComponent(StoreLookup(s), "a", Positive, labels, visited)
    ensures visited == {"a", "b", "c", "d"}
    ensures Identities(labels) == {Identity(AB()), Identity(BC(Positive)), Identity(CD())}
  {
    ChainClosed(s);
    var g := StoreLookup(s);
    ChainOver(g, Positive, "a", "b", "c", "d", AB(), BC(Positive), CD(), labels, visited);
    CoveredKey(g, Positive, "a", labels, visited, "a", AB());
    CoveredKey(g, Positive, "a", labels, visited, "b", BC(Positive));
    CoveredKey(g, Positive, "a", labels, visited, "c", CD());
    OneLetterIds(visited);
    ThreeKeys(s, Positive, Positive, labels, visited);
    ThreeOf(Identities(labels), Identity(AB()), Identity(BC(Positive)), Identity(CD()));
  }

  /** `test_connected_component_many`: `ab`, `bc`, `cd` all with value 1
      join `a`, `b`, `c` and `d`, and the answer holds the three labels. */
  lemma ChainComponent(labels: seq<Label>, visited: set<string>)
    requires IsComponent(StoreLookup(Three(Positive)), "a", Positive, labels, visited)
    ensures visited == {"a", "b", "c", "d"}
    ensures Identities(labels) == {Identity(AB()), Identity(BC(Positive)), Identity(CD())}
  {
    ThreeRows(Positive);
    ThreeAllAnswered(Three(Positive), Positive);
    ChainOverThree(Three(Positive), labels, visited);
  }

  /** One answered label of value `w` from `a` to `b`, with no edge leaving
      those ids, makes the component of `a` exactly `a` and `b`. */
  lemma PairOver(g: Lookup, w: CorefValue, a: string, b: string, ab: Label,
                 labels: seq<Label>, visited: set<string>)
    requires ab.value == w && ab.contentId1 == a && ab.contentId2 == b && ab in Current(g, a)
    requires forall x, y :: x in {a, b} && Edge(g, w, x, y) ==> y in {a, b}
    requires IsComponent(g, a, w, labels, visited)
    ensures visited == {a, b}
  {
    VisitedWithin(g, w, a, {a, b}, labels, visited);
    CoveredEnds(g, w, a, labels, visited, a, ab);
  }

  /** Of the six rows with `bc` at -1, those of value 1 starting at `a` or
      `b` are `ab` in either orientation. */
  lemma PairLabel(x: Label, visited: set<string>)
    requires || x == AB() || x == Reversed(AB()) || x == BC(Negative) || x == Reversed(BC(Negative))
             || x == CD() || x == Reversed(CD())
    requires x.value == Positive && visited == {"a", "b"} && x.contentId1 in visited
    ensures Identity(x) in {Identity(AB())}
  {
    ReversedLaws(AB());
  }

  /** With `bc` at -1, a value-1 component confined to `a` and `b` holds
      nothing but `ab`. */
  lemma PairKeys(s: seq<Row>, labels: seq<Label>, visited: set<string>)
    requires HoldsThree(s, Negative) && visited == {"a", "b"}
    requires IsComponent(StoreLookup(s), "a", Positive, labels, visited)
    ensures Identities(labels) <= {Identity(AB())}
  {
    OneLetterIds(visited);
    forall x | x in labels
      ensures Identity(x) in {Identity(AB())}
    {
      ThreeLabels(s, Negative, Positive, labels, visited, x);
      PairLabel(x, visited);
    }
    KeysWithin(labels, {Identity(AB())});
  }

  /** Over any table holding the rows of `put(ab); put(bc); put(cd)` with
      `bc` at -1, in which `ab` is answered. */
  lemma BlockedOverThree(s: seq<Row>, labels: seq<Label>, visited: set<string>)
    requires HoldsThree(s, Negative) && AB() in Current(StoreLookup(s), "a")
    requires IsComponent(StoreLookup(s), "a", Positive, labels, visited)
    ensures visited == {"a", "b"}
    ensures Identities(labels) == {Identity(AB())}
  {
    PairClosed(s);
    PairOver(StoreLookup(s), Positive, "a", "b", AB(), labels, visited);
    CoveredKey(StoreLookup(s), Positive, "a", labels, visited, "a", AB());
    PairKeys(s, labels, visited);
    OneOf(Identities(labels), Identity(AB()));
  }

  /** `test_connected_component_many_diff_value`: with `bc` at value -1 the
      component of `a` stops at `b` and holds `ab` alone. */
  lemma BlockedComponent(labels: seq<Label>, visited: set<string>)
    requires IsComponent(StoreLookup(Three(Negative)), "a", Positive, labels, visited)
    ensures visited == {"a", "b"}
    ensures Identities(labels) == {Identity(AB())}
  {
    ThreeRows(Negative);
    ThreeAllAnswered(Three(Negative), Negative);
    BlockedOverThree(Three(Negative), labels, visited);
  }

  // ---- ab, bc, cd, then a later bc ----

  /** `put(ab); put(bc); put(cd)` with `bc` at `v`, then `put(bc')` of the
      same pair one tick later with value `w`. */
  function Four(v: CorefValue, w: CorefValue): seq<Row>
  {
    ThreeRows(v);
    Put(Three(v), BCLater(w))
  }

  /** The rows `Four(v, w)` holds: both puts of `bc` stay, under different
      keys, since their ticks differ. */
  ghost predicate HoldsFour(s: seq<Row>, v: CorefValue, w: CorefValue)
  {
    forall x :: x in s <==>
      || x == ToKv(AB()) || x == ToKv(Reversed(AB()))
      || x == ToKv(BC(v)) || x == ToKv(Reversed(BC(v)))
      || x == ToKv(CD()) || x == ToKv(Reversed(CD()))
      || x == ToKv(BCLater(w)) || x == ToKv(Reversed(BCLater(w)))
  }

  /** A put whose ticks no stored row shares overwrites nothing. */
  lemma PutNewTicks(s: seq<Row>, l: Label)
    requires Sorted(s) && forall x :: x in s ==> x.key.t != TimeComplement(l.epochTicks)
    ensures forall x :: x in Put(s, l) <==> x == ToKv(l) || x == ToKv(Reversed(l)) || x in s
  {
  }

  lemma ThreeTicks(s: seq<Row>, v: CorefValue)
    requires HoldsThree(s, v)
    ensures forall x :: x in s ==> x.key.t == TimeComplement(1)
  {
  }

  lemma PutLaterHolds(s: seq<Row>, v: CorefValue, w: CorefValue)
    requires HoldsThree(s, v) && Sorted(s)
    ensures HoldsFour(Put(s, BCLater(w)), v, w)
  {
    ThreeTicks(s, v);
    PutNewTicks(s, BCLater(w));
  }

  lemma FourRows(v: CorefValue, w: CorefValue)
    ensures Sorted(Four(v, w)) && Decodable(Four(v, w)) && HoldsFour(Four(v, w), v, w)
  {
    ThreeRows(v);
    PutLaterHolds(Three(v), v, w);
  }

  lemma FourDecodes(v: CorefValue, w: CorefValue)
    ensures FromKv(ToKv(AB())) == Success(AB())
    ensures FromKv(ToKv(Reversed(AB()))) == Success(Reversed(AB()))
    ensures FromKv(ToKv(BC(v))) == Success(BC(v))
    ensures FromKv(ToKv(Reversed(BC(v)))) == Success(Reversed(BC(v)))
    ensures FromKv(ToKv(CD())) == Success(CD())
    ensures FromKv(ToKv(Reversed(CD()))) == Success(Reversed(CD()))
    ensures FromKv(ToKv(BCLater(w))) == Success(BCLater(w))
    ensures FromKv(ToKv(Reversed(BCLater(w)))) == Success(Reversed(BCLater(w)))
  {
    ThreeDecodes(v);
    KvRoundTrip(BCLater(w));
    KvRoundTrip(Reversed(BCLater(w)));
  }

  lemma FourShape(s: seq<Row>, v: CorefValue, w: CorefValue)
    requires HoldsFour(s, v, w)
    ensures forall y :: y in s ==> |y.key.c1| == 1 && y.key.s1 == y.key.s2
  {
  }

  lemma FourPlain(s: seq<Row>, v: CorefValue, w: CorefValue, x: string)
    requires HoldsFour(s, v, w) && |x| == 1
    ensures PlainRange(s, x)
  {
    FourShape(s, v, w);
    LettersPlain(s, x);
  }

  /** Whatever a one-letter id's query answers was written by one of the
      four puts, in the orientation that starts with that id. */
  lemma FourFrom(s: seq<Row>, v: CorefValue, w: CorefValue, c: string, l: Label)
    requires HoldsFour(s, v, w) && |c| == 1 && l in Current(StoreLookup(s), c)
    ensures l.contentId1 == c
    ensures || l == AB() || l == Reversed(AB()) || l == BC(v) || l == Reversed(BC(v))
            || l == CD() || l == Reversed(CD()) || l == BCLater(w) || l == Reversed(BCLater(w))
  {
    FourPlain(s, v, w, c);
    CurrentFromRow(s, c, l);
    var y :| y in s && y.key.c1 == c && FromKv(y) == Success(l);
    FourDecodes(v, w);
  }

  /** The first `bc`, superseded by the later one, is never answered. */
  lemma FourFresh(s: seq<Row>, v: CorefValue, w: CorefValue, c: string, l: Label)
    requires HoldsFour(s, v, w) && Sorted(s) && |c| == 1 && l in Current(StoreLookup(s), c)
    ensures l != BC(v) && l != Reversed(BC(v))
  {
    FourFrom(s, v, w, c, l);
    FourDecodes(v, w);
    FourPlain(s, v, w, c);
    if l == BC(v) {
      CurrentNewest(s, c, l, ToKv(BCLater(w)));
      assert false;
    } else if l == Reversed(BC(v)) {
      CurrentNewest(s, c, l, ToKv(Reversed(BCLater(w))));
      assert false;
    }
  }

  /** Every other row under a label's first id holds a label that is not
      equal to it or is older. */
  predicate Unshadowed(s: seq<Row>, l: Label)
  {
    forall y :: y in s && y.key.c1 == l.contentId1 && y != ToKv(l) ==>
      FromKv(y).Success? && (Eq(FromKv(y).value, l) ==> FromKv(y).value.epochTicks < l.epochTicks)
  }

  lemma FourUnshadowedAB(s: seq<Row>, v: CorefValue, w: CorefValue)
    requires HoldsFour(s, v, w)
    ensures Unshadowed(s, AB())
  {
    FourDecodes(v, w);
  }

  lemma FourUnshadowedBC(s: seq<Row>, v: CorefValue, w: CorefValue)
    requires HoldsFour(s, v, w)
    ensures Unshadowed(s, BCLater(w))
  {
    FourDecodes(v, w);
  }

  lemma FourUnshadowedCD(s: seq<Row>, v: CorefValue, w: CorefValue)
    requires HoldsFour(s, v, w)
    ensures Unshadowed(s, CD())
  {
    FourDecodes(v, w);
  }

  /** The newest label of each of `ab`, `bc`, `cd` is answered when its first
      id is queried. */
  lemma FourAnswered(s: seq<Row>, v: CorefValue, w: CorefValue, l: Label)
    requires HoldsFour(s, v, w) && Sorted(s) && Decodable(s)
    requires l == AB() || l == BCLater(w) || l == CD()
    ensures l in Current(StoreLookup(s), l.contentId1)
  {
    FourPlain(s, v, w, l.contentId1);
    FourUnshadowedAB(s, v, w);
    FourUnshadowedBC(s, v, w);
    FourUnshadowedCD(s, v, w);
    KvRoundTrip(l);
    assert ToKv(l) in s;
    NewestRowAnswered(s, l.contentId1, ToKv(l));
  }

  lemma FourAllAnswered(s: seq<Row>, v: CorefValue, w: CorefValue)
    requires HoldsFour(s, v, w) && Sorted(s) && Decodable(s)
    ensures AB() in Current(StoreLookup(s), "a")
    ensures BCLater(w) in Current(StoreLookup(s), "b")
    ensures CD() in Current(StoreLookup(s), "c")
  {
    FourAnswered(s, v, w, AB());
    FourAnswered(s, v, w, BCLater(w));
    FourAnswered(s, v, w, CD());
  }

  /** The edges a query with value `u` finds after the later put: `ab` and
      `cd` when `u` is 1, `bc` only when `u` is the later value. */
  lemma FourEdge(s: seq<Row>, v: CorefValue, w: CorefValue, u: CorefValue, x: string, y: string)
    requires HoldsFour(s, v, w) && Sorted(s) && |x| == 1 && Edge(StoreLookup(s), u, x, y)
    ensures || y == x
            || (u == Positive && ((x == "a" && y == "b") || (x == "b" && y == "a")))
            || (u == Positive && ((x == "c" && y == "d") || (x == "d" && y == "c")))
            || (u == w && ((x == "b" && y == "c") || (x == "c" && y == "b")))
  {
    var ls := Current(StoreLookup(s), x);
    EndpointsMember(ls, u, y);
    var l :| l in ls && l.value == u && (y == l.contentId1 || y == l.contentId2);
    FourFrom(s, v, w, x, l);
    FourFresh(s, v, w, x, l);
  }

  /** Every label a component after the later put holds is one of the
      current ones, up to orientation. */
  lemma FourLabels(s: seq<Row>, v: CorefValue, w: CorefValue, u: CorefValue, labels: seq<Label>,
                   visited: set<string>, x: Label)
    requires HoldsFour(s, v, w) && Sorted(s) && forall c :: c in visited ==> |c| == 1
    requires IsComponent(StoreLookup(s), "a", u, labels, visited) && x in labels
    ensures x.value == u && x.contentId1 in visited
    ensures || x == AB() || x == Reversed(AB()) || x == BCLater(w) || x == Reversed(BCLater(w))
            || x == CD() || x == Reversed(CD())
  {
    var c :| c in visited && x in Current(StoreLookup(s), c);
    FourFrom(s, v, w, c, x);
    FourFresh(s, v, w, c, x);
  }

  /** With the later `bc` at 1, no edge of value 1 leaves `a`, `b`, `c`, `d`. */
  lemma WidenClosed(s: seq<Row>)
    requires HoldsFour(s, Negative, Positive) && Sorted(s)
    ensures forall x, y :: x in {"a", "b", "c", "d"} && Edge(StoreLookup(s), Positive, x, y) ==>
      y in {"a", "b", "c", "d"}
  {
    forall x, y | x in {"a", "b", "c", "d"} && Edge(StoreLookup(s), Positive, x, y)
      ensures y in {"a", "b", "c", "d"}
    {
      FourEdge(s, Negative, Positive, Positive, x, y);
    }
  }

  /** With the later `bc` at -1, no edge of value 1 leaves `a` and `b`. */
  lemma NarrowClosed(s: seq<Row>)
    requires HoldsFour(s, Positive, Negative) && Sorted(s)
    ensures forall x, y :: x in {"a", "b"} && Edge(StoreLookup(s), Positive, x, y) ==>
      y in {"a", "b"}
  {
    forall x, y | x in {"a", "b"} && Edge(StoreLookup(s), Positive, x, y)
      ensures y in {"a", "b"}
    {
      FourEdge(s, Positive, Negative, Positive, x, y);
    }
  }

  /** The hash keys of a component after the later put. */
  lemma FourKeys(s: seq<Row>, v: CorefValue, w: CorefValue, u: CorefValue, labels: seq<Label>,
                 visited: set<string>)
    requires HoldsFour(s, v, w) && Sorted(s) && forall c :: c in visited ==> |c| == 1
    requires IsComponent(StoreLookup(s), "a", u, labels, visited)
    ensures Identities(labels) <= {Identity(AB()), Identity(BCLater(w)), Identity(CD())}
  {
    var keys := {Identity(AB()), Identity(BCLater(w)), Identity(CD())};
    forall x | x in labels
      ensures Identity(x) in keys
    {
      FourLabels(s, v, w, u, labels, visited, x);
      ReversedLaws(AB());
      ReversedLaws(BCLater(w));
      ReversedLaws(CD());
    }
    KeysWithin(labels, keys);
  }

  /** Over any sorted table holding the rows of the four puts, the later
      `bc` at 1, in which the newest labels are answered. */
  lemma WidenOverFour(s: seq<Row>, labels: seq<Label>, visited: set<string>)
    requires HoldsFour(s, Negative, Positive) && Sorted(s)
    requires AB() in Current(StoreLookup(s), "a") && BCLater(Positive) in Current(StoreLookup(s), "b")
    requires CD() in Current(StoreLookup(s), "c")
    requires IsComponent(StoreLookup(s), "a", Positive, labels, visited)
    ensures visited == {"a", "b", "c", "d"}
    ensures Identities(labels) == {Identity(AB()), Identity(BCLater(Positive)), Identity(CD())}
  {
    WidenClosed(s);
    var g := StoreLookup(s);
    ChainOver(g, Positive, "a", "b", "c", "d", AB(), BCLater(Positive), CD(), labels, visited);
    CoveredKey(g, Positive, "a", labels, visited, "a", AB());
    CoveredKey(g, Positive, "a", labels, visited, "b", BCLater(Positive));
    CoveredKey(g, Positive, "a", labels, visited, "c", CD());
    OneLetterIds(visited);
    FourKeys(s, Negative, Positive, Positive, labels, visited);
    ThreeOf(Identities(labels), Identity(AB()), Identity(BCLater(Positive)), Identity(CD()));
  }

  /** `test_connected_component_many_most_recent`: after `bc` at -1 is
      superseded by `bc` at 1 one tick later, the component of `a` grows to
      `a`, `b`, `c`, `d` through the newer label. */
  lemma WidenComponent(labels: seq<Label>, visited: set<string>)
    requires IsComponent(StoreLookup(Four(Negative, Positive)), "a", Positive, labels, visited)
    ensures visited == {"a", "b", "c", "d"}
    ensures Identities(labels) == {Identity(AB()), Identity(BCLater(Positive)), Identity(CD())}
  {
    FourRows(Negative, Positive);
    FourAllAnswered(Four(Negative, Positive), Negative, Positive);
    WidenOverFour(Four(Negative, Positive), labels, visited);
  }

  /** Of the current rows with the later `bc` at -1, those of value 1
      starting at `a` or `b` are `ab` in either orientation. */
  lemma NarrowLabel(x: Label, visited: set<string>)
    requires || x == AB() || x == Reversed(AB()) || x == BCLater(Negative)
             || x == Reversed(BCLater(Negative)) || x == CD() || x == Reversed(CD())
    requires x.value == Positive && visited == {"a", "b"} && x.contentId1 in visited
    ensures Identity(x) in {Identity(AB())}
  {
    ReversedLaws(AB());
  }

  /** With the later `bc` at -1, a value-1 component confined to `a` and `b`
      holds nothing but `ab`. */
  lemma NarrowKeys(s: seq<Row>, labels: seq<Label>, visited: set<string>)
    requires HoldsFour(s, Positive, Negative) && Sorted(s) && visited == {"a", "b"}
    requires IsComponent(StoreLookup(s), "a", Positive, labels, visited)
    ensures Identities(labels) <= {Identity(AB())}
  {
    OneLetterIds(visited);
    forall x | x in labels
      ensures Identity(x) in {Identity(AB())}
    {
      FourLabels(s, Positive, Negative, Positive, labels, visited, x);
      NarrowLabel(x, visited);
    }
    KeysWithin(labels, {Identity(AB())});
  }

  /** Over any sorted table holding the rows of the four puts, the later
      `bc` at -1, in which `ab` is answered. */
  lemma NarrowOverFour(s: seq<Row>, labels: seq<Label>, visited: set<string>)
    requires HoldsFour(s, Positive, Negative) && Sorted(s) && AB() in Current(StoreLookup(s), "a")
    requires IsComponent(StoreLookup(s), "a", Positive, labels, visited)
    ensures visited == {"a", "b"}
    ensures Identities(labels) == {Identity(AB())}
  {
    NarrowClosed(s);
    PairOver(StoreLookup(s), Positive, "a", "b", AB(), labels, visited);
    CoveredKey(StoreLookup(s), Positive, "a", labels, visited, "a", AB());
    NarrowKeys(s, labels, visited);
    OneOf(Identities(labels), Identity(AB()));
  }

  /** `test_connected_component_many_most_recent_diff_value`: after `bc` at 1
      is superseded by `bc` at -1 one tick later, the component of `a`
      shrinks to `a` and `b` with `ab` alone. */
  lemma NarrowComponent(labels: seq<Label>, visited: set<string>)
    requires IsComponent(StoreLookup(Four(Positive, Negative)), "a", Positive, labels, visited)
    ensures visited == {"a", "b"}
    ensures Identities(labels) == {Identity(AB())}
  {
    FourRows(Positive, Negative);
    FourAllAnswered(Four(Positive, Negative), Positive, Negative);
    NarrowOverFour(Four(Positive, Negative), labels, visited);
  }

  // ---- ab, ac, bc: the labels one id's query answers ----

  function AC(): Label { Plain("a", "c", 1, Positive) }
  /** `ac` written the other way round, `Label('c', 'a', '', 1)`. */
  function CA(): Label { Plain("c", "a", 1, Positive) }

  /** `put(ab); put(ac); put(bc)`, all with value 1. */
  function Direct(): seq<Row>
  {
    Put(Put(Put([], AB()), AC()), BC(Positive))
  }

  /** `put(ab); put(ca); put(bc)`: the second label in the other orientation. */
  function DirectUnordered(): seq<Row>
  {
    Put(Put(Put([], AB()), CA()), BC(Positive))
  }

  /** The rows both tables hold: each label in both orientations. */
  ghost predicate HoldsDirect(s: seq<Row>)
  {
    forall x :: x in s <==>
      || x == ToKv(AB()) || x == ToKv(Reversed(AB()))
      || x == ToKv(AC()) || x == ToKv(Reversed(AC()))
      || x == ToKv(BC(Positive)) || x == ToKv(Reversed(BC(Positive)))
  }

  lemma DirectRows()
    ensures Sorted(Direct()) && HoldsDirect(Direct())
  {
  }

  lemma DirectUnorderedRows()
    ensures Sorted(DirectUnordered()) && HoldsDirect(DirectUnordered())
  {
    assert Reversed(CA()) == AC() && Reversed(AC()) == CA();
  }

  /** A strictly ascending table of exactly two rows lists them in key order. */
  lemma SortedOfTwo(r: seq<Row>, x: Row, y: Row)
    requires Sorted(r) && KeyLt(x.key, y.key)
    requires forall z :: z in r <==> z == x || z == y
    ensures r == [x, y]
  {
    KeyLtIrreflexive(x.key);
    KeyLtIrreflexive(y.key);
    assert !KeyLt(y.key, x.key) by {
      if KeyLt(y.key, x.key) {
        KeyLtTransitive(x.key, y.key, x.key);
      }
    }
    assert x in r && y in r;
    LeadingMembers(r);
  }

  lemma LeadingMembers<T>(s: seq<T>)
    ensures |s| > 1 ==> s[0] in s && s[1] in s
    ensures |s| > 2 ==> s[2] in s
  {
  }

  /** On either table the scan for `a` yields the rows of `ab` and `ac`, in
      that order. */
  lemma DirectScan(s: seq<Row>)
    requires Sorted(s) && HoldsDirect(s)
    ensures Scan(s, [Str("a")], [Str("a" + [HighChar])]) == [ToKv(AB()), ToKv(AC())]
  {
    var rows := Scan(s, [Str("a")], [Str("a" + [HighChar])]);
    forall z
      ensures z in rows <==> z == ToKv(AB()) || z == ToKv(AC())
    {
      if z in s {
        LetterRange(z.key, "a");
        ContentRangeHoldsOwnId(z.key);
      }
    }
    KeyLtLex(ToKv(AB()).key, ToKv(AC()).key);
    assert StrLt("b", "c");
    SortedOfTwo(rows, ToKv(AB()), ToKv(AC()));
  }

  lemma DirectDecodes()
    ensures DecodeAll([ToKv(AB()), ToKv(AC())]) == Success([AB(), AC()])
  {
    var rows := [ToKv(AB()), ToKv(AC())];
    KvRoundTrip(AB());
    KvRoundTrip(AC());
    assert FromKv(rows[0]) == Success(AB()) && FromKv(rows[1]) == Success(AC());
    var decoded := DecodeAll(rows);
    assert decoded.Success?;
    assert decoded.value[0] == AB() && decoded.value[1] == AC();
    assert decoded.value == [AB(), AC()];
  }

  /** On either table `get_all_for_content_id('a')` decodes the rows of `ab`
      and `ac`, and `latest_labels` keeps both. */
  lemma DirectAnswer(s: seq<Row>)
    requires Sorted(s) && HoldsDirect(s)
    ensures GetAllForContentId(s, "a") == Success([AB(), AC()])
  {
    DirectScan(s);
    DirectDecodes();
    assert !Eq(AB(), AC());
    assert LatestLabels([AB(), AC()]) == [AB(), AC()];
  }

  /** `test_direct_connect`: `get_all_for_content_id('a')` answers `[ab, ac]`. */
  lemma DirectConnect()
    ensures GetAllForContentId(Direct(), "a") == Success([AB(), AC()])
  {
    DirectRows();
    DirectAnswer(Direct());
  }

  /** `test_direct_connect_unordered`: the answer is `[ab, ac]` with `ac` in
      the orientation that starts at `a`, so it is `==` to the `ca` put. */
  lemma DirectConnectUnordered()
    ensures GetAllForContentId(DirectUnordered(), "a") == Success([AB(), Reversed(CA())])
    ensures Eq(Reversed(CA()), CA())
  {
    DirectUnorderedRows();
    DirectAnswer(DirectUnordered());
    assert Reversed(CA()) == AC();
    ReversedLaws(CA());
    EqSymmetric(CA(), Reversed(CA()));
  }

  // ---- the tests as calls of connected_component('a', 1) ----

  lemma ResolvesOne()
    ensures ResolveValue(Raw(1)) == Success(Positive)
  {
    assert ValueToInt(ResolveValue(Raw(1)).value) == 1;
  }

  /** `connected_component('a', 1)` on any decodable table succeeds with the
      component of `a` for value 1. */
  method QueryFromA(s: seq<Row>) returns (r: Result<seq<Label>, Error>, ghost visited: set<string>)
    requires Decodable(s)
    ensures r.Success? && IsComponent(StoreLookup(s), "a", Positive, r.value, visited)
  {
    ResolvesOne();
    r, visited := ConnectedComponent(s, "a", Raw(1));
  }

  /** `test_connected_component_many`: the call succeeds and its answer, as a
      frozenset, is `{ab, bc, cd}`. */
  method ManyQuery() returns (r: Result<seq<Label>, Error>)
    ensures r.Success?
    ensures Identities(r.value) == {Identity(AB()), Identity(BC(Positive)), Identity(CD())}
  {
    ThreeRows(Positive);
    var answer, visited := QueryFromA(Three(Positive));
    ChainComponent(answer.value, visited);
    r := answer;
  }

  /** `test_connected_component_many_diff_value`: with `bc` at -1 the answer,
      as a frozenset, is `{ab}`. */
  method ManyDiffValueQuery() returns (r: Result<seq<Label>, Error>)
    ensures r.Success?
    ensures Identities(r.value) == {Identity(AB())}
  {
    ThreeRows(Negative);
    var answer, visited := QueryFromA(Three(Negative));
    BlockedComponent(answer.value, visited);
    r := answer;
  }

  /** After `put(ab); put(bc); put(cd)` with `bc` at -1, and a later `bc` at
      1: the answer, as a frozenset, is `{ab, bc', cd}`. */
  method WidenQuery() returns (r: Result<seq<Label>, Error>)
    ensures r.Success?
    ensures Identities(r.value) == {Identity(AB()), Identity(BCLater(Positive)), Identity(CD())}
  {
    FourRows(Negative, Positive);
    var answer, visited := QueryFromA(Four(Negative, Positive));
    WidenComponent(answer.value, visited);
    r := answer;
  }

  /** After `put(ab); put(bc); put(cd)` with `bc` at 1, and a later `bc` at
      -1: the answer, as a frozenset, is `{ab}`. */
  method NarrowQuery() returns (r: Result<seq<Label>, Error>)
    ensures r.Success?
    ensures Identities(r.value) == {Identity(AB())}
  {
    FourRows(Positive, Negative);
    var answer, visited := QueryFromA(Four(Positive, Negative));
    NarrowComponent(answer.value, visited);
    r := answer;
  }

  /** `test_connected_component_many_most_recent`: `{ab}` before the later
      `bc` at 1 is put, `{ab, bc', cd}` after. */
  method MostRecentQuery() returns (before: Result<seq<Label>, Error>, after: Result<seq<Label>, Error>)
    ensures before.Success? && after.Success?
    ensures Identities(before.value) == {Identity(AB())}
    ensures Identities(after.value) == {Identity(AB()), Identity(BCLater(Positive)), Identity(CD())}
  {
    before := ManyDiffValueQuery();
    after := WidenQuery();
  }

  /** `test_connected_component_many_most_recent_diff_value`: `{ab, bc, cd}`
      before the later `bc` at -1 is put, `{ab}` after. */
  method MostRecentDiffValueQuery() returns (before: Result<seq<Label>, Error>, after: Result<seq<Label>, Error>)
    ensures before.Success? && after.Success?
    ensures Identities(before.value) == {Identity(AB()), Identity(BC(Positive)), Identity(CD())}
    ensures Identities(after.value) == {Identity(AB())}
  {
    before := ManyQuery();
    after := NarrowQuery();
  }

  // ---- a row that does not decode ----

  /** A table whose one row, under `a`, holds the value text "x". */
  function BadTable(): seq<Row>
  {
    [Row(Key("a", "b", "", "", "", TimeComplement(1)), "x")]
  }

  /** `connected_component('a', 1)` on that table queries `a`, whose row
      makes `int('x')` raise, so the call fails with that error rather than
      answering an empty component. */
  method BadRowQuery() returns (r: Result<seq<Label>, Error>)
    ensures r == Failure(MalformedRow)
  {
    var s := BadTable();
    assert FromKv(s[0]) == Failure(MalformedRow);
    ContentRangeHoldsOwnId(s[0].key);
    assert GetAllForContentId(s, "a").Failure?;
    forall c | GetAllForContentId(s, c).Failure?
      ensures GetAllForContentId(s, c).error == MalformedRow
    {
      GetAllSound(s, c);
    }
    ResolvesOne();
    var answer, visited := ConnectedComponent(s, "a", Raw(1));
    r := answer;
  }
}
