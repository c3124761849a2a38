/** `latest_labels` of dossier/label/label.py: `itertools.groupby` over
    label equality, keeping the first label of every group. */
module Latest {
  import opened Labels

  /** How many leading labels of `ys` equal `head`: `groupby` compares each
      new element with the first element of the current group. */
  function RunLength(head: Label, ys: seq<Label>): (n: nat)
    ensures n <= |ys|
    ensures forall k :: 0 <= k < n ==> Eq(head, ys[k])
    ensures n < |ys| ==> !Eq(head, ys[n])
  {
    if |ys| == 0 || !Eq(head, ys[0]) then 0 else 1 + RunLength(head, ys[1..])
  }

  /** `latest_labels(xs)`: one label per group of consecutive equal labels,
      namely the group's first. */
  function LatestLabels(xs: seq<Label>): (r: seq<Label>)
    ensures |r| <= |xs|
    ensures |xs| > 0 ==> |r| > 0 && r[0] == xs[0]
    decreases |xs|
  {
    if |xs| == 0 then []
    else [xs[0]] + LatestLabels(xs[1 + RunLength(xs[0], xs[1..])..])
  }

  // ---- An independent, element-by-element description ----

  /** Each label of `ys` that is not equal to the label just before it,
      `prev` being the label before `ys[0]`. */
  function Changes(prev: Label, ys: seq<Label>): seq<Label>
    decreases |ys|
  {
    if |ys| == 0 then []
    else (if Eq(prev, ys[0]) then [] else [ys[0]]) + Changes(ys[0], ys[1..])
  }

  /** The first label of every maximal run of consecutive equal labels. */
  function RunHeads(xs: seq<Label>): seq<Label>
  {
    if |xs| == 0 then [] else [xs[0]] + Changes(xs[0], xs[1..])
  }

  lemma ChangesCongruent(p: Label, q: Label, ys: seq<Label>)
    requires Eq(p, q)
    ensures Changes(p, ys) == Changes(q, ys)
  {
    if |ys| > 0 {
      if Eq(p, ys[0]) {
        EqTransitive(q, p, ys[0]);
      }
      if Eq(q, ys[0]) {
        EqTransitive(p, q, ys[0]);
      }
    }
  }

  lemma {:induction false} ChangesSkipRun(h: Label, ys: seq<Label>, n: nat)
    requires n <= |ys|
    requires forall k :: 0 <= k < n ==> Eq(h, ys[k])
    ensures Changes(h, ys) == Changes(h, ys[n..])
  {
    if n > 0 {
      ChangesCongruent(ys[0], h, ys[1..]);
      ChangesSkipRun(h, ys[1..], n - 1);
      assert ys[1..][n - 1..] == ys[n..];
    }
  }

  /** `latest_labels` yields exactly the first label of each maximal run. */
  lemma {:induction false} LatestIsRunHeads(xs: seq<Label>)
    ensures LatestLabels(xs) == RunHeads(xs)
    decreases |xs|
  {
    if |xs| > 0 {
      var ys := xs[1..];
      var n := RunLength(xs[0], ys);
      assert xs[1 + n..] == ys[n..];
      ChangesSkipRun(xs[0], ys, n);
      if n < |ys| {
        LatestIsRunHeads(ys[n..]);
        assert ys[n..][1..] == ys[n + 1..];
      }
    }
  }

  // ---- Subsequence ----

  /** `a` can be obtained from `b` by deleting elements. */
  predicate Subseq(a: seq<Label>, b: seq<Label>)
    decreases |b|
  {
    |a| == 0 || (|b| > 0 && ((a[0] == b[0] && Subseq(a[1..], b[1..])) || Subseq(a, b[1..])))
  }

  lemma {:induction false} SubseqOfSuffix(a: seq<Label>, b: seq<Label>, k: nat)
    requires k <= |b| && Subseq(a, b[k..])
    ensures Subseq(a, b)
  {
    if k > 0 {
      assert b[1..][k - 1..] == b[k..];
      SubseqOfSuffix(a, b[1..], k - 1);
    }
  }

  lemma {:induction false} SubseqMembers(a: seq<Label>, b: seq<Label>)
    requires Subseq(a, b)
    ensures forall x :: x in a ==> x in b
    decreases |b|
  {
    if |a| > 0 {
      if a[0] == b[0] && Subseq(a[1..], b[1..]) {
        SubseqMembers(a[1..], b[1..]);
        assert forall x :: x in a ==> x == a[0] || x in a[1..];
      } else {
        SubseqMembers(a, b[1..]);
      }
    }
  }

  /** The output keeps input labels, in input order. */
  lemma {:induction false} LatestSubseq(xs: seq<Label>)
    ensures Subseq(LatestLabels(xs), xs)
    decreases |xs|
  {
    if |xs| > 0 {
      var n := RunLength(xs[0], xs[1..]);
      var rest := xs[1 + n..];
      LatestSubseq(rest);
      assert xs[1..][n..] == rest;
      SubseqOfSuffix(LatestLabels(rest), xs[1..], n);
      assert LatestLabels(xs)[1..] == LatestLabels(rest);
    }
  }

  lemma LatestMembers(xs: seq<Label>)
    ensures forall x :: x in LatestLabels(xs) ==> x in xs
  {
    LatestSubseq(xs);
    SubseqMembers(LatestLabels(xs), xs);
  }

  /** No two neighbouring outputs are equal. */
  lemma {:induction false} LatestNoAdjacentEq(xs: seq<Label>)
    ensures forall i :: 0 <= i < |LatestLabels(xs)| - 1 ==>
      !Eq(LatestLabels(xs)[i], LatestLabels(xs)[i + 1])
    decreases |xs|
  {
    if |xs| > 0 {
      var n := RunLength(xs[0], xs[1..]);
      var rest := xs[1 + n..];
      LatestNoAdjacentEq(rest);
      var r := LatestLabels(xs);
      assert r[1..] == LatestLabels(rest);
      if |rest| > 0 {
        assert rest[0] == xs[1..][n];
      }
    }
  }

  /** Every input label has an equal label in the output. */
  lemma {:induction false} LatestCovers(xs: seq<Label>)
    ensures forall y :: y in xs ==> exists x :: x in LatestLabels(xs) && Eq(x, y)
    decreases |xs|
  {
    if |xs| > 0 {
      var n := RunLength(xs[0], xs[1..]);
      var rest := xs[1 + n..];
      LatestCovers(rest);
      var r := LatestLabels(xs);
      assert r == [xs[0]] + LatestLabels(rest);
      forall y | y in xs
        ensures exists x :: x in r && Eq(x, y)
      {
        var j :| 0 <= j < |xs| && xs[j] == y;
        if j == 0 {
          assert r[0] == y && Eq(y, y);
        } else if j <= n {
          assert Eq(xs[0], xs[1..][j - 1]);
          assert r[0] == xs[0];
        } else {
          assert y == rest[j - 1 - n];
          assert y in rest;
          var x :| x in LatestLabels(rest) && Eq(x, y);
          assert x in r;
        }
      }
    }
  }

  // ---- Sorted input ----

  /** Labels in the order `<` sorts them (equal `_cmp_value`s in any order). */
  predicate SortedLabels(xs: seq<Label>)
  {
    forall i, j :: 0 <= i < j < |xs| ==> Le(xs[i], xs[j])
  }

  /** Equal labels stand together, most recent first: what `latest_labels`
      needs of its input to keep one newest label per identity. */
  predicate Grouped(xs: seq<Label>)
  {
    forall i, j :: 0 <= i < j < |xs| && Eq(xs[i], xs[j]) ==>
      && xs[j].epochTicks <= xs[i].epochTicks
      && forall k :: i < k < j ==> Eq(xs[i], xs[k])
  }

  /** Input sorted by `<` is grouped. */
  lemma SortedGrouped(xs: seq<Label>)
    requires SortedLabels(xs)
    ensures Grouped(xs)
  {
    forall i, j | 0 <= i < j < |xs| && Eq(xs[i], xs[j])
      ensures xs[j].epochTicks <= xs[i].epochTicks
      ensures forall k :: i < k < j ==> Eq(xs[i], xs[k])
    {
      LtStrictTotalOrder(xs[i], xs[j], xs[i]);
      MoreRecentSortsFirst(xs[i], xs[j]);
      forall k | i < k < j
        ensures Eq(xs[i], xs[k])
      {
        EqualLabelsContiguous(xs[i], xs[k], xs[j]);
      }
    }
  }

  lemma GroupedSuffix(xs: seq<Label>, k: nat)
    requires Grouped(xs) && k <= |xs|
    ensures Grouped(xs[k..])
  {
    forall i, j | 0 <= i < j < |xs| - k && Eq(xs[k..][i], xs[k..][j])
      ensures xs[k..][j].epochTicks <= xs[k..][i].epochTicks
      ensures forall m :: i < m < j ==> Eq(xs[k..][i], xs[k..][m])
    {
      assert xs[k..][i] == xs[k + i] && xs[k..][j] == xs[k + j];
      forall m | i < m < j
        ensures Eq(xs[k..][i], xs[k..][m])
      {
        assert xs[k..][m] == xs[k + m];
      }
    }
  }

  /** On grouped input no label after the first run equals the first label. */
  lemma GroupedTailNotEq(xs: seq<Label>)
    requires Grouped(xs) && |xs| > 0
    ensures forall x :: x in xs[1 + RunLength(xs[0], xs[1..])..] ==> !Eq(xs[0], x)
  {
    var n := RunLength(xs[0], xs[1..]);
    forall x | x in xs[1 + n..]
      ensures !Eq(xs[0], x)
    {
      var k :| 0 <= k < |xs| - 1 - n && xs[1 + n..][k] == x;
      var j := 1 + n + k;
      assert x == xs[j];
      assert xs[1 + n] == xs[1..][n];
    }
  }

  /** A head equal to nothing in a tail of pairwise unequal labels keeps the
      labels pairwise unequal. */
  lemma DistinctCons(h: Label, tail: seq<Label>)
    requires forall i, j :: 0 <= i < j < |tail| ==> !Eq(tail[i], tail[j])
    requires forall x :: x in tail ==> !Eq(h, x)
    ensures forall i, j :: 0 <= i < j < |[h] + tail| ==> !Eq(([h] + tail)[i], ([h] + tail)[j])
  {
    var r := [h] + tail;
    forall i, j | 0 <= i < j < |r|
      ensures !Eq(r[i], r[j])
    {
      assert r[j] == tail[j - 1];
      if i > 0 {
        assert r[i] == tail[i - 1];
      }
    }
  }

  /** On grouped input the output has no two equal labels: one label per identity. */
  lemma {:induction false} LatestGroupedDistinct(xs: seq<Label>)
    requires Grouped(xs)
    ensures forall i, j :: 0 <= i < j < |LatestLabels(xs)| ==>
      !Eq(LatestLabels(xs)[i], LatestLabels(xs)[j])
    decreases |xs|
  {
    if |xs| > 0 {
      var n := RunLength(xs[0], xs[1..]);
      var rest := xs[1 + n..];
      GroupedSuffix(xs, 1 + n);
      LatestGroupedDistinct(rest);
      LatestMembers(rest);
      GroupedTailNotEq(xs);
      assert LatestLabels(xs) == [xs[0]] + LatestLabels(rest);
      DistinctCons(xs[0], LatestLabels(rest));
    }
  }

  /** A label equal to one after the first run lies after the first run too:
      the runs of grouped input do not interleave. */
  lemma EqualLiesPastFirstRun(xs: seq<Label>, x: Label, y: Label)
    requires Grouped(xs) && |xs| > 0
    requires x in xs[1 + RunLength(xs[0], xs[1..])..] && y in xs && Eq(x, y)
    ensures y in xs[1 + RunLength(xs[0], xs[1..])..]
  {
    var n := RunLength(xs[0], xs[1..]);
    GroupedTailNotEq(xs);
    var j :| 0 <= j < |xs| && xs[j] == y;
    if j <= n {
      if j > 0 {
        assert Eq(xs[0], xs[1..][j - 1]);
      }
      assert Eq(xs[0], y);
      EqSymmetric(x, y);
      EqTransitive(xs[0], y, x);
      assert false;
    }
    assert y == xs[1 + n..][j - 1 - n];
  }

  /** On grouped input every output label is the most recent among the input
      labels equal to it. */
  lemma {:induction false} LatestGroupedNewest(xs: seq<Label>)
    requires Grouped(xs)
    ensures forall x, y :: x in LatestLabels(xs) && y in xs && Eq(x, y) ==>
      y.epochTicks <= x.epochTicks
    decreases |xs|
  {
    if |xs| > 0 {
      var n := RunLength(xs[0], xs[1..]);
      var rest := xs[1 + n..];
      GroupedSuffix(xs, 1 + n);
      LatestGroupedNewest(rest);
      LatestMembers(rest);
      var r := LatestLabels(xs);
      assert r == [xs[0]] + LatestLabels(rest);
      forall x, y | x in r && y in xs && Eq(x, y)
        ensures y.epochTicks <= x.epochTicks
      {
        if x != xs[0] {
          EqualLiesPastFirstRun(xs, x, y);
        }
      }
    }
  }

  /** On input sorted by `<` the output keeps one label per identity. */
  lemma LatestSortedDistinct(xs: seq<Label>)
    requires SortedLabels(xs)
    ensures forall i, j :: 0 <= i < j < |LatestLabels(xs)| ==>
      !Eq(LatestLabels(xs)[i], LatestLabels(xs)[j])
  {
    SortedGrouped(xs);
    LatestGroupedDistinct(xs);
  }

  /** On input sorted by `<` every output label is the most recent among the
      input labels equal to it. */
  lemma LatestSortedNewest(xs: seq<Label>)
    requires SortedLabels(xs)
    ensures forall x, y :: x in LatestLabels(xs) && y in xs && Eq(x, y) ==>
      y.epochTicks <= x.epochTicks
  {
    SortedGrouped(xs);
    LatestGroupedNewest(xs);
  }
}
