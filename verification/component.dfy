/** `LabelStore.connected_component` of dossier/label/label.py: a worklist
    traversal of the graph whose edges are the current labels carrying one
    judgment value. */
module Component {
  import opened Results
  import opened Labels
  import opened Latest
  import opened Store

  /** What querying one content id answers: `get_all_for_content_id` of a
      store, or any other function of the id. */
  type Lookup = string -> Result<seq<Label>, Error>

  /** The lookup a store answers with. */
  function StoreLookup(s: seq<Row>): Lookup
  {
    c => GetAllForContentId(s, c)
  }

  /** The labels a query for `cid` yields, or none when it raises. */
  function Current(g: Lookup, cid: string): seq<Label>
  {
    if g(cid).Success? then g(cid).value else []
  }

  /** Both ids of every label in `ls` that carries judgment `v`. */
  function Endpoints(ls: seq<Label>, v: CorefValue): set<string>
  {
    if |ls| == 0 then {}
    else
      var here := if ls[0].value == v then {ls[0].contentId1, ls[0].contentId2} else {};
      here + Endpoints(ls[1..], v)
  }

  lemma {:induction false} EndpointsMember(ls: seq<Label>, v: CorefValue, b: string)
    ensures b in Endpoints(ls, v) <==>
      exists l :: l in ls && l.value == v && (b == l.contentId1 || b == l.contentId2)
  {
    if |ls| > 0 {
      EndpointsMember(ls[1..], v, b);
      assert forall l :: l in ls <==> l == ls[0] || l in ls[1..];
    }
  }

  /** Querying `a` yields a current label with judgment `v` that names `b`. */
  predicate Edge(g: Lookup, v: CorefValue, a: string, b: string)
  {
    b in Endpoints(Current(g, a), v)
  }

  /** A non-empty walk along edges. */
  predicate IsPath(g: Lookup, v: CorefValue, p: seq<string>)
    decreases |p|
  {
    |p| > 0 && (|p| == 1 || (Edge(g, v, p[0], p[1]) && IsPath(g, v, p[1..])))
  }

  ghost predicate Reachable(g: Lookup, v: CorefValue, a: string, b: string)
  {
    exists p :: IsPath(g, v, p) && p[0] == a && p[|p| - 1] == b
  }

  /** The hash keys of a sequence of labels: what a Python set of them
      tells apart. */
  function Identities(labels: seq<Label>): set<(string, (string, string), (string, string))>
  {
    if |labels| == 0 then {}
    else Identities(labels[..|labels| - 1]) + {Identity(labels[|labels| - 1])}
  }

  lemma {:induction false} IdentitiesMember(labels: seq<Label>, l: Label)
    ensures Identity(l) in Identities(labels) <==> exists x :: x in labels && Eq(x, l)
  {
    if |labels| > 0 {
      var init := labels[..|labels| - 1];
      var last := labels[|labels| - 1];
      IdentitiesMember(init, l);
      EqIffSameIdentity(last, l);
      assert labels == init + [last];
      if exists x :: x in labels && Eq(x, l) {
        var x :| x in labels && Eq(x, l);
        if x != last {
          assert x in init;
        }
      }
    }
  }

  /** No two labels of the sequence are equal. */
  predicate Distinct(labels: seq<Label>)
  {
    forall i, j :: 0 <= i < j < |labels| ==> !Eq(labels[i], labels[j])
  }

  /** What `connected_component` promises of its answer `labels`, given the
      set `visited` of ids it queried: the start is queried, every queried id
      is reachable from it and its query succeeded, every matching current
      label of a queried id has both ends queried and an equal label in the
      answer, and the answer holds only matching current labels of queried
      ids, no two of them equal. */
  ghost predicate IsComponent(g: Lookup, start: string, v: CorefValue,
                              labels: seq<Label>, visited: set<string>)
  {
    && start in visited
    && (forall c :: c in visited ==> Reachable(g, v, start, c))
    && (forall c :: c in visited ==> g(c).Success?)
    && Closed(g, v, visited, visited, Identities(labels))
    && Sound(g, v, visited, labels)
    && Distinct(labels)
  }

  /** Every label of `ls` with judgment `v` has both ends in `ids` and its
      hash key in `keys`. */
  predicate Covers(ls: seq<Label>, v: CorefValue, ids: set<string>,
                   keys: set<(string, (string, string), (string, string))>)
  {
    forall l :: l in ls && l.value == v ==>
      l.contentId1 in ids && l.contentId2 in ids && Identity(l) in keys
  }

  /** The current labels of every id in `queried` are covered. */
  predicate Closed(g: Lookup, v: CorefValue, queried: set<string>, ids: set<string>,
                   keys: set<(string, (string, string), (string, string))>)
  {
    forall c :: c in queried ==> Covers(Current(g, c), v, ids, keys)
  }

  /** Every label of `labels` carries judgment `v` and is a current label of
      an id in `queried`. */
  ghost predicate Sound(g: Lookup, v: CorefValue, queried: set<string>, labels: seq<Label>)
  {
    forall x :: x in labels ==> x.value == v && exists c :: c in queried && x in Current(g, c)
  }

  /** `labels.add(l)` on a Python set of labels: nothing changes when an
      equal label is already present. */
  function SetAdd(labels: seq<Label>, l: Label): (r: seq<Label>)
    ensures Identities(r) == Identities(labels) + {Identity(l)}
    ensures Distinct(labels) ==> Distinct(r)
    ensures forall x :: x in labels ==> x in r
    ensures forall x :: x in r ==> x in labels || x == l
  {
    if Identity(l) in Identities(labels) then labels
    else
      IdentitiesMember(labels, l);
      var r := labels + [l];
      assert r[..|r| - 1] == labels;
      r
  }

  /** Every content id named by some stored key. */
  function Ids(s: seq<Row>): set<string>
  {
    (set x | x in s :: x.key.c1) + (set x | x in s :: x.key.c2)
  }

  /** A store's answers only name ids of its own keys, so a traversal over it
      meets finitely many ids. */
  lemma CurrentIdsStored(s: seq<Row>, c: string)
    ensures forall l :: l in Current(StoreLookup(s), c) ==>
      l.contentId1 in Ids(s) && l.contentId2 in Ids(s)
  {
    GetAllSound(s, c);
    forall l | l in Current(StoreLookup(s), c)
      ensures l.contentId1 in Ids(s) && l.contentId2 in Ids(s)
    {
      var x :| x in s && InContentRange(x.key, c) && FromKv(x) == Success(l);
      assert ToKv(l).key == x.key;
    }
  }

  /** A table of decodable rows answers every query. */
  lemma DecodableAnswers(s: seq<Row>)
    requires Decodable(s)
    ensures forall c :: StoreLookup(s)(c).Success?
  {
    forall c ensures StoreLookup(s)(c).Success? {
      GetAllSound(s, c);
    }
  }

  lemma {:induction false} PathExtend(g: Lookup, v: CorefValue, p: seq<string>, b: string)
    requires IsPath(g, v, p) && Edge(g, v, p[|p| - 1], b)
    ensures IsPath(g, v, p + [b]) && (p + [b])[0] == p[0]
    decreases |p|
  {
    if |p| > 1 {
      PathExtend(g, v, p[1..], b);
      assert (p + [b])[1..] == p[1..] + [b];
    }
  }

  /** Every id of `ids` is the end of a recorded path from `start`. */
  ghost predicate PathsFrom(g: Lookup, v: CorefValue, start: string, ids: set<string>,
                            paths: map<string, seq<string>>)
  {
    forall c :: c in ids ==>
      c in paths && IsPath(g, v, paths[c]) && paths[c][0] == start && paths[c][|paths[c]| - 1] == c
  }

  lemma PathsFromExtend(g: Lookup, v: CorefValue, start: string, ids: set<string>,
                        paths: map<string, seq<string>>, a: string, b: string)
    requires PathsFrom(g, v, start, ids, paths) && a in ids && Edge(g, v, a, b)
    ensures PathsFrom(g, v, start, ids + {b}, paths[b := paths[a] + [b]])
  {
    PathExtend(g, v, paths[a], b);
  }

  lemma CoversGrow(ls: seq<Label>, v: CorefValue, ids: set<string>, keys: set<(string, (string, string), (string, string))>,
                   ids': set<string>, keys': set<(string, (string, string), (string, string))>)
    requires Covers(ls, v, ids, keys) && ids <= ids' && keys <= keys'
    ensures Covers(ls, v, ids', keys')
  {
  }

  lemma ClosedGrow(g: Lookup, v: CorefValue, queried: set<string>,
                   ids: set<string>, keys: set<(string, (string, string), (string, string))>,
                   ids': set<string>, keys': set<(string, (string, string), (string, string))>)
    requires Closed(g, v, queried, ids, keys) && ids <= ids' && keys <= keys'
    ensures Closed(g, v, queried, ids', keys')
  {
    forall c | c in queried
      ensures Covers(Current(g, c), v, ids', keys')
    {
      CoversGrow(Current(g, c), v, ids, keys, ids', keys');
    }
  }

  /** Covering one more label of a sequence, once its ends and key are known. */
  lemma CoversStep(ls: seq<Label>, i: nat, v: CorefValue,
                   ids: set<string>, keys: set<(string, (string, string), (string, string))>,
                   ids': set<string>, keys': set<(string, (string, string), (string, string))>)
    requires i < |ls| && Covers(ls[..i], v, ids, keys) && ids <= ids' && keys <= keys'
    requires ls[i].contentId1 in ids' && ls[i].contentId2 in ids' && Identity(ls[i]) in keys'
    ensures Covers(ls[..i + 1], v, ids', keys')
  {
    CoversGrow(ls[..i], v, ids, keys, ids', keys');
    assert ls[..i + 1] == ls[..i] + [ls[i]];
  }

  /** Adding a matching current label of a queried id keeps the answer sound. */
  lemma SoundAdd(g: Lookup, v: CorefValue, done: set<string>, labels: seq<Label>,
                 cid: string, lab: Label)
    requires cid in done && lab in Current(g, cid) && lab.value == v && Sound(g, v, done, labels)
    ensures Sound(g, v, done, SetAdd(labels, lab))
  {
  }

  /** One matching label `lab`, the `i`-th current label of the queried id
      `cid`, once both its ends are known (`ids'`) and it is added to the
      answer: every invariant of the traversal still holds. */
  lemma StepLabel(g: Lookup, v: CorefValue, cid: string, i: nat, done: set<string>,
                  ids: set<string>, ids': set<string>, labels: seq<Label>)
    requires cid in done && i < |Current(g, cid)| && Current(g, cid)[i].value == v
    requires ids <= ids' && Current(g, cid)[i].contentId1 in ids' && Current(g, cid)[i].contentId2 in ids'
    requires Closed(g, v, done - {cid}, ids, Identities(labels))
    requires Covers(Current(g, cid)[..i], v, ids, Identities(labels))
    requires Sound(g, v, done, labels)
    ensures var labels' := SetAdd(labels, Current(g, cid)[i]);
      && Closed(g, v, done - {cid}, ids', Identities(labels'))
      && Covers(Current(g, cid)[..i + 1], v, ids', Identities(labels'))
      && Sound(g, v, done, labels')
  {
    var ls := Current(g, cid);
    var lab := ls[i];
    var labels' := SetAdd(labels, lab);
    ClosedGrow(g, v, done - {cid}, ids, Identities(labels), ids', Identities(labels'));
    CoversStep(ls, i, v, ids, Identities(labels), ids', Identities(labels'));
    SoundAdd(g, v, done, labels, cid, lab);
  }

  lemma PathsReach(g: Lookup, v: CorefValue, start: string, ids: set<string>,
                    paths: map<string, seq<string>>)
    requires PathsFrom(g, v, start, ids, paths)
    ensures forall c :: c in ids ==> Reachable(g, v, start, c)
  {
    forall c | c in ids
      ensures Reachable(g, v, start, c)
    {
      assert IsPath(g, v, paths[c]);
    }
  }

  /** `if b not in done: todo.add(b)`, recording a path to `b` through `cid`. */
  method Push(g: Lookup, v: CorefValue, start: string, cid: string, b: string,
              done: set<string>, todo: set<string>,
              ghost paths: map<string, seq<string>>, ghost bound: set<string>)
    returns (todo': set<string>, ghost paths': map<string, seq<string>>)
    requires cid in done && Edge(g, v, cid, b) && b in bound
    requires done !! todo && done + todo <= bound
    requires PathsFrom(g, v, start, done + todo, paths)
    ensures todo' == if b in done then todo else todo + {b}
    ensures done !! todo' && done + todo' == done + todo + {b} && done + todo' <= bound
    ensures PathsFrom(g, v, start, done + todo', paths')
  {
    todo', paths' := todo, paths;
    if b !in done {
      PathsFromExtend(g, v, start, done + todo, paths, cid, b);
      paths' := paths[b := paths[cid] + [b]];
      todo' := todo + {b};
    }
  }

  /** The `for label in ...` loop over the answer `ls` to the query for
      `cid`: matching labels put their unqueried ends into `todo` and
      themselves into `labels`. */
  method QueryLabels(g: Lookup, v: CorefValue, start: string, cid: string, ls: seq<Label>,
                     done: set<string>, todo: set<string>, labels: seq<Label>,
                     ghost paths: map<string, seq<string>>, ghost bound: set<string>)
    returns (todo': set<string>, labels': seq<Label>, ghost paths': map<string, seq<string>>)
    requires ls == Current(g, cid) && cid in done && done !! todo
    requires forall l :: l in ls ==> l.contentId1 in bound && l.contentId2 in bound
    requires start in done + todo && done + todo <= bound
    requires PathsFrom(g, v, start, done + todo, paths)
    requires Closed(g, v, done - {cid}, done + todo, Identities(labels))
    requires Sound(g, v, done, labels) && Distinct(labels)
    ensures todo <= todo' && done !! todo' && done + todo' <= bound
    ensures PathsFrom(g, v, start, done + todo', paths')
    ensures Closed(g, v, done, done + todo', Identities(labels'))
    ensures Sound(g, v, done, labels') && Distinct(labels')
  {
    todo', labels', paths' := todo, labels, paths;
    var i := 0;
    while i < |ls|
      invariant 0 <= i <= |ls|
      invariant todo <= todo' && done !! todo' && done + todo' <= bound
      invariant PathsFrom(g, v, start, done + todo', paths')
      invariant Closed(g, v, done - {cid}, done + todo', Identities(labels'))
      invariant Covers(ls[..i], v, done + todo', Identities(labels'))
      invariant Sound(g, v, done, labels') && Distinct(labels')
    {
      var lab := ls[i];
      if lab.value == v {
        EndpointsMember(ls, v, lab.contentId1);
        EndpointsMember(ls, v, lab.contentId2);
        ghost var ids := done + todo';
        todo', paths' := Push(g, v, start, cid, lab.contentId1, done, todo', paths', bound);
        todo', paths' := Push(g, v, start, cid, lab.contentId2, done, todo', paths', bound);
        StepLabel(g, v, cid, i, done, ids, done + todo', labels');
        labels' := SetAdd(labels', lab);
      } else {
        assert ls[..i + 1] == ls[..i] + [lab];
      }
      i := i + 1;
    }
    assert ls[..i] == ls;
    assert done - {cid} + {cid} == done;
  }

  /** One round of the worklist loop once `todo.pop()` has chosen `cid`
      and its query answered `ls`: `cid` moves to `done`, then its answer is
      walked. */
  method Visit(g: Lookup, v: CorefValue, start: string, cid: string, ls: seq<Label>,
               done: set<string>, todo: set<string>, labels: seq<Label>,
               ghost paths: map<string, seq<string>>, ghost bound: set<string>)
    returns (done': set<string>, todo': set<string>, labels': seq<Label>,
             ghost paths': map<string, seq<string>>)
    requires cid in todo && ls == Current(g, cid) && done !! todo
    requires forall l :: l in ls ==> l.contentId1 in bound && l.contentId2 in bound
    requires start in done + todo && done + todo <= bound
    requires PathsFrom(g, v, start, done + todo, paths)
    requires Closed(g, v, done, done + todo, Identities(labels))
    requires Sound(g, v, done, labels) && Distinct(labels)
    ensures done' == done + {cid}
    ensures done' !! todo' && start in done' + todo' && done' + todo' <= bound
    ensures PathsFrom(g, v, start, done' + todo', paths')
    ensures Closed(g, v, done', done' + todo', Identities(labels'))
    ensures Sound(g, v, done', labels') && Distinct(labels')
  {
    done' := done + {cid};
    var rest := todo - {cid};
    assert done' + rest == done + todo && done' - {cid} == done;
    todo', labels', paths' := QueryLabels(g, v, start, cid, ls, done', rest, labels, paths, bound);
  }

  /** The worklist loop of `connected_component` over any lookup whose
      answers name ids from a finite `universe`. Which pending id
      `todo.pop()` takes is left open. The ghost `visited` is the `done` set
      the traversal ends with. */
  method Traverse(g: Lookup, start: string, v: CorefValue, ghost universe: set<string>)
    returns (r: Result<seq<Label>, Error>, ghost visited: set<string>)
    requires forall c, l :: l in Current(g, c) ==> l.contentId1 in universe && l.contentId2 in universe
    ensures r.Success? ==> IsComponent(g, start, v, r.value, visited)
    ensures r.Failure? ==> exists c :: Reachable(g, v, start, c) && g(c) == Failure(r.error)
    ensures (forall c :: g(c).Success?) ==> r.Success?
  {
    var done: set<string> := {};
    var todo: set<string> := {start};
    var labels: seq<Label> := [];
    ghost var paths: map<string, seq<string>> := map[start := [start]];
    ghost var bound := {start} + universe;
    while todo != {}
      invariant done !! todo
      invariant start in done + todo
      invariant done + todo <= bound
      invariant PathsFrom(g, v, start, done + todo, paths)
      invariant Closed(g, v, done, done + todo, Identities(labels))
      invariant Sound(g, v, done, labels) && Distinct(labels)
      invariant forall c :: c in done ==> g(c).Success?
      decreases bound - done
    {
      var cid :| cid in todo;
      var got := g(cid);
      if got.Failure? {
        PathsReach(g, v, start, done + todo, paths);
        return Failure(got.error), done + {cid};
      }
      done, todo, labels, paths := Visit(g, v, start, cid, got.value, done, todo, labels, paths, bound);
    }
    visited := done;
    PathsReach(g, v, start, done, paths);
    r := Success(labels);
  }

  /** `LabelStore.connected_component(content_id, value)`: the component of
      `content_id` in the graph of current labels carrying `value`. */
  method ConnectedComponent(s: seq<Row>, contentId: string, value: ValueArg)
    returns (r: Result<seq<Label>, Error>, ghost visited: set<string>)
    ensures ResolveValue(value).Failure? ==> r == Failure(ResolveValue(value).error)
    ensures r.Success? ==>
      ResolveValue(value).Success? &&
      IsComponent(StoreLookup(s), contentId, ResolveValue(value).value, r.value, visited)
    ensures r.Failure? && ResolveValue(value).Success? ==>
      exists c :: Reachable(StoreLookup(s), ResolveValue(value).value, contentId, c)
        && GetAllForContentId(s, c) == Failure(r.error)
    ensures Decodable(s) && ResolveValue(value).Success? ==> r.Success?
  {
    visited := {};
    var resolved := ResolveValue(value);
    if resolved.Failure? {
      return Failure(resolved.error), visited;
    }
    forall c ensures forall l :: l in Current(StoreLookup(s), c) ==>
      l.contentId1 in Ids(s) && l.contentId2 in Ids(s)
    {
      CurrentIdsStored(s, c);
    }
    if Decodable(s) {
      DecodableAnswers(s);
    }
    r, visited := Traverse(StoreLookup(s), contentId, resolved.value, Ids(s));
    if r.Failure? {
      ghost var c :| Reachable(StoreLookup(s), resolved.value, contentId, c)
        && StoreLookup(s)(c) == Failure(r.error);
      assert GetAllForContentId(s, c) == Failure(r.error);
    }
  }

  /** A path that starts inside a set of ids closed under edges ends inside
      it. */
  lemma {:induction false} PathWithinClosed(g: Lookup, v: CorefValue, ids: set<string>, p: seq<string>)
    requires IsPath(g, v, p) && p[0] in ids
    requires forall a, b :: a in ids && Edge(g, v, a, b) ==> b in ids
    ensures p[|p| - 1] in ids
    decreases |p|
  {
    if |p| > 1 {
      PathWithinClosed(g, v, ids, p[1..]);
    }
  }

  /** A set of ids that holds the start and is closed under edges holds every
      id reachable from the start. */
  lemma ReachableWithinClosed(g: Lookup, v: CorefValue, start: string, ids: set<string>, c: string)
    requires start in ids
    requires forall a, b :: a in ids && Edge(g, v, a, b) ==> b in ids
    requires Reachable(g, v, start, c)
    ensures c in ids
  {
    var p :| IsPath(g, v, p) && p[0] == start && p[|p| - 1] == c;
    PathWithinClosed(g, v, ids, p);
  }

  /** The ids a component query visits are exactly the ids reachable from
      the start along matching current labels. */
  lemma ComponentIsReachableSet(g: Lookup, start: string, v: CorefValue,
                                labels: seq<Label>, visited: set<string>, c: string)
    requires IsComponent(g, start, v, labels, visited)
    ensures c in visited <==> Reachable(g, v, start, c)
  {
    if Reachable(g, v, start, c) {
      forall a, b | a in visited && Edge(g, v, a, b)
        ensures b in visited
      {
        EndpointsMember(Current(g, a), v, b);
      }
      ReachableWithinClosed(g, v, start, visited, c);
    }
  }

  /** The answer's hash keys are exactly those of its labels. */
  lemma {:induction false} IdentitiesOf(labels: seq<Label>)
    ensures forall k :: k in Identities(labels) <==> exists x :: x in labels && Identity(x) == k
  {
    if |labels| > 0 {
      var init := labels[..|labels| - 1];
      IdentitiesOf(init);
      assert labels == init + [labels[|labels| - 1]];
    }
  }

  /** The component of a store never leaves the ids its keys name. */
  lemma VisitedStored(s: seq<Row>, start: string, v: CorefValue,
                      labels: seq<Label>, visited: set<string>)
    requires IsComponent(StoreLookup(s), start, v, labels, visited)
    ensures visited <= {start} + Ids(s)
  {
    var g := StoreLookup(s);
    var ids := {start} + Ids(s);
    forall a, b | a in ids && Edge(g, v, a, b)
      ensures b in ids
    {
      EndpointsMember(Current(g, a), v, b);
      CurrentIdsStored(s, a);
    }
    forall c | c in visited
      ensures c in ids
    {
      ReachableWithinClosed(g, v, start, ids, c);
    }
  }

  /** On a range that holds only `cid`'s own rows, each label the query
      yields is decoded from such a row. */
  lemma CurrentFromRow(s: seq<Row>, cid: string, l: Label)
    requires PlainRange(s, cid) && l in Current(StoreLookup(s), cid)
    ensures exists x :: x in s && x.key.c1 == cid && FromKv(x) == Success(l)
  {
    GetAllSound(s, cid);
  }

  /** On a decodable table every row under `cid` is answered by an equal label. */
  lemma CurrentCoversRow(s: seq<Row>, cid: string, x: Row)
    requires Decodable(s) && x in s && x.key.c1 == cid
    ensures exists l :: l in Current(StoreLookup(s), cid) && Eq(l, FromKv(x).value)
  {
    GetAllSound(s, cid);
    GetAllCovers(s, cid);
  }

  /** On a sorted table whose range for `cid` holds only `cid`'s own rows,
      no answered label is superseded by an equal row under `cid`. */
  lemma CurrentNewest(s: seq<Row>, cid: string, l: Label, x: Row)
    requires Sorted(s) && PlainRange(s, cid) && l in Current(StoreLookup(s), cid)
    requires x in s && x.key.c1 == cid && FromKv(x).Success? && Eq(FromKv(x).value, l)
    ensures FromKv(x).value.epochTicks <= l.epochTicks
  {
    GetAllNewest(s, cid);
    ContentRangeHoldsOwnId(x.key);
  }

  /** On a sorted, decodable table whose range for `cid` holds only `cid`'s
      own rows, the label of a row that no equal row under `cid` supersedes
      is answered as stored. */
  lemma NewestRowAnswered(s: seq<Row>, cid: string, x: Row)
    requires Sorted(s) && Decodable(s) && PlainRange(s, cid)
    requires x in s && x.key.c1 == cid
    requires forall y :: (y in s && y.key.c1 == cid && y != x
      && Eq(FromKv(y).value, FromKv(x).value)) ==>
      FromKv(y).value.epochTicks < FromKv(x).value.epochTicks
    ensures FromKv(x).value in Current(StoreLookup(s), cid)
  {
    var lx := FromKv(x).value;
    CurrentCoversRow(s, cid, x);
    var l :| l in Current(StoreLookup(s), cid) && Eq(l, lx);
    CurrentFromRow(s, cid, l);
    var y :| y in s && y.key.c1 == cid && FromKv(y) == Success(l);
    if y != x {
      EqSymmetric(l, lx);
      CurrentNewest(s, cid, l, x);
      assert false;
    }
  }
}
