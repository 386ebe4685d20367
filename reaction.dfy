/** The chain reaction (main.rs `start_chain_reaction`): reconstruct the
    destruction order from the `Chained` map, reset the tail, destroy the
    chained enemies one by one while the combo grows, and add the final
    combo to `Score`.

    The reconstruction depends on the order in which the ECS query visits
    the chained entities; the model takes that order as the input `o`, a
    repetition-free listing of exactly the chained entities. */
module Reaction {
  import opened Entities
  import opened ChainGraph

  /** What the query hands to the reconstruction: `o` lists each chained
      entity once, and the player never carries `Chained`. */
  predicate WellFormed(o: seq<Id>, m: map<Id, Id>, p: Id)
  {
    Distinct(o) && m.Keys == Elems(o) && p !in m
  }

  /** A path walked backward along `prev`: it starts at an entity that
      points at the player, and every later entity points at the one
      before it. */
  predicate IsBackPath(m: map<Id, Id>, p: Id, path: seq<Id>)
  {
    && |path| > 0
    && Distinct(path)
    && (forall i :: 0 <= i < |path| ==> path[i] in m)
    && m[path[0]] == p
    && (forall i :: 0 < i < |path| ==> m[path[i]] == path[i - 1])
  }

  // ---------------------------------------------------------------------
  // Finding the entity whose `prev` is the player (main.rs:248-254)
  // ---------------------------------------------------------------------

  /** The loop keeps overwriting its candidate, so the result is the LAST
      entity in query order whose `prev` is the player. */
  function FindTail(o: seq<Id>, m: map<Id, Id>, p: Id): (r: Option<Id>)
    requires Elems(o) <= m.Keys
    ensures r.None? <==> forall x :: x in o ==> m[x] != p
    ensures r.Some? ==> exists i :: 0 <= i < |o| && o[i] == r.value && m[o[i]] == p &&
                          forall j :: i < j < |o| ==> m[o[j]] != p
  {
    if o == [] then None
    else if m[Last(o)] == p then Some(Last(o))
    else
      var r := FindTail(o[..|o| - 1], m, p);
      assert forall x :: x in o ==> x in o[..|o| - 1] || x == Last(o);
      r
  }

  // ---------------------------------------------------------------------
  // The walk (main.rs:260-273)
  // ---------------------------------------------------------------------

  /** One pass of the inner scan starting from `cur`: every entity whose
      `prev` equals the CURRENT candidate becomes the candidate, and the
      scan goes on with the new one. The result lists the candidates the
      pass took, in order. */
  function ScanSteps(o: seq<Id>, m: map<Id, Id>, cur: Id): (r: seq<Id>)
    requires Elems(o) <= m.Keys
    ensures forall x :: x in r ==> x in o
  {
    if o == [] then []
    else if m[o[0]] == cur then [o[0]] + ScanSteps(o[1..], m, o[0])
    else ScanSteps(o[1..], m, cur)
  }

  /** An entity pointing at the end of a back path is not already on it:
      the first entity points at the player, who is not chained, and any
      later one points at its distinct predecessor. */
  lemma BackPathStep(m: map<Id, Id>, p: Id, q: seq<Id>, e: Id)
    requires p !in m && IsBackPath(m, p, q)
    requires e in m && m[e] == Last(q)
    ensures IsBackPath(m, p, q + [e])
  {
    forall j | 0 <= j < |q|
      ensures q[j] != e
    {
      if j == 0 {
        assert m[q[0]] == p && Last(q) in m;
      } else {
        assert m[q[j]] == q[j - 1] && q[j - 1] != Last(q);
      }
    }
  }

  /** A scan pass extends a back path. */
  lemma {:induction false} ExtendBackPath(o: seq<Id>, m: map<Id, Id>, p: Id, q: seq<Id>)
    requires Elems(o) <= m.Keys && p !in m && IsBackPath(m, p, q)
    ensures IsBackPath(m, p, q + ScanSteps(o, m, Last(q)))
  {
    if o != [] {
      assert Elems(o[1..]) <= m.Keys;
      if m[o[0]] == Last(q) {
        BackPathStep(m, p, q, o[0]);
        var q' := q + [o[0]];
        ExtendBackPath(o[1..], m, p, q');
        assert q + ScanSteps(o, m, Last(q)) == q' + ScanSteps(o[1..], m, o[0]);
      } else {
        ExtendBackPath(o[1..], m, p, q);
      }
    }
  }

  /** The entities the walk pushes after its start, given the back path
      it has followed so far. Each pass pushes only the candidate it ends
      on. Every pass extends the path by at least one entity, and a back
      path never repeats an entity, which bounds the number of passes. */
  function Walk(o: seq<Id>, m: map<Id, Id>, p: Id, path: seq<Id>): (r: seq<Id>)
    requires WellFormed(o, m, p) && IsBackPath(m, p, path)
    ensures forall x :: x in r ==> x in o && m[x] != p
    decreases |o| - |path|
  {
    var steps := ScanSteps(o, m, Last(path));
    if steps == [] then []
    else
      ExtendBackPath(o, m, p, path);
      var q := path + steps;
      assert q[|q| - 1] == Last(steps) && m[q[|q| - 1]] == q[|q| - 2] && q[|q| - 2] in m;
      DistinctSubsetLength(q, o);
      [Last(steps)] + Walk(o, m, p, path + steps)
  }

  lemma {:induction false} WalkFresh(o: seq<Id>, m: map<Id, Id>, p: Id, path: seq<Id>)
    requires WellFormed(o, m, p) && IsBackPath(m, p, path)
    ensures Distinct(Walk(o, m, p, path))
    ensures forall x :: x in Walk(o, m, p, path) ==> x in m && x !in path
    decreases |o| - |path|
  {
    var steps := ScanSteps(o, m, Last(path));
    if steps != [] {
      ExtendBackPath(o, m, p, path);
      DistinctSubsetLength(path + steps, o);
      var q := path + steps;
      WalkFresh(o, m, p, q);
      var x, w := Last(steps), Walk(o, m, p, q);
      assert Walk(o, m, p, path) == [x] + w;
      assert x in q by {
        assert q[|q| - 1] == x;
      }
      forall i | 0 <= i < |path|
        ensures path[i] != x
      {
        assert q[i] == path[i] && q[|q| - 1] == x;
      }
      assert forall y :: y in path ==> y in q;
      ConsFresh(x, w);
    }
  }

  lemma ConsFresh(x: Id, w: seq<Id>)
    requires Distinct(w) && x !in w
    ensures Distinct([x] + w)
  {
    forall i, j | 0 <= i < j < |[x] + w|
      ensures ([x] + w)[i] != ([x] + w)[j]
    {
      if i > 0 {
        assert ([x] + w)[i] == w[i - 1];
      }
      assert ([x] + w)[j] == w[j - 1];
    }
  }

  // ---------------------------------------------------------------------
  // The fallback that appends missing entities (main.rs:276-281)
  // ---------------------------------------------------------------------

  /** Appends, in query order, every entity of `o` not yet in `acc`. */
  function AppendMissing(acc: seq<Id>, o: seq<Id>): (r: seq<Id>)
    ensures |r| >= |acc| && r[..|acc|] == acc
    ensures forall x :: x in r <==> x in acc || x in o
    decreases |o|
  {
    if o == [] then acc
    else AppendMissing(if o[0] in acc then acc else acc + [o[0]], o[1..])
  }

  lemma {:induction false} AppendMissingProps(acc: seq<Id>, o: seq<Id>)
    requires Distinct(acc)
    ensures Distinct(AppendMissing(acc, o))
    ensures Elems(AppendMissing(acc, o)) == Elems(acc) + Elems(o)
    ensures |AppendMissing(acc, o)| >= |acc| && AppendMissing(acc, o)[..|acc|] == acc
    decreases |o|
  {
    if o != [] {
      var acc' := if o[0] in acc then acc else acc + [o[0]];
      AppendMissingProps(acc', o[1..]);
      assert Elems(o) == {o[0]} + Elems(o[1..]);
      assert acc'[..|acc|] == acc;
    }
  }

  // ---------------------------------------------------------------------
  // The whole reconstruction
  // ---------------------------------------------------------------------

  /** The destruction list `start_chain_reaction` builds, or `None` when
      no chained entity points at the player (the error-sound branch). */
  function Reconstruct(o: seq<Id>, m: map<Id, Id>, p: Id): (r: Option<seq<Id>>)
    requires WellFormed(o, m, p)
    ensures r.Some? ==> |r.value| > 0 && r.value[0] in m && m[r.value[0]] == p
  {
    match FindTail(o, m, p)
    case None => None
    case Some(t) => Some(AppendMissing([t] + Walk(o, m, p, [t]), o))
  }

  lemma ReconstructUnfold(o: seq<Id>, m: map<Id, Id>, p: Id, t: Id, w: seq<Id>, r: seq<Id>)
    requires WellFormed(o, m, p) && FindTail(o, m, p) == Some(t)
    requires IsBackPath(m, p, [t]) && Walk(o, m, p, [t]) == w && AppendMissing([t] + w, o) == r
    ensures Reconstruct(o, m, p) == Some(r)
  {
  }

  /** The walk's list starts at `t` and never repeats an entity. */
  lemma WalkListFresh(o: seq<Id>, m: map<Id, Id>, p: Id, t: Id)
    requires WellFormed(o, m, p) && t in m && m[t] == p
    ensures IsBackPath(m, p, [t])
    ensures Distinct([t] + Walk(o, m, p, [t]))
    ensures Elems([t] + Walk(o, m, p, [t])) <= m.Keys
  {
    assert IsBackPath(m, p, [t]);
    WalkFresh(o, m, p, [t]);
  }

  /** The reconstruction aborts exactly when nothing points at the player. */
  lemma ReconstructAborts(o: seq<Id>, m: map<Id, Id>, p: Id)
    requires WellFormed(o, m, p)
    ensures Reconstruct(o, m, p).None? <==> forall x :: x in m ==> m[x] != p
  {
    var f := FindTail(o, m, p);
    assert Reconstruct(o, m, p).None? <==> f.None?;
    assert forall x :: x in m <==> x in o;
  }

  /** Otherwise it starts with an entity that points at the player, and
      lists every chained entity exactly once. */
  lemma ReconstructIsPermutation(o: seq<Id>, m: map<Id, Id>, p: Id)
    requires WellFormed(o, m, p)
    ensures Reconstruct(o, m, p).Some? ==>
      var r := Reconstruct(o, m, p).value;
      && |r| == |o| && Distinct(r) && Elems(r) == m.Keys
      && m[r[0]] == p
  {
    var f := FindTail(o, m, p);
    if f.Some? {
      var t := f.value;
      WalkListFresh(o, m, p, t);
      var w := [t] + Walk(o, m, p, [t]);
      AppendMissingProps(w, o);
      var r := AppendMissing(w, o);
      assert Reconstruct(o, m, p) == Some(r);
      assert r[0] == t by {
        assert r[..|w|][0] == w[0];
      }
      assert Elems(r) == Elems(o);
      DistinctCard(r);
      DistinctCard(o);
    }
  }

  /** On a chain built by the linker, the reconstruction starts with the
      tail and lists every linked enemy once; it aborts only on an empty
      chain. */
  lemma ReconstructChain(links: seq<Id>, p: Id, o: seq<Id>)
    requires Distinct(links) && p !in links
    requires Distinct(o) && Elems(o) == Elems(links)
    ensures WellFormed(o, ChainOf(links, p), p)
    ensures Reconstruct(o, ChainOf(links, p), p).None? <==> links == []
    ensures links != [] ==>
      var r := Reconstruct(o, ChainOf(links, p), p).value;
      && |r| == |links| && r[0] == TailOf(links, p)
      && Distinct(r) && Elems(r) == Elems(links)
  {
    ChainOfShape(links, p);
    OnlyTailPointsToPlayer(links, p);
    ReconstructAborts(o, ChainOf(links, p), p);
    ReconstructIsPermutation(o, ChainOf(links, p), p);
    DistinctCard(o);
    DistinctCard(links);
  }

  // ---------------------------------------------------------------------
  // The reconstruction as the code runs it
  // ---------------------------------------------------------------------

  /** main.rs:248-254: the last entity in query order whose prev is the
      player. */
  method FindTailLoop(o: seq<Id>, m: map<Id, Id>, p: Id) returns (found: Option<Id>)
    requires Elems(o) <= m.Keys
    ensures found == FindTail(o, m, p)
  {
    found := None;
    var i := 0;
    while i < |o|
      invariant 0 <= i <= |o|
      invariant found == FindTail(o[..i], m, p)
    {
      assert o[..i + 1][..i] == o[..i];
      if m[o[i]] == p {
        found := Some(o[i]);
      }
      i := i + 1;
    }
    assert o[..|o|] == o;
  }

  /** main.rs:263-269: one pass of the inner scan from `cur`. */
  method ScanPass(o: seq<Id>, m: map<Id, Id>, cur: Id) returns (last: Id, changed: bool)
    requires Elems(o) <= m.Keys
    ensures changed <==> ScanSteps(o, m, cur) != []
    ensures last == if changed then Last(ScanSteps(o, m, cur)) else cur
  {
    last, changed := cur, false;
    ghost var steps: seq<Id> := [];
    var j := 0;
    while j < |o|
      invariant 0 <= j <= |o|
      invariant ScanSteps(o, m, cur) == steps + ScanSteps(o[j..], m, last)
      invariant last == if steps == [] then cur else Last(steps)
      invariant changed == (steps != [])
    {
      assert o[j..][1..] == o[j + 1..];
      if m[o[j]] == last {
        last := o[j];
        changed := true;
        steps := steps + [o[j]];
      }
      j := j + 1;
    }
  }

  /** main.rs:260-273: push the candidate, scan, stop when a pass
      changes nothing. */
  method WalkLoop(o: seq<Id>, m: map<Id, Id>, p: Id, t: Id) returns (list: seq<Id>)
    requires WellFormed(o, m, p) && IsBackPath(m, p, [t])
    ensures list == [t] + Walk(o, m, p, [t])
  {
    var last := t;
    list := [];
    ghost var path := [t];
    while true
      invariant IsBackPath(m, p, path) && last == Last(path) && |path| <= |o|
      invariant list + [last] + Walk(o, m, p, path) == [t] + Walk(o, m, p, [t])
      decreases |o| - |path|
    {
      list := list + [last];
      var changed;
      last, changed := ScanPass(o, m, last);
      if !changed {
        break;
      }
      ghost var steps := ScanSteps(o, m, Last(path));
      ExtendBackPath(o, m, p, path);
      DistinctSubsetLength(path + steps, o);
      path := path + steps;
    }
  }

  /** main.rs:276-281: append every chained entity the walk missed. */
  method AppendMissingLoop(list: seq<Id>, o: seq<Id>) returns (acc: seq<Id>)
    ensures acc == AppendMissing(list, o)
  {
    acc := list;
    var k := 0;
    while k < |o|
      invariant 0 <= k <= |o|
      invariant AppendMissing(acc, o[k..]) == AppendMissing(list, o)
    {
      assert o[k..][1..] == o[k + 1..];
      if o[k] !in acc {
        acc := acc + [o[k]];
      }
      k := k + 1;
    }
  }

  /** The loops of main.rs:248-281 over the query order `o`. */
  method ReconstructOrder(o: seq<Id>, m: map<Id, Id>, p: Id) returns (r: Option<seq<Id>>)
    requires WellFormed(o, m, p)
    ensures r == Reconstruct(o, m, p)
  {
    var found := FindTailLoop(o, m, p);
    if found.None? {
      return None;
    }
    var t := found.value;
    assert IsBackPath(m, p, [t]);
    var list := WalkLoop(o, m, p, t);
    var acc := AppendMissingLoop(list, o);
    r := Some(acc);
  }

  // ---------------------------------------------------------------------
  // The corrected walk: one link per pass
  // ---------------------------------------------------------------------

  /** The first entity in query order whose `prev` is `cur`. */
  function FirstPointingAt(o: seq<Id>, m: map<Id, Id>, cur: Id): (r: Option<Id>)
    requires Elems(o) <= m.Keys
    ensures r.None? <==> forall x :: x in o ==> m[x] != cur
    ensures r.Some? ==> r.value in o && m[r.value] == cur
  {
    if o == [] then None
    else if m[o[0]] == cur then Some(o[0])
    else
      assert Elems(o[1..]) <= m.Keys;
      FirstPointingAt(o[1..], m, cur)
  }

  /** The walk with the inner scan stopping at its first match. */
  function CorrectedWalk(o: seq<Id>, m: map<Id, Id>, p: Id, path: seq<Id>): (r: seq<Id>)
    requires WellFormed(o, m, p) && IsBackPath(m, p, path)
    ensures forall x :: x in r ==> x in o
    ensures r != [] ==> m[r[0]] == Last(path)
    ensures forall i :: 0 < i < |r| ==> m[r[i]] == r[i - 1]
    decreases |o| - |path|
  {
    match FirstPointingAt(o, m, Last(path))
    case None => []
    case Some(e) =>
      BackPathStep(m, p, path, e);
      DistinctSubsetLength(path + [e], o);
      [e] + CorrectedWalk(o, m, p, path + [e])
  }

  /** The destruction order the walk was meant to produce. */
  function CorrectedOrder(o: seq<Id>, m: map<Id, Id>, p: Id): (r: Option<seq<Id>>)
    requires WellFormed(o, m, p)
    ensures r.None? <==> forall x :: x in m ==> m[x] != p
    ensures r.Some? ==> |r.value| > 0 && (forall x :: x in r.value ==> x in m) && m[r.value[0]] == p
    ensures r.Some? ==> forall i :: 0 < i < |r.value| ==> m[r.value[i]] == r.value[i - 1]
  {
    match FindTail(o, m, p)
    case None => None
    case Some(t) => Some([t] + CorrectedWalk(o, m, p, [t]))
  }

  function Reversed(s: seq<Id>): (r: seq<Id>)
    ensures |r| == |s|
  {
    seq(|s|, i requires 0 <= i < |s| => s[|s| - 1 - i])
  }

  /** `m` has the shape of the chain linked in the order `links`. */
  predicate LinkedBy(m: map<Id, Id>, links: seq<Id>, p: Id)
  {
    && Distinct(links) && p !in links && links != []
    && m.Keys == Elems(links)
    && (forall i :: 0 <= i < |links| - 1 ==> m[links[i]] == links[i + 1])
    && m[Last(links)] == p
  }

  lemma ChainIsLinkedBy(links: seq<Id>, p: Id)
    requires Distinct(links) && p !in links && links != []
    ensures LinkedBy(ChainOf(links, p), links, p)
  {
    ChainOfShape(links, p);
  }

  /** On a linked chain, the entities pointing at `links[k]` are exactly
      `links[k - 1]` (none when k is 0). */
  lemma PointingAtLink(m: map<Id, Id>, links: seq<Id>, p: Id, k: int, x: Id)
    requires LinkedBy(m, links, p) && 0 <= k < |links| && x in m
    ensures m[x] == links[k] <==> k > 0 && x == links[k - 1]
  {
    var i :| 0 <= i < |links| && links[i] == x;
    if i < |links| - 1 {
      assert m[x] == links[i + 1];
    }
  }

  /** Newest-first, a suffix of the link order is a back path. */
  lemma ReversedSuffixBackPath(m: map<Id, Id>, links: seq<Id>, p: Id, k: int)
    requires LinkedBy(m, links, p) && 0 <= k < |links|
    ensures IsBackPath(m, p, Reversed(links[k..]))
  {
    var n := |links|;
    var path := Reversed(links[k..]);
    assert forall i :: 0 <= i < |path| ==> path[i] == links[n - 1 - i];
    forall i | 0 < i < |path|
      ensures m[path[i]] == path[i - 1]
    {
      assert path[i] == links[n - 1 - i] && n - 1 - i < n - 1;
    }
    assert path[0] == Last(links);
  }

  /** On a linked chain the first entity pointing at `links[k]` is
      `links[k - 1]`, and nothing points at the oldest link. */
  lemma FirstPointingAtLink(o: seq<Id>, m: map<Id, Id>, links: seq<Id>, p: Id, k: int)
    requires LinkedBy(m, links, p) && Elems(o) == Elems(links)
    requires 0 <= k < |links|
    ensures FirstPointingAt(o, m, links[k]) == if k == 0 then None else Some(links[k - 1])
  {
    var f := FirstPointingAt(o, m, links[k]);
    if k == 0 {
      forall x | x in o
        ensures m[x] != links[0]
      {
        PointingAtLink(m, links, p, 0, x);
      }
    } else {
      PointingAtLink(m, links, p, k, links[k - 1]);
      assert links[k - 1] in o;
      PointingAtLink(m, links, p, k, f.value);
    }
  }

  /** One step of the corrected walk. */
  lemma CorrectedWalkUnfold(o: seq<Id>, m: map<Id, Id>, p: Id, path: seq<Id>, e: Id)
    requires WellFormed(o, m, p) && IsBackPath(m, p, path)
    requires FirstPointingAt(o, m, Last(path)) == Some(e)
    ensures IsBackPath(m, p, path + [e])
    ensures CorrectedWalk(o, m, p, path) == [e] + CorrectedWalk(o, m, p, path + [e])
  {
    BackPathStep(m, p, path, e);
  }

  lemma ReversedStep(links: seq<Id>, k: int)
    requires 0 < k < |links|
    ensures Reversed(links[k - 1..]) == Reversed(links[k..]) + [links[k - 1]]
    ensures Reversed(links[..k]) == [links[k - 1]] + Reversed(links[..k - 1])
  {
  }

  lemma {:induction false} CorrectedWalkFrom(o: seq<Id>, m: map<Id, Id>, links: seq<Id>, p: Id, k: int)
    requires LinkedBy(m, links, p) && WellFormed(o, m, p)
    requires 0 <= k < |links|
    ensures IsBackPath(m, p, Reversed(links[k..]))
    ensures CorrectedWalk(o, m, p, Reversed(links[k..])) == Reversed(links[..k])
    decreases k
  {
    ReversedSuffixBackPath(m, links, p, k);
    var path := Reversed(links[k..]);
    assert Last(path) == links[k];
    FirstPointingAtLink(o, m, links, p, k);
    if k == 0 {
      assert links[..0] == [];
    } else {
      CorrectedWalkUnfold(o, m, p, path, links[k - 1]);
      ReversedStep(links, k);
      CorrectedWalkFrom(o, m, links, p, k - 1);
    }
  }

  /** Only the newest link points at the player. */
  lemma PointingAtPlayer(m: map<Id, Id>, links: seq<Id>, p: Id, x: Id)
    requires LinkedBy(m, links, p) && x in m
    ensures m[x] == p <==> x == Last(links)
  {
    var i :| 0 <= i < |links| && links[i] == x;
    if i < |links| - 1 {
      assert m[x] == links[i + 1];
    }
  }

  /** On a linked chain the reconstruction starts at the newest link. */
  lemma FindTailLinked(o: seq<Id>, m: map<Id, Id>, links: seq<Id>, p: Id)
    requires LinkedBy(m, links, p) && WellFormed(o, m, p)
    ensures FindTail(o, m, p) == Some(Last(links))
  {
    var t := FindTail(o, m, p);
    PointingAtPlayer(m, links, p, t.value);
  }

  lemma CorrectedOrderUnfold(o: seq<Id>, m: map<Id, Id>, p: Id, t: Id)
    requires WellFormed(o, m, p) && FindTail(o, m, p) == Some(t)
    ensures IsBackPath(m, p, [t])
    ensures CorrectedOrder(o, m, p) == Some([t] + CorrectedWalk(o, m, p, [t]))
  {
  }

  lemma CorrectedOrderLinked(o: seq<Id>, m: map<Id, Id>, links: seq<Id>, p: Id)
    requires LinkedBy(m, links, p) && WellFormed(o, m, p)
    ensures CorrectedOrder(o, m, p) == Some(Reversed(links))
  {
    var n := |links|;
    FindTailLinked(o, m, links, p);
    CorrectedOrderUnfold(o, m, p, Last(links));
    ReversedLast(links);
    CorrectedWalkFrom(o, m, links, p, n - 1);
  }

  lemma ReversedLast(links: seq<Id>)
    requires links != []
    ensures Reversed(links[|links| - 1..]) == [Last(links)]
    ensures Reversed(links) == [Last(links)] + Reversed(links[..|links| - 1])
  {
  }

  /** The corrected walk destroys the chain newest-first: the reverse of
      the link order, whatever order the query visits the entities in. */
  lemma CorrectedOrderIsReverse(o: seq<Id>, links: seq<Id>, p: Id)
    requires Distinct(links) && p !in links && links != []
    requires Distinct(o) && Elems(o) == Elems(links)
    ensures WellFormed(o, ChainOf(links, p), p)
    ensures CorrectedOrder(o, ChainOf(links, p), p) == Some(Reversed(links))
  {
    ChainIsLinkedBy(links, p);
    CorrectedOrderLinked(o, ChainOf(links, p), links, p);
  }

  lemma ReversedElems(links: seq<Id>)
    ensures Elems(Reversed(links)) == Elems(links)
  {
    var r := Reversed(links);
    forall x | x in links
      ensures x in r
    {
      var i :| 0 <= i < |links| && links[i] == x;
      assert r[|links| - 1 - i] == x;
    }
  }

  /** On a chain the linker built, the walk as written and the corrected
      walk destroy the same entities, so the combo and the score agree;
      only the order differs. */
  lemma SameEntitiesEitherWay(links: seq<Id>, p: Id, o: seq<Id>)
    requires Distinct(links) && p !in links && links != []
    requires Distinct(o) && Elems(o) == Elems(links)
    ensures WellFormed(o, ChainOf(links, p), p)
    ensures Reconstruct(o, ChainOf(links, p), p).Some?
    ensures CorrectedOrder(o, ChainOf(links, p), p).Some?
    ensures |Reconstruct(o, ChainOf(links, p), p).value| == |CorrectedOrder(o, ChainOf(links, p), p).value|
    ensures Elems(Reconstruct(o, ChainOf(links, p), p).value) == Elems(CorrectedOrder(o, ChainOf(links, p), p).value)
  {
    ReconstructChain(links, p, o);
    CorrectedOrderIsReverse(o, links, p);
    ReversedElems(links);
  }


  /** The example of the finding: linking 1, 2, 3 with player 0. */
  lemma ExampleChain()
    ensures ChainOf([1, 2, 3], 0) == map[1 := 2, 2 := 3, 3 := 0]
  {
    assert [1, 2, 3][..2] == [1, 2] && [1, 2][..1] == [1];
  }

  /** The walk as written on that chain, with a query that visits 3, 2, 1:
      the first pass moves from 3 to 2 and, still scanning, on to 1, so 2
      is only appended by the fallback. */
  lemma AsWrittenSkipsLink()
    ensures WellFormed([3, 2, 1], map[1 := 2, 2 := 3, 3 := 0], 0)
    ensures Reconstruct([3, 2, 1], map[1 := 2, 2 := 3, 3 := 0], 0) == Some([3, 1, 2])
  {
    var m := map[1 := 2, 2 := 3, 3 := 0];
    var o := [3, 2, 1];
    ExampleFindTail();
    ExampleWalk();
    ExampleAppend();
    ReconstructUnfold(o, m, 0, 3, [1], [3, 1, 2]);
  }

  lemma ExampleFindTail()
    ensures WellFormed([3, 2, 1], map[1 := 2, 2 := 3, 3 := 0], 0)
    ensures FindTail([3, 2, 1], map[1 := 2, 2 := 3, 3 := 0], 0) == Some(3)
  {
    var o := [3, 2, 1];
    assert Elems(o) == {1, 2, 3};
    assert o[..2] == [3, 2] && o[..2][..1] == [3];
  }

  /** The first pass from 3 follows 2 and then 1; the second pass from 1
      finds nothing. */
  lemma ExampleWalk()
    ensures WellFormed([3, 2, 1], map[1 := 2, 2 := 3, 3 := 0], 0)
    ensures IsBackPath(map[1 := 2, 2 := 3, 3 := 0], 0, [3])
    ensures Walk([3, 2, 1], map[1 := 2, 2 := 3, 3 := 0], 0, [3]) == [1]
  {
    var m := map[1 := 2, 2 := 3, 3 := 0];
    var o := [3, 2, 1];
    assert Elems(o) == {1, 2, 3};
    assert o[1..] == [2, 1] && o[1..][1..] == [1] && o[1..][1..][1..] == [];
    assert ScanSteps(o, m, 3) == [2, 1];
    assert ScanSteps(o, m, 1) == [];
    assert IsBackPath(m, 0, [3]);
    assert [3] + [2, 1] == [3, 2, 1];
    assert IsBackPath(m, 0, [3, 2, 1]);
    assert Walk(o, m, 0, [3, 2, 1]) == [];
  }

  lemma ExampleAppend()
    ensures AppendMissing([3] + [1], [3, 2, 1]) == [3, 1, 2]
  {
    assert [3] + [1] == [3, 1];
    var o := [3, 2, 1];
    assert o[1..] == [2, 1] && o[1..][1..] == [1] && o[1..][1..][1..] == [];
    assert [3, 1] + [2] == [3, 1, 2];
  }

  /** The corrected walk on the same input gives the intended 3, 2, 1. */
  lemma CorrectedKeepsLink()
    ensures WellFormed([3, 2, 1], map[1 := 2, 2 := 3, 3 := 0], 0)
    ensures CorrectedOrder([3, 2, 1], map[1 := 2, 2 := 3, 3 := 0], 0) == Some([3, 2, 1])
  {
    ExampleChain();
    assert Elems([3, 2, 1]) == Elems([1, 2, 3]);
    CorrectedOrderIsReverse([3, 2, 1], [1, 2, 3], 0);
    assert Reversed([1, 2, 3]) == [3, 2, 1];
  }

  // ---------------------------------------------------------------------
  // The destruction coroutine and the score
  // ---------------------------------------------------------------------

  /** The `Score` resource (main.rs:566-567). */
  class Score {
    var value: nat

    constructor ()
      ensures value == 0
    {
      value := 0;
    }
  }

  /** The destruction loop of the spawned coroutine (main.rs:290-389), run to the end:
      the i-th destroyed entity (from 0) shows the combo `1 + 2i`, and the
      combo after `k` entities is `1 + 2k`. */
  method RunReaction(list: seq<Id>) returns (destroyed: seq<Id>, popups: seq<nat>, combo: nat)
    ensures destroyed == list
    ensures |popups| == |list| && forall i :: 0 <= i < |popups| ==> popups[i] == 1 + 2 * i
    ensures combo == 1 + 2 * |list|
  {
    combo := 1;
    destroyed, popups := [], [];
    var i := 0;
    while i < |list|
      invariant 0 <= i <= |list|
      invariant combo == 1 + 2 * i
      invariant destroyed == list[..i]
      invariant |popups| == i && forall k :: 0 <= k < i ==> popups[k] == 1 + 2 * k
    {
      popups := popups + [combo];
      destroyed := destroyed + [list[i]];
      combo := combo + 2;
      i := i + 1;
    }
  }

  datatype Outcome =
    | Aborted
    | Reacted(destroyed: seq<Id>, popups: seq<nat>)

  /** `start_chain_reaction` when a `StartChainReaction` event is pending,
      with its coroutine run to completion. `order` is the query's iteration
      order over the chained entities. */
  method StartChainReaction(chain: Chain, score: Score, order: seq<Id>) returns (outcome: Outcome)
    requires chain.Valid()
    requires Distinct(order) && Elems(order) == chain.chained.Keys
    modifies chain, score
    ensures chain.Valid()
    ensures WellFormed(order, old(chain.chained), chain.player)
    ensures Reconstruct(order, old(chain.chained), chain.player).None? ==>
      && outcome == Aborted
      && chain.chained == old(chain.chained) && chain.tail == old(chain.tail)
      && chain.clickable == old(chain.clickable) && score.value == old(score.value)
    ensures Reconstruct(order, old(chain.chained), chain.player).Some? ==>
      var list := Reconstruct(order, old(chain.chained), chain.player).value;
      && outcome.Reacted? && outcome.destroyed == list
      && |outcome.popups| == |list|
      && (forall i :: 0 <= i < |list| ==> outcome.popups[i] == 1 + 2 * i)
      && chain.tail == chain.player && chain.chained == map[]
      && chain.clickable == old(chain.clickable) - Elems(list)
      && score.value == old(score.value) + 1 + 2 * |list|
  {
    ChainOfShape(chain.links, chain.player);
    var r := ReconstructOrder(order, chain.chained, chain.player);
    if r.None? {
      return Aborted;
    }
    var list := r.value;
    ReconstructIsPermutation(order, chain.chained, chain.player);
    chain.ResetAndDespawn(list);
    var destroyed, popups, combo := RunReaction(list);
    score.value := score.value + combo;
    outcome := Reacted(destroyed, popups);
  }
}
