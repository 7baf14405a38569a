/**
 * Ordering top-level descriptors so that every descriptor comes after the
 * descriptors its reference fields name (`topological_sort`), and listing
 * a descriptor tree in pre-order (`flatten_descriptors`).
 */
module Topological {
  import opened Wrappers
  import opened Values
  import opened Errors
  import opened Registry
  import opened Resolver

  // ---------------------------------------------------------------------
  // The dependency graph
  // ---------------------------------------------------------------------

  /** The string field values that match the reference pattern, in field order. */
  function DepsOf(fields: Entries): (r: seq<string>)
    ensures forall s :: s in r <==> exists i :: 0 <= i < |fields| && fields[i].1 == Str(s) && MatchesReferencePattern(s)
    decreases |fields|
  {
    if fields == [] then []
    else
      var rest := DepsOf(fields[1..]);
      assert forall s :: (exists i :: 0 <= i < |fields| - 1 && fields[1..][i].1 == Str(s) && MatchesReferencePattern(s)) <==>
                         (exists i :: 1 <= i < |fields| && fields[i].1 == Str(s) && MatchesReferencePattern(s)) by {
        forall s ensures (exists i :: 0 <= i < |fields| - 1 && fields[1..][i].1 == Str(s) && MatchesReferencePattern(s)) ==>
                         (exists i :: 1 <= i < |fields| && fields[i].1 == Str(s) && MatchesReferencePattern(s)) {
          if exists i :: 0 <= i < |fields| - 1 && fields[1..][i].1 == Str(s) && MatchesReferencePattern(s) {
            var i :| 0 <= i < |fields| - 1 && fields[1..][i].1 == Str(s) && MatchesReferencePattern(s);
            assert fields[i + 1].1 == Str(s);
          }
        }
        forall s ensures (exists i :: 1 <= i < |fields| && fields[i].1 == Str(s) && MatchesReferencePattern(s)) ==>
                         (exists i :: 0 <= i < |fields| - 1 && fields[1..][i].1 == Str(s) && MatchesReferencePattern(s)) {
          if exists i :: 1 <= i < |fields| && fields[i].1 == Str(s) && MatchesReferencePattern(s) {
            var i :| 1 <= i < |fields| && fields[i].1 == Str(s) && MatchesReferencePattern(s);
            assert fields[1..][i - 1].1 == Str(s);
          }
        }
      }
      if IsReferencePattern(fields[0].1) then [fields[0].1.s] + rest else rest
  }

  /** `{desc.identity: desc for desc in descriptors}`: the last descriptor of an identity wins. */
  function DescriptorMap(ds: seq<Descriptor>): (m: map<string, Descriptor>)
    ensures m.Keys == set i | 0 <= i < |ds| :: ds[i].identity
    ensures KeyedByIdentity(m)
    decreases |ds|
  {
    if ds == [] then map[]
    else
      var n := |ds| - 1;
      var m0 := DescriptorMap(ds[..n]);
      assert forall i :: 0 <= i < n ==> ds[..n][i] == ds[i];
      m0[ds[n].identity := ds[n]]
  }

  /** Every descriptor of the map is stored under its own identity. */
  ghost predicate KeyedByIdentity(dm: map<string, Descriptor>) {
    forall id :: id in dm ==> dm[id].identity == id
  }

  /** The descriptor kept for an identity is the last one listed with it. */
  lemma {:induction false} DescriptorMapKeepsLast(ds: seq<Descriptor>, id: string)
    requires id in DescriptorMap(ds)
    ensures exists i :: 0 <= i < |ds| && ds[i] == DescriptorMap(ds)[id] &&
              forall j :: i < j < |ds| ==> ds[j].identity != id
    decreases |ds|
  {
    var n := |ds| - 1;
    var init := ds[..n];
    assert DescriptorMap(ds) == DescriptorMap(init)[ds[n].identity := ds[n]];
    if ds[n].identity == id {
      assert DescriptorMap(ds)[id] == ds[n];
    } else {
      assert id in DescriptorMap(init);
      DescriptorMapKeepsLast(init, id);
      var i :| 0 <= i < n && init[i] == DescriptorMap(init)[id] &&
               forall j :: i < j < n ==> init[j].identity != id;
      assert ds[i] == DescriptorMap(ds)[id];
      forall j | i < j < |ds| ensures ds[j].identity != id {
        if j < n { assert init[j] == ds[j]; }
      }
    }
  }

  /** The dependency lists the sort walks: the reference values of each mapped descriptor. */
  ghost predicate DependenciesOf(dm: map<string, Descriptor>, deps: map<string, seq<string>>) {
    deps.Keys == dm.Keys && forall id :: id in deps ==> deps[id] == DepsOf(dm[id].fields)
  }

  /** The loop that fills `dependencies`. */
  method BuildDependencies(ds: seq<Descriptor>) returns (deps: map<string, seq<string>>)
    ensures DependenciesOf(DescriptorMap(ds), deps)
  {
    deps := map[];
    var i := 0;
    while i < |ds|
      invariant i <= |ds|
      invariant DependenciesOf(DescriptorMap(ds[..i]), deps)
    {
      assert ds[..i + 1][..i] == ds[..i];
      deps := deps[ds[i].identity := DepsOf(ds[i].fields)];
      i := i + 1;
    }
    assert ds[..i] == ds;
  }

  /** `u` depends on `v`: `v` is a mapped identity among `u`'s reference values. */
  ghost predicate Edge(dm: map<string, Descriptor>, u: string, v: string) {
    u in dm && v in dm && v in DepsOf(dm[u].fields)
  }

  /** Consecutive identities of `w` are joined by dependency edges. */
  ghost predicate Walk(dm: map<string, Descriptor>, w: seq<string>) {
    forall k :: 0 <= k < |w| - 1 ==> Edge(dm, w[k], w[k + 1])
  }

  /** A walk that comes back to an identity it has passed: the dependencies contain a cycle. */
  ghost predicate CyclicWalk(dm: map<string, Descriptor>, w: seq<string>) {
    |w| >= 2 && Walk(dm, w) && w[|w| - 1] in w[..|w| - 1]
  }

  function Ids(rs: seq<Descriptor>): (r: seq<string>)
    ensures |r| == |rs| && forall k :: 0 <= k < |rs| ==> r[k] == rs[k].identity
  {
    seq(|rs|, k requires 0 <= k < |rs| => rs[k].identity)
  }

  /**
   * A creation order for `dm`: mapped descriptors, each identity once, and
   * every dependency of a descriptor placed before it.
   */
  ghost predicate Ordered(dm: map<string, Descriptor>, rs: seq<Descriptor>) {
    var ids := Ids(rs);
    (forall k :: 0 <= k < |rs| ==> ids[k] in dm && dm[ids[k]] == rs[k]) &&
    (forall k, l :: 0 <= k < l < |rs| ==> ids[k] != ids[l]) &&
    (forall k, v :: 0 <= k < |rs| && Edge(dm, ids[k], v) ==> v in ids[..k])
  }

  function PathSet(path: seq<string>): set<string> {
    set x | x in path
  }

  // ---------------------------------------------------------------------
  // The depth-first search
  // ---------------------------------------------------------------------

  /**
   * `visit(identity, path)`. `visited` is the set of finished identities,
   * which are exactly those in `result`; the identities being visited are
   * those of `path`. Returns the cycle walk when it meets an identity of
   * the path again.
   */
  method Visit(dm: map<string, Descriptor>, deps: map<string, seq<string>>, id: string, path: seq<string>,
               visited: set<string>, result: seq<Descriptor>)
    returns (visited': set<string>, result': seq<Descriptor>, cycle: Option<seq<string>>)
    requires DependenciesOf(dm, deps) && KeyedByIdentity(dm)
    requires id in dm
    requires Walk(dm, path + [id])
    requires Ordered(dm, result) && visited == PathSet(Ids(result))
    requires visited !! PathSet(path)
    ensures cycle.None? ==> Ordered(dm, result') && visited' == PathSet(Ids(result'))
    ensures cycle.None? ==> id in visited' && visited <= visited' && visited' !! PathSet(path)
    ensures cycle.None? ==> |result| <= |result'| && result'[..|result|] == result
    ensures cycle.Some? ==> CyclicWalk(dm, cycle.value)
    decreases dm.Keys - PathSet(path), 2
  {
    if id in visited {
      return visited, result, None;
    }
    if id in PathSet(path) {
      assert (path + [id])[..|path|] == path;
      return visited, result, Some(path + [id]);
    }
    var before;
    visited', before, cycle := VisitDependencies(dm, deps, id, path, visited, result);
    if cycle.Some? {
      return visited', before, cycle;
    }
    result' := before + [dm[id]];
    visited' := visited' + {id};
    OrderedAppend(dm, before, id);
    assert result'[..|result|] == before[..|result|];
  }

  /** The loop of `visit` over the dependencies of `id`, each visited with `id` added to the path. */
  method VisitDependencies(dm: map<string, Descriptor>, deps: map<string, seq<string>>, id: string, path: seq<string>,
                           visited: set<string>, result: seq<Descriptor>)
    returns (visited': set<string>, result': seq<Descriptor>, cycle: Option<seq<string>>)
    requires DependenciesOf(dm, deps) && KeyedByIdentity(dm)
    requires id in dm && id !in visited && id !in PathSet(path)
    requires Walk(dm, path + [id])
    requires Ordered(dm, result) && visited == PathSet(Ids(result))
    requires visited !! PathSet(path)
    ensures cycle.None? ==> Ordered(dm, result') && visited' == PathSet(Ids(result'))
    ensures cycle.None? ==> visited <= visited' && visited' !! PathSet(path + [id])
    ensures cycle.None? ==> |result| <= |result'| && result'[..|result|] == result
    ensures cycle.None? ==> forall v :: Edge(dm, id, v) ==> v in visited'
    ensures cycle.Some? ==> CyclicWalk(dm, cycle.value)
    decreases dm.Keys - PathSet(path), 1
  {
    var ds := deps[id];
    visited', result' := visited, result;
    for i := 0 to |ds|
      invariant Ordered(dm, result') && visited' == PathSet(Ids(result'))
      invariant visited <= visited' && visited' !! PathSet(path + [id])
      invariant |result| <= |result'| && result'[..|result|] == result
      invariant forall k :: 0 <= k < i && ds[k] in dm ==> ds[k] in visited'
    {
      var v, r, c := VisitDependency(dm, deps, id, path, ds[i], visited', result');
      if c.Some? {
        return v, r, c;
      }
      assert r[..|result|] == r[..|result'|][..|result|];
      visited', result' := v, r;
    }
    forall v | Edge(dm, id, v) ensures v in visited' {
      var k :| 0 <= k < |ds| && ds[k] == v;
    }
    cycle := None;
  }

  /** One dependency `dep` of `id`: visited, when it is mapped, with `id` added to the path. */
  method VisitDependency(dm: map<string, Descriptor>, deps: map<string, seq<string>>, id: string, path: seq<string>,
                         dep: string, visited: set<string>, result: seq<Descriptor>)
    returns (visited': set<string>, result': seq<Descriptor>, cycle: Option<seq<string>>)
    requires DependenciesOf(dm, deps) && KeyedByIdentity(dm)
    requires id in dm && id !in PathSet(path) && dep in deps[id]
    requires Walk(dm, path + [id])
    requires Ordered(dm, result) && visited == PathSet(Ids(result))
    requires visited !! PathSet(path + [id])
    ensures cycle.None? ==> Ordered(dm, result') && visited' == PathSet(Ids(result'))
    ensures cycle.None? ==> visited <= visited' && visited' !! PathSet(path + [id]) && (dep in dm ==> dep in visited')
    ensures cycle.None? ==> |result| <= |result'| && result'[..|result|] == result
    ensures cycle.Some? ==> CyclicWalk(dm, cycle.value)
    decreases dm.Keys - PathSet(path), 0
  {
    if dep !in dm {
      return visited, result, None;
    }
    var here := path + [id];
    assert PathSet(here) == PathSet(path) + {id};
    WalkExtend(dm, here, dep);
    visited', result', cycle := Visit(dm, deps, dep, here, visited, result);
  }

  /** A walk ending in `u` goes on along an edge out of `u`. */
  lemma WalkExtend(dm: map<string, Descriptor>, w: seq<string>, v: string)
    requires Walk(dm, w) && w != [] && Edge(dm, w[|w| - 1], v)
    ensures Walk(dm, w + [v])
  {
    forall k | 0 <= k < |w + [v]| - 1 ensures Edge(dm, (w + [v])[k], (w + [v])[k + 1]) {
      if k < |w| - 1 {
        assert (w + [v])[k] == w[k] && (w + [v])[k + 1] == w[k + 1];
      }
    }
  }

  /** Appending a descriptor whose dependencies are all placed keeps the order. */
  lemma OrderedAppend(dm: map<string, Descriptor>, rs: seq<Descriptor>, id: string)
    requires Ordered(dm, rs) && id in dm && KeyedByIdentity(dm)
    requires id !in PathSet(Ids(rs))
    requires forall v :: Edge(dm, id, v) ==> v in PathSet(Ids(rs))
    ensures Ordered(dm, rs + [dm[id]])
    ensures PathSet(Ids(rs + [dm[id]])) == PathSet(Ids(rs)) + {id}
  {
    var rs' := rs + [dm[id]];
    var ids, ids' := Ids(rs), Ids(rs');
    assert ids' == ids + [id];
    forall k, v | 0 <= k < |rs'| && Edge(dm, ids'[k], v) ensures v in ids'[..k] {
      if k < |rs| {
        assert ids'[..k] == ids[..k];
      } else {
        assert ids'[..k] == ids;
      }
    }
  }

  /**
   * `topological_sort`: the distinct top-level descriptors in an order where
   * dependencies come first, or the cycle that prevents one.
   */
  method TopologicalSort(ds: seq<Descriptor>) returns (r: Result<seq<Descriptor>, SeedError>)
    ensures r.Ok? ==> Ordered(DescriptorMap(ds), r.value)
    ensures r.Ok? ==> PathSet(Ids(r.value)) == DescriptorMap(ds).Keys
    ensures r.Err? ==> r.error.CircularDependency? && CyclicWalk(DescriptorMap(ds), r.error.cycle)
  {
    var dm := DescriptorMap(ds);
    var deps := BuildDependencies(ds);
    var result, cycle := VisitAll(dm, deps, ds);
    if cycle.Some? {
      return Err(CircularDependency(cycle.value));
    }
    assert forall k :: 0 <= k < |result| ==> result[k].identity in dm by {
      forall k | 0 <= k < |result| ensures result[k].identity in dm {
        assert Ids(result)[k] == result[k].identity;
      }
    }
    OrderCoversMap(ds, result);
    return Ok(result);
  }

  /** The loop of `topological_sort`: visit every descriptor not yet placed, in list order. */
  method VisitAll(dm: map<string, Descriptor>, deps: map<string, seq<string>>, ds: seq<Descriptor>)
    returns (result: seq<Descriptor>, cycle: Option<seq<string>>)
    requires DependenciesOf(dm, deps) && KeyedByIdentity(dm)
    requires forall k :: 0 <= k < |ds| ==> ds[k].identity in dm
    ensures cycle.None? ==> Ordered(dm, result) && forall k :: 0 <= k < |ds| ==> ds[k].identity in PathSet(Ids(result))
    ensures cycle.Some? ==> CyclicWalk(dm, cycle.value)
  {
    var visited: set<string> := {};
    result := [];
    for i := 0 to |ds|
      invariant Ordered(dm, result) && visited == PathSet(Ids(result))
      invariant forall k :: 0 <= k < i ==> ds[k].identity in visited
    {
      if ds[i].identity !in visited {
        visited, result, cycle := Visit(dm, deps, ds[i].identity, [], visited, result);
        if cycle.Some? {
          return;
        }
      }
    }
    cycle := None;
  }

  /** An order of the mapped descriptors that places every listed identity holds exactly the map's keys. */
  lemma OrderCoversMap(ds: seq<Descriptor>, rs: seq<Descriptor>)
    requires forall k :: 0 <= k < |rs| ==> rs[k].identity in DescriptorMap(ds)
    requires forall k :: 0 <= k < |ds| ==> ds[k].identity in PathSet(Ids(rs))
    ensures PathSet(Ids(rs)) == DescriptorMap(ds).Keys
  {
    var dm, placed := DescriptorMap(ds), PathSet(Ids(rs));
    forall x | x in placed ensures x in dm.Keys {
      var k :| 0 <= k < |rs| && Ids(rs)[k] == x;
      assert rs[k].identity == x;
    }
    forall x | x in dm.Keys ensures x in placed {
      var i :| 0 <= i < |ds| && ds[i].identity == x;
    }
  }

  /** Along a walk, each identity sits before the one it came from in an order. */
  lemma {:induction false} WalkGoesBackwards(dm: map<string, Descriptor>, rs: seq<Descriptor>, w: seq<string>, a: nat, b: nat,
                                              pa: nat, pb: nat)
    requires Ordered(dm, rs)
    requires Walk(dm, w) && a < b < |w|
    requires pa < |rs| && pb < |rs| && Ids(rs)[pa] == w[a] && Ids(rs)[pb] == w[b]
    ensures pb < pa
    decreases b - a
  {
    var ids := Ids(rs);
    assert Edge(dm, w[a], w[a + 1]);
    assert w[a + 1] in ids[..pa];
    var p :| 0 <= p < pa && ids[..pa][p] == w[a + 1];
    if a + 1 < b {
      WalkGoesBackwards(dm, rs, w, a + 1, b, p, pb);
    } else {
      assert ids[p] == ids[pb];
    }
  }

  /** A graph that has a creation order has no cycle; so the sort fails exactly on cyclic dependencies. */
  lemma OrderedGraphHasNoCycle(dm: map<string, Descriptor>, rs: seq<Descriptor>, w: seq<string>)
    requires Ordered(dm, rs) && PathSet(Ids(rs)) == dm.Keys
    ensures !CyclicWalk(dm, w)
  {
    if CyclicWalk(dm, w) {
      var ids := Ids(rs);
      var n := |w| - 1;
      var m :| 0 <= m < n && w[..n][m] == w[n];
      assert Edge(dm, w[0], w[1]);
      assert w[m] in dm;
      var p :| 0 <= p < |rs| && ids[p] == w[m];
      WalkGoesBackwards(dm, rs, w, m, n, p, p);
    }
  }

  // ---------------------------------------------------------------------
  // flatten_descriptors
  // ---------------------------------------------------------------------

  /** Pre-order over nested children: each descriptor, then its nested subtree. */
  function Flat(ds: seq<Descriptor>): seq<Descriptor>
    decreases ds
  {
    if ds == [] then [] else [ds[0]] + Flat(ds[0].nestedChildren) + Flat(ds[1..])
  }

  lemma {:induction false} FlatConcat(a: seq<Descriptor>, b: seq<Descriptor>)
    ensures Flat(a + b) == Flat(a) + Flat(b)
    decreases a
  {
    if a != [] {
      assert (a + b)[1..] == a[1..] + b;
      FlatConcat(a[1..], b);
    } else {
      assert a + b == b;
    }
  }

  /** `add_descriptor`: append a descriptor and, recursively, its nested children. */
  method AddDescriptor(d: Descriptor, acc: seq<Descriptor>) returns (r: seq<Descriptor>)
    ensures r == acc + Flat([d])
    decreases d
  {
    r := acc + [d];
    var children := d.nestedChildren;
    var i := 0;
    while i < |children|
      invariant i <= |children|
      invariant r == acc + [d] + Flat(children[..i])
    {
      r := AddDescriptor(children[i], r);
      FlatConcat(children[..i], [children[i]]);
      assert children[..i + 1] == children[..i] + [children[i]];
      i := i + 1;
    }
    assert children[..i] == children;
    assert [d][1..] == [];
  }

  /** `flatten_descriptors`: every descriptor followed by its nested subtree, in order. */
  method FlattenDescriptors(ds: seq<Descriptor>) returns (r: seq<Descriptor>)
    ensures r == Flat(ds)
  {
    r := [];
    var i := 0;
    while i < |ds|
      invariant i <= |ds|
      invariant r == Flat(ds[..i])
    {
      r := AddDescriptor(ds[i], r);
      FlatConcat(ds[..i], [ds[i]]);
      assert ds[..i + 1] == ds[..i] + [ds[i]];
      i := i + 1;
    }
    assert ds[..i] == ds;
  }

  /** The flattened list holds the top-level descriptors and is closed under nested children. */
  lemma {:induction false} FlatContainsTree(ds: seq<Descriptor>)
    ensures forall d :: d in ds ==> d in Flat(ds)
    ensures forall d, c :: d in Flat(ds) && c in d.nestedChildren ==> c in Flat(ds)
    decreases ds
  {
    if ds != [] {
      FlatContainsTree(ds[0].nestedChildren);
      FlatContainsTree(ds[1..]);
      forall d | d in ds ensures d in Flat(ds) {
        if d != ds[0] {
          assert d in ds[1..];
        }
      }
    }
  }

  /** Everything in the flattened list is a top-level descriptor or a nested child of one listed. */
  lemma {:induction false} FlatOnlyTree(ds: seq<Descriptor>)
    ensures forall x :: x in Flat(ds) ==> x in ds || exists d :: d in Flat(ds) && x in d.nestedChildren
    decreases ds
  {
    if ds != [] {
      var kids := ds[0].nestedChildren;
      FlatOnlyTree(kids);
      FlatOnlyTree(ds[1..]);
      forall x | x in Flat(ds) ensures x in ds || exists d :: d in Flat(ds) && x in d.nestedChildren {
        if x in Flat(kids) {
          if x in kids {
            assert ds[0] in Flat(ds) && x in ds[0].nestedChildren;
          } else {
            var d :| d in Flat(kids) && x in d.nestedChildren;
            assert d in Flat(ds);
          }
        } else if x in Flat(ds[1..]) {
          if x in ds[1..] {
            assert x in ds;
          } else {
            var d :| d in Flat(ds[1..]) && x in d.nestedChildren;
            assert d in Flat(ds);
          }
        }
      }
    }
  }
}
