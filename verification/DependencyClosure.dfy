/** Observations inherit the ranges of the fields they were compared with. The
    closure is computed by a depth-first walk and written back in place. */
module DependencyClosure {
  import opened Common
  import opened TestedExtent

  /** The field of each observation and the fields it names as prerequisites. */
  datatype Graph = Graph(field: seq<nat>, prerequisites: seq<seq<nat>>) {
    predicate Valid() {
      |field| == |prerequisites|
    }

    function Fields(): set<nat> {
      set f | f in field
    }
  }

  predicate Edge(g: Graph, i: nat, j: nat)
    requires g.Valid()
  {
    i < |g.field| && j < |g.field| && g.field[j] in g.prerequisites[i]
  }

  /** The observations of one field, in order. */
  function Named(g: Graph, name: nat, n: nat): (js: seq<nat>)
    requires n <= |g.field|
    ensures forall j: nat :: j in js <==> j < n && g.field[j] == name
  {
    if n == 0 then [] else Named(g, name, n - 1) + if g.field[n - 1] == name then [n - 1] else []
  }

  function NamedAll(g: Graph, names: seq<nat>): (js: seq<nat>)
    ensures forall j: nat :: j in js <==> j < |g.field| && g.field[j] in names
    ensures forall k :: 0 <= k < |js| ==> js[k] < |g.field|
  {
    if names == [] then []
    else
      var first := Named(g, names[0], |g.field|);
      assert forall k :: 0 <= k < |first| ==> first[k] in first;
      first + NamedAll(g, names[1..])
  }

  /** The walk from one observation: its own ranges, then those of its
      prerequisites, entering no field that is already on the way. It ends on
      every graph, since the fields left to enter become fewer. */
  function Gather(g: Graph, deps: seq<seq<Run>>, i: nat, seen: set<nat>): seq<Run>
    requires g.Valid() && |deps| == |g.field| && i < |deps|
    decreases |g.Fields() - seen|, 0, 0
  {
    if g.field[i] in seen then []
    else
      assert g.Fields() - (seen + {g.field[i]}) < g.Fields() - seen by {
        assert g.field[i] in g.Fields() - seen;
      }
      Smaller(g.Fields() - (seen + {g.field[i]}), g.Fields() - seen);
      deps[i] + GatherAll(g, deps, NamedAll(g, g.prerequisites[i]), seen + {g.field[i]})
  }

  function GatherAll(g: Graph, deps: seq<seq<Run>>, js: seq<nat>, seen: set<nat>): seq<Run>
    requires g.Valid() && |deps| == |g.field| && forall k :: 0 <= k < |js| ==> js[k] < |deps|
    decreases |g.Fields() - seen|, 1, |js|
  {
    if js == [] then [] else Gather(g, deps, js[0], seen) + GatherAll(g, deps, js[1..], seen)
  }

  lemma {:induction false} Smaller(a: set<nat>, b: set<nat>)
    requires a < b
    ensures |a| < |b|
  {
    var x :| x in b && x !in a;
    assert a <= b - {x};
    SubsetSize(a, b - {x});
  }

  lemma {:induction false} SubsetSize(a: set<nat>, b: set<nat>)
    requires a <= b
    ensures |a| <= |b|
  {
    if a != {} {
      var x :| x in a;
      SubsetSize(a - {x}, b - {x});
    }
  }

  /** A way through the graph, one edge after another. */
  ghost predicate Path(g: Graph, p: seq<nat>) {
    && g.Valid() && |p| > 0 && (forall k :: 0 <= k < |p| ==> p[k] < |g.field|)
    && forall k :: 0 < k < |p| ==> Edge(g, p[k - 1], p[k])
  }

  ghost predicate PathTo(g: Graph, p: seq<nat>, i: nat, j: nat) {
    Path(g, p) && p[0] == i && p[|p| - 1] == j
  }

  ghost predicate Reaches(g: Graph, i: nat, j: nat) {
    exists p: seq<nat> :: PathTo(g, p, i, j)
  }

  /** The path enters no field twice and none of `seen`. */
  ghost predicate Simple(g: Graph, p: seq<nat>, seen: set<nat>)
    requires Path(g, p)
  {
    && (forall k :: 0 <= k < |p| ==> g.field[p[k]] !in seen)
    && (forall a, b :: 0 <= a < b < |p| ==> g.field[p[a]] != g.field[p[b]])
  }

  ghost predicate SimplyReaches(g: Graph, i: nat, j: nat, seen: set<nat>) {
    exists p: seq<nat> :: PathTo(g, p, i, j) && Simple(g, p, seen)
  }

  lemma Step(g: Graph, i: nat, p: seq<nat>, seen: set<nat>)
    requires g.Valid() && i < |g.field| && Path(g, p) && Edge(g, i, p[0]) && g.field[i] !in seen
    requires Simple(g, p, seen + {g.field[i]})
    ensures SimplyReaches(g, i, p[|p| - 1], seen)
  {
    var q := [i] + p;
    assert forall k :: 0 < k < |q| ==> q[k] == p[k - 1];
    assert PathTo(g, q, i, p[|p| - 1]) && Simple(g, q, seen);
  }

  lemma Tail(g: Graph, p: seq<nat>, seen: set<nat>)
    requires Path(g, p) && |p| > 1 && Simple(g, p, seen)
    ensures Path(g, p[1..]) && Simple(g, p[1..], seen + {g.field[p[0]]}) && Edge(g, p[0], p[1])
    ensures p[1..][|p[1..]| - 1] == p[|p| - 1]
  {
    var q := p[1..];
    assert forall k :: 0 <= k < |q| ==> q[k] == p[k + 1];
    assert Edge(g, p[0], p[1]);
    forall k | 0 < k < |q|
      ensures Edge(g, q[k - 1], q[k])
    {
      assert Edge(g, p[k], p[k + 1]);
    }
  }

  /** The walk collects exactly what lies on simple ways from its start. */
  lemma {:induction false} GatherIs(g: Graph, deps: seq<seq<Run>>, i: nat, seen: set<nat>, e: Run)
    requires g.Valid() && |deps| == |g.field| && i < |deps|
    ensures e in Gather(g, deps, i, seen) <==>
              exists j :: 0 <= j < |deps| && e in deps[j] && SimplyReaches(g, i, j, seen)
    decreases |g.Fields() - seen|, 0, 0
  {
    if g.field[i] in seen {
    } else {
      var next := seen + {g.field[i]};
      assert g.field[i] in g.Fields() - seen;
      Smaller(g.Fields() - next, g.Fields() - seen);
      var js := NamedAll(g, g.prerequisites[i]);
      GatherAllIs(g, deps, js, next, e);
      if e in Gather(g, deps, i, seen) {
        if e in deps[i] {
          assert PathTo(g, [i], i, i) && Simple(g, [i], seen);
        } else {
          var m, j :| m in js && 0 <= j < |deps| && e in deps[j] && SimplyReaches(g, m, j, next);
          var p: seq<nat> :| PathTo(g, p, m, j) && Simple(g, p, next);
          Step(g, i, p, seen);
        }
      }
      if j :| 0 <= j < |deps| && e in deps[j] && SimplyReaches(g, i, j, seen) {
        var p: seq<nat> :| PathTo(g, p, i, j) && Simple(g, p, seen);
        if |p| > 1 {
          Tail(g, p, seen);
          assert p[1] in js && PathTo(g, p[1..], p[1], j);
          assert SimplyReaches(g, p[1], j, next);
        }
      }
    }
  }

  lemma {:induction false} GatherAllIs(g: Graph, deps: seq<seq<Run>>, js: seq<nat>, seen: set<nat>, e: Run)
    requires g.Valid() && |deps| == |g.field| && forall k :: 0 <= k < |js| ==> js[k] < |deps|
    ensures e in GatherAll(g, deps, js, seen) <==>
              exists m, j :: m in js && 0 <= j < |deps| && e in deps[j] && SimplyReaches(g, m, j, seen)
    decreases |g.Fields() - seen|, 1, |js|
  {
    hide SimplyReaches, Gather;
    if js != [] {
      GatherIs(g, deps, js[0], seen, e);
      GatherAllIs(g, deps, js[1..], seen, e);
      assert forall m :: m in js <==> m == js[0] || m in js[1..];
    }
  }

  /** No other observation of the start's own field can be reached from it: true
      of every acyclic graph, and wherever the field has one observation only. */
  ghost predicate Exact(g: Graph, i: nat) {
    g.Valid() && i < |g.field| && forall j: nat :: j < |g.field| && Reaches(g, i, j) && g.field[j] == g.field[i] ==>
      j == i
  }

  /** Leaves out the way between two visits to one field. */
  lemma Cut(g: Graph, p: seq<nat>, a: nat, b: nat)
    requires Path(g, p) && 0 < a < b < |p| && g.field[p[a]] == g.field[p[b]]
    ensures Path(g, p[..a] + p[b..])
  {
    var q := p[..a] + p[b..];
    forall k | 0 < k < |q|
      ensures Edge(g, q[k - 1], q[k])
    {
      if k < a {
        assert Edge(g, p[k - 1], p[k]);
      } else if k == a {
        assert Edge(g, p[a - 1], p[a]);
      } else {
        assert Edge(g, p[k - a + b - 1], p[k - a + b]);
      }
    }
  }

  lemma Prefix(g: Graph, p: seq<nat>, k: nat)
    requires Path(g, p) && k < |p|
    ensures Path(g, p[..k + 1]) && Path(g, p[k..]) && Reaches(g, p[0], p[k])
  {
    var q, r := p[..k + 1], p[k..];
    forall m | 0 < m < |q|
      ensures Edge(g, q[m - 1], q[m])
    {
      assert Edge(g, p[m - 1], p[m]);
    }
    assert PathTo(g, q, p[0], p[k]);
    forall m | 0 < m < |r|
      ensures Edge(g, r[m - 1], r[m])
    {
      assert Edge(g, p[m + k - 1], p[m + k]);
    }
  }

  /** Where the start is exact, whatever can be reached can be reached simply. */
  lemma {:induction false} Simplify(g: Graph, p: seq<nat>)
    requires Path(g, p) && Exact(g, p[0])
    ensures SimplyReaches(g, p[0], p[|p| - 1], {})
    decreases |p|
  {
    if a, b :| 0 <= a < b < |p| && g.field[p[a]] == g.field[p[b]] {
      if a == 0 {
        Prefix(g, p, b);
        assert p[b] == p[0];
        Simplify(g, p[b..]);
      } else {
        Cut(g, p, a, b);
        Simplify(g, p[..a] + p[b..]);
      }
    } else {
      assert PathTo(g, p, p[0], p[|p| - 1]) && Simple(g, p, {});
    }
  }

  lemma Joined(g: Graph, i: nat, j: nat, m: nat)
    requires Reaches(g, i, j) && Reaches(g, j, m)
    ensures Reaches(g, i, m)
  {
    var p: seq<nat> :| PathTo(g, p, i, j);
    var q: seq<nat> :| PathTo(g, q, j, m);
    var r := p + q[1..];
    forall k | 0 < k < |r|
      ensures Edge(g, r[k - 1], r[k])
    {
      if k < |p| {
        assert Edge(g, p[k - 1], p[k]);
      } else {
        assert Edge(g, q[k - |p|], q[k - |p| + 1]);
      }
    }
    assert PathTo(g, r, i, m);
  }

  lemma Stays(g: Graph, i: nat)
    requires g.Valid() && i < |g.field|
    ensures Reaches(g, i, i)
  {
    assert PathTo(g, [i], i, i);
  }

  /** `e` is a range of some observation that `i` reaches. */
  ghost predicate InClosure(g: Graph, deps: seq<seq<Run>>, i: nat, e: Run) {
    exists j: nat :: j < |deps| && e in deps[j] && Reaches(g, i, j)
  }

  lemma SimplyElsewhere(g: Graph, i: nat, j: nat)
    requires g.Valid() && i < |g.field| && j < |g.field| && i != j && g.field[i] == g.field[j]
    ensures !SimplyReaches(g, i, j, {})
  {
  }

  /** The one-off walk yields the union over everything reachable, for all ranges
      the observations may have, exactly from an exact start. */
  lemma ExactIff(g: Graph, i: nat)
    requires g.Valid() && i < |g.field|
    ensures Exact(g, i) <==>
              forall deps: seq<seq<Run>>, e: Run :: |deps| == |g.field| ==>
                (e in Gather(g, deps, i, {}) <==> InClosure(g, deps, i, e))
  {
    if Exact(g, i) {
      forall deps: seq<seq<Run>>, e: Run | |deps| == |g.field|
        ensures e in Gather(g, deps, i, {}) <==> InClosure(g, deps, i, e)
      {
        GatherExact(g, deps, i, e);
      }
    } else {
      var j: nat :| j < |g.field| && Reaches(g, i, j) && g.field[j] == g.field[i] && j != i;
      var e := Run(0, 1);
      var deps := seq(|g.field|, k => if k == j then [e] else []);
      assert e in deps[j] && InClosure(g, deps, i, e);
      GatherIs(g, deps, i, {}, e);
      SimplyElsewhere(g, i, j);
    }
  }

  lemma GatherExact(g: Graph, deps: seq<seq<Run>>, i: nat, e: Run)
    requires Exact(g, i) && |deps| == |g.field|
    ensures e in Gather(g, deps, i, {}) <==> InClosure(g, deps, i, e)
  {
    GatherIs(g, deps, i, {}, e);
    if InClosure(g, deps, i, e) {
      var j: nat :| j < |deps| && e in deps[j] && Reaches(g, i, j);
      var p: seq<nat> :| PathTo(g, p, i, j);
      Simplify(g, p);
    }
  }

  /** What writing the results back one by one keeps: nothing is lost, and nothing
      comes in that was not reachable to begin with. */
  ghost predicate Between(g: Graph, before: seq<seq<Run>>, now: seq<seq<Run>>) {
    && g.Valid() && |before| == |now| == |g.field|
    && forall i: nat, e: Run :: i < |now| ==>
         (e in before[i] ==> e in now[i]) && (e in now[i] ==> InClosure(g, before, i, e))
  }

  /** Walking over partly rewritten ranges gives the same as over the first ones. */
  lemma GatherBetween(g: Graph, before: seq<seq<Run>>, now: seq<seq<Run>>, i: nat, e: Run)
    requires Between(g, before, now) && i < |now|
    ensures e in Gather(g, now, i, {}) ==> InClosure(g, before, i, e)
    ensures e in before[i] ==> e in Gather(g, now, i, {})
    ensures Exact(g, i) ==> (e in Gather(g, now, i, {}) <==> InClosure(g, before, i, e))
  {
    GatherIs(g, now, i, {}, e);
    if e in Gather(g, now, i, {}) {
      var j: nat :| j < |now| && e in now[j] && SimplyReaches(g, i, j, {});
      assert Reaches(g, i, j) by {
        var p: seq<nat> :| PathTo(g, p, i, j) && Simple(g, p, {});
      }
      var m: nat :| m < |before| && e in before[m] && Reaches(g, j, m);
      Joined(g, i, j, m);
    }
    if Exact(g, i) && InClosure(g, before, i, e) {
      var j: nat :| j < |before| && e in before[j] && Reaches(g, i, j);
      assert e in now[j] && InClosure(g, now, i, e);
      GatherExact(g, now, i, e);
    }
  }

  /** Keeps the first of equal ranges. */
  method Deduplicate(ranges: seq<Run>) returns (unique: seq<Run>)
    ensures forall e :: e in unique <==> e in ranges
    ensures forall a, b :: 0 <= a < b < |unique| ==> unique[a] != unique[b]
  {
    unique := [];
    var k := 0;
    while k < |ranges|
      invariant 0 <= k <= |ranges|
      invariant forall e :: e in unique <==> e in ranges[..k]
      invariant forall a, b :: 0 <= a < b < |unique| ==> unique[a] != unique[b]
    {
      if ranges[k] !in unique {
        unique := unique + [ranges[k]];
      }
      k := k + 1;
    }
    assert ranges[..k] == ranges;
  }

  /** Rewrites every observation's ranges in place, in the given order. In any
      order, an exact observation ends with the union over everything it reaches,
      and every other one with at least its own ranges and at most that union. */
  method CloseInPlace(g: Graph, deps: array<seq<Run>>, order: seq<nat>)
    requires g.Valid() && deps.Length == |g.field|
    requires forall k :: 0 <= k < |order| ==> order[k] < deps.Length
    modifies deps
    ensures Between(g, old(deps[..]), deps[..])
    ensures forall i: nat :: i in order && Exact(g, i) && g.prerequisites[i] != [] ==>
              forall e: Run :: e in deps[i] <==> InClosure(g, old(deps[..]), i, e)
    ensures forall i: nat :: i < deps.Length && (i !in order || g.prerequisites[i] == []) ==> deps[i] == old(deps[i])
  {
    ghost var before := deps[..];
    Reflexive(g, before);
    hide Exact, InClosure, Between, Gather;
    var k := 0;
    while k < |order|
      invariant 0 <= k <= |order| && Between(g, before, deps[..])
      invariant forall i: nat :: i in order[..k] && Exact(g, i) && g.prerequisites[i] != [] ==>
                  Full(g, before, deps[..], i)
      invariant forall i: nat :: i < deps.Length && (i !in order[..k] || g.prerequisites[i] == []) ==>
                  deps[i] == before[i]
    {
      if g.prerequisites[order[k]] != [] {
        RewriteOne(g, deps, order[k], before);
      }
      k := k + 1;
    }
    assert order[..k] == order;
  }

  method RewriteOne(g: Graph, deps: array<seq<Run>>, i: nat, ghost before: seq<seq<Run>>)
    requires Between(g, before, deps[..]) && i < deps.Length
    modifies deps
    ensures Between(g, before, deps[..])
    ensures Exact(g, i) ==> Full(g, before, deps[..], i)
    ensures forall m: nat :: m < deps.Length && m != i ==> deps[m] == old(deps[m])
    ensures forall m: nat :: m != i && Full(g, before, old(deps[..]), m) ==> Full(g, before, deps[..], m)
  {
    hide Exact, InClosure, Gather, Full;
    ghost var now := deps[..];
    var unique := Deduplicate(Gather(g, deps[..], i, {}));
    Rewritten(g, before, now, i, unique);
    deps[i] := unique;
    assert deps[..] == now[i := unique];
  }

  ghost predicate Full(g: Graph, before: seq<seq<Run>>, now: seq<seq<Run>>, i: nat) {
    i < |now| && forall e: Run :: e in now[i] <==> InClosure(g, before, i, e)
  }

  lemma Reflexive(g: Graph, deps: seq<seq<Run>>)
    requires g.Valid() && |deps| == |g.field|
    ensures Between(g, deps, deps)
  {
    forall i: nat | i < |deps|
      ensures Reaches(g, i, i)
    {
      Stays(g, i);
    }
  }

  lemma Rewritten(g: Graph, before: seq<seq<Run>>, now: seq<seq<Run>>, i: nat, unique: seq<Run>)
    requires Between(g, before, now) && i < |now|
    requires forall e :: e in unique <==> e in Gather(g, now, i, {})
    ensures Between(g, before, now[i := unique])
    ensures Exact(g, i) ==> Full(g, before, now[i := unique], i)
    ensures forall m: nat :: m != i && Full(g, before, now, m) ==> Full(g, before, now[i := unique], m)
  {
    forall e: Run
      ensures e in unique ==> InClosure(g, before, i, e)
      ensures e in before[i] ==> e in unique
      ensures Exact(g, i) ==> (e in unique <==> InClosure(g, before, i, e))
    {
      GatherBetween(g, before, now, i, e);
    }
    hide InClosure, Exact, Gather;
  }

  /** On an acyclic graph every observation is exact. */
  lemma AcyclicExact(g: Graph, rank: nat -> nat, i: nat)
    requires g.Valid() && i < |g.field|
    requires forall a: nat, b: nat :: Edge(g, a, b) ==> rank(g.field[b]) < rank(g.field[a])
    ensures Exact(g, i)
  {
    forall j: nat | j < |g.field| && Reaches(g, i, j) && g.field[j] == g.field[i]
      ensures j == i
    {
      var p: seq<nat> :| PathTo(g, p, i, j);
      RankFalls(g, rank, p);
    }
  }

  lemma {:induction false} RankFalls(g: Graph, rank: nat -> nat, p: seq<nat>)
    requires Path(g, p)
    requires forall a: nat, b: nat :: Edge(g, a, b) ==> rank(g.field[b]) < rank(g.field[a])
    ensures |p| > 1 ==> rank(g.field[p[|p| - 1]]) < rank(g.field[p[0]])
  {
    if |p| > 1 {
      assert Edge(g, p[|p| - 2], p[|p| - 1]);
      var q := p[..|p| - 1];
      assert forall k :: 0 < k < |q| ==> Edge(g, q[k - 1], q[k]) by {
        forall k | 0 < k < |q|
          ensures Edge(g, q[k - 1], q[k])
        {
          assert Edge(g, p[k - 1], p[k]);
        }
      }
      RankFalls(g, rank, q);
    }
  }

  /** Two observations of one field on a cycle: taken first, observation 0 misses
      what observation 2 has; taken after observation 1, it does not. */
  lemma OrderMatters(e: Run) returns (g: Graph, deps: seq<seq<Run>>)
    ensures g.Valid() && |deps| == |g.field| == 3 && InClosure(g, deps, 0, e)
    ensures e !in Gather(g, deps, 0, {})
    ensures e in Gather(g, deps, 1, {})
    ensures e in Gather(g, deps[1 := Gather(g, deps, 1, {})], 0, {})
  {
    g := Graph([7, 8, 7], [[8], [7], []]);
    deps := [[], [], [e]];
    CycleReaches(g);
    hide Reaches, SimplyReaches, Gather;
    assert e in deps[2] && e !in deps[0] && e !in deps[1];
    OnlyFrom(g, deps, 0, 2, e);
    OnlyFrom(g, deps, 1, 2, e);
    GatherIs(g, deps[1 := Gather(g, deps, 1, {})], 0, {}, e);
  }

  lemma OnlyFrom(g: Graph, deps: seq<seq<Run>>, i: nat, j: nat, e: Run)
    requires g.Valid() && |deps| == |g.field| && i < |deps| && j < |deps| && e in deps[j]
    requires forall m :: 0 <= m < |deps| && e in deps[m] ==> m == j
    ensures e in Gather(g, deps, i, {}) <==> SimplyReaches(g, i, j, {})
  {
    GatherIs(g, deps, i, {}, e);
  }

  lemma CycleReaches(g: Graph)
    requires g == Graph([7, 8, 7], [[8], [7], []])
    ensures SimplyReaches(g, 0, 1, {}) && SimplyReaches(g, 1, 2, {}) && !SimplyReaches(g, 0, 2, {}) && Reaches(g, 0, 2)
  {
    OneEdge(g, 0, 1);
    OneEdge(g, 1, 2);
    hide Reaches, SimplyReaches;
    Joined(g, 0, 1, 2);
    SimplyElsewhere(g, 0, 2);
  }

  lemma OneEdge(g: Graph, i: nat, j: nat)
    requires g.Valid() && Edge(g, i, j) && g.field[i] != g.field[j]
    ensures SimplyReaches(g, i, j, {}) && Reaches(g, i, j)
  {
    assert PathTo(g, [i, j], i, j) && Simple(g, [i, j], {});
  }

  datatype CheckKind = FilesystemStructure | TitleEnumeration | DvdNavigation

  /** The phases whose evidence a check rests on: its own and the earlier ones. */
  function EvidencePhases(check: CheckKind): set<CheckKind> {
    match check
    case FilesystemStructure => {FilesystemStructure}
    case TitleEnumeration => {FilesystemStructure, TitleEnumeration}
    case DvdNavigation => {FilesystemStructure, TitleEnumeration, DvdNavigation}
  }

  /** The ranges of the observations made in these phases. */
  function RelevantRanges(deps: seq<seq<Run>>, kinds: seq<Option<CheckKind>>, phases: set<CheckKind>): seq<Run>
    requires |deps| == |kinds|
  {
    if deps == [] then []
    else
      var n := |deps| - 1;
      RelevantRanges(deps[..n], kinds[..n], phases)
      + if kinds[n].Some? && kinds[n].value in phases then deps[n] else []
  }

  lemma {:induction false} MorePhases(deps: seq<seq<Run>>, kinds: seq<Option<CheckKind>>, few: set<CheckKind>,
                                      many: set<CheckKind>, r: Run)
    requires |deps| == |kinds| && few <= many && r in RelevantRanges(deps, kinds, few)
    ensures r in RelevantRanges(deps, kinds, many)
  {
    var n := |deps| - 1;
    if r in RelevantRanges(deps[..n], kinds[..n], few) {
      MorePhases(deps[..n], kinds[..n], few, many, r);
    }
  }

  /** What a check has tested: the distinct sectors behind the evidence of its
      phases. */
  method TestedExtentOf(deps: seq<seq<Run>>, kinds: seq<Option<CheckKind>>, check: CheckKind)
    returns (e: Option<Extent>)
    requires |deps| == |kinds|
    ensures e.Some? ==> e.value.observed == |Covered(RelevantRanges(deps, kinds, EvidencePhases(check)))|
    ensures e.None? <==> RelevantRanges(deps, kinds, EvidencePhases(check)) == []
    ensures e.Some? ==> Spans(e.value, RelevantRanges(deps, kinds, EvidencePhases(check)))
  {
    e := MeasureExtent(RelevantRanges(deps, kinds, EvidencePhases(check)));
  }

  /** The range lies behind some observation of these phases. */
  ghost predicate Behind(g: Graph, deps: seq<seq<Run>>, kinds: seq<Option<CheckKind>>, phases: set<CheckKind>, r: Run)
    requires g.Valid() && |deps| == |kinds| == |g.field|
  {
    exists i: nat :: i < |kinds| && kinds[i].Some? && kinds[i].value in phases && InClosure(g, deps, i, r)
  }

  lemma {:induction false} RelevantIs(deps: seq<seq<Run>>, kinds: seq<Option<CheckKind>>, phases: set<CheckKind>,
                                      r: Run)
    requires |deps| == |kinds|
    ensures r in RelevantRanges(deps, kinds, phases) <==>
              exists i: nat :: i < |deps| && kinds[i].Some? && kinds[i].value in phases && r in deps[i]
  {
    if deps != [] {
      var n := |deps| - 1;
      RelevantIs(deps[..n], kinds[..n], phases, r);
      if i: nat :| i < n && kinds[i].Some? && kinds[i].value in phases && r in deps[i] {
        assert r in deps[..n][i];
      }
    }
  }

  /** Without prerequisites the closure is what the observation has itself. */
  lemma ClosureAlone(g: Graph, deps: seq<seq<Run>>, i: nat, e: Run)
    requires g.Valid() && |deps| == |g.field| && i < |deps| && g.prerequisites[i] == []
    ensures InClosure(g, deps, i, e) <==> e in deps[i]
  {
    Stays(g, i);
    forall j: nat | j < |deps| && Reaches(g, i, j)
      ensures j == i
    {
      var p: seq<nat> :| PathTo(g, p, i, j);
      assert |p| > 1 ==> Edge(g, p[0], p[1]);
    }
  }

  /** `e` is the extent of everything behind the check, and `sectors` are its sectors. */
  ghost predicate Reported(g: Graph, deps: seq<seq<Run>>, kinds: seq<Option<CheckKind>>, phases: set<CheckKind>,
                           e: Option<Extent>, sectors: set<nat>)
    requires g.Valid() && |deps| == |kinds| == |g.field|
  {
    && (e.None? <==> forall r :: !Behind(g, deps, kinds, phases, r))
    && (forall k: nat :: k in sectors <==> exists r :: Behind(g, deps, kinds, phases, r) && r.start <= k < r.End())
    && (e.Some? ==>
          && e.value.observed == |sectors|
          && (forall r :: Behind(g, deps, kinds, phases, r) ==> e.value.startLba <= r.start && r.End() <= e.value.end)
          && (exists r :: Behind(g, deps, kinds, phases, r) && r.start == e.value.startLba)
          && (exists r :: Behind(g, deps, kinds, phases, r) && r.End() == e.value.end))
  }

  /** Closing the ranges and then measuring a check reports the union of everything its
      observations rest on: the distinct sectors, the first and the end of the last. */
  method MeasureCheck(g: Graph, deps: array<seq<Run>>, order: seq<nat>, kinds: seq<Option<CheckKind>>,
                      check: CheckKind)
    returns (e: Option<Extent>, ghost sectors: set<nat>)
    requires g.Valid() && deps.Length == |g.field| == |kinds|
    requires forall k :: 0 <= k < |order| ==> order[k] < deps.Length
    requires forall i: nat :: i < |g.field| ==> i in order
    modifies deps
    ensures (forall i: nat :: i < |g.field| ==> Exact(g, i)) ==>
              Reported(g, old(deps[..]), kinds, EvidencePhases(check), e, sectors)
  {
    ghost var before := deps[..];
    CloseInPlace(g, deps, order);
    hide Exact, InClosure, Between, Reported, Behind, Spans;
    e := TestedExtentOf(deps[..], kinds, check);
    sectors := Covered(RelevantRanges(deps[..], kinds, EvidencePhases(check)));
    if forall i: nat :: i < |g.field| ==> Exact(g, i) {
      ClosedFull(g, before, deps[..], order);
      ReportedIs(g, before, deps[..], kinds, EvidencePhases(check), e);
    }
  }

  lemma ClosedFull(g: Graph, before: seq<seq<Run>>, after: seq<seq<Run>>, order: seq<nat>)
    requires g.Valid() && |before| == |after| == |g.field|
    requires forall i: nat :: i < |g.field| ==> i in order && Exact(g, i)
    requires forall i: nat :: i in order && Exact(g, i) && g.prerequisites[i] != [] ==>
               forall e: Run :: e in after[i] <==> InClosure(g, before, i, e)
    requires forall k :: 0 <= k < |order| ==> order[k] < |g.field|
    ensures forall i: nat :: i < |g.field| && g.prerequisites[i] != [] ==> Full(g, before, after, i)
  {
    hide Exact, InClosure;
  }

  lemma ReportedIs(g: Graph, before: seq<seq<Run>>, after: seq<seq<Run>>, kinds: seq<Option<CheckKind>>,
                   phases: set<CheckKind>, e: Option<Extent>)
    requires g.Valid() && |before| == |after| == |kinds| == |g.field|
    requires forall i: nat :: i < |g.field| && g.prerequisites[i] != [] ==> Full(g, before, after, i)
    requires forall i: nat :: i < |g.field| && g.prerequisites[i] == [] ==> after[i] == before[i]
    requires e.None? <==> RelevantRanges(after, kinds, phases) == []
    requires e.Some? ==>
               && e.value.observed == |Covered(RelevantRanges(after, kinds, phases))|
               && Spans(e.value, RelevantRanges(after, kinds, phases))
    ensures Reported(g, before, kinds, phases, e, Covered(RelevantRanges(after, kinds, phases)))
  {
    hide Behind, RelevantRanges, Full, Covered, Spans, InClosure;
    var ranges := RelevantRanges(after, kinds, phases);
    forall r
      ensures r in ranges <==> Behind(g, before, kinds, phases, r)
    {
      RelevantBehind(g, before, after, kinds, phases, r);
    }
    SectorsBehind(g, before, kinds, phases, ranges);
    ExtentBehind(g, before, kinds, phases, ranges, e);
  }

  lemma SectorsBehind(g: Graph, deps: seq<seq<Run>>, kinds: seq<Option<CheckKind>>, phases: set<CheckKind>,
                      ranges: seq<Run>)
    requires g.Valid() && |deps| == |kinds| == |g.field|
    requires forall r :: r in ranges <==> Behind(g, deps, kinds, phases, r)
    ensures forall k: nat ::
              k in Covered(ranges) <==> exists r :: Behind(g, deps, kinds, phases, r) && r.start <= k < r.End()
  {
    hide Behind, Covered;
    forall k: nat
      ensures k in Covered(ranges) <==> exists r :: Behind(g, deps, kinds, phases, r) && r.start <= k < r.End()
    {
      CoveredIs(ranges, k);
    }
  }

  lemma ExtentBehind(g: Graph, deps: seq<seq<Run>>, kinds: seq<Option<CheckKind>>, phases: set<CheckKind>,
                     ranges: seq<Run>, e: Option<Extent>)
    requires g.Valid() && |deps| == |kinds| == |g.field|
    requires forall r :: r in ranges <==> Behind(g, deps, kinds, phases, r)
    requires (e.None? <==> ranges == []) && (e.Some? ==> Spans(e.value, ranges))
    ensures e.None? <==> forall r :: !Behind(g, deps, kinds, phases, r)
    ensures e.Some? ==>
              && (forall r :: Behind(g, deps, kinds, phases, r) ==>
                    e.value.startLba <= r.start && r.End() <= e.value.end)
              && (exists r :: Behind(g, deps, kinds, phases, r) && r.start == e.value.startLba)
              && (exists r :: Behind(g, deps, kinds, phases, r) && r.End() == e.value.end)
  {
    hide Behind;
    assert ranges != [] ==> ranges[0] in ranges;
  }

  /** After the closure of exact observations the relevant ranges are those behind the check. */
  lemma RelevantBehind(g: Graph, before: seq<seq<Run>>, after: seq<seq<Run>>, kinds: seq<Option<CheckKind>>,
                       phases: set<CheckKind>, r: Run)
    requires g.Valid() && |before| == |after| == |kinds| == |g.field|
    requires forall i: nat :: i < |g.field| && g.prerequisites[i] != [] ==> Full(g, before, after, i)
    requires forall i: nat :: i < |g.field| && g.prerequisites[i] == [] ==> after[i] == before[i]
    ensures r in RelevantRanges(after, kinds, phases) <==> Behind(g, before, kinds, phases, r)
  {
    RelevantIs(after, kinds, phases, r);
    forall i: nat | i < |kinds|
      ensures r in after[i] <==> InClosure(g, before, i, r)
    {
      if g.prerequisites[i] == [] {
        ClosureAlone(g, before, i, r);
      } else {
        assert Full(g, before, after, i);
      }
    }
    hide InClosure;
  }

  /** A check of later phases has tested whatever an earlier one has. */
  lemma LaterChecksCoverMore(deps: seq<seq<Run>>, kinds: seq<Option<CheckKind>>, few: set<CheckKind>,
                             many: set<CheckKind>)
    requires |deps| == |kinds| && few <= many
    ensures Covered(RelevantRanges(deps, kinds, few)) <= Covered(RelevantRanges(deps, kinds, many))
  {
    forall k | k in Covered(RelevantRanges(deps, kinds, few))
      ensures k in Covered(RelevantRanges(deps, kinds, many))
    {
      CoveredIs(RelevantRanges(deps, kinds, few), k);
      CoveredIs(RelevantRanges(deps, kinds, many), k);
      var r :| r in RelevantRanges(deps, kinds, few) && r.start <= k < r.End();
      MorePhases(deps, kinds, few, many, r);
    }
  }
}
