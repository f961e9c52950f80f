/** Dependency graphs: paths, cycles, closures and topological orders. */
module Graph {

  type Name = string

  /** A pack as its dependents see it: its version, and what it requires of each dependency. */
  datatype Node = Node(version: string, deps: map<Name, string>)

  type Graph = map<Name, Node>

  /** Whether a version meets a requirement: equality for pinned versions, `semver.satisfies` for ranges. */
  type Check = (string, string) -> bool

  ghost predicate Edge(g: Graph, a: Name, b: Name) { a in g && b in g[a].deps }

  ghost predicate IsPath(g: Graph, p: seq<Name>) {
    |p| > 0 && forall i | 0 <= i < |p| - 1 :: Edge(g, p[i], p[i + 1])
  }

  ghost predicate Reaches(g: Graph, a: Name, b: Name) {
    exists p :: IsPath(g, p) && p[0] == a && p[|p| - 1] == b
  }

  ghost predicate ReachedFrom(g: Graph, roots: set<Name>, n: Name) {
    exists r :: r in roots && Reaches(g, r, n)
  }

  ghost predicate OnCycle(g: Graph, n: Name) {
    exists p :: IsPath(g, p) && |p| > 1 && p[0] == n && p[|p| - 1] == n
  }

  ghost predicate EdgeMet(g: Graph, check: Check, a: Name, b: Name)
    requires Edge(g, a, b)
  {
    b in g && check(g[b].version, g[a].deps[b])
  }

  /** The dependency closure of `root`. */
  ghost function Closure(g: Graph, root: Name): (c: set<Name>)
    ensures forall n :: n in c <==> n in g && Reaches(g, root, n)
  {
    set n | n in g && Reaches(g, root, n)
  }

  lemma ReachesSelf(g: Graph, a: Name)
    ensures Reaches(g, a, a)
  {
    assert IsPath(g, [a]);
  }

  lemma ReachesEdge(g: Graph, a: Name, b: Name, c: Name)
    requires Reaches(g, a, b) && Edge(g, b, c)
    ensures Reaches(g, a, c)
  {
    var p :| IsPath(g, p) && p[0] == a && p[|p| - 1] == b;
    assert IsPath(g, p + [c]);
  }

  lemma PathSlice(g: Graph, p: seq<Name>, i: nat, j: nat)
    requires IsPath(g, p) && i < j <= |p|
    ensures IsPath(g, p[i..j]) && Reaches(g, p[i], p[j - 1])
  {
    var q := p[i..j];
    forall k | 0 <= k < |q| - 1 ensures Edge(g, q[k], q[k + 1]) {
      assert Edge(g, p[i + k], p[i + k + 1]);
    }
  }

  lemma PathJoin(g: Graph, p: seq<Name>, q: seq<Name>)
    requires IsPath(g, p) && IsPath(g, q) && p[|p| - 1] == q[0]
    ensures IsPath(g, p + q[1..]) && (p + q[1..])[|p| + |q| - 2] == q[|q| - 1]
  {
    var r := p + q[1..];
    forall i | 0 <= i < |r| - 1 ensures Edge(g, r[i], r[i + 1]) {
      if i >= |p| - 1 { assert Edge(g, q[i - |p| + 1], q[i - |p| + 2]); }
    }
  }

  lemma ReachesTransitive(g: Graph, a: Name, b: Name, c: Name)
    requires Reaches(g, a, b) && Reaches(g, b, c)
    ensures Reaches(g, a, c)
  {
    var p :| IsPath(g, p) && p[0] == a && p[|p| - 1] == b;
    var q :| IsPath(g, q) && q[0] == b && q[|q| - 1] == c;
    PathJoin(g, p, q);
    assert IsPath(g, p + q[1..]);
  }

  /** A node reached other than by itself is reached through a last edge. */
  lemma LastEdge(g: Graph, a: Name, b: Name) returns (x: Name)
    requires Reaches(g, a, b) && a != b
    ensures Reaches(g, a, x) && Edge(g, x, b)
  {
    var p :| IsPath(g, p) && p[0] == a && p[|p| - 1] == b;
    x := p[|p| - 2];
    assert IsPath(g, p[..|p| - 1]);
  }

  lemma FirstEdge(g: Graph, a: Name, b: Name) returns (x: Name)
    requires Reaches(g, a, b) && a != b
    ensures Edge(g, a, x)
  {
    var p :| IsPath(g, p) && p[0] == a && p[|p| - 1] == b;
    x := p[1];
  }

  /** An edge whose end reaches its start closes a cycle. */
  lemma EdgeBack(g: Graph, a: Name, b: Name)
    requires Edge(g, a, b) && Reaches(g, b, a)
    ensures OnCycle(g, a)
  {
    var p :| IsPath(g, p) && p[0] == b && p[|p| - 1] == a;
    assert IsPath(g, [a] + p);
  }

  // ---- topological orders ----

  /** Every dependency of an entry stands before it. */
  ghost predicate Topological(g: Graph, order: seq<Name>) {
    && (forall i | 0 <= i < |order| :: order[i] in g)
    && (forall i, j | 0 <= i < j < |order| :: order[i] != order[j])
    && (forall i, d | 0 <= i < |order| && d in g[order[i]].deps :: d in order[..i])
  }

  lemma TopologicalAppend(g: Graph, order: seq<Name>, n: Name)
    requires Topological(g, order) && n in g && n !in order
    requires forall d | d in g[n].deps :: d in order
    ensures Topological(g, order + [n])
  {
    var o := order + [n];
    forall i, d | 0 <= i < |o| && d in g[o[i]].deps ensures d in o[..i] {
      if i < |order| { assert d in order[..i]; assert o[..i] == order[..i]; }
      else { assert o[..i] == order; }
    }
  }

  /** A path that starts in a topological order stays in it and walks it backwards. */
  lemma {:induction false} PathDescends(g: Graph, order: seq<Name>, p: seq<Name>, i: nat) returns (j: nat)
    requires Topological(g, order) && IsPath(g, p) && i < |order| && order[i] == p[0]
    ensures j <= i && order[j] == p[|p| - 1] && (|p| > 1 ==> j < i)
    decreases |p|
  {
    if |p| == 1 {
      j := i;
    } else {
      assert Edge(g, p[0], p[1]);
      assert p[1] in order[..i];
      var k :| 0 <= k < i && order[k] == p[1];
      assert IsPath(g, p[1..]) by {
        forall m | 0 <= m < |p[1..]| - 1 ensures Edge(g, p[1..][m], p[1..][m + 1]) {
          assert Edge(g, p[m + 1], p[m + 2]);
        }
      }
      j := PathDescends(g, order, p[1..], k);
    }
  }

  lemma TopologicalAcyclic(g: Graph, order: seq<Name>, n: Name)
    requires Topological(g, order) && n in order
    ensures !OnCycle(g, n)
  {
    if OnCycle(g, n) {
      var p :| IsPath(g, p) && |p| > 1 && p[0] == n && p[|p| - 1] == n;
      var i :| 0 <= i < |order| && order[i] == n;
      var j := PathDescends(g, order, p, i);
    }
  }

  lemma TopologicalClosed(g: Graph, order: seq<Name>, a: Name, b: Name)
    requires Topological(g, order) && a in order && Reaches(g, a, b)
    ensures b in order
  {
    var p :| IsPath(g, p) && p[0] == a && p[|p| - 1] == b;
    var i :| 0 <= i < |order| && order[i] == a;
    var j := PathDescends(g, order, p, i);
  }

  // ---- valid graphs ----

  ghost predicate EdgesMet(g: Graph, check: Check) {
    forall a, b {:trigger Edge(g, a, b)} | Edge(g, a, b) :: EdgeMet(g, check, a, b)
  }

  ghost predicate Acyclic(g: Graph) {
    forall n :: !OnCycle(g, n)
  }

  ghost predicate AllReached(g: Graph, roots: set<Name>) {
    forall n {:trigger ReachedFrom(g, roots, n)} | n in g :: ReachedFrom(g, roots, n)
  }

  /** What `validateDependencyGraph` is for: roots present, every requirement met, no cycle, nothing unreachable. */
  ghost predicate ValidGraph(g: Graph, roots: set<Name>, check: Check) {
    && roots <= g.Keys
    && EdgesMet(g, check)
    && Acyclic(g)
    && AllReached(g, roots)
  }

  ghost predicate HasDependent(g: Graph, n: Name) {
    exists a :: Edge(g, a, n)
  }

  ghost predicate RootsOrDependents(g: Graph, roots: set<Name>) {
    forall n {:trigger HasDependent(g, n)} | n in g && n !in roots :: HasDependent(g, n)
  }

  /** Without cycles, if every node but the roots has a dependent then walking back ends at a root. */
  lemma {:induction false} WalkBack(g: Graph, roots: set<Name>, p: seq<Name>)
    requires Acyclic(g) && RootsOrDependents(g, roots)
    requires IsPath(g, p) && forall i | 0 <= i < |p| :: p[i] in g
    ensures ReachedFrom(g, roots, p[|p| - 1])
    decreases g.Keys - set n | n in p
  {
    var first := p[0];
    if first in roots {
      assert Reaches(g, first, p[|p| - 1]);
    } else {
      assert HasDependent(g, first);
      var a :| Edge(g, a, first);
      if a in p {
        var k :| 0 <= k < |p| && p[k] == a;
        PathSlice(g, p, 0, k + 1);
        EdgeBack(g, a, first);
      }
      assert a in g.Keys - (set n | n in p);
      assert IsPath(g, [a] + p);
      WalkBack(g, roots, [a] + p);
    }
  }

  lemma RootedByDependents(g: Graph, roots: set<Name>)
    requires Acyclic(g) && RootsOrDependents(g, roots)
    ensures AllReached(g, roots)
  {
    forall n | n in g ensures ReachedFrom(g, roots, n) {
      WalkBack(g, roots, [n]);
    }
  }

  /** A node that is reached but is no root has a dependent. */
  lemma Predecessor(g: Graph, roots: set<Name>, n: Name) returns (a: Name)
    requires ReachedFrom(g, roots, n) && n !in roots
    ensures Edge(g, a, n)
  {
    var r :| r in roots && Reaches(g, r, n);
    a := LastEdge(g, r, n);
  }

  /** A path cut at its first arrival at `b`. */
  lemma {:induction false} FirstArrival(g: Graph, p: seq<Name>, b: Name) returns (q: seq<Name>)
    requires IsPath(g, p) && p[|p| - 1] == b
    ensures IsPath(g, q) && q[0] == p[0] && q[|q| - 1] == b && b !in q[..|q| - 1]
    decreases |p|
  {
    if b in p[..|p| - 1] {
      var k :| 0 <= k < |p| - 1 && p[k] == b;
      q := FirstArrival(g, p[..k + 1], b);
    } else {
      q := p;
    }
  }

  /** Reaching `b` uses no edge out of `b`, so it survives when only those edges differ. */
  lemma ReachesAside(g: Graph, g': Graph, a: Name, b: Name)
    requires forall x, y | x != b && Edge(g, x, y) :: Edge(g', x, y)
    requires Reaches(g, a, b)
    ensures Reaches(g', a, b)
  {
    var p :| IsPath(g, p) && p[0] == a && p[|p| - 1] == b;
    var q := FirstArrival(g, p, b);
    forall i | 0 <= i < |q| - 1 ensures Edge(g', q[i], q[i + 1]) {
      assert q[i] in q[..|q| - 1];
      assert Edge(g, q[i], q[i + 1]);
    }
    assert IsPath(g', q);
  }

  lemma PathAvoiding(g: Graph, g': Graph, p: seq<Name>, b: Name)
    requires forall x, y | x != b && Edge(g', x, y) :: Edge(g, x, y)
    requires IsPath(g', p) && b !in p[..|p| - 1]
    ensures IsPath(g, p)
  {
    forall i | 0 <= i < |p| - 1 ensures Edge(g, p[i], p[i + 1]) {
      assert p[i] in p[..|p| - 1];
      assert Edge(g', p[i], p[i + 1]);
    }
  }

  /** A cycle through an edge set that differs only at `b` passes `b`, or was there before. */
  lemma CycleThrough(g: Graph, g': Graph, n: Name, b: Name) returns (d: Name)
    requires forall x, y | x != b && Edge(g', x, y) :: Edge(g, x, y)
    requires OnCycle(g', n) && !OnCycle(g, n)
    ensures Edge(g', b, d) && Reaches(g', d, b)
  {
    var p :| IsPath(g', p) && |p| > 1 && p[0] == n && p[|p| - 1] == n;
    if b !in p[..|p| - 1] {
      PathAvoiding(g, g', p, b);
    }
    var k :| 0 <= k < |p| - 1 && p[k] == b;
    d := p[k + 1];
    assert Edge(g', b, d);
    PathSlice(g', p, k + 1, |p|);
    PathSlice(g', p, 0, k + 1);
    ReachesTransitive(g', d, n, b);
  }

  lemma CycleSubgraph(g: Graph, g': Graph, n: Name)
    requires forall x, y | Edge(g', x, y) :: Edge(g, x, y)
    requires OnCycle(g', n)
    ensures OnCycle(g, n)
  {
    var p :| IsPath(g', p) && |p| > 1 && p[0] == n && p[|p| - 1] == n;
    assert IsPath(g, p);
  }

  // ---- changing one node ----

  ghost predicate NobodyObjects(g: Graph, check: Check, name: Name, version: string) {
    forall a | a != name && Edge(g, a, name) :: check(version, g[a].deps[name])
  }

  ghost predicate LeadsNotBack(g: Graph, name: Name, node: Node) {
    forall d | d in node.deps :: !Reaches(g, d, name)
  }

  ghost predicate HasOtherDependent(g: Graph, name: Name, d: Name) {
    exists a :: a != name && Edge(g, a, d)
  }

  /** Every dependency of `name` outside `kept` is a root or somebody else's dependency. */
  ghost predicate OrphansNone(g: Graph, roots: set<Name>, name: Name, kept: set<Name>) {
    forall d | Edge(g, name, d) && d !in kept && d !in roots :: HasOtherDependent(g, name, d)
  }

  ghost predicate Resolved(g: Graph, check: Check, node: Node) {
    forall d | d in node.deps :: d in g && check(g[d].version, node.deps[d])
  }

  /** Replacing or adding node `name` in a valid graph, as a root, keeps it valid exactly when nobody pins
      another version of it, no new dependency leads back to it, and no dropped dependency is orphaned. */
  lemma ReplaceNode(g: Graph, roots: set<Name>, check: Check, name: Name, node: Node)
    requires ValidGraph(g, roots, check) && Resolved(g, check, node)
    ensures ValidGraph(g[name := node], roots + {name}, check)
       <==> && NobodyObjects(g, check, name, node.version)
            && LeadsNotBack(g, name, node)
            && OrphansNone(g, roots, name, node.deps.Keys)
  {
    var g' := g[name := node];
    if && NobodyObjects(g, check, name, node.version)
       && LeadsNotBack(g, name, node)
       && OrphansNone(g, roots, name, node.deps.Keys)
    {
      ReplacedEdges(g, check, name, node);
      ReplacedAcyclic(g, name, node);
      ReplacedDependents(g, roots, name, node);
      RootedByDependents(g', roots + {name});
    }
    if ValidGraph(g', roots + {name}, check) {
      ReplacedNecessary(g, check, name, node);
      ReplacedOrphans(g, roots, check, name, node);
    }
  }

  lemma ReplacedEdges(g: Graph, check: Check, name: Name, node: Node)
    requires EdgesMet(g, check) && Resolved(g, check, node)
    requires NobodyObjects(g, check, name, node.version) && LeadsNotBack(g, name, node)
    ensures EdgesMet(g[name := node], check)
  {
    var g' := g[name := node];
    ReachesSelf(g, name);
    forall a, b | Edge(g', a, b) ensures EdgeMet(g', check, a, b) {
      if a != name { assert Edge(g, a, b); }
    }
  }

  lemma ReplacedAcyclic(g: Graph, name: Name, node: Node)
    requires Acyclic(g) && LeadsNotBack(g, name, node)
    ensures Acyclic(g[name := node])
  {
    var g' := g[name := node];
    forall n ensures !OnCycle(g', n) {
      if OnCycle(g', n) {
        var d := CycleThrough(g, g', n, name);
        ReachesAside(g', g, d, name);
      }
    }
  }

  lemma ReplacedDependents(g: Graph, roots: set<Name>, name: Name, node: Node)
    requires AllReached(g, roots) && OrphansNone(g, roots, name, node.deps.Keys)
    ensures RootsOrDependents(g[name := node], roots + {name})
  {
    var g' := g[name := node];
    forall m | m in g' && m !in roots + {name} ensures HasDependent(g', m) {
      assert ReachedFrom(g, roots, m);
      var a := Predecessor(g, roots, m);
      if a == name && m !in node.deps {
        assert HasOtherDependent(g, name, m);
        a :| a != name && Edge(g, a, m);
      }
      assert Edge(g', a, m);
    }
  }

  lemma ReplacedNecessary(g: Graph, check: Check, name: Name, node: Node)
    requires Resolved(g, check, node)
    requires EdgesMet(g[name := node], check) && Acyclic(g[name := node])
    ensures NobodyObjects(g, check, name, node.version) && LeadsNotBack(g, name, node)
  {
    var g' := g[name := node];
    forall a | a != name && Edge(g, a, name) ensures check(node.version, g[a].deps[name]) {
      assert Edge(g', a, name);
    }
    forall d | d in node.deps ensures !Reaches(g, d, name) {
      if Reaches(g, d, name) {
        ReachesAside(g, g', d, name);
        assert Edge(g', name, d);
        EdgeBack(g', name, d);
      }
    }
  }

  lemma ReplacedOrphans(g: Graph, roots: set<Name>, check: Check, name: Name, node: Node)
    requires ValidGraph(g, roots, check)
    requires AllReached(g[name := node], roots + {name})
    ensures OrphansNone(g, roots, name, node.deps.Keys)
  {
    var g' := g[name := node];
    forall d | Edge(g, name, d) && d !in node.deps && d !in roots ensures HasOtherDependent(g, name, d) {
      DependencyIsOther(g, check, name, d);
      assert ReachedFrom(g', roots + {name}, d);
      var x := Predecessor(g', roots + {name}, d);
      assert x != name && Edge(g, x, d);
    }
  }

  lemma DependencyIsOther(g: Graph, check: Check, name: Name, d: Name)
    requires EdgesMet(g, check) && Acyclic(g) && Edge(g, name, d)
    ensures d in g && d != name
  {
    ReachesSelf(g, name);
    if d == name { EdgeBack(g, name, d); }
  }

  /** Removing node `name` from a valid graph and its roots keeps it valid exactly when nobody depends on it
      and each of its dependencies is a root or somebody else's dependency. */
  lemma RemoveNode(g: Graph, roots: set<Name>, check: Check, name: Name)
    requires ValidGraph(g, roots, check) && name in g
    ensures ValidGraph(g - {name}, roots - {name}, check)
       <==> !HasOtherDependent(g, name, name) && OrphansNone(g, roots, name, {})
  {
    var g' := g - {name};
    if !HasOtherDependent(g, name, name) && OrphansNone(g, roots, name, {}) {
      RemovedStaysValid(g, roots, check, name);
    }
    if ValidGraph(g', roots - {name}, check) {
      if HasOtherDependent(g, name, name) {
        var a :| a != name && Edge(g, a, name);
        assert Edge(g', a, name);
      }
      forall d | Edge(g, name, d) && d !in roots ensures HasOtherDependent(g, name, d) {
        DependencyIsOther(g, check, name, d);
        assert ReachedFrom(g', roots - {name}, d);
        var x := Predecessor(g', roots - {name}, d);
        assert x != name && Edge(g, x, d);
      }
    }
  }

  lemma RemovedStaysValid(g: Graph, roots: set<Name>, check: Check, name: Name)
    requires ValidGraph(g, roots, check) && name in g
    requires !HasOtherDependent(g, name, name) && OrphansNone(g, roots, name, {})
    ensures ValidGraph(g - {name}, roots - {name}, check)
  {
    var g' := g - {name};
    assert forall x, y | Edge(g', x, y) :: Edge(g, x, y);
    forall n ensures !OnCycle(g', n) {
      if OnCycle(g', n) { CycleSubgraph(g, g', n); }
    }
    forall m | m in g' && m !in roots - {name} ensures HasDependent(g', m) {
      assert ReachedFrom(g, roots, m);
      var x := Predecessor(g, roots, m);
      if x == name {
        assert HasOtherDependent(g, name, m);
        x :| x != name && Edge(g, x, m);
      }
      assert Edge(g', x, m);
    }
    RootedByDependents(g', roots - {name});
  }
}
