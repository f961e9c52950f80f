/** The depth-first walks over dependency graphs, with their `visited`, `active` and `order` state. */
module Walk {
  import opened Wrappers
  import opened Graph

  datatype WalkError =
    | Cycle(at: Name)
    | MissingEntry(name: Name)
    | MissingDependency(name: Name, dependency: Name)
    | Mismatch(name: Name, dependency: Name)

  /** The error is true of the graph: what it reports can be found below the roots. */
  ghost predicate Justified(g: Graph, check: Check, roots: set<Name>, e: WalkError) {
    match e
    case Cycle(n) => ReachedFrom(g, roots, n) && OnCycle(g, n)
    case MissingEntry(n) => n in roots && n !in g
    case MissingDependency(a, b) => ReachedFrom(g, roots, a) && Edge(g, a, b) && b !in g
    case Mismatch(a, b) => ReachedFrom(g, roots, a) && Edge(g, a, b) && b in g && !EdgeMet(g, check, a, b)
  }

  /** What has been visited is in order, below the roots, and its edges are met. */
  ghost predicate Explored(g: Graph, check: Check, roots: set<Name>, visited: set<Name>, order: seq<Name>) {
    && Topological(g, order)
    && (forall n :: n in visited <==> n in order)
    && (forall a, b | a in visited && Edge(g, a, b) :: EdgeMet(g, check, a, b))
    && (forall n | n in visited :: ReachedFrom(g, roots, n))
  }

  lemma ExploredAppend(
    g: Graph, check: Check, roots: set<Name>, visited: set<Name>, order: seq<Name>, name: Name)
    requires Explored(g, check, roots, visited, order) && name in g && name !in visited
    requires ReachedFrom(g, roots, name)
    requires forall d | d in g[name].deps :: d in visited && EdgeMet(g, check, name, d)
    ensures Explored(g, check, roots, visited + {name}, order + [name])
  {
    TopologicalAppend(g, order, name);
  }

  class DependencyWalk {
    const g: Graph
    const check: Check
    ghost const roots: set<Name>
    var visited: set<Name>
    var active: set<Name>
    var order: seq<Name>

    constructor (g: Graph, check: Check, ghost roots: set<Name>)
      ensures this.g == g && this.check == check && this.roots == roots
      ensures visited == {} && active == {} && order == []
      ensures Inv()
    {
      this.g, this.check, this.roots := g, check, roots;
      visited, active, order := {}, {}, [];
    }

    ghost predicate Inv()
      reads this
    {
      && Explored(g, check, roots, visited, order)
      && visited !! active
      && active <= g.Keys
    }

    /** `stack` is the path of open calls that leads to `name`. */
    ghost predicate Open(stack: seq<Name>, name: Name)
      reads this
    {
      && (forall n :: n in active <==> n in stack)
      && IsPath(g, stack + [name])
      && (stack + [name])[0] in roots
    }

    lemma OpenReached(stack: seq<Name>, name: Name)
      requires Open(stack, name)
      ensures ReachedFrom(g, roots, name)
    {
      var p := stack + [name];
      assert IsPath(g, p) && p[|p| - 1] == name;
      assert Reaches(g, p[0], name);
    }

    /** A call on an open name means the stack from there on is a cycle. */
    lemma OpenCycle(stack: seq<Name>, name: Name)
      requires Open(stack, name) && name in active
      ensures OnCycle(g, name)
    {
      var k :| 0 <= k < |stack| && stack[k] == name;
      var p := (stack + [name])[k..];
      forall i | 0 <= i < |p| - 1 ensures Edge(g, p[i], p[i + 1]) {
        assert Edge(g, (stack + [name])[k + i], (stack + [name])[k + i + 1]);
      }
      assert IsPath(g, p);
    }

    lemma OpenNext(stack: seq<Name>, name: Name, dependency: Name)
      requires IsPath(g, stack + [name]) && Edge(g, name, dependency)
      ensures IsPath(g, stack + [name] + [dependency])
    {
      var p := stack + [name];
      forall i | 0 <= i < |p| ensures Edge(g, (p + [dependency])[i], (p + [dependency])[i + 1]) {
        if i < |p| - 1 { assert Edge(g, p[i], p[i + 1]); }
      }
    }

    /** The recursive `visit`. Dependencies are taken in any order. */
    method Visit(name: Name, ghost stack: seq<Name>) returns (r: Result<(), WalkError>)
      requires Inv() && Open(stack, name)
      requires name !in g ==> stack == []
      modifies this
      ensures r.Ok? ==> Inv() && active == old(active) && name in visited
      ensures r.Ok? ==> old(order) <= order && old(visited) <= visited
      ensures r.Ok? && name !in old(visited) ==> order[|order| - 1] == name
      ensures r.Err? ==> Justified(g, check, roots, r.error)
      decreases g.Keys - active
    {
      OpenReached(stack, name);
      if name in active {
        OpenCycle(stack, name);
        return Err(Cycle(name));
      }
      if name in visited { return Ok(()); }
      if name !in g { return Err(MissingEntry(name)); }
      active := active + {name};
      ghost var above := stack + [name];
      var rest := g[name].deps.Keys;
      while rest != {}
        invariant rest <= g[name].deps.Keys
        invariant Inv() && active == old(active) + {name} && old(order) <= order && old(visited) <= visited
        invariant forall d | d in g[name].deps && d !in rest :: d in visited && EdgeMet(g, check, name, d)
      {
        var dependency :| dependency in rest;
        assert Edge(g, name, dependency);
        if dependency !in g { return Err(MissingDependency(name, dependency)); }
        if !check(g[dependency].version, g[name].deps[dependency]) {
          return Err(Mismatch(name, dependency));
        }
        OpenNext(stack, name, dependency);
        var inner := Visit(dependency, above);
        if inner.Err? { return inner; }
        rest := rest - {dependency};
      }
      ExploredAppend(g, check, roots, visited, order, name);
      active := active - {name};
      visited := visited + {name};
      order := order + [name];
      return Ok(());
    }
  }
}
