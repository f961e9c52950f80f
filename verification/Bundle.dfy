/** Bundles: exporting the dependency closure of a locked pack, and verifying one before it is installed. */
module Bundle {
  import opened Wrappers
  import opened Graph
  import opened Walk
  import opened PackLock
  import opened PackSteps

  const MAX_BUNDLE_PACKS := 64

  datatype ExportError =
    | InvalidLock(e: GraphError)
    | CacheMismatch(name: Name)
    | DuplicateLesson(name: Name)
    | NotLocked(name: Name)
    | TooManyPacks

  datatype BundleError =
    | Duplicate(name: Name)
    | BundleRootMissing(root: Name)
    | Unordered(e: WalkError)
    | OutsideClosure

  // ---- export ----

  /** `signatureMatchesLock` */
  predicate SignatureMatches(actual: Signature, locked: Signature) {
    match actual
    case Unverified => locked.Unverified?
    case Verified(keyId, _) => locked.Verified? && locked.keyId == keyId
  }

  /** The cached pack of the entry is the one that was locked, and may come from where it did. */
  predicate CacheMatches(s: Store, n: Name)
    requires n in s.lock.packages
  {
    var e := s.lock.packages[n];
    && e.digest in s.cache
    && var p := s.cache[e.digest];
       && p.name == n
       && p.version == e.version
       && p.integrity == e.integrity
       && p.digest == e.digest
       && SignatureMatches(p.signature, e.signature)
       && (e.source.Registry? || e.source.Airgap? || p.isPublic)
  }

  /** The Lesson ids a locked pack provides. */
  function LessonsOf(s: Store, n: Name): set<string> {
    if n in s.lock.packages && s.lock.packages[n].digest in s.cache then s.cache[s.lock.packages[n].digest].lessons else {}
  }

  predicate Apart(s: Store, m: Name, n: Name) { LessonsOf(s, m) !! LessonsOf(s, n) }

  /** No Lesson id is provided twice, by the local store or by locked packs. */
  ghost predicate LessonsApart(s: Store, local: set<string>) {
    && (forall n | n in s.lock.packages :: LessonsOf(s, n) !! local)
    && (forall m, n {:trigger Apart(s, m, n)} | m in s.lock.packages && n in s.lock.packages && m != n :: Apart(s, m, n))
  }

  /** When `verifyInstalledPacks` goes through. */
  ghost predicate Loads(s: Store, local: set<string>) {
    && ValidLock(s.lock)
    && (forall n | n in s.lock.packages :: CacheMatches(s, n))
    && LessonsApart(s, local)
  }

  /** When a bundle of `root` can be exported beside a local store with the Lesson ids `local`. */
  ghost predicate Exportable(s: Store, local: set<string>, root: Name) {
    && Loads(s, local)
    && root in s.lock.packages
    && |Closure(GraphOf(s.lock.packages), root)| <= MAX_BUNDLE_PACKS
  }

  /** An installed pack is as it was locked: the same name, version, integrity, digest and signing key, and public if it
      comes from Git or a directory. */
  predicate IsAsLocked(s: Store, n: Name)
    requires n in s.lock.packages
  {
    var e := s.lock.packages[n];
    && e.digest in s.cache
    && s.cache[e.digest].name == n && s.cache[e.digest].version == e.version
    && s.cache[e.digest].integrity == e.integrity && s.cache[e.digest].digest == e.digest
    && (s.cache[e.digest].signature.Verified? <==> e.signature.Verified?)
    && (e.signature.Verified? ==> s.cache[e.digest].signature.keyId == e.signature.keyId)
    && (e.source.Git? || e.source.Local? ==> s.cache[e.digest].isPublic)
  }

  /** An export goes through exactly if the lock is valid, every installed pack is as it was locked, no Lesson id is
      provided twice by packs or the local store, and the root is locked with at most 64 packs below it. */
  lemma ExportableMeans(s: Store, local: set<string>, root: Name)
    ensures Exportable(s, local, root) <==>
              && ValidLock(s.lock)
              && (forall n | n in s.lock.packages :: IsAsLocked(s, n))
              && (forall n | n in s.lock.packages :: s.cache[s.lock.packages[n].digest].lessons !! local)
              && (forall m, n | m in s.lock.packages && n in s.lock.packages && m != n ::
                    s.cache[s.lock.packages[m].digest].lessons !! s.cache[s.lock.packages[n].digest].lessons)
              && root in s.lock.packages
              && |Closure(GraphOf(s.lock.packages), root)| <= 64
  {
    forall n | n in s.lock.packages ensures CacheMatches(s, n) <==> IsAsLocked(s, n) { }
    if (forall n | n in s.lock.packages :: IsAsLocked(s, n)) {
      forall n | n in s.lock.packages ensures LessonsOf(s, n) == s.cache[s.lock.packages[n].digest].lessons { }
      forall m, n | m in s.lock.packages && n in s.lock.packages && m != n
        ensures Apart(s, m, n) <==>
                s.cache[s.lock.packages[m].digest].lessons !! s.cache[s.lock.packages[n].digest].lessons
      {
      }
    }
  }

  /** The recursive `visit` that grows the `closure` set. */
  class ClosureWalk {
    const g: Graph
    var closure: set<Name>

    constructor (g: Graph)
      ensures this.g == g && closure == {}
    {
      this.g := g;
      closure := {};
    }

    /** Every collected name but the open ones has its dependencies collected. */
    ghost predicate ClosedBut(open: set<Name>)
      reads this
    {
      closure <= g.Keys && forall a, b | a in closure && a !in open && b in g[a].deps :: b in closure
    }

    method Visit(name: Name, ghost open: set<Name>, ghost root: Name)
      requires EdgesMet(g, Pinned) && name in g
      requires ClosedBut(open) && open <= closure
      requires Reaches(g, root, name) && forall n | n in closure :: Reaches(g, root, n)
      modifies this
      ensures ClosedBut(open) && name in closure && old(closure) <= closure
      ensures forall n | n in closure :: Reaches(g, root, n)
      decreases g.Keys - closure
    {
      if name in closure { return; }
      closure := closure + {name};
      var rest := g[name].deps.Keys;
      while rest != {}
        invariant rest <= g[name].deps.Keys
        invariant ClosedBut(open + {name}) && old(closure) + {name} <= closure
        invariant forall n | n in closure :: Reaches(g, root, n)
        invariant forall d | d in g[name].deps && d !in rest :: d in closure
      {
        var dependency :| dependency in rest;
        assert Edge(g, name, dependency);
        ReachesEdge(g, root, name, dependency);
        Visit(dependency, open + {name}, root);
        rest := rest - {dependency};
      }
    }
  }

  lemma ClosedHoldsReached(g: Graph, c: set<Name>, root: Name, n: Name)
    requires c <= g.Keys && root in c && Reaches(g, root, n)
    requires forall a, b | a in c && b in g[a].deps :: b in c
    ensures n in c
  {
    var p :| IsPath(g, p) && p[0] == root && p[|p| - 1] == n;
    PathStaysClosed(g, c, p);
  }

  lemma {:induction false} PathStaysClosed(g: Graph, c: set<Name>, p: seq<Name>)
    requires c <= g.Keys && IsPath(g, p) && p[0] in c
    requires forall a, b | a in c && b in g[a].deps :: b in c
    ensures p[|p| - 1] in c
    decreases |p|
  {
    if |p| > 1 {
      assert Edge(g, p[0], p[1]);
      PathSlice(g, p, 1, |p|);
      PathStaysClosed(g, c, p[1..]);
    }
  }

  predicate DistinctNames(packs: seq<Pack>) {
    forall i, j | 0 <= i < j < |packs| :: packs[i].name != packs[j].name
  }

  /** The packs of the closure of `root`, each once. */
  ghost predicate Exports(s: Store, root: Name, packs: seq<Pack>) {
    && DistinctNames(packs)
    && (forall i | 0 <= i < |packs| ::
          && packs[i].name in Closure(GraphOf(s.lock.packages), root)
          && CacheMatches(s, packs[i].name)
          && packs[i] == s.cache[s.lock.packages[packs[i].name].digest])
    && (forall n | n in Closure(GraphOf(s.lock.packages), root) :: Lists(packs, n))
  }

  ghost predicate Lists(packs: seq<Pack>, n: Name) {
    exists i :: 0 <= i < |packs| && packs[i].name == n
  }

  /** `createRegistryPackBundle`: the artifacts of exactly the closure of `root`. */
  method CreateRegistryPackBundle(s: Store, local: set<string>, root: Name) returns (r: Result<seq<Pack>, ExportError>)
    ensures r.Ok? <==> Exportable(s, local, root)
    ensures r.Ok? ==> Exports(s, root, r.value)
  {
    var loaded := VerifyInstalledPacks(s, local);
    if loaded.Err? { return Err(loaded.error); }
    if root !in s.lock.packages { return Err(NotLocked(root)); }
    var closure := CollectClosure(GraphOf(s.lock.packages), root);
    if |closure| > MAX_BUNDLE_PACKS { return Err(TooManyPacks); }
    var artifacts := CollectArtifacts(s, closure);
    return Ok(artifacts);
  }

  /** `verifyInstalledPacks`: every locked pack, whether the bundle needs it or not. */
  method VerifyInstalledPacks(s: Store, local: set<string>) returns (r: Result<(), ExportError>)
    ensures r.Ok? <==> Loads(s, local)
  {
    var valid := ValidateDependencyGraph(s.lock);
    if valid.Err? { return Err(InvalidLock(valid.error)); }
    var seen := local;
    var unchecked := s.lock.packages.Keys;
    while unchecked != {}
      invariant unchecked <= s.lock.packages.Keys
      invariant SeenIs(s, local, s.lock.packages.Keys - unchecked, seen)
      invariant forall n | n in s.lock.packages && n !in unchecked :: CacheMatches(s, n) && LessonsOf(s, n) !! local
      invariant PairsApart(s, s.lock.packages.Keys - unchecked)
    {
      var n :| n in unchecked;
      if !CacheMatches(s, n) { return Err(CacheMismatch(n)); }
      SeenDecides(s, local, s.lock.packages.Keys - unchecked, seen, n);
      if !(LessonsOf(s, n) !! seen) { return Err(DuplicateLesson(n)); }
      assert s.lock.packages.Keys - (unchecked - {n}) == s.lock.packages.Keys - unchecked + {n};
      seen := seen + LessonsOf(s, n);
      unchecked := unchecked - {n};
    }
    assert s.lock.packages.Keys - unchecked == s.lock.packages.Keys;
    return Ok(());
  }

  ghost predicate PairsApart(s: Store, done: set<Name>) {
    forall m, n {:trigger Apart(s, m, n)} | m in done && n in done && m != n :: Apart(s, m, n)
  }

  /** The ids seen so far are the local ones and those of the packs done. */
  ghost predicate SeenIs(s: Store, local: set<string>, done: set<Name>, seen: set<string>) {
    && local <= seen
    && (forall n | n in done :: LessonsOf(s, n) <= seen)
    && (forall l | l in seen && l !in local :: SeenFrom(s, done, l))
  }

  ghost predicate SeenFrom(s: Store, done: set<Name>, l: string) { exists n :: n in done && l in LessonsOf(s, n) }

  /** An id of the next pack that was seen before is provided twice, and otherwise the pack is apart from all. */
  lemma SeenDecides(s: Store, local: set<string>, done: set<Name>, seen: set<string>, n: Name)
    requires SeenIs(s, local, done, seen) && done <= s.lock.packages.Keys && n in s.lock.packages && n !in done
    requires PairsApart(s, done)
    ensures !(LessonsOf(s, n) !! seen) ==> !LessonsApart(s, local)
    ensures LessonsOf(s, n) !! seen ==>
              && LessonsOf(s, n) !! local
              && PairsApart(s, done + {n})
              && SeenIs(s, local, done + {n}, seen + LessonsOf(s, n))
  {
    if !(LessonsOf(s, n) !! seen) {
      var l :| l in LessonsOf(s, n) && l in seen;
      if l !in local {
        assert SeenFrom(s, done, l);
        var m :| m in done && l in LessonsOf(s, m);
        assert !Apart(s, m, n);
      }
    } else {
      forall a, b | a in done + {n} && b in done + {n} && a != b ensures Apart(s, a, b) {
        if a in done && b in done { assert Apart(s, a, b); }
      }
      forall l | l in seen + LessonsOf(s, n) && l !in local ensures SeenFrom(s, done + {n}, l) {
        if l in seen {
          assert SeenFrom(s, done, l);
          var m :| m in done && l in LessonsOf(s, m);
          assert m in done + {n};
        } else {
          assert n in done + {n};
        }
      }
    }
  }

  method CollectClosure(g: Graph, root: Name) returns (closure: set<Name>)
    requires EdgesMet(g, Pinned) && root in g
    ensures closure == Closure(g, root)
  {
    var walk := new ClosureWalk(g);
    ReachesSelf(g, root);
    walk.Visit(root, {}, root);
    forall n ensures n in walk.closure <==> n in Closure(g, root) {
      if n in Closure(g, root) { ClosedHoldsReached(g, walk.closure, root, n); }
    }
    return walk.closure;
  }

  method CollectArtifacts(s: Store, closure: set<Name>) returns (artifacts: seq<Pack>)
    requires forall n | n in closure :: n in s.lock.packages && CacheMatches(s, n)
    ensures DistinctNames(artifacts)
    ensures forall i | 0 <= i < |artifacts| ::
      && artifacts[i].name in closure
      && artifacts[i].name in s.lock.packages && CacheMatches(s, artifacts[i].name)
      && artifacts[i] == s.cache[s.lock.packages[artifacts[i].name].digest]
    ensures forall n | n in closure :: Lists(artifacts, n)
  {
    artifacts := [];
    var rest := closure;
    while rest != {}
      invariant rest <= closure
      invariant DistinctNames(artifacts)
      invariant forall i | 0 <= i < |artifacts| ::
        artifacts[i].name in closure - rest && artifacts[i] == s.cache[s.lock.packages[artifacts[i].name].digest]
      invariant forall n | n in closure - rest :: Lists(artifacts, n)
    {
      var name :| name in rest;
      var artifact := s.cache[s.lock.packages[name].digest];
      assert CacheMatches(s, name);
      forall n | n in closure - (rest - {name}) ensures Lists(artifacts + [artifact], n) {
        ListsAppend(artifacts, artifact, n);
      }
      artifacts := artifacts + [artifact];
      rest := rest - {name};
    }
  }

  lemma ListsAppend(packs: seq<Pack>, p: Pack, n: Name)
    requires Lists(packs, n) || p.name == n
    ensures Lists(packs + [p], n)
  {
    if Lists(packs, n) {
      var i :| 0 <= i < |packs| && packs[i].name == n;
      assert (packs + [p])[i].name == n;
    } else {
      assert (packs + [p])[|packs|].name == n;
    }
  }

  // ---- verification ----

  function ByName(packs: seq<Pack>): (m: map<Name, Pack>)
    ensures forall n :: n in m <==> exists i :: 0 <= i < |packs| && packs[i].name == n
    ensures forall n | n in m :: m[n] in packs && m[n].name == n
  {
    if |packs| == 0 then map[]
    else ByName(packs[..|packs| - 1])[packs[|packs| - 1].name := packs[|packs| - 1]]
  }

  /** A bundle as a graph: what its packs require are ranges. */
  function GraphOfPacks(m: map<Name, Pack>): (g: Graph)
    ensures g.Keys == m.Keys
    ensures forall n | n in m :: g[n] == Node(m[n].version, m[n].ranges)
  {
    map n | n in m :: Node(m[n].version, m[n].ranges)
  }

  /** Distinct packs, forming the closure of `root` with every range met and no cycle. */
  ghost predicate VerifiableBundle(packs: seq<Pack>, root: Name, satisfies: Check) {
    DistinctNames(packs) && ValidGraph(GraphOfPacks(ByName(packs)), {root}, satisfies)
  }

  function NamesOf(packs: seq<Pack>): (names: seq<Name>)
    ensures |names| == |packs| && forall i | 0 <= i < |packs| :: names[i] == packs[i].name
  {
    seq(|packs|, i requires 0 <= i < |packs| => packs[i].name)
  }

  /** Each pack of the bundle once, dependencies before dependents, the root last. */
  ghost predicate InstallOrder(packs: seq<Pack>, root: Name, ordered: seq<Pack>) {
    var m := ByName(packs);
    && |ordered| > 0 && ordered[|ordered| - 1].name == root
    && Topological(GraphOfPacks(m), NamesOf(ordered))
    && (forall i | 0 <= i < |ordered| :: ordered[i].name in m && ordered[i] == m[ordered[i].name])
    && (forall n | n in m :: n in NamesOf(ordered))
  }

  /** `verifyAirgapPackBundle`: accepts exactly the verifiable bundles, in an install order. */
  method VerifyAirgapPackBundle(
    packs: seq<Pack>, root: Name, satisfies: Check) returns (r: Result<seq<Pack>, BundleError>)
    ensures r.Ok? <==> VerifiableBundle(packs, root, satisfies)
    ensures r.Ok? ==> InstallOrder(packs, root, r.value)
  {
    var collected := CollectPacks(packs);
    if collected.Err? { return Err(collected.error); }
    var order := OrderCollected(collected.value, root, satisfies);
    if order.Err? { return Err(order.error); }
    var ordered := PacksInOrder(order.value, collected.value);
    WalkedIsInstallOrder(packs, root, satisfies, order.value, ordered);
    return Ok(ordered);
  }

  /** The checks on the collected packs: the root is there, its walk succeeds, and nothing is left over. */
  method OrderCollected(m: map<Name, Pack>, root: Name, satisfies: Check) returns (r: Result<seq<Name>, BundleError>)
    ensures r.Ok? <==> ValidGraph(GraphOfPacks(m), {root}, satisfies)
    ensures r.Ok? ==> Walked(root, m, satisfies, r.value) && forall n | n in m :: n in r.value
  {
    if root !in m { return Err(BundleRootMissing(root)); }
    var order := AirgapBundleInstallOrder(root, m, satisfies);
    if order.Err? { return Err(Unordered(order.error)); }
    LengthDecides(root, m, satisfies, order.value);
    if |order.value| != |m| { return Err(OutsideClosure); }
    return Ok(order.value);
  }

  lemma WalkedIsInstallOrder(packs: seq<Pack>, root: Name, satisfies: Check, order: seq<Name>, ordered: seq<Pack>)
    requires Walked(root, ByName(packs), satisfies, order)
    requires forall n | n in ByName(packs) :: n in order
    requires NamesOf(ordered) == order
    requires forall i | 0 <= i < |ordered| :: order[i] in ByName(packs) && ordered[i] == ByName(packs)[order[i]]
    ensures InstallOrder(packs, root, ordered)
  {
  }

  lemma FullOrderIsValid(root: Name, m: map<Name, Pack>, satisfies: Check, order: seq<Name>)
    requires root in m && Walked(root, m, satisfies, order)
    requires forall n | n in m :: n in order
    ensures ValidGraph(GraphOfPacks(m), {root}, satisfies)
  {
    WalkedAllIsValid(GraphOfPacks(m), {root}, satisfies, order);
  }

  lemma ValidIsFullOrder(root: Name, m: map<Name, Pack>, satisfies: Check, order: seq<Name>)
    requires root in m && Walked(root, m, satisfies, order)
    requires ValidGraph(GraphOfPacks(m), {root}, satisfies)
    ensures forall n | n in m :: n in order
  {
    var g := GraphOfPacks(m);
    WalkedIsReached(g, {root}, order);
    forall n | n in m ensures n in order {
      assert ReachedFrom(g, {root}, n);
    }
  }

  /** Once the walk from the root has succeeded, only packs outside the closure can fail the bundle. */
  lemma LengthDecides(root: Name, m: map<Name, Pack>, satisfies: Check, order: seq<Name>)
    requires root in m && Walked(root, m, satisfies, order)
    ensures |order| == |m| <==> ValidGraph(GraphOfPacks(m), {root}, satisfies)
    ensures |order| == |m| <==> forall n | n in m :: n in order
  {
    OrderLength(order, m.Keys);
    if |order| == |m| {
      FullOrderIsValid(root, m, satisfies, order);
    } else if ValidGraph(GraphOfPacks(m), {root}, satisfies) {
      ValidIsFullOrder(root, m, satisfies, order);
    }
  }

  /** What a successful walk from `root` leaves in `order`. */
  ghost predicate Walked(root: Name, m: map<Name, Pack>, satisfies: Check, order: seq<Name>) {
    var g := GraphOfPacks(m);
    && |order| > 0 && order[|order| - 1] == root
    && Topological(g, order)
    && (forall n | n in order :: ReachedFrom(g, {root}, n))
    && (forall a, b | a in order && Edge(g, a, b) :: EdgeMet(g, satisfies, a, b))
  }

  lemma OneMorePack(packs: seq<Pack>, i: nat)
    requires i < |packs| && DistinctNames(packs[..i])
    ensures ByName(packs[..i + 1]) == ByName(packs[..i])[packs[i].name := packs[i]]
    ensures packs[i].name in ByName(packs[..i]) ==> !DistinctNames(packs)
    ensures packs[i].name !in ByName(packs[..i]) ==> DistinctNames(packs[..i + 1])
  {
    assert packs[..i + 1][..i] == packs[..i];
    if packs[i].name in ByName(packs[..i]) {
      var k :| 0 <= k < i && packs[..i][k].name == packs[i].name;
    } else {
      forall k | 0 <= k < i ensures packs[k].name != packs[i].name { assert packs[..i][k].name == packs[k].name; }
      OneMoreDistinct(packs, i);
    }
  }

  lemma OneMoreDistinct(packs: seq<Pack>, i: nat)
    requires i < |packs| && DistinctNames(packs[..i])
    requires forall k | 0 <= k < i :: packs[k].name != packs[i].name
    ensures DistinctNames(packs[..i + 1])
  {
    var longer := packs[..i + 1];
    forall j, k | 0 <= j < k < |longer| ensures longer[j].name != longer[k].name {
      if k < i { assert packs[..i][j].name != packs[..i][k].name; }
    }
  }

  method CollectPacks(packs: seq<Pack>) returns (r: Result<map<Name, Pack>, BundleError>)
    ensures r.Ok? <==> DistinctNames(packs)
    ensures r.Ok? ==> r.value == ByName(packs)
  {
    var m: map<Name, Pack> := map[];
    for i := 0 to |packs|
      invariant m == ByName(packs[..i]) && DistinctNames(packs[..i])
    {
      OneMorePack(packs, i);
      if packs[i].name in m {
        return Err(Duplicate(packs[i].name));
      }
      m := m[packs[i].name := packs[i]];
    }
    assert packs[..|packs|] == packs;
    return Ok(m);
  }

  /** `airgapBundleInstallOrder`: the closure of the root, dependencies first and the root last. */
  method AirgapBundleInstallOrder(
    root: Name, m: map<Name, Pack>, satisfies: Check) returns (r: Result<seq<Name>, WalkError>)
    requires root in m
    ensures r.Err? ==> Justified(GraphOfPacks(m), satisfies, {root}, r.error)
    ensures r.Err? ==> !ValidGraph(GraphOfPacks(m), {root}, satisfies)
    ensures r.Ok? ==> Walked(root, m, satisfies, r.value)
  {
    var walk := new DependencyWalk(GraphOfPacks(m), satisfies, {root});
    var visit := walk.Visit(root, []);
    if visit.Err? {
      ErrorRefutes(GraphOfPacks(m), satisfies, {root}, visit.error);
      return Err(visit.error);
    }
    return Ok(walk.order);
  }

  method PacksInOrder(order: seq<Name>, m: map<Name, Pack>) returns (packs: seq<Pack>)
    requires forall i | 0 <= i < |order| :: order[i] in m && m[order[i]].name == order[i]
    ensures NamesOf(packs) == order
    ensures forall i | 0 <= i < |packs| :: packs[i] == m[order[i]]
  {
    packs := seq(|order|, i requires 0 <= i < |order| && order[i] in m => m[order[i]]);
  }

  /** Distinct names within a set are all of it exactly when there are as many. */
  lemma {:induction false} OrderLength(order: seq<Name>, all: set<Name>)
    requires forall i | 0 <= i < |order| :: order[i] in all
    requires forall i, j | 0 <= i < j < |order| :: order[i] != order[j]
    ensures |order| <= |all|
    ensures |order| == |all| <==> forall n | n in all :: n in order
    decreases |order|
  {
    if |order| == 0 {
      if all != {} { var n :| n in all; }
    } else {
      var k := |order| - 1;
      var last := order[k];
      OrderLength(order[..k], all - {last});
      if |order| == |all| {
        forall n | n in all ensures n in order {
          if n != last { assert n in order[..k]; }
        }
      }
      if forall n | n in all :: n in order {
        forall n | n in all - {last} ensures n in order[..k] {
          var i :| 0 <= i < |order| && order[i] == n;
        }
      }
    }
  }
}
