/** Exporting a locked pack as a bundle and installing it elsewhere: when that works, and what it reproduces. */
module RoundTrip {
  import opened Wrappers
  import opened Graph
  import opened PackLock
  import opened PackSteps
  import opened Bundle

  // ---- what the lock knows about its packs ----

  /** Digests identify content: `contentOf` is what the hash function would have to be inverted to. */
  ghost predicate Faithful(cache: map<string, Pack>, contentOf: string -> Pack) {
    forall d | d in cache :: cache[d] == contentOf(d) && cache[d].digest == d
  }

  /** The entry of `n` came from a cached pack whose ranges its pins satisfied. */
  ghost predicate BackedEntry(s: Store, n: Name, satisfies: Check)
    requires n in s.lock.packages
  {
    && CacheMatches(s, n)
    && var e := s.lock.packages[n];
       var p := s.cache[e.digest];
       && p.ranges.Keys == e.deps.Keys
       && forall d | d in e.deps :: satisfies(e.deps[d], p.ranges[d])
  }

  ghost predicate Backed(s: Store, contentOf: string -> Pack, satisfies: Check) {
    && Faithful(s.cache, contentOf)
    && forall n | n in s.lock.packages :: BackedEntry(s, n, satisfies)
  }

  /** `verifyPack` before the install: only a Registry or an air-gap bundle may hand on a private pack. */
  predicate Admits(source: Source, pack: Pack) { source.Registry? || source.Airgap? || pack.isPublic }

  /** The digests of the packs are those of their content, and each came from where it may come from. */
  ghost predicate Genuine(op: Op, contentOf: string -> Pack) {
    match op
    case Install(pack, source, _) => contentOf(pack.digest) == pack && Admits(source, pack)
    case InstallClosure(packs, _, _) => forall i | 0 <= i < |packs| :: contentOf(packs[i].digest) == packs[i]
    case Remove(_) => true
    case Abandon(pack) => contentOf(pack.digest) == pack
  }

  lemma WithEntryBacked(
    s: Store, pack: Pack, source: Source, trusted: set<string>, contentOf: string -> Pack, satisfies: Check)
    requires Backed(s, contentOf, satisfies) && contentOf(pack.digest) == pack && Admits(source, pack)
    requires Admissible(s, pack, trusted, satisfies)
    ensures Backed(WithEntry(s, pack, source, trusted), contentOf, satisfies)
  {
    var s' := WithEntry(s, pack, source, trusted);
    assert s'.cache[pack.digest] == pack;
    forall n | n in s'.lock.packages ensures BackedEntry(s', n, satisfies) {
      if n == pack.name {
        assert Pins(pack, s.lock.packages).Keys == pack.ranges.Keys;
      } else {
        assert BackedEntry(s, n, satisfies);
      }
    }
  }

  lemma {:induction false} LockAllBacked(
    s: Store, packs: seq<Pack>, trusted: set<string>, contentOf: string -> Pack, satisfies: Check)
    requires Backed(s, contentOf, satisfies)
    requires forall i | 0 <= i < |packs| :: contentOf(packs[i].digest) == packs[i]
    requires LockAll(s, packs, trusted, satisfies).Some?
    ensures Backed(LockAll(s, packs, trusted, satisfies).value, contentOf, satisfies)
    decreases |packs|
  {
    if |packs| > 0 {
      var n := |packs| - 1;
      LockAllBacked(s, packs[..n], trusted, contentOf, satisfies);
      WithEntryBacked(LockAll(s, packs[..n], trusted, satisfies).value, packs[n], Airgap, trusted, contentOf, satisfies);
    }
  }

  lemma StepKeepsBacked(s: Store, op: Op, contentOf: string -> Pack, satisfies: Check)
    requires Backed(s, contentOf, satisfies) && Genuine(op, contentOf)
    requires Apply(s, op, satisfies).Some?
    ensures Backed(Apply(s, op, satisfies).value, contentOf, satisfies)
  {
    var next := Apply(s, op, satisfies).value;
    match op
    case Install(pack, source, trusted) =>
      WithEntryBacked(s, pack, source, trusted, contentOf, satisfies);
      RootsKeepBacked(WithEntry(s, pack, source, trusted), next, contentOf, satisfies);
    case InstallClosure(packs, root, trusted) =>
      LockAllBacked(s, packs, trusted, contentOf, satisfies);
      RootsKeepBacked(LockAll(s, packs, trusted, satisfies).value, next, contentOf, satisfies);
    case Remove(name) =>
      forall n | n in next.lock.packages ensures BackedEntry(next, n, satisfies) {
        assert BackedEntry(s, n, satisfies);
      }
    case Abandon(pack) =>
      forall n | n in next.lock.packages ensures BackedEntry(next, n, satisfies) {
        assert BackedEntry(s, n, satisfies);
      }
  }

  lemma RootsKeepBacked(s: Store, s': Store, contentOf: string -> Pack, satisfies: Check)
    requires Backed(s, contentOf, satisfies)
    requires s'.cache == s.cache && s'.lock.packages == s.lock.packages
    ensures Backed(s', contentOf, satisfies)
  {
    forall n | n in s'.lock.packages ensures BackedEntry(s', n, satisfies) {
      assert BackedEntry(s, n, satisfies);
    }
  }

  /** Every lock the operations can build is backed by the packs it was built from. */
  lemma {:induction false} RunKeepsBacked(ops: seq<Op>, contentOf: string -> Pack, satisfies: Check)
    requires forall i | 0 <= i < |ops| :: Genuine(ops[i], contentOf)
    ensures Backed(Run(Store(EMPTY_LOCK, map[]), ops, satisfies), contentOf, satisfies)
    decreases |ops|
  {
    if |ops| > 0 {
      var n := |ops| - 1;
      RunKeepsBacked(ops[..n], contentOf, satisfies);
      var before := Run(Store(EMPTY_LOCK, map[]), ops[..n], satisfies);
      if Apply(before, ops[n], satisfies).Some? {
        StepKeepsBacked(before, ops[n], contentOf, satisfies);
      }
    }
  }

  // ---- the closure as a graph of its own ----

  lemma ReachesWithinClosure(g: Graph, h: Graph, root: Name, n: Name)
    requires EdgesMet(g, Pinned) && root in g
    requires h.Keys == Closure(g, root) && forall m | m in h :: h[m].deps.Keys == g[m].deps.Keys
    requires Reaches(g, root, n)
    ensures Reaches(h, root, n)
  {
    var p :| IsPath(g, p) && p[0] == root && p[|p| - 1] == n;
    forall i | 0 <= i < |p| - 1 ensures Edge(h, p[i], p[i + 1]) {
      PathSlice(g, p, 0, i + 1);
      assert Edge(g, p[i], p[i + 1]);
    }
    assert IsPath(h, p);
  }

  /** The closure of a node of a valid graph, under any requirements: valid as soon as they are met. */
  lemma ClosureGraph(g: Graph, h: Graph, root: Name, check: Check)
    requires EdgesMet(g, Pinned) && Acyclic(g) && root in g
    requires h.Keys == Closure(g, root) && forall m | m in h :: h[m].deps.Keys == g[m].deps.Keys
    ensures ValidGraph(h, {root}, check) <==> EdgesMet(h, check)
    ensures forall a, b | Edge(h, a, b) :: b in h
  {
    ReachesSelf(g, root);
    forall n ensures !OnCycle(h, n) {
      assert forall x, y | Edge(h, x, y) :: Edge(g, x, y);
      if OnCycle(h, n) { CycleSubgraph(g, h, n); }
    }
    forall n | n in h ensures ReachedFrom(h, {root}, n) {
      ReachesWithinClosure(g, h, root, n);
    }
    forall a, b | Edge(h, a, b) ensures b in h {
      assert Edge(g, a, b);
      ReachesEdge(g, root, a, b);
    }
  }

  // ---- the round trip ----

  /** Every pin inside the closure also meets its range under `strict`, the check without prereleases. */
  ghost predicate StrictlySatisfied(s: Store, root: Name, strict: Check) {
    forall n, d | n in Closure(GraphOf(s.lock.packages), root) && d in s.lock.packages[n].deps ::
      StrictEdge(s, n, d, strict)
  }

  ghost predicate StrictEdge(s: Store, n: Name, d: Name, strict: Check)
    requires n in s.lock.packages && d in s.lock.packages[n].deps
  {
    var p := s.lock.packages[n].digest;
    p in s.cache && d in s.cache[p].ranges && strict(s.lock.packages[n].deps[d], s.cache[p].ranges[d])
  }

  lemma ExportedByName(s: Store, root: Name, packs: seq<Pack>)
    requires Exports(s, root, packs)
    ensures ByName(packs).Keys == Closure(GraphOf(s.lock.packages), root)
    ensures forall n | n in ByName(packs) :: CacheMatches(s, n) && ByName(packs)[n] == s.cache[s.lock.packages[n].digest]
  {
    var m := ByName(packs);
    forall n ensures n in m <==> n in Closure(GraphOf(s.lock.packages), root) {
      if n in Closure(GraphOf(s.lock.packages), root) { assert Lists(packs, n); }
    }
    forall n | n in m ensures CacheMatches(s, n) && m[n] == s.cache[s.lock.packages[n].digest] {
      var i :| 0 <= i < |packs| && packs[i] == m[n];
    }
  }

  /** An exported bundle verifies exactly when the closure's pins also meet their ranges strictly. */
  lemma ExportVerifiesExactly(
    s: Store, root: Name, packs: seq<Pack>, contentOf: string -> Pack, satisfies: Check, strict: Check)
    requires ValidLock(s.lock) && Backed(s, contentOf, satisfies) && root in s.lock.packages
    requires Exports(s, root, packs)
    ensures VerifiableBundle(packs, root, strict) <==> StrictlySatisfied(s, root, strict)
  {
    var g := GraphOf(s.lock.packages);
    var m := ByName(packs);
    var h := GraphOfPacks(m);
    ExportedByName(s, root, packs);
    forall n | n in h ensures h[n].deps.Keys == g[n].deps.Keys && h[n].version == g[n].version {
      assert BackedEntry(s, n, satisfies);
    }
    ClosureGraph(g, h, root, strict);
    if StrictlySatisfied(s, root, strict) {
      forall a, b | Edge(h, a, b) ensures EdgeMet(h, strict, a, b) {
        assert StrictEdge(s, a, b, strict);
        assert Edge(g, a, b);
      }
    }
    if EdgesMet(h, strict) {
      forall n, d | n in Closure(g, root) && d in s.lock.packages[n].deps ensures StrictEdge(s, n, d, strict) {
        assert Edge(h, n, d) && Edge(g, n, d);
      }
    }
  }

  /** The closure of `root` with its versions, contents and pins, and nothing else. */
  ghost predicate SameClosure(lock: Lock, copy: Lock, root: Name) {
    && copy.roots == {root}
    && copy.packages.Keys == Closure(GraphOf(lock.packages), root)
    && forall n | n in copy.packages :: SameEntry(lock.packages[n], copy.packages[n])
  }

  predicate SameEntry(a: Entry, b: Entry) {
    a.version == b.version && a.integrity == b.integrity && a.digest == b.digest && a.deps == b.deps
  }

  /** After `i` packs of the install order, the working lock holds exactly those, as the source lock has them. */
  ghost predicate CopiedSoFar(s: Store, names: seq<Name>, working: Store, contentOf: string -> Pack) {
    && Faithful(working.cache, contentOf)
    && working.lock.roots == {}
    && (forall n :: n in working.lock.packages <==> n in names)
    && (forall n | n in working.lock.packages :: n in s.lock.packages && SameEntry(s.lock.packages[n], working.lock.packages[n]))
  }

  /** Pack `p` as the source locks it, once the packs of `before` are in place. */
  ghost predicate Copyable(s: Store, p: Pack, before: seq<Name>, contentOf: string -> Pack, satisfies: Check) {
    && p.name !in before && p.name in s.lock.packages
    && contentOf(p.digest) == p && NamesOk(p)
    && var e := s.lock.packages[p.name];
       && p.version == e.version && p.integrity == e.integrity && p.digest == e.digest
       && p.ranges.Keys == e.deps.Keys
       && forall d | d in e.deps ::
            && d in before && d in s.lock.packages && s.lock.packages[d].version == e.deps[d]
            && satisfies(e.deps[d], p.ranges[d])
  }

  lemma OrderedIsCopyable(
    s: Store, root: Name, packs: seq<Pack>, ordered: seq<Pack>, i: nat, contentOf: string -> Pack, satisfies: Check)
    requires ValidLock(s.lock) && WellNamed(s.lock) && Backed(s, contentOf, satisfies) && Exports(s, root, packs)
    requires InstallOrder(packs, root, ordered) && i < |ordered|
    ensures Copyable(s, ordered[i], NamesOf(ordered)[..i], contentOf, satisfies)
  {
    var g := GraphOf(s.lock.packages);
    var names := NamesOf(ordered);
    var p := ordered[i];
    ExportedByName(s, root, packs);
    assert BackedEntry(s, p.name, satisfies);
    var e := s.lock.packages[p.name];
    assert p == s.cache[e.digest];
    assert GraphOfPacks(ByName(packs))[names[i]].deps == p.ranges;
    forall d | d in e.deps
      ensures d in names[..i] && d in s.lock.packages && s.lock.packages[d].version == e.deps[d]
    {
      assert Edge(g, p.name, d);
    }
  }

  lemma CopyOne(
    s: Store, p: Pack, before: seq<Name>, working: Store, trusted: set<string>, contentOf: string -> Pack, satisfies: Check)
    requires Copyable(s, p, before, contentOf, satisfies)
    requires CopiedSoFar(s, before, working, contentOf)
    ensures Admissible(working, p, trusted, satisfies) <==> TrustedSignature(p.signature, trusted).Some?
    ensures TrustedSignature(p.signature, trusted).Some? ==>
              CopiedSoFar(s, before + [p.name], WithEntry(working, p, Airgap, trusted), contentOf)
  {
    assert Pins(p, working.lock.packages) == s.lock.packages[p.name].deps;
  }

  ghost predicate AllTrusted(packs: seq<Pack>, trusted: set<string>) {
    trusted == {} || forall p | p in packs :: p.signature.Verified? && p.signature.keyId in trusted
  }

  lemma OneMoreTrusted(ordered: seq<Pack>, i: nat, trusted: set<string>)
    requires 0 < i <= |ordered|
    ensures AllTrusted(ordered[..i], trusted)
       <==> AllTrusted(ordered[..i - 1], trusted) && TrustedSignature(ordered[i - 1].signature, trusted).Some?
  {
    assert ordered[..i] == ordered[..i - 1] + [ordered[i - 1]];
  }

  /** The install loop copies the closure pack by pack, until it meets a signature that is not trusted. */
  lemma {:induction false} LockAllCopies(
    s: Store, ordered: seq<Pack>, i: nat, trusted: set<string>, contentOf: string -> Pack, satisfies: Check)
    requires i <= |ordered|
    requires AllCopyable(s, ordered, contentOf, satisfies)
    ensures var copied := LockAll(Store(EMPTY_LOCK, map[]), ordered[..i], trusted, satisfies);
            && (copied.Some? <==> AllTrusted(ordered[..i], trusted))
            && (copied.Some? ==> CopiedSoFar(s, NamesOf(ordered)[..i], copied.value, contentOf))
    decreases i
  {
    if i > 0 {
      LockAllCopies(s, ordered, i - 1, trusted, contentOf, satisfies);
      assert ordered[..i][..i - 1] == ordered[..i - 1];
      OneMoreTrusted(ordered, i, trusted);
      var before := LockAll(Store(EMPTY_LOCK, map[]), ordered[..i - 1], trusted, satisfies);
      if before.Some? {
        var names := NamesOf(ordered);
        assert CopyableAt(s, ordered, i - 1, contentOf, satisfies);
        CopyOne(s, ordered[i - 1], names[..i - 1], before.value, trusted, contentOf, satisfies);
        assert names[..i] == names[..i - 1] + [names[i - 1]];
      }
    }
  }

  /** A lock holding copies of exactly the closure's entries is valid once `root` is its root. */
  lemma CopyIsValid(s: Store, root: Name, packages: map<Name, Entry>)
    requires ValidLock(s.lock) && root in s.lock.packages
    requires packages.Keys == Closure(GraphOf(s.lock.packages), root)
    requires forall n | n in packages :: SameEntry(s.lock.packages[n], packages[n])
    ensures ValidLock(Lock({root}, packages))
  {
    var g := GraphOf(s.lock.packages);
    var h := GraphOf(packages);
    ClosureGraph(g, h, root, Pinned);
    forall a, b | Edge(h, a, b) ensures EdgeMet(h, Pinned, a, b) {
      assert Edge(g, a, b);
    }
  }

  /** Whatever the install order, installing the export into an empty project commits exactly if every signature
      is trusted (with no key named, all are), and then locks the same closure. */
  lemma ImportReproduces(
    s: Store, root: Name, packs: seq<Pack>, ordered: seq<Pack>, trusted: set<string>,
    contentOf: string -> Pack, satisfies: Check)
    requires ValidLock(s.lock) && WellNamed(s.lock) && Backed(s, contentOf, satisfies) && root in s.lock.packages
    requires Exports(s, root, packs) && InstallOrder(packs, root, ordered)
    ensures var copy := InstallBundle(Store(EMPTY_LOCK, map[]), ordered, root, trusted, satisfies);
            && (copy.Some? <==> AllTrusted(packs, trusted))
            && (copy.Some? ==> SameClosure(s.lock, copy.value.lock, root))
  {
    OrderedIsAllCopyable(s, root, packs, ordered, contentOf, satisfies);
    OrderedNames(s, root, packs, ordered);
    OrderedTrust(packs, root, ordered, trusted);
    CopiesCommit(s, root, ordered, trusted, contentOf, satisfies);
  }

  lemma OrderedTrust(packs: seq<Pack>, root: Name, ordered: seq<Pack>, trusted: set<string>)
    requires DistinctNames(packs) && InstallOrder(packs, root, ordered)
    ensures AllTrusted(packs, trusted) <==> AllTrusted(ordered, trusted)
  {
    forall p ensures p in packs <==> p in ordered { SamePack(packs, root, ordered, p); }
  }

  lemma SamePack(packs: seq<Pack>, root: Name, ordered: seq<Pack>, p: Pack)
    requires DistinctNames(packs) && InstallOrder(packs, root, ordered)
    ensures p in packs <==> p in ordered
  {
    var m := ByName(packs);
    if p in ordered {
      var i :| 0 <= i < |ordered| && ordered[i] == p;
      assert m[p.name] in packs;
    }
    if p in packs {
      OnlyOfItsName(packs, p);
      assert p.name in NamesOf(ordered);
      var i :| 0 <= i < |ordered| && NamesOf(ordered)[i] == p.name;
      assert ordered[i] == m[p.name];
    }
  }

  lemma OnlyOfItsName(packs: seq<Pack>, p: Pack)
    requires DistinctNames(packs) && p in packs
    ensures p.name in ByName(packs) && ByName(packs)[p.name] == p
  {
    var m := ByName(packs);
    var k :| 0 <= k < |packs| && packs[k] == p;
    assert p.name in m && m[p.name] in packs;
    var j :| 0 <= j < |packs| && packs[j] == m[p.name];
  }

  ghost predicate AllCopyable(s: Store, ordered: seq<Pack>, contentOf: string -> Pack, satisfies: Check) {
    forall i {:trigger CopyableAt(s, ordered, i, contentOf, satisfies)} | 0 <= i < |ordered| ::
      CopyableAt(s, ordered, i, contentOf, satisfies)
  }

  ghost predicate CopyableAt(s: Store, ordered: seq<Pack>, i: nat, contentOf: string -> Pack, satisfies: Check)
    requires i < |ordered|
  {
    Copyable(s, ordered[i], NamesOf(ordered)[..i], contentOf, satisfies)
  }

  lemma OrderedIsAllCopyable(
    s: Store, root: Name, packs: seq<Pack>, ordered: seq<Pack>, contentOf: string -> Pack, satisfies: Check)
    requires ValidLock(s.lock) && WellNamed(s.lock) && Backed(s, contentOf, satisfies) && Exports(s, root, packs)
    requires InstallOrder(packs, root, ordered)
    ensures AllCopyable(s, ordered, contentOf, satisfies)
  {
    forall i | 0 <= i < |ordered| ensures CopyableAt(s, ordered, i, contentOf, satisfies) {
      OrderedIsCopyable(s, root, packs, ordered, i, contentOf, satisfies);
    }
  }

  lemma CopiesCommit(
    s: Store, root: Name, ordered: seq<Pack>, trusted: set<string>, contentOf: string -> Pack, satisfies: Check)
    requires ValidLock(s.lock) && WellNamed(s.lock) && root in s.lock.packages
    requires AllCopyable(s, ordered, contentOf, satisfies)
    requires forall n :: n in NamesOf(ordered) <==> n in Closure(GraphOf(s.lock.packages), root)
    ensures var copy := InstallBundle(Store(EMPTY_LOCK, map[]), ordered, root, trusted, satisfies);
            && (copy.Some? <==> AllTrusted(ordered, trusted))
            && (copy.Some? ==> SameClosure(s.lock, copy.value.lock, root))
  {
    LockAllCopies(s, ordered, |ordered|, trusted, contentOf, satisfies);
    assert ordered[..|ordered|] == ordered;
    var locked := LockAll(Store(EMPTY_LOCK, map[]), ordered, trusted, satisfies);
    if locked.Some? { CopiedIsClosure(s, root, NamesOf(ordered), locked.value, contentOf); }
  }

  lemma CopiedIsClosure(s: Store, root: Name, names: seq<Name>, working: Store, contentOf: string -> Pack)
    requires ValidLock(s.lock) && root in s.lock.packages
    requires CopiedSoFar(s, names[..|names|], working, contentOf)
    requires forall n :: n in names <==> n in Closure(GraphOf(s.lock.packages), root)
    ensures var next := working.lock.(roots := working.lock.roots + {root});
            ValidLock(next) && SameClosure(s.lock, next, root)
  {
    assert names[..|names|] == names;
    assert working.lock.packages.Keys == Closure(GraphOf(s.lock.packages), root);
    CopyIsValid(s, root, working.lock.packages);
    assert working.lock.(roots := working.lock.roots + {root}) == Lock({root}, working.lock.packages);
  }

  lemma OrderedNames(s: Store, root: Name, packs: seq<Pack>, ordered: seq<Pack>)
    requires Exports(s, root, packs) && InstallOrder(packs, root, ordered)
    ensures forall n :: n in NamesOf(ordered) <==> n in Closure(GraphOf(s.lock.packages), root)
  {
    ExportedByName(s, root, packs);
    OrderedMembers(packs, root, ordered);
  }

  lemma OrderedMembers(packs: seq<Pack>, root: Name, ordered: seq<Pack>)
    requires InstallOrder(packs, root, ordered)
    ensures forall n :: n in NamesOf(ordered) <==> n in ByName(packs)
  {
    var names := NamesOf(ordered);
    forall n | n in names ensures n in ByName(packs) {
      var i :| 0 <= i < |names| && names[i] == n;
      assert ordered[i].name == n;
    }
  }

  // ---- when a bundle can be exported ----

  /** A lock built by the operations passes every check of the export but the one for Lesson ids. */
  lemma BackedExportsExactly(s: Store, local: set<string>, root: Name, contentOf: string -> Pack, satisfies: Check)
    requires ValidLock(s.lock) && Backed(s, contentOf, satisfies)
    ensures Exportable(s, local, root)
       <==> && root in s.lock.packages
            && LessonsApart(s, local)
            && |Closure(GraphOf(s.lock.packages), root)| <= MAX_BUNDLE_PACKS
  {
    forall n | n in s.lock.packages ensures CacheMatches(s, n) {
      assert BackedEntry(s, n, satisfies);
    }
  }

  /** Over every run: an export goes through exactly if no Lesson id is provided twice in the whole project, and
      the closure is not too large. Installs do not look at Lesson ids of other packs. */
  lemma RunExportsExactly(ops: seq<Op>, local: set<string>, root: Name, contentOf: string -> Pack, satisfies: Check)
    requires forall i | 0 <= i < |ops| :: WellFormed(ops[i]) && Genuine(ops[i], contentOf)
    ensures var s := Run(Store(EMPTY_LOCK, map[]), ops, satisfies);
            && (Exportable(s, local, root) <==>
                  && root in s.lock.packages
                  && LessonsApart(s, local)
                  && |Closure(GraphOf(s.lock.packages), root)| <= MAX_BUNDLE_PACKS)
  {
    RunKeepsValid(ops, satisfies);
    RunKeepsBacked(ops, contentOf, satisfies);
    BackedExportsExactly(Run(Store(EMPTY_LOCK, map[]), ops, satisfies), local, root, contentOf, satisfies);
  }

  /** The whole trip of a lock built by the operations: when it can be exported, when the bundle is accepted, when
      its import commits, and that the import reproduces the closure, ready to be exported again. */
  lemma BundleRoundTrip(
    s: Store, local: set<string>, root: Name, packs: seq<Pack>, trusted: set<string>,
    contentOf: string -> Pack, satisfies: Check, strict: Check)
    requires ValidLock(s.lock) && WellNamed(s.lock) && Backed(s, contentOf, satisfies) && root in s.lock.packages
    requires Exports(s, root, packs)
    ensures Exportable(s, local, root) <==>
              LessonsApart(s, local) && |Closure(GraphOf(s.lock.packages), root)| <= MAX_BUNDLE_PACKS
    ensures VerifiableBundle(packs, root, strict) <==> StrictlySatisfied(s, root, strict)
    ensures forall ordered | InstallOrder(packs, root, ordered) ::
              var copy := InstallBundle(Store(EMPTY_LOCK, map[]), ordered, root, trusted, satisfies);
              && (copy.Some? <==> AllTrusted(packs, trusted))
              && (copy.Some? ==> SameClosure(s.lock, copy.value.lock, root))
              && (copy.Some? && Exportable(s, local, root) ==> Exportable(copy.value, {}, root))
    ensures (forall v, r :: satisfies(v, r) ==> strict(v, r)) ==> VerifiableBundle(packs, root, strict)
  {
    BackedExportsExactly(s, local, root, contentOf, satisfies);
    ExportVerifiesExactly(s, root, packs, contentOf, satisfies, strict);
    forall ordered | InstallOrder(packs, root, ordered)
      ensures var copy := InstallBundle(Store(EMPTY_LOCK, map[]), ordered, root, trusted, satisfies);
              && (copy.Some? <==> AllTrusted(packs, trusted))
              && (copy.Some? ==> SameClosure(s.lock, copy.value.lock, root))
              && (copy.Some? && Exportable(s, local, root) ==> Exportable(copy.value, {}, root))
    {
      ImportReproduces(s, root, packs, ordered, trusted, contentOf, satisfies);
      if InstallBundle(Store(EMPTY_LOCK, map[]), ordered, root, trusted, satisfies).Some? && Exportable(s, local, root) {
        CopyExports(s, local, root, packs, ordered, trusted, contentOf, satisfies);
      }
    }
    if forall v, r :: satisfies(v, r) ==> strict(v, r) { AlwaysStrict(s, root, contentOf, satisfies, strict); }
  }

  lemma AlwaysStrict(s: Store, root: Name, contentOf: string -> Pack, satisfies: Check, strict: Check)
    requires ValidLock(s.lock) && Backed(s, contentOf, satisfies) && root in s.lock.packages
    requires forall v, r :: satisfies(v, r) ==> strict(v, r)
    ensures StrictlySatisfied(s, root, strict)
  {
    forall n, d | n in Closure(GraphOf(s.lock.packages), root) && d in s.lock.packages[n].deps
      ensures StrictEdge(s, n, d, strict)
    {
      assert BackedEntry(s, n, satisfies);
    }
  }

  /** The imported copy can be exported again from a project without Lessons of its own. */
  lemma CopyExports(
    s: Store, local: set<string>, root: Name, packs: seq<Pack>, ordered: seq<Pack>, trusted: set<string>,
    contentOf: string -> Pack, satisfies: Check)
    requires ValidLock(s.lock) && WellNamed(s.lock) && Backed(s, contentOf, satisfies) && Exportable(s, local, root)
    requires Exports(s, root, packs) && InstallOrder(packs, root, ordered)
    requires InstallBundle(Store(EMPTY_LOCK, map[]), ordered, root, trusted, satisfies).Some?
    ensures Exportable(InstallBundle(Store(EMPTY_LOCK, map[]), ordered, root, trusted, satisfies).value, {}, root)
  {
    var copy := InstallBundle(Store(EMPTY_LOCK, map[]), ordered, root, trusted, satisfies).value;
    OrderedIsAllCopyable(s, root, packs, ordered, contentOf, satisfies);
    forall i | 0 <= i < |ordered| ensures contentOf(ordered[i].digest) == ordered[i] {
      assert CopyableAt(s, ordered, i, contentOf, satisfies);
    }
    StepKeepsBacked(Store(EMPTY_LOCK, map[]), InstallClosure(ordered, root, trusted), contentOf, satisfies);
    ImportReproduces(s, root, packs, ordered, trusted, contentOf, satisfies);
    CopyLessons(s, local, root, copy, contentOf, satisfies);
    CopyClosure(s, root, copy);
    BackedExportsExactly(copy, {}, root, contentOf, satisfies);
  }

  lemma CopyLessons(s: Store, local: set<string>, root: Name, copy: Store, contentOf: string -> Pack, satisfies: Check)
    requires ValidLock(s.lock) && root in s.lock.packages && Backed(s, contentOf, satisfies) && LessonsApart(s, local)
    requires Backed(copy, contentOf, satisfies) && SameClosure(s.lock, copy.lock, root)
    ensures LessonsApart(copy, {})
  {
    forall m, n | m in copy.lock.packages && n in copy.lock.packages && m != n ensures Apart(copy, m, n) {
      assert BackedEntry(copy, m, satisfies) && BackedEntry(copy, n, satisfies);
      assert BackedEntry(s, m, satisfies) && BackedEntry(s, n, satisfies);
      assert Apart(s, m, n);
    }
  }

  lemma CopyClosure(s: Store, root: Name, copy: Store)
    requires ValidLock(s.lock) && root in s.lock.packages && SameClosure(s.lock, copy.lock, root)
    ensures root in copy.lock.packages
    ensures Closure(GraphOf(copy.lock.packages), root) == Closure(GraphOf(s.lock.packages), root)
  {
    var g, h := GraphOf(s.lock.packages), GraphOf(copy.lock.packages);
    ReachesSelf(g, root);
    forall n | n in h ensures Reaches(h, root, n) { ReachesWithinClosure(g, h, root, n); }
    assert Closure(h, root) == h.Keys;
  }

  // ---- a Lesson id provided twice ----

  const HOST: Source := Registry("https://registry.example", None)
  const LEFT := Pack("left", "1.0.0", "left-integrity", "left-digest", Unverified, map[], {"no-eval"}, true)
  const RIGHT := Pack("right", "1.0.0", "right-integrity", "right-digest", Unverified, map[], {"no-eval"}, true)
  const LEFT_ENTRY := Entry("1.0.0", "left-integrity", "left-digest", HOST, Unverified, map[])
  const RIGHT_ENTRY := Entry("1.0.0", "right-integrity", "right-digest", HOST, Unverified, map[])
  const LEFT_LOCKED := Store(Lock({"left"}, map["left" := LEFT_ENTRY]), map["left-digest" := LEFT])
  const BOTH_LOCKED :=
    Store(Lock({"left", "right"}, map["left" := LEFT_ENTRY, "right" := RIGHT_ENTRY]),
          map["left-digest" := LEFT, "right-digest" := RIGHT])

  lemma LeafInstalls(s: Store, pack: Pack, source: Source, satisfies: Check)
    requires ValidLock(s.lock) && pack.ranges == map[] && pack.name !in s.lock.packages && pack.digest !in s.cache
    requires IsPackName(pack.name) && forall n | n in s.lock.packages :: pack.name !in s.lock.packages[n].deps
    ensures InstallOne(s, pack, source, {}, satisfies) == Some(Store(
              Lock(s.lock.roots + {pack.name},
                   s.lock.packages[pack.name := Entry(pack.version, pack.integrity, pack.digest, source, pack.signature, map[])]),
              s.cache[pack.digest := pack]))
  {
    assert Pins(pack, s.lock.packages) == map[];
    InstallCommitsExactly(s, pack, source, {}, satisfies);
  }

  lemma LeftInstalls(satisfies: Check)
    ensures InstallOne(Store(EMPTY_LOCK, map[]), LEFT, HOST, {}, satisfies) == Some(LEFT_LOCKED)
    ensures ValidLock(LEFT_LOCKED.lock)
  {
    EmptyIsValid();
    assert IsPackName("left");
    LeafInstalls(Store(EMPTY_LOCK, map[]), LEFT, HOST, satisfies);
    assert LEFT_LOCKED.lock.packages == map[][LEFT.name := LEFT_ENTRY];
    assert LEFT_LOCKED.lock.roots == {} + {LEFT.name};
  }

  lemma RightInstalls(satisfies: Check)
    requires ValidLock(LEFT_LOCKED.lock)
    ensures InstallOne(LEFT_LOCKED, RIGHT, HOST, {}, satisfies) == Some(BOTH_LOCKED)
  {
    assert IsPackName("right");
    assert "left"[0] != "right"[0] && "left-digest"[0] != "right-digest"[0];
    LeafInstalls(LEFT_LOCKED, RIGHT, HOST, satisfies);
    assert BOTH_LOCKED.lock.packages == LEFT_LOCKED.lock.packages[RIGHT.name := RIGHT_ENTRY];
    assert BOTH_LOCKED.lock.roots == LEFT_LOCKED.lock.roots + {RIGHT.name};
  }

  /** Two installs that commit, after which no bundle can be exported, of either pack. */
  lemma SharedLessonBlocksExport(local: set<string>, root: Name, satisfies: Check)
    ensures Run(Store(EMPTY_LOCK, map[]), [Install(LEFT, HOST, {}), Install(RIGHT, HOST, {})], satisfies) == BOTH_LOCKED
    ensures ValidLock(BOTH_LOCKED.lock) && forall n | n in BOTH_LOCKED.lock.packages :: CacheMatches(BOTH_LOCKED, n)
    ensures !Exportable(BOTH_LOCKED, local, root)
  {
    LeftInstalls(satisfies);
    RightInstalls(satisfies);
    var ops := [Install(LEFT, HOST, {}), Install(RIGHT, HOST, {})];
    TwoInstalls(ops, LEFT_LOCKED, BOTH_LOCKED, satisfies);
    StepKeeps(LEFT_LOCKED, ops[1], satisfies);
    BothShare(local, root);
  }

  lemma BothShare(local: set<string>, root: Name)
    ensures forall n | n in BOTH_LOCKED.lock.packages :: CacheMatches(BOTH_LOCKED, n)
    ensures !Exportable(BOTH_LOCKED, local, root)
  {
    assert "left"[0] != "right"[0] && "left-digest"[0] != "right-digest"[0];
    assert "no-eval" in LessonsOf(BOTH_LOCKED, "left") && "no-eval" in LessonsOf(BOTH_LOCKED, "right");
    assert !Apart(BOTH_LOCKED, "left", "right");
  }

  lemma TwoInstalls(ops: seq<Op>, first: Store, second: Store, satisfies: Check)
    requires |ops| == 2
    requires Apply(Store(EMPTY_LOCK, map[]), ops[0], satisfies) == Some(first)
    requires Apply(first, ops[1], satisfies) == Some(second)
    ensures Run(Store(EMPTY_LOCK, map[]), ops, satisfies) == second
  {
    assert ops[..1] == [ops[0]] && ops[..1][..0] == [];
    assert Run(Store(EMPTY_LOCK, map[]), [], satisfies) == Store(EMPTY_LOCK, map[]);
    assert Run(Store(EMPTY_LOCK, map[]), ops[..1], satisfies) == first;
  }

  // ---- a closure that exports but does not import ----

  const LIB := Pack("lib", "1.0.0-beta", "lib-integrity", "lib-digest", Unverified, map[], {"lib-lesson"}, true)
  const APP :=
    Pack("app", "1.0.0", "app-integrity", "app-digest", Unverified, map["lib" := "*"], {"app-lesson"}, true)

  /** The two `satisfies` calls on the range `*`: every version, and every version that is no prerelease. */
  predicate AnyVersion(version: string, range: string) { true }

  predicate AnyStableVersion(version: string, range: string) { '-' !in version }

  const LIB_ENTRY := Entry("1.0.0-beta", "lib-integrity", "lib-digest", Airgap, Unverified, map[])
  const APP_ENTRY := Entry("1.0.0", "app-integrity", "app-digest", Airgap, Unverified, map["lib" := "1.0.0-beta"])
  const LIB_LOCKED := Store(Lock({"lib"}, map["lib" := LIB_ENTRY]), map["lib-digest" := LIB])
  const APP_LOCKED :=
    Store(Lock({"lib", "app"}, map["lib" := LIB_ENTRY, "app" := APP_ENTRY]), map["lib-digest" := LIB, "app-digest" := APP])

  lemma LibInstalls()
    ensures InstallOne(Store(EMPTY_LOCK, map[]), LIB, Airgap, {}, AnyVersion) == Some(LIB_LOCKED)
    ensures ValidLock(LIB_LOCKED.lock)
  {
    EmptyIsValid();
    assert IsPackName("lib");
    LeafInstalls(Store(EMPTY_LOCK, map[]), LIB, Airgap, AnyVersion);
    assert LIB_LOCKED.lock.packages == map[][LIB.name := LIB_ENTRY];
    assert LIB_LOCKED.lock.roots == {} + {LIB.name};
  }

  lemma AppDoesNotDependBack()
    ensures !DependsBack(LIB_LOCKED.lock, APP)
  {
    var g := GraphOf(LIB_LOCKED.lock.packages);
    if Reaches(g, "lib", "app") {
      var d := FirstEdge(g, "lib", "app");
    }
    assert APP.ranges.Keys == {"lib"};
  }

  lemma AppPins()
    ensures Pins(APP, LIB_LOCKED.lock.packages) == map["lib" := "1.0.0-beta"]
    ensures NamesOk(APP)
  {
    assert IsPackName("app") && IsPackName("lib");
  }

  lemma AppWrites()
    ensures var s := WithEntry(LIB_LOCKED, APP, Airgap, {});
            s.lock.packages == APP_LOCKED.lock.packages && s.cache == APP_LOCKED.cache
            && s.lock.roots + {APP.name} == APP_LOCKED.lock.roots
  {
    AppPins();
  }

  lemma AppInstalls()
    requires ValidLock(LIB_LOCKED.lock)
    ensures InstallOne(LIB_LOCKED, APP, Airgap, {}, AnyVersion) == Some(APP_LOCKED)
  {
    AppDoesNotDependBack();
    AppPins();
    AppWrites();
    InstallCommitsExactly(LIB_LOCKED, APP, Airgap, {}, AnyVersion);
  }

  /** With a prerelease locked below it, a pack installs, and every bundle exported from it is refused. */
  lemma PrereleaseClosureIsRefused(packs: seq<Pack>)
    ensures Run(Store(EMPTY_LOCK, map[]), [Install(LIB, Airgap, {}), Install(APP, Airgap, {})], AnyVersion) == APP_LOCKED
    ensures Exports(APP_LOCKED, "app", packs) ==> !VerifiableBundle(packs, "app", AnyStableVersion)
  {
    LibInstalls();
    AppInstalls();
    TwoInstalls([Install(LIB, Airgap, {}), Install(APP, Airgap, {})], LIB_LOCKED, APP_LOCKED, AnyVersion);
    if Exports(APP_LOCKED, "app", packs) {
      var g := GraphOf(APP_LOCKED.lock.packages);
      ReachesSelf(g, "app");
      assert Edge(g, "app", "lib");
      ReachesEdge(g, "app", "app", "lib");
      ExportedByName(APP_LOCKED, "app", packs);
      RefusedGraph(ByName(packs));
    }
  }

  lemma RefusedGraph(m: map<Name, Pack>)
    requires "app" in m && m["app"] == APP && "lib" in m && m["lib"] == LIB
    ensures !EdgesMet(GraphOfPacks(m), AnyStableVersion)
  {
    assert LIB.version[5] == '-';
    assert Edge(GraphOfPacks(m), "app", "lib");
  }
}
