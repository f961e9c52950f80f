/** Installing a verified bundle into a project: exactly when it commits. */
module BundleInstall {
  import opened Wrappers
  import opened Graph
  import opened PackLock
  import opened PackSteps
  import opened Bundle

  // ---- a closed graph laid over a valid one ----

  /** Who stays and depends on a node of `h` accepts its version there. */
  ghost predicate OthersAccept(g: Graph, h: Graph, check: Check) {
    forall a, d {:trigger Edge(g, a, d)} | a !in h && Edge(g, a, d) && d in h :: check(h[d].version, g[a].deps[d])
  }

  ghost predicate KeptBy(g: Graph, h: Graph, d: Name) { exists n :: n !in h && Edge(g, n, d) }

  /** What the replaced nodes alone depended on is a root. */
  ghost predicate NoneOrphaned(g: Graph, h: Graph, roots: set<Name>) {
    forall a, d {:trigger Edge(g, a, d)} | a in h && Edge(g, a, d) && d !in h && d !in roots :: KeptBy(g, h, d)
  }

  /** A path that has come to the closed graph stays there. */
  lemma {:induction false} PathStaysIn(g: Graph, h: Graph, p: seq<Name>, i: nat)
    requires (forall a, b | Edge(h, a, b) :: b in h) && IsPath(g + h, p) && p[0] in h && i < |p|
    ensures p[i] in h
  {
    if i > 0 {
      PathStaysIn(g, h, p, i - 1);
      assert Edge(g + h, p[i - 1], p[i]);
      assert Edge(h, p[i - 1], p[i]);
    }
  }

  /** A cycle runs in one of the two graphs. */
  lemma CycleStaysApart(g: Graph, h: Graph, n: Name)
    requires OnCycle(g + h, n) && forall a, b | Edge(h, a, b) :: b in h
    ensures OnCycle(if n in h then h else g, n)
  {
    var p :| IsPath(g + h, p) && |p| > 1 && p[0] == n && p[|p| - 1] == n;
    var side := if n in h then h else g;
    forall i | 0 <= i < |p| - 1 ensures Edge(side, p[i], p[i + 1]) {
      assert Edge(g + h, p[i], p[i + 1]);
      if n in h {
        PathStaysIn(g, h, p, i);
      } else if p[i] in h {
        PathSlice(g + h, p, i, |p|);
        PathStaysIn(g, h, p[i..], |p| - 1 - i);
      }
    }
    assert IsPath(side, p);
  }

  lemma OverlayEdges(g: Graph, h: Graph, check: Check)
    requires EdgesMet(g, check) && EdgesMet(h, check)
    ensures EdgesMet(g + h, check) <==> OthersAccept(g, h, check)
  {
    if OthersAccept(g, h, check) {
      forall a, b | Edge(g + h, a, b) ensures EdgeMet(g + h, check, a, b) {
        if a in h { assert Edge(h, a, b); } else { assert Edge(g, a, b); }
      }
    }
    if EdgesMet(g + h, check) {
      forall a, d | a !in h && Edge(g, a, d) && d in h ensures check(h[d].version, g[a].deps[d]) {
        assert Edge(g + h, a, d);
      }
    }
  }

  lemma OverlayRooted(g: Graph, h: Graph, roots: set<Name>, root: Name)
    requires AllReached(g, roots) && AllReached(h, {root}) && NoneOrphaned(g, h, roots)
    ensures RootsOrDependents(g + h, roots + {root})
  {
    forall m | m in g + h && m !in roots + {root} ensures HasDependent(g + h, m) {
      if m in h {
        assert ReachedFrom(h, {root}, m);
        var a := Predecessor(h, {root}, m);
        assert Edge(g + h, a, m);
      } else {
        assert ReachedFrom(g, roots, m);
        var a := Predecessor(g, roots, m);
        if a in h {
          assert KeptBy(g, h, m);
          a :| a !in h && Edge(g, a, m);
        }
        assert Edge(g + h, a, m);
      }
    }
  }

  lemma OverlayOrphans(g: Graph, h: Graph, roots: set<Name>, root: Name)
    requires AllReached(g + h, roots + {root}) && root in h
    requires (forall a, b | Edge(g, a, b) :: b in g) && (forall a, b | Edge(h, a, b) :: b in h)
    ensures NoneOrphaned(g, h, roots)
  {
    forall a, d | a in h && Edge(g, a, d) && d !in h && d !in roots ensures KeptBy(g, h, d) {
      assert ReachedFrom(g + h, roots + {root}, d);
      var x := Predecessor(g + h, roots + {root}, d);
      assert x in h ==> Edge(h, x, d);
      assert Edge(g, x, d);
    }
  }

  /** Laying the closed graph below `root` over a valid graph gives a valid one exactly if whoever stays accepts the
      new versions and nothing is orphaned; a cycle cannot arise. */
  lemma OverlayGraph(g: Graph, h: Graph, roots: set<Name>, root: Name, check: Check)
    requires ValidGraph(g, roots, check) && ValidGraph(h, {root}, check)
    ensures ValidGraph(g + h, roots + {root}, check) <==> OthersAccept(g, h, check) && NoneOrphaned(g, h, roots)
  {
    OverlayEdges(g, h, check);
    forall a, b | Edge(g, a, b) ensures b in g { assert EdgeMet(g, check, a, b); }
    forall a, b | Edge(h, a, b) ensures b in h { assert EdgeMet(h, check, a, b); }
    forall n ensures !OnCycle(g + h, n) {
      if OnCycle(g + h, n) { CycleStaysApart(g, h, n); }
    }
    if NoneOrphaned(g, h, roots) {
      OverlayRooted(g, h, roots, root);
      RootedByDependents(g + h, roots + {root});
    }
    if AllReached(g + h, roots + {root}) { OverlayOrphans(g, h, roots, root); }
  }

  // ---- the packs of a bundle, one by one ----

  /** The bundle as it will be locked: every dependency pinned to the version that the bundle has. */
  function PinnedGraph(m: map<Name, Pack>): (h: Graph)
    ensures h.Keys == m.Keys
    ensures forall n | n in m :: h[n] == Node(m[n].version, PinsIn(m, m[n]))
  {
    map n | n in m :: Node(m[n].version, PinsIn(m, m[n]))
  }

  function PinsIn(m: map<Name, Pack>, p: Pack): map<Name, string> {
    map d | d in p.ranges && d in m :: m[d].version
  }

  lemma PinnedEdges(m: map<Name, Pack>, strict: Check)
    requires EdgesMet(GraphOfPacks(m), strict)
    ensures forall a, b :: Edge(PinnedGraph(m), a, b) <==> Edge(GraphOfPacks(m), a, b)
    ensures EdgesMet(PinnedGraph(m), Pinned)
  {
    forall a, b | Edge(GraphOfPacks(m), a, b) ensures b in m { assert EdgeMet(GraphOfPacks(m), strict, a, b); }
  }

  /** Paths, and so cycles and what is reached, are a matter of edges. */
  lemma SameEdgesReach(g: Graph, h: Graph, roots: set<Name>, n: Name)
    requires (forall a, b :: Edge(h, a, b) <==> Edge(g, a, b)) && ReachedFrom(g, roots, n)
    ensures ReachedFrom(h, roots, n)
  {
    var r :| r in roots && Reaches(g, r, n);
    var p :| IsPath(g, p) && p[0] == r && p[|p| - 1] == n;
    assert IsPath(h, p);
    assert Reaches(h, r, n);
  }

  lemma PinnedIsValid(m: map<Name, Pack>, root: Name, strict: Check)
    requires ValidGraph(GraphOfPacks(m), {root}, strict)
    ensures ValidGraph(PinnedGraph(m), {root}, Pinned)
  {
    var g, h := GraphOfPacks(m), PinnedGraph(m);
    PinnedEdges(m, strict);
    forall n ensures !OnCycle(h, n) {
      if OnCycle(h, n) { CycleSubgraph(g, h, n); }
    }
    forall n | n in h ensures ReachedFrom(h, {root}, n) {
      assert ReachedFrom(g, {root}, n);
      SameEdgesReach(g, h, {root}, n);
    }
  }

  /** The cache once the packs have been put into it. */
  function CacheAfter(cache: map<string, Pack>, packs: seq<Pack>): map<string, Pack>
    decreases |packs|
  {
    if |packs| == 0 then cache else
    var before, p := CacheAfter(cache, packs[..|packs| - 1]), packs[|packs| - 1];
    if p.digest in before then before else before[p.digest := p]
  }

  /** What is checked of the `i`-th pack, beyond its being in the bundle. */
  predicate Fits(s: Store, m: map<Name, Pack>, ordered: seq<Pack>, i: nat, trusted: set<string>, satisfies: Check)
    requires i < |ordered|
  {
    var p, cache := ordered[i], CacheAfter(s.cache, ordered[..i]);
    && IsPackName(p.name) && (forall d | d in p.ranges :: IsPackName(d))
    && IsTrusted(p.signature, trusted)
    && (p.name in s.lock.packages && s.lock.packages[p.name].version == p.version ==>
          s.lock.packages[p.name].integrity == p.integrity)
    && (p.digest in cache ==>
          && cache[p.digest].integrity == p.integrity && cache[p.digest].digest == p.digest
          && cache[p.digest].isPublic == p.isPublic)
    && forall d | d in p.ranges && d in m :: satisfies(m[d].version, p.ranges[d])
  }

  /** Every dependency of a pack is an earlier pack of the list, and no name comes twice. */
  ghost predicate Ordered(m: map<Name, Pack>, ordered: seq<Pack>) {
    && (forall i | 0 <= i < |ordered| :: ordered[i].name in m && ordered[i] == m[ordered[i].name])
    && (forall i, j | 0 <= i < j < |ordered| :: ordered[i].name != ordered[j].name)
    && (forall i | 0 <= i < |ordered| :: forall d | d in ordered[i].ranges :: d in NamesOf(ordered[..i]))
  }

  /** The entry of a pack of the bundle. */
  predicate IsEntryOf(e: Entry, m: map<Name, Pack>, p: Pack, trusted: set<string>) {
    && IsTrusted(p.signature, trusted)
    && e == Entry(
         p.version, p.integrity, p.digest, Airgap, RecordedSignature(p.signature, trusted),
         map d | d in p.ranges && d in m :: m[d].version)
  }

  /** The entry of a pack that has been laid, or the entry as it was. */
  predicate LaidAt(
    before: map<Name, Entry>, m: map<Name, Pack>, names: seq<Name>, trusted: set<string>, after: map<Name, Entry>, n: Name)
  {
    if n in names then n in after && n in m && IsEntryOf(after[n], m, m[n], trusted)
    else (n in after <==> n in before) && (n in before ==> after[n] == before[n])
  }

  /** The working lock after some of the packs: those as the bundle has them, and the rest as it was. */
  ghost predicate Laid(s: Store, m: map<Name, Pack>, done: seq<Pack>, trusted: set<string>, working: Store) {
    && working.lock.roots == s.lock.roots
    && working.cache == CacheAfter(s.cache, done)
    && (forall n :: LaidAt(s.lock.packages, m, NamesOf(done), trusted, working.lock.packages, n))
  }

  /** On what has been laid so far, the dependencies of the next pack are at the versions of the bundle. */
  lemma LaidPins(
    s: Store, m: map<Name, Pack>, ordered: seq<Pack>, i: nat, trusted: set<string>, working: Store)
    requires i < |ordered| && Ordered(m, ordered) && Laid(s, m, ordered[..i], trusted, working)
    ensures forall d | d in ordered[i].ranges ::
              d in m && d in working.lock.packages && working.lock.packages[d].version == m[d].version
    ensures Pins(ordered[i], working.lock.packages) == PinsIn(m, ordered[i])
  {
    forall d | d in ordered[i].ranges
      ensures d in m && d in working.lock.packages && working.lock.packages[d].version == m[d].version
    {
      assert d in NamesOf(ordered[..i]);
      assert LaidAt(s.lock.packages, m, NamesOf(ordered[..i]), trusted, working.lock.packages, d);
    }
  }

  /** The next pack passes exactly if it fits, */
  lemma LayAdmits(
    s: Store, m: map<Name, Pack>, ordered: seq<Pack>, i: nat, working: Store, trusted: set<string>, satisfies: Check)
    requires i < |ordered| && Ordered(m, ordered) && Laid(s, m, ordered[..i], trusted, working)
    ensures Admissible(working, ordered[i], trusted, satisfies) && NamesOk(ordered[i])
       <==> Fits(s, m, ordered, i, trusted, satisfies)
  {
    NameIsNew(m, ordered, i);
    LaidPins(s, m, ordered, i, trusted, working);
    assert LaidAt(s.lock.packages, m, NamesOf(ordered[..i]), trusted, working.lock.packages, ordered[i].name);
    assert ContentChanged(ordered[i], working.lock.packages) <==> ContentChanged(ordered[i], s.lock.packages);
  }

  /** and is laid then. */
  lemma LayWrites(s: Store, m: map<Name, Pack>, ordered: seq<Pack>, i: nat, working: Store, trusted: set<string>)
    requires i < |ordered| && Ordered(m, ordered) && Laid(s, m, ordered[..i], trusted, working)
    requires IsTrusted(ordered[i].signature, trusted)
    ensures Laid(s, m, ordered[..i + 1], trusted, WithEntry(working, ordered[i], Airgap, trusted))
  {
    var next := WithEntry(working, ordered[i], Airgap, trusted);
    LaidPins(s, m, ordered, i, trusted, working);
    NamesAppend(ordered, i);
    CacheAppend(s.cache, ordered, i);
    var done, more := NamesOf(ordered[..i]), NamesOf(ordered[..i + 1]);
    forall n ensures LaidAt(s.lock.packages, m, more, trusted, next.lock.packages, n) {
      assert LaidAt(s.lock.packages, m, done, trusted, working.lock.packages, n);
    }
  }

  lemma CacheAppend(cache: map<string, Pack>, ordered: seq<Pack>, i: nat)
    requires i < |ordered|
    ensures CacheAfter(cache, ordered[..i + 1]) == CachePut(ordered[i], CacheAfter(cache, ordered[..i]))
  {
    assert ordered[..i + 1][..i] == ordered[..i];
  }

  lemma NameIsNew(m: map<Name, Pack>, ordered: seq<Pack>, i: nat)
    requires i < |ordered| && Ordered(m, ordered)
    ensures ordered[i].name !in NamesOf(ordered[..i]) && m[ordered[i].name] == ordered[i]
  {
  }

  lemma NamesAppend(ordered: seq<Pack>, i: nat)
    requires i < |ordered|
    ensures forall n :: n in NamesOf(ordered[..i + 1]) <==> n in NamesOf(ordered[..i]) || n == ordered[i].name
  {
    assert NamesOf(ordered[..i + 1]) == NamesOf(ordered[..i]) + [ordered[i].name];
  }

  /** One round of the loop. */
  lemma LayStep(s: Store, m: map<Name, Pack>, ordered: seq<Pack>, i: nat, trusted: set<string>, satisfies: Check)
    requires i < |ordered| && Ordered(m, ordered)
    requires LaidIf(s, m, ordered[..i], trusted, LockAll(s, ordered[..i], trusted, satisfies))
    ensures LockAll(s, ordered[..i + 1], trusted, satisfies).Some?
       <==> LockAll(s, ordered[..i], trusted, satisfies).Some? && Fits(s, m, ordered, i, trusted, satisfies)
    ensures LaidIf(s, m, ordered[..i + 1], trusted, LockAll(s, ordered[..i + 1], trusted, satisfies))
  {
    var before := LockAll(s, ordered[..i], trusted, satisfies);
    assert ordered[..i + 1][..i] == ordered[..i];
    if before.Some? {
      LayAdmits(s, m, ordered, i, before.value, trusted, satisfies);
      if Fits(s, m, ordered, i, trusted, satisfies) { LayWrites(s, m, ordered, i, before.value, trusted); }
    }
  }

  ghost predicate LaidIf(
    s: Store, m: map<Name, Pack>, done: seq<Pack>, trusted: set<string>, working: Option<Store>)
  {
    working.Some? ==> Laid(s, m, done, trusted, working.value)
  }

  ghost predicate AllFit(
    s: Store, m: map<Name, Pack>, ordered: seq<Pack>, i: nat, trusted: set<string>, satisfies: Check)
    requires i <= |ordered|
  {
    forall j | 0 <= j < i :: Fits(s, m, ordered, j, trusted, satisfies)
  }

  lemma OneMoreFits(s: Store, m: map<Name, Pack>, ordered: seq<Pack>, i: nat, trusted: set<string>, satisfies: Check)
    requires i < |ordered|
    ensures AllFit(s, m, ordered, i + 1, trusted, satisfies)
       <==> AllFit(s, m, ordered, i, trusted, satisfies) && Fits(s, m, ordered, i, trusted, satisfies)
  {
  }

  ghost predicate LaidSoFar(
    s: Store, m: map<Name, Pack>, ordered: seq<Pack>, i: nat, trusted: set<string>, satisfies: Check)
    requires i <= |ordered|
  {
    && (LockAll(s, ordered[..i], trusted, satisfies).Some? <==> AllFit(s, m, ordered, i, trusted, satisfies))
    && LaidIf(s, m, ordered[..i], trusted, LockAll(s, ordered[..i], trusted, satisfies))
  }

  lemma LayNone(s: Store, m: map<Name, Pack>, ordered: seq<Pack>, trusted: set<string>, satisfies: Check)
    ensures LaidSoFar(s, m, ordered, 0, trusted, satisfies)
  {
    assert ordered[..0] == [];
  }

  lemma LayOne(s: Store, m: map<Name, Pack>, ordered: seq<Pack>, i: nat, trusted: set<string>, satisfies: Check)
    requires 0 < i <= |ordered| && Ordered(m, ordered) && LaidSoFar(s, m, ordered, i - 1, trusted, satisfies)
    ensures LaidSoFar(s, m, ordered, i, trusted, satisfies)
  {
    LayStep(s, m, ordered, i - 1, trusted, satisfies);
    OneMoreFits(s, m, ordered, i - 1, trusted, satisfies);
  }

  /** The whole list passes exactly if every pack fits. */
  lemma {:induction false} LayAll(
    s: Store, m: map<Name, Pack>, ordered: seq<Pack>, i: nat, trusted: set<string>, satisfies: Check)
    requires Ordered(m, ordered) && i <= |ordered|
    ensures LaidSoFar(s, m, ordered, i, trusted, satisfies)
  {
    if i == 0 {
      LayNone(s, m, ordered, trusted, satisfies);
    } else {
      LayAll(s, m, ordered, i - 1, trusted, satisfies);
      LayOne(s, m, ordered, i, trusted, satisfies);
    }
  }

  // ---- when a bundle commits ----

  /** Whoever is locked, is not in the bundle and depends on a pack of it pins the version that the bundle has. */
  ghost predicate OthersPin(lock: Lock, m: map<Name, Pack>) {
    forall n, d | n in lock.packages && n !in m && d in lock.packages[n].deps && d in m ::
      lock.packages[n].deps[d] == m[d].version
  }

  ghost predicate NeededOutside(lock: Lock, m: map<Name, Pack>, d: Name) {
    exists n | n in lock.packages :: n !in m && d in lock.packages[n].deps
  }

  /** What the replaced packs depended on and the bundle does not have is a root, or a dependency of a pack outside. */
  ghost predicate NoneDropped(lock: Lock, m: map<Name, Pack>) {
    forall n, d | n in lock.packages && n in m && d in lock.packages[n].deps && d !in m && d !in lock.roots ::
      NeededOutside(lock, m, d)
  }

  /** On a valid lock, a verified bundle commits exactly if each of its packs fits, the locked packs outside pin its
      versions, and no dependency of a replaced pack is orphaned. */
  lemma BundleCommitsExactly(
    s: Store, packs: seq<Pack>, ordered: seq<Pack>, root: Name, trusted: set<string>, satisfies: Check, strict: Check)
    requires ValidLock(s.lock) && VerifiableBundle(packs, root, strict) && InstallOrder(packs, root, ordered)
    ensures InstallBundle(s, ordered, root, trusted, satisfies).Some?
       <==> && AllFit(s, ByName(packs), ordered, |ordered|, trusted, satisfies)
            && OthersPin(s.lock, ByName(packs))
            && NoneDropped(s.lock, ByName(packs))
  {
    var m := ByName(packs);
    InstallOrderIsOrdered(packs, root, ordered);
    LayAll(s, m, ordered, |ordered|, trusted, satisfies);
    assert ordered[..|ordered|] == ordered;
    var locked := LockAll(s, ordered, trusted, satisfies);
    if locked.Some? {
      assert Fits(s, m, ordered, |ordered| - 1, trusted, satisfies);
      LaidIsValid(s, m, ordered, root, trusted, strict, locked.value);
    }
  }

  /** The lock that has been laid is valid, with the root, exactly under the two conditions on the others. */
  lemma LaidIsValid(
    s: Store, m: map<Name, Pack>, ordered: seq<Pack>, root: Name, trusted: set<string>, strict: Check, working: Store)
    requires ValidLock(s.lock) && ValidGraph(GraphOfPacks(m), {root}, strict)
    requires Laid(s, m, ordered, trusted, working) && forall n :: n in NamesOf(ordered) <==> n in m
    ensures ValidLock(working.lock.(roots := working.lock.roots + {root}))
       <==> OthersPin(s.lock, m) && NoneDropped(s.lock, m)
  {
    LaidIsOverlay(s, m, ordered, trusted, working);
    PinnedIsValid(m, root, strict);
    OverlayGraph(GraphOf(s.lock.packages), PinnedGraph(m), s.lock.roots, root, Pinned);
    OverlayInLock(s.lock, m);
  }

  /** What a bundle commits: the root is a root, each pack has its own entry, which pins the versions of the bundle,
      and every other entry stays. */
  lemma BundleWrites(
    s: Store, packs: seq<Pack>, ordered: seq<Pack>, root: Name, trusted: set<string>, satisfies: Check)
    requires InstallOrder(packs, root, ordered) && InstallBundle(s, ordered, root, trusted, satisfies).Some?
    ensures var m, after := ByName(packs), InstallBundle(s, ordered, root, trusted, satisfies).value;
            && after.lock.roots == s.lock.roots + {root}
            && after.lock.packages.Keys == s.lock.packages.Keys + m.Keys
            && (forall n | n in s.lock.packages && n !in m :: after.lock.packages[n] == s.lock.packages[n])
            && (forall n | n in m :: IsEntryOf(after.lock.packages[n], m, m[n], trusted))
            && after.cache == CacheAfter(s.cache, ordered)
  {
    InstallOrderIsOrdered(packs, root, ordered);
    LayAll(s, ByName(packs), ordered, |ordered|, trusted, satisfies);
    assert ordered[..|ordered|] == ordered;
    LaidMeans(s, ByName(packs), ordered, trusted, LockAll(s, ordered, trusted, satisfies).value);
  }

  lemma LaidMeans(s: Store, m: map<Name, Pack>, ordered: seq<Pack>, trusted: set<string>, working: Store)
    requires Laid(s, m, ordered, trusted, working) && forall n :: n in NamesOf(ordered) <==> n in m
    ensures working.lock.packages.Keys == s.lock.packages.Keys + m.Keys
    ensures forall n | n in s.lock.packages && n !in m :: working.lock.packages[n] == s.lock.packages[n]
    ensures forall n | n in m :: IsEntryOf(working.lock.packages[n], m, m[n], trusted)
  {
    forall n
      ensures n in working.lock.packages <==> n in s.lock.packages || n in m
      ensures n in m ==> n in working.lock.packages && IsEntryOf(working.lock.packages[n], m, m[n], trusted)
      ensures n in s.lock.packages && n !in m ==> working.lock.packages[n] == s.lock.packages[n]
    {
      assert LaidAt(s.lock.packages, m, NamesOf(ordered), trusted, working.lock.packages, n);
    }
  }

  lemma InstallOrderIsOrdered(packs: seq<Pack>, root: Name, ordered: seq<Pack>)
    requires InstallOrder(packs, root, ordered)
    ensures Ordered(ByName(packs), ordered)
    ensures forall n :: n in NamesOf(ordered) <==> n in ByName(packs)
  {
    var m, names := ByName(packs), NamesOf(ordered);
    forall i, d | 0 <= i < |ordered| && d in ordered[i].ranges ensures d in NamesOf(ordered[..i]) {
      assert Edge(GraphOfPacks(m), names[i], d);
      assert NamesOf(ordered[..i]) == names[..i];
    }
    forall n | n in names ensures n in m {
      var i :| 0 <= i < |ordered| && names[i] == n;
      assert ordered[i].name in m;
    }
    forall i, j | 0 <= i < j < |ordered| ensures ordered[i].name != ordered[j].name {
      assert names[i] != names[j];
    }
  }

  lemma LaidIsOverlay(s: Store, m: map<Name, Pack>, ordered: seq<Pack>, trusted: set<string>, working: Store)
    requires Laid(s, m, ordered, trusted, working) && forall n :: n in NamesOf(ordered) <==> n in m
    ensures GraphOf(working.lock.packages) == GraphOf(s.lock.packages) + PinnedGraph(m)
  {
    var left, right := GraphOf(working.lock.packages), GraphOf(s.lock.packages) + PinnedGraph(m);
    forall n ensures (n in left <==> n in right) && (n in left ==> left[n] == right[n]) {
      assert LaidAt(s.lock.packages, m, NamesOf(ordered), trusted, working.lock.packages, n);
    }
  }

  lemma OverlayInLock(lock: Lock, m: map<Name, Pack>)
    ensures OthersAccept(GraphOf(lock.packages), PinnedGraph(m), Pinned) <==> OthersPin(lock, m)
    ensures NoneOrphaned(GraphOf(lock.packages), PinnedGraph(m), lock.roots) <==> NoneDropped(lock, m)
  {
    var g, h := GraphOf(lock.packages), PinnedGraph(m);
    forall d ensures KeptBy(g, h, d) <==> NeededOutside(lock, m, d) {
      if NeededOutside(lock, m, d) {
        var n :| n in lock.packages && n !in m && d in lock.packages[n].deps;
        assert Edge(g, n, d);
      }
    }
    if OthersAccept(g, h, Pinned) {
      forall n, d | n in lock.packages && n !in m && d in lock.packages[n].deps && d in m
        ensures lock.packages[n].deps[d] == m[d].version
      {
        assert Edge(g, n, d);
      }
    }
    if NoneOrphaned(g, h, lock.roots) {
      forall n, d | n in lock.packages && n in m && d in lock.packages[n].deps && d !in m && d !in lock.roots
        ensures NeededOutside(lock, m, d)
      {
        assert Edge(g, n, d);
      }
    }
  }
}
