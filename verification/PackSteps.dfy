/** The lockfile mutations: what each one commits, exactly when it commits, and what every run keeps. */
module PackSteps {
  import opened Wrappers
  import opened Graph
  import opened PackLock

  // ---- one pack ----

  /** `semver.satisfies(version, range, { includePrerelease: true })` for every dependency. */
  predicate Resolvable(pack: Pack, packages: map<Name, Entry>, satisfies: Check) {
    forall d | d in pack.ranges :: d in packages && satisfies(packages[d].version, pack.ranges[d])
  }

  function Pins(pack: Pack, packages: map<Name, Entry>): map<Name, string> {
    map d | d in pack.ranges && d in packages :: packages[d].version
  }

  /** `resolveSignatureTrust` */
  function TrustedSignature(signature: Signature, trusted: set<string>): Option<Signature> {
    if trusted == {} then Some(signature)
    else if signature.Verified? && signature.keyId in trusted then Some(signature.(explicitKey := true))
    else None
  }

  predicate ContentChanged(pack: Pack, packages: map<Name, Entry>) {
    && pack.name in packages
    && packages[pack.name].version == pack.version
    && packages[pack.name].integrity != pack.integrity
  }

  predicate CacheAccepts(pack: Pack, cache: map<string, Pack>) {
    pack.digest in cache ==>
      && cache[pack.digest].integrity == pack.integrity
      && cache[pack.digest].digest == pack.digest
      && cache[pack.digest].isPublic == pack.isPublic
  }

  function CachePut(pack: Pack, cache: map<string, Pack>): map<string, Pack> {
    if pack.digest in cache then cache else cache[pack.digest := pack]
  }

  /** The checks that come before a lock entry is written. */
  predicate Admissible(s: Store, pack: Pack, trusted: set<string>, satisfies: Check) {
    && Resolvable(pack, s.lock.packages, satisfies)
    && TrustedSignature(pack.signature, trusted).Some?
    && !ContentChanged(pack, s.lock.packages)
    && CacheAccepts(pack, s.cache)
  }

  /** Names that `PackLockSchema` accepts in the entry of the pack. */
  predicate NamesOk(pack: Pack) { IsPackName(pack.name) && forall d | d in pack.ranges :: IsPackName(d) }

  /** Writing the entry of an admissible pack. */
  function WithEntry(s: Store, pack: Pack, source: Source, trusted: set<string>): (s': Store)
    requires TrustedSignature(pack.signature, trusted).Some?
  {
    var entry := Entry(
      pack.version, pack.integrity, pack.digest, source,
      TrustedSignature(pack.signature, trusted).value, Pins(pack, s.lock.packages));
    Store(s.lock.(packages := s.lock.packages[pack.name := entry]), CachePut(pack, s.cache))
  }

  /** `installVerifiedPack`: the store it commits, or nothing. */
  ghost function InstallOne(
    s: Store, pack: Pack, source: Source, trusted: set<string>, satisfies: Check): Option<Store> {
    if !Admissible(s, pack, trusted, satisfies) || !NamesOk(pack) then None else
    var s' := WithEntry(s, pack, source, trusted);
    var next := s'.lock.(roots := s'.lock.roots + {pack.name});
    if ValidLock(next) then Some(s'.(lock := next)) else None
  }

  /** The loop of `installAirgapPackBundle` over `packs`. */
  function LockAll(s: Store, packs: seq<Pack>, trusted: set<string>, satisfies: Check): Option<Store>
    decreases |packs|
  {
    if |packs| == 0 then Some(s) else
    var n := |packs| - 1;
    var before := LockAll(s, packs[..n], trusted, satisfies);
    if before.None? || !Admissible(before.value, packs[n], trusted, satisfies) || !NamesOk(packs[n]) then None
    else Some(WithEntry(before.value, packs[n], Airgap, trusted))
  }

  /** A failure on a prefix of the packs fails the whole list. */
  lemma {:induction false} LockAllPrefix(s: Store, packs: seq<Pack>, i: nat, trusted: set<string>, satisfies: Check)
    requires i <= |packs| && LockAll(s, packs[..i], trusted, satisfies).None?
    ensures LockAll(s, packs, trusted, satisfies).None?
    decreases |packs|
  {
    if i == |packs| {
      assert packs[..i] == packs;
    } else {
      var n := |packs| - 1;
      assert packs[..n][..i] == packs[..i];
      LockAllPrefix(s, packs[..n], i, trusted, satisfies);
    }
  }

  /** `installAirgapPackBundle` */
  ghost function InstallBundle(
    s: Store, packs: seq<Pack>, root: Name, trusted: set<string>, satisfies: Check): Option<Store> {
    var locked := LockAll(s, packs, trusted, satisfies);
    if locked.None? || !IsPackName(root) then None else
    var next := locked.value.lock.(roots := locked.value.lock.roots + {root});
    if ValidLock(next) then Some(locked.value.(lock := next)) else None
  }

  function Without(lock: Lock, name: Name): Lock {
    Lock(lock.roots - {name}, lock.packages - {name})
  }

  predicate RequiredBySomebody(lock: Lock, name: Name) {
    exists n | n in lock.packages :: n != name && name in lock.packages[n].deps
  }

  /** What the search for a dependent finds. */
  predicate DependentFound(lock: Lock, name: Name) {
    exists n | n in lock.packages :: n != name && Mentions(lock.packages[n], name)
  }

  /** `uninstallPack` */
  ghost function Uninstall(lock: Lock, name: Name): Option<Lock> {
    if !IsPackName(name) || !Found(lock.packages, name) || DependentFound(lock, name) then None
    else if ValidLock(Without(lock, name)) then Some(Without(lock, name)) else None
  }

  // ---- exactly when a step commits ----

  /** Every package other than `name` that depends on it pins `version`. */
  ghost predicate PinsAgree(lock: Lock, name: Name, version: string) {
    forall n | n in lock.packages && n != name && name in lock.packages[n].deps ::
      lock.packages[n].deps[name] == version
  }

  ghost predicate DependsBack(lock: Lock, pack: Pack) {
    exists d | d in pack.ranges :: Reaches(GraphOf(lock.packages), d, pack.name)
  }

  /** Each locked dependency of `name` outside `kept` is a root or a dependency of another package. */
  ghost predicate NoOrphans(lock: Lock, name: Name, kept: set<Name>) {
    name in lock.packages ==>
      forall d | d in lock.packages[name].deps && d !in kept && d !in lock.roots :: OtherPackageNeeds(lock, name, d)
  }

  ghost predicate OtherPackageNeeds(lock: Lock, name: Name, d: Name) {
    exists n | n in lock.packages :: n != name && d in lock.packages[n].deps
  }

  /** The signature is by a key that the caller trusts; naming no key trusts everybody. */
  predicate IsTrusted(signature: Signature, trusted: set<string>) {
    trusted == {} || (signature.Verified? && signature.keyId in trusted)
  }

  /** What the lock records of a trusted signature. */
  function RecordedSignature(signature: Signature, trusted: set<string>): Signature
    requires IsTrusted(signature, trusted)
  {
    if trusted == {} then signature else Verified(signature.keyId, true)
  }

  /** On a valid lock, an install commits exactly when every dependency is locked at a version in range, the signature
      is trusted, the pack is not locked or cached with other content, its names can be locked, the packages that
      depend on it pin its version, none of its dependencies leads back to it, and no dropped dependency is
      orphaned. */
  lemma InstallCommitsExactly(s: Store, pack: Pack, source: Source, trusted: set<string>, satisfies: Check)
    requires ValidLock(s.lock)
    ensures InstallOne(s, pack, source, trusted, satisfies).Some?
       <==> && (forall d | d in pack.ranges ::
                  d in s.lock.packages && satisfies(s.lock.packages[d].version, pack.ranges[d]))
            && IsTrusted(pack.signature, trusted)
            && (pack.name in s.lock.packages && s.lock.packages[pack.name].version == pack.version ==>
                  s.lock.packages[pack.name].integrity == pack.integrity)
            && (pack.digest in s.cache ==>
                  && s.cache[pack.digest].integrity == pack.integrity && s.cache[pack.digest].digest == pack.digest
                  && s.cache[pack.digest].isPublic == pack.isPublic)
            && IsPackName(pack.name) && (forall d | d in pack.ranges :: IsPackName(d))
            && PinsAgree(s.lock, pack.name, pack.version)
            && !DependsBack(s.lock, pack)
            && NoOrphans(s.lock, pack.name, pack.ranges.Keys)
  {
    if Admissible(s, pack, trusted, satisfies) {
      var g := GraphOf(s.lock.packages);
      var next := WithEntry(s, pack, source, trusted).lock;
      var node := Node(pack.version, Pins(pack, s.lock.packages));
      assert node.deps.Keys == pack.ranges.Keys;
      assert GraphOf(next.packages) == g[pack.name := node];
      ReplaceNode(g, s.lock.roots, Pinned, pack.name, node);
      NobodyObjectsIsPinsAgree(s.lock, pack.name, pack.version);
      OrphansNoneIsNoOrphans(s.lock, pack.name, pack.ranges.Keys);
      assert LeadsNotBack(g, pack.name, node) <==> !DependsBack(s.lock, pack);
    }
  }

  /** What an install commits: the pack is a root, with its own entry, which pins what is locked; and it is cached. */
  lemma InstallWrites(s: Store, pack: Pack, source: Source, trusted: set<string>, satisfies: Check)
    requires InstallOne(s, pack, source, trusted, satisfies).Some?
    ensures IsTrusted(pack.signature, trusted) && forall d | d in pack.ranges :: d in s.lock.packages
    ensures var entry := Entry(
              pack.version, pack.integrity, pack.digest, source, RecordedSignature(pack.signature, trusted),
              map d | d in pack.ranges :: s.lock.packages[d].version);
            InstallOne(s, pack, source, trusted, satisfies).value == Store(
              Lock(s.lock.roots + {pack.name}, s.lock.packages[pack.name := entry]),
              if pack.digest in s.cache then s.cache else s.cache[pack.digest := pack])
  {
    assert Pins(pack, s.lock.packages) == map d | d in pack.ranges :: s.lock.packages[d].version;
  }

  lemma NobodyObjectsIsPinsAgree(lock: Lock, name: Name, version: string)
    ensures NobodyObjects(GraphOf(lock.packages), Pinned, name, version) <==> PinsAgree(lock, name, version)
  {
    var g := GraphOf(lock.packages);
    if PinsAgree(lock, name, version) {
      forall a | a != name && Edge(g, a, name) ensures Pinned(version, g[a].deps[name]) {
      }
    }
    if NobodyObjects(g, Pinned, name, version) {
      forall n | n in lock.packages && n != name && name in lock.packages[n].deps
        ensures lock.packages[n].deps[name] == version
      {
        assert Edge(g, n, name);
      }
    }
  }

  lemma OtherDependents(lock: Lock, name: Name, d: Name)
    ensures HasOtherDependent(GraphOf(lock.packages), name, d) <==> OtherPackageNeeds(lock, name, d)
  {
    var g := GraphOf(lock.packages);
    if OtherPackageNeeds(lock, name, d) {
      var n :| n in lock.packages && n != name && d in lock.packages[n].deps;
      assert Edge(g, n, d);
    }
  }

  lemma OrphansNoneIsNoOrphans(lock: Lock, name: Name, kept: set<Name>)
    ensures OrphansNone(GraphOf(lock.packages), lock.roots, name, kept) <==> NoOrphans(lock, name, kept)
  {
    var g := GraphOf(lock.packages);
    if OrphansNone(g, lock.roots, name, kept) && name in lock.packages {
      forall d | d in lock.packages[name].deps && d !in kept && d !in lock.roots
        ensures OtherPackageNeeds(lock, name, d)
      {
        assert Edge(g, name, d);
        OtherDependents(lock, name, d);
      }
    }
    if NoOrphans(lock, name, kept) {
      forall d | Edge(g, name, d) && d !in kept && d !in lock.roots ensures HasOtherDependent(g, name, d) {
        OtherDependents(lock, name, d);
      }
    }
  }

  /** On a valid lock, an uninstall commits exactly when the pack is locked, nothing else depends on it, and
      each of its dependencies is a root or a dependency of another package. The one name that every object
      inherits is uninstalled, locked or not, exactly when no other package is locked. */
  lemma UninstallCommitsExactly(lock: Lock, name: Name)
    requires ValidLock(lock) && WellNamed(lock)
    ensures Uninstall(lock, name).Some?
       <==> if name == CONSTRUCTOR then lock.packages.Keys <= {CONSTRUCTOR}
            else name in lock.packages && !RequiredBySomebody(lock, name) && NoOrphans(lock, name, {})
    ensures Uninstall(lock, name).Some? ==>
              Uninstall(lock, name).value == Lock(lock.roots - {name}, lock.packages - {name})
  {
    if name == CONSTRUCTOR {
      ConstructorUninstalls(lock);
    } else if name in lock.packages {
      OrdinaryUninstalls(lock, name);
    }
  }

  lemma OrdinaryUninstalls(lock: Lock, name: Name)
    requires ValidLock(lock) && name in lock.packages
    ensures !RequiredBySomebody(lock, name) && ValidLock(Without(lock, name))
       <==> !RequiredBySomebody(lock, name) && NoOrphans(lock, name, {})
  {
    var g := GraphOf(lock.packages);
    assert GraphOf(Without(lock, name).packages) == g - {name};
    RemoveNode(g, lock.roots, Pinned, name);
    OtherDependents(lock, name, name);
    OrphansNoneIsNoOrphans(lock, name, {});
  }

  lemma ConstructorUninstalls(lock: Lock)
    requires ValidLock(lock)
    ensures Uninstall(lock, CONSTRUCTOR).Some? <==> lock.packages.Keys <= {CONSTRUCTOR}
    ensures lock.packages.Keys <= {CONSTRUCTOR} ==> Uninstall(lock, CONSTRUCTOR) == Some(EMPTY_LOCK)
  {
    ConstructorIsPackName();
    if lock.packages.Keys <= {CONSTRUCTOR} {
      var rest := Without(lock, CONSTRUCTOR);
      assert rest.packages == map[];
      assert lock.roots <= GraphOf(lock.packages).Keys;
      assert rest.roots == {};
      EmptyIsValid();
    } else {
      var n :| n in lock.packages && n != CONSTRUCTOR;
      assert Mentions(lock.packages[n], CONSTRUCTOR);
    }
  }

  // ---- inputs on which a command does not do what its message says ----

  const PLAIN := Entry("1.0.0", "integrity", "digest", Airgap, Unverified, map[])

  /** Nothing depends on the pack, nothing would be orphaned, and still it cannot be uninstalled. */
  lemma ConstructorStaysLocked()
    ensures var lock := Lock({CONSTRUCTOR, "other"}, map[CONSTRUCTOR := PLAIN, "other" := PLAIN]);
            && !RequiredBySomebody(lock, CONSTRUCTOR) && NoOrphans(lock, CONSTRUCTOR, {})
            && Uninstall(lock, CONSTRUCTOR).None?
  {
    var lock := Lock({CONSTRUCTOR, "other"}, map[CONSTRUCTOR := PLAIN, "other" := PLAIN]);
    assert "other" in lock.packages && "other"[0] != CONSTRUCTOR[0];
    assert Mentions(lock.packages["other"], CONSTRUCTOR);
  }

  /** A pack that is not installed is uninstalled. */
  lemma AbsentConstructorUninstalls()
    ensures CONSTRUCTOR !in EMPTY_LOCK.packages && Uninstall(EMPTY_LOCK, CONSTRUCTOR) == Some(EMPTY_LOCK)
  {
    EmptyIsValid();
    ConstructorUninstalls(EMPTY_LOCK);
  }

  const TEAM_PACK := Pack("Team Pack", "1.0.0", "integrity", "digest", Unverified, map[], {"lesson"}, false)

  /** A private pack that passes every check up to the lock schema, and is refused there. */
  lemma PrivateNameIsRefused()
    ensures Admissible(Store(EMPTY_LOCK, map[]), TEAM_PACK, {}, (v, r) => true)
    ensures InstallOne(Store(EMPTY_LOCK, map[]), TEAM_PACK, Airgap, {}, (v, r) => true).None?
  {
    assert !CharFits(TEAM_PACK.name, 0);
  }

  // ---- what a committed step changes ----

  /** A committed install changes one entry; a locked version changes only if nobody else pins it. */
  lemma InstallFrame(s: Store, pack: Pack, source: Source, trusted: set<string>, satisfies: Check)
    requires ValidLock(s.lock) && InstallOne(s, pack, source, trusted, satisfies).Some?
    ensures var next := InstallOne(s, pack, source, trusted, satisfies).value.lock;
            && next.packages - {pack.name} == s.lock.packages - {pack.name}
            && next.roots == s.lock.roots + {pack.name}
            && pack.name in next.packages && next.packages[pack.name].version == pack.version
            && (pack.name in s.lock.packages && s.lock.packages[pack.name].version != pack.version ==>
                  !RequiredBySomebody(s.lock, pack.name))
  {
    InstallCommitsExactly(s, pack, source, trusted, satisfies);
    if pack.name in s.lock.packages && RequiredBySomebody(s.lock, pack.name) {
      var n :| n in s.lock.packages && n != pack.name && pack.name in s.lock.packages[n].deps;
      assert Edge(GraphOf(s.lock.packages), n, pack.name);
      assert EdgeMet(GraphOf(s.lock.packages), Pinned, n, pack.name);
    }
  }

  /** Entries at an unchanged version keep their integrity. */
  predicate ContentKept(before: map<Name, Entry>, after: map<Name, Entry>) {
    forall n | n in before && n in after && before[n].version == after[n].version ::
      before[n].integrity == after[n].integrity
  }

  // ---- runs ----

  /** `Abandon` is what a failed install may leave behind: a pack in the cache, and the lock as it was. */
  datatype Op =
    | Install(pack: Pack, source: Source, trusted: set<string>)
    | InstallClosure(packs: seq<Pack>, root: Name, trusted: set<string>)
    | Remove(name: Name)
    | Abandon(pack: Pack)

  ghost function Apply(s: Store, op: Op, satisfies: Check): Option<Store> {
    match op
    case Install(pack, source, trusted) => InstallOne(s, pack, source, trusted, satisfies)
    case InstallClosure(packs, root, trusted) => InstallBundle(s, packs, root, trusted, satisfies)
    case Remove(name) =>
      var next := Uninstall(s.lock, name);
      if next.None? then None else Some(s.(lock := next.value))
    case Abandon(pack) => if CacheAccepts(pack, s.cache) then Some(s.(cache := CachePut(pack, s.cache))) else None
  }

  /** What one operation of `verifyAirgapPackBundle` guarantees of the packs it hands on. */
  predicate WellFormed(op: Op) {
    op.InstallClosure? ==> forall i, j | 0 <= i < j < |op.packs| :: op.packs[i].name != op.packs[j].name
  }

  /** A step commits a valid lock, whatever lock it replaces, and never swaps content under a version. */
  lemma StepKeeps(s: Store, op: Op, satisfies: Check)
    requires WellFormed(op) && Apply(s, op, satisfies).Some? && (op.Abandon? ==> ValidLock(s.lock))
    ensures ValidLock(Apply(s, op, satisfies).value.lock)
    ensures WellNamed(s.lock) ==> WellNamed(Apply(s, op, satisfies).value.lock)
    ensures ContentKept(s.lock.packages, Apply(s, op, satisfies).value.lock.packages)
  {
    if op.InstallClosure? {
      BundleKeepsContent(s, op.packs, op.trusted, satisfies);
      if WellNamed(s.lock) { BundleKeepsNames(s, op.packs, op.trusted, satisfies); }
    }
  }

  lemma {:induction false} BundleKeepsNames(s: Store, packs: seq<Pack>, trusted: set<string>, satisfies: Check)
    requires WellNamed(s.lock) && LockAll(s, packs, trusted, satisfies).Some?
    ensures WellNamed(LockAll(s, packs, trusted, satisfies).value.lock)
    decreases |packs|
  {
    if |packs| > 0 {
      BundleKeepsNames(s, packs[..|packs| - 1], trusted, satisfies);
    }
  }

  lemma {:induction false} BundleKeepsContent(s: Store, packs: seq<Pack>, trusted: set<string>, satisfies: Check)
    requires forall i, j | 0 <= i < j < |packs| :: packs[i].name != packs[j].name
    requires LockAll(s, packs, trusted, satisfies).Some?
    ensures var after := LockAll(s, packs, trusted, satisfies).value.lock.packages;
            && ContentKept(s.lock.packages, after)
            && forall n | (forall i | 0 <= i < |packs| :: packs[i].name != n) ::
                 (n in after <==> n in s.lock.packages) && (n in after ==> after[n] == s.lock.packages[n])
    decreases |packs|
  {
    if |packs| > 0 {
      BundleKeepsContent(s, packs[..|packs| - 1], trusted, satisfies);
    }
  }

  /** A run of operations, each committing or leaving the store as it is. */
  ghost function Run(s: Store, ops: seq<Op>, satisfies: Check): Store
    decreases |ops|
  {
    if |ops| == 0 then s else
    var before := Run(s, ops[..|ops| - 1], satisfies);
    var next := Apply(before, ops[|ops| - 1], satisfies);
    if next.Some? then next.value else before
  }

  /** Over every run from no lockfile, the lock is valid, and from one operation to the next content at an
      unchanged version is unchanged. */
  lemma {:induction false} RunKeepsValid(ops: seq<Op>, satisfies: Check)
    requires forall i | 0 <= i < |ops| :: WellFormed(ops[i])
    ensures ValidLock(Run(Store(EMPTY_LOCK, map[]), ops, satisfies).lock)
    ensures WellNamed(Run(Store(EMPTY_LOCK, map[]), ops, satisfies).lock)
    ensures |ops| > 0 ==>
              ContentKept(Run(Store(EMPTY_LOCK, map[]), ops[..|ops| - 1], satisfies).lock.packages,
                          Run(Store(EMPTY_LOCK, map[]), ops, satisfies).lock.packages)
    decreases |ops|
  {
    var s := Store(EMPTY_LOCK, map[]);
    if |ops| == 0 {
      EmptyIsValid();
    } else {
      RunKeepsValid(ops[..|ops| - 1], satisfies);
      var before := Run(s, ops[..|ops| - 1], satisfies);
      if Apply(before, ops[|ops| - 1], satisfies).Some? {
        StepKeeps(before, ops[|ops| - 1], satisfies);
      }
    }
  }

  lemma EmptyIsValid()
    ensures ValidLock(EMPTY_LOCK)
  {
    forall n ensures !OnCycle(GraphOf(map[]), n) {
      if OnCycle(GraphOf(map[]), n) { CycleNode(GraphOf(map[]), n); }
    }
  }
}
