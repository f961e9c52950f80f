/** A project's lockfile and cache as the pack commands rewrite them. */
module PackProject {
  import opened Wrappers
  import opened Graph
  import opened PackLock
  import opened PackSteps

  datatype Installed = Installed(name: Name, version: string, created: bool, updated: bool)

  class Project {
    /** `semver.satisfies` with `includePrerelease`. */
    const satisfies: Check
    var lock: Lock
    var cache: map<string, Pack>

    constructor (satisfies: Check)
      ensures Valid() && this.satisfies == satisfies && State() == Store(EMPTY_LOCK, map[])
    {
      this.satisfies := satisfies;
      lock, cache := EMPTY_LOCK, map[];
    }

    /** The lockfile has been read, so its names have been checked. */
    predicate Valid()
      reads this
    {
      WellNamed(lock)
    }

    function State(): Store
      reads this
    {
      Store(lock, cache)
    }

    /** `resolveDependencies` */
    method ResolveDependencies(pack: Pack, packages: map<Name, Entry>) returns (r: Result<map<Name, string>, PackError>)
      ensures r.Ok? <==> Resolvable(pack, packages, satisfies)
      ensures r.Ok? ==> r.value == Pins(pack, packages)
      ensures r.Err? ==> r.error.DependencyNotInstalled? && r.error.name in pack.ranges
    {
      var resolved: map<Name, string> := map[];
      var rest := pack.ranges.Keys;
      while rest != {}
        invariant rest <= pack.ranges.Keys
        invariant resolved.Keys == pack.ranges.Keys - rest
        invariant forall d | d in resolved ::
          d in packages && satisfies(packages[d].version, pack.ranges[d]) && resolved[d] == packages[d].version
      {
        var name :| name in rest;
        if name !in packages || !satisfies(packages[name].version, pack.ranges[name]) {
          return Err(DependencyNotInstalled(name));
        }
        resolved := resolved[name := packages[name].version];
        rest := rest - {name};
      }
      return Ok(resolved);
    }

    /** The part the two installs share: admit a pack against `working`, cache it, and write its entry there. */
    method WriteEntry(
      working: Lock, pack: Pack, source: Source, trusted: set<string>) returns (r: Result<Lock, PackError>)
      requires WellNamed(working)
      modifies this`cache
      ensures r.Ok? <==> Admissible(Store(working, old(cache)), pack, trusted, satisfies) && NamesOk(pack)
      ensures r.Ok? ==>
                && Store(r.value, cache) == WithEntry(Store(working, old(cache)), pack, source, trusted)
                && WellNamed(r.value)
      ensures r.Err? ==>
                cache == if Admissible(Store(working, old(cache)), pack, trusted, satisfies)
                         then CachePut(pack, old(cache)) else old(cache)
    {
      var resolved := ResolveDependencies(pack, working.packages);
      if resolved.Err? { return Err(resolved.error); }
      var signature := TrustedSignature(pack.signature, trusted);
      if signature.None? { return Err(UntrustedSignature); }
      if ContentChanged(pack, working.packages) { return Err(Immutable(pack.name)); }
      if !CacheAccepts(pack, cache) { return Err(CacheCorrupt(pack.digest)); }
      if pack.digest !in cache { cache := cache[pack.digest := pack]; }
      var entry := Entry(pack.version, pack.integrity, pack.digest, source, signature.value, resolved.value);
      var next := working.(packages := working.packages[pack.name := entry]);
      SchemaDecides(working, next, pack.name);
      assert entry.deps.Keys == pack.ranges.Keys;
      if !WellNamed(next) { return Err(InvalidName(pack.name)); }
      return Ok(next);
    }

    /** `installVerifiedPack` */
    method InstallVerifiedPack(
      pack: Pack, source: Source, trusted: set<string>) returns (r: Result<Installed, PackError>)
      requires Valid()
      modifies this
      ensures Valid()
      ensures r.Ok? <==> InstallOne(old(State()), pack, source, trusted, satisfies).Some?
      ensures r.Ok? ==> State() == InstallOne(old(State()), pack, source, trusted, satisfies).value
      ensures r.Ok? ==> Reports(r.value, pack, old(lock).packages, lock.packages)
      ensures r.Err? ==> lock == old(lock) && (cache == old(cache) || cache == CachePut(pack, old(cache)))
    {
      var working := WriteEntry(lock, pack, source, trusted);
      if working.Err? { return Err(working.error); }
      var next := working.value.(roots := working.value.roots + {pack.name});
      var valid := ValidateDependencyGraph(next);
      if valid.Err? { return Err(InvalidGraph(valid.error)); }
      var report := Report(pack, lock.packages, next.packages);
      ReportMeans(pack, lock.packages, next.packages);
      lock := next;
      return Ok(report);
    }

    /** `installAirgapPackBundle`, after its packs were verified: one lock is committed for all of them. */
    method InstallAirgapBundle(
      packs: seq<Pack>, root: Name, trusted: set<string>) returns (r: Result<seq<Installed>, PackError>)
      requires Valid()
      modifies this
      ensures Valid()
      ensures r.Ok? <==> InstallBundle(old(State()), packs, root, trusted, satisfies).Some?
      ensures r.Ok? ==> State() == InstallBundle(old(State()), packs, root, trusted, satisfies).value
      ensures r.Ok? ==> |r.value| == |packs|
      ensures r.Ok? && NamedApart(packs) ==>
                forall i | 0 <= i < |packs| :: Reports(r.value[i], packs[i], old(lock).packages, lock.packages)
      ensures r.Err? ==> lock == old(lock) && CacheGrown(old(cache), packs, cache)
    {
      CacheGrownSame(cache, packs);
      if !IsPackName(root) { return Err(InvalidName(root)); }
      var written := LockPacks(packs, trusted);
      if written.Err? { return Err(written.error); }
      var (working, installed) := written.value;
      var next := working.(roots := working.roots + {root});
      var valid := ValidateDependencyGraph(next);
      if valid.Err? { return Err(InvalidGraph(valid.error)); }
      lock := next;
      return Ok(installed);
    }

    /** The loop over the packs, on a working copy of the lock. */
    method LockPacks(packs: seq<Pack>, trusted: set<string>) returns (r: Result<(Lock, seq<Installed>), PackError>)
      requires Valid()
      modifies this`cache
      ensures CacheGrown(old(cache), packs, cache)
      ensures r.Ok? <==> LockAll(old(State()), packs, trusted, satisfies).Some?
      ensures r.Ok? ==>
                && LockAll(old(State()), packs, trusted, satisfies) == Some(Store(r.value.0, cache))
                && WellNamed(r.value.0)
                && |r.value.1| == |packs|
                && (NamedApart(packs) ==> forall i | 0 <= i < |packs| ::
                      Reports(r.value.1[i], packs[i], old(lock).packages, r.value.0.packages))
    {
      ghost var start := State();
      var working := lock;
      var installed: seq<Installed> := [];
      CacheGrownSame(cache, packs);
      for i := 0 to |packs|
        invariant WellNamed(working) && CacheGrown(start.cache, packs, cache)
        invariant |installed| == i
        invariant NamedApart(packs) ==> ReportedSoFar(installed, packs, i, start.lock.packages, working.packages)
        invariant LockAll(start, packs[..i], trusted, satisfies) == Some(Store(working, cache))
      {
        LockOneMore(start, packs, i, working, cache, trusted, satisfies);
        CacheGrownMore(start.cache, packs, i, cache);
        var written := WriteEntry(working, packs[i], Airgap, trusted);
        if written.Err? { return Err(written.error); }
        if NamedApart(packs) {
          OneMoreReport(installed, packs, i, start.lock.packages, working.packages, written.value.packages);
        }
        installed := installed + [Report(packs[i], working.packages, written.value.packages)];
        working := written.value;
      }
      assert packs[..|packs|] == packs;
      return Ok((working, installed));
    }

    /** `uninstallPack` */
    method UninstallPack(name: Name) returns (r: Result<Lock, PackError>)
      requires Valid()
      modifies this`lock
      ensures Valid()
      ensures r.Ok? <==> Uninstall(old(lock), name).Some?
      ensures r.Ok? ==> lock == r.value == Uninstall(old(lock), name).value
      ensures r.Err? ==> lock == old(lock)
      ensures r.Err? && r.error.RequiredBy? ==> DependentFound(lock, name)
    {
      if !IsPackName(name) { return Err(InvalidName(name)); }
      if !Found(lock.packages, name) { return Err(NotInstalled(name)); }
      var others := lock.packages.Keys - {name};
      while others != {}
        invariant others <= lock.packages.Keys - {name}
        invariant forall n | n in lock.packages && n != name && n !in others :: !Mentions(lock.packages[n], name)
      {
        var dependent :| dependent in others;
        if Mentions(lock.packages[dependent], name) { return Err(RequiredBy(dependent)); }
        others := others - {dependent};
      }
      var next := Lock(lock.roots - {name}, lock.packages - {name});
      var valid := ValidateDependencyGraph(next);
      if valid.Err? { return Err(InvalidGraph(valid.error)); }
      lock := next;
      return Ok(next);
    }
  }

  /** `created` and `updated` as an install reports them; an entry that is only inherited counts as one. */
  function Report(pack: Pack, before: map<Name, Entry>, after: map<Name, Entry>): Installed
    requires pack.name in after
  {
    var existing := Found(before, pack.name);
    Installed(
      pack.name, pack.version, !existing,
      existing && (pack.name in before ==> before[pack.name] != after[pack.name]))
  }

  /** The report of an install: the pack is created if there was no entry, and updated if there was another one. What
      every object inherits under the one name counts as another entry. */
  lemma ReportMeans(pack: Pack, before: map<Name, Entry>, after: map<Name, Entry>)
    requires pack.name in after
    ensures var report := Report(pack, before, after);
            && report.name == pack.name && report.version == pack.version
            && (report.created <==> pack.name !in before && pack.name != "constructor")
            && (report.updated <==>
                  if pack.name in before then before[pack.name] != after[pack.name] else pack.name == "constructor")
  {
  }

  predicate NamedApart(packs: seq<Pack>) { forall i, j | 0 <= i < j < |packs| :: packs[i].name != packs[j].name }

  /** The report of a pack, against the lock before and after all of the packs. */
  predicate Reports(report: Installed, pack: Pack, before: map<Name, Entry>, after: map<Name, Entry>) {
    && pack.name in after
    && report == Installed(
         pack.name, pack.version, pack.name !in before && pack.name != "constructor",
         if pack.name in before then before[pack.name] != after[pack.name] else pack.name == "constructor")
  }

  ghost predicate ReportedSoFar(
    installed: seq<Installed>, packs: seq<Pack>, i: nat, before: map<Name, Entry>, working: map<Name, Entry>)
    requires |installed| == i <= |packs|
  {
    && (forall k | 0 <= k < i :: Reports(installed[k], packs[k], before, working))
    && (forall k | i <= k < |packs| :: packs[k].name in working <==> packs[k].name in before)
    && (forall k | i <= k < |packs| && packs[k].name in before :: working[packs[k].name] == before[packs[k].name])
  }

  lemma OneMoreReport(
    installed: seq<Installed>, packs: seq<Pack>, i: nat,
    before: map<Name, Entry>, working: map<Name, Entry>, next: map<Name, Entry>)
    requires NamedApart(packs) && |installed| == i < |packs| && ReportedSoFar(installed, packs, i, before, working)
    requires packs[i].name in next && next == working[packs[i].name := next[packs[i].name]]
    ensures ReportedSoFar(installed + [Report(packs[i], working, next)], packs, i + 1, before, next)
  {
    ReportMeans(packs[i], working, next);
    forall k | 0 <= k < i ensures packs[k].name != packs[i].name { }
  }

  /** Writing one entry, the lock schema can only object to the names in it. */
  lemma SchemaDecides(working: Lock, next: Lock, name: Name)
    requires WellNamed(working) && name in next.packages
    requires next == working.(packages := working.packages[name := next.packages[name]])
    ensures WellNamed(next) <==> IsPackName(name) && forall d | d in next.packages[name].deps :: IsPackName(d)
  {
    forall n | n in working.packages && n != name ensures n in next.packages && next.packages[n] == working.packages[n] {
    }
  }

  /** One round of the bundle loop: it goes on exactly if the pack is admissible. */
  lemma LockOneMore(
    start: Store, packs: seq<Pack>, i: nat, working: Lock, cache: map<string, Pack>, trusted: set<string>, satisfies: Check)
    requires i < |packs| && LockAll(start, packs[..i], trusted, satisfies) == Some(Store(working, cache))
    ensures Admissible(Store(working, cache), packs[i], trusted, satisfies) && NamesOk(packs[i]) ==>
              LockAll(start, packs[..i + 1], trusted, satisfies)
                == Some(WithEntry(Store(working, cache), packs[i], Airgap, trusted))
    ensures !Admissible(Store(working, cache), packs[i], trusted, satisfies) || !NamesOk(packs[i]) ==>
              LockAll(start, packs, trusted, satisfies).None?
  {
    assert packs[..i + 1][..i] == packs[..i];
    if !Admissible(Store(working, cache), packs[i], trusted, satisfies) || !NamesOk(packs[i]) {
      LockAllPrefix(start, packs, i + 1, trusted, satisfies);
    }
  }

  /** Cached packs stay, and new ones come from the list, under their own digests. */
  ghost predicate CacheGrown(before: map<string, Pack>, packs: seq<Pack>, after: map<string, Pack>) {
    && (forall d | d in before :: d in after && after[d] == before[d])
    && (forall d | d in after && d !in before :: after[d] in packs && after[d].digest == d)
  }

  lemma CacheGrownSame(cache: map<string, Pack>, packs: seq<Pack>)
    ensures CacheGrown(cache, packs, cache)
  {
  }

  lemma CacheGrownMore(before: map<string, Pack>, packs: seq<Pack>, i: nat, cache: map<string, Pack>)
    requires i < |packs| && CacheGrown(before, packs, cache)
    ensures CacheGrown(before, packs, CachePut(packs[i], cache))
  {
  }
}
