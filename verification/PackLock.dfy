/** The Pack lockfile: its validation, and the install and uninstall steps that rewrite it. */
module PackLock {
  import opened Wrappers
  import opened Graph
  import opened Walk

  datatype Source =
    | Git(url: string, commit: string)
    | Local(path: string)
    | Registry(registryUrl: string, orgId: Option<string>)
    | Airgap

  datatype Signature = Unverified | Verified(keyId: string, explicitKey: bool)

  /** A pack whose files have been verified. `ranges` are the dependencies its manifest declares, `lessons` the ids
      of its Lessons. A private pack may have any name. */
  datatype Pack = Pack(
    name: Name, version: string, integrity: string, digest: string, signature: Signature, ranges: map<Name, string>,
    lessons: set<string>, isPublic: bool)

  /** A lock entry. `deps` pins each dependency at one version. */
  datatype Entry = Entry(
    version: string, integrity: string, digest: string, source: Source, signature: Signature, deps: map<Name, string>)

  /** `roots` is the sorted array of distinct names. */
  datatype Lock = Lock(roots: set<Name>, packages: map<Name, Entry>)

  const EMPTY_LOCK := Lock({}, map[])

  /** The lockfile and the content-addressed cache beside it. */
  datatype Store = Store(lock: Lock, cache: map<string, Pack>)

  datatype GraphError = RootMissing(root: Name) | Broken(e: WalkError) | Unreachable(name: Name)

  datatype PackError =
    | NotInstalled(name: Name)
    | RequiredBy(dependent: Name)
    | DependencyNotInstalled(name: Name)
    | UntrustedSignature
    | Immutable(name: Name)
    | CacheCorrupt(digest: string)
    | InvalidName(name: Name)
    | InvalidGraph(e: GraphError)

  /** A pinned dependency: the locked version must be the pinned one. */
  predicate Pinned(version: string, required: string) { version == required }

  function GraphOf(packages: map<Name, Entry>): (g: Graph)
    ensures g.Keys == packages.Keys
    ensures forall n | n in packages :: g[n] == Node(packages[n].version, packages[n].deps)
  {
    map n | n in packages :: Node(packages[n].version, packages[n].deps)
  }

  ghost predicate ValidLock(lock: Lock) {
    ValidGraph(GraphOf(lock.packages), lock.roots, Pinned)
  }

  // ---- names ----

  predicate IsNameStart(c: char) { 'a' <= c <= 'z' || '0' <= c <= '9' }

  predicate IsNameChar(c: char) { IsNameStart(c) || c == '.' || c == '_' || c == '-' }

  /** `PackNameSchema`: lower-case segments between slashes, each beginning with a letter or a digit. */
  predicate IsPackName(t: Name) {
    && 1 <= |t| <= 128
    && t[|t| - 1] != '/'
    && forall i | 0 <= i < |t| :: CharFits(t, i)
  }

  predicate CharFits(t: Name, i: nat)
    requires i < |t|
  {
    if i == 0 || t[i - 1] == '/' then IsNameStart(t[i]) else t[i] == '/' || IsNameChar(t[i])
  }

  /** A letter from a to z or a digit. */
  predicate IsAlphanumeric(c: char) { c in "abcdefghijklmnopqrstuvwxyz0123456789" }

  /** One segment: a letter or a digit, then any of those and of `.`, `_` and `-`. */
  predicate IsSegment(t: string) {
    |t| > 0 && IsAlphanumeric(t[0]) && forall i | 0 <= i < |t| :: IsAlphanumeric(t[i]) || t[i] in "._-"
  }

  /** Segments joined by slashes. */
  function Joined(segments: seq<string>): string {
    if |segments| == 0 then "" else if |segments| == 1 then segments[0]
    else segments[0] + "/" + Joined(segments[1..])
  }

  lemma SegmentFits(t: string)
    requires IsSegment(t)
    ensures AllFit(t)
  {
    forall i | 0 <= i < |t| ensures CharFits(t, i) && t[i] != '/' {
      KnownChar(t[i]);
      if i > 0 { KnownChar(t[i - 1]); }
    }
    KnownChar(t[|t| - 1]);
  }

  lemma JoinFits(first: string, rest: string)
    requires AllFit(first) && AllFit(rest)
    ensures AllFit(first + "/" + rest)
  {
    var t, n := first + "/" + rest, |first|;
    forall i | 0 <= i < |t| ensures CharFits(t, i) {
      if i < n {
        assert CharFits(first, i);
      } else if i > n {
        assert CharFits(rest, i - n - 1);
        assert t[i] == rest[i - n - 1] && (i > n + 1 ==> t[i - 1] == rest[i - n - 2]);
      }
    }
  }

  lemma {:induction false} JoinedIsName(segments: seq<string>)
    requires |segments| > 0 && forall s | s in segments :: IsSegment(s)
    ensures AllFit(Joined(segments))
  {
    assert segments[0] in segments;
    SegmentFits(segments[0]);
    if |segments| > 1 {
      JoinedIsName(segments[1..]);
      JoinFits(segments[0], Joined(segments[1..]));
    }
  }

  function FirstSlash(t: string): (k: nat)
    requires '/' in t
    ensures k < |t| && t[k] == '/' && '/' !in t[..k]
  {
    if t[0] == '/' then 0 else
    var k := FirstSlash(t[1..]);
    assert t[..k + 1] == [t[0]] + t[1..][..k];
    k + 1
  }

  predicate IsJoined(t: string, segments: seq<string>) {
    |segments| > 0 && (forall s | s in segments :: IsSegment(s)) && Joined(segments) == t
  }

  predicate AllFit(t: string) { |t| > 0 && t[|t| - 1] != '/' && forall i | 0 <= i < |t| :: CharFits(t, i) }

  lemma {:induction false} NameIsJoined(t: string) returns (segments: seq<string>)
    requires AllFit(t)
    ensures IsJoined(t, segments)
    decreases |t|
  {
    if '/' !in t {
      SlashFreeIsSegment(t);
      segments := [t];
    } else {
      var k := FirstSlash(t);
      CutFits(t, k);
      var others := NameIsJoined(t[k + 1..]);
      segments := [t[..k]] + others;
      assert segments[1..] == others && t == t[..k] + "/" + t[k + 1..];
    }
  }

  lemma SlashFreeIsSegment(t: string)
    requires |t| > 0 && '/' !in t && forall i | 0 <= i < |t| :: CharFits(t, i)
    ensures IsSegment(t)
  {
    forall i | 0 <= i < |t| ensures IsAlphanumeric(t[i]) || t[i] in "._-" {
      assert CharFits(t, i);
      assert t[i] in t;
      KnownChar(t[i]);
      if i > 0 { assert t[i - 1] in t; }
    }
    assert CharFits(t, 0);
    KnownChar(t[0]);
  }

  lemma KnownChar(c: char)
    ensures IsNameStart(c) <==> IsAlphanumeric(c)
    ensures IsNameChar(c) <==> IsAlphanumeric(c) || c in "._-"
  {
  }

  lemma RestFits(t: string, k: nat)
    requires AllFit(t) && 0 < k < |t| - 1 && t[k] == '/'
    ensures AllFit(t[k + 1..])
  {
    var rest := t[k + 1..];
    forall i | 0 <= i < |rest| ensures CharFits(rest, i) { assert CharFits(t, k + 1 + i); }
  }

  /** Both sides of a slash. */
  lemma CutFits(t: string, k: nat)
    requires AllFit(t) && k < |t| && t[k] == '/' && '/' !in t[..k]
    ensures IsSegment(t[..k]) && AllFit(t[k + 1..])
  {
    var first := t[..k];
    assert k < |t| - 1;
    assert CharFits(t, 0);
    assert k > 0;
    forall i | 0 <= i < k ensures CharFits(first, i) { assert CharFits(t, i); }
    SlashFreeIsSegment(first);
    RestFits(t, k);
  }

  /** A pack name is at most 128 characters of segments joined by slashes. */
  lemma PackNameMeans(t: Name)
    ensures IsPackName(t) <==> |t| <= 128 && exists segments :: IsJoined(t, segments)
  {
    if IsPackName(t) { var segments := NameIsJoined(t); }
    if segments :| IsJoined(t, segments) { JoinedIsName(segments); }
  }

  /** What `PackLockSchema` asks of the names in a lock; every lock that is read has passed it. */
  predicate WellNamed(lock: Lock) {
    && (forall n | n in lock.roots :: IsPackName(n))
    && (forall n | n in lock.packages :: IsPackName(n) && forall d | d in lock.packages[n].deps :: IsPackName(d))
  }

  /** The names of the properties that every plain object inherits. */
  const INHERITED_NAMES: seq<Name> := [
    "constructor", "hasOwnProperty", "isPrototypeOf", "propertyIsEnumerable", "toLocaleString", "toString", "valueOf",
    "__proto__", "__defineGetter__", "__defineSetter__", "__lookupGetter__", "__lookupSetter__"]

  const CONSTRUCTOR: Name := "constructor"

  /** Only one of them is a pack name, so only that one reaches the lookups of a command that goes through. */
  lemma OnlyConstructorIsInherited(k: nat)
    requires k < |INHERITED_NAMES|
    ensures IsPackName(INHERITED_NAMES[k]) <==> INHERITED_NAMES[k] == CONSTRUCTOR
  {
    ConstructorIsPackName();
    var t := INHERITED_NAMES[k];
    if k != 0 {
      assert !CharFits(t, if k >= 7 then 0 else if k == 1 then 3 else if k == 3 then 8 else if k == 6 then 5 else 2);
    }
  }

  lemma ConstructorIsPackName()
    ensures IsPackName(CONSTRUCTOR)
  {
    assert |CONSTRUCTOR| == 11;
    assert CONSTRUCTOR == ['c', 'o', 'n', 's', 't', 'r', 'u', 'c', 't', 'o', 'r'];
  }

  /** `lock.packages[name]` is there: an entry, or what a plain object inherits under that name. */
  predicate Found(packages: map<Name, Entry>, name: Name) { name in packages || name == CONSTRUCTOR }

  /** `entry.dependencies[name] !== undefined` */
  predicate Mentions(e: Entry, name: Name) { name in e.deps || name == CONSTRUCTOR }

  // ---- validation ----

  /** `validateDependencyGraph`: accepts exactly the valid locks, and every walk error it reports is real. */
  method ValidateDependencyGraph(lock: Lock) returns (r: Result<(), GraphError>)
    ensures r.Ok? <==> ValidLock(lock)
    ensures r.Err? && r.error.Broken? ==>
              !r.error.e.MissingEntry? && Justified(GraphOf(lock.packages), Pinned, lock.roots, r.error.e)
    ensures r.Err? && r.error.Unreachable? ==>
              r.error.name in lock.packages && !ReachedFrom(GraphOf(lock.packages), lock.roots, r.error.name)
  {
    var missing := lock.roots;
    while missing != {}
      invariant missing <= lock.roots
      invariant forall n | n in lock.roots - missing :: n in lock.packages
    {
      var root :| root in missing;
      if root !in lock.packages { return Err(RootMissing(root)); }
      missing := missing - {root};
    }
    ghost var g := GraphOf(lock.packages);
    var walk := new DependencyWalk(GraphOf(lock.packages), Pinned, lock.roots);
    var rest := lock.roots;
    while rest != {}
      invariant rest <= lock.roots
      invariant walk.g == g && walk.check == Pinned && walk.roots == lock.roots
      invariant walk.Inv() && walk.active == {}
      invariant forall n | n in lock.roots - rest :: n in walk.visited
    {
      var root :| root in rest;
      var visit := walk.Visit(root, []);
      if visit.Err? {
        ErrorRefutes(g, Pinned, lock.roots, visit.error);
        return Err(Broken(visit.error));
      }
      rest := rest - {root};
    }
    WalkedIsReached(g, lock.roots, walk.order);
    var unseen := lock.packages.Keys;
    while unseen != {}
      invariant unseen <= lock.packages.Keys
      invariant forall n | n in lock.packages.Keys - unseen :: n in walk.visited
    {
      var name :| name in unseen;
      if name !in walk.visited { return Err(Unreachable(name)); }
      unseen := unseen - {name};
    }
    WalkedAllIsValid(g, lock.roots, Pinned, walk.order);
    return Ok(());
  }

  /** A justified error contradicts validity. */
  lemma ErrorRefutes(g: Graph, check: Check, roots: set<Name>, e: WalkError)
    requires Justified(g, check, roots, e)
    ensures !ValidGraph(g, roots, check)
  {
  }

  lemma WalkedIsReached(g: Graph, roots: set<Name>, order: seq<Name>)
    requires Topological(g, order) && forall r | r in roots :: r in order
    ensures forall n | ReachedFrom(g, roots, n) :: n in order
  {
    forall n | ReachedFrom(g, roots, n) ensures n in order {
      var r :| r in roots && Reaches(g, r, n);
      TopologicalClosed(g, order, r, n);
    }
  }

  lemma WalkedAllIsValid(g: Graph, roots: set<Name>, check: Check, order: seq<Name>)
    requires Topological(g, order) && roots <= g.Keys
    requires forall n | n in g :: n in order && ReachedFrom(g, roots, n)
    requires forall a, b | a in order && Edge(g, a, b) :: EdgeMet(g, check, a, b)
    ensures ValidGraph(g, roots, check)
  {
    forall n ensures !OnCycle(g, n) {
      if OnCycle(g, n) {
        CycleNode(g, n);
        TopologicalAcyclic(g, order, n);
      }
    }
  }

  lemma CycleNode(g: Graph, n: Name)
    requires OnCycle(g, n)
    ensures n in g
  {
    var p :| IsPath(g, p) && |p| > 1 && p[0] == n && p[|p| - 1] == n;
    assert Edge(g, p[0], p[1]);
  }
}
