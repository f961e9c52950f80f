/** Release versions: strict SemVer 2.0.0 parsing, the public release order and the SQL sort key. */
module Semver {
  import opened Wrappers
  import opened Order
  import opened Decimal

  const DOT: nat := 46
  const DASH: nat := 45
  const PLUS: nat := 43
  const COLON: nat := 58
  const MAX_LENGTH := 256
  const MAX_SAFE_INTEGER: nat := 9007199254740991

  /** A parsed version. The three core fields keep their digits. */
  datatype Version = Version(major: Text, minor: Text, patch: Text, prerelease: seq<Text>)

  // ---- parsing ----

  function Split(t: Text, c: nat): (parts: seq<Text>)
    ensures |parts| >= 1
    ensures forall i | 0 <= i < |parts| :: |parts[i]| <= |t|
    decreases |t|
  {
    var i := IndexOf(t, c);
    if i == |t| then [t] else [t[..i]] + Split(t[i + 1..], c)
  }

  predicate IsIdentifierChar(c: nat) {
    IsDigit(c) || 65 <= c <= 90 || 97 <= c <= 122 || c == DASH
  }

  predicate IsIdentifier(t: Text) { |t| > 0 && forall i | 0 <= i < |t| :: IsIdentifierChar(t[i]) }

  predicate IsCoreField(t: Text) { IsCanonical(t) && Value(t) <= MAX_SAFE_INTEGER }

  predicate IsPrereleaseIdentifier(t: Text) { IsIdentifier(t) && (IsNumeric(t) ==> IsCanonical(t)) }

  predicate Valid(v: Version) {
    && IsCoreField(v.major) && IsCoreField(v.minor) && IsCoreField(v.patch)
    && forall i | 0 <= i < |v.prerelease| :: IsPrereleaseIdentifier(v.prerelease[i]) && |v.prerelease[i]| <= MAX_LENGTH
  }

  datatype Shape = Shape(core: seq<Text>, prerelease: seq<Text>, build: seq<Text>)

  /** Cut at the first `+`, then at the first `-`, then at every dot. */
  function ShapeOf(raw: Text): (s: Shape)
    ensures forall i | 0 <= i < |s.prerelease| :: |s.prerelease[i]| <= |raw|
  {
    var plus := IndexOf(raw, PLUS);
    var main := raw[..plus];
    var dash := IndexOf(main, DASH);
    Shape(
      Split(main[..dash], DOT),
      if dash < |main| then Split(main[dash + 1..], DOT) else [],
      if plus < |raw| then Split(raw[plus + 1..], DOT) else [])
  }

  /** `new semver.SemVer(raw, { loose: false })`: build metadata is checked and dropped. */
  function Parse(raw: Text): (r: Option<Version>)
    ensures r.Some? ==> Valid(r.value)
  {
    var s := ShapeOf(raw);
    if && |raw| <= MAX_LENGTH
       && |s.core| == 3
       && (forall i | 0 <= i < 3 :: IsCoreField(s.core[i]))
       && (forall i | 0 <= i < |s.prerelease| :: IsPrereleaseIdentifier(s.prerelease[i]))
       && (forall i | 0 <= i < |s.build| :: IsIdentifier(s.build[i]))
    then Some(Version(s.core[0], s.core[1], s.core[2], s.prerelease))
    else None
  }

  /** What `SemverSchema` accepts: every version the registry stores or compares. */
  type VersionText = t: Text | Parse(t).Some? witness Initial()

  /** "0.0.0" */
  function Initial(): (t: Text)
    ensures Parse(t).Some?
  {
    assert Split([ZERO], DOT) == [[ZERO]];
    assert [ZERO, DOT, ZERO][2..] == [ZERO] && [ZERO, DOT, ZERO][..1] == [ZERO];
    assert IndexOf([ZERO, DOT, ZERO], DOT) == 1;
    assert Split([ZERO, DOT, ZERO], DOT) == [[ZERO], [ZERO]];
    var t := [ZERO, DOT, ZERO, DOT, ZERO];
    assert t[2..] == [ZERO, DOT, ZERO] && t[..1] == [ZERO];
    assert IndexOf(t, DOT) == 1;
    assert Split(t, DOT) == [[ZERO], [ZERO], [ZERO]];
    assert IndexOf(t, PLUS) == 5 && t[..5] == t;
    assert IndexOf(t, DASH) == 5;
    assert Value([ZERO]) == 0;
    t
  }

  // ---- the grammar of SemVer 2.0.0 ----

  function JoinBy(parts: seq<Text>, c: nat): Text {
    if |parts| == 0 then [] else if |parts| == 1 then parts[0] else parts[0] + [c] + JoinBy(parts[1..], c)
  }

  /** Three numbers with dots between them, a dash and identifiers with dots between them, a plus and more of them. */
  function Spell(s: Shape): Text {
    JoinBy(s.core, 46)
    + (if s.prerelease == [] then [] else [45] + JoinBy(s.prerelease, 46))
    + (if s.build == [] then [] else [43] + JoinBy(s.build, 46))
  }

  predicate AllDigits(t: Text) { forall i | 0 <= i < |t| :: 48 <= t[i] <= 57 }

  /** Letters, digits and dashes, at least one. */
  predicate Alphanumerics(t: Text) {
    |t| > 0 && forall i | 0 <= i < |t| :: 48 <= t[i] <= 57 || 65 <= t[i] <= 90 || 97 <= t[i] <= 122 || t[i] == 45
  }

  /** No leading zero, unless it is the number 0. */
  predicate NoLeadingZero(t: Text) { |t| > 1 ==> t[0] != 48 }

  predicate Grammatical(s: Shape) {
    && |s.core| == 3
    && (forall t | t in s.core :: |t| > 0 && AllDigits(t) && NoLeadingZero(t) && Value(t) <= 9007199254740991)
    && (forall t | t in s.prerelease :: Alphanumerics(t) && (AllDigits(t) ==> NoLeadingZero(t)))
    && (forall t | t in s.build :: Alphanumerics(t))
  }

  lemma {:induction false} SplitJoins(t: Text, c: nat)
    ensures JoinBy(Split(t, c), c) == t
    ensures forall p | p in Split(t, c) :: c !in p
    decreases |t|
  {
    var i := IndexOf(t, c);
    if i < |t| {
      SplitJoins(t[i + 1..], c);
      var rest := Split(t[i + 1..], c);
      assert Split(t, c) == [t[..i]] + rest && ([t[..i]] + rest)[1..] == rest;
      assert t == t[..i] + [c] + t[i + 1..];
    }
  }

  /** What holds no `c` is cut off by the first `c`, if there is one. */
  lemma OptionalCut(p: Text, c: nat, more: bool, rest: Text)
    requires c !in p
    ensures var t := p + if more then [c] + rest else [];
            && IndexOf(t, c) == |p| && t[..|p|] == p
            && (if more then |p| < |t| && t[|p| + 1..] == rest else |t| == |p|)
  {
    var t := p + if more then [c] + rest else [];
    assert forall k | 0 <= k < |p| :: t[k] == p[k];
    if more { assert t[|p|] == c; }
  }

  lemma SplitFirst(p: Text, c: nat, more: bool, rest: Text)
    requires c !in p
    ensures Split(p + if more then [c] + rest else [], c) == if more then [p] + Split(rest, c) else [p]
  {
    OptionalCut(p, c, more, rest);
    if !more { assert p + [] == p; }
  }

  lemma {:induction false} JoinSplits(parts: seq<Text>, c: nat)
    requires |parts| > 0 && forall p | p in parts :: c !in p
    ensures Split(JoinBy(parts, c), c) == parts
  {
    var first := parts[0];
    if |parts| == 1 {
      SplitFirst(first, c, false, []);
      assert first + [] == first && parts == [first];
    } else {
      var rest := JoinBy(parts[1..], c);
      JoinSplits(parts[1..], c);
      SplitFirst(first, c, true, rest);
      assert first + ([c] + rest) == JoinBy(parts, c);
      assert parts == [first] + parts[1..];
    }
  }

  lemma {:induction false} JoinHolds(parts: seq<Text>, c: nat, x: nat)
    requires x != c && forall p | p in parts :: x !in p
    ensures x !in JoinBy(parts, c)
  {
    if |parts| > 1 {
      JoinHolds(parts[1..], c, x);
      assert parts[0] in parts;
    } else if |parts| == 1 {
      assert parts[0] in parts;
    }
  }

  /** The three parts of a version as text. */
  datatype Parts = Parts(core: Text, dashed: bool, prerelease: Text, plussed: bool, build: Text)

  function Assemble(p: Parts): Text {
    p.core + (if p.dashed then [45] + p.prerelease else []) + (if p.plussed then [43] + p.build else [])
  }

  function PartsOf(raw: Text): Parts {
    var plus := IndexOf(raw, 43);
    var main := raw[..plus];
    var dash := IndexOf(main, 45);
    Parts(main[..dash], dash < |main|, if dash < |main| then main[dash + 1..] else [],
          plus < |raw|, if plus < |raw| then raw[plus + 1..] else [])
  }

  lemma Splice(t: Text, i: nat)
    requires i < |t|
    ensures t == t[..i] + ([t[i]] + t[i + 1..])
  {
  }

  /** A text is what is before the cut, and after it. */
  lemma CutSpells(t: Text, c: nat)
    ensures var i := IndexOf(t, c); t == t[..i] + if i < |t| then [c] + t[i + 1..] else []
  {
    if IndexOf(t, c) < |t| { Splice(t, IndexOf(t, c)); }
  }

  lemma AssembleParts(raw: Text)
    ensures Assemble(PartsOf(raw)) == raw
  {
    CutSpells(raw, 43);
    CutSpells(raw[..IndexOf(raw, 43)], 45);
  }

  lemma PartsAssemble(p: Parts)
    requires 45 !in p.core && 43 !in p.core && 43 !in p.prerelease
    requires (!p.dashed ==> p.prerelease == []) && (!p.plussed ==> p.build == [])
    ensures PartsOf(Assemble(p)) == p
  {
    var main := p.core + if p.dashed then [45] + p.prerelease else [];
    assert 43 !in main;
    OptionalCut(main, 43, p.plussed, p.build);
    OptionalCut(p.core, 45, p.dashed, p.prerelease);
    var raw, plus := Assemble(p), |main|;
    assert raw == main + (if p.plussed then [43] + p.build else []);
    assert IndexOf(raw, 43) == plus && raw[..plus] == main;
    assert IndexOf(main, 45) == |p.core|;
  }

  function SplitParts(p: Parts): Shape {
    Shape(Split(p.core, 46), if p.dashed then Split(p.prerelease, 46) else [], if p.plussed then Split(p.build, 46) else [])
  }

  function JoinParts(s: Shape): Parts {
    Parts(JoinBy(s.core, 46), s.prerelease != [], JoinBy(s.prerelease, 46), s.build != [], JoinBy(s.build, 46))
  }

  lemma ShapeIsSplit(raw: Text)
    ensures ShapeOf(raw) == SplitParts(PartsOf(raw))
  {
  }

  lemma SpellIsAssembled(s: Shape)
    ensures Spell(s) == Assemble(JoinParts(s))
  {
  }

  lemma JoinOfSplit(p: Parts)
    requires (!p.dashed ==> p.prerelease == []) && (!p.plussed ==> p.build == [])
    ensures JoinParts(SplitParts(p)) == p
  {
    SplitJoins(p.core, 46);
    if p.dashed { SplitJoins(p.prerelease, 46); }
    if p.plussed { SplitJoins(p.build, 46); }
  }

  lemma SplitOfJoin(s: Shape)
    requires Grammatical(s)
    ensures SplitParts(JoinParts(s)) == s
  {
    NoneOf(s);
    JoinSplits(s.core, 46);
    if s.prerelease != [] { JoinSplits(s.prerelease, 46); }
    if s.build != [] { JoinSplits(s.build, 46); }
  }

  /** Cutting a text and putting it together again gives the text, */
  lemma ShapeSpells(raw: Text)
    ensures Spell(ShapeOf(raw)) == raw
  {
    ShapeIsSplit(raw);
    SpellIsAssembled(ShapeOf(raw));
    JoinOfSplit(PartsOf(raw));
    AssembleParts(raw);
  }

  /** and what is put together by the grammar is cut into its parts. */
  lemma SpellingHasShape(s: Shape)
    requires Grammatical(s)
    ensures ShapeOf(Spell(s)) == s
  {
    NoneOf(s);
    JoinHolds(s.core, 46, 45);
    JoinHolds(s.core, 46, 43);
    JoinHolds(s.prerelease, 46, 43);
    SpellIsAssembled(s);
    PartsAssemble(JoinParts(s));
    ShapeIsSplit(Spell(s));
    SplitOfJoin(s);
  }

  /** Neither dots nor plus signs are in the parts, and no dash is in the core. */
  lemma NoneOf(s: Shape)
    requires Grammatical(s)
    ensures forall t | t in s.core :: 43 !in t && 45 !in t && 46 !in t
    ensures forall t | t in s.prerelease || t in s.build :: 43 !in t && 46 !in t
  {
  }

  lemma ShapeIsGrammatical(s: Shape)
    ensures Grammatical(s) <==>
              && |s.core| == 3
              && (forall i | 0 <= i < |s.core| :: IsCoreField(s.core[i]))
              && (forall i | 0 <= i < |s.prerelease| :: IsPrereleaseIdentifier(s.prerelease[i]))
              && (forall i | 0 <= i < |s.build| :: IsIdentifier(s.build[i]))
  {
    forall t: Text ensures Digits(t) <==> AllDigits(t) { }
    forall t: Text ensures IsIdentifier(t) <==> Alphanumerics(t) { }
  }

  /** The versions that parse are exactly those of the grammar, with safe numbers, of at most 256 characters; build
      metadata does not matter. */
  lemma ParseMeans(raw: Text)
    ensures Parse(raw).Some? <==> |raw| <= 256 && exists s :: Grammatical(s) && Spell(s) == raw
    ensures forall s | Grammatical(s) && Spell(s) == raw && |raw| <= 256 ::
              Parse(raw) == Some(Version(s.core[0], s.core[1], s.core[2], s.prerelease))
  {
    ShapeSpells(raw);
    ShapeIsGrammatical(ShapeOf(raw));
    forall s | Grammatical(s) && Spell(s) == raw ensures ShapeOf(raw) == s { SpellingHasShape(s); }
  }

  // ---- precedence as section 11 of SemVer 2.0.0 defines it ----

  function CompareNumbers(a: nat, b: nat): int { if a < b then -1 else if a > b then 1 else 0 }

  function CompareText(a: Text, b: Text): int { if TextLess(a, b) then -1 else if TextLess(b, a) then 1 else 0 }

  /** Numeric identifiers by value, others by code unit, numeric below the others. */
  function IdentifierPrecedence(a: Text, b: Text): int {
    if IsNumeric(a) && IsNumeric(b) then CompareNumbers(Value(a), Value(b))
    else if IsNumeric(a) then -1
    else if IsNumeric(b) then 1
    else CompareText(a, b)
  }

  /** Field by field; when all shared fields are equal the longer list is higher. */
  function PrereleasePrecedence(a: seq<Text>, b: seq<Text>): int {
    if |a| == 0 && |b| == 0 then 0
    else if |a| == 0 then -1
    else if |b| == 0 then 1
    else
      var c := IdentifierPrecedence(a[0], b[0]);
      if c != 0 then c else PrereleasePrecedence(a[1..], b[1..])
  }

  function Precedence(l: Version, r: Version): int
    requires Valid(l) && Valid(r)
  {
    var major := CompareNumbers(Value(l.major), Value(r.major));
    var minor := CompareNumbers(Value(l.minor), Value(r.minor));
    var patch := CompareNumbers(Value(l.patch), Value(r.patch));
    if major != 0 then major
    else if minor != 0 then minor
    else if patch != 0 then patch
    else if |l.prerelease| == 0 && |r.prerelease| == 0 then 0
    else if |l.prerelease| == 0 then 1
    else if |r.prerelease| == 0 then -1
    else PrereleasePrecedence(l.prerelease, r.prerelease)
  }

  /** The public order: higher precedence first, then the greater raw text first. */
  function PublicOrder(l: VersionText, r: VersionText): int {
    var c := Precedence(Parse(l).value, Parse(r).value);
    if c != 0 then -c else if l == r then 0 else if TextLess(r, l) then -1 else 1
  }

  predicate PublicLess(l: VersionText, r: VersionText) { PublicOrder(l, r) < 0 }

  // ---- the comparators as the registry runs them ----

  /** `compareSemverPrecedence`: equal texts are skipped, digits are compared by length and then as text. */
  method CompareSemverPrecedence(l: Version, r: Version) returns (c: int)
    requires Valid(l) && Valid(r)
    ensures c == Precedence(l, r)
  {
    var left, right := [l.major, l.minor, l.patch], [r.major, r.minor, r.patch];
    assert left[0] == l.major && left[1] == l.minor && left[2] == l.patch;
    assert right[0] == r.major && right[1] == r.minor && right[2] == r.patch;
    for field := 0 to 3
      invariant forall k | 0 <= k < field :: Value(left[k]) == Value(right[k])
    {
      if Value(left[field]) != Value(right[field]) {
        return if Value(left[field]) < Value(right[field]) then -1 else 1;
      }
    }
    if |l.prerelease| == 0 {
      return if |r.prerelease| == 0 then 0 else 1;
    }
    if |r.prerelease| == 0 {
      return -1;
    }
    var count := if |l.prerelease| < |r.prerelease| then |r.prerelease| else |l.prerelease|;
    for index := 0 to count
      invariant index <= |l.prerelease| && index <= |r.prerelease|
      invariant PrereleasePrecedence(l.prerelease[index..], r.prerelease[index..])
             == PrereleasePrecedence(l.prerelease, r.prerelease)
    {
      if index == |l.prerelease| { return -1; }
      if index == |r.prerelease| { return 1; }
      var leftText, rightText := l.prerelease[index], r.prerelease[index];
      assert l.prerelease[index..][1..] == l.prerelease[index + 1..];
      assert r.prerelease[index..][1..] == r.prerelease[index + 1..];
      TextTrichotomy(leftText, rightText);
      if leftText == rightText { continue; }
      var leftNumeric, rightNumeric := IsNumeric(leftText), IsNumeric(rightText);
      if leftNumeric != rightNumeric {
        return if leftNumeric then -1 else 1;
      }
      if leftNumeric {
        LengthThenText(leftText, rightText);
        if |leftText| != |rightText| {
          return if |leftText| < |rightText| then -1 else 1;
        }
      }
      return if TextLess(leftText, rightText) then -1 else 1;
    }
    return 0;
  }

  method ComparePublicReleaseVersions(left: VersionText, right: VersionText) returns (c: int)
    ensures c == PublicOrder(left, right)
  {
    var precedence := CompareSemverPrecedence(Parse(left).value, Parse(right).value);
    if precedence != 0 { return -precedence; }
    if left == right { return 0; }
    return if TextLess(right, left) then -1 else 1;
  }

  // ---- precedence as a lexicographic key ----

  function IdentifierRank(t: Text): Text { if IsNumeric(t) then [0, Value(t)] else [1] + t }

  function IdentifierRanks(ids: seq<Text>): seq<Text> {
    if |ids| == 0 then [] else [IdentifierRank(ids[0])] + IdentifierRanks(ids[1..])
  }

  function Rank(v: Version): seq<Text>
    requires Valid(v)
  {
    [[Value(v.major)], [Value(v.minor)], [Value(v.patch)], [if |v.prerelease| == 0 then 1 else 0]]
    + IdentifierRanks(v.prerelease)
  }

  lemma IdentifierRankOrder(a: Text, b: Text)
    ensures IdentifierPrecedence(a, b) < 0 <==> TextLess(IdentifierRank(a), IdentifierRank(b))
    ensures IdentifierPrecedence(a, b) > 0 <==> TextLess(IdentifierRank(b), IdentifierRank(a))
    ensures IdentifierPrecedence(a, b) == 0 <==> IdentifierRank(a) == IdentifierRank(b)
  {
    TextTrichotomy(a, b);
    if IsNumeric(a) && IsNumeric(b) {
      SingletonOrder([0], Value(a), Value(b));
    } else if !IsNumeric(a) && !IsNumeric(b) {
      TextPrefix([1], a, b);
      TextPrefix([1], b, a);
      assert a == ([1] + a)[1..] && b == ([1] + b)[1..];
    } else {
      assert IdentifierRank(a)[0] != IdentifierRank(b)[0];
    }
  }

  lemma SingletonOrder(p: Text, a: nat, b: nat)
    ensures TextLess(p + [a], p + [b]) <==> a < b
    ensures TextLess(p + [b], p + [a]) <==> b < a
    ensures p + [a] == p + [b] <==> a == b
  {
    TextPrefix(p, [a], [b]);
    TextPrefix(p, [b], [a]);
    assert (p + [a])[|p|] == a && (p + [b])[|p|] == b;
  }

  lemma {:induction false} PrereleaseRankOrder(a: seq<Text>, b: seq<Text>)
    ensures PrereleasePrecedence(a, b) < 0 <==> KeyLess(IdentifierRanks(a), IdentifierRanks(b))
    ensures PrereleasePrecedence(a, b) == 0 <==> IdentifierRanks(a) == IdentifierRanks(b)
  {
    if |a| > 0 && |b| > 0 {
      IdentifierRankOrder(a[0], b[0]);
      TextTrichotomy(IdentifierRank(a[0]), IdentifierRank(b[0]));
      PrereleaseRankOrder(a[1..], b[1..]);
      assert IdentifierRanks(a)[1..] == IdentifierRanks(a[1..]);
      assert IdentifierRanks(b)[1..] == IdentifierRanks(b[1..]);
      assert IdentifierRanks(a) == IdentifierRanks(b) ==> IdentifierRanks(a)[0] == IdentifierRanks(b)[0];
    }
  }

  lemma KeyPrefix(x: Text, y: Text, a: seq<Text>, b: seq<Text>)
    ensures KeyLess([x] + a, [y] + b) <==> TextLess(x, y) || (x == y && KeyLess(a, b))
    ensures [x] + a == [y] + b <==> x == y && a == b
  {
    assert ([x] + a)[1..] == a && ([y] + b)[1..] == b;
    assert ([x] + a)[0] == x && ([y] + b)[0] == y;
  }

  lemma CoreKey(a: seq<Text>, b: seq<Text>, x: seq<Text>, y: seq<Text>)
    requires |a| == |b| == 4
    ensures KeyLess(a + x, b + y) <==>
              || TextLess(a[0], b[0])
              || (a[0] == b[0] && TextLess(a[1], b[1]))
              || (a[0] == b[0] && a[1] == b[1] && TextLess(a[2], b[2]))
              || (a[0] == b[0] && a[1] == b[1] && a[2] == b[2] && TextLess(a[3], b[3]))
              || (a == b && KeyLess(x, y))
    ensures a + x == b + y <==> a == b && x == y
  {
    var a3, b3 := [a[3]] + x, [b[3]] + y;
    var a2, b2 := [a[2]] + a3, [b[2]] + b3;
    var a1, b1 := [a[1]] + a2, [b[1]] + b2;
    assert a + x == [a[0]] + a1 && b + y == [b[0]] + b1;
    KeyPrefix(a[0], b[0], a1, b1);
    KeyPrefix(a[1], b[1], a2, b2);
    KeyPrefix(a[2], b[2], a3, b3);
    KeyPrefix(a[3], b[3], x, y);
    assert a == [a[0], a[1], a[2], a[3]] && b == [b[0], b[1], b[2], b[3]];
  }

  /** Section 11 precedence is the lexicographic order of the ranks. */
  lemma RankOrder(l: Version, r: Version)
    requires Valid(l) && Valid(r)
    ensures Precedence(l, r) < 0 <==> KeyLess(Rank(l), Rank(r))
    ensures Precedence(l, r) == 0 <==> Rank(l) == Rank(r)
  {
    var a := [[Value(l.major)], [Value(l.minor)], [Value(l.patch)], [if |l.prerelease| == 0 then 1 else 0]];
    var b := [[Value(r.major)], [Value(r.minor)], [Value(r.patch)], [if |r.prerelease| == 0 then 1 else 0]];
    CoreKey(a, b, IdentifierRanks(l.prerelease), IdentifierRanks(r.prerelease));
    PrereleaseRankOrder(l.prerelease, r.prerelease);
    SingletonOrder([], Value(l.major), Value(r.major));
    SingletonOrder([], Value(l.minor), Value(r.minor));
    SingletonOrder([], Value(l.patch), Value(r.patch));
    assert forall n: nat :: [] + [n] == [n];
  }

  lemma PrecedenceAntisymmetric(l: Version, r: Version)
    requires Valid(l) && Valid(r)
    ensures Precedence(l, r) > 0 <==> Precedence(r, l) < 0
  {
    RankOrder(l, r);
    RankOrder(r, l);
    KeyTrichotomy(Rank(l), Rank(r));
  }

  /** `comparePublicReleaseVersions` is antisymmetric and zero only on identical strings. */
  lemma PublicOrderAntisymmetric(l: VersionText, r: VersionText)
    ensures PublicOrder(l, r) < 0 <==> PublicOrder(r, l) > 0
    ensures PublicOrder(l, r) == 0 <==> l == r
  {
    var a, b := Parse(l).value, Parse(r).value;
    PrecedenceAntisymmetric(a, b);
    PrecedenceAntisymmetric(b, a);
    RankOrder(a, b);
    TextTrichotomy(l, r);
  }

  lemma PublicOrderTransitive(x: VersionText, y: VersionText, z: VersionText)
    requires PublicLess(x, y) && PublicLess(y, z)
    ensures PublicLess(x, z)
  {
    var a, b, c := Parse(x).value, Parse(y).value, Parse(z).value;
    RankOrder(a, b);
    RankOrder(b, c);
    RankOrder(a, c);
    PrecedenceAntisymmetric(a, b);
    PrecedenceAntisymmetric(b, c);
    PrecedenceAntisymmetric(a, c);
    RankOrder(b, a);
    RankOrder(c, b);
    RankOrder(c, a);
    if Precedence(a, b) != 0 && Precedence(b, c) != 0 {
      KeyTransitive(Rank(c), Rank(b), Rank(a));
    } else if Precedence(a, b) == 0 && Precedence(b, c) == 0 {
      TextTrichotomy(x, y);
      TextTrichotomy(y, z);
      TextTransitive(z, y, x);
      TextTrichotomy(x, z);
    }
  }

  /** The public order on any text, so that it is total: what is no version comes last. */
  predicate VersionLess(l: Text, r: Text) {
    if Parse(l).Some? && Parse(r).Some? then PublicLess(l, r)
    else if Parse(l).None? && Parse(r).None? then TextLess(l, r)
    else Parse(l).Some?
  }

  lemma VersionLessStrictTotal()
    ensures StrictTotal(VersionLess)
    ensures forall l: VersionText, r: VersionText :: VersionLess(l, r) <==> PublicLess(l, r)
  {
    forall x: Text, y: Text ensures !VersionLess(x, x) && (VersionLess(x, y) || VersionLess(y, x) || x == y) {
      VersionLessTotal(x, y);
    }
    forall x: Text, y: Text, z: Text ensures Transits(VersionLess, x, y, z) {
      VersionLessTransitive(x, y, z);
    }
  }

  lemma VersionLessTotal(x: Text, y: Text)
    ensures !VersionLess(x, x) && (VersionLess(x, y) || VersionLess(y, x) || x == y)
  {
    TextTrichotomy(x, y);
    if Parse(x).Some? {
      PublicOrderAntisymmetric(x, x);
      if Parse(y).Some? {
        PublicOrderAntisymmetric(x, y);
        PublicOrderAntisymmetric(y, x);
      }
    }
  }

  lemma VersionLessTransitive(x: Text, y: Text, z: Text)
    ensures VersionLess(x, y) && VersionLess(y, z) ==> VersionLess(x, z)
  {
    if VersionLess(x, y) && VersionLess(y, z) {
      if Parse(z).Some? { PublicOrderTransitive(x, y, z); }
      else if Parse(x).None? { TextTransitive(x, y, z); }
    }
  }
}
