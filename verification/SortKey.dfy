/** The persisted `semver_sort_key` column: the SQL key order is the application's version order. */
module SortKey {
  import opened Wrappers
  import opened Order
  import opened Decimal
  import opened Semver

  const CORE_WIDTH := 16
  const LENGTH_WIDTH := 3
  const STABLE: Text := [ZERO + 1, COLON]
  const PRERELEASE: Text := [ZERO, COLON]
  /** '9007199254740991' */
  const MAX_SAFE_TEXT: Text := Render(MAX_SAFE_INTEGER)

  datatype KeyError = NotStrictSemver | CoreTooLarge | LeadingZero

  /** SQL `lpad(t, width, '0')`, which cuts what is too long. */
  function LeftPad(t: Text, width: nat): Text {
    if |t| >= width then t[..width] else Padding(width - |t|) + t
  }

  function IdentifierKey(t: Text): Text {
    if IsNumeric(t)
    then [ZERO, COLON] + LeftPad(Render(|t|), LENGTH_WIDTH) + [COLON] + t
    else [ZERO + 1, COLON] + t
  }

  function IdentifierKeys(ids: seq<Text>): seq<Text> {
    if |ids| == 0 then [] else IdentifierKeys(ids[..|ids| - 1]) + [IdentifierKey(ids[|ids| - 1])]
  }

  function CoreKeys(v: Version): seq<Text> {
    [LeftPad(v.major, CORE_WIDTH), LeftPad(v.minor, CORE_WIDTH), LeftPad(v.patch, CORE_WIDTH)]
  }

  function SortKeyOf(v: Version): seq<Text> {
    if |v.prerelease| == 0 then CoreKeys(v) + [STABLE] else CoreKeys(v) + [PRERELEASE] + IdentifierKeys(v.prerelease)
  }

  /** The regular expression of the SQL parser: it bounds neither the core fields nor leading zeros of
      numeric prerelease identifiers. */
  function RegexpMatch(raw: Text): Option<Version> {
    var s := ShapeOf(raw);
    if && |s.core| == 3
       && (forall i | 0 <= i < 3 :: IsCanonical(s.core[i]))
       && (forall i | 0 <= i < |s.prerelease| :: IsIdentifier(s.prerelease[i]))
       && (forall i | 0 <= i < |s.build| :: IsIdentifier(s.build[i]))
    then Some(Version(s.core[0], s.core[1], s.core[2], s.prerelease))
    else None
  }

  predicate LeadingZeroFree(t: Text) { !(IsNumeric(t) && |t| > 1 && t[0] == ZERO) }

  /** What the parser still has to check after the regular expression. */
  lemma ParseIsRegexpAndBounds(raw: Text)
    ensures Parse(raw).Some? ==> RegexpMatch(raw) == Parse(raw)
    ensures Parse(raw).Some? <==>
              && |raw| <= MAX_LENGTH
              && RegexpMatch(raw).Some?
              && (var v := RegexpMatch(raw).value;
                  && IsCoreField(v.major) && IsCoreField(v.minor) && IsCoreField(v.patch)
                  && forall i | 0 <= i < |v.prerelease| :: LeadingZeroFree(v.prerelease[i]))
  {
    var s := ShapeOf(raw);
    if RegexpMatch(raw).Some? {
      assert s.core == [s.core[0], s.core[1], s.core[2]];
      forall i | 0 <= i < |s.prerelease|
        ensures IsPrereleaseIdentifier(s.prerelease[i]) <==> LeadingZeroFree(s.prerelease[i])
      {
        assert IsIdentifier(s.prerelease[i]);
      }
    }
  }

  /** `registry_semver_sort_key`: defined exactly on the versions the application accepts. */
  method RegistrySemverSortKey(raw: Text) returns (r: Result<seq<Text>, KeyError>)
    ensures r.Ok? <==> Parse(raw).Some?
    ensures r.Ok? ==> r.value == SortKeyOf(Parse(raw).value)
  {
    ParseIsRegexpAndBounds(raw);
    if |raw| > MAX_LENGTH { return Err(NotStrictSemver); }
    var parsed := RegexpMatch(raw);
    if parsed.None? { return Err(NotStrictSemver); }
    var v := parsed.value;
    var fits := CoreFits([v.major, v.minor, v.patch]);
    if !fits { return Err(CoreTooLarge); }
    if |v.prerelease| == 0 {
      return Ok(CoreKeys(v) + [STABLE]);
    }
    r := AppendIdentifiers(CoreKeys(v) + [PRERELEASE], v.prerelease);
  }

  method CoreFits(core: seq<Text>) returns (fits: bool)
    requires |core| == 3 && forall i | 0 <= i < 3 :: IsCanonical(core[i])
    ensures fits <==> IsCoreField(core[0]) && IsCoreField(core[1]) && IsCoreField(core[2])
  {
    for i := 0 to 3
      invariant forall k | 0 <= k < i :: IsCoreField(core[k])
    {
      SafeCoreText(core[i]);
      if |core[i]| > CORE_WIDTH || (|core[i]| == CORE_WIDTH && TextLess(MAX_SAFE_TEXT, core[i])) {
        return false;
      }
    }
    return true;
  }

  method AppendIdentifiers(key: seq<Text>, ids: seq<Text>) returns (r: Result<seq<Text>, KeyError>)
    ensures r.Ok? <==> forall i | 0 <= i < |ids| :: LeadingZeroFree(ids[i])
    ensures r.Ok? ==> r.value == key + IdentifierKeys(ids)
  {
    var sortKey := key;
    for i := 0 to |ids|
      invariant sortKey == key + IdentifierKeys(ids[..i])
      invariant forall k | 0 <= k < i :: LeadingZeroFree(ids[k])
    {
      if IsNumeric(ids[i]) && |ids[i]| > 1 && ids[i][0] == ZERO {
        return Err(LeadingZero);
      }
      OneMoreKey(key, ids, i);
      sortKey := sortKey + [IdentifierKey(ids[i])];
    }
    assert ids[..|ids|] == ids;
    return Ok(sortKey);
  }

  lemma OneMoreKey(key: seq<Text>, ids: seq<Text>, i: nat)
    requires i < |ids|
    ensures key + IdentifierKeys(ids[..i + 1]) == (key + IdentifierKeys(ids[..i])) + [IdentifierKey(ids[i])]
  {
    assert ids[..i + 1][..i] == ids[..i];
    assert IdentifierKeys(ids[..i + 1]) == IdentifierKeys(ids[..i]) + [IdentifierKey(ids[i])];
  }

  lemma MaxSafeText()
    ensures IsCanonical(MAX_SAFE_TEXT) && Value(MAX_SAFE_TEXT) == MAX_SAFE_INTEGER && |MAX_SAFE_TEXT| == CORE_WIDTH
  {
    RenderValue(MAX_SAFE_INTEGER);
    RenderCanonical(MAX_SAFE_INTEGER);
    ValueBounds(MAX_SAFE_TEXT);
    assert Pow10(5) == 100000 && Pow10(10) == 10000000000 && Pow10(15) == 1000000000000000;
    if |MAX_SAFE_TEXT| < 16 { Pow10Monotone(|MAX_SAFE_TEXT|, 15); }
    if |MAX_SAFE_TEXT| > 16 { Pow10Monotone(16, |MAX_SAFE_TEXT| - 1); }
  }

  /** The SQL bound on core fields, by text, is the numeric bound of the application. */
  lemma SafeCoreText(t: Text)
    requires IsCanonical(t)
    ensures Value(t) <= MAX_SAFE_INTEGER
      <==> !(|t| > CORE_WIDTH || (|t| == CORE_WIDTH && TextLess(MAX_SAFE_TEXT, t)))
  {
    MaxSafeText();
    LengthThenText(MAX_SAFE_TEXT, t);
    LengthThenText(t, MAX_SAFE_TEXT);
    TextTrichotomy(t, MAX_SAFE_TEXT);
  }

  lemma PaddedCore(a: Text, b: Text)
    requires IsCoreField(a) && IsCoreField(b)
    ensures TextLess(LeftPad(a, CORE_WIDTH), LeftPad(b, CORE_WIDTH)) <==> Value(a) < Value(b)
    ensures LeftPad(a, CORE_WIDTH) == LeftPad(b, CORE_WIDTH) <==> Value(a) == Value(b)
  {
    SafeCoreText(a);
    SafeCoreText(b);
    PaddedOrder(a, b, CORE_WIDTH);
  }

  lemma PaddedOrder(a: Text, b: Text, width: nat)
    requires Digits(a) && Digits(b) && |a| <= width && |b| <= width
    ensures TextLess(LeftPad(a, width), LeftPad(b, width)) <==> Value(a) < Value(b)
    ensures LeftPad(a, width) == LeftPad(b, width) <==> Value(a) == Value(b)
  {
    LeftPadValue(a, width);
    LeftPadValue(b, width);
    SameLengthOrder(LeftPad(a, width), LeftPad(b, width));
  }

  lemma LeftPadValue(a: Text, width: nat)
    requires Digits(a) && |a| <= width
    ensures Digits(LeftPad(a, width)) && |LeftPad(a, width)| == width && Value(LeftPad(a, width)) == Value(a)
  {
    PaddingValue(a, width - |a|);
    assert LeftPad(a, width) == Padding(width - |a|) + a;
  }

  lemma LengthFits(n: nat)
    requires n <= MAX_LENGTH
    ensures |Render(n)| <= LENGTH_WIDTH
  {
    if n >= 100 {
      assert Render(n / 10) == Render(n / 10 / 10) + [ZERO + n / 10 % 10];
      assert n / 10 / 10 < 10;
    }
  }

  /** What stands before the digits of a numeric identifier: its padded length. */
  function LengthPrefix(n: nat): Text
    requires n <= MAX_LENGTH
  {
    LengthFits(n);
    [ZERO, COLON] + LeftPad(Render(n), LENGTH_WIDTH) + [COLON]
  }

  lemma LengthPrefixOrder(m: nat, n: nat)
    requires m <= MAX_LENGTH && n <= MAX_LENGTH
    ensures |LengthPrefix(m)| == 6 && |LengthPrefix(n)| == 6
    ensures TextLess(LengthPrefix(m), LengthPrefix(n)) <==> m < n
    ensures LengthPrefix(m) == LengthPrefix(n) <==> m == n
  {
    LengthFits(m);
    LengthFits(n);
    RenderValue(m);
    RenderValue(n);
    var x, y := LeftPad(Render(m), LENGTH_WIDTH), LeftPad(Render(n), LENGTH_WIDTH);
    PaddedOrder(Render(m), Render(n), LENGTH_WIDTH);
    LeftPadValue(Render(m), LENGTH_WIDTH);
    LeftPadValue(Render(n), LENGTH_WIDTH);
    TextAppend([ZERO, COLON] + x, [ZERO, COLON] + y, [COLON], [COLON]);
    TextPrefix([ZERO, COLON], x, y);
    assert ([ZERO, COLON] + x)[2..] == x && ([ZERO, COLON] + y)[2..] == y;
    assert LengthPrefix(m)[2..5] == x && LengthPrefix(n)[2..5] == y;
  }

  lemma NumericKeyOrder(a: Text, b: Text)
    requires IsCanonical(a) && IsCanonical(b) && |a| <= MAX_LENGTH && |b| <= MAX_LENGTH
    ensures TextLess(IdentifierKey(a), IdentifierKey(b)) <==> Value(a) < Value(b)
    ensures IdentifierKey(a) == IdentifierKey(b) <==> a == b
  {
    LengthPrefixOrder(|a|, |b|);
    assert IdentifierKey(a) == LengthPrefix(|a|) + a && IdentifierKey(b) == LengthPrefix(|b|) + b;
    TextAppend(LengthPrefix(|a|), LengthPrefix(|b|), a, b);
    LengthThenText(a, b);
    assert IdentifierKey(a)[6..] == a && IdentifierKey(b)[6..] == b;
  }

  lemma IdentifierKeyOrder(a: Text, b: Text)
    requires IsPrereleaseIdentifier(a) && IsPrereleaseIdentifier(b) && |a| <= MAX_LENGTH && |b| <= MAX_LENGTH
    ensures TextLess(IdentifierKey(a), IdentifierKey(b)) <==> IdentifierPrecedence(a, b) < 0
    ensures IdentifierKey(a) == IdentifierKey(b) <==> a == b
  {
    TextTrichotomy(a, b);
    if IsNumeric(a) && IsNumeric(b) {
      NumericKeyOrder(a, b);
    } else if !IsNumeric(a) && !IsNumeric(b) {
      TextPrefix([ZERO + 1, COLON], a, b);
      assert IdentifierKey(a)[2..] == a && IdentifierKey(b)[2..] == b;
    } else {
      assert IdentifierKey(a)[0] != IdentifierKey(b)[0];
    }
  }

  lemma {:induction false} IdentifierKeysHead(ids: seq<Text>)
    requires |ids| > 0
    ensures IdentifierKeys(ids) == [IdentifierKey(ids[0])] + IdentifierKeys(ids[1..])
  {
    var n := |ids| - 1;
    if n > 0 {
      IdentifierKeysHead(ids[..n]);
      assert ids[..n][1..] == ids[1..][..n - 1];
    }
  }

  lemma {:induction false} PrereleaseKeyOrder(a: seq<Text>, b: seq<Text>)
    requires forall i | 0 <= i < |a| :: IsPrereleaseIdentifier(a[i]) && |a[i]| <= MAX_LENGTH
    requires forall i | 0 <= i < |b| :: IsPrereleaseIdentifier(b[i]) && |b[i]| <= MAX_LENGTH
    ensures KeyLess(IdentifierKeys(a), IdentifierKeys(b)) <==> PrereleasePrecedence(a, b) < 0
    ensures IdentifierKeys(a) == IdentifierKeys(b) <==> PrereleasePrecedence(a, b) == 0
  {
    if |a| > 0 { IdentifierKeysHead(a); }
    if |b| > 0 { IdentifierKeysHead(b); }
    if |a| > 0 && |b| > 0 {
      IdentifierKeyOrder(a[0], b[0]);
      IdentifierRankOrder(a[0], b[0]);
      if IsNumeric(a[0]) && IsNumeric(b[0]) { LengthThenText(a[0], b[0]); }
      TextTrichotomy(a[0], b[0]);
      PrereleaseKeyOrder(a[1..], b[1..]);
      KeyPrefix(IdentifierKey(a[0]), IdentifierKey(b[0]), IdentifierKeys(a[1..]), IdentifierKeys(b[1..]));
    }
  }

  /** `t` is `n` in decimal, `width` digits long. */
  predicate Spelled(t: Text, n: nat, width: nat) {
    |t| == width && (forall i | 0 <= i < |t| :: 48 <= t[i] <= 57) && Value(t) == n
  }

  /** '0:' and the length in three digits and ':' and the digits for a number; '1:' and the text otherwise. */
  ghost predicate IsIdentifierKey(key: Text, id: Text) {
    if |id| > 0 && forall i | 0 <= i < |id| :: 48 <= id[i] <= 57
    then exists length :: Spelled(length, |id|, 3) && key == [48, 58] + length + [58] + id
    else key == [49, 58] + id
  }

  lemma IdentifierKeyMeans(id: Text)
    requires |id| <= MAX_LENGTH
    ensures IsIdentifierKey(IdentifierKey(id), id)
  {
    if IsNumeric(id) {
      var length := LeftPad(Render(|id|), LENGTH_WIDTH);
      LengthFits(|id|);
      LeftPadValue(Render(|id|), LENGTH_WIDTH);
      RenderValue(|id|);
      assert Spelled(length, |id|, 3) && IdentifierKey(id) == [48, 58] + length + [58] + id;
    }
  }

  lemma {:induction false} IdentifierKeysMean(ids: seq<Text>)
    requires forall i | 0 <= i < |ids| :: |ids[i]| <= MAX_LENGTH
    ensures |IdentifierKeys(ids)| == |ids|
    ensures forall i | 0 <= i < |ids| :: IsIdentifierKey(IdentifierKeys(ids)[i], ids[i])
  {
    if |ids| > 0 {
      IdentifierKeysMean(ids[..|ids| - 1]);
      IdentifierKeyMeans(ids[|ids| - 1]);
    }
  }

  lemma CoreKeyMeans(t: Text)
    requires IsCoreField(t)
    ensures Spelled(LeftPad(t, CORE_WIDTH), Value(t), 16)
  {
    SafeCoreText(t);
    LeftPadValue(t, CORE_WIDTH);
  }

  /** The parts of a key: three numbers of 16 digits, '1:' for a stable version or '0:' for a prerelease, and one part
      for each identifier. */
  lemma SortKeyMeans(v: Version)
    requires Valid(v)
    ensures |SortKeyOf(v)| == 4 + |v.prerelease|
    ensures Spelled(SortKeyOf(v)[0], Value(v.major), 16)
    ensures Spelled(SortKeyOf(v)[1], Value(v.minor), 16)
    ensures Spelled(SortKeyOf(v)[2], Value(v.patch), 16)
    ensures SortKeyOf(v)[3] == if |v.prerelease| == 0 then [49, 58] else [48, 58]
    ensures forall i | 0 <= i < |v.prerelease| :: IsIdentifierKey(SortKeyOf(v)[4 + i], v.prerelease[i])
  {
    CoreKeyMeans(v.major);
    CoreKeyMeans(v.minor);
    CoreKeyMeans(v.patch);
    IdentifierKeysMean(v.prerelease);
    assert SortKeyOf(v)[4..] == IdentifierKeys(v.prerelease);
    forall i | 0 <= i < |v.prerelease| ensures SortKeyOf(v)[4 + i] == IdentifierKeys(v.prerelease)[i] {
      assert SortKeyOf(v)[4..][i] == SortKeyOf(v)[4 + i];
    }
  }

  /** Comparing sort keys is comparing by section 11 precedence. */
  lemma SortKeyOrder(l: Version, r: Version)
    requires Valid(l) && Valid(r)
    ensures KeyLess(SortKeyOf(l), SortKeyOf(r)) <==> Precedence(l, r) < 0
    ensures SortKeyOf(l) == SortKeyOf(r) <==> Precedence(l, r) == 0
  {
    var a := CoreKeys(l) + [if |l.prerelease| == 0 then STABLE else PRERELEASE];
    var b := CoreKeys(r) + [if |r.prerelease| == 0 then STABLE else PRERELEASE];
    assert SortKeyOf(l) == a + IdentifierKeys(l.prerelease);
    assert SortKeyOf(r) == b + IdentifierKeys(r.prerelease);
    CoreKey(a, b, IdentifierKeys(l.prerelease), IdentifierKeys(r.prerelease));
    PaddedCore(l.major, r.major);
    PaddedCore(l.minor, r.minor);
    PaddedCore(l.patch, r.patch);
    PrereleaseKeyOrder(l.prerelease, r.prerelease);
    assert a == b <==> a[0] == b[0] && a[1] == b[1] && a[2] == b[2] && a[3] == b[3];
    assert TextLess(PRERELEASE, STABLE) && !TextLess(STABLE, PRERELEASE);
    TextTrichotomy(a[3], a[3]);
  }

  /** `ORDER BY semver_sort_key DESC, semver_version_tie_key DESC` and the keyset condition
      `(key, tie) < (key(after), after)`. */
  predicate SqlLess(l: VersionText, r: VersionText) {
    var a, b := SortKeyOf(Parse(l).value), SortKeyOf(Parse(r).value);
    KeyLess(b, a) || (a == b && TextLess(r, l))
  }

  /** The SQL order is the in-memory order. */
  lemma SqlOrderIsPublicOrder(l: VersionText, r: VersionText)
    ensures SqlLess(l, r) <==> PublicLess(l, r)
  {
    var a, b := Parse(l).value, Parse(r).value;
    SortKeyOrder(b, a);
    SortKeyOrder(a, b);
    PrecedenceAntisymmetric(a, b);
    TextTrichotomy(l, r);
  }
}
