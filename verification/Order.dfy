/** Strict total orders, text as code units, and sorting: what the registry's `sort`, `<` and keyset
    comparisons rest on. */
module Order {

  /** A string as its code units, where its order matters. */
  type Text = seq<nat>

  /** An order on text, such as the release order; `Semver.VersionLessStrictTotal` is about the registry's own. */
  type Less = (Text, Text) -> bool

  /** The order of `<` on strings: by code unit, a proper prefix first. */
  predicate TextLess(a: Text, b: Text) {
    |b| > 0 && (|a| == 0 || a[0] < b[0] || (a[0] == b[0] && TextLess(a[1..], b[1..])))
  }

  /** Arrays of text compared element by element, a proper prefix first. */
  predicate KeyLess(a: seq<Text>, b: seq<Text>) {
    |b| > 0 && (|a| == 0 || TextLess(a[0], b[0]) || (a[0] == b[0] && KeyLess(a[1..], b[1..])))
  }

  predicate Transits<T>(less: (T, T) -> bool, a: T, b: T, c: T) { less(a, b) && less(b, c) ==> less(a, c) }

  ghost predicate StrictTotal<T(!new)>(less: (T, T) -> bool) {
    && (forall a :: !less(a, a))
    && (forall a, b :: less(a, b) || less(b, a) || a == b)
    && (forall a, b, c {:trigger Transits(less, a, b, c)} :: Transits(less, a, b, c))
  }

  lemma Asymmetric<T(!new)>(less: (T, T) -> bool, a: T, b: T)
    requires StrictTotal(less) && less(a, b)
    ensures !less(b, a)
  {
    assert Transits(less, a, b, a);
  }

  /** At position `k` the first difference decides, or `a` has ended. */
  predicate DecidedAt(a: Text, b: Text, k: nat) {
    k <= |a| && k < |b| && a[..k] == b[..k] && (k == |a| || a[k] < b[k])
  }

  /** The order of text is that of its first different code units; a proper prefix comes first. */
  lemma {:induction false} TextLessMeans(a: Text, b: Text)
    ensures TextLess(a, b) <==> exists k: nat :: DecidedAt(a, b, k)
    decreases |a|
  {
    if |a| > 0 && |b| > 0 && a[0] == b[0] {
      TextLessMeans(a[1..], b[1..]);
      if k: nat :| DecidedAt(a[1..], b[1..], k) {
        assert a[..k + 1] == [a[0]] + a[1..][..k] && b[..k + 1] == [b[0]] + b[1..][..k];
        assert DecidedAt(a, b, k + 1);
      }
      if k: nat :| DecidedAt(a, b, k) {
        assert k > 0 && a[1..][..k - 1] == a[..k][1..] && b[1..][..k - 1] == b[..k][1..];
        assert DecidedAt(a[1..], b[1..], k - 1);
      }
    } else if |b| > 0 && (|a| == 0 || a[0] < b[0]) {
      assert DecidedAt(a, b, 0);
    } else {
      forall k: nat | 0 < k <= |a| && k <= |b| ensures a[..k] == b[..k] ==> a[0] == b[0] {
        assert a[..k][0] == a[0] && b[..k][0] == b[0];
      }
    }
  }

  lemma {:induction false} TextTrichotomy(a: Text, b: Text)
    ensures !TextLess(a, a)
    ensures TextLess(a, b) || TextLess(b, a) || a == b
    ensures !(TextLess(a, b) && TextLess(b, a))
  {
    if |a| > 0 {
      TextTrichotomy(a[1..], a[1..]);
      if |b| > 0 {
        TextTrichotomy(a[1..], b[1..]);
        if a[0] == b[0] && a[1..] == b[1..] {
          assert a == [a[0]] + a[1..] == b;
        }
      }
    }
  }

  lemma {:induction false} TextTransitive(a: Text, b: Text, c: Text)
    requires TextLess(a, b) && TextLess(b, c)
    ensures TextLess(a, c)
  {
    if |a| > 0 && a[0] == b[0] == c[0] {
      TextTransitive(a[1..], b[1..], c[1..]);
    }
  }

  lemma TextStrictTotal()
    ensures StrictTotal(TextLess)
  {
    forall a: Text, b: Text
      ensures !TextLess(a, a) && (TextLess(a, b) || TextLess(b, a) || a == b)
    {
      TextTrichotomy(a, b);
    }
    forall a: Text, b: Text, c: Text ensures Transits(TextLess, a, b, c) {
      if TextLess(a, b) && TextLess(b, c) { TextTransitive(a, b, c); }
    }
  }

  lemma {:induction false} KeyTrichotomy(a: seq<Text>, b: seq<Text>)
    ensures !KeyLess(a, a)
    ensures KeyLess(a, b) || KeyLess(b, a) || a == b
    ensures !(KeyLess(a, b) && KeyLess(b, a))
  {
    if |a| > 0 {
      TextTrichotomy(a[0], a[0]);
      KeyTrichotomy(a[1..], a[1..]);
      if |b| > 0 {
        TextTrichotomy(a[0], b[0]);
        KeyTrichotomy(a[1..], b[1..]);
        if a[0] == b[0] && a[1..] == b[1..] {
          assert a == [a[0]] + a[1..] == b;
        }
      }
    }
  }

  lemma {:induction false} KeyTransitive(a: seq<Text>, b: seq<Text>, c: seq<Text>)
    requires KeyLess(a, b) && KeyLess(b, c)
    ensures KeyLess(a, c)
  {
    if |a| > 0 {
      if a[0] == b[0] == c[0] {
        TextTrichotomy(a[0], a[0]);
        KeyTransitive(a[1..], b[1..], c[1..]);
      } else if TextLess(a[0], b[0]) && TextLess(b[0], c[0]) {
        TextTransitive(a[0], b[0], c[0]);
      }
    }
  }

  /** Texts of one length: what follows does not matter once they differ. */
  lemma {:induction false} TextAppend(a: Text, b: Text, x: Text, y: Text)
    requires |a| == |b|
    ensures TextLess(a + x, b + y) <==> TextLess(a, b) || (a == b && TextLess(x, y))
  {
    if |a| == 0 {
      assert a + x == x && b + y == y;
    } else {
      TextAppend(a[1..], b[1..], x, y);
      assert (a + x)[1..] == a[1..] + x && (b + y)[1..] == b[1..] + y;
      assert a == b <==> a[0] == b[0] && a[1..] == b[1..] by {
        assert a == [a[0]] + a[1..] && b == [b[0]] + b[1..];
      }
    }
  }

  /** Strict lexicographic order decides at the first differing position. */
  lemma TextPrefix(p: Text, a: Text, b: Text)
    ensures TextLess(p + a, p + b) <==> TextLess(a, b)
  {
    TextTrichotomy(p, p);
    TextAppend(p, p, a, b);
  }

  function IndexOf(t: Text, c: nat): (i: nat)
    ensures i <= |t|
    ensures i < |t| ==> t[i] == c
    ensures forall k | 0 <= k < i :: t[k] != c
  {
    if |t| == 0 || t[0] == c then 0 else 1 + IndexOf(t[1..], c)
  }

  // ---- sorting ----

  ghost predicate Ascending<T>(s: seq<T>, less: (T, T) -> bool) {
    forall i, j | 0 <= i < j < |s| :: less(s[i], s[j])
  }

  ghost predicate Distinct<T>(s: seq<T>) {
    forall i, j | 0 <= i < j < |s| :: s[i] != s[j]
  }

  function Insert<T(!new)>(x: T, s: seq<T>, less: (T, T) -> bool): seq<T> {
    if |s| == 0 || less(x, s[0]) then [x] + s else [s[0]] + Insert(x, s[1..], less)
  }

  function Sort<T(!new)>(s: seq<T>, less: (T, T) -> bool): seq<T> {
    if |s| == 0 then [] else Insert(s[0], Sort(s[1..], less), less)
  }

  lemma {:induction false} InsertPermutes<T(!new)>(x: T, s: seq<T>, less: (T, T) -> bool)
    ensures multiset(Insert(x, s, less)) == multiset([x] + s)
  {
    if |s| > 0 && !less(x, s[0]) {
      InsertPermutes(x, s[1..], less);
      assert s == [s[0]] + s[1..];
    }
  }

  lemma {:induction false} SortPermutes<T(!new)>(s: seq<T>, less: (T, T) -> bool)
    ensures multiset(Sort(s, less)) == multiset(s)
    ensures |Sort(s, less)| == |s|
    ensures forall x :: x in Sort(s, less) <==> x in s
  {
    if |s| > 0 {
      SortPermutes(s[1..], less);
      InsertPermutes(s[0], Sort(s[1..], less), less);
      assert s == [s[0]] + s[1..];
    }
    MultisetMembers(Sort(s, less), s);
  }

  lemma MultisetMembers<T>(a: seq<T>, b: seq<T>)
    requires multiset(a) == multiset(b)
    ensures |a| == |b| && forall x :: x in a <==> x in b
  {
    assert |multiset(a)| == |multiset(b)|;
    forall x ensures x in a <==> x in b {
      assert x in a <==> x in multiset(a);
      assert x in b <==> x in multiset(b);
    }
  }

  lemma {:induction false} InsertAscending<T(!new)>(x: T, s: seq<T>, less: (T, T) -> bool)
    requires StrictTotal(less) && Ascending(s, less) && x !in s
    ensures Ascending(Insert(x, s, less), less)
  {
    if |s| == 0 {
    } else if less(x, s[0]) {
      forall i | 0 <= i < |s| ensures less(x, s[i]) { assert Transits(less, x, s[0], s[i]); }
    } else {
      InsertAscending(x, s[1..], less);
      var r := Insert(x, s[1..], less);
      InsertPermutes(x, s[1..], less);
      MultisetMembers(r, [x] + s[1..]);
      assert forall y | y in r :: y == x || y in s[1..];
      assert s[0] != x && forall i | 0 < i < |s| :: less(s[0], s[i]);
      assert forall y | y in r :: less(s[0], y);
    }
  }

  lemma {:induction false} SortAscending<T(!new)>(s: seq<T>, less: (T, T) -> bool)
    requires StrictTotal(less) && Distinct(s)
    ensures Ascending(Sort(s, less), less)
  {
    if |s| > 0 {
      SortAscending(s[1..], less);
      SortPermutes(s[1..], less);
      InsertAscending(s[0], Sort(s[1..], less), less);
    }
  }

  lemma FirstMember<T>(s: seq<T>)
    ensures |s| == 0 || s[0] in s
  {
  }

  /** An ascending sequence is determined by its members: any sorting algorithm gives `Sort`. */
  lemma {:induction false} AscendingUnique<T(!new)>(a: seq<T>, b: seq<T>, less: (T, T) -> bool)
    requires StrictTotal(less) && Ascending(a, less) && Ascending(b, less)
    requires forall x :: x in a <==> x in b
    ensures a == b
  {
    FirstMember(a);
    FirstMember(b);
    if |a| > 0 && |b| > 0 {
      assert a[0] == b[0] by {
        assert a[0] in b && b[0] in a;
        var i :| 0 <= i < |b| && b[i] == a[0];
        var j :| 0 <= j < |a| && a[j] == b[0];
        assert Transits(less, a[0], b[0], a[0]);
      }
      forall x ensures x in a[1..] <==> x in b[1..] {
        if x in a[1..] { assert less(a[0], x); assert x in b; }
        if x in b[1..] { assert less(b[0], x); assert x in a; }
      }
      AscendingUnique(a[1..], b[1..], less);
      assert a == [a[0]] + a[1..] && b == [b[0]] + b[1..];
    }
  }

  lemma SortIgnoresOrder<T(!new)>(s: seq<T>, t: seq<T>, less: (T, T) -> bool)
    requires StrictTotal(less) && Distinct(s) && Distinct(t)
    requires forall x :: x in s <==> x in t
    ensures Sort(s, less) == Sort(t, less)
  {
    SortAscending(s, less);
    SortAscending(t, less);
    SortPermutes(s, less);
    SortPermutes(t, less);
    AscendingUnique(Sort(s, less), Sort(t, less), less);
  }

  /** The first element of a non-empty set. */
  ghost function Least<T(!new)>(s: set<T>, less: (T, T) -> bool): (m: T)
    requires StrictTotal(less) && s != {}
    ensures m in s && forall x | x in s && x != m :: less(m, x)
  {
    var x :| x in s;
    if s == {x} then x else
    var m := Least(s - {x}, less);
    if less(x, m) then
      assert forall y | y in s && y != x && y != m :: Transits(less, x, m, y);
      x
    else
      m
  }

  /** The elements of a set in order. */
  ghost function SortedSet<T(!new)>(s: set<T>, less: (T, T) -> bool): (r: seq<T>)
    requires StrictTotal(less)
    ensures Ascending(r, less) && forall x :: x in r <==> x in s
  {
    if s == {} then [] else
    var m := Least(s, less);
    [m] + SortedSet(s - {m}, less)
  }

  lemma SortIsSortedSet<T(!new)>(s: seq<T>, members: set<T>, less: (T, T) -> bool)
    requires StrictTotal(less) && Distinct(s) && forall x :: x in s <==> x in members
    ensures Sort(s, less) == SortedSet(members, less)
  {
    SortAscending(s, less);
    SortPermutes(s, less);
    AscendingUnique(Sort(s, less), SortedSet(members, less), less);
  }
}
