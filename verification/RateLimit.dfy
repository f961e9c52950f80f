/** The token-bucket limiter of the public surface: its bound on every window, its retry promise, and the
    bounded table that forgets the clients seen longest ago. Tokens and seconds are reals. */
module RateLimit {
  import opened Order

  type Key = string

  /** One client's bucket; the table lists the client seen longest ago first. */
  datatype Entry = Entry(key: Key, tokens: real, updatedAt: real)

  type Table = seq<Entry>

  datatype Decision = Decision(allowed: bool, retryAfterSeconds: int)

  datatype Config = Config(capacity: nat, refillPerSecond: real, maxClients: nat) {
    predicate Ok() { capacity >= 1 && refillPerSecond > 0.0 && maxClients >= 1 }
  }

  function Min(a: real, b: real): real { if a <= b then a else b }

  function Max(a: real, b: real): real { if a >= b then a else b }

  function Ceiling(x: real): (n: int)
    ensures n as real - 1.0 < x <= n as real
  {
    if x.Floor as real == x then x.Floor else x.Floor + 1
  }

  // ---- the table ----

  predicate Has(t: Table, key: Key) { exists i | 0 <= i < |t| :: t[i].key == key }

  predicate DistinctKeys(t: Table) { forall i, j | 0 <= i < j < |t| :: t[i].key != t[j].key }

  function Without(t: Table, key: Key): Table
    decreases |t|
  {
    if |t| == 0 then [] else
    var rest := Without(t[..|t| - 1], key);
    if t[|t| - 1].key == key then rest else rest + [t[|t| - 1]]
  }

  /** The tokens a client may spend at a time: what is left in its bucket, refilled; a full bucket if unknown. */
  function Available(c: Config, t: Table, key: Key, now: real): real
    requires c.Ok()
    decreases |t|
  {
    if |t| == 0 then c.capacity as real else
    var e := t[|t| - 1];
    if e.key == key then Min(c.capacity as real, e.tokens + Max(0.0, now - e.updatedAt) * c.refillPerSecond)
    else Available(c, t[..|t| - 1], key, now)
  }

  function Decide(c: Config, tokens: real): Decision
    requires c.Ok()
  {
    if tokens >= 1.0 then Decision(true, 0)
    else
      var wait := Ceiling((1.0 - tokens) / c.refillPerSecond);
      Decision(false, if wait < 1 then 1 else wait)
  }

  /** The client's entry is deleted and inserted again at the end. */
  function Touch(t: Table, e: Entry): Table { Without(t, e.key) + [e] }

  function Left(c: Config, tokens: real, key: Key, now: real): Entry
    requires c.Ok()
  {
    Entry(key, if tokens >= 1.0 then tokens - 1.0 else tokens, now)
  }

  /** A check without eviction: the decision, and the client moved to the end with what it has left. */
  function Check(c: Config, t: Table, key: Key, now: real): (Decision, Table)
    requires c.Ok()
  {
    var tokens := Available(c, t, key, now);
    (Decide(c, tokens), Touch(t, Left(c, tokens, key, now)))
  }

  /** The `n` clients seen last. */
  function Latest(t: Table, n: nat): Table { if |t| <= n then t else t[|t| - n..] }

  lemma {:induction false} WithoutMembers(t: Table, key: Key)
    ensures forall e :: e in Without(t, key) <==> e in t && e.key != key
    ensures |Without(t, key)| <= |t|
    decreases |t|
  {
    if |t| > 0 {
      WithoutMembers(t[..|t| - 1], key);
      assert t == t[..|t| - 1] + [t[|t| - 1]];
    }
  }

  lemma {:induction false} WithoutAbsent(t: Table, key: Key)
    requires forall i | 0 <= i < |t| :: t[i].key != key
    ensures Without(t, key) == t
    decreases |t|
  {
    if |t| > 0 {
      WithoutAbsent(t[..|t| - 1], key);
      assert t == t[..|t| - 1] + [t[|t| - 1]];
    }
  }

  lemma {:induction false} WithoutDistinct(t: Table, key: Key)
    requires DistinctKeys(t)
    ensures DistinctKeys(Without(t, key))
    decreases |t|
  {
    if |t| > 0 {
      var n := |t| - 1;
      WithoutDistinct(t[..n], key);
      WithoutMembers(t[..n], key);
      if t[n].key != key {
        forall e | e in Without(t[..n], key) ensures e.key != t[n].key {
          assert e in t[..n];
        }
        DistinctSnoc(Without(t[..n], key), t[n]);
      }
    }
  }

  lemma WithoutIs(t: Table, key: Key)
    ensures forall e :: e in Without(t, key) <==> e in t && e.key != key
    ensures |Without(t, key)| <= |t|
    ensures !Has(t, key) ==> Without(t, key) == t
    ensures DistinctKeys(t) ==> DistinctKeys(Without(t, key))
  {
    WithoutMembers(t, key);
    if !Has(t, key) { WithoutAbsent(t, key); }
    if DistinctKeys(t) { WithoutDistinct(t, key); }
  }

  /** Removing a client that is not among the first `m` removes it from the rest. */
  lemma {:induction false} WithoutSuffix(t: Table, m: nat, key: Key)
    requires m <= |t| && forall i | 0 <= i < m :: t[i].key != key
    ensures Without(t, key) == t[..m] + Without(t[m..], key)
    decreases |t|
  {
    if m == |t| {
      assert t[..m] == t;
      WithoutIs(t, key);
      assert !Has(t, key);
    } else {
      var n := |t| - 1;
      WithoutSuffix(t[..n], m, key);
      assert t[..n][m..] == t[m..][..n - m];
      assert t[..n][..m] == t[..m];
    }
  }

  lemma {:induction false} WithoutOne(t: Table, p: nat, key: Key)
    requires DistinctKeys(t) && p < |t| && t[p].key == key
    ensures Without(t, key) == t[..p] + t[p + 1..]
  {
    WithoutSuffix(t, p, key);
    var rest := t[p..];
    assert rest == [t[p]] + t[p + 1..];
    WithoutHead(t[p], t[p + 1..], key);
    assert !Has(t[p + 1..], key);
    WithoutIs(t[p + 1..], key);
  }

  lemma {:induction false} WithoutHead(e: Entry, rest: Table, key: Key)
    requires e.key == key
    ensures Without([e] + rest, key) == Without(rest, key)
    decreases |rest|
  {
    if |rest| > 0 {
      var n := |rest| - 1;
      WithoutHead(e, rest[..n], key);
      assert ([e] + rest)[..n + 1] == [e] + rest[..n];
    } else {
      assert ([e] + rest)[..0] == [];
    }
  }

  lemma TouchFits(t: Table, e: Entry)
    requires DistinctKeys(t)
    ensures DistinctKeys(Touch(t, e))
  {
    WithoutIs(t, e.key);
    DistinctSnoc(Without(t, e.key), e);
  }

  // ---- the limiter ----

  class PublicRateLimiter {
    const c: Config
    var buckets: Table

    ghost predicate Valid()
      reads this
    {
      c.Ok() && DistinctKeys(buckets) && |buckets| <= c.maxClients
    }

    constructor (c: Config)
      requires c.Ok()
      ensures Valid() && this.c == c && buckets == []
    {
      this.c := c;
      buckets := [];
    }

    /** The table never holds more than `maxClients`, and forgets exactly the clients seen longest ago. */
    method CheckKey(key: Key, now: real) returns (decision: Decision)
      requires Valid()
      modifies this
      ensures Valid()
      ensures decision == Check(c, old(buckets), key, now).0
      ensures buckets == Latest(Check(c, old(buckets), key, now).1, c.maxClients)
    {
      var tokens := Available(c, buckets, key, now);
      ghost var before, available := buckets, tokens;
      buckets := Without(buckets, key);
      if tokens >= 1.0 {
        tokens := tokens - 1.0;
        decision := Decision(true, 0);
      } else {
        var wait := Ceiling((1.0 - tokens) / c.refillPerSecond);
        decision := Decision(false, if wait < 1 then 1 else wait);
      }
      buckets := buckets + [Entry(key, tokens, now)];
      TouchFits(before, Left(c, available, key, now));
      Evict(key);
    }

    method Evict(key: Key)
      requires c.Ok() && DistinctKeys(buckets) && |buckets| > 0 && buckets[|buckets| - 1].key == key
      modifies this`buckets
      ensures Valid() && buckets == Latest(old(buckets), c.maxClients)
    {
      ghost var whole := buckets;
      while |buckets| > c.maxClients
        invariant 0 < |buckets| <= |whole| && buckets == whole[|whole| - |buckets|..]
        invariant |buckets| >= c.maxClients || buckets == whole
      {
        if buckets[0].key == key { break; }
        buckets := buckets[1..];
      }
    }
  }

  // ---- traces ----

  datatype Request = Request(key: Key, at: real)

  predicate InOrder(trace: seq<Request>, i: nat, j: nat) { i <= j < |trace| ==> trace[i].at <= trace[j].at }

  /** The clock does not go back. */
  ghost predicate ClockRuns(trace: seq<Request>) {
    forall i: nat, j: nat {:trigger InOrder(trace, i, j)} :: InOrder(trace, i, j)
  }

  /** The table of a limiter that never forgets. */
  function Unbounded(c: Config, trace: seq<Request>): Table
    requires c.Ok()
    decreases |trace|
  {
    if |trace| == 0 then [] else
    var q := trace[|trace| - 1];
    Check(c, Unbounded(c, trace[..|trace| - 1]), q.key, q.at).1
  }

  /** `tables` are what a limiter that starts empty holds before each request and after the last one. */
  ghost predicate IsRun(c: Config, trace: seq<Request>, tables: seq<Table>)
    requires c.Ok()
  {
    && |tables| == |trace| + 1 && tables[0] == []
    && forall n {:trigger StepAt(c, trace, tables, n)} | 0 <= n < |trace| :: StepAt(c, trace, tables, n)
  }

  ghost predicate StepAt(c: Config, trace: seq<Request>, tables: seq<Table>, n: nat)
    requires c.Ok() && n < |trace| && |tables| == |trace| + 1
  {
    tables[n + 1] == Latest(Check(c, tables[n], trace[n].key, trace[n].at).1, c.maxClients)
  }

  /** The decision on request `n` by a limiter that never forgets. */
  function UnboundedDecision(c: Config, trace: seq<Request>, n: nat): Decision
    requires c.Ok() && n < |trace|
  {
    Check(c, Unbounded(c, trace[..n]), trace[n].key, trace[n].at).0
  }

  /** The decision on request `n`. */
  function DecisionAt(c: Config, trace: seq<Request>, tables: seq<Table>, n: nat): Decision
    requires c.Ok() && n < |trace| && |tables| == |trace| + 1
  {
    Check(c, tables[n], trace[n].key, trace[n].at).0
  }

  /** Request `n` finds a whole token. */
  predicate Allows(c: Config, trace: seq<Request>, tables: seq<Table>, n: nat)
    requires c.Ok() && n < |trace| && |tables| == |trace| + 1
  {
    Available(c, tables[n], trace[n].key, trace[n].at) >= 1.0
  }

  predicate Seen(trace: seq<Request>, key: Key) { exists i | 0 <= i < |trace| :: trace[i].key == key }

  /** The clients that came after the last request of `key`. */
  function Since(trace: seq<Request>, key: Key): set<Key>
    decreases |trace|
  {
    if |trace| == 0 || trace[|trace| - 1].key == key then {}
    else Since(trace[..|trace| - 1], key) + {trace[|trace| - 1].key}
  }

  /** Fewer than `maxClients` other clients come between two consecutive requests of a client. */
  ghost predicate Spaced(c: Config, trace: seq<Request>) {
    forall n {:trigger SpacedAt(c, trace, n)} | 0 <= n < |trace| :: SpacedAt(c, trace, n)
  }

  ghost predicate SpacedAt(c: Config, trace: seq<Request>, n: nat)
    requires n < |trace|
  {
    Seen(trace[..n], trace[n].key) ==> |Since(trace[..n], trace[n].key)| < c.maxClients
  }

  /** The clients behind `key` in the table. */
  function Behind(t: Table, key: Key): set<Key>
    decreases |t|
  {
    if |t| == 0 || t[|t| - 1].key == key then {}
    else Behind(t[..|t| - 1], key) + {t[|t| - 1].key}
  }

  lemma {:induction false} BehindCounts(t: Table, p: nat)
    requires DistinctKeys(t) && p < |t|
    ensures |Behind(t, t[p].key)| == |t| - 1 - p
    decreases |t|
  {
    var n := |t| - 1;
    if p < n {
      BehindCounts(t[..n], p);
      if t[n].key in Behind(t[..n], t[p].key) { BehindIsHad(t[..n], t[p].key, t[n].key); }
    }
  }

  lemma {:induction false} BehindIsHad(t: Table, key: Key, k: Key)
    requires k in Behind(t, key)
    ensures Has(t, k)
    decreases |t|
  {
    var n := |t| - 1;
    HasSnoc(t[..n], t[n]);
    assert t == t[..n] + [t[n]];
    if t[n].key != k { BehindIsHad(t[..n], key, k); }
  }

  lemma HasSnoc(t: Table, e: Entry)
    ensures forall key :: Has(t + [e], key) <==> Has(t, key) || e.key == key
  {
    forall key ensures Has(t + [e], key) <==> Has(t, key) || e.key == key {
      if Has(t, key) {
        var i :| 0 <= i < |t| && t[i].key == key;
        assert (t + [e])[i].key == key;
      }
      assert (t + [e])[|t|] == e;
    }
  }

  /** Taking one client out leaves everybody else in order. */
  lemma {:induction false} BehindWithout(t: Table, out: Key, key: Key)
    requires key != out
    ensures Behind(Without(t, out), key) + {out} == Behind(t, key) + {out} || !Has(t, key)
    ensures Has(Without(t, out), key) <==> Has(t, key)
    decreases |t|
  {
    if |t| > 0 {
      var n := |t| - 1;
      BehindWithout(t[..n], out, key);
      HasSnoc(t[..n], t[n]);
      HasSnoc(Without(t[..n], out), t[n]);
      assert t == t[..n] + [t[n]];
      if t[n].key != out {
        assert (Without(t[..n], out) + [t[n]])[..|Without(t[..n], out)|] == Without(t[..n], out);
      }
    }
  }

  lemma TouchMoves(t: Table, e: Entry, key: Key)
    requires DistinctKeys(t)
    ensures DistinctKeys(Touch(t, e))
    ensures Has(Touch(t, e), key) <==> Has(t, key) || key == e.key
    ensures key == e.key ==> Behind(Touch(t, e), key) == {}
    ensures key != e.key && Has(t, key) ==> Behind(Touch(t, e), key) == Behind(t, key) + {e.key}
  {
    var kept := Without(t, e.key);
    assert (kept + [e])[..|kept|] == kept;
    WithoutIs(t, e.key);
    DistinctSnoc(kept, e);
    HasSnoc(kept, e);
    if key != e.key { BehindWithout(t, e.key, key); }
  }

  /** The unbounded table is in order of the last request: behind a client stand exactly those that came since. */
  lemma {:induction false} UnboundedOrder(c: Config, trace: seq<Request>, key: Key)
    requires c.Ok()
    ensures DistinctKeys(Unbounded(c, trace))
    ensures Has(Unbounded(c, trace), key) <==> Seen(trace, key)
    ensures Seen(trace, key) ==> Behind(Unbounded(c, trace), key) == Since(trace, key)
    decreases |trace|
  {
    if |trace| > 0 {
      var n := |trace| - 1;
      var q := trace[n];
      UnboundedOrder(c, trace[..n], key);
      var before := Unbounded(c, trace[..n]);
      TouchMoves(before, Left(c, Available(c, before, q.key, q.at), q.key, q.at), key);
      SeenSnoc(trace, n);
      assert trace[..n + 1] == trace;
    }
  }

  lemma {:induction false} BehindSuffix(t: Table, m: nat, p: nat)
    requires m <= p < |t|
    ensures Behind(t[m..], t[p].key) == Behind(t, t[p].key)
    decreases |t|
  {
    var n := |t| - 1;
    if t[n].key != t[p].key {
      BehindSuffix(t[..n], m, p);
      assert t[m..][..n - m] == t[..n][m..];
    }
  }

  lemma SuffixHas(t: Table, m: nat, p: nat)
    requires DistinctKeys(t) && m <= |t| && p < |t|
    ensures Has(t[m..], t[p].key) <==> m <= p
  {
    if m <= p { assert t[m..][p - m].key == t[p].key; }
    if Has(t[m..], t[p].key) {
      var i :| 0 <= i < |t[m..]| && t[m..][i].key == t[p].key;
      assert t[m + i].key == t[p].key;
    }
  }

  lemma SuffixHasNo(t: Table, m: nat, key: Key)
    requires m <= |t| && forall i | 0 <= i < |t| :: t[i].key != key
    ensures !Has(t[m..], key)
  {
    forall i | 0 <= i < |t[m..]| ensures t[m..][i].key != key { assert t[m..][i] == t[m + i]; }
  }

  /** Cutting the table keeps those with fewer than `n` behind them, and who is behind them. */
  lemma LatestBehind(t: Table, n: nat, key: Key)
    requires DistinctKeys(t) && n >= 1
    ensures Has(Latest(t, n), key) <==> Has(t, key) && |Behind(t, key)| < n
    ensures Has(Latest(t, n), key) ==> Behind(Latest(t, n), key) == Behind(t, key)
  {
    var m := if |t| <= n then 0 else |t| - n;
    assert Latest(t, n) == t[m..];
    if Has(t, key) {
      var p :| 0 <= p < |t| && t[p].key == key;
      BehindCounts(t, p);
      SuffixHas(t, m, p);
      if m <= p { BehindSuffix(t, m, p); }
    } else {
      SuffixHasNo(t, m, key);
    }
  }

  /** One request more: those behind `key`, and whether it is still in the table. */
  lemma RunOrderStep(c: Config, trace: seq<Request>, tables: seq<Table>, n: nat, key: Key)
    requires c.Ok() && IsRun(c, trace, tables) && n < |trace| && DistinctKeys(tables[n])
    ensures DistinctKeys(tables[n + 1])
    ensures key == trace[n].key ==> Has(tables[n + 1], key) && Behind(tables[n + 1], key) == {}
    ensures key != trace[n].key ==>
              && (Has(tables[n + 1], key) <==>
                    Has(tables[n], key) && |Behind(tables[n], key) + {trace[n].key}| < c.maxClients)
              && (Has(tables[n + 1], key) ==> Behind(tables[n + 1], key) == Behind(tables[n], key) + {trace[n].key})
  {
    assert StepAt(c, trace, tables, n);
    var t, q := tables[n], trace[n];
    var e := Left(c, Available(c, t, q.key, q.at), q.key, q.at);
    TouchMoves(t, e, key);
    LatestBehind(Touch(t, e), c.maxClients, key);
  }

  /** The table of every run is in order of the last request, and holds exactly the clients since whose last
      request fewer than `maxClients` others came. */
  lemma {:induction false} TableOrder(c: Config, trace: seq<Request>, tables: seq<Table>, n: nat, key: Key)
    requires c.Ok() && IsRun(c, trace, tables) && n <= |trace|
    ensures DistinctKeys(tables[n])
    ensures Has(tables[n], key) <==> Seen(trace[..n], key) && |Since(trace[..n], key)| < c.maxClients
    ensures Has(tables[n], key) ==> Behind(tables[n], key) == Since(trace[..n], key)
    decreases n
  {
    if n > 0 {
      var before, other := trace[..n - 1], trace[n - 1].key;
      TableOrder(c, trace, tables, n - 1, key);
      RunOrderStep(c, trace, tables, n - 1, key);
      SeenSnoc(trace, n - 1);
      assert trace[..n][..n - 1] == before;
      assert other in Since(before, key) ==> Since(before, key) + {other} == Since(before, key);
    }
  }

  lemma DistinctSnoc(t: Table, e: Entry)
    requires DistinctKeys(t) && forall x | x in t :: x.key != e.key
    ensures DistinctKeys(t + [e])
  {
    assert forall i | 0 <= i < |t| :: t[i] in t;
  }

  lemma SeenSnoc(trace: seq<Request>, n: nat)
    requires n < |trace|
    ensures forall key :: Seen(trace[..n + 1], key) <==> Seen(trace[..n], key) || trace[n].key == key
  {
    forall key ensures Seen(trace[..n + 1], key) <==> Seen(trace[..n], key) || trace[n].key == key {
      if Seen(trace[..n], key) {
        var i :| 0 <= i < n && trace[..n][i].key == key;
        assert trace[..n + 1][i].key == key;
      }
      assert trace[..n + 1][n] == trace[n];
      if Seen(trace[..n + 1], key) && trace[n].key != key {
        var i :| 0 <= i < n + 1 && trace[..n + 1][i].key == key;
        assert trace[..n][i].key == key;
      }
    }
  }

  // ---- forgetting does not show ----

  /** A client among the latest `n` has the same tokens in the cut table. */
  lemma {:induction false} AvailableInLatest(c: Config, t: Table, m: nat, key: Key, now: real)
    requires c.Ok() && m <= |t| && forall i | 0 <= i < m :: t[i].key != key
    ensures Available(c, t[m..], key, now) == Available(c, t, key, now)
    decreases |t|
  {
    if m < |t| {
      var n := |t| - 1;
      assert t[m..][..n - m] == t[..n][m..];
      if t[n].key != key { AvailableInLatest(c, t[..n], m, key, now); }
    } else {
      AvailableUnknown(c, t, key, now);
    }
  }

  lemma {:induction false} AvailableUnknown(c: Config, t: Table, key: Key, now: real)
    requires c.Ok() && forall i | 0 <= i < |t| :: t[i].key != key
    ensures Available(c, t, key, now) == c.capacity as real
    decreases |t|
  {
    if |t| > 0 { AvailableUnknown(c, t[..|t| - 1], key, now); }
  }

  lemma LatestTouch(t: Table, e: Entry, n: nat)
    requires n >= 1 && DistinctKeys(t) && forall i | 0 <= i < |t| - n :: t[i].key != e.key
    ensures Latest(Touch(Latest(t, n), e), n) == Latest(Touch(t, e), n)
  {
    var m := if |t| <= n then 0 else |t| - n;
    var cut := t[m..];
    assert Latest(t, n) == cut;
    WithoutSuffix(t, m, e.key);
    WithoutIs(cut, e.key);
    assert Touch(t, e) == t[..m] + Touch(cut, e);
    if m > 0 && Has(cut, e.key) {
      var p :| 0 <= p < |cut| && cut[p].key == e.key;
      WithoutOne(cut, p, e.key);
    }
    LatestAppend(t[..m], Touch(cut, e), n);
  }

  lemma LatestAppend(a: Table, b: Table, n: nat)
    requires |a| == 0 || |b| >= n
    ensures Latest(a + b, n) == Latest(b, n)
  {
    if |a| == 0 {
      assert a + b == b;
    } else {
      assert (a + b)[|a + b| - n..] == b[|b| - n..];
    }
  }

  /** Cutting the table before a check and after it is the same, if the client is new or among the latest. */
  lemma CheckOnLatest(c: Config, t: Table, key: Key, now: real)
    requires c.Ok() && DistinctKeys(t)
    requires forall i | 0 <= i < |t| - c.maxClients :: t[i].key != key
    ensures Check(c, Latest(t, c.maxClients), key, now).0 == Check(c, t, key, now).0
    ensures Latest(Check(c, Latest(t, c.maxClients), key, now).1, c.maxClients)
         == Latest(Check(c, t, key, now).1, c.maxClients)
  {
    var m := if |t| <= c.maxClients then 0 else |t| - c.maxClients;
    assert Latest(t, c.maxClients) == t[m..];
    AvailableInLatest(c, t, m, key, now);
    LatestTouch(t, Left(c, Available(c, t, key, now), key, now), c.maxClients);
  }

  /** On a trace where fewer than `maxClients` others come between two requests of a client, the limiter decides
      as one that never forgets: its table is the latest part of that one's. */
  lemma {:induction false} ForgettingDoesNotShow(c: Config, trace: seq<Request>, tables: seq<Table>, n: nat)
    requires c.Ok() && Spaced(c, trace) && IsRun(c, trace, tables) && n <= |trace|
    ensures tables[n] == Latest(Unbounded(c, trace[..n]), c.maxClients)
    ensures n < |trace| ==> DecisionAt(c, trace, tables, n) == UnboundedDecision(c, trace, n)
    decreases n
  {
    if n > 0 {
      ForgettingDoesNotShow(c, trace, tables, n - 1);
      CutStep(c, trace, n - 1);
      assert StepAt(c, trace, tables, n - 1);
      assert trace[..n][..n - 1] == trace[..n - 1];
    }
    if n < |trace| { CutStep(c, trace, n); }
  }

  /** Request `n` of a spaced trace, on the whole table and on the latest part of it. */
  lemma CutStep(c: Config, trace: seq<Request>, n: nat)
    requires c.Ok() && n < |trace| && Spaced(c, trace)
    ensures var t, q := Unbounded(c, trace[..n]), trace[n];
            && Check(c, Latest(t, c.maxClients), q.key, q.at).0 == Check(c, t, q.key, q.at).0
            && Latest(Check(c, Latest(t, c.maxClients), q.key, q.at).1, c.maxClients)
               == Latest(Check(c, t, q.key, q.at).1, c.maxClients)
  {
    NewOrLatest(c, trace, n);
    UnboundedOrder(c, trace[..n], trace[n].key);
    CheckOnLatest(c, Unbounded(c, trace[..n]), trace[n].key, trace[n].at);
  }

  lemma NewOrLatest(c: Config, trace: seq<Request>, n: nat)
    requires c.Ok() && n < |trace| && Spaced(c, trace)
    ensures var t := Unbounded(c, trace[..n]); forall i | 0 <= i < |t| - c.maxClients :: t[i].key != trace[n].key
  {
    var t, key := Unbounded(c, trace[..n]), trace[n].key;
    UnboundedOrder(c, trace[..n], key);
    assert SpacedAt(c, trace, n);
    forall i | 0 <= i < |t| && t[i].key == key ensures i >= |t| - c.maxClients {
      BehindCounts(t, i);
      assert Has(t, key);
    }
  }

  // ---- what a client can spend ----

  lemma {:induction false} AvailableWithout(c: Config, t: Table, out: Key, key: Key, now: real)
    requires c.Ok() && key != out
    ensures Available(c, Without(t, out), key, now) == Available(c, t, key, now)
    decreases |t|
  {
    if |t| > 0 {
      var n := |t| - 1;
      AvailableWithout(c, t[..n], out, key, now);
      if t[n].key != out {
        assert (Without(t[..n], out) + [t[n]])[..|Without(t[..n], out)|] == Without(t[..n], out);
      }
    }
  }

  function Refilled(c: Config, e: Entry, now: real): real
    requires c.Ok()
  {
    Min(c.capacity as real, e.tokens + Max(0.0, now - e.updatedAt) * c.refillPerSecond)
  }

  lemma AvailableTouched(c: Config, t: Table, e: Entry, key: Key, now: real)
    requires c.Ok()
    ensures Available(c, Touch(t, e), key, now) ==
            if key == e.key then Refilled(c, e, now) else Available(c, t, key, now)
  {
    assert Touch(t, e)[..|Without(t, e.key)|] == Without(t, e.key);
    if key != e.key { AvailableWithout(c, t, e.key, key, now); }
  }

  lemma AvailableLast(c: Config, t: Table, key: Key, now: real)
    requires c.Ok() && |t| > 0
    ensures Available(c, t, key, now) ==
            if t[|t| - 1].key == key then Refilled(c, t[|t| - 1], now) else Available(c, t[..|t| - 1], key, now)
  {
  }

  lemma MinGrows(cap: real, x: real, y: real, d: real)
    requires y <= x + d && d >= 0.0
    ensures Min(cap, y) <= Min(cap, x) + d
  {
  }

  lemma RefilledGrows(c: Config, e: Entry, now: real, later: real)
    requires c.Ok() && now <= later
    ensures Refilled(c, e, later) <= Refilled(c, e, now) + (later - now) * c.refillPerSecond
  {
    var a, b, d, r := Max(0.0, now - e.updatedAt), Max(0.0, later - e.updatedAt), later - now, c.refillPerSecond;
    assert b <= a + d;
    ProductMonotone(b, a + d, r);
    Distribute(a, d, r);
    RefillNonNegative(d, r);
    MinGrows(c.capacity as real, e.tokens + a * r, e.tokens + b * r, d * r);
  }

  lemma Distribute(a: real, b: real, r: real)
    ensures a * r + b * r == (a + b) * r
  {
  }

  lemma RefillNonNegative(d: real, r: real)
    requires d >= 0.0 && r > 0.0
    ensures d * r >= 0.0
  {
  }

  /** No bucket gains more than `gain` from one time to another. */
  ghost predicate GainsAtMost(c: Config, now: real, later: real, gain: real)
    requires c.Ok()
  {
    gain >= 0.0 && forall e :: Refilled(c, e, later) <= Refilled(c, e, now) + gain
  }

  lemma {:induction false} AvailableGains(c: Config, t: Table, key: Key, now: real, later: real, gain: real)
    requires c.Ok() && GainsAtMost(c, now, later, gain)
    ensures Available(c, t, key, later) <= Available(c, t, key, now) + gain
    decreases |t|
  {
    if |t| > 0 {
      AvailableLast(c, t, key, now);
      AvailableLast(c, t, key, later);
      if t[|t| - 1].key != key { AvailableGains(c, t[..|t| - 1], key, now, later, gain); }
    }
  }

  lemma {:induction false} AvailableFits(c: Config, t: Table, key: Key, now: real)
    requires c.Ok()
    ensures Available(c, t, key, now) <= c.capacity as real
    decreases |t|
  {
    if |t| > 0 && t[|t| - 1].key != key { AvailableFits(c, t[..|t| - 1], key, now); }
  }

  /** As time goes by a bucket gains at most the refill. */
  lemma AvailableGrows(c: Config, t: Table, key: Key, now: real, later: real)
    requires c.Ok() && now <= later
    ensures Available(c, t, key, later) <= Available(c, t, key, now) + (later - now) * c.refillPerSecond
    ensures Available(c, t, key, now) <= c.capacity as real
  {
    var gain := (later - now) * c.refillPerSecond;
    RefillNonNegative(later - now, c.refillPerSecond);
    forall e ensures Refilled(c, e, later) <= Refilled(c, e, now) + gain { RefilledGrows(c, e, now, later); }
    AvailableGains(c, t, key, now, later, gain);
    AvailableFits(c, t, key, now);
  }

  lemma ProductMonotone(a: real, b: real, r: real)
    requires a <= b && r > 0.0
    ensures a * r <= b * r
  {
  }

  /** A client that is in the table has what its bucket holds, whoever has been forgotten. */
  lemma AvailableKept(c: Config, t: Table, key: Key, now: real)
    requires c.Ok() && DistinctKeys(t) && Has(Latest(t, c.maxClients), key)
    ensures Available(c, Latest(t, c.maxClients), key, now) == Available(c, t, key, now)
  {
    var m := if |t| <= c.maxClients then 0 else |t| - c.maxClients;
    assert Latest(t, c.maxClients) == t[m..];
    var i :| 0 <= i < |t[m..]| && t[m..][i].key == key;
    assert t[m + i].key == key;
    AvailableInLatest(c, t, m, key, now);
  }

  lemma {:induction false} RunDistinct(c: Config, trace: seq<Request>, tables: seq<Table>, n: nat)
    requires c.Ok() && IsRun(c, trace, tables) && n <= |trace|
    ensures DistinctKeys(tables[n]) && |tables[n]| <= c.maxClients
    decreases n
  {
    if n > 0 {
      RunDistinct(c, trace, tables, n - 1);
      assert StepAt(c, trace, tables, n - 1);
      var t, q := tables[n - 1], trace[n - 1];
      TouchFits(t, Left(c, Available(c, t, q.key, q.at), q.key, q.at));
    }
  }

  /** What the tokens of a client become by request `n`, its own or another's, if it is then in the table. */
  lemma AvailableStep(c: Config, trace: seq<Request>, tables: seq<Table>, n: nat, key: Key, now: real)
    requires c.Ok() && IsRun(c, trace, tables) && n < |trace| && Has(tables[n + 1], key)
    ensures Available(c, tables[n + 1], key, now) ==
              if trace[n].key == key
              then Refilled(c, Left(c, Available(c, tables[n], key, trace[n].at), key, trace[n].at), now)
              else Available(c, tables[n], key, now)
  {
    var t, q := tables[n], trace[n];
    var e := Left(c, Available(c, t, q.key, q.at), q.key, q.at);
    RunDistinct(c, trace, tables, n);
    assert StepAt(c, trace, tables, n);
    TouchFits(t, e);
    AvailableKept(c, Touch(t, e), key, now);
    AvailableTouched(c, t, e, key, now);
  }

  /** The client is never forgotten from its request `i` up to `j`. */
  ghost predicate Remembered(trace: seq<Request>, tables: seq<Table>, key: Key, i: nat, j: nat)
    requires |tables| == |trace| + 1
  {
    i < j <= |trace| && trace[i].key == key
    && forall n {:trigger Has(tables[n], key)} | i < n <= j :: Has(tables[n], key)
  }

  /** How many of the client's requests from `i` up to `j` were allowed. */
  function AllowedIn(c: Config, trace: seq<Request>, tables: seq<Table>, key: Key, i: nat, j: nat): nat
    requires c.Ok() && i <= j <= |trace| && |tables| == |trace| + 1
  {
    if i == j then 0 else
    AllowedIn(c, trace, tables, key, i, j - 1)
    + if trace[j - 1].key == key && Allows(c, trace, tables, j - 1) then 1 else 0
  }

  /** At the moment of a request, it takes one token if it is the client's own and allowed. */
  lemma SpendStep(c: Config, trace: seq<Request>, tables: seq<Table>, n: nat, key: Key)
    requires c.Ok() && IsRun(c, trace, tables) && n < |trace| && Has(tables[n + 1], key)
    ensures Available(c, tables[n + 1], key, trace[n].at)
         == Available(c, tables[n], key, trace[n].at)
            - if trace[n].key == key && Allows(c, trace, tables, n) then 1.0 else 0.0
  {
    var at := trace[n].at;
    AvailableGrows(c, tables[n], key, at, at);
    AvailableStep(c, trace, tables, n, key, at);
  }

  lemma SpentArithmetic(cap: real, r: real, start: real, before: real, at: real, spent: real, left: real, grown: real)
    requires spent + left <= cap + (before - start) * r
    requires grown <= left + (at - before) * r
    ensures spent + grown <= cap + (at - start) * r
  {
    Distribute(before - start, at - before, r);
  }

  /** What was allowed and what is left is never more than a full bucket and the refill since. */
  lemma {:induction false} SpentAndLeft(c: Config, trace: seq<Request>, tables: seq<Table>, key: Key, i: nat, j: nat)
    requires c.Ok() && IsRun(c, trace, tables) && ClockRuns(trace) && Remembered(trace, tables, key, i, j)
    ensures AllowedIn(c, trace, tables, key, i, j) as real + Available(c, tables[j], key, trace[j - 1].at)
         <= c.capacity as real + (trace[j - 1].at - trace[i].at) * c.refillPerSecond
    decreases j
  {
    var n := j - 1;
    SpendStep(c, trace, tables, n, key);
    if n > i {
      var before, at := trace[n - 1].at, trace[n].at;
      assert InOrder(trace, n - 1, n);
      SpentAndLeft(c, trace, tables, key, i, n);
      AvailableGrows(c, tables[n], key, before, at);
      SpentArithmetic(
        c.capacity as real, c.refillPerSecond, trace[i].at, before, at, AllowedIn(c, trace, tables, key, i, n) as real,
        Available(c, tables[n], key, before), Available(c, tables[n], key, at));
    } else {
      AvailableGrows(c, tables[n], key, trace[n].at, trace[n].at);
      assert (trace[n].at - trace[i].at) * c.refillPerSecond == 0.0;
    }
  }

  lemma {:induction false} TokensNonNegative(c: Config, trace: seq<Request>, tables: seq<Table>, n: nat)
    requires c.Ok() && IsRun(c, trace, tables) && n <= |trace|
    ensures forall e | e in tables[n] :: e.tokens >= 0.0
    decreases n
  {
    if n > 0 {
      TokensNonNegative(c, trace, tables, n - 1);
      assert StepAt(c, trace, tables, n - 1);
      var t, q := tables[n - 1], trace[n - 1];
      AvailableNonNegative(c, t, q.key, q.at);
      WithoutIs(t, q.key);
    }
  }

  lemma {:induction false} AvailableNonNegative(c: Config, t: Table, key: Key, now: real)
    requires c.Ok() && forall e | e in t :: e.tokens >= 0.0
    ensures Available(c, t, key, now) >= 0.0
    decreases |t|
  {
    if |t| > 0 {
      var e := t[|t| - 1];
      if e.key == key { ProductMonotone(0.0, Max(0.0, now - e.updatedAt), c.refillPerSecond); }
      else { AvailableNonNegative(c, t[..|t| - 1], key, now); }
    }
  }

  /** Under a clock that does not go back, the requests of a remembered client that are allowed between two
      times number at most the capacity and the refill between them. */
  lemma WindowBound(c: Config, trace: seq<Request>, tables: seq<Table>, key: Key, i: nat, j: nat)
    requires c.Ok() && IsRun(c, trace, tables) && ClockRuns(trace) && Remembered(trace, tables, key, i, j)
    ensures AllowedIn(c, trace, tables, key, i, j) as real
         <= c.capacity as real + (trace[j - 1].at - trace[i].at) * c.refillPerSecond
  {
    SpentAndLeft(c, trace, tables, key, i, j);
    TokensNonNegative(c, trace, tables, j);
    AvailableNonNegative(c, tables[j], key, trace[j - 1].at);
  }

  // ---- the retry promise ----

  /** The client's requests after `i` and before `j` were all denied. */
  ghost predicate DeniedBetween(c: Config, trace: seq<Request>, tables: seq<Table>, key: Key, i: nat, j: nat)
    requires c.Ok() && j <= |trace| && |tables| == |trace| + 1
  {
    forall n {:trigger Allows(c, trace, tables, n)} | i < n < j && trace[n].key == key :: !Allows(c, trace, tables, n)
  }

  /** What a bucket with `tokens` at one time holds some seconds later. */
  function After(c: Config, tokens: real, seconds: real): real {
    Min(c.capacity as real, tokens + seconds * c.refillPerSecond)
  }

  lemma AfterGrows(c: Config, tokens: real, more: real, seconds: real)
    requires c.Ok() && tokens <= more
    ensures After(c, tokens, seconds) <= After(c, more, seconds) <= c.capacity as real
  {
  }

  lemma AfterAfter(c: Config, tokens: real, first: real, second: real)
    requires c.Ok() && After(c, tokens, first) < 1.0
    ensures After(c, After(c, tokens, first), second) == After(c, tokens, first + second)
  {
    Distribute(first, second, c.refillPerSecond);
  }

  /** A request that is another's or a denied one of its own takes nothing from the client; being forgotten gives
      it a full bucket. */
  lemma FreeStep(
    c: Config, trace: seq<Request>, tables: seq<Table>, n: nat, key: Key, tokens: real, since: real, now: real)
    requires c.Ok() && IsRun(c, trace, tables) && n < |trace| && trace[n].at <= now
    requires trace[n].key == key ==> !Allows(c, trace, tables, n)
    requires Available(c, tables[n], key, trace[n].at) >= After(c, tokens, trace[n].at - since)
    requires Available(c, tables[n], key, now) >= After(c, tokens, now - since)
    ensures Available(c, tables[n + 1], key, now) >= After(c, tokens, now - since)
  {
    if !Has(tables[n + 1], key) {
      AvailableUnknown(c, tables[n + 1], key, now);
    } else {
      AvailableStep(c, trace, tables, n, key, now);
      if trace[n].key == key {
        var left, first, second := Available(c, tables[n], key, trace[n].at), trace[n].at - since, now - trace[n].at;
        AfterAfter(c, tokens, first, second);
        AfterGrows(c, After(c, tokens, first), left, second);
      }
    }
  }

  /** Denied requests cost nothing: the bucket fills at least as if they had not been made. */
  lemma {:induction false} DenialsAreFree(
    c: Config, trace: seq<Request>, tables: seq<Table>, key: Key, i: nat, j: nat, now: real)
    requires c.Ok() && IsRun(c, trace, tables) && ClockRuns(trace) && i < j <= |trace| && trace[i].key == key
    requires trace[j - 1].at <= now
    requires !Allows(c, trace, tables, i) && DeniedBetween(c, trace, tables, key, i, j)
    ensures Available(c, tables[j], key, now)
         >= After(c, Available(c, tables[i], key, trace[i].at), now - trace[i].at)
    decreases j
  {
    var n, at := j - 1, trace[i].at;
    var tokens := Available(c, tables[i], key, at);
    if n > i {
      assert InOrder(trace, n - 1, n);
      DenialsAreFree(c, trace, tables, key, i, n, trace[n].at);
      DenialsAreFree(c, trace, tables, key, i, n, now);
      FreeStep(c, trace, tables, n, key, tokens, at, now);
    } else if Has(tables[j], key) {
      AvailableStep(c, trace, tables, i, key, now);
    } else {
      AvailableUnknown(c, tables[j], key, now);
    }
  }

  lemma WaitSuffices(c: Config, tokens: real, seconds: real)
    requires c.Ok() && seconds >= Decide(c, tokens).retryAfterSeconds as real && tokens < 1.0
    ensures After(c, tokens, seconds) >= 1.0
  {
    var needed := (1.0 - tokens) / c.refillPerSecond;
    Divided(1.0 - tokens, c.refillPerSecond);
    assert needed <= Decide(c, tokens).retryAfterSeconds as real;
    ProductMonotone(needed, seconds, c.refillPerSecond);
    assert tokens + seconds * c.refillPerSecond >= 1.0;
    assert c.capacity as real >= 1.0;
  }

  lemma Divided(x: real, r: real)
    requires r > 0.0
    ensures (x / r) * r == x
  {
  }

  /** A denied client that waits `retryAfterSeconds` is allowed, even if it tried again in between, and whether or
      not it has been forgotten. */
  lemma RetryIsAllowed(c: Config, trace: seq<Request>, tables: seq<Table>, key: Key, i: nat, j: nat)
    requires c.Ok() && IsRun(c, trace, tables) && ClockRuns(trace)
    requires i < j < |trace| && trace[i].key == key && trace[j].key == key
    requires !DecisionAt(c, trace, tables, i).allowed && DeniedBetween(c, trace, tables, key, i, j)
    requires trace[j].at >= trace[i].at + DecisionAt(c, trace, tables, i).retryAfterSeconds as real
    ensures DecisionAt(c, trace, tables, j).allowed
  {
    assert InOrder(trace, j - 1, j);
    DenialsAreFree(c, trace, tables, key, i, j, trace[j].at);
    WaitSuffices(c, Available(c, tables[i], key, trace[i].at), trace[j].at - trace[i].at);
  }

  /** No smaller whole number of seconds suffices, unless it is 0. */
  lemma LessDoesNotSuffice(c: Config, tokens: real, seconds: int)
    requires c.Ok() && tokens < 1.0 && 1 <= seconds < Decide(c, tokens).retryAfterSeconds
    ensures tokens + seconds as real * c.refillPerSecond < 1.0
  {
    var needed := (1.0 - tokens) / c.refillPerSecond;
    Divided(1.0 - tokens, c.refillPerSecond);
    assert Decide(c, tokens).retryAfterSeconds == Ceiling(needed);
    assert seconds as real <= (Ceiling(needed) - 1) as real < needed;
    ProductStrict(seconds as real, needed, c.refillPerSecond);
  }

  lemma ProductStrict(a: real, b: real, r: real)
    requires a < b && r > 0.0
    ensures a * r < b * r
  {
  }

  /** A remembered client whose requests were denied has exactly what the refill gives. */
  lemma {:induction false} DeniedRefills(
    c: Config, trace: seq<Request>, tables: seq<Table>, key: Key, i: nat, j: nat, now: real)
    requires c.Ok() && IsRun(c, trace, tables) && ClockRuns(trace) && Remembered(trace, tables, key, i, j)
    requires trace[j - 1].at <= now
    requires !Allows(c, trace, tables, i) && DeniedBetween(c, trace, tables, key, i, j)
    ensures Available(c, tables[j], key, now) == After(c, Available(c, tables[i], key, trace[i].at), now - trace[i].at)
    decreases j
  {
    var n, at := j - 1, trace[i].at;
    AvailableStep(c, trace, tables, n, key, now);
    if n > i {
      assert InOrder(trace, n - 1, n);
      DeniedRefills(c, trace, tables, key, i, n, trace[n].at);
      DeniedRefills(c, trace, tables, key, i, n, now);
      if trace[n].key == key {
        assert !Allows(c, trace, tables, n);
        AfterAfter(c, Available(c, tables[i], key, at), trace[n].at - at, now - trace[n].at);
      }
    }
  }

  /** A remembered client that was denied and comes back after a smaller whole number of seconds, at least one, is
      denied again: `retryAfterSeconds` is the least that suffices. */
  lemma EarlierRetryIsDenied(
    c: Config, trace: seq<Request>, tables: seq<Table>, key: Key, i: nat, j: nat, seconds: int)
    requires c.Ok() && IsRun(c, trace, tables) && ClockRuns(trace) && Remembered(trace, tables, key, i, j)
    requires j < |trace| && trace[j].key == key
    requires !DecisionAt(c, trace, tables, i).allowed && DeniedBetween(c, trace, tables, key, i, j)
    requires 1 <= seconds < DecisionAt(c, trace, tables, i).retryAfterSeconds
    requires trace[j].at == trace[i].at + seconds as real
    ensures !DecisionAt(c, trace, tables, j).allowed
  {
    assert InOrder(trace, j - 1, j);
    DeniedRefills(c, trace, tables, key, i, j, trace[j].at);
    LessDoesNotSuffice(c, Available(c, tables[i], key, trace[i].at), seconds);
  }
}
