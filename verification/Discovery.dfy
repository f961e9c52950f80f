/** The cached pointer of a package to its latest published release, under concurrent transactions. Each
    statement of a transaction is one step that sees the committed rows and its own writes; row locks are held
    until the transaction commits or aborts. */
module Discovery {
  import opened Wrappers
  import opened Order
  import Releases

  type Id = string
  type Tid = nat
  type Version = Text

  type Status = Releases.Status

  datatype Decision = Approves | Rejects

  /** A release row of the package, with its rows of `registry_release_approvals`. */
  datatype Row = Row(status: Status, submitter: Id, decisions: map<Id, Decision>)

  type Rows = map<Version, Row>

  datatype Job =
    | Submit(version: Version, who: Id)
    | Approve(version: Version, who: Id)
    | Reject(version: Version, who: Id)
    | Yank(version: Version, who: Id)

  datatype Phase = Start | Decided | Changed | Done | Finished

  datatype Txn = Txn(job: Job, phase: Phase, writes: Rows, pointer: Option<Option<Version>>)

  /** `rows` and `pointer` are what is committed; `packageLock` is the lock on the package row. */
  datatype State = State(
    rows: Rows, pointer: Option<Version>,
    rowLocks: map<Version, Tid>, packageLock: Option<Tid>, txns: map<Tid, Txn>)

  datatype Action =
    | Begin(job: Job)
    | LockRow | LockPackage
    | Insert | Decide(isReviewer: bool) | Change | Refresh
    | Commit | Abort

  // ---- what the pointer should be ----

  predicate IsPublished(rows: Rows, v: Version) { v in rows && rows[v].status.Published? }

  ghost function PublishedIn(rows: Rows): set<Version> { set v | v in rows && IsPublished(rows, v) }

  /** The first published release in the release order. */
  ghost function LatestOf(rows: Rows, less: Less): Option<Version>
    requires StrictTotal(less)
  {
    if PublishedIn(rows) == {} then None else Some(Least(PublishedIn(rows), less))
  }

  function Approvers(row: Row): set<Id> { set u | u in row.decisions && row.decisions[u].Approves? }

  /** `#latestPublishedDiscovery` of the in-memory adapter: filter, sort, take the first. */
  method LatestPublishedDiscovery(rows: Rows, less: Less) returns (latest: Option<Version>)
    requires StrictTotal(less)
    ensures latest == LatestOf(rows, less)
  {
    var versions: seq<Version> := [];
    var rest := rows.Keys;
    while rest != {}
      invariant rest <= rows.Keys && Distinct(versions)
      invariant forall v :: v in versions <==> IsPublished(rows, v) && v !in rest
    {
      var v :| v in rest;
      if rows[v].status.Published? { versions := versions + [v]; }
      rest := rest - {v};
    }
    var sorted := Sort(versions, less);
    SortAscending(versions, less);
    SortPermutes(versions, less);
    LatestIs(rows, less, sorted);
    return if |sorted| == 0 then None else Some(sorted[0]);
  }

  lemma LatestIs(rows: Rows, less: Less, sorted: seq<Version>)
    requires StrictTotal(less) && Ascending(sorted, less)
    requires forall v :: v in sorted <==> IsPublished(rows, v)
    ensures LatestOf(rows, less) == if |sorted| == 0 then None else Some(sorted[0])
  {
    assert forall v :: v in PublishedIn(rows) <==> v in sorted;
    if |sorted| == 0 {
      assert PublishedIn(rows) == {};
    } else {
      assert sorted[0] in sorted;
      var m := Least(PublishedIn(rows), less);
      var i :| 0 <= i < |sorted| && sorted[i] == m;
      if i > 0 { Asymmetric(less, sorted[0], m); }
    }
  }

  // ---- the steps ----

  predicate LocksPackage(job: Job) { job.Approve? || job.Yank? }

  predicate Owns(s: State, t: Tid) {
    && t in s.txns
    && s.txns[t].job.version in s.rowLocks && s.rowLocks[s.txns[t].job.version] == t
    && (LocksPackage(s.txns[t].job) ==> s.packageLock == Some(t))
  }

  function With(s: State, t: Tid, txn: Txn): State { s.(txns := s.txns[t := txn]) }

  /** What a transaction sees: the committed rows, and its own writes over them. */
  function Seen(s: State, txn: Txn): Rows { s.rows + txn.writes }

  function Unlock(s: State, t: Tid): State {
    s.(rowLocks := map v | v in s.rowLocks && s.rowLocks[v] != t :: s.rowLocks[v],
       packageLock := if s.packageLock == Some(t) then None else s.packageLock)
  }

  /** Inserting the decision, or the first update of a yank, once the locks are held. */
  function DecideRow(row: Row, job: Job): Option<Row> {
    match job
    case Submit(_, _) => None
    case Approve(_, who) =>
      if !row.status.Pending? || row.submitter == who || who in row.decisions then None
      else Some(row.(decisions := row.decisions[who := Approves]))
    case Reject(_, who) =>
      if !row.status.Pending? || row.submitter == who || who in row.decisions then None
      else Some(row.(decisions := row.decisions[who := Rejects]))
    case Yank(_, who) => if row.status.Published? then Some(row) else None
  }

  function ChangeRow(row: Row, job: Job): Row {
    match job
    case Submit(_, _) => row
    case Approve(_, _) => if |Approvers(row)| >= 2 then row.(status := Releases.Published) else row
    case Reject(_, _) => row.(status := Releases.Rejected)
    case Yank(_, _) => row.(status := Releases.Yanked)
  }

  /** One statement of transaction `t`, if it can go on; a violated check or a deadlock aborts. */
  ghost function Do(s: State, t: Tid, a: Action, less: Less): Option<State>
    requires StrictTotal(less)
  {
    if a.Begin? then
      if t in s.txns then None else Some(With(s, t, Txn(a.job, Start, map[], None)))
    else if t !in s.txns || s.txns[t].phase.Finished? then None
    else
      var txn := s.txns[t];
      var v := txn.job.version;
      match a
      case LockRow =>
        if txn.phase.Start? && !txn.job.Submit? && v in s.rows && v !in s.rowLocks
        then Some(s.(rowLocks := s.rowLocks[v := t])) else None
      case LockPackage =>
        if txn.phase.Start? && LocksPackage(txn.job) && s.packageLock.None?
        then Some(s.(packageLock := Some(t))) else None
      case Insert =>
        if txn.phase.Start? && txn.job.Submit? && v !in s.rows && v !in s.rowLocks
        then
          var row := Row(Releases.Pending, txn.job.who, map[]);
          Some(With(s, t, txn.(phase := Done, writes := map[v := row])).(rowLocks := s.rowLocks[v := t]))
        else None
      case Decide(isReviewer) =>
        if !txn.phase.Start? || !Owns(s, t) || !isReviewer || v !in Seen(s, txn) then None
        else
          var row := DecideRow(Seen(s, txn)[v], txn.job);
          if row.None? then None else Some(With(s, t, txn.(phase := Decided, writes := map[v := row.value])))
      case Change =>
        if !txn.phase.Decided? || v !in Seen(s, txn) then None
        else
          var row := ChangeRow(Seen(s, txn)[v], txn.job);
          var phase := if txn.job.Yank? || row.status.Published? then Changed else Done;
          Some(With(s, t, txn.(phase := phase, writes := map[v := row])))
      case Refresh =>
        if txn.phase.Changed?
        then Some(With(s, t, txn.(phase := Done, pointer := Some(LatestOf(Seen(s, txn), less))))) else None
      case Commit =>
        if txn.phase.Done?
        then
          var committed := s.(rows := Seen(s, txn), pointer := if txn.pointer.Some? then txn.pointer.value else s.pointer);
          Some(With(Unlock(committed, t), t, txn.(phase := Finished)))
        else None
      case Abort => Some(With(Unlock(s, t), t, txn.(phase := Finished)))
  }

  /** Any interleaving; a statement that cannot go on changes nothing. */
  ghost function Run(s: State, schedule: seq<(Tid, Action)>, less: Less): State
    requires StrictTotal(less)
    decreases |schedule|
  {
    if |schedule| == 0 then s else
    var n := |schedule| - 1;
    var before := Run(s, schedule[..n], less);
    var step := Do(before, schedule[n].0, schedule[n].1, less);
    if step.Some? then step.value else before
  }

  const EMPTY := State(map[], None, map[], None, map[])

  // ---- what every reachable state keeps ----

  /** What is durable about the review of a release. */
  predicate RowOk(row: Row) {
    && row.submitter !in row.decisions
    && (row.status.Published? || row.status.Yanked? ==> |Approvers(row)| == 2)
    && (row.status.Pending? ==> |Approvers(row)| <= 1 && forall u | u in row.decisions :: row.decisions[u].Approves?)
    && (row.status.Rejected? ==> |Approvers(row)| <= 1)
  }

  predicate RowsOk(rows: Rows) { forall v | v in rows :: RowOk(rows[v]) }

  /** The row a transaction has written, against the committed one. */
  predicate WriteOk(rows: Rows, txn: Txn) {
    var v := txn.job.version;
    && txn.writes.Keys == {v}
    && (txn.job.Submit? ==>
          v !in rows && txn.phase.Done? && txn.writes[v] == Row(Releases.Pending, txn.job.who, map[]))
    && (!txn.job.Submit? ==>
          && v in rows
          && DecideRow(rows[v], txn.job).Some?
          && txn.writes[v] == if txn.phase.Decided? then DecideRow(rows[v], txn.job).value
                              else ChangeRow(DecideRow(rows[v], txn.job).value, txn.job))
  }

  /** A refreshed pointer is right for what the transaction will commit; without one nothing published changes. */
  ghost predicate PointerOk(rows: Rows, txn: Txn, less: Less)
    requires StrictTotal(less)
  {
    && (txn.phase.Changed? ==> LocksPackage(txn.job))
    && (txn.pointer.Some? ==>
          LocksPackage(txn.job) && txn.phase.Done? && txn.pointer.value == LatestOf(rows + txn.writes, less))
    && (txn.pointer.None? && !txn.phase.Changed? ==>
          forall v | v in txn.writes :: IsPublished(rows, v) <==> IsPublished(txn.writes, v))
  }

  ghost predicate TxnOk(s: State, t: Tid, less: Less)
    requires StrictTotal(less) && t in s.txns
  {
    var txn := s.txns[t];
    && (txn.phase.Start? ==> txn.writes == map[] && txn.pointer.None?)
    && (!txn.phase.Start? && !txn.phase.Finished? ==>
          Owns(s, t) && WriteOk(s.rows, txn) && PointerOk(s.rows, txn, less))
  }

  ghost predicate LocksOk(s: State) {
    && (forall v | v in s.rowLocks ::
          && s.rowLocks[v] in s.txns && !s.txns[s.rowLocks[v]].phase.Finished?
          && s.txns[s.rowLocks[v]].job.version == v)
    && (s.packageLock.Some? ==> s.packageLock.value in s.txns && !s.txns[s.packageLock.value].phase.Finished?)
  }

  ghost predicate Inv(s: State, less: Less)
    requires StrictTotal(less)
  {
    && s.pointer == LatestOf(s.rows, less)
    && RowsOk(s.rows)
    && LocksOk(s)
    && forall t | t in s.txns :: TxnOk(s, t, less)
  }

  // ---- steps keep it ----

  /** The published releases, and so the latest one, do not change when no write changes what is published. */
  lemma LatestSame(rows: Rows, rows': Rows, less: Less)
    requires StrictTotal(less) && forall v :: IsPublished(rows, v) <==> IsPublished(rows', v)
    ensures LatestOf(rows, less) == LatestOf(rows', less)
  {
    assert PublishedIn(rows) == PublishedIn(rows') by {
      forall v ensures v in PublishedIn(rows) <==> v in PublishedIn(rows') {
        assert IsPublished(rows, v) <==> IsPublished(rows', v);
      }
    }
  }

  lemma DecisionOk(row: Row, job: Job)
    requires RowOk(row) && DecideRow(row, job).Some?
    ensures RowOk(ChangeRow(DecideRow(row, job).value, job))
    ensures var after := ChangeRow(DecideRow(row, job).value, job);
            row.status.Published? != after.status.Published? ==> job.Yank? || (job.Approve? && after.status.Published?)
  {
    var decided := DecideRow(row, job).value;
    if job.Approve? {
      assert Approvers(decided) == Approvers(row) + {job.who};
    } else if job.Reject? {
      assert Approvers(decided) == Approvers(row);
    }
  }

  /** What one transaction relies on survives what another does without its locks. */
  lemma OtherTxn(s: State, s': State, t: Tid, less: Less)
    requires StrictTotal(less) && t in s.txns && TxnOk(s, t, less)
    requires t in s'.txns && s'.txns[t] == s.txns[t]
    requires Owns(s, t) ==> Owns(s', t)
    requires var v := s.txns[t].job.version;
             Owns(s, t) ==> (v in s.rows <==> v in s'.rows) && (v in s.rows ==> s'.rows[v] == s.rows[v])
    requires Owns(s, t) && LocksPackage(s.txns[t].job) ==>
               forall v :: IsPublished(s.rows, v) <==> IsPublished(s'.rows, v)
    ensures TxnOk(s', t, less)
  {
    var txn := s.txns[t];
    if !txn.phase.Start? && !txn.phase.Finished? && txn.pointer.Some? {
      forall v ensures IsPublished(s.rows + txn.writes, v) <==> IsPublished(s'.rows + txn.writes, v) {
        assert IsPublished(s.rows, v) <==> IsPublished(s'.rows, v);
      }
      LatestSame(s.rows + txn.writes, s'.rows + txn.writes, less);
    }
  }

  /** A step that leaves the committed rows alone and takes no lock of another. */
  lemma PrivateStep(s: State, s': State, t: Tid, less: Less)
    requires StrictTotal(less) && Inv(s, less)
    requires s'.rows == s.rows && s'.pointer == s.pointer && t in s'.txns && s'.txns == s.txns[t := s'.txns[t]]
    requires TxnOk(s', t, less) && LocksOk(s')
    requires forall u | u in s.txns && u != t && Owns(s, u) :: Owns(s', u)
    ensures Inv(s', less)
  {
    forall u | u in s'.txns ensures TxnOk(s', u, less) {
      if u != t { OtherTxn(s, s', u, less); }
    }
  }

  /** A statement of a transaction that holds its locks. */
  lemma OwnStep(s: State, t: Tid, next: Txn, less: Less)
    requires StrictTotal(less) && Inv(s, less) && Owns(s, t) && !s.txns[t].phase.Finished?
    requires next.job == s.txns[t].job && !next.phase.Start? && !next.phase.Finished?
    requires WriteOk(s.rows, next) && PointerOk(s.rows, next, less)
    ensures Inv(With(s, t, next), less)
  {
    assert LocksOk(With(s, t, next));
    PrivateStep(s, With(s, t, next), t, less);
  }

  lemma CommitKeeps(s: State, t: Tid, less: Less)
    requires StrictTotal(less) && Inv(s, less) && Do(s, t, Commit, less).Some?
    ensures Inv(Do(s, t, Commit, less).value, less)
  {
    var s' := Do(s, t, Commit, less).value;
    var txn := s.txns[t];
    assert TxnOk(s, t, less);
    CommitPointer(s, t, less);
    CommitRows(s, t, less);
    forall u | u in s'.txns ensures TxnOk(s', u, less) {
      if u != t {
        assert TxnOk(s, u, less);
        if Owns(s, u) {
          assert s.txns[u].job.version != txn.job.version;
          if LocksPackage(s.txns[u].job) { CommitUnpublishing(s, t, less); }
        }
        OtherTxn(s, s', u, less);
      }
    }
  }

  /** Without a refreshed pointer, the writes of a transaction change nothing published. */
  lemma WritesUnpublishing(rows: Rows, txn: Txn, less: Less)
    requires StrictTotal(less) && PointerOk(rows, txn, less) && txn.pointer.None? && !txn.phase.Changed?
    ensures forall v :: IsPublished(rows, v) <==> IsPublished(rows + txn.writes, v)
  {
    forall v ensures IsPublished(rows, v) <==> IsPublished(rows + txn.writes, v) {
      if v in txn.writes { assert IsPublished(rows, v) <==> IsPublished(txn.writes, v); }
    }
  }

  /** What a transaction that is done commits to. */
  lemma DoneIs(s: State, t: Tid, less: Less)
    requires StrictTotal(less) && Inv(s, less) && Do(s, t, Commit, less).Some?
    ensures WriteOk(s.rows, s.txns[t]) && PointerOk(s.rows, s.txns[t], less) && s.txns[t].phase.Done?
    ensures Do(s, t, Commit, less).value.rows == s.rows + s.txns[t].writes
    ensures Do(s, t, Commit, less).value.pointer
         == if s.txns[t].pointer.Some? then s.txns[t].pointer.value else s.pointer
  {
    assert TxnOk(s, t, less);
  }

  lemma CommitPointer(s: State, t: Tid, less: Less)
    requires StrictTotal(less) && Inv(s, less) && Do(s, t, Commit, less).Some?
    ensures var s' := Do(s, t, Commit, less).value; s'.pointer == LatestOf(s'.rows, less)
  {
    DoneIs(s, t, less);
    if s.txns[t].pointer.None? {
      WritesUnpublishing(s.rows, s.txns[t], less);
      LatestSame(s.rows, s.rows + s.txns[t].writes, less);
    }
  }

  lemma WritesKeepRows(rows: Rows, txn: Txn)
    requires RowsOk(rows) && WriteOk(rows, txn) && !txn.phase.Decided?
    ensures RowsOk(rows + txn.writes)
  {
    if !txn.job.Submit? { DecisionOk(rows[txn.job.version], txn.job); }
  }

  lemma CommitRows(s: State, t: Tid, less: Less)
    requires StrictTotal(less) && Inv(s, less) && Do(s, t, Commit, less).Some?
    ensures RowsOk(Do(s, t, Commit, less).value.rows)
  {
    DoneIs(s, t, less);
    WritesKeepRows(s.rows, s.txns[t]);
  }

  /** A commit without the package lock changes nothing published. */
  lemma CommitUnpublishing(s: State, t: Tid, less: Less)
    requires StrictTotal(less) && Inv(s, less) && Do(s, t, Commit, less).Some? && s.packageLock != Some(t)
    ensures forall v :: IsPublished(s.rows, v) <==> IsPublished(Do(s, t, Commit, less).value.rows, v)
  {
    assert TxnOk(s, t, less);
    DoneIs(s, t, less);
    WritesUnpublishing(s.rows, s.txns[t], less);
  }

  /** The decision alone publishes nothing. */
  lemma DecidedWrites(rows: Rows, txn: Txn, row: Row, less: Less)
    requires StrictTotal(less) && txn.job.version in rows && txn.pointer.None? && !txn.job.Submit?
    requires DecideRow(rows[txn.job.version], txn.job) == Some(row)
    ensures var next := txn.(phase := Decided, writes := map[txn.job.version := row]);
            WriteOk(rows, next) && PointerOk(rows, next, less)
  {
  }

  lemma DecideKeeps(s: State, t: Tid, isReviewer: bool, less: Less)
    requires StrictTotal(less) && Inv(s, less) && Do(s, t, Decide(isReviewer), less).Some?
    ensures Inv(Do(s, t, Decide(isReviewer), less).value, less)
  {
    var txn := s.txns[t];
    assert TxnOk(s, t, less);
    assert Seen(s, txn) == s.rows;
    var row := DecideRow(s.rows[txn.job.version], txn.job).value;
    DecidedWrites(s.rows, txn, row, less);
    OwnStep(s, t, txn.(phase := Decided, writes := map[txn.job.version := row]), less);
  }

  lemma ChangedWrites(rows: Rows, txn: Txn, less: Less)
    requires StrictTotal(less) && WriteOk(rows, txn) && txn.phase.Decided? && txn.pointer.None?
    requires RowOk(rows[txn.job.version])
    ensures var row := ChangeRow(txn.writes[txn.job.version], txn.job);
            var phase := if txn.job.Yank? || row.status.Published? then Changed else Done;
            var next := txn.(phase := phase, writes := map[txn.job.version := row]);
            WriteOk(rows, next) && PointerOk(rows, next, less)
  {
    DecisionOk(rows[txn.job.version], txn.job);
  }

  lemma ChangeKeeps(s: State, t: Tid, less: Less)
    requires StrictTotal(less) && Inv(s, less) && Do(s, t, Change, less).Some?
    ensures Inv(Do(s, t, Change, less).value, less)
  {
    assert TxnOk(s, t, less);
    ChangedWrites(s.rows, s.txns[t], less);
    OwnStep(s, t, Do(s, t, Change, less).value.txns[t], less);
  }

  lemma RefreshKeeps(s: State, t: Tid, less: Less)
    requires StrictTotal(less) && Inv(s, less) && Do(s, t, Refresh, less).Some?
    ensures Inv(Do(s, t, Refresh, less).value, less)
  {
    assert TxnOk(s, t, less);
    OwnStep(s, t, Do(s, t, Refresh, less).value.txns[t], less);
  }

  lemma LockKeeps(s: State, t: Tid, a: Action, less: Less)
    requires StrictTotal(less) && Inv(s, less) && Do(s, t, a, less).Some? && (a.Begin? || a.LockRow? || a.LockPackage?)
    ensures Inv(Do(s, t, a, less).value, less)
  {
    var s' := Do(s, t, a, less).value;
    if !a.Begin? { assert TxnOk(s, t, less); }
    assert LocksOk(s');
    PrivateStep(s, s', t, less);
  }

  lemma InsertKeeps(s: State, t: Tid, less: Less)
    requires StrictTotal(less) && Inv(s, less) && Do(s, t, Insert, less).Some?
    ensures Inv(Do(s, t, Insert, less).value, less)
  {
    var s' := Do(s, t, Insert, less).value;
    assert TxnOk(s, t, less);
    assert Approvers(Row(Releases.Pending, s.txns[t].job.who, map[])) == {};
    assert TxnOk(s', t, less);
    assert LocksOk(s');
    PrivateStep(s, s', t, less);
  }

  lemma AbortKeeps(s: State, t: Tid, less: Less)
    requires StrictTotal(less) && Inv(s, less) && Do(s, t, Abort, less).Some?
    ensures Inv(Do(s, t, Abort, less).value, less)
  {
    var s' := Do(s, t, Abort, less).value;
    assert LocksOk(s');
    PrivateStep(s, s', t, less);
  }

  lemma StepKeepsInv(s: State, t: Tid, a: Action, less: Less)
    requires StrictTotal(less) && Inv(s, less) && Do(s, t, a, less).Some?
    ensures Inv(Do(s, t, a, less).value, less)
  {
    match a
    case Insert => InsertKeeps(s, t, less);
    case Decide(isReviewer) => DecideKeeps(s, t, isReviewer, less);
    case Change => ChangeKeeps(s, t, less);
    case Refresh => RefreshKeeps(s, t, less);
    case Commit => CommitKeeps(s, t, less);
    case Abort => AbortKeeps(s, t, less);
    case _ => LockKeeps(s, t, a, less);
  }

  lemma {:induction false} RunKeepsInv(schedule: seq<(Tid, Action)>, less: Less)
    requires StrictTotal(less)
    ensures Inv(Run(EMPTY, schedule, less), less)
    decreases |schedule|
  {
    if |schedule| == 0 {
      assert PublishedIn(map[]) == {};
    } else {
      var n := |schedule| - 1;
      RunKeepsInv(schedule[..n], less);
      var before := Run(EMPTY, schedule[..n], less);
      if Do(before, schedule[n].0, schedule[n].1, less).Some? {
        StepKeepsInv(before, schedule[n].0, schedule[n].1, less);
      }
    }
  }

  /** In every interleaving of submits, approvals, rejections and yanks, with aborts anywhere, the committed
      pointer is always the release that the in-memory adapter would compute, and every release that was
      published was approved by exactly two people other than its submitter. */
  lemma PointerIsLatest(schedule: seq<(Tid, Action)>, less: Less)
    requires StrictTotal(less)
    ensures var s := Run(EMPTY, schedule, less);
            && s.pointer == LatestOf(s.rows, less)
            && (s.pointer.None? <==> forall v | v in s.rows :: !s.rows[v].status.Published?)
            && (s.pointer.Some? ==>
                  && s.pointer.value in s.rows && s.rows[s.pointer.value].status.Published?
                  && forall v | v in s.rows && s.rows[v].status.Published? && v != s.pointer.value ::
                       less(s.pointer.value, v))
            && (forall v | v in s.rows && (s.rows[v].status.Published? || s.rows[v].status.Yanked?) ::
                  && s.rows[v].submitter !in s.rows[v].decisions
                  && |set u | u in s.rows[v].decisions && s.rows[v].decisions[u].Approves?| == 2)
  {
    RunKeepsInv(schedule, less);
    var s := Run(EMPTY, schedule, less);
    LatestIsFirst(s.rows, less);
    assert forall v | v in s.rows :: RowOk(s.rows[v]);
  }

  lemma LatestIsFirst(rows: Rows, less: Less)
    requires StrictTotal(less)
    ensures LatestOf(rows, less).None? <==> forall v | v in rows :: !rows[v].status.Published?
    ensures LatestOf(rows, less).Some? ==>
              var latest := LatestOf(rows, less).value;
              && latest in rows && rows[latest].status.Published?
              && forall v | v in rows && rows[v].status.Published? && v != latest :: less(latest, v)
  {
    assert forall v :: v in PublishedIn(rows) <==> IsPublished(rows, v);
    if LatestOf(rows, less).None? {
      forall v | v in rows ensures !rows[v].status.Published? { assert v !in PublishedIn(rows); }
    }
  }

  // ---- what a commit does ----

  /** What a job amounts to: a submission is a new pending release; an approval adds its approver, and publishes
      exactly if another approval was there; a rejection and a yank leave the release rejected and yanked. Every
      other row stays. */
  predicate JobDone(rows: Rows, job: Job, after: Rows) {
    match job
    case Submit(v, who) => v !in rows && after == rows[v := Row(Releases.Pending, who, map[])]
    case Approve(v, who) =>
      && v in rows && rows[v].status.Pending? && who != rows[v].submitter && who !in rows[v].decisions
      && after == rows[v := Row(
           if rows[v].decisions == map[] then Releases.Pending else Releases.Published,
           rows[v].submitter, rows[v].decisions[who := Approves])]
    case Reject(v, who) =>
      && v in rows && rows[v].status.Pending? && who != rows[v].submitter && who !in rows[v].decisions
      && after == rows[v := Row(Releases.Rejected, rows[v].submitter, rows[v].decisions[who := Rejects])]
    case Yank(v, who) =>
      && v in rows && rows[v].status.Published?
      && after == rows[v := Row(Releases.Yanked, rows[v].submitter, rows[v].decisions)]
  }

  /** Whatever runs beside it, a transaction that commits does its job on the rows committed by then; a yanked
      release is not the latest one. */
  lemma CommitDoesTheJob(schedule: seq<(Tid, Action)>, t: Tid, less: Less)
    requires StrictTotal(less) && Do(Run(EMPTY, schedule, less), t, Commit, less).Some?
    ensures var s := Run(EMPTY, schedule, less);
            var after := Do(s, t, Commit, less).value;
            && JobDone(s.rows, s.txns[t].job, after.rows)
            && (s.txns[t].job.Yank? ==> after.pointer != Some(s.txns[t].job.version))
  {
    RunKeepsInv(schedule, less);
    var s := Run(EMPTY, schedule, less);
    DoneIs(s, t, less);
    DoneJob(s.rows, s.txns[t]);
    CommitPointer(s, t, less);
    LatestIsFirst(Do(s, t, Commit, less).value.rows, less);
  }

  lemma DoneJob(rows: Rows, txn: Txn)
    requires RowsOk(rows) && WriteOk(rows, txn) && txn.phase.Done?
    ensures JobDone(rows, txn.job, rows + txn.writes)
  {
    var v := txn.job.version;
    assert rows + txn.writes == rows[v := txn.writes[v]];
    if !txn.job.Submit? { DecisionMeans(rows[v], txn.job); }
  }

  lemma DecisionMeans(row: Row, job: Job)
    requires RowOk(row) && DecideRow(row, job).Some?
    ensures var after := ChangeRow(DecideRow(row, job).value, job);
            match job
            case Submit(_, _) => true
            case Approve(_, who) =>
              after == Row(if row.decisions == map[] then Releases.Pending else Releases.Published,
                           row.submitter, row.decisions[who := Approves])
            case Reject(_, who) => after == Row(Releases.Rejected, row.submitter, row.decisions[who := Rejects])
            case Yank(_, _) => after == Row(Releases.Yanked, row.submitter, row.decisions)
  {
    if job.Approve? {
      var decided := DecideRow(row, job).value;
      assert Approvers(decided) == Approvers(row) + {job.who};
      assert Approvers(row) == row.decisions.Keys;
      if row.decisions != map[] { assert row.decisions.Keys != {}; }
    }
  }

  // ---- a transaction that nobody disturbs ----

  /** When a job can be done. */
  predicate Doable(rows: Rows, job: Job) {
    match job
    case Submit(v, who) => v !in rows
    case Approve(v, who) => v in rows && rows[v].status.Pending? && who != rows[v].submitter && who !in rows[v].decisions
    case Reject(v, who) => v in rows && rows[v].status.Pending? && who != rows[v].submitter && who !in rows[v].decisions
    case Yank(v, who) => v in rows && rows[v].status.Published?
  }

  ghost function Next(s: State, t: Tid, a: Action, less: Less): State
    requires StrictTotal(less)
  {
    var step := Do(s, t, a, less);
    if step.Some? then step.value else s
  }

  /** The statements of a job one after the other, by a reviewer, with nobody beside it. */
  ghost function Alone(s: State, t: Tid, job: Job, less: Less): State
    requires StrictTotal(less)
  {
    var begun := Next(s, t, Begin(job), less);
    if job.Submit? then Next(Next(begun, t, Insert, less), t, Commit, less) else
    var row := Next(begun, t, LockRow, less);
    var locked := if job.Reject? then row else Next(row, t, LockPackage, less);
    var changed := Next(Next(locked, t, Decide(true), less), t, Change, less);
    var refreshed := if job.Reject? then changed else Next(changed, t, Refresh, less);
    Next(refreshed, t, Commit, less)
  }

  /** The transaction has its locks, in some phase. */
  function Holding(s: State, t: Tid, txn: Txn): State {
    State(s.rows, s.pointer, s.rowLocks[txn.job.version := t],
          if txn.job.Reject? then s.packageLock else Some(t), s.txns[t := txn])
  }

  lemma GetsLocks(s: State, t: Tid, job: Job, less: Less)
    requires StrictTotal(less) && t !in s.txns && !job.Submit? && job.version in s.rows
    requires job.version !in s.rowLocks && s.packageLock.None?
    ensures var row := Next(Next(s, t, Begin(job), less), t, LockRow, less);
            (if job.Reject? then row else Next(row, t, LockPackage, less)) == Holding(s, t, Txn(job, Start, map[], None))
  {
  }

  lemma Decides(s: State, t: Tid, job: Job, less: Less)
    requires StrictTotal(less) && !job.Submit? && job.version in s.rows && DecideRow(s.rows[job.version], job).Some?
    ensures Next(Holding(s, t, Txn(job, Start, map[], None)), t, Decide(true), less)
         == Holding(s, t, Txn(job, Decided, map[job.version := DecideRow(s.rows[job.version], job).value], None))
  {
    var start := Holding(s, t, Txn(job, Start, map[], None));
    assert Seen(start, start.txns[t]) == s.rows;
    var decided := Txn(job, Decided, map[job.version := DecideRow(s.rows[job.version], job).value], None);
    assert start.txns[t := decided] == s.txns[t := decided];
  }

  lemma Changes(s: State, t: Tid, job: Job, row: Row, less: Less)
    requires StrictTotal(less) && !job.Submit?
    ensures var after := ChangeRow(row, job);
            Next(Holding(s, t, Txn(job, Decided, map[job.version := row], None)), t, Change, less)
              == Holding(s, t, Txn(
                   job, if job.Yank? || after.status.Published? then Changed else Done,
                   map[job.version := after], None))
  {
    var decided := Holding(s, t, Txn(job, Decided, map[job.version := row], None));
    assert Seen(decided, decided.txns[t])[job.version] == row;
    var after := ChangeRow(row, job);
    var next := Txn(
      job, if job.Yank? || after.status.Published? then Changed else Done, map[job.version := after], None);
    assert decided.txns[t := next] == s.txns[t := next];
  }

  lemma Commits(s: State, t: Tid, txn: Txn, less: Less)
    requires StrictTotal(less) && (txn.phase.Done? || (txn.phase.Changed? && !txn.job.Reject?))
    ensures var held := Holding(s, t, txn);
            var refreshed := if txn.job.Reject? then held else Next(held, t, Refresh, less);
            Next(refreshed, t, Commit, less).rows == s.rows + txn.writes
  {
  }

  lemma DecidableIsDoable(rows: Rows, job: Job)
    requires RowsOk(rows) && !job.Submit?
    ensures Doable(rows, job) <==> job.version in rows && DecideRow(rows[job.version], job).Some?
  {
  }

  lemma DoableIsDone(s: State, t: Tid, job: Job, less: Less)
    requires StrictTotal(less) && RowsOk(s.rows) && t !in s.txns && !job.Submit? && Doable(s.rows, job)
    requires job.version !in s.rowLocks && s.packageLock.None?
    ensures JobDone(s.rows, job, Alone(s, t, job, less).rows)
  {
    var v := job.version;
    DecidableIsDoable(s.rows, job);
    var row := DecideRow(s.rows[v], job).value;
    var after := ChangeRow(row, job);
    GetsLocks(s, t, job, less);
    Decides(s, t, job, less);
    Changes(s, t, job, row, less);
    DecisionMeans(s.rows[v], job);
    var txn := Txn(
      job, if job.Yank? || after.status.Published? then Changed else Done, map[v := after], None);
    Commits(s, t, txn, less);
    assert s.rows + map[v := after] == s.rows[v := after];
  }

  lemma SubmitsAlone(s: State, t: Tid, job: Job, less: Less)
    requires StrictTotal(less) && t !in s.txns && job.Submit? && job.version !in s.rowLocks
    ensures if Doable(s.rows, job) then JobDone(s.rows, job, Alone(s, t, job, less).rows)
            else Alone(s, t, job, less).rows == s.rows
  {
    var row := Row(Releases.Pending, job.who, map[]);
    assert s.rows + map[job.version := row] == s.rows[job.version := row];
  }

  /** Nothing goes on in a transaction that cannot decide. */
  lemma StuckStays(s: State, t: Tid, less: Less)
    requires StrictTotal(less) && t in s.txns && s.txns[t].phase.Start? && Do(s, t, Decide(true), less).None?
    ensures Next(s, t, Decide(true), less) == s && Next(s, t, Change, less) == s
    ensures Next(s, t, Refresh, less) == s && Next(s, t, Commit, less) == s
  {
  }

  lemma UndoableIsNot(s: State, t: Tid, job: Job, less: Less)
    requires StrictTotal(less) && RowsOk(s.rows) && t !in s.txns && !job.Submit? && !Doable(s.rows, job)
    requires job.version !in s.rowLocks && s.packageLock.None?
    ensures Alone(s, t, job, less).rows == s.rows
  {
    DecidableIsDoable(s.rows, job);
    var row := Next(Next(s, t, Begin(job), less), t, LockRow, less);
    var locked := if job.Reject? then row else Next(row, t, LockPackage, less);
    assert locked.rows == s.rows && locked.txns[t] == Txn(job, Start, map[], None);
    assert Seen(locked, locked.txns[t]) == s.rows;
    StuckStays(locked, t, less);
  }

  /** In every reachable state in which nobody holds its locks, a reviewer's job goes through exactly if it can be
      done, and else changes nothing. */
  lemma AloneGoesThrough(schedule: seq<(Tid, Action)>, t: Tid, job: Job, less: Less)
    requires StrictTotal(less)
    requires var s := Run(EMPTY, schedule, less);
             t !in s.txns && job.version !in s.rowLocks && s.packageLock.None?
    ensures var s := Run(EMPTY, schedule, less);
            if Doable(s.rows, job) then JobDone(s.rows, job, Alone(s, t, job, less).rows)
            else Alone(s, t, job, less).rows == s.rows
  {
    RunKeepsInv(schedule, less);
    var s := Run(EMPTY, schedule, less);
    if job.Submit? {
      SubmitsAlone(s, t, job, less);
    } else if Doable(s.rows, job) {
      DoableIsDone(s, t, job, less);
    } else {
      UndoableIsNot(s, t, job, less);
    }
  }
}
