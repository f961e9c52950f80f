/** The quota transactions of the Postgres adapter, interleaved with each other and with plan changes: each holds
    the row of its organization, so together they are as if run one after the other. */
module Quota {
  import opened Wrappers
  import opened Metering

  type Tid = nat

  datatype Job =
    | Reserve(key: Key, amount: int, period: Period)
    | SetPlan(organization: Org, plan: Plan)

  datatype Phase =
    | Start
    | Locked
    | Found(existing: Option<Reservation>)
    | Summed(existing: Option<Reservation>, used: nat)
    | Granted(used: nat)
    | Inserted(used: nat)
    | Answered(answer: Result<Consumed, Failure>)
    | Finished

  /** `wrote` tells whether the transaction has inserted its row, which carries its own claim id then. */
  datatype Txn = Txn(job: Job, phase: Phase, wrote: bool)

  /** An answered request, under the limit in force when it was answered. */
  datatype Entry = Entry(request: Request, answer: Result<Consumed, Failure>)

  /** `rows`, `claims` and `plans` are committed; `locks` are the locks on organization rows. */
  datatype State = State(
    enforced: bool, rows: Reservations, claims: map<Key, Tid>, plans: map<Org, Plan>,
    locks: map<Org, Tid>, txns: map<Tid, Txn>, history: seq<Entry>)

  datatype Action =
    | Begin(job: Job) | Refuse | LockOrganization
    | FindReservation | SumUsed | Decide | Insert | Confirm
    | CommitWork | Abort

  function OrgOf(job: Job): Org { if job.Reserve? then job.key.org else job.organization }

  /** `entitlementsForPlan` of what `readPlan` finds. */
  function LimitOf(s: State, org: Org): Option<nat> {
    MonthlyEvents(if !s.enforced then Enterprise else if org in s.plans then s.plans[org] else Free)
  }

  function With(s: State, t: Tid, txn: Txn): State { s.(txns := s.txns[t := txn]) }

  function Goes(s: State, t: Tid, phase: Phase): State
    requires t in s.txns
  {
    With(s, t, s.txns[t].(phase := phase))
  }

  /** The transaction ends and gives up its lock. */
  function Ends(s: State, t: Tid): State
    requires t in s.txns
  {
    var org := OrgOf(s.txns[t].job);
    Goes(s, t, Finished).(locks := if org in s.locks && s.locks[org] == t then s.locks - {org} else s.locks)
  }

  function Lookup(rows: Reservations, key: Key): Option<Reservation> {
    if key in rows then Some(rows[key]) else None
  }

  function Asked(s: State, job: Job): Request
    requires job.Reserve?
  {
    Request(LimitOf(s, job.key.org), job.key, job.amount, job.period)
  }

  /** The row that a request asks for. */
  function Mine(job: Job): Reservation
    requires job.Reserve?
  {
    Reservation(job.period, if job.amount < 1 then 0 else job.amount)
  }

  /** What the second lookup makes of the row it finds, the transaction's own or another's. */
  ghost function Confirmed(s: State, t: Tid, used: nat): Result<Consumed, Failure>
    requires t in s.txns && s.txns[t].job.Reserve?
  {
    var job := s.txns[t].job;
    var row := if s.txns[t].wrote then Some(Mine(job)) else Lookup(s.rows, job.key);
    if row != Some(Mine(job)) then Err(UsageConflict)
    else if s.txns[t].wrote || (job.key in s.claims && s.claims[job.key] == t)
    then Ok(Consumed(used + Mine(job).amount, false))
    else Ok(Consumed(Used(s.rows, job.key.org, job.period), true))
  }

  /** The decision once the reservations have been read; the plan is read only for a new key. */
  function Decided(s: State, job: Job, existing: Option<Reservation>, used: nat): Phase
    requires job.Reserve?
  {
    if existing.Some? then
      if existing.value == Mine(job) then Answered(Ok(Consumed(used, true)))
      else Answered(Err(UsageConflict))
    else if !Within(LimitOf(s, job.key.org), used + Mine(job).amount) then Answered(Err(QuotaExceeded))
    else Granted(used)
  }

  /** One statement of transaction `t`, if it can go on. */
  ghost function Do(s: State, t: Tid, a: Action): Option<State> {
    if a.Begin? then
      if t in s.txns then None else Some(With(s, t, Txn(a.job, Start, false)))
    else if t !in s.txns || s.txns[t].phase.Finished? then None
    else if a.Abort? then Some(Ends(s, t))
    else if s.txns[t].job.SetPlan? then PlanStep(s, t, a)
    else if a.Refuse? || a.CommitWork? then EndStep(s, t, a)
    else QuotaStep(s, t, a)
  }

  function PlanStep(s: State, t: Tid, a: Action): Option<State>
    requires t in s.txns && s.txns[t].job.SetPlan?
  {
    var txn := s.txns[t];
    if a.LockOrganization? && txn.phase.Start? && txn.job.organization !in s.locks
    then Some(Goes(s, t, Locked).(locks := s.locks[txn.job.organization := t]))
    else if a.CommitWork? && txn.phase.Locked?
    then Some(Ends(s, t).(plans := s.plans[txn.job.organization := txn.job.plan]))
    else None
  }

  ghost function QuotaStep(s: State, t: Tid, a: Action): Option<State>
    requires t in s.txns && s.txns[t].job.Reserve?
  {
    var txn := s.txns[t];
    var job := txn.job;
    match a
    case LockOrganization =>
      if txn.phase.Start? && job.amount >= 1 && job.key.org !in s.locks
      then Some(Goes(s, t, Locked).(locks := s.locks[job.key.org := t])) else None
    case FindReservation =>
      if txn.phase.Locked? then Some(Goes(s, t, Found(Lookup(s.rows, job.key)))) else None
    case SumUsed =>
      if txn.phase.Found?
      then Some(Goes(s, t, Summed(txn.phase.existing, Used(s.rows, job.key.org, job.period)))) else None
    case Decide =>
      if txn.phase.Summed?
      then Some(Goes(s, t, Decided(s, job, txn.phase.existing, txn.phase.used))) else None
    case Insert =>
      // ON CONFLICT DO NOTHING
      if txn.phase.Granted?
      then Some(With(s, t, txn.(phase := Inserted(txn.phase.used), wrote := job.key !in s.rows))) else None
    case Confirm =>
      if txn.phase.Inserted? then Some(Goes(s, t, Answered(Confirmed(s, t, txn.phase.used)))) else None
    case _ => None
  }

  /** The end of a request: an amount that is refused at once, or an answered transaction. */
  function EndStep(s: State, t: Tid, a: Action): Option<State>
    requires t in s.txns && s.txns[t].job.Reserve?
  {
    var txn := s.txns[t];
    if a.Refuse? then
      if txn.phase.Start? && txn.job.amount < 1 then Some(Logs(s, t, Err(InvalidAmount))) else None
    else if txn.phase.Answered? then Some(Writes(Logs(s, t, txn.phase.answer), s, t)) else None
  }

  function Logs(s: State, t: Tid, answer: Result<Consumed, Failure>): State
    requires t in s.txns && s.txns[t].job.Reserve?
  {
    Ends(s, t).(history := s.history + [Entry(Asked(s, s.txns[t].job), answer)])
  }

  /** A commit, or after an error a rollback. */
  function Writes(ended: State, s: State, t: Tid): State
    requires t in s.txns && s.txns[t].job.Reserve? && s.txns[t].phase.Answered?
  {
    var txn := s.txns[t];
    if txn.phase.answer.Ok? && txn.wrote
    then ended.(rows := s.rows[txn.job.key := Mine(txn.job)], claims := s.claims[txn.job.key := t])
    else ended
  }

  ghost function Run(s: State, schedule: seq<(Tid, Action)>): State
    decreases |schedule|
  {
    if |schedule| == 0 then s else
    var n := |schedule| - 1;
    var before := Run(s, schedule[..n]);
    var step := Do(before, schedule[n].0, schedule[n].1);
    if step.Some? then step.value else before
  }

  predicate IsStart(s: State) {
    s.rows == map[] && s.claims == map[] && s.locks == map[] && s.txns == map[] && s.history == []
  }

  // ---- what every reachable state keeps ----

  function Requests(history: seq<Entry>): (requests: seq<Request>)
    ensures |requests| == |history| && forall i | 0 <= i < |history| :: requests[i] == history[i].request
  {
    seq(|history|, i requires 0 <= i < |history| => history[i].request)
  }

  /** Entry `k` is the answer of the whole request, alone, to what the entries before it left. */
  ghost predicate SerialAt(history: seq<Entry>, k: nat)
    requires k < |history|
  {
    var q := history[k].request;
    Consume(Metering.Run(Requests(history[..k])), q.limit, q.key, q.amount, q.period).0 == history[k].answer
  }

  ghost predicate Serial(history: seq<Entry>) { forall k | 0 <= k < |history| :: SerialAt(history, k) }

  /** What a transaction that holds its organization has read is still so. */
  ghost predicate PhaseOk(s: State, txn: Txn)
    requires txn.job.Reserve?
  {
    var job, phase := txn.job, txn.phase;
    && (!phase.Start? && !phase.Finished? ==> job.amount >= 1)
    && (phase.Start? || phase.Locked? || phase.Found? || phase.Summed? || phase.Granted? ==> !txn.wrote)
    && (phase.Found? || phase.Summed? ==> phase.existing == Lookup(s.rows, job.key))
    && (phase.Summed? || phase.Granted? || phase.Inserted? ==> phase.used == Used(s.rows, job.key.org, job.period))
    && (phase.Granted? || phase.Inserted? ==>
          job.key !in s.rows && Within(LimitOf(s, job.key.org), phase.used + Mine(job).amount))
    && (phase.Inserted? ==> txn.wrote)
    && (phase.Answered? ==> AnswerOk(s, txn))
  }

  ghost predicate AnswerOk(s: State, txn: Txn)
    requires txn.job.Reserve? && txn.phase.Answered?
  {
    var job, answer := txn.job, txn.phase.answer;
    && Consume(s.rows, LimitOf(s, job.key.org), job.key, job.amount, job.period).0 == answer
    && (txn.wrote <==> answer.Ok? && !answer.value.duplicate)
  }

  predicate Active(s: State, t: Tid) { t in s.txns && !s.txns[t].phase.Start? && !s.txns[t].phase.Finished? }

  predicate HoldsLock(s: State, org: Org, t: Tid) { org in s.locks && s.locks[org] == t }

  ghost predicate TxnOk(s: State, t: Tid) {
    && (Active(s, t) ==> HoldsLock(s, OrgOf(s.txns[t].job), t))
    && (t in s.txns && s.txns[t].job.Reserve? ==> PhaseOk(s, s.txns[t]))
  }

  ghost predicate Inv(s: State) {
    && s.rows == Metering.Run(Requests(s.history))
    && Serial(s.history)
    && forall t :: TxnOk(s, t)
  }

  // ---- steps keep it ----

  lemma RequestsAppend(history: seq<Entry>, e: Entry)
    ensures Metering.Run(Requests(history + [e]))
         == Consume(Metering.Run(Requests(history)),
                    e.request.limit, e.request.key, e.request.amount, e.request.period).1
  {
    var longer := Requests(history + [e]);
    assert longer[..|history|] == Requests(history);
  }

  lemma SerialExtends(history: seq<Entry>, e: Entry)
    requires Serial(history)
    requires var q := e.request;
             Consume(Metering.Run(Requests(history)), q.limit, q.key, q.amount, q.period).0 == e.answer
    ensures Serial(history + [e])
  {
    var longer := history + [e];
    forall k | 0 <= k < |longer| ensures SerialAt(longer, k) {
      if k < |history| {
        assert SerialAt(history, k) && longer[..k] == history[..k];
      } else {
        assert longer[..k] == history;
      }
    }
  }

  /** A reservation of another organization changes nothing that a request can tell. */
  lemma Elsewhere(
    rows: Reservations, other: Key, r: Reservation, limit: Option<nat>, key: Key, amount: int, period: Period)
    requires other !in rows && other.org != key.org
    ensures Used(rows[other := r], key.org, period) == Used(rows, key.org, period)
    ensures Lookup(rows[other := r], key) == Lookup(rows, key)
    ensures Consume(rows[other := r], limit, key, amount, period).0 == Consume(rows, limit, key, amount, period).0
  {
    UsedInsert(rows, other, r, key.org, period);
  }

  /** The row is new and of another organization. */
  predicate IsElsewhere(rows: Reservations, rows': Reservations, org: Org, other: Key, r: Reservation) {
    other !in rows && other.org != org && rows' == rows[other := r]
  }

  /** Two states that look the same from one organization. */
  ghost predicate SameFor(s: State, s': State, org: Org) {
    && LimitOf(s', org) == LimitOf(s, org)
    && (s'.rows == s.rows || exists other, r :: IsElsewhere(s.rows, s'.rows, org, other, r))
  }

  lemma SameForKeeps(s: State, s': State, txn: Txn)
    requires txn.job.Reserve? && PhaseOk(s, txn) && SameFor(s, s', txn.job.key.org)
    ensures PhaseOk(s', txn)
  {
    var job := txn.job;
    if s'.rows != s.rows {
      var other, r :| IsElsewhere(s.rows, s'.rows, job.key.org, other, r);
      Elsewhere(s.rows, other, r, LimitOf(s, job.key.org), job.key, job.amount, job.period);
    }
  }

  predicate SameTxn(s: State, s': State, u: Tid) {
    (u in s.txns <==> u in s'.txns) && (u in s.txns ==> s'.txns[u] == s.txns[u])
  }

  /** What others rely on survives a step that looks the same from their organizations. */
  lemma OtherKeeps(s: State, s': State, u: Tid)
    requires TxnOk(s, u) && SameTxn(s, s', u)
    requires Active(s, u) ==> HoldsLock(s', OrgOf(s.txns[u].job), u) && SameFor(s, s', OrgOf(s.txns[u].job))
    ensures TxnOk(s', u)
  {
    if Active(s, u) && s.txns[u].job.Reserve? { SameForKeeps(s, s', s.txns[u]); }
  }

  /** A step leaves other transactions and their locks alone. */
  lemma StepTouchesOne(s: State, t: Tid, a: Action, u: Tid)
    requires Do(s, t, a).Some? && u != t
    ensures SameTxn(s, Do(s, t, a).value, u)
  {
    if !a.Begin? && !a.Abort? {
      if s.txns[t].job.SetPlan? {
        PlanTouchesOne(s, t, a, u);
      } else if !a.Refuse? && !a.CommitWork? {
        QuotaTouchesOne(s, t, a, u);
      }
    }
  }

  lemma PlanTouchesOne(s: State, t: Tid, a: Action, u: Tid)
    requires t in s.txns && s.txns[t].job.SetPlan? && PlanStep(s, t, a).Some? && u != t
    ensures SameTxn(s, PlanStep(s, t, a).value, u)
  {
  }

  lemma QuotaTouchesOne(s: State, t: Tid, a: Action, u: Tid)
    requires t in s.txns && s.txns[t].job.Reserve? && QuotaStep(s, t, a).Some? && u != t
    ensures SameTxn(s, QuotaStep(s, t, a).value, u)
  {
  }

  lemma LocksStay(s: State, t: Tid, a: Action, org: Org, u: Tid)
    requires Do(s, t, a).Some? && u != t && HoldsLock(s, org, u)
    ensures HoldsLock(Do(s, t, a).value, org, u)
  {
  }

  predicate SameDurable(s: State, s': State) {
    s'.enforced == s.enforced && s'.rows == s.rows && s'.plans == s.plans && s'.history == s.history
  }

  lemma QuotaIsQuiet(s: State, t: Tid, a: Action)
    requires t in s.txns && s.txns[t].job.Reserve? && QuotaStep(s, t, a).Some?
    ensures SameDurable(s, QuotaStep(s, t, a).value)
  {
  }

  /** Only ends of requests and changes of plans are durable. */
  predicate Durable(s: State, t: Tid, a: Action) {
    t in s.txns && if s.txns[t].job.SetPlan? then a.CommitWork? else a.Refuse? || a.CommitWork?
  }

  lemma QuietStep(s: State, t: Tid, a: Action)
    requires Do(s, t, a).Some? && !Durable(s, t, a)
    ensures SameDurable(s, Do(s, t, a).value)
  {
    if !a.Begin? && !a.Abort? && s.txns[t].job.Reserve? { QuotaIsQuiet(s, t, a); }
  }

  lemma EndStepIs(s: State, t: Tid, a: Action)
    requires Do(s, t, a).Some? && Durable(s, t, a) && s.txns[t].job.Reserve? && !a.Begin? && !a.Abort?
    ensures var s' := Do(s, t, a).value;
            && s'.enforced == s.enforced && s'.plans == s.plans && |s'.history| == |s.history| + 1
            && s'.history == s.history + [Entry(Asked(s, s.txns[t].job), s'.history[|s.history|].answer)]
  {
  }

  /** What a commit changes is its own organization's: its plan, or one new row. */
  lemma CommitRows(s: State, t: Tid, org: Org)
    requires TxnOk(s, t) && Do(s, t, CommitWork).Some? && org != OrgOf(s.txns[t].job)
    ensures SameFor(s, Do(s, t, CommitWork).value, org)
  {
    var s' := Do(s, t, CommitWork).value;
    assert LimitOf(s', org) == LimitOf(s, org);
    if s'.rows != s.rows {
      assert IsElsewhere(s.rows, s'.rows, org, s.txns[t].job.key, Mine(s.txns[t].job));
    }
  }

  lemma RefusalRows(s: State, t: Tid)
    requires Do(s, t, Refuse).Some? && t in s.txns
    ensures var s' := Do(s, t, Refuse).value; s'.rows == s.rows && s'.plans == s.plans && s'.enforced == s.enforced
  {
  }

  lemma StepKeepsOther(s: State, t: Tid, a: Action, u: Tid)
    requires Inv(s) && Do(s, t, a).Some? && u != t
    ensures TxnOk(Do(s, t, a).value, u)
  {
    assert TxnOk(s, u) && TxnOk(s, t);
    StepTouchesOne(s, t, a, u);
    if Active(s, u) {
      var org := OrgOf(s.txns[u].job);
      LocksStay(s, t, a, org, u);
      if a.CommitWork? {
        CommitMeetsNobody(s, t, u);
        CommitRows(s, t, org);
      } else if Durable(s, t, a) {
        RefusalRows(s, t);
      } else {
        QuietStep(s, t, a);
      }
    }
    OtherKeeps(s, Do(s, t, a).value, u);
  }

  /** Whoever commits is the only one in its organization. */
  lemma CommitMeetsNobody(s: State, t: Tid, u: Tid)
    requires TxnOk(s, t) && TxnOk(s, u) && Do(s, t, CommitWork).Some? && Active(s, u) && u != t
    ensures OrgOf(s.txns[u].job) != OrgOf(s.txns[t].job)
  {
  }

  /** The decision is what the request alone would have been answered, or goes on to insert. */
  lemma DecidedOk(s: State, txn: Txn)
    requires txn.job.Reserve? && txn.phase.Summed? && PhaseOk(s, txn)
    ensures PhaseOk(s, txn.(phase := Decided(s, txn.job, txn.phase.existing, txn.phase.used)))
  {
  }

  /** The row that the second lookup finds is the transaction's own: nobody else can have inserted one. */
  lemma ConfirmedOk(s: State, t: Tid)
    requires t in s.txns && s.txns[t].job.Reserve? && s.txns[t].phase.Inserted? && PhaseOk(s, s.txns[t])
    ensures Confirmed(s, t, s.txns[t].phase.used)
         == Ok(Consumed(s.txns[t].phase.used + Mine(s.txns[t].job).amount, false))
    ensures PhaseOk(s, s.txns[t].(phase := Answered(Confirmed(s, t, s.txns[t].phase.used))))
  {
  }

  lemma QuotaKeepsPhase(s: State, t: Tid, a: Action)
    requires t in s.txns && s.txns[t].job.Reserve? && PhaseOk(s, s.txns[t])
    requires QuotaStep(s, t, a).Some?
    ensures var s' := QuotaStep(s, t, a).value; t in s'.txns && s'.txns[t].job.Reserve? && PhaseOk(s, s'.txns[t])
  {
    match a
    case Decide => DecidedOk(s, s.txns[t]);
    case Confirm => ConfirmedOk(s, t);
    case _ =>
  }

  lemma QuotaKeepsLock(s: State, t: Tid, a: Action)
    requires t in s.txns && s.txns[t].job.Reserve? && QuotaStep(s, t, a).Some?
    requires Active(s, t) ==> HoldsLock(s, OrgOf(s.txns[t].job), t)
    ensures var s' := QuotaStep(s, t, a).value;
            && t in s'.txns && s'.txns[t].job == s.txns[t].job
            && (Active(s', t) ==> HoldsLock(s', OrgOf(s.txns[t].job), t))
            && SameDurable(s, s')
  {
  }

  lemma StepKeepsOwn(s: State, t: Tid, a: Action)
    requires Inv(s) && Do(s, t, a).Some?
    ensures TxnOk(Do(s, t, a).value, t)
  {
    assert TxnOk(s, t);
    if t in s.txns && s.txns[t].job.Reserve? && !a.Abort? && !Durable(s, t, a) {
      QuotaKeepsLock(s, t, a);
      QuotaKeepsPhase(s, t, a);
      SameForKeeps(s, Do(s, t, a).value, Do(s, t, a).value.txns[t]);
    }
  }

  /** What the end of a request adds to the history is what the request alone would do. */
  lemma EndIsSerial(s: State, t: Tid, a: Action)
    requires TxnOk(s, t) && t in s.txns && s.txns[t].job.Reserve? && EndStep(s, t, a).Some?
    ensures var s' := EndStep(s, t, a).value;
            && |s'.history| == |s.history| + 1
            && var e := s'.history[|s.history|];
            && s'.history == s.history + [e]
            && Answers(s.rows, e, s'.rows)
  {
  }

  ghost predicate Answers(rows: Reservations, e: Entry, rows': Reservations) {
    var q := e.request;
    Consume(rows, q.limit, q.key, q.amount, q.period) == (e.answer, rows')
  }

  lemma HistoryGrows(s: State, s': State, e: Entry)
    requires s.rows == Metering.Run(Requests(s.history)) && Serial(s.history)
    requires s'.history == s.history + [e] && Answers(s.rows, e, s'.rows)
    ensures s'.rows == Metering.Run(Requests(s'.history)) && Serial(s'.history)
  {
    RequestsAppend(s.history, e);
    SerialExtends(s.history, e);
  }

  lemma StepKeepsHistory(s: State, t: Tid, a: Action)
    requires Inv(s) && Do(s, t, a).Some?
    ensures var s' := Do(s, t, a).value; s'.rows == Metering.Run(Requests(s'.history)) && Serial(s'.history)
  {
    if !Durable(s, t, a) || a.Begin? || a.Abort? {
      QuietStep(s, t, a);
    } else if s.txns[t].job.Reserve? {
      assert TxnOk(s, t);
      EndIsSerial(s, t, a);
      var s' := Do(s, t, a).value;
      HistoryGrows(s, s', s'.history[|s.history|]);
    }
  }

  lemma StepKeepsInv(s: State, t: Tid, a: Action)
    requires Inv(s) && Do(s, t, a).Some?
    ensures Inv(Do(s, t, a).value)
  {
    StepKeepsHistory(s, t, a);
    forall u ensures TxnOk(Do(s, t, a).value, u) {
      if u == t { StepKeepsOwn(s, t, a); } else { StepKeepsOther(s, t, a, u); }
    }
  }

  lemma {:induction false} RunKeepsInv(s: State, schedule: seq<(Tid, Action)>)
    requires IsStart(s)
    ensures Inv(Run(s, schedule))
    decreases |schedule|
  {
    if |schedule| > 0 {
      var n := |schedule| - 1;
      RunKeepsInv(s, schedule[..n]);
      var before := Run(s, schedule[..n]);
      if Do(before, schedule[n].0, schedule[n].1).Some? { StepKeepsInv(before, schedule[n].0, schedule[n].1); }
    }
  }

  // ---- every run ----

  /** Every interleaving of reservations and plan changes, aborts included, answers as if the requests had been made
      one after the other, each under the plan then in force; the rows are what those requests leave. */
  lemma ReservationsAreSerial(s: State, schedule: seq<(Tid, Action)>)
    requires IsStart(s)
    ensures var t := Run(s, schedule); t.rows == Metering.Run(Requests(t.history)) && Serial(t.history)
  {
    RunKeepsInv(s, schedule);
  }

  /** The claim that the second lookup reads is always the transaction's own: the race that it looks for is lost by
      nobody. */
  lemma NoClaimIsLost(s: State, schedule: seq<(Tid, Action)>, t: Tid)
    requires IsStart(s) && Do(Run(s, schedule), t, Confirm).Some?
    ensures var txn := Do(Run(s, schedule), t, Confirm).value.txns[t];
            txn.phase.Answered? && txn.phase.answer.Ok? && !txn.phase.answer.value.duplicate
  {
    RunKeepsInv(s, schedule);
    assert TxnOk(Run(s, schedule), t);
    ConfirmedOk(Run(s, schedule), t);
  }

  /** A granted answer tells the usage exactly, and new usage ends within the limit. */
  ghost predicate Fits(e: Entry, after: Reservations) {
    && (e.answer.Ok? ==> e.answer.value.used == Used(after, e.request.key.org, e.request.period))
    && (e.answer.Ok? && !e.answer.value.duplicate ==> Within(e.request.limit, e.answer.value.used))
  }

  lemma AnswerFits(rows: Reservations, e: Entry, after: Reservations)
    requires Answers(rows, e, after)
    ensures Fits(e, after)
  {
    var q := e.request;
    ConsumeMeans(rows, q.limit, q.key, q.amount, q.period, q.key.org, q.period);
  }

  /** In every interleaving, each answer fits what it leaves, and new usage the limit then in force. */
  lemma GrantsFit(s: State, schedule: seq<(Tid, Action)>, k: nat)
    requires IsStart(s) && k < |Run(s, schedule).history|
    ensures var history := Run(s, schedule).history; Fits(history[k], Metering.Run(Requests(history[..k + 1])))
  {
    ReservationsAreSerial(s, schedule);
    EntryFits(Run(s, schedule).history, k);
  }

  lemma EntryFits(history: seq<Entry>, k: nat)
    requires Serial(history) && k < |history|
    ensures Fits(history[k], Metering.Run(Requests(history[..k + 1])))
  {
    assert SerialAt(history, k);
    assert history[..k + 1] == history[..k] + [history[k]];
    RequestsAppend(history[..k], history[k]);
    AnswerFits(Metering.Run(Requests(history[..k])), history[k], Metering.Run(Requests(history[..k + 1])));
  }

  predicate NeverSetsPlan(schedule: seq<(Tid, Action)>, org: Org) {
    forall i | 0 <= i < |schedule| ::
      schedule[i].1.Begin? && schedule[i].1.job.SetPlan? ==> schedule[i].1.job.organization != org
  }

  /** No transaction of the run is about the plan of `org`, which is as it was when each request was answered. */
  ghost predicate PlanStays(s: State, t: State, org: Org) {
    && t.enforced == s.enforced && LimitOf(t, org) == LimitOf(s, org)
    && (forall u :: !AboutPlan(t, u, org))
    && (forall k | 0 <= k < |t.history| && t.history[k].request.key.org == org ::
          t.history[k].request.limit == LimitOf(s, org))
  }

  predicate AboutPlan(s: State, u: Tid, org: Org) {
    u in s.txns && s.txns[u].job.SetPlan? && s.txns[u].job.organization == org
  }

  /** A step keeps the job of its transaction. */
  lemma StepKeepsJob(s: State, t: Tid, a: Action, org: Org)
    requires Do(s, t, a).Some? && !AboutPlan(s, t, org)
    requires a.Begin? && a.job.SetPlan? ==> a.job.organization != org
    ensures !AboutPlan(Do(s, t, a).value, t, org)
  {
    if !a.Begin? && !a.Abort? && s.txns[t].job.Reserve? && !Durable(s, t, a) { QuotaKeepsJob(s, t, a); }
  }

  lemma QuotaKeepsJob(s: State, t: Tid, a: Action)
    requires t in s.txns && s.txns[t].job.Reserve? && QuotaStep(s, t, a).Some?
    ensures t in QuotaStep(s, t, a).value.txns && QuotaStep(s, t, a).value.txns[t].job == s.txns[t].job
  {
  }

  /** A step keeps the limit of every organization whose plan it is not about, and logs a request under it. */
  lemma StepKeepsLimit(s: State, t: Tid, a: Action, org: Org)
    requires Do(s, t, a).Some? && !AboutPlan(s, t, org)
    ensures var s' := Do(s, t, a).value;
            && s'.enforced == s.enforced && LimitOf(s', org) == LimitOf(s, org)
            && (s'.history == s.history || LoggedUnder(s, s', org))
  {
    if !Durable(s, t, a) || a.Begin? || a.Abort? {
      QuietStep(s, t, a);
    } else if s.txns[t].job.Reserve? {
      EndStepIs(s, t, a);
    }
  }

  predicate LoggedUnder(s: State, s': State, org: Org) {
    && |s'.history| == |s.history| + 1 && s'.history[..|s.history|] == s.history
    && var q := s'.history[|s.history|].request; q.key.org == org ==> q.limit == LimitOf(s, org)
  }

  lemma StepKeepsPlan(s: State, before: State, t: Tid, a: Action, org: Org)
    requires PlanStays(s, before, org) && Do(before, t, a).Some?
    requires a.Begin? && a.job.SetPlan? ==> a.job.organization != org
    ensures PlanStays(s, Do(before, t, a).value, org)
  {
    assert !AboutPlan(before, t, org);
    StepKeepsJob(before, t, a, org);
    StepKeepsLimit(before, t, a, org);
    forall u ensures !AboutPlan(Do(before, t, a).value, u, org) {
      if u != t { StepTouchesOne(before, t, a, u); assert !AboutPlan(before, u, org); }
    }
    HistoryStays(s, before, Do(before, t, a).value, org);
  }

  lemma HistoryStays(s: State, before: State, after: State, org: Org)
    requires PlanStays(s, before, org) && (after.history == before.history || LoggedUnder(before, after, org))
    ensures forall k | 0 <= k < |after.history| && after.history[k].request.key.org == org ::
              after.history[k].request.limit == LimitOf(s, org)
  {
    forall k | 0 <= k < |after.history| && after.history[k].request.key.org == org
      ensures after.history[k].request.limit == LimitOf(s, org)
    {
      if k < |before.history| { assert after.history[k] == before.history[k]; }
    }
  }

  lemma {:induction false} RunKeepsPlan(s: State, schedule: seq<(Tid, Action)>, org: Org)
    requires IsStart(s) && NeverSetsPlan(schedule, org)
    ensures PlanStays(s, Run(s, schedule), org)
    decreases |schedule|
  {
    if |schedule| > 0 {
      var n := |schedule| - 1;
      RunKeepsPlan(s, schedule[..n], org);
      var before := Run(s, schedule[..n]);
      if Do(before, schedule[n].0, schedule[n].1).Some? {
        StepKeepsPlan(s, before, schedule[n].0, schedule[n].1, org);
      }
    }
  }

  /** While the plan of an organization is not changed, no interleaving takes any month of it over the limit. */
  lemma UsageStaysWithinPlan(s: State, schedule: seq<(Tid, Action)>, org: Org, period: Period)
    requires IsStart(s) && NeverSetsPlan(schedule, org)
    ensures Within(LimitOf(s, org), Used(Run(s, schedule).rows, org, period))
  {
    ReservationsAreSerial(s, schedule);
    RunKeepsPlan(s, schedule, org);
    var requests := Requests(Run(s, schedule).history);
    assert forall i | 0 <= i < |requests| && requests[i].key.org == org :: requests[i].limit == LimitOf(s, org);
    UsageStaysWithin(requests, LimitOf(s, org), org, period);
  }

  // ---- a transaction that nobody disturbs ----

  ghost function Next(s: State, t: Tid, a: Action): State {
    var step := Do(s, t, a);
    if step.Some? then step.value else s
  }

  /** The statements of a transaction one after the other; one that cannot go on is passed over. */
  function Statements(job: Job): seq<Action> {
    if job.SetPlan? then [Begin(job), LockOrganization, CommitWork]
    else if job.amount < 1 then [Begin(job), Refuse]
    else [Begin(job), LockOrganization, FindReservation, SumUsed, Decide, Insert, Confirm, CommitWork]
  }

  ghost function RunAlone(s: State, t: Tid, actions: seq<Action>): State
    decreases |actions|
  {
    if |actions| == 0 then s else RunAlone(Next(s, t, actions[0]), t, actions[1..])
  }

  lemma OneStep(s: State, t: Tid, actions: seq<Action>, s': State)
    requires |actions| > 0 && Next(s, t, actions[0]) == s'
    ensures RunAlone(s, t, actions) == RunAlone(s', t, actions[1..])
  {
  }

  /** The organization is held by a transaction that has committed nothing. */
  function Held(s: State, t: Tid, job: Job, phase: Phase, wrote: bool): State {
    s.(locks := s.locks[OrgOf(job) := t], txns := s.txns[t := Txn(job, phase, wrote)])
  }

  lemma HeldGoes(s: State, t: Tid, job: Job, phase: Phase, wrote: bool, next: Phase)
    ensures Goes(Held(s, t, job, phase, wrote), t, next) == Held(s, t, job, next, wrote)
  {
    assert s.txns[t := Txn(job, phase, wrote)][t := Txn(job, next, wrote)] == s.txns[t := Txn(job, next, wrote)];
  }

  /** Two statements, and the organization is held. */
  lemma TakesLock(s: State, t: Tid, job: Job, actions: seq<Action>)
    requires t !in s.txns && OrgOf(job) !in s.locks && (job.Reserve? ==> job.amount >= 1)
    requires |actions| >= 2 && actions[0] == Begin(job) && actions[1] == LockOrganization
    ensures RunAlone(s, t, actions) == RunAlone(Held(s, t, job, Locked, false), t, actions[2..])
  {
    var begun := With(s, t, Txn(job, Start, false));
    OneStep(s, t, actions, begun);
    assert s.txns[t := Txn(job, Start, false)][t := Txn(job, Locked, false)] == s.txns[t := Txn(job, Locked, false)];
    OneStep(begun, t, actions[1..], Held(s, t, job, Locked, false));
    assert actions[1..][1..] == actions[2..];
  }

  lemma Finds(s: State, t: Tid, job: Job)
    requires job.Reserve?
    ensures Next(Held(s, t, job, Locked, false), t, FindReservation)
         == Held(s, t, job, Found(Lookup(s.rows, job.key)), false)
  {
    HeldGoes(s, t, job, Locked, false, Found(Lookup(s.rows, job.key)));
  }

  lemma Sums(s: State, t: Tid, job: Job, found: Option<Reservation>)
    requires job.Reserve?
    ensures Next(Held(s, t, job, Found(found), false), t, SumUsed)
         == Held(s, t, job, Summed(found, Used(s.rows, job.key.org, job.period)), false)
  {
    HeldGoes(s, t, job, Found(found), false, Summed(found, Used(s.rows, job.key.org, job.period)));
  }

  lemma Decides(s: State, t: Tid, job: Job, found: Option<Reservation>, used: nat)
    requires job.Reserve?
    ensures Next(Held(s, t, job, Summed(found, used), false), t, Decide)
         == Held(s, t, job, Decided(s, job, found, used), false)
  {
    HeldGoes(s, t, job, Summed(found, used), false, Decided(s, job, found, used));
  }

  /** The insertion and the second lookup: only a granted reservation is inserted, and then confirmed. */
  lemma Inserts(s: State, t: Tid, job: Job, used: nat)
    requires job.Reserve? && job.amount >= 1 && job.key !in s.rows
    ensures var answer := Answered(Ok(Consumed(used + job.amount, false)));
            Next(Next(Held(s, t, job, Granted(used), false), t, Insert), t, Confirm) == Held(s, t, job, answer, true)
  {
    var inserted := Held(s, t, job, Inserted(used), true);
    assert s.txns[t := Txn(job, Granted(used), false)][t := Txn(job, Inserted(used), true)]
        == s.txns[t := Txn(job, Inserted(used), true)];
    assert Next(Held(s, t, job, Granted(used), false), t, Insert) == inserted;
    HeldGoes(s, t, job, Inserted(used), true, Answered(Ok(Consumed(used + job.amount, false))));
  }

  lemma StaysAnswered(s: State, t: Tid, job: Job, answer: Result<Consumed, Failure>)
    requires job.Reserve?
    ensures var answered := Held(s, t, job, Answered(answer), false);
            Next(Next(answered, t, Insert), t, Confirm) == answered
  {
  }

  /** The end of a transaction that nobody disturbs. */
  lemma Ending(s: State, t: Tid, job: Job, answer: Result<Consumed, Failure>, wrote: bool)
    requires job.Reserve? && OrgOf(job) !in s.locks && (wrote ==> answer.Ok?)
    ensures var after := Next(Held(s, t, job, Answered(answer), wrote), t, CommitWork);
            && after.history == s.history + [Entry(Asked(s, job), answer)]
            && after.rows == (if wrote then s.rows[job.key := Mine(job)] else s.rows)
            && after.plans == s.plans && after.locks == s.locks
  {
    assert s.locks[OrgOf(job) := t] - {OrgOf(job)} == s.locks;
  }

  /** The decision is the answer to the request, or that it may be inserted. */
  lemma DecisionMeans(s: State, job: Job)
    requires job.Reserve? && job.amount >= 1
    ensures var used := Used(s.rows, job.key.org, job.period);
            var decision := Decided(s, job, Lookup(s.rows, job.key), used);
            var consumed := Consume(s.rows, StoredLimit(s, job.key.org), job.key, job.amount, job.period);
            if decision.Granted?
            then && job.key !in s.rows && decision.used == used
                 && consumed == (Ok(Consumed(used + job.amount, false)), s.rows[job.key := Mine(job)])
            else decision.Answered? && consumed == (decision.answer, s.rows)
  {
  }

  /** The limit of the plan that is stored for the organization: 1,000 events on the free plan, 100,000 on the team
      plan, none on the enterprise plan or when billing is off. */
  function StoredLimit(s: State, org: Org): Option<nat> {
    if !s.enforced || (org in s.plans && s.plans[org].Enterprise?) then None
    else if org in s.plans && s.plans[org].Team? then Some(100000)
    else Some(1000)
  }

  /** A reservation was answered as one request under the stored plan. */
  ghost predicate Reserved(s: State, job: Job, after: State)
    requires job.Reserve?
  {
    && |after.history| == |s.history| + 1
    && Consume(s.rows, StoredLimit(s, job.key.org), job.key, job.amount, job.period)
         == (after.history[|s.history|].answer, after.rows)
    && after.plans == s.plans && after.locks == s.locks
  }

  lemma ReservesLocked(s: State, t: Tid, job: Job)
    requires job.Reserve? && job.amount >= 1 && t !in s.txns && job.key.org !in s.locks
    ensures Reserved(s, job, RunAlone(s, t, Statements(job)))
  {
    var all := Statements(job);
    var used, found := Used(s.rows, job.key.org, job.period), Lookup(s.rows, job.key);
    var decision := Decided(s, job, found, used);
    TakesLock(s, t, job, all);
    assert all[2..] == [FindReservation, SumUsed, Decide, Insert, Confirm, CommitWork];
    Finds(s, t, job);
    OneStep(Held(s, t, job, Locked, false), t, all[2..], Held(s, t, job, Found(found), false));
    Sums(s, t, job, found);
    assert all[2..][1..] == [SumUsed, Decide, Insert, Confirm, CommitWork];
    OneStep(Held(s, t, job, Found(found), false), t, all[2..][1..], Held(s, t, job, Summed(found, used), false));
    Decides(s, t, job, found, used);
    assert all[2..][1..][1..] == [Decide, Insert, Confirm, CommitWork];
    OneStep(
      Held(s, t, job, Summed(found, used), false), t, [Decide, Insert, Confirm, CommitWork],
      Held(s, t, job, decision, false));
    assert [Decide, Insert, Confirm, CommitWork][1..] == [Insert, Confirm, CommitWork];
    LastThree(s, t, job, decision);
  }

  lemma LastThree(s: State, t: Tid, job: Job, decision: Phase)
    requires job.Reserve? && job.amount >= 1 && job.key.org !in s.locks
    requires decision == Decided(s, job, Lookup(s.rows, job.key), Used(s.rows, job.key.org, job.period))
    ensures Reserved(s, job, RunAlone(Held(s, t, job, decision, false), t, [Insert, Confirm, CommitWork]))
  {
    var decided := Held(s, t, job, decision, false);
    var answer := if decision.Granted? then Ok(Consumed(decision.used + job.amount, false)) else decision.answer;
    var answered := Held(s, t, job, Answered(answer), decision.Granted?);
    DecisionMeans(s, job);
    if decision.Granted? { Inserts(s, t, job, decision.used); } else { StaysAnswered(s, t, job, answer); }
    assert [Insert, Confirm, CommitWork][1..] == [Confirm, CommitWork] && [Confirm, CommitWork][1..] == [CommitWork];
    OneStep(decided, t, [Insert, Confirm, CommitWork], Next(decided, t, Insert));
    OneStep(Next(decided, t, Insert), t, [Confirm, CommitWork], answered);
    OneStep(answered, t, [CommitWork], Next(answered, t, CommitWork));
    Ending(s, t, job, answer, decision.Granted?);
  }

  /** With its organization free, a reservation goes through as one request under the stored plan, and a plan change
      is stored; either leaves all else as it was. */
  lemma AloneGoesThrough(s: State, t: Tid, job: Job)
    requires t !in s.txns && OrgOf(job) !in s.locks
    ensures var after := RunAlone(s, t, Statements(job));
            if job.Reserve? then Reserved(s, job, after)
            else && after.plans == s.plans[job.organization := job.plan]
                 && after.rows == s.rows && after.history == s.history && after.locks == s.locks
  {
    var all := Statements(job);
    if job.SetPlan? {
      TakesLock(s, t, job, all);
      assert all[2..] == [CommitWork];
      var held := Held(s, t, job, Locked, false);
      OneStep(held, t, [CommitWork], Next(held, t, CommitWork));
      assert s.locks[OrgOf(job) := t] - {OrgOf(job)} == s.locks;
    } else if job.amount < 1 {
      var begun := With(s, t, Txn(job, Start, false));
      OneStep(s, t, all, begun);
      assert all[1..] == [Refuse];
      OneStep(begun, t, [Refuse], Next(begun, t, Refuse));
    } else {
      ReservesLocked(s, t, job);
    }
  }
}
