/** The promise chain that serializes member mutations of one organization, and the seat check that runs in it.
    Calls are numbered in arrival order; every step between two awaits is atomic. */
module SeatLock {
  import opened Sets
  import opened Wrappers

  type Org = string
  type User = string

  /** How far the guarded operation is. */
  datatype Step = Began | Listed(seen: set<User>) | Checked(seen: set<User>)

  datatype Phase = Waiting | Running(step: Step) | Done

  /** `previous` is the call whose tail promise was found under the key; the tail of a call resolves when that
      promise and the call's own `held` promise have. */
  datatype Call = Call(org: Org, user: User, previous: Option<nat>, phase: Phase)

  /** `locks` maps a key to the call whose tail is stored. */
  datatype State = State(calls: seq<Call>, locks: map<Org, nat>, members: map<Org, set<User>>)

  datatype Action =
    | Arrive(org: Org, user: User)
    | Start(call: nat)
    | List(call: nat)
    | Check(call: nat)
    | Add(call: nat)
    | Fail(call: nat)
    | Remove(org: Org, user: User)

  function MembersOf(s: State, org: Org): set<User> { if org in s.members then s.members[org] else {} }

  ghost predicate TailResolved(calls: seq<Call>, c: nat)
    decreases c
  {
    && c < |calls| && calls[c].phase.Done?
    && (calls[c].previous.Some? ==> calls[c].previous.value < c && TailResolved(calls, calls[c].previous.value))
  }

  function SetPhase(s: State, c: nat, phase: Phase): State
    requires c < |s.calls|
  {
    s.(calls := s.calls[c := s.calls[c].(phase := phase)])
  }

  /** The `finally` block: release, and delete the entry if it is still this call's tail. */
  function Leave(s: State, c: nat): State
    requires c < |s.calls|
  {
    var org := s.calls[c].org;
    var t := SetPhase(s, c, Done);
    if org in s.locks && s.locks[org] == c then t.(locks := s.locks - {org}) else t
  }

  predicate HasSeat(maxSeats: Option<nat>, count: nat) { maxSeats.Some? ==> count <= maxSeats.value }

  /** One step of the server, if it is enabled. `maxSeats` is the plan's seat limit. */
  ghost function Do(s: State, a: Action, maxSeats: Option<nat>): Option<State> {
    match a
    case Arrive(org, user) =>
      var previous := if org in s.locks then Some(s.locks[org]) else None;
      Some(s.(calls := s.calls + [Call(org, user, previous, Waiting)], locks := s.locks[org := |s.calls|]))
    case Remove(org, user) =>
      if org in s.members then Some(s.(members := s.members[org := s.members[org] - {user}])) else None
    case Start(c) =>
      if c < |s.calls| && s.calls[c].phase.Waiting?
         && (s.calls[c].previous.Some? ==> TailResolved(s.calls, s.calls[c].previous.value))
      then Some(SetPhase(s, c, Running(Began))) else None
    case List(c) =>
      if c < |s.calls| && s.calls[c].phase == Running(Began)
      then Some(SetPhase(s, c, Running(Listed(MembersOf(s, s.calls[c].org))))) else None
    case Check(c) =>
      if c >= |s.calls| || !s.calls[c].phase.Running? || !s.calls[c].phase.step.Listed? then None
      else
        var seen := s.calls[c].phase.step.seen;
        if s.calls[c].user in seen || HasSeat(maxSeats, |seen| + 1)
        then Some(SetPhase(s, c, Running(Checked(seen))))
        else Some(Leave(s, c))
    case Add(c) =>
      if c >= |s.calls| || !s.calls[c].phase.Running? || !s.calls[c].phase.step.Checked? then None
      else
        var call := s.calls[c];
        if call.user in MembersOf(s, call.org) then Some(Leave(s, c))
        else Some(Leave(s.(members := s.members[call.org := MembersOf(s, call.org) + {call.user}]), c))
    case Fail(c) =>
      if c < |s.calls| && s.calls[c].phase.Running? then Some(Leave(s, c)) else None
  }

  ghost function Run(s: State, schedule: seq<Action>, maxSeats: Option<nat>): State
    decreases |schedule|
  {
    if |schedule| == 0 then s else
    var before := Run(s, schedule[..|schedule| - 1], maxSeats);
    var step := Do(before, schedule[|schedule| - 1], maxSeats);
    if step.Some? then step.value else before
  }

  // ---- the chain ----

  /** Whoever has started finds every earlier call of its key finished. */
  predicate Before(calls: seq<Call>, i: nat, j: nat)
    requires i < j < |calls|
  {
    calls[i].org == calls[j].org && !calls[j].phase.Waiting? ==> calls[i].phase.Done?
  }

  /** A call waits for the call of its key just before it, or for nobody when all earlier ones have finished. */
  predicate PreviousOk(calls: seq<Call>, i: nat, j: nat)
    requires i < j < |calls|
  {
    && (calls[j].previous.Some? ==> calls[j].previous.value < j && calls[calls[j].previous.value].org == calls[j].org)
    && (calls[i].org == calls[j].org ==>
          if calls[j].previous.Some? then i <= calls[j].previous.value else calls[i].phase.Done?)
  }

  predicate EntryOk(s: State, i: nat)
    requires i < |s.calls|
  {
    var org := s.calls[i].org;
    && (org !in s.locks ==> s.calls[i].phase.Done?)
    && (org in s.locks ==> i <= s.locks[org])
  }

  ghost predicate Fifo(calls: seq<Call>) {
    && (forall i, j {:trigger Before(calls, i, j)} | 0 <= i < j < |calls| :: Before(calls, i, j))
    && (forall i, j {:trigger PreviousOk(calls, i, j)} | 0 <= i < j < |calls| :: PreviousOk(calls, i, j))
    && (|calls| > 0 ==> calls[0].previous.None?)
  }

  ghost predicate EntriesOk(s: State) {
    && (forall i {:trigger EntryOk(s, i)} | 0 <= i < |s.calls| :: EntryOk(s, i))
    && (forall org | org in s.locks ::
          && s.locks[org] < |s.calls|
          && s.calls[s.locks[org]].org == org && !s.calls[s.locks[org]].phase.Done?)
  }

  ghost predicate ChainOk(s: State) { Fifo(s.calls) && EntriesOk(s) }

  /** A tail that has resolved leaves nobody of its key running or waiting before the next call. */
  lemma StartsInOrder(calls: seq<Call>, i: nat, j: nat)
    requires Fifo(calls) && i < j < |calls| && calls[i].org == calls[j].org
    requires calls[j].previous.Some? ==> calls[j].previous.value < |calls| && calls[calls[j].previous.value].phase.Done?
    ensures calls[i].phase.Done?
  {
    assert PreviousOk(calls, i, j);
    if calls[j].previous.Some? && i < calls[j].previous.value {
      assert Before(calls, i, calls[j].previous.value);
    }
  }

  lemma ArriveKeeps(s: State, org: Org, user: User, maxSeats: Option<nat>)
    requires ChainOk(s)
    ensures ChainOk(Do(s, Arrive(org, user), maxSeats).value)
  {
    var t := Do(s, Arrive(org, user), maxSeats).value;
    var n := |s.calls|;
    forall i, j | 0 <= i < j < |t.calls| ensures Before(t.calls, i, j) && PreviousOk(t.calls, i, j) {
      if j < n {
        assert Before(s.calls, i, j) && PreviousOk(s.calls, i, j);
      } else {
        assert EntryOk(s, i);
      }
    }
    forall i | 0 <= i < |t.calls| ensures EntryOk(t, i) {
      if i < n { assert EntryOk(s, i); }
    }
  }

  lemma StartKeeps(s: State, c: nat, maxSeats: Option<nat>)
    requires ChainOk(s) && Do(s, Start(c), maxSeats).Some?
    ensures ChainOk(Do(s, Start(c), maxSeats).value)
  {
    var t := Do(s, Start(c), maxSeats).value;
    forall i, j | 0 <= i < j < |t.calls| ensures Before(t.calls, i, j) && PreviousOk(t.calls, i, j) {
      assert Before(s.calls, i, j) && PreviousOk(s.calls, i, j);
      if j == c && s.calls[i].org == s.calls[c].org { StartsInOrder(s.calls, i, c); }
    }
    forall i | 0 <= i < |t.calls| ensures EntryOk(t, i) { assert EntryOk(s, i); }
  }

  /** A running call going on or leaving, whether it succeeded or failed. */
  lemma GoOnKeeps(s: State, c: nat, step: Step)
    requires ChainOk(s) && c < |s.calls| && s.calls[c].phase.Running?
    ensures ChainOk(SetPhase(s, c, Running(step)))
  {
    var t := SetPhase(s, c, Running(step));
    forall i, j | 0 <= i < j < |t.calls| ensures Before(t.calls, i, j) && PreviousOk(t.calls, i, j) {
      assert Before(s.calls, i, j) && PreviousOk(s.calls, i, j);
    }
    forall i | 0 <= i < |t.calls| ensures EntryOk(t, i) { assert EntryOk(s, i); }
  }

  lemma LeaveKeeps(s: State, c: nat)
    requires ChainOk(s) && c < |s.calls| && s.calls[c].phase.Running?
    ensures ChainOk(Leave(s, c))
  {
    var t := Leave(s, c);
    forall i, j | 0 <= i < j < |t.calls| ensures Before(t.calls, i, j) && PreviousOk(t.calls, i, j) {
      assert Before(s.calls, i, j) && PreviousOk(s.calls, i, j);
    }
    forall i | 0 <= i < |t.calls| ensures EntryOk(t, i) {
      assert EntryOk(s, i);
      if i < c { assert Before(s.calls, i, c); }
    }
  }

  lemma StepKeepsChain(s: State, a: Action, maxSeats: Option<nat>)
    requires ChainOk(s) && Do(s, a, maxSeats).Some?
    ensures ChainOk(Do(s, a, maxSeats).value)
  {
    match a
    case Arrive(org, user) => ArriveKeeps(s, org, user, maxSeats);
    case Start(c) => StartKeeps(s, c, maxSeats);
    case List(c) => GoOnKeeps(s, c, Listed(MembersOf(s, s.calls[c].org)));
    case Check(c) =>
      GoOnKeeps(s, c, Checked(s.calls[c].phase.step.seen));
      LeaveKeeps(s, c);
    case Add(c) =>
      var call := s.calls[c];
      MembersAside(s, s.(members := s.members[call.org := MembersOf(s, call.org) + {call.user}]));
      LeaveKeeps(s, c);
      LeaveKeeps(s.(members := s.members[call.org := MembersOf(s, call.org) + {call.user}]), c);
    case Fail(c) => LeaveKeeps(s, c);
    case Remove(org, user) => MembersAside(s, Do(s, a, maxSeats).value);
  }

  lemma MembersAside(s: State, t: State)
    requires ChainOk(s) && t.calls == s.calls && t.locks == s.locks
    ensures ChainOk(t)
  {
    forall i | 0 <= i < |t.calls| ensures EntryOk(t, i) { assert EntryOk(s, i); }
  }

  lemma {:induction false} RunKeepsChain(s: State, schedule: seq<Action>, maxSeats: Option<nat>)
    requires s.calls == [] && s.locks == map[]
    ensures ChainOk(Run(s, schedule, maxSeats))
    decreases |schedule|
  {
    if |schedule| > 0 {
      var n := |schedule| - 1;
      RunKeepsChain(s, schedule[..n], maxSeats);
      var before := Run(s, schedule[..n], maxSeats);
      if Do(before, schedule[n], maxSeats).Some? { StepKeepsChain(before, schedule[n], maxSeats); }
    }
  }

  /** For every schedule: at most one operation of a key runs, and operations of a key run in arrival order. */
  lemma OneAtATimeInOrder(s: State, schedule: seq<Action>, maxSeats: Option<nat>, i: nat, j: nat)
    requires s.calls == [] && s.locks == map[]
    requires var t := Run(s, schedule, maxSeats); i < j < |t.calls| && t.calls[i].org == t.calls[j].org
    ensures var t := Run(s, schedule, maxSeats);
            && !(t.calls[i].phase.Running? && t.calls[j].phase.Running?)
            && (!t.calls[j].phase.Waiting? ==> t.calls[i].phase.Done?)
  {
    RunKeepsChain(s, schedule, maxSeats);
    assert Before(Run(s, schedule, maxSeats).calls, i, j);
  }

  /** A key has an entry exactly while one of its calls is unfinished. */
  lemma EntryWhileUnfinished(s: State, schedule: seq<Action>, maxSeats: Option<nat>, org: Org)
    requires s.calls == [] && s.locks == map[]
    ensures var t := Run(s, schedule, maxSeats);
            org in t.locks <==> exists i | 0 <= i < |t.calls| :: t.calls[i].org == org && !t.calls[i].phase.Done?
  {
    RunKeepsChain(s, schedule, maxSeats);
    var t := Run(s, schedule, maxSeats);
    forall i | 0 <= i < |t.calls| && t.calls[i].org == org && !t.calls[i].phase.Done? ensures org in t.locks {
      assert EntryOk(t, i);
    }
    if org in t.locks {
      assert t.calls[t.locks[org]].org == org;
    }
  }

  lemma {:induction false} FinishedTailsResolve(calls: seq<Call>, c: nat)
    requires Fifo(calls) && c < |calls| && calls[c].phase.Done?
    ensures TailResolved(calls, c)
    decreases c
  {
    if calls[c].previous.Some? {
      assert c > 0 && PreviousOk(calls, 0, c);
      assert Before(calls, calls[c].previous.value, c);
      FinishedTailsResolve(calls, calls[c].previous.value);
    }
  }

  /** No call is forgotten: the first unfinished call of a key is running, or it can start. */
  lemma FirstUnfinishedGoesOn(s: State, schedule: seq<Action>, maxSeats: Option<nat>, c: nat)
    requires s.calls == [] && s.locks == map[]
    requires var t := Run(s, schedule, maxSeats);
             && c < |t.calls| && !t.calls[c].phase.Done?
             && forall i | 0 <= i < c :: t.calls[i].org == t.calls[c].org ==> t.calls[i].phase.Done?
    ensures var t := Run(s, schedule, maxSeats); t.calls[c].phase.Running? || Do(t, Start(c), maxSeats).Some?
  {
    RunKeepsChain(s, schedule, maxSeats);
    var t := Run(s, schedule, maxSeats);
    if t.calls[c].previous.Some? {
      assert c > 0 && PreviousOk(t.calls, 0, c);
      FinishedTailsResolve(t.calls, t.calls[c].previous.value);
    }
  }

  /** The two halves of `withKeyedMutationLock` around the awaited operation. */
  class MemberMutationLocks {
    var calls: seq<Call>
    var locks: map<Org, nat>

    ghost function View(): State
      reads this
    {
      State(calls, locks, map[])
    }

    constructor ()
      ensures View() == State([], map[], map[])
    {
      calls := [];
      locks := map[];
    }

    /** Up to `await previous`. */
    method Enter(org: Org, user: User) returns (call: nat)
      requires ChainOk(View())
      modifies this
      ensures ChainOk(View()) && call == old(|calls|)
      ensures Do(old(View()), Arrive(org, user), None) == Some(View())
    {
      ArriveKeeps(View(), org, user, None);
      var previous := if org in locks then Some(locks[org]) else None;
      call := |calls|;
      calls := calls + [Call(org, user, previous, Waiting)];
      locks := locks[org := call];
    }

    /** The `finally` block, however the operation ended. */
    method Finish(call: nat)
      requires ChainOk(View()) && call < |calls| && calls[call].phase.Running?
      modifies this
      ensures ChainOk(View()) && View() == Leave(old(View()), call)
    {
      LeaveKeeps(View(), call);
      var org := calls[call].org;
      calls := calls[call := calls[call].(phase := Done)];
      if org in locks && locks[org] == call { locks := locks - {org}; }
    }
  }

  // ---- seats ----

  /** The plan's limit, or what the organization already had if that was more. */
  function Cap(s0: State, org: Org, maxSeats: nat): nat {
    var initial := |MembersOf(s0, org)|;
    if maxSeats < initial then initial else maxSeats
  }

  /** Since a running call listed the members of its organization, members can only have been removed. */
  predicate CallOk(s0: State, s: State, call: Call, maxSeats: nat) {
    && (call.phase.Running? && !call.phase.step.Began? ==>
          MembersOf(s, call.org) <= call.phase.step.seen && |call.phase.step.seen| <= Cap(s0, call.org, maxSeats))
    && (call.phase.Running? && call.phase.step.Checked? ==>
          call.user in call.phase.step.seen || |call.phase.step.seen| + 1 <= maxSeats)
  }

  ghost predicate SeatsOk(s0: State, s: State, maxSeats: nat) {
    && (forall org {:trigger MembersOf(s, org)} :: |MembersOf(s, org)| <= Cap(s0, org, maxSeats))
    && (forall i | 0 <= i < |s.calls| :: CallOk(s0, s, s.calls[i], maxSeats))
  }

  lemma AddFits(s0: State, s: State, c: nat, maxSeats: nat)
    requires SeatsOk(s0, s, maxSeats) && Do(s, Add(c), Some(maxSeats)).Some?
    ensures var t := Do(s, Add(c), Some(maxSeats)).value;
            |MembersOf(t, s.calls[c].org)| <= Cap(s0, s.calls[c].org, maxSeats)
  {
    var t := Do(s, Add(c), Some(maxSeats)).value;
    var call := s.calls[c];
    var now, seen := MembersOf(s, call.org), call.phase.step.seen;
    assert CallOk(s0, s, call, maxSeats);
    if call.user !in now {
      assert MembersOf(t, call.org) == now + {call.user};
      SubsetSize(now + {call.user}, seen + {call.user});
      assert call.user in seen ==> seen + {call.user} == seen;
    }
  }

  lemma AddKeepsSeats(s0: State, s: State, c: nat, maxSeats: nat)
    requires ChainOk(s) && SeatsOk(s0, s, maxSeats) && Do(s, Add(c), Some(maxSeats)).Some?
    ensures SeatsOk(s0, Do(s, Add(c), Some(maxSeats)).value, maxSeats)
  {
    var t := Do(s, Add(c), Some(maxSeats)).value;
    var call := s.calls[c];
    AddFits(s0, s, c, maxSeats);
    forall org ensures |MembersOf(t, org)| <= Cap(s0, org, maxSeats) {
      assert org != call.org ==> MembersOf(t, org) == MembersOf(s, org);
    }
    forall i | 0 <= i < |t.calls| ensures CallOk(s0, t, t.calls[i], maxSeats) {
      assert CallOk(s0, s, s.calls[i], maxSeats);
      if i < c { assert Before(s.calls, i, c); } else if c < i { assert Before(s.calls, c, i); }
    }
  }

  lemma RemoveKeepsSeats(s0: State, s: State, org: Org, user: User, maxSeats: nat)
    requires SeatsOk(s0, s, maxSeats) && Do(s, Remove(org, user), Some(maxSeats)).Some?
    ensures SeatsOk(s0, Do(s, Remove(org, user), Some(maxSeats)).value, maxSeats)
  {
    var t := Do(s, Remove(org, user), Some(maxSeats)).value;
    forall o ensures MembersOf(t, o) <= MembersOf(s, o) && |MembersOf(t, o)| <= |MembersOf(s, o)| {
      SubsetSize(MembersOf(t, o), MembersOf(s, o));
    }
    forall i | 0 <= i < |t.calls| ensures CallOk(s0, t, t.calls[i], maxSeats) {
      assert CallOk(s0, s, s.calls[i], maxSeats);
    }
  }

  lemma OtherStepsKeepSeats(s0: State, s: State, a: Action, maxSeats: nat)
    requires SeatsOk(s0, s, maxSeats) && Do(s, a, Some(maxSeats)).Some? && !a.Add? && !a.Remove?
    ensures SeatsOk(s0, Do(s, a, Some(maxSeats)).value, maxSeats)
  {
    var t := Do(s, a, Some(maxSeats)).value;
    assert t.members == s.members;
    forall org ensures MembersOf(t, org) == MembersOf(s, org) {
    }
    forall i | 0 <= i < |t.calls| ensures CallOk(s0, t, t.calls[i], maxSeats) {
      if i < |s.calls| { assert CallOk(s0, s, s.calls[i], maxSeats); }
    }
  }

  /** Concurrent add requests, removals in between, and failures: with a fixed plan no schedule pushes an
      organization past its seat limit (or past what it already had). */
  lemma {:induction false} SeatsStayWithinLimit(s0: State, schedule: seq<Action>, maxSeats: nat)
    requires s0.calls == [] && s0.locks == map[]
    ensures SeatsOk(s0, Run(s0, schedule, Some(maxSeats)), maxSeats)
    ensures var t := Run(s0, schedule, Some(maxSeats));
            forall org | org in t.members ::
              |t.members[org]| <= maxSeats || (org in s0.members && |t.members[org]| <= |s0.members[org]|)
    decreases |schedule|
  {
    if |schedule| > 0 {
      var n := |schedule| - 1;
      SeatsStayWithinLimit(s0, schedule[..n], maxSeats);
      RunKeepsChain(s0, schedule[..n], Some(maxSeats));
      var before := Run(s0, schedule[..n], Some(maxSeats));
      if Do(before, schedule[n], Some(maxSeats)).Some? {
        match schedule[n]
        case Add(c) => AddKeepsSeats(s0, before, c, maxSeats);
        case Remove(org, user) => RemoveKeepsSeats(s0, before, org, user, maxSeats);
        case _ => OtherStepsKeepSeats(s0, before, schedule[n], maxSeats);
      }
    }
    var t := Run(s0, schedule, Some(maxSeats));
    forall org | org in t.members
      ensures |t.members[org]| <= maxSeats || (org in s0.members && |t.members[org]| <= |s0.members[org]|)
    {
      assert |MembersOf(t, org)| <= Cap(s0, org, maxSeats);
    }
  }

  // ---- a call that nobody disturbs ----

  ghost function Next(s: State, a: Action, maxSeats: Option<nat>): State {
    var step := Do(s, a, maxSeats);
    if step.Some? then step.value else s
  }

  /** The members are those of before, with the user if there was a seat, and nobody else's change. */
  predicate Seated(before: map<Org, set<User>>, org: Org, user: User, maxSeats: Option<nat>, after: map<Org, set<User>>) {
    var there := if org in before then before[org] else {};
    if user !in there && (maxSeats.None? || |there| + 1 <= maxSeats.value)
    then after == before[org := there + {user}]
    else after == before
  }

  /** Where a call is, and the members meanwhile. */
  predicate At(t: State, c: nat, call: Call, phase: Phase, members: map<Org, set<User>>) {
    c < |t.calls| && t.calls[c] == call.(phase := phase) && t.members == members
  }

  lemma StartAndList(s: State, c: nat, maxSeats: Option<nat>)
    requires Do(s, Start(c), maxSeats).Some?
    ensures At(Next(Next(s, Start(c), maxSeats), List(c), maxSeats), c, s.calls[c],
               Running(Listed(MembersOf(s, s.calls[c].org))), s.members)
  {
    var t := Do(s, Start(c), maxSeats).value;
    assert At(t, c, s.calls[c], Running(Began), s.members);
  }

  lemma CheckStep(t: State, c: nat, call: Call, seen: set<User>, maxSeats: Option<nat>)
    requires At(t, c, call, Running(Listed(seen)), t.members)
    ensures At(Next(t, Check(c), maxSeats), c, call,
               if call.user in seen || maxSeats.None? || |seen| + 1 <= maxSeats.value then Running(Checked(seen)) else Done,
               t.members)
  {
  }

  lemma AddStep(t: State, c: nat, call: Call, maxSeats: Option<nat>)
    requires c < |t.calls| && (At(t, c, call, Done, t.members)
                               || exists seen :: At(t, c, call, Running(Checked(seen)), t.members))
    ensures At(Next(t, Add(c), maxSeats), c, call, Done,
               if t.calls[c].phase.Done? || call.user in MembersOf(t, call.org) then t.members
               else t.members[call.org := MembersOf(t, call.org) + {call.user}])
  {
  }

  /** A call that can start and is left alone lists the members, and adds its user exactly if there is a seat; either
      way it is done then. */
  lemma CallGoesThrough(s: State, c: nat, maxSeats: Option<nat>)
    requires Do(s, Start(c), maxSeats).Some?
    ensures var t := Next(Next(Next(Next(s, Start(c), maxSeats), List(c), maxSeats), Check(c), maxSeats), Add(c), maxSeats);
            && c < |t.calls| && t.calls[c].phase.Done?
            && Seated(s.members, s.calls[c].org, s.calls[c].user, maxSeats, t.members)
  {
    var call, seen := s.calls[c], MembersOf(s, s.calls[c].org);
    StartAndList(s, c, maxSeats);
    var listed := Next(Next(s, Start(c), maxSeats), List(c), maxSeats);
    CheckStep(listed, c, call, seen, maxSeats);
    AddStep(Next(listed, Check(c), maxSeats), c, call, maxSeats);
  }

  /** A running operation may fail at any time; that changes no member, and the call is done. */
  lemma FailureLeaves(s: State, c: nat, maxSeats: Option<nat>)
    requires c < |s.calls| && s.calls[c].phase.Running?
    ensures Do(s, Fail(c), maxSeats).Some?
    ensures var t := Do(s, Fail(c), maxSeats).value;
            && t.members == s.members && t.calls == s.calls[c := s.calls[c].(phase := Done)]
            && t.locks == (if s.calls[c].org in s.locks && s.locks[s.calls[c].org] == c
                           then s.locks - {s.calls[c].org} else s.locks)
  {
  }

  /** A removal takes the user out of its organization, and changes nothing else. */
  lemma RemovalRemoves(s: State, org: Org, user: User, maxSeats: Option<nat>)
    requires org in s.members
    ensures Do(s, Remove(org, user), maxSeats)
         == Some(State(s.calls, s.locks, s.members[org := s.members[org] - {user}]))
  {
  }
}
