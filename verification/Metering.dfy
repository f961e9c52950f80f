/** Monthly usage quotas and the billing events that set an organization's plan. */
module Metering {
  import opened Wrappers
  import opened Order

  type Org = string
  type Period = string
  type EventId = Text

  datatype Plan = Free | Team | Enterprise

  /** `monthlyEvents` of `PLAN_ENTITLEMENTS`; None is no limit. */
  function MonthlyEvents(plan: Plan): Option<nat> {
    match plan case Free => Some(1000) case Team => Some(100000) case Enterprise => None
  }

  predicate Within(limit: Option<nat>, used: nat) { limit.Some? ==> used <= limit.value }

  // ---- reservations ----

  /** An idempotency key is durable per organization. */
  datatype Key = Key(org: Org, id: EventId)

  datatype Reservation = Reservation(period: Period, amount: nat)

  type Reservations = map<Key, Reservation>

  datatype Consumed = Consumed(used: nat, duplicate: bool)

  datatype Failure = InvalidAmount | UsageConflict | QuotaExceeded

  function Share(key: Key, r: Reservation, org: Org, period: Period): nat {
    if key.org == org && r.period == period then r.amount else 0
  }

  /** The sum over the reservations of an organization and a month. */
  ghost function Used(rs: Reservations, org: Org, period: Period): nat {
    if rs == map[] then 0 else
    var key :| key in rs;
    Share(key, rs[key], org, period) + Used(rs - {key}, org, period)
  }

  lemma {:induction false} UsedWithout(rs: Reservations, key: Key, org: Org, period: Period)
    requires key in rs
    ensures Used(rs, org, period) == Share(key, rs[key], org, period) + Used(rs - {key}, org, period)
    decreases |rs|
  {
    var first :| first in rs && Used(rs, org, period) == Share(first, rs[first], org, period) + Used(rs - {first}, org, period);
    if first != key {
      UsedWithout(rs - {first}, key, org, period);
      UsedWithout(rs - {key}, first, org, period);
      assert rs - {first} - {key} == rs - {key} - {first};
    }
  }

  lemma UsedInsert(rs: Reservations, key: Key, r: Reservation, org: Org, period: Period)
    requires key !in rs
    ensures Used(rs[key := r], org, period) == Used(rs, org, period) + Share(key, r, org, period)
  {
    UsedWithout(rs[key := r], key, org, period);
    assert rs[key := r] - {key} == rs;
  }

  /** One consumption under a limit: the answer, and the reservations afterwards. */
  ghost function Consume(rs: Reservations, limit: Option<nat>, key: Key, amount: int, period: Period):
    (Result<Consumed, Failure>, Reservations)
  {
    var used := Used(rs, key.org, period);
    if amount < 1 then (Err(InvalidAmount), rs)
    else if key in rs then
      if rs[key] == Reservation(period, amount) then (Ok(Consumed(used, true)), rs) else (Err(UsageConflict), rs)
    else if !Within(limit, used + amount) then (Err(QuotaExceeded), rs)
    else (Ok(Consumed(used + amount, false)), rs[key := Reservation(period, amount)])
  }

  /** A failed call and a retry change nothing; a new consumption adds its amount to its month alone and ends
      within the limit. */
  lemma ConsumeMeans(
    rs: Reservations, limit: Option<nat>, key: Key, amount: int, period: Period, org: Org, month: Period)
    ensures var (r, rs') := Consume(rs, limit, key, amount, period);
            && (r.Err? || r.value.duplicate ==> rs' == rs)
            && (r.Ok? ==> r.value.used == Used(rs', key.org, period))
            && (r.Ok? && !r.value.duplicate ==> Within(limit, r.value.used))
            && Used(rs', org, month) == Used(rs, org, month)
                 + if r.Ok? && !r.value.duplicate && org == key.org && month == period then amount else 0
  {
    if amount >= 1 && key !in rs {
      UsedInsert(rs, key, Reservation(period, amount), org, month);
      UsedInsert(rs, key, Reservation(period, amount), key.org, period);
    }
  }

  // ---- the in-memory service ----

  datatype Counter = Counter(org: Org, period: Period)

  class EntitlementService {
    const enforced: bool
    var plans: map<Org, Plan>
    var usage: map<Counter, nat>
    var idempotency: Reservations

    function Counted(org: Org, period: Period): nat
      reads this`usage
    {
      if Counter(org, period) in usage then usage[Counter(org, period)] else 0
    }

    /** Every usage counter is the sum of the reservations it stands for. */
    ghost predicate Valid()
      reads this`usage, this`idempotency
    {
      forall org, period {:trigger Counted(org, period)} :: Counted(org, period) == Used(idempotency, org, period)
    }

    constructor (enforced: bool)
      ensures Valid() && this.enforced == enforced && plans == map[] && idempotency == map[]
    {
      this.enforced := enforced;
      plans, usage, idempotency := map[], map[], map[];
    }

    function PlanFor(org: Org): Plan
      reads this`plans
    {
      if !enforced then Enterprise else if org in plans then plans[org] else Free
    }

    method SetPlan(org: Org, plan: Plan)
      modifies this`plans
      ensures plans == old(plans)[org := plan]
    {
      plans := plans[org := plan];
    }

    /** `consume`: the running counter gives the answers that summing the reservations gives. */
    method Take(key: Key, amount: int, period: Period) returns (r: Result<Consumed, Failure>)
      requires Valid()
      modifies this`usage, this`idempotency
      ensures Valid()
      ensures (r, idempotency) == Consume(old(idempotency), MonthlyEvents(PlanFor(key.org)), key, amount, period)
      ensures amount < 1 ==> r == Err(InvalidAmount)
      ensures r == Err(QuotaExceeded) <==>
                && amount >= 1 && key !in old(idempotency) && enforced
                && (key.org in plans ==> !plans[key.org].Enterprise?)
                && Used(old(idempotency), key.org, period) + amount
                   > (if key.org in plans && plans[key.org].Team? then 100000 else 1000)
      ensures r.Err? || r.value.duplicate ==> usage == old(usage)
    {
      if amount < 1 { return Err(InvalidAmount); }
      var current := Counted(key.org, period);
      if key in idempotency {
        if idempotency[key].period != period || idempotency[key].amount != amount { return Err(UsageConflict); }
        return Ok(Consumed(current, true));
      }
      var next := current + amount;
      var maximum := MonthlyEvents(PlanFor(key.org));
      if maximum.Some? && next > maximum.value { return Err(QuotaExceeded); }
      ghost var before := idempotency;
      usage := usage[Counter(key.org, period) := next];
      idempotency := idempotency[key := Reservation(period, amount)];
      forall org, month ensures Counted(org, month) == Used(idempotency, org, month) {
        assert old(Counted(org, month)) == Used(before, org, month);
        UsedInsert(before, key, Reservation(period, amount), org, month);
      }
      return Ok(Consumed(next, false));
    }
  }

  // ---- the Postgres service ----

  /** `SELECT COALESCE(sum(amount), 0) ... WHERE org_id = ... AND period_start = ...`, in any row order. */
  method UsedInPeriod(rs: Reservations, org: Org, period: Period) returns (sum: nat)
    ensures sum == Used(rs, org, period)
  {
    sum := 0;
    var rest := rs;
    while rest != map[]
      invariant sum + Used(rest, org, period) == Used(rs, org, period)
      decreases |rest|
    {
      var key :| key in rest;
      UsedWithout(rest, key, org, period);
      sum := sum + Share(key, rest[key], org, period);
      rest := rest - {key};
    }
  }

  /** `reserveQuota` while the organization row is locked. */
  method ReserveQuota(rs: Reservations, limit: Option<nat>, key: Key, amount: int, period: Period)
    returns (r: Result<Consumed, Failure>, rs': Reservations)
    ensures (r, rs') == Consume(rs, limit, key, amount, period)
  {
    if amount < 1 { return Err(InvalidAmount), rs; }
    var used := UsedInPeriod(rs, key.org, period);
    if key in rs {
      if rs[key].period != period || rs[key].amount != amount { return Err(UsageConflict), rs; }
      return Ok(Consumed(used, true)), rs;
    }
    if limit.Some? && used + amount > limit.value { return Err(QuotaExceeded), rs; }
    return Ok(Consumed(used + amount, false)), rs[key := Reservation(period, amount)];
  }

  // ---- runs ----

  datatype Request = Request(limit: Option<nat>, key: Key, amount: int, period: Period)

  /** A run of requests, each under the limit then in force. */
  ghost function Run(requests: seq<Request>): Reservations
    decreases |requests|
  {
    if |requests| == 0 then map[] else
    var q := requests[|requests| - 1];
    Consume(Run(requests[..|requests| - 1]), q.limit, q.key, q.amount, q.period).1
  }

  lemma {:induction false} ReservationsStay(requests: seq<Request>, more: seq<Request>, key: Key)
    requires key in Run(requests)
    ensures key in Run(requests + more) && Run(requests + more)[key] == Run(requests)[key]
    decreases |more|
  {
    if |more| == 0 {
      assert requests + more == requests;
    } else {
      ReservationsStay(requests, more[..|more| - 1], key);
      assert (requests + more)[..|requests + more| - 1] == requests + more[..|more| - 1];
    }
  }

  /** Once a request was accepted, repeating it, however much later and whatever the plan is by then, reports a
      duplicate and changes nothing. */
  lemma RetryIsDuplicate(requests: seq<Request>, q: Request, more: seq<Request>, limit: Option<nat>)
    requires Consume(Run(requests), q.limit, q.key, q.amount, q.period).0.Ok?
    ensures var later := Run(requests + [q] + more);
            Consume(later, limit, q.key, q.amount, q.period)
              == (Ok(Consumed(Used(later, q.key.org, q.period), true)), later)
  {
    assert (requests + [q])[..|requests|] == requests;
    ReservationsStay(requests + [q], more, q.key);
  }

  /** While an organization keeps one plan, its usage of any month never exceeds the limit of that plan. */
  lemma {:induction false} UsageStaysWithin(requests: seq<Request>, limit: Option<nat>, org: Org, period: Period)
    requires forall i | 0 <= i < |requests| && requests[i].key.org == org :: requests[i].limit == limit
    ensures Within(limit, Used(Run(requests), org, period))
    decreases |requests|
  {
    if |requests| > 0 {
      var n := |requests| - 1;
      UsageStaysWithin(requests[..n], limit, org, period);
      var q := requests[n];
      ConsumeMeans(Run(requests[..n]), q.limit, q.key, q.amount, q.period, org, period);
    }
  }
}
