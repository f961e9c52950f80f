/** Billing webhook deliveries: a last-writer-wins register per organization, whatever the delivery order. */
module Billing {
  import opened Wrappers
  import opened Order
  import opened Metering

  /** The text of a time, and what it parses to. */
  datatype Timestamp = Timestamp(text: string, millis: int)

  datatype Type = SubscriptionUpdated | SubscriptionCanceled

  datatype Status = Active | PastDue | Canceled

  /** A parsed webhook event, with all that its canonical text tells. */
  datatype Event = Event(id: EventId, createdAt: Timestamp, org: Org, kind: Type, plan: Plan, status: Status)

  datatype Position = Position(createdAt: int, id: EventId)

  datatype Handled = Handled(created: bool, applied: bool)

  function PositionOf(e: Event): Position { Position(e.createdAt.millis, e.id) }

  /** `isBillingEventNewer(b, a)`: by time, then by event id. */
  predicate Older(a: Position, b: Position) {
    if a.createdAt != b.createdAt then a.createdAt < b.createdAt else TextLess(a.id, b.id)
  }

  lemma OlderStrictTotal()
    ensures StrictTotal(Older)
  {
    forall a: Position, b: Position ensures !Older(a, a) && (Older(a, b) || Older(b, a) || a == b) {
      TextTrichotomy(a.id, b.id);
      TextTrichotomy(a.id, a.id);
    }
    forall a: Position, b: Position, c: Position ensures Transits(Older, a, b, c) {
      if Older(a, b) && Older(b, c) && a.createdAt == b.createdAt == c.createdAt { TextTransitive(a.id, b.id, c.id); }
    }
  }

  /** The plan an event stands for: a cancellation means free. */
  function PlanOf(e: Event): Plan { if e.kind.SubscriptionCanceled? || e.status.Canceled? then Free else e.plan }

  // ---- what the deliveries amount to ----

  /** `e` is the greatest of the events of its organization by time and id. */
  ghost predicate Greatest(events: set<Event>, e: Event) {
    e in events && forall x | x in events && x.org == e.org && x != e :: Older(PositionOf(x), PositionOf(e))
  }

  ghost predicate HasEvents(events: set<Event>, org: Org) { exists e :: e in events && e.org == org }

  /** Each organization that has an event has the plan of its greatest one, the others have none. */
  ghost predicate PlansOf(events: set<Event>, plans: map<Org, Plan>) {
    && (forall org :: org in plans <==> HasEvents(events, org))
    && (forall e | Greatest(events, e) :: e.org in plans && plans[e.org] == PlanOf(e))
  }

  /** Equal event ids carry equal content. */
  ghost predicate Consistent(events: set<Event>) {
    forall a, b | a in events && b in events && a.id == b.id :: a == b
  }

  lemma {:induction false} GreatestExists(events: set<Event>, org: Org) returns (e: Event)
    requires HasEvents(events, org) && Consistent(events)
    ensures Greatest(events, e) && e.org == org
    decreases events
  {
    var x :| x in events && x.org == org;
    var rest := events - {x};
    OlderStrictTotal();
    if HasEvents(rest, org) {
      var g := GreatestExists(rest, org);
      if Older(PositionOf(x), PositionOf(g)) {
        e := g;
      } else {
        e := x;
        assert PositionOf(x) != PositionOf(g);
        forall y | y in events && y.org == org && y != x ensures Older(PositionOf(y), PositionOf(x)) {
          if y != g { assert Transits(Older, PositionOf(y), PositionOf(g), PositionOf(x)); }
        }
      }
    } else {
      e := x;
      assert forall y | y in events && y.org == org :: y == x || y in rest;
    }
  }

  // ---- the register ----

  type Seen = map<EventId, Event>

  /** The stored position of an organization is that of its greatest seen event, whose plan it has. */
  ghost predicate LatestOk(seen: Seen, latest: map<Org, Position>, plans: map<Org, Plan>, org: Org) {
    && org in latest && org in plans
    && latest[org].id in seen
    && seen[latest[org].id].org == org
    && PositionOf(seen[latest[org].id]) == latest[org]
    && plans[org] == PlanOf(seen[latest[org].id])
    && (forall id | id in seen && seen[id].org == org && id != latest[org].id ::
          Older(PositionOf(seen[id]), latest[org]))
  }

  ghost predicate RegisterOk(seen: Seen, latest: map<Org, Position>, plans: map<Org, Plan>) {
    && (forall id | id in seen :: seen[id].id == id && seen[id].org in latest)
    && latest.Keys == plans.Keys
    && (forall org {:trigger LatestOk(seen, latest, plans, org)} | org in latest :: LatestOk(seen, latest, plans, org))
  }

  lemma IgnoredKeeps(seen: Seen, latest: map<Org, Position>, plans: map<Org, Plan>, e: Event)
    requires RegisterOk(seen, latest, plans) && e.id !in seen
    requires e.org in latest && !Older(latest[e.org], PositionOf(e))
    ensures RegisterOk(seen[e.id := e], latest, plans)
  {
    OlderStrictTotal();
    assert LatestOk(seen, latest, plans, e.org);
    assert Older(PositionOf(e), latest[e.org]);
    forall org | org in latest ensures LatestOk(seen[e.id := e], latest, plans, org) {
      assert LatestOk(seen, latest, plans, org);
    }
  }

  lemma AppliedKeeps(seen: Seen, latest: map<Org, Position>, plans: map<Org, Plan>, e: Event)
    requires RegisterOk(seen, latest, plans) && e.id !in seen
    requires e.org in latest ==> Older(latest[e.org], PositionOf(e))
    ensures RegisterOk(seen[e.id := e], latest[e.org := PositionOf(e)], plans[e.org := PlanOf(e)])
  {
    var seen', latest', plans' := seen[e.id := e], latest[e.org := PositionOf(e)], plans[e.org := PlanOf(e)];
    OlderStrictTotal();
    forall org | org in latest' ensures LatestOk(seen', latest', plans', org) {
      if org != e.org {
        assert LatestOk(seen, latest, plans, org);
      } else if org in latest {
        assert LatestOk(seen, latest, plans, org);
        forall id | id in seen && seen[id].org == org ensures Older(PositionOf(seen[id]), PositionOf(e)) {
          assert Transits(Older, PositionOf(seen[id]), latest[org], PositionOf(e));
        }
      }
    }
  }

  // ---- the handler ----

  class BillingWebhookHandler {
    const entitlements: EntitlementService
    var seen: Seen
    var latest: map<Org, Position>

    ghost predicate Valid()
      reads this`seen, this`latest, entitlements`plans
    {
      RegisterOk(seen, latest, entitlements.plans)
    }

    constructor (entitlements: EntitlementService)
      requires entitlements.plans == map[]
      ensures Valid() && this.entitlements == entitlements && seen == map[]
    {
      this.entitlements := entitlements;
      seen, latest := map[], map[];
    }

    /** `handle`, after the signature check and parsing. An id that comes back with any other content is refused. */
    method Handle(event: Event) returns (r: Result<Handled, ()>)
      requires Valid()
      modifies this`seen, this`latest, entitlements`plans
      ensures Valid()
      ensures r.Err? <==> event.id in old(seen) && old(seen)[event.id] != event
      ensures seen == if event.id in old(seen) then old(seen) else old(seen)[event.id := event]
      ensures event.id in old(seen) ==> latest == old(latest) && entitlements.plans == old(entitlements.plans)
      ensures r.Ok? ==> r.value.created == (event.id !in old(seen))
      ensures r.Ok? && r.value.created ==>
                (r.value.applied <==>
                   || event.org !in old(latest)
                   || old(latest)[event.org].createdAt < event.createdAt.millis
                   || (old(latest)[event.org].createdAt == event.createdAt.millis
                       && TextLess(old(latest)[event.org].id, event.id)))
      ensures r.Ok? && r.value.applied ==>
                && latest == old(latest)[event.org := Position(event.createdAt.millis, event.id)]
                && entitlements.plans == old(entitlements.plans)[event.org :=
                     if event.kind.SubscriptionCanceled? || event.status.Canceled? then Free else event.plan]
      ensures r.Ok? && !r.value.applied ==>
                latest == old(latest) && entitlements.plans == old(entitlements.plans)
    {
      if event.id in seen {
        if seen[event.id] != event { return Err(()); }
        return Ok(Handled(false, false));
      }
      ghost var before := seen;
      seen := seen[event.id := event];
      if event.org in latest && !Older(latest[event.org], PositionOf(event)) {
        IgnoredKeeps(before, latest, entitlements.plans, event);
        return Ok(Handled(true, false));
      }
      AppliedKeeps(before, latest, entitlements.plans, event);
      latest := latest[event.org := PositionOf(event)];
      entitlements.SetPlan(event.org, PlanOf(event));
      return Ok(Handled(true, true));
    }
  }

  // ---- any delivery sequence ----

  function EventsOf(seen: Seen): set<Event> { set id | id in seen :: seen[id] }

  function Members<T(==)>(s: seq<T>): set<T> { set x | x in s }

  lemma NextMember<T>(s: seq<T>, i: nat)
    requires i < |s|
    ensures s[i] in Members(s) && Members(s[..i + 1]) == Members(s[..i]) + {s[i]}
    ensures Members(s[..i]) <= Members(s)
  {
    assert s[..i + 1] == s[..i] + [s[i]];
  }

  lemma SeenGrows(seen: Seen, e: Event)
    requires e.id !in seen
    ensures EventsOf(seen[e.id := e]) == EventsOf(seen) + {e}
  {
    assert forall id | id in seen :: seen[e.id := e][id] == seen[id];
    assert seen[e.id := e][e.id] == e;
  }

  /** Any deliveries, repeats included, in any order: when equal ids carry equal content none is refused, and
      every organization ends on the plan of its greatest event. */
  method Deliver(handler: BillingWebhookHandler, events: seq<Event>)
    requires handler.Valid() && handler.seen == map[]
    requires Consistent(Members(events))
    modifies handler`seen, handler`latest, handler.entitlements`plans
    ensures handler.Valid() && EventsOf(handler.seen) == Members(events)
    ensures PlansOf(Members(events), handler.entitlements.plans)
    ensures forall e | e in events && IsLast(events, e) ::
              && e.org in handler.entitlements.plans
              && handler.entitlements.plans[e.org] ==
                 if e.kind.SubscriptionCanceled? || e.status.Canceled? then Free else e.plan
    ensures forall org | handler.entitlements.enforced && !HasEvents(Members(events), org) ::
              handler.entitlements.PlanFor(org) == Free
  {
    for i := 0 to |events|
      invariant handler.Valid()
      invariant EventsOf(handler.seen) == Members(events[..i])
    {
      ghost var before := handler.seen;
      NextMember(events, i);
      if events[i].id in before {
        assert before[events[i].id] in EventsOf(before);
      } else {
        SeenGrows(before, events[i]);
      }
      var r := handler.Handle(events[i]);
      assert r.Ok?;
    }
    assert events[..|events|] == events;
    RegisterGivesPlans(handler.seen, handler.latest, handler.entitlements.plans);
    forall e | e in events && IsLast(events, e) ensures Greatest(Members(events), e) {
      LastIsGreatest(events, e);
    }
  }

  /** Every other event of the organization is earlier, or of the same time and smaller id. */
  ghost predicate IsLast(events: seq<Event>, e: Event) {
    forall x | x in events && x.org == e.org && x != e ::
      || x.createdAt.millis < e.createdAt.millis
      || (x.createdAt.millis == e.createdAt.millis && TextLess(x.id, e.id))
  }

  lemma LastIsGreatest(events: seq<Event>, e: Event)
    requires e in events && IsLast(events, e)
    ensures Greatest(Members(events), e)
  {
  }

  lemma RegisterGivesPlans(seen: Seen, latest: map<Org, Position>, plans: map<Org, Plan>)
    requires RegisterOk(seen, latest, plans)
    ensures PlansOf(EventsOf(seen), plans)
  {
    var events := EventsOf(seen);
    forall org ensures org in plans <==> HasEvents(events, org) {
      if org in plans { assert LatestOk(seen, latest, plans, org) && seen[latest[org].id] in events; }
      if HasEvents(events, org) { var e :| e in events && e.org == org; assert e.id in seen; }
    }
    forall e | Greatest(events, e) ensures e.org in plans && plans[e.org] == PlanOf(e) {
      assert e.id in seen && LatestOk(seen, latest, plans, e.org);
      var top := seen[latest[e.org].id];
      assert top in events;
      OlderStrictTotal();
      if top != e { Asymmetric(Older, PositionOf(top), PositionOf(e)); }
    }
  }

  /** The plans depend only on which events were delivered: reordering or redelivering changes nothing. */
  lemma OrderDoesNotMatter(a: seq<Event>, b: seq<Event>, plansA: map<Org, Plan>, plansB: map<Org, Plan>)
    requires Members(a) == Members(b) && Consistent(Members(a))
    requires PlansOf(Members(a), plansA) && PlansOf(Members(b), plansB)
    ensures plansA == plansB
  {
    forall org | org in plansA ensures org in plansB && plansA[org] == plansB[org] {
      var e := GreatestExists(Members(a), org);
    }
    assert forall org | org in plansB :: org in plansA;
  }
}
