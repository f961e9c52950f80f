/** The release lifecycle: submission, two-reviewer approval, rejection and yanking, with the audit log. */
module Releases {
  import opened Wrappers
  import opened Order

  type Id = string
  type Time = string

  datatype Role = Viewer | Publisher | Admin | Owner

  datatype Status = Pending | Published | Rejected | Yanked

  datatype Approval = Approval(userId: Id, approvedAt: Time)

  /** `releaseKey`: a package name holds no `@`, so the pair and its text agree. */
  datatype Key = Key(name: Text, version: Text)

  datatype Release = Release(
    id: Id, orgId: Id, packageId: Id, key: Key, artifact: string, submittedBy: Id, submittedAt: Time,
    status: Status, approvals: seq<Approval>, publishedAt: Option<Time>,
    rejectedAt: Option<Time>, rejectionReason: Option<string>,
    yankedAt: Option<Time>, yankReason: Option<string>)

  datatype Identity = Identity(
    id: Id, orgId: Id, packageId: Id, key: Key, artifact: string, submittedBy: Id, submittedAt: Time)

  /** `immutableReleaseIdentity` */
  function IdentityOf(r: Release): Identity {
    Identity(r.id, r.orgId, r.packageId, r.key, r.artifact, r.submittedBy, r.submittedAt)
  }

  predicate Approved(r: Release, user: Id) { exists i | 0 <= i < |r.approvals| :: r.approvals[i].userId == user }

  predicate WasPublished(r: Release) { r.status.Published? || r.status.Yanked? }

  /** The refinements of `RegistryReleaseSchema`. */
  predicate Schema(r: Release) {
    && |r.approvals| <= 2
    && (forall i, j | 0 <= i < j < |r.approvals| :: r.approvals[i].userId != r.approvals[j].userId)
    && !Approved(r, r.submittedBy)
    && (WasPublished(r) ==> |r.approvals| == 2)
    && (WasPublished(r) <==> r.publishedAt.Some?)
    && (if r.status.Rejected? then r.rejectedAt.Some? && r.rejectionReason.Some?
        else r.rejectedAt.None? && r.rejectionReason.None?)
    && (if r.status.Yanked? then r.yankedAt.Some? && r.yankReason.Some?
        else r.yankedAt.None? && r.yankReason.None?)
    && (r.status.Pending? ==> |r.approvals| <= 1)
  }

  datatype Package = Package(id: Id, orgId: Id, isPublic: bool)

  /** Users, organizations, memberships and packages: what other operations change. */
  datatype Directory = Directory(
    users: set<Id>, orgs: set<Id>, members: map<(Id, Id), Role>, packages: map<Text, Package>)

  datatype Action =
    | ReleaseSubmitted
    | ReleaseApproved(count: nat)
    | ReleasePublished
    | ReleaseRejected(why: string)
    | ReleaseYanked(why: string)
    | Unrelated

  datatype Event = Event(sequence: nat, orgId: Id, actor: Id, action: Action, subjectId: Id, key: Option<Key>)

  datatype Registry = Registry(
    directory: Directory, releases: map<Key, Release>, audit: seq<Event>, nextSequence: nat)

  datatype Failure = NotFound | Forbidden | Conflict | Transition | InvalidRelease

  datatype Op =
    | Submit(actor: Id, orgId: Id, key: Key, artifact: string, id: Id, now: Time)
    | Approve(actor: Id, orgId: Id, key: Key, now: Time)
    | Reject(actor: Id, orgId: Id, key: Key, reason: string, now: Time)
    | Yank(actor: Id, orgId: Id, key: Key, reason: string, now: Time)
    | Elsewhere(actor: Id, orgId: Id, directory: Directory, subject: Id)

  // ---- one step ----

  const REVIEWERS: set<Role> := {Owner, Admin}
  const SUBMITTERS: set<Role> := {Owner, Admin, Publisher}

  predicate Holds(d: Directory, user: Id, orgId: Id, roles: set<Role>) {
    orgId in d.orgs && user in d.users && (orgId, user) in d.members && d.members[(orgId, user)] in roles
  }

  /** `#requireRole` */
  function RequireRole(d: Directory, user: Id, orgId: Id, roles: set<Role>): Option<Failure> {
    if orgId !in d.orgs || user !in d.users then Some(NotFound)
    else if Holds(d, user, orgId, roles) then None
    else Some(Forbidden)
  }

  /** `#audit` */
  function Log(s: Registry, orgId: Id, actor: Id, action: Action, subjectId: Id, key: Option<Key>): Registry {
    s.(audit := s.audit + [Event(s.nextSequence, orgId, actor, action, subjectId, key)],
       nextSequence := s.nextSequence + 1)
  }

  predicate HasRelease(s: Registry, orgId: Id, key: Key) { key in s.releases && s.releases[key].orgId == orgId }

  predicate HasPackage(s: Registry, orgId: Id, name: Text) {
    name in s.directory.packages && s.directory.packages[name].orgId == orgId
  }

  function NewRelease(s: Registry, op: Op): Release
    requires op.Submit? && op.key.name in s.directory.packages
  {
    Release(op.id, op.orgId, s.directory.packages[op.key.name].id, op.key, op.artifact, op.actor, op.now,
            Pending, [], None, None, None, None, None)
  }

  function Decide(r: Release, op: Op): Release
    requires op.Approve? || op.Reject? || op.Yank?
  {
    if op.Approve? then
      var approvals := r.approvals + [Approval(op.actor, op.now)];
      var published := |approvals| == 2;
      r.(approvals := approvals, status := if published then Published else Pending,
         publishedAt := if published then Some(op.now) else None)
    else if op.Reject? then r.(status := Rejected, rejectedAt := Some(op.now), rejectionReason := Some(op.reason))
    else r.(status := Yanked, yankedAt := Some(op.now), yankReason := Some(op.reason))
  }

  /** Why a decision on an existing release is refused. */
  function Refusal(r: Release, op: Op): Option<Failure> {
    if op.Approve? then
      if !r.status.Pending? then Some(Transition)
      else if r.submittedBy == op.actor then Some(Forbidden)
      else if Approved(r, op.actor) then Some(Conflict)
      else None
    else if op.Reject? then
      if !r.status.Pending? then Some(Transition)
      else if r.submittedBy == op.actor then Some(Forbidden)
      else None
    else if !r.status.Published? then Some(Transition)
    else None
  }

  function LogDecision(s: Registry, r: Release, op: Op): Registry
    requires op.Approve? || op.Reject? || op.Yank?
  {
    if op.Approve? then
      var logged := Log(s, op.orgId, op.actor, ReleaseApproved(|r.approvals|), r.id, Some(op.key));
      if r.status.Published? then Log(logged, op.orgId, op.actor, ReleasePublished, r.id, Some(op.key)) else logged
    else if op.Reject? then Log(s, op.orgId, op.actor, ReleaseRejected(op.reason), r.id, Some(op.key))
    else Log(s, op.orgId, op.actor, ReleaseYanked(op.reason), r.id, Some(op.key))
  }

  /** One operation of the service: the next state, or why nothing changes. */
  function Step(s: Registry, op: Op): Result<Registry, Failure> {
    if op.Elsewhere? then
      Ok(Log(s.(directory := op.directory), op.orgId, op.actor, Unrelated, op.subject, None))
    else if op.Submit? then
      var denied := RequireRole(s.directory, op.actor, op.orgId, SUBMITTERS);
      if denied.Some? then Err(denied.value)
      else if !HasPackage(s, op.orgId, op.key.name) then Err(NotFound)
      else if op.key in s.releases then Err(Conflict)
      else
        Ok(Log(s.(releases := s.releases[op.key := NewRelease(s, op)]),
               op.orgId, op.actor, ReleaseSubmitted, op.id, Some(op.key)))
    else
      var denied := RequireRole(s.directory, op.actor, op.orgId, REVIEWERS);
      if denied.Some? then Err(denied.value)
      else if !HasRelease(s, op.orgId, op.key) then Err(NotFound)
      else
        var refused := Refusal(s.releases[op.key], op);
        if refused.Some? then Err(refused.value)
        else
          var next := Decide(s.releases[op.key], op);
          Ok(LogDecision(s.(releases := s.releases[op.key := next]), next, op))
  }

  // ---- exactly when a step goes through, and what it changes ----

  /** The roles: viewers submit nothing, and only admins and owners decide. A member is forbidden an operation for
      its role, or for deciding on its own release. */
  lemma RolesDecide(s: Registry, op: Op)
    requires !op.Elsewhere? && op.orgId in s.directory.orgs && op.actor in s.directory.users
    requires (op.orgId, op.actor) in s.directory.members
    ensures var role := s.directory.members[(op.orgId, op.actor)];
            && (op.Submit? ==> (Step(s, op) == Err(Forbidden) <==> role.Viewer?))
            && (op.Yank? ==> (Step(s, op) == Err(Forbidden) <==> role.Viewer? || role.Publisher?))
            && (op.Approve? || op.Reject? ==>
                  (Step(s, op) == Err(Forbidden) <==>
                     || role.Viewer? || role.Publisher?
                     || (&& op.key in s.releases && s.releases[op.key].orgId == op.orgId
                         && s.releases[op.key].status.Pending? && s.releases[op.key].submittedBy == op.actor)))
  {
  }

  /** Somebody who is no user or no member, or whose organization does not exist, does nothing. */
  lemma OutsidersDoNothing(s: Registry, op: Op)
    requires !op.Elsewhere?
    ensures op.orgId !in s.directory.orgs || op.actor !in s.directory.users ==> Step(s, op) == Err(NotFound)
    ensures (op.orgId, op.actor) !in s.directory.members ==> Step(s, op).Err?
  {
  }

  /** What happens elsewhere may change users, organizations, memberships and packages, and is logged. */
  lemma ElsewhereExactly(s: Registry, op: Op)
    requires op.Elsewhere?
    ensures Step(s, op) == Ok(Registry(
              op.directory, s.releases,
              s.audit + [Event(s.nextSequence, op.orgId, op.actor, Unrelated, op.subject, None)], s.nextSequence + 1))
  {
  }

  /** A submission is a new pending release of the package, and one event. */
  lemma SubmitExactly(s: Registry, op: Op)
    requires op.Submit?
    ensures Step(s, op).Ok? <==>
              && op.orgId in s.directory.orgs && op.actor in s.directory.users
              && (op.orgId, op.actor) in s.directory.members && !s.directory.members[(op.orgId, op.actor)].Viewer?
              && op.key.name in s.directory.packages && s.directory.packages[op.key.name].orgId == op.orgId
              && op.key !in s.releases
    ensures Step(s, op).Ok? ==>
              var r := Release(op.id, op.orgId, s.directory.packages[op.key.name].id, op.key, op.artifact, op.actor,
                               op.now, Pending, [], None, None, None, None, None);
              Step(s, op).value == Registry(
                s.directory, s.releases[op.key := r],
                s.audit + [Event(s.nextSequence, op.orgId, op.actor, ReleaseSubmitted, op.id, Some(op.key))],
                s.nextSequence + 1)
  {
  }

  /** When an admin or owner may decide on a release. */
  predicate MayDecide(s: Registry, op: Op)
    requires !op.Elsewhere?
  {
    && op.orgId in s.directory.orgs && op.actor in s.directory.users
    && (op.orgId, op.actor) in s.directory.members
    && (s.directory.members[(op.orgId, op.actor)].Admin? || s.directory.members[(op.orgId, op.actor)].Owner?)
    && op.key in s.releases && s.releases[op.key].orgId == op.orgId
  }

  /** An approval by somebody other than the submitter and the first approver adds that approver; the second one
      publishes. */
  lemma ApproveExactly(s: Registry, op: Op)
    requires op.Approve?
    ensures Step(s, op).Ok? <==>
              && MayDecide(s, op) && s.releases[op.key].status.Pending? && s.releases[op.key].submittedBy != op.actor
              && forall i | 0 <= i < |s.releases[op.key].approvals| ::
                   s.releases[op.key].approvals[i].userId != op.actor
    ensures Step(s, op).Ok? ==>
              var r := s.releases[op.key];
              var approvals := r.approvals + [Approval(op.actor, op.now)];
              var approved := Event(
                s.nextSequence, op.orgId, op.actor, ReleaseApproved(|approvals|), r.id, Some(op.key));
              var published := Event(
                s.nextSequence + 1, op.orgId, op.actor, ReleasePublished, r.id, Some(op.key));
              Step(s, op).value ==
                if |r.approvals| == 1
                then Registry(
                       s.directory,
                       s.releases[op.key :=
                         r.(approvals := approvals, status := Published, publishedAt := Some(op.now))],
                       s.audit + [approved] + [published], s.nextSequence + 2)
                else Registry(
                       s.directory,
                       s.releases[op.key := r.(approvals := approvals, status := Pending, publishedAt := None)],
                       s.audit + [approved], s.nextSequence + 1)
  {
  }

  /** A rejection by somebody other than the submitter ends a pending release. */
  lemma RejectExactly(s: Registry, op: Op)
    requires op.Reject?
    ensures Step(s, op).Ok? <==>
              MayDecide(s, op) && s.releases[op.key].status.Pending? && s.releases[op.key].submittedBy != op.actor
    ensures Step(s, op).Ok? ==>
              var r := s.releases[op.key];
              Step(s, op).value == Registry(
                s.directory,
                s.releases[op.key :=
                  r.(status := Rejected, rejectedAt := Some(op.now), rejectionReason := Some(op.reason))],
                s.audit + [Event(s.nextSequence, op.orgId, op.actor, ReleaseRejected(op.reason), r.id, Some(op.key))],
                s.nextSequence + 1)
  {
  }

  /** A yank ends a published release. */
  lemma YankExactly(s: Registry, op: Op)
    requires op.Yank?
    ensures Step(s, op).Ok? <==> MayDecide(s, op) && s.releases[op.key].status.Published?
    ensures Step(s, op).Ok? ==>
              var r := s.releases[op.key];
              Step(s, op).value == Registry(
                s.directory,
                s.releases[op.key := r.(status := Yanked, yankedAt := Some(op.now), yankReason := Some(op.reason))],
                s.audit + [Event(s.nextSequence, op.orgId, op.actor, ReleaseYanked(op.reason), r.id, Some(op.key))],
                s.nextSequence + 1)
  {
  }

  // ---- what every reachable registry keeps ----

  datatype Claim = Claim(action: Action, actor: Option<Id>)

  /** What an event says about a release; a release does not record who rejected or yanked it. */
  function ClaimOf(e: Event): Claim {
    Claim(e.action, if e.action.ReleaseRejected? || e.action.ReleaseYanked? then None else Some(e.actor))
  }

  /** The audit log read for one release. */
  function Claims(audit: seq<Event>, key: Key): seq<Claim>
    decreases |audit|
  {
    if |audit| == 0 then [] else
    var n := |audit| - 1;
    var before := Claims(audit[..n], key);
    if audit[n].key == Some(key) then before + [ClaimOf(audit[n])] else before
  }

  function ApprovalClaims(approvals: seq<Approval>): seq<Claim>
    decreases |approvals|
  {
    if |approvals| == 0 then [] else
    var n := |approvals| - 1;
    ApprovalClaims(approvals[..n]) + [Claim(ReleaseApproved(|approvals|), Some(approvals[n].userId))]
  }

  /** The history a release tells about itself. */
  function Story(r: Release): seq<Claim> {
    [Claim(ReleaseSubmitted, Some(r.submittedBy))]
    + ApprovalClaims(r.approvals)
    + (if WasPublished(r) && |r.approvals| == 2
       then [Claim(ReleasePublished, Some(r.approvals[1].userId))] else [])
    + (if r.status.Rejected? && r.rejectionReason.Some?
       then [Claim(ReleaseRejected(r.rejectionReason.value), None)] else [])
    + (if r.status.Yanked? && r.yankReason.Some? then [Claim(ReleaseYanked(r.yankReason.value), None)] else [])
  }

  predicate ReleaseOk(s: Registry, key: Key)
    requires key in s.releases
  {
    && Schema(s.releases[key])
    && s.releases[key].key == key
    && (s.releases[key].status.Rejected? ==> |s.releases[key].approvals| <= 1)
  }

  predicate Numbered(s: Registry) {
    && s.nextSequence == |s.audit| + 1
    && (forall i | 0 <= i < |s.audit| :: s.audit[i].sequence == i + 1)
  }

  predicate NamesSubject(s: Registry, e: Event) {
    e.key.Some? ==>
      && e.key.value in s.releases
      && e.subjectId == s.releases[e.key.value].id
      && e.orgId == s.releases[e.key.value].orgId
  }

  ghost predicate Audited(s: Registry) {
    && (forall key | key in s.releases :: Claims(s.audit, key) == Story(s.releases[key]))
    && (forall i | 0 <= i < |s.audit| :: NamesSubject(s, s.audit[i]))
  }

  ghost predicate Good(s: Registry) {
    && (forall key | key in s.releases :: ReleaseOk(s, key))
    && Numbered(s)
    && Audited(s)
  }

  // ---- steps keep it ----

  lemma ClaimsAppend(audit: seq<Event>, e: Event, key: Key)
    ensures Claims(audit + [e], key) == if e.key == Some(key) then Claims(audit, key) + [ClaimOf(e)] else Claims(audit, key)
  {
    assert (audit + [e])[..|audit|] == audit;
  }

  lemma {:induction false} ClaimsNone(audit: seq<Event>, key: Key)
    requires forall i | 0 <= i < |audit| :: audit[i].key != Some(key)
    ensures Claims(audit, key) == []
    decreases |audit|
  {
    if |audit| > 0 { ClaimsNone(audit[..|audit| - 1], key); }
  }

  /** `RegistryReleaseSchema` never rejects what a transition builds, and no identity field changes. */
  lemma DecisionFits(r: Release, op: Op)
    requires Schema(r) && (r.status.Rejected? ==> |r.approvals| <= 1)
    requires (op.Approve? || op.Reject? || op.Yank?) && Refusal(r, op).None?
    ensures Schema(Decide(r, op)) && IdentityOf(Decide(r, op)) == IdentityOf(r)
    ensures Decide(r, op).status.Rejected? ==> |Decide(r, op).approvals| <= 1
  {
    var next := Decide(r, op);
    if op.Approve? {
      assert forall i | 0 <= i < |r.approvals| :: next.approvals[i] == r.approvals[i];
    }
  }

  /** What a decision adds to the story of a release. */
  function NewClaims(next: Release, op: Op): seq<Claim>
    requires op.Approve? || op.Reject? || op.Yank?
  {
    if op.Approve? then
      [Claim(ReleaseApproved(|next.approvals|), Some(op.actor))]
      + if next.status.Published? then [Claim(ReleasePublished, Some(op.actor))] else []
    else if op.Reject? then [Claim(ReleaseRejected(op.reason), None)]
    else [Claim(ReleaseYanked(op.reason), None)]
  }

  /** A release that nobody has decided yet tells of its submission and its approvals, */
  lemma PendingStory(r: Release)
    requires r.status.Pending?
    ensures Story(r) == [Claim(ReleaseSubmitted, Some(r.submittedBy))] + ApprovalClaims(r.approvals)
  {
  }

  /** a published one of its publication too. */
  lemma PublishedStory(r: Release)
    requires r.status.Published? && |r.approvals| == 2
    ensures Story(r) == [Claim(ReleaseSubmitted, Some(r.submittedBy))] + ApprovalClaims(r.approvals)
                        + [Claim(ReleasePublished, Some(r.approvals[1].userId))]
  {
  }

  lemma ApprovalsAppend(approvals: seq<Approval>, a: Approval)
    ensures ApprovalClaims(approvals + [a])
         == ApprovalClaims(approvals) + [Claim(ReleaseApproved(|approvals| + 1), Some(a.userId))]
  {
    assert (approvals + [a])[..|approvals|] == approvals;
  }

  lemma ApprovalStory(r: Release, op: Op)
    requires Schema(r) && op.Approve? && Refusal(r, op).None?
    ensures Story(Decide(r, op)) == Story(r) + NewClaims(Decide(r, op), op)
  {
    var next := Decide(r, op);
    PendingStory(r);
    ApprovalsAppend(r.approvals, Approval(op.actor, op.now));
    if next.status.Published? { PublishedStory(next); } else { PendingStory(next); }
  }

  lemma StoryGrows(r: Release, op: Op)
    requires Schema(r) && (op.Approve? || op.Reject? || op.Yank?) && Refusal(r, op).None?
    ensures Story(Decide(r, op)) == Story(r) + NewClaims(Decide(r, op), op)
  {
    if op.Approve? {
      ApprovalStory(r, op);
    } else if op.Reject? {
      PendingStory(r);
    } else {
      PublishedStory(r);
    }
  }

  lemma LogGrows(s: Registry, next: Release, op: Op)
    requires op.Approve? || op.Reject? || op.Yank?
    ensures Claims(LogDecision(s, next, op).audit, op.key) == Claims(s.audit, op.key) + NewClaims(next, op)
  {
    if op.Approve? {
      var first := Event(s.nextSequence, op.orgId, op.actor, ReleaseApproved(|next.approvals|), next.id, Some(op.key));
      ClaimsAppend(s.audit, first, op.key);
      if next.status.Published? {
        var second := Event(s.nextSequence + 1, op.orgId, op.actor, ReleasePublished, next.id, Some(op.key));
        ClaimsAppend(s.audit + [first], second, op.key);
      }
    } else {
      var action := if op.Reject? then ReleaseRejected(op.reason) else ReleaseYanked(op.reason);
      ClaimsAppend(s.audit, Event(s.nextSequence, op.orgId, op.actor, action, next.id, Some(op.key)), op.key);
    }
  }

  lemma OtherStories(s: Registry, op: Op, key: Key)
    requires Step(s, op).Ok? && key in s.releases && (op.Elsewhere? || op.key != key)
    ensures key in Step(s, op).value.releases && Step(s, op).value.releases[key] == s.releases[key]
    ensures Claims(Step(s, op).value.audit, key) == Claims(s.audit, key)
  {
    var t := Step(s, op).value;
    ClaimsAppend(s.audit, t.audit[|s.audit|], key);
    if |t.audit| == |s.audit| + 1 {
      assert t.audit == s.audit + [t.audit[|s.audit|]];
    } else {
      ClaimsAppend(s.audit + [t.audit[|s.audit|]], t.audit[|s.audit| + 1], key);
      assert t.audit == s.audit + [t.audit[|s.audit|]] + [t.audit[|s.audit| + 1]];
    }
  }

  /** A decision that goes through replaces the release by the decided one. */
  lemma DecisionApplies(s: Registry, op: Op)
    requires Step(s, op).Ok? && (op.Approve? || op.Reject? || op.Yank?)
    ensures var t := Step(s, op).value;
            && op.key in s.releases && Refusal(s.releases[op.key], op).None?
            && op.key in t.releases && t.releases[op.key] == Decide(s.releases[op.key], op)
            && Claims(t.audit, op.key) == Claims(s.audit, op.key) + NewClaims(t.releases[op.key], op)
  {
    var next := Decide(s.releases[op.key], op);
    LogGrows(s.(releases := s.releases[op.key := next]), next, op);
  }

  lemma NewStory(s: Registry, op: Op)
    requires op.Submit? && op.key.name in s.directory.packages
    ensures Schema(NewRelease(s, op)) && Story(NewRelease(s, op)) == [Claim(ReleaseSubmitted, Some(op.actor))]
  {
  }

  lemma SubmitStory(s: Registry, op: Op)
    requires Numbered(s) && Audited(s) && op.Submit? && Step(s, op).Ok?
    ensures var t := Step(s, op).value;
            op.key in t.releases && ReleaseOk(t, op.key) && Claims(t.audit, op.key) == Story(t.releases[op.key])
  {
    NewStory(s, op);
    forall i | 0 <= i < |s.audit| ensures s.audit[i].key != Some(op.key) {
      assert NamesSubject(s, s.audit[i]);
    }
    ClaimsNone(s.audit, op.key);
    ClaimsAppend(
      s.audit, Event(s.nextSequence, op.orgId, op.actor, ReleaseSubmitted, op.id, Some(op.key)), op.key);
  }

  lemma DecisionStory(s: Registry, op: Op)
    requires Good(s) && (op.Approve? || op.Reject? || op.Yank?) && Step(s, op).Ok?
    ensures var t := Step(s, op).value;
            op.key in t.releases && ReleaseOk(t, op.key) && Claims(t.audit, op.key) == Story(t.releases[op.key])
  {
    DecisionApplies(s, op);
    assert ReleaseOk(s, op.key);
    DecisionFits(s.releases[op.key], op);
    StoryGrows(s.releases[op.key], op);
  }

  lemma StepKeepsGood(s: Registry, op: Op)
    requires Good(s) && Step(s, op).Ok?
    ensures Good(Step(s, op).value)
  {
    var t := Step(s, op).value;
    forall key | key in t.releases
      ensures ReleaseOk(t, key) && Claims(t.audit, key) == Story(t.releases[key])
    {
      if op.Elsewhere? || op.key != key {
        assert ReleaseOk(s, key);
        OtherStories(s, op, key);
      } else if op.Submit? {
        SubmitStory(s, op);
      } else {
        DecisionStory(s, op);
      }
    }
    StepNumbers(s, op);
    StepNamesSubjects(s, op);
  }

  lemma StepNumbers(s: Registry, op: Op)
    requires Numbered(s) && Step(s, op).Ok?
    ensures Numbered(Step(s, op).value)
    ensures s.audit <= Step(s, op).value.audit
  {
  }

  /** An event still names its release, whose identity does not change. */
  lemma StillNames(s: Registry, t: Registry, e: Event)
    requires NamesSubject(s, e)
    requires forall key | key in s.releases :: key in t.releases && IdentityOf(t.releases[key]) == IdentityOf(s.releases[key])
    ensures NamesSubject(t, e)
  {
  }

  lemma StepIdentities(s: Registry, op: Op)
    requires Step(s, op).Ok?
    ensures var t := Step(s, op).value;
            && (forall key | key in s.releases ::
                  key in t.releases && IdentityOf(t.releases[key]) == IdentityOf(s.releases[key]))
            && (forall i | |s.audit| <= i < |t.audit| :: NamesSubject(t, t.audit[i]))
            && s.audit <= t.audit
  {
  }

  lemma StepNamesSubjects(s: Registry, op: Op)
    requires Good(s) && Step(s, op).Ok?
    ensures var t := Step(s, op).value; forall i | 0 <= i < |t.audit| :: NamesSubject(t, t.audit[i])
  {
    var t := Step(s, op).value;
    StepIdentities(s, op);
    forall i | 0 <= i < |t.audit| ensures NamesSubject(t, t.audit[i]) {
      if i < |s.audit| {
        assert NamesSubject(s, s.audit[i]) && t.audit[i] == s.audit[i];
        StillNames(s, t, s.audit[i]);
      }
    }
  }

  // ---- the service ----

  /** `RegistryDomainService` over `InMemoryRegistryRepository`. */
  class RegistryDomainService {
    var directory: Directory
    var releases: map<Key, Release>
    var auditEvents: seq<Event>
    var nextAuditSequence: nat

    ghost function View(): Registry
      reads this
    {
      Registry(directory, releases, auditEvents, nextAuditSequence)
    }

    constructor (directory: Directory)
      ensures View() == Registry(directory, map[], [], 1) && Good(View())
    {
      this.directory := directory;
      releases := map[];
      auditEvents := [];
      nextAuditSequence := 1;
    }

    method AppendAuditEvent(orgId: Id, actor: Id, action: Action, subjectId: Id, key: Key)
      modifies this`auditEvents, this`nextAuditSequence
      ensures View() == Log(old(View()), orgId, actor, action, subjectId, Some(key))
    {
      var parsed := Event(nextAuditSequence, orgId, actor, action, subjectId, Some(key));
      nextAuditSequence := nextAuditSequence + 1;
      auditEvents := auditEvents + [parsed];
    }

    method InsertReleaseIfAbsent(release: Release) returns (r: Result<Release, Failure>)
      modifies this`releases
      ensures !Schema(release) ==> r == Err(InvalidRelease)
      ensures Schema(release) && release.key in old(releases) ==> r == Err(Conflict)
      ensures Schema(release) && release.key !in old(releases) ==>
                r == Ok(release) && releases == old(releases)[release.key := release]
      ensures r.Err? ==> releases == old(releases)
    {
      if !Schema(release) { return Err(InvalidRelease); }
      if release.key in releases { return Err(Conflict); }
      releases := releases[release.key := release];
      return Ok(release);
    }

    method ReplaceReleaseState(release: Release) returns (r: Result<Release, Failure>)
      modifies this`releases
      ensures r == Ok(release) <==>
                && Schema(release) && release.key in old(releases)
                && IdentityOf(old(releases)[release.key]) == IdentityOf(release)
      ensures r.Ok? ==>
                && |release.approvals| <= 2
                && (forall i | 0 <= i < |release.approvals| :: release.approvals[i].userId != release.submittedBy)
                && (|release.approvals| == 2 ==> release.approvals[0].userId != release.approvals[1].userId)
                && (release.status.Published? || release.status.Yanked? ==> |release.approvals| == 2)
      ensures r.Ok? ==>
                && release.key in old(releases)
                && var before := old(releases)[release.key];
                && release.id == before.id && release.orgId == before.orgId && release.packageId == before.packageId
                && release.artifact == before.artifact
                && release.submittedBy == before.submittedBy && release.submittedAt == before.submittedAt
      ensures r.Ok? ==> releases == old(releases)[release.key := release]
      ensures r.Err? ==> releases == old(releases)
    {
      if !Schema(release) { return Err(InvalidRelease); }
      if release.key !in releases { return Err(NotFound); }
      if IdentityOf(releases[release.key]) != IdentityOf(release) { return Err(Conflict); }
      releases := releases[release.key := release];
      return Ok(release);
    }

    method SubmitRelease(actor: Id, orgId: Id, key: Key, artifact: string, id: Id, now: Time)
      returns (r: Result<Release, Failure>)
      requires Good(View())
      modifies this`releases, this`auditEvents, this`nextAuditSequence
      ensures Good(View())
      ensures var step := Step(old(View()), Submit(actor, orgId, key, artifact, id, now));
              if step.Ok? then View() == step.value && r == Ok(step.value.releases[key])
              else View() == old(View()) && r == Err(step.error)
    {
      ghost var op := Submit(actor, orgId, key, artifact, id, now);
      ghost var before := View();
      var denied := RequireRole(directory, actor, orgId, SUBMITTERS);
      if denied.Some? { return Err(denied.value); }
      if key.name !in directory.packages || directory.packages[key.name].orgId != orgId { return Err(NotFound); }
      r := InsertReleaseIfAbsent(
        Release(id, orgId, directory.packages[key.name].id, key, artifact, actor, now,
                Pending, [], None, None, None, None, None));
      if r.Err? { return; }
      StepKeepsGood(before, op);
      AppendAuditEvent(orgId, actor, ReleaseSubmitted, r.value.id, key);
    }

    method ApproveRelease(actor: Id, orgId: Id, key: Key, now: Time) returns (r: Result<Release, Failure>)
      requires Good(View())
      modifies this`releases, this`auditEvents, this`nextAuditSequence
      ensures Good(View())
      ensures var step := Step(old(View()), Approve(actor, orgId, key, now));
              if step.Ok? then View() == step.value && r == Ok(step.value.releases[key])
              else View() == old(View()) && r == Err(step.error)
    {
      ghost var op := Approve(actor, orgId, key, now);
      ghost var before := View();
      var denied := RequireRole(directory, actor, orgId, REVIEWERS);
      if denied.Some? { return Err(denied.value); }
      if key !in releases || releases[key].orgId != orgId { return Err(NotFound); }
      var current := releases[key];
      if !current.status.Pending? { return Err(Transition); }
      if current.submittedBy == actor { return Err(Forbidden); }
      if Approved(current, actor) { return Err(Conflict); }
      var approvals := current.approvals + [Approval(actor, now)];
      var published := |approvals| == 2;
      assert ReleaseOk(before, key);
      DecisionFits(current, op);
      r := ReplaceReleaseState(
        current.(approvals := approvals, status := if published then Published else Pending,
                 publishedAt := if published then Some(now) else None));
      if r.Err? { return; }
      StepKeepsGood(before, op);
      AppendAuditEvent(orgId, actor, ReleaseApproved(|approvals|), current.id, key);
      if published {
        AppendAuditEvent(orgId, actor, ReleasePublished, current.id, key);
      }
    }

    method RejectRelease(actor: Id, orgId: Id, key: Key, reason: string, now: Time)
      returns (r: Result<Release, Failure>)
      requires Good(View())
      modifies this`releases, this`auditEvents, this`nextAuditSequence
      ensures Good(View())
      ensures var step := Step(old(View()), Reject(actor, orgId, key, reason, now));
              if step.Ok? then View() == step.value && r == Ok(step.value.releases[key])
              else View() == old(View()) && r == Err(step.error)
    {
      ghost var op := Reject(actor, orgId, key, reason, now);
      ghost var before := View();
      var denied := RequireRole(directory, actor, orgId, REVIEWERS);
      if denied.Some? { return Err(denied.value); }
      if key !in releases || releases[key].orgId != orgId { return Err(NotFound); }
      var current := releases[key];
      if !current.status.Pending? { return Err(Transition); }
      if current.submittedBy == actor { return Err(Forbidden); }
      assert ReleaseOk(before, key);
      DecisionFits(current, op);
      r := ReplaceReleaseState(
        current.(status := Rejected, rejectedAt := Some(now), rejectionReason := Some(reason)));
      if r.Err? { return; }
      StepKeepsGood(before, op);
      AppendAuditEvent(orgId, actor, ReleaseRejected(reason), current.id, key);
    }

    method YankRelease(actor: Id, orgId: Id, key: Key, reason: string, now: Time)
      returns (r: Result<Release, Failure>)
      requires Good(View())
      modifies this`releases, this`auditEvents, this`nextAuditSequence
      ensures Good(View())
      ensures var step := Step(old(View()), Yank(actor, orgId, key, reason, now));
              if step.Ok? then View() == step.value && r == Ok(step.value.releases[key])
              else View() == old(View()) && r == Err(step.error)
    {
      ghost var op := Yank(actor, orgId, key, reason, now);
      ghost var before := View();
      var denied := RequireRole(directory, actor, orgId, REVIEWERS);
      if denied.Some? { return Err(denied.value); }
      if key !in releases || releases[key].orgId != orgId { return Err(NotFound); }
      var current := releases[key];
      if !current.status.Published? { return Err(Transition); }
      assert ReleaseOk(before, key);
      DecisionFits(current, op);
      r := ReplaceReleaseState(current.(status := Yanked, yankedAt := Some(now), yankReason := Some(reason)));
      if r.Err? { return; }
      StepKeepsGood(before, op);
      AppendAuditEvent(orgId, actor, ReleaseYanked(reason), current.id, key);
    }
  }

  // ---- runs ----

  const EMPTY_DIRECTORY := Directory({}, {}, map[], map[])
  const EMPTY_REGISTRY := Registry(EMPTY_DIRECTORY, map[], [], 1)

  /** A run of operations from the empty registry; a refused one changes nothing. */
  function Run(ops: seq<Op>): Registry
    decreases |ops|
  {
    if |ops| == 0 then EMPTY_REGISTRY else
    var before := Run(ops[..|ops| - 1]);
    var step := Step(before, ops[|ops| - 1]);
    if step.Ok? then step.value else before
  }

  lemma {:induction false} RunIsGood(ops: seq<Op>)
    ensures Good(Run(ops))
    decreases |ops|
  {
    if |ops| > 0 {
      RunIsGood(ops[..|ops| - 1]);
      var before := Run(ops[..|ops| - 1]);
      if Step(before, ops[|ops| - 1]).Ok? { StepKeepsGood(before, ops[|ops| - 1]); }
    }
  }

  /** In every reachable registry a release has at most two approvals, by different people other than its submitter, and
      exactly the times and reasons that its status calls for. */
  lemma EveryReleaseIsConsistent(ops: seq<Op>, key: Key)
    requires key in Run(ops).releases
    ensures var r := Run(ops).releases[key];
            && r.key == key
            && (if r.status.Published? || r.status.Yanked? then |r.approvals| == 2 else |r.approvals| <= 1)
            && (|r.approvals| == 2 ==> r.approvals[0].userId != r.approvals[1].userId)
            && (forall i | 0 <= i < |r.approvals| :: r.approvals[i].userId != r.submittedBy)
            && (r.publishedAt.Some? <==> r.status.Published? || r.status.Yanked?)
            && (r.rejectedAt.Some? <==> r.status.Rejected?) && (r.rejectionReason.Some? <==> r.status.Rejected?)
            && (r.yankedAt.Some? <==> r.status.Yanked?) && (r.yankReason.Some? <==> r.status.Yanked?)
  {
    RunIsGood(ops);
    assert ReleaseOk(Run(ops), key);
  }

  /** What may still happen to a release: nothing once it is rejected or yanked, a yank once it is published. */
  predicate Follows(r: Release, r': Release) {
    && r'.id == r.id && r'.orgId == r.orgId && r'.packageId == r.packageId && r'.key == r.key
    && r'.artifact == r.artifact && r'.submittedBy == r.submittedBy && r'.submittedAt == r.submittedAt
    && r.approvals <= r'.approvals
    && (r.status.Rejected? || r.status.Yanked? ==> r' == r)
    && (r.status.Published? ==>
          && (r'.status.Published? || r'.status.Yanked?)
          && r'.approvals == r.approvals && r'.publishedAt == r.publishedAt)
  }

  lemma FollowsTransitive(a: Release, b: Release, c: Release)
    requires Follows(a, b) && Follows(b, c)
    ensures Follows(a, c)
  {
  }

  lemma StepFollows(s: Registry, op: Op, key: Key)
    requires Good(s) && Step(s, op).Ok? && key in s.releases
    ensures key in Step(s, op).value.releases && Follows(s.releases[key], Step(s, op).value.releases[key])
  {
    assert ReleaseOk(s, key);
    if op.Elsewhere? || op.key != key {
      OtherStories(s, op, key);
    } else if op.Approve? || op.Reject? || op.Yank? {
      DecisionApplies(s, op);
    }
  }

  /** Some earlier operation of the run was this approval, by somebody who was then an admin or owner. */
  ghost predicate Reviewed(ops: seq<Op>, r: Release, a: Approval) {
    exists k | 0 <= k < |ops| ::
      && ops[k] == Approve(a.userId, r.orgId, r.key, a.approvedAt)
      && IsAdminOrOwner(Run(ops[..k]).directory, a.userId, r.orgId)
      && Step(Run(ops[..k]), ops[k]).Ok?
  }

  predicate IsAdminOrOwner(d: Directory, user: Id, orgId: Id) {
    (orgId, user) in d.members && (d.members[(orgId, user)].Admin? || d.members[(orgId, user)].Owner?)
  }

  lemma ReviewedLater(ops: seq<Op>, op: Op, r: Release, a: Approval)
    requires Reviewed(ops, r, a)
    ensures Reviewed(ops + [op], r, a)
  {
    var k :| 0 <= k < |ops|
          && ops[k] == Approve(a.userId, r.orgId, r.key, a.approvedAt)
          && IsAdminOrOwner(Run(ops[..k]).directory, a.userId, r.orgId)
          && Step(Run(ops[..k]), ops[k]).Ok?;
    assert (ops + [op])[..k] == ops[..k] && (ops + [op])[k] == ops[k];
  }

  lemma NewApproval(s: Registry, op: Op, key: Key, i: nat)
    requires Good(s) && Step(s, op).Ok? && key in Step(s, op).value.releases
    requires i < |Step(s, op).value.releases[key].approvals|
    requires key !in s.releases || i >= |s.releases[key].approvals|
    ensures var r := Step(s, op).value.releases[key];
            && op == Approve(r.approvals[i].userId, r.orgId, r.key, r.approvals[i].approvedAt)
            && IsAdminOrOwner(s.directory, op.actor, r.orgId)
  {
    if op.Elsewhere? || op.key != key {
      if key in s.releases { OtherStories(s, op, key); }
    } else if op.Approve? || op.Reject? || op.Yank? {
      DecisionApplies(s, op);
      assert ReleaseOk(s, op.key);
    }
  }

  lemma {:induction false} ApprovalsWereReviewed(ops: seq<Op>, key: Key, i: nat)
    requires key in Run(ops).releases && i < |Run(ops).releases[key].approvals|
    ensures Reviewed(ops, Run(ops).releases[key], Run(ops).releases[key].approvals[i])
    decreases |ops|
  {
    var n := |ops| - 1;
    var before, r := Run(ops[..n]), Run(ops).releases[key];
    RunIsGood(ops[..n]);
    assert ops == ops[..n] + [ops[n]];
    if key in before.releases && i < |before.releases[key].approvals| {
      ApprovalsWereReviewed(ops[..n], key, i);
      ReviewedLater(ops[..n], ops[n], before.releases[key], before.releases[key].approvals[i]);
      if Step(before, ops[n]).Ok? { StepFollows(before, ops[n], key); }
      assert r.approvals[i] == before.releases[key].approvals[i];
      assert IdentityOf(r) == IdentityOf(before.releases[key]);
    } else {
      NewApproval(before, ops[n], key, i);
    }
  }

  /** Two different people other than the submitter, each an admin or owner when approving, stand behind every release
      that was ever published. */
  lemma PublishedMeansReviewed(ops: seq<Op>, key: Key)
    requires key in Run(ops).releases
    requires Run(ops).releases[key].status.Published? || Run(ops).releases[key].status.Yanked?
    ensures var r := Run(ops).releases[key];
            && |r.approvals| == 2
            && r.approvals[0].userId != r.approvals[1].userId
            && r.approvals[0].userId != r.submittedBy && r.approvals[1].userId != r.submittedBy
            && Reviewed(ops, r, r.approvals[0]) && Reviewed(ops, r, r.approvals[1])
  {
    RunIsGood(ops);
    assert ReleaseOk(Run(ops), key);
    ApprovalsWereReviewed(ops, key, 0);
    ApprovalsWereReviewed(ops, key, 1);
    var r := Run(ops).releases[key];
    assert !Approved(r, r.submittedBy);
  }

  /** Releases are never deleted, no decision is ever undone, and the audit log only grows. */
  lemma {:induction false} NoDecisionIsUndone(ops: seq<Op>, more: seq<Op>)
    ensures Run(ops).audit <= Run(ops + more).audit
    ensures forall key | key in Run(ops).releases ::
              key in Run(ops + more).releases && Follows(Run(ops).releases[key], Run(ops + more).releases[key])
    decreases |more|
  {
    if |more| == 0 {
      assert ops + more == ops;
    } else {
      var n := |more| - 1;
      NoDecisionIsUndone(ops, more[..n]);
      var all := ops + more;
      assert all[..|all| - 1] == ops + more[..n];
      var before := Run(ops + more[..n]);
      RunIsGood(ops + more[..n]);
      if Step(before, all[|all| - 1]).Ok? {
        StepNumbers(before, all[|all| - 1]);
        forall key | key in Run(ops).releases
          ensures key in Run(all).releases && Follows(Run(ops).releases[key], Run(all).releases[key])
        {
          StepFollows(before, all[|all| - 1], key);
          FollowsTransitive(Run(ops).releases[key], before.releases[key], Run(all).releases[key]);
        }
      }
    }
  }

  // ---- reading the audit log ----

  function Count(claims: seq<Claim>, wanted: Action -> bool): nat
    decreases |claims|
  {
    if |claims| == 0 then 0 else
    Count(claims[..|claims| - 1], wanted) + if wanted(claims[|claims| - 1].action) then 1 else 0
  }

  lemma {:induction false} CountAppend(a: seq<Claim>, b: seq<Claim>, wanted: Action -> bool)
    ensures Count(a + b, wanted) == Count(a, wanted) + Count(b, wanted)
    decreases |b|
  {
    if |b| == 0 {
      assert a + b == a;
    } else {
      CountAppend(a, b[..|b| - 1], wanted);
      assert (a + b)[..|a + b| - 1] == a + b[..|b| - 1];
    }
  }

  lemma {:induction false} CountApprovals(approvals: seq<Approval>)
    ensures Count(ApprovalClaims(approvals), (a: Action) => a.ReleaseApproved?) == |approvals|
    ensures Count(ApprovalClaims(approvals), (a: Action) => a.ReleasePublished?) == 0
    decreases |approvals|
  {
    if |approvals| > 0 { CountApprovals(approvals[..|approvals| - 1]); }
  }

  /** The audit log is numbered 1, 2, 3, ... without a gap; for each release it holds one approval event per
      approval, one publication event exactly if the release was ever published, and nothing about releases
      that do not exist. */
  lemma AuditLogTellsAll(ops: seq<Op>, key: Key)
    ensures forall i | 0 <= i < |Run(ops).audit| :: Run(ops).audit[i].sequence == i + 1
    ensures key !in Run(ops).releases ==> Claims(Run(ops).audit, key) == []
    ensures key in Run(ops).releases ==>
              var r, claims := Run(ops).releases[key], Claims(Run(ops).audit, key);
              && claims == Story(r)
              && Count(claims, (a: Action) => a.ReleaseApproved?) == |r.approvals|
              && Count(claims, (a: Action) => a.ReleasePublished?)
                 == if r.status.Published? || r.status.Yanked? then 1 else 0
  {
    RunIsGood(ops);
    var s := Run(ops);
    if key !in s.releases {
      assert forall i | 0 <= i < |s.audit| :: NamesSubject(s, s.audit[i]);
      ClaimsNone(s.audit, key);
    } else {
      assert ReleaseOk(s, key);
      var r := s.releases[key];
      CountApprovals(r.approvals);
      StoryCounts(r, (a: Action) => a.ReleaseApproved?);
      StoryCounts(r, (a: Action) => a.ReleasePublished?);
    }
  }

  lemma StoryCounts(r: Release, wanted: Action -> bool)
    requires Schema(r) && (r.status.Rejected? ==> |r.approvals| <= 1)
    requires forall a: Action :: a.ReleaseSubmitted? || a.ReleaseRejected? || a.ReleaseYanked? ==> !wanted(a)
    ensures Count(Story(r), wanted)
         == Count(ApprovalClaims(r.approvals), wanted) + if WasPublished(r) && wanted(ReleasePublished) then 1 else 0
  {
    var a := [Claim(ReleaseSubmitted, Some(r.submittedBy))];
    var b := ApprovalClaims(r.approvals);
    var c := if WasPublished(r) then [Claim(ReleasePublished, Some(r.approvals[1].userId))] else [];
    var d := if r.status.Rejected? then [Claim(ReleaseRejected(r.rejectionReason.value), None)] else [];
    var e := if r.status.Yanked? then [Claim(ReleaseYanked(r.yankReason.value), None)] else [];
    CountAppend(a, b, wanted);
    CountAppend(a + b, c, wanted);
    CountAppend(a + b + c, d, wanted);
    CountAppend(a + b + c + d, e, wanted);
  }
}
