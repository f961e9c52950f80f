/** Members, the owner pointer and API tokens of one organization: the transactions of the Postgres adapter, and
    any interleaving of them that the organization row lock allows. */
module Membership {
  import opened Wrappers
  import opened Order
  import opened Sets
  import Releases

  type User = Text
  type TokenId = string
  type Time = string
  type Role = Releases.Role

  datatype Token = Token(subject: User, revokedAt: Option<Time>)

  /** The durable rows of an organization; `owner` is `owner_user_id`. */
  datatype Organization = Organization(owner: User, members: map<User, Role>, tokens: map<TokenId, Token>)

  datatype Failure = NotFound | Forbidden | Conflict | SeatLimit | PermissionDenied

  datatype Job =
    | AddMember(actor: User, user: User, role: Role, maxSeats: Option<nat>)
    | UpdateMemberRole(actor: User, user: User, role: Role, at: Time)
    | RemoveMember(actor: User, user: User, at: Time)
    | IssueToken(actor: User, id: TokenId)
    | RevokeToken(actor: User, id: TokenId, at: Time)
    | RevokeForSubject(actor: User, user: User, at: Time)
    | BootstrapToken(user: User, id: TokenId)

  // ---- the checks of each transaction ----

  predicate HasRole(org: Organization, user: User, role: Role) { user in org.members && org.members[user] == role }

  /** Admins and owners manage members and tokens. */
  predicate IsAdmin(org: Organization, user: User) {
    HasRole(org, user, Releases.Admin) || HasRole(org, user, Releases.Owner)
  }

  predicate IsOwner(org: Organization, user: User) { HasRole(org, user, Releases.Owner) }

  function OtherOwners(org: Organization, user: User): set<User> {
    set u | u in org.members && u != user && IsOwner(org, u)
  }

  /** The first other owner by user id. */
  ghost function Replacement(org: Organization, user: User): Option<User> {
    TextStrictTotal();
    if OtherOwners(org, user) == {} then None else Some(Least(OtherOwners(org, user), TextLess))
  }

  /** Who becomes `owner_user_id` when `user` stops being an owner. */
  ghost function Transfer(org: Organization, user: User, staysOwner: bool): Result<Option<User>, Failure> {
    if !IsOwner(org, user) || staysOwner then Ok(None)
    else if Replacement(org, user).None? then Err(Conflict)
    else if org.owner == user then Ok(Replacement(org, user))
    else Ok(None)
  }

  /** `known` tells whether the user exists (for a token: exists and is active). */
  ghost function Check(org: Organization, job: Job, known: bool): Result<Option<User>, Failure> {
    match job
    case AddMember(actor, user, role, maxSeats) =>
      if !IsAdmin(org, actor) || (role.Owner? && !IsOwner(org, actor)) then Err(Forbidden)
      else if !known then Err(NotFound)
      else if maxSeats.Some? && user !in org.members && |org.members| >= maxSeats.value then Err(SeatLimit)
      else Ok(None)
    case UpdateMemberRole(actor, user, role, at) =>
      if !IsAdmin(org, actor) then Err(Forbidden)
      else if user !in org.members then Err(NotFound)
      else if (IsOwner(org, user) || role.Owner?) && !IsOwner(org, actor) then Err(Forbidden)
      else if org.members[user] == role then Err(Conflict)
      else Transfer(org, user, role.Owner?)
    case RemoveMember(actor, user, at) =>
      if !IsAdmin(org, actor) then Err(Forbidden)
      else if user !in org.members then Err(NotFound)
      else if IsOwner(org, user) && !IsOwner(org, actor) then Err(Forbidden)
      else Transfer(org, user, false)
    case BootstrapToken(user, id) =>
      if known && IsOwner(org, user) && org.owner == user then Ok(None) else Err(PermissionDenied)
    case _ =>
      if known && IsAdmin(org, job.actor) then Ok(None) else Err(PermissionDenied)
  }

  // ---- the statements that follow ----

  datatype Write =
    | SetOwner(user: User)
    | Insert(user: User, role: Role)
    | SetRole(user: User, role: Role)
    | Delete(user: User)
    | InsertToken(id: TokenId, user: User)
    | Revoke(ids: set<TokenId>, at: Time)

  function RevokeIn(tokens: map<TokenId, Token>, ids: set<TokenId>, at: Time): map<TokenId, Token> {
    map id | id in tokens ::
      if id in ids && tokens[id].revokedAt.None? then tokens[id].(revokedAt := Some(at)) else tokens[id]
  }

  function ApplyWrite(org: Organization, w: Write): Organization {
    match w
    case SetOwner(user) => org.(owner := user)
    case Insert(user, role) => org.(members := org.members[user := role])
    case SetRole(user, role) => org.(members := org.members[user := role])
    case Delete(user) => org.(members := org.members - {user})
    case InsertToken(id, user) => org.(tokens := org.tokens[id := Token(user, None)])
    case Revoke(ids, at) => org.(tokens := RevokeIn(org.tokens, ids, at))
  }

  function ApplyAll(org: Organization, writes: seq<Write>): Organization
    decreases |writes|
  {
    if |writes| == 0 then org else ApplyWrite(ApplyAll(org, writes[..|writes| - 1]), writes[|writes| - 1])
  }

  function Live(org: Organization, user: User): set<TokenId> {
    set id | id in org.tokens && org.tokens[id].subject == user && org.tokens[id].revokedAt.None?
  }

  function Steps(job: Job, transfer: Option<User>): nat {
    if job.UpdateMemberRole? || job.RemoveMember? then if transfer.Some? then 3 else 2 else 1
  }

  function TransferTo(view: Organization, user: User): Option<Write> {
    if IsOwner(view, user) then Some(SetOwner(user)) else None
  }

  /** The k-th writing statement, on what the transaction sees then; None is an error that rolls back. */
  function Statement(job: Job, transfer: Option<User>, k: nat, view: Organization): Option<Write>
    requires k < Steps(job, transfer)
  {
    match job
    case AddMember(actor, user, role, maxSeats) =>
      if user in view.members then None else Some(Insert(user, role))
    case UpdateMemberRole(actor, user, role, at) =>
      if k == 0 && transfer.Some? then TransferTo(view, transfer.value)
      else if k == Steps(job, transfer) - 1 then Some(Revoke(Live(view, user), at))
      else if user in view.members then Some(SetRole(user, role))
      else None
    case RemoveMember(actor, user, at) =>
      if k == 0 && transfer.Some? then TransferTo(view, transfer.value)
      else if k == Steps(job, transfer) - 2 then Some(Revoke(Live(view, user), at))
      else if user in view.members then Some(Delete(user))
      else None
    case IssueToken(actor, id) =>
      if actor in view.members && id !in view.tokens then Some(InsertToken(id, actor)) else None
    case RevokeToken(actor, id, at) => if id in view.tokens then Some(Revoke({id}, at)) else None
    case RevokeForSubject(actor, user, at) => Some(Revoke(Live(view, user), at))
    case BootstrapToken(user, id) =>
      if user in view.members && id !in view.tokens then Some(InsertToken(id, user)) else None
  }

  /** The first `k` statements on an organization that nobody else changes. */
  function Execute(org: Organization, job: Job, transfer: Option<User>, k: nat): Option<Organization>
    requires k <= Steps(job, transfer)
  {
    if k == 0 then Some(org) else
    var before := Execute(org, job, transfer, k - 1);
    if before.None? then None else
    var w := Statement(job, transfer, k - 1, before.value);
    if w.None? then None else Some(ApplyWrite(before.value, w.value))
  }

  /** The whole transaction on its own: what it commits, or nothing. */
  ghost function Perform(org: Organization, job: Job, known: bool): Option<Organization> {
    var transfer := Check(org, job, known);
    if transfer.Err? then None else Execute(org, job, transfer.value, Steps(job, transfer.value))
  }

  // ---- what one transaction keeps ----

  /** `owner_user_id` is an owner member, and only members have live tokens. */
  predicate OrgOk(org: Organization) {
    && IsOwner(org, org.owner)
    && forall id | id in org.tokens :: org.tokens[id].revokedAt.None? ==> org.tokens[id].subject in org.members
  }

  /** Tokens are never deleted, keep their subject, and a revocation is final. */
  predicate TokensFollow(before: map<TokenId, Token>, after: map<TokenId, Token>) {
    forall id | id in before ::
      && id in after
      && after[id].subject == before[id].subject
      && (before[id].revokedAt.Some? ==> after[id] == before[id])
  }

  predicate AllRevoked(org: Organization, user: User) {
    forall id | id in org.tokens && org.tokens[id].subject == user :: org.tokens[id].revokedAt.Some?
  }

  predicate Demotes(job: Job, user: User) { (job.UpdateMemberRole? || job.RemoveMember?) && job.user == user }

  lemma WriteFollows(org: Organization, w: Write)
    requires w.InsertToken? ==> w.id !in org.tokens
    ensures TokensFollow(org.tokens, ApplyWrite(org, w).tokens)
  {
  }

  lemma {:induction false} ExecuteFollows(org: Organization, job: Job, transfer: Option<User>, k: nat)
    requires k <= Steps(job, transfer) && Execute(org, job, transfer, k).Some?
    ensures TokensFollow(org.tokens, Execute(org, job, transfer, k).value.tokens)
  {
    if k > 0 {
      ExecuteFollows(org, job, transfer, k - 1);
      var before := Execute(org, job, transfer, k - 1).value;
      WriteFollows(before, Statement(job, transfer, k - 1, before).value);
    }
  }

  lemma ReplacementIsOwner(org: Organization, user: User)
    requires Replacement(org, user).Some?
    ensures Replacement(org, user).value != user && IsOwner(org, Replacement(org, user).value)
  {
    TextStrictTotal();
    assert Replacement(org, user).value in OtherOwners(org, user);
  }

  /** What a role change or a removal amounts to. */
  lemma DemotionIs(org: Organization, job: Job, known: bool)
    requires (job.UpdateMemberRole? || job.RemoveMember?) && Perform(org, job, known).Some?
    ensures Check(org, job, known).Ok? && job.user in org.members
    ensures var transfer := Check(org, job, known).value;
            Perform(org, job, known).value == Organization(
              if transfer.Some? then transfer.value else org.owner,
              if job.UpdateMemberRole? then org.members[job.user := job.role] else org.members - {job.user},
              RevokeIn(org.tokens, Live(org, job.user), job.at))
  {
    var transfer := Check(org, job, known).value;
    var n := Steps(job, transfer);
    assert Execute(org, job, transfer, n - 2).Some? && Execute(org, job, transfer, n - 1).Some?;
    if transfer.Some? { assert Execute(org, job, transfer, 0) == Some(org); }
  }

  lemma DemotionKeeps(org: Organization, job: Job, known: bool)
    requires (job.UpdateMemberRole? || job.RemoveMember?) && Perform(org, job, known).Some?
    ensures OrgOk(org) ==> OrgOk(Perform(org, job, known).value)
    ensures AllRevoked(Perform(org, job, known).value, job.user)
  {
    DemotionIs(org, job, known);
    if Replacement(org, job.user).Some? { ReplacementIsOwner(org, job.user); }
  }

  /** What any other transaction amounts to. */
  lemma OthersAre(org: Organization, job: Job, known: bool)
    requires !job.UpdateMemberRole? && !job.RemoveMember? && Perform(org, job, known).Some?
    ensures Check(org, job, known) == Ok(None) && Statement(job, None, 0, org).Some?
    ensures Perform(org, job, known).value == ApplyWrite(org, Statement(job, None, 0, org).value)
  {
    assert Execute(org, job, None, 0) == Some(org);
  }

  lemma OthersKeep(org: Organization, job: Job, known: bool)
    requires !job.UpdateMemberRole? && !job.RemoveMember? && Perform(org, job, known).Some?
    ensures OrgOk(org) ==> OrgOk(Perform(org, job, known).value)
    ensures !job.AddMember? ==> Perform(org, job, known).value.members == org.members
  {
    OthersAre(org, job, known);
    if OrgOk(org) { WriteKeepsOrg(org, Statement(job, None, 0, org).value); }
  }

  lemma AdditionFits(org: Organization, job: Job, known: bool)
    requires job.AddMember? && job.maxSeats.Some? && Perform(org, job, known).Some?
    ensures |Perform(org, job, known).value.members| <= job.maxSeats.value
  {
    OthersAre(org, job, known);
    assert Perform(org, job, known).value.members.Keys == org.members.Keys + {job.user};
  }

  lemma WriteKeepsOrg(org: Organization, w: Write)
    requires OrgOk(org)
    requires w.Revoke? || (w.Insert? && w.user !in org.members) || (w.InsertToken? && w.user in org.members)
    ensures OrgOk(ApplyWrite(org, w))
  {
  }

  /** Alone, every transaction keeps the owner pointer and the tokens in order; a role change or a removal leaves
      no live token of its subject; and an addition ends within the seat limit. */
  lemma PerformKeeps(org: Organization, job: Job, known: bool)
    requires Perform(org, job, known).Some?
    ensures OrgOk(org) ==> OrgOk(Perform(org, job, known).value)
    ensures TokensFollow(org.tokens, Perform(org, job, known).value.tokens)
    ensures forall user | Demotes(job, user) :: AllRevoked(Perform(org, job, known).value, user)
    ensures job.AddMember? && job.maxSeats.Some? ==>
              |Perform(org, job, known).value.members| <= job.maxSeats.value
    ensures !job.AddMember? ==> |Perform(org, job, known).value.members| <= |org.members|
  {
    var transfer := Check(org, job, known).value;
    ExecuteFollows(org, job, transfer, Steps(job, transfer));
    if job.UpdateMemberRole? || job.RemoveMember? {
      DemotionKeeps(org, job, known);
      DemotionShrinks(org, job, known);
    } else {
      OthersKeep(org, job, known);
      if job.AddMember? && job.maxSeats.Some? { AdditionFits(org, job, known); }
    }
  }

  lemma DemotionShrinks(org: Organization, job: Job, known: bool)
    requires (job.UpdateMemberRole? || job.RemoveMember?) && Perform(org, job, known).Some?
    ensures |Perform(org, job, known).value.members| <= |org.members|
  {
    DemotionIs(org, job, known);
    var after := Perform(org, job, known).value;
    assert after.members.Keys <= org.members.Keys;
    SubsetSize(after.members.Keys, org.members.Keys);
  }

  // ---- exactly when each transaction goes through, and what it changes ----

  /** The user is an admin or an owner of the organization. */
  predicate MayManage(org: Organization, user: User) {
    user in org.members && (org.members[user].Admin? || org.members[user].Owner?)
  }

  predicate IsOwnerMember(org: Organization, user: User) { user in org.members && org.members[user].Owner? }

  lemma AddMemberExactly(org: Organization, job: Job, known: bool)
    requires job.AddMember?
    ensures Perform(org, job, known).Some? <==>
              && known && MayManage(org, job.actor) && (job.role.Owner? ==> IsOwnerMember(org, job.actor))
              && job.user !in org.members && (job.maxSeats.Some? ==> |org.members| < job.maxSeats.value)
    ensures Perform(org, job, known).Some? ==>
              Perform(org, job, known).value
                == Organization(org.owner, org.members[job.user := job.role], org.tokens)
  {
    assert Execute(org, job, None, 0) == Some(org);
  }

  /** The first other owner by user id takes over. */
  ghost predicate TakesOver(org: Organization, user: User, next: User) {
    && next != user && IsOwnerMember(org, next)
    && forall u | u != user && u != next && IsOwnerMember(org, u) :: TextLess(next, u)
  }

  /** The owner pointer moves exactly if it names a user who stops being an owner. */
  ghost predicate PointerFollows(org: Organization, after: Organization, user: User, staysOwner: bool) {
    if IsOwnerMember(org, user) && !staysOwner && org.owner == user then TakesOver(org, user, after.owner)
    else after.owner == org.owner
  }

  /** The live tokens of the user are revoked, all else stays. */
  predicate RevokesTokensOf(before: map<TokenId, Token>, user: User, at: Time, after: map<TokenId, Token>) {
    && after.Keys == before.Keys
    && forall id | id in before ::
         after[id] == if before[id].subject == user && before[id].revokedAt.None? then Token(user, Some(at)) else before[id]
  }

  lemma TransferMeans(org: Organization, user: User, staysOwner: bool)
    ensures Transfer(org, user, staysOwner).Ok? <==>
              (IsOwnerMember(org, user) && !staysOwner ==> exists u :: u != user && IsOwnerMember(org, u))
    ensures Transfer(org, user, staysOwner).Ok? ==>
              var moved := Transfer(org, user, staysOwner).value;
              PointerFollows(org, org.(owner := if moved.Some? then moved.value else org.owner), user, staysOwner)
  {
    forall u ensures u in OtherOwners(org, user) <==> u != user && IsOwnerMember(org, u) { }
    TextStrictTotal();
    if OtherOwners(org, user) != {} {
      var u :| u in OtherOwners(org, user);
      assert u != user && IsOwnerMember(org, u);
    }
  }

  /** A role change goes through exactly if an admin or owner asks for another role, only owners touch owners, and some
      other owner remains. */
  lemma UpdateMemberRoleExactly(org: Organization, job: Job)
    requires job.UpdateMemberRole?
    ensures Perform(org, job, true).Some? <==>
              && MayManage(org, job.actor) && job.user in org.members && org.members[job.user] != job.role
              && (org.members[job.user].Owner? || job.role.Owner? ==> IsOwnerMember(org, job.actor))
              && (org.members[job.user].Owner? ==> exists u :: u != job.user && IsOwnerMember(org, u))
    ensures Perform(org, job, true).Some? ==>
              var after := Perform(org, job, true).value;
              && after.members == org.members[job.user := job.role]
              && PointerFollows(org, after, job.user, job.role.Owner?)
              && RevokesTokensOf(org.tokens, job.user, job.at, after.tokens)
  {
    TransferMeans(org, job.user, job.role.Owner?);
    if Check(org, job, true).Ok? { DemotionRuns(org, job); }
  }

  /** A removal goes through exactly if an admin or owner asks for it, only owners touch owners, and some other owner
      remains. */
  lemma RemoveMemberExactly(org: Organization, job: Job)
    requires job.RemoveMember?
    ensures Perform(org, job, true).Some? <==>
              && MayManage(org, job.actor) && job.user in org.members
              && (org.members[job.user].Owner? ==> IsOwnerMember(org, job.actor))
              && (org.members[job.user].Owner? ==> exists u :: u != job.user && IsOwnerMember(org, u))
    ensures Perform(org, job, true).Some? ==>
              var after := Perform(org, job, true).value;
              && after.members == org.members - {job.user}
              && PointerFollows(org, after, job.user, false)
              && RevokesTokensOf(org.tokens, job.user, job.at, after.tokens)
  {
    TransferMeans(org, job.user, false);
    if Check(org, job, true).Ok? { DemotionRuns(org, job); }
  }

  /** Tokens are issued and revoked exactly for active admins and owners, and a bootstrap token for the active owner. */
  lemma TokensExactly(org: Organization, job: Job, known: bool)
    requires job.IssueToken? || job.RevokeToken? || job.RevokeForSubject? || job.BootstrapToken?
    ensures Perform(org, job, known).Some? <==>
              && known
              && (if job.BootstrapToken? then IsOwnerMember(org, job.user) && org.owner == job.user
                  else MayManage(org, job.actor))
              && (job.IssueToken? || job.BootstrapToken? ==> job.id !in org.tokens)
              && (job.RevokeToken? ==> job.id in org.tokens)
    ensures Perform(org, job, known).Some? ==>
              var after := Perform(org, job, known).value;
              && after.owner == org.owner && after.members == org.members
              && (job.IssueToken? ==> after.tokens == org.tokens[job.id := Token(job.actor, None)])
              && (job.BootstrapToken? ==> after.tokens == org.tokens[job.id := Token(job.user, None)])
              && (job.RevokeToken? ==> after.tokens == org.tokens[job.id :=
                    if org.tokens[job.id].revokedAt.None? then Token(org.tokens[job.id].subject, Some(job.at))
                    else org.tokens[job.id]])
              && (job.RevokeForSubject? ==> RevokesTokensOf(org.tokens, job.user, job.at, after.tokens))
  {
    assert Execute(org, job, None, 0) == Some(org);
  }

  // ---- the transactions in source order ----

  /** The rows of the organization as a transaction that holds its lock reads and writes them. */
  class OrganizationTransaction {
    var owner: User
    var members: map<User, Role>
    var tokens: map<TokenId, Token>

    ghost function View(): Organization
      reads this
    {
      Organization(owner, members, tokens)
    }

    constructor (org: Organization)
      ensures View() == org
    {
      owner, members, tokens := org.owner, org.members, org.tokens;
    }

    /** The first other owner in the order of `listMembers`. */
    method FindReplacement(user: User) returns (r: Option<User>)
      ensures r == Replacement(View(), user)
    {
      var owners := OtherOwners(Organization(owner, members, tokens), user);
      TextStrictTotal();
      if owners == {} { return None; }
      var first :| first in owners;
      var rest := owners - {first};
      while rest != {}
        invariant first in owners && rest <= owners && first !in rest
        invariant forall u | u in owners && u !in rest && u != first :: TextLess(first, u)
      {
        var u :| u in rest;
        if TextLess(u, first) {
          forall v | v in owners && v !in rest && v != first ensures TextLess(u, v) { TextTransitive(u, first, v); }
          first := u;
        }
        rest := rest - {u};
      }
      if first != Least(owners, TextLess) { TextTrichotomy(first, Least(owners, TextLess)); }
      return Some(first);
    }

    method TransferOwner(user: User, staysOwner: bool) returns (r: Result<Option<User>, Failure>)
      modifies this`owner
      ensures r == Transfer(old(View()), user, staysOwner)
      ensures View() == if r.Ok? && r.value.Some? then old(View()).(owner := r.value.value) else old(View())
    {
      if user !in members || !members[user].Owner? || staysOwner { return Ok(None); }
      var replacement := FindReplacement(user);
      if replacement.None? { return Err(Conflict); }
      if owner != user { return Ok(None); }
      owner := replacement.value;
      return Ok(replacement);
    }

    method UpdateMemberRole(actor: User, user: User, role: Role, at: Time) returns (r: Result<(), Failure>)
      modifies this
      ensures r.Ok? <==> Perform(old(View()), Job.UpdateMemberRole(actor, user, role, at), true) == Some(View())
      ensures r.Err? ==> Check(old(View()), Job.UpdateMemberRole(actor, user, role, at), true) == Err(r.error)
      ensures r.Err? ==> View() == old(View())
    {
      ghost var org, job := View(), Job.UpdateMemberRole(actor, user, role, at);
      if !IsAdmin(Organization(owner, members, tokens), actor) { return Err(Forbidden); }
      if user !in members { return Err(NotFound); }
      if (members[user].Owner? || role.Owner?) && !members[actor].Owner? { return Err(Forbidden); }
      if members[user] == role { return Err(Conflict); }
      var transfer := TransferOwner(user, role.Owner?);
      if transfer.Err? { return Err(Conflict); }
      members := members[user := role];
      tokens := RevokeIn(tokens, Live(Organization(owner, members, tokens), user), at);
      DemotionRuns(org, job);
      return Ok(());
    }

    method RemoveMember(actor: User, user: User, at: Time) returns (r: Result<(), Failure>)
      modifies this
      ensures r.Ok? <==> Perform(old(View()), Job.RemoveMember(actor, user, at), true) == Some(View())
      ensures r.Err? ==> Check(old(View()), Job.RemoveMember(actor, user, at), true) == Err(r.error)
      ensures r.Err? ==> View() == old(View())
    {
      ghost var org, job := View(), Job.RemoveMember(actor, user, at);
      if !IsAdmin(Organization(owner, members, tokens), actor) { return Err(Forbidden); }
      if user !in members { return Err(NotFound); }
      if members[user].Owner? && !members[actor].Owner? { return Err(Forbidden); }
      var transfer := TransferOwner(user, false);
      if transfer.Err? { return Err(Conflict); }
      tokens := RevokeIn(tokens, Live(Organization(owner, members, tokens), user), at);
      members := members - {user};
      DemotionRuns(org, job);
      return Ok(());
    }

    method AddMember(actor: User, user: User, role: Role, maxSeats: Option<nat>, known: bool)
      returns (r: Result<(), Failure>)
      modifies this
      ensures var job := Job.AddMember(actor, user, role, maxSeats);
              && (r.Ok? <==> Perform(old(View()), job, known) == Some(View()))
              && (r.Err? ==> View() == old(View()) && Perform(View(), job, known).None?)
      ensures r == Err(Conflict) <==>
                && MayManage(old(View()), actor) && (role.Owner? ==> IsOwnerMember(old(View()), actor)) && known
                && user in old(members)
      ensures r == Err(SeatLimit) <==>
                && MayManage(old(View()), actor) && (role.Owner? ==> IsOwnerMember(old(View()), actor)) && known
                && user !in old(members) && maxSeats.Some? && |old(members)| >= maxSeats.value
    {
      ghost var org := View();
      if !IsAdmin(Organization(owner, members, tokens), actor) { return Err(Forbidden); }
      if role.Owner? && !members[actor].Owner? { return Err(Forbidden); }
      if !known { return Err(NotFound); }
      if maxSeats.Some? && user !in members && |members| >= maxSeats.value { return Err(SeatLimit); }
      assert Execute(org, Job.AddMember(actor, user, role, maxSeats), None, 0) == Some(org);
      if user in members { return Err(Conflict); }
      members := members[user := role];
      return Ok(());
    }

    method IssueToken(actor: User, id: TokenId, active: bool) returns (r: Result<(), Failure>)
      requires id !in tokens
      modifies this
      ensures r.Ok? <==> active && IsAdmin(old(View()), actor)
      ensures r.Ok? ==> Perform(old(View()), Job.IssueToken(actor, id), active) == Some(View())
      ensures r.Err? ==> View() == old(View()) && r.error == PermissionDenied
    {
      ghost var org := View();
      if !active || !IsAdmin(Organization(owner, members, tokens), actor) { return Err(PermissionDenied); }
      assert Execute(org, Job.IssueToken(actor, id), None, 0) == Some(org);
      tokens := tokens[id := Token(actor, None)];
      return Ok(());
    }

    method RevokeForSubject(actor: User, user: User, at: Time, active: bool) returns (r: Result<nat, Failure>)
      modifies this
      ensures r.Ok? <==> Perform(old(View()), Job.RevokeForSubject(actor, user, at), active) == Some(View())
      ensures r.Ok? ==>
                r.value == |set id | id in old(tokens) && old(tokens)[id].subject == user && old(tokens)[id].revokedAt.None?|
      ensures r.Ok? ==> AllRevoked(View(), user)
      ensures r.Err? ==> View() == old(View())
    {
      ghost var org := View();
      if !active || !IsAdmin(Organization(owner, members, tokens), actor) { return Err(PermissionDenied); }
      assert Execute(org, Job.RevokeForSubject(actor, user, at), None, 0) == Some(org);
      var live := Live(Organization(owner, members, tokens), user);
      tokens := RevokeIn(tokens, live, at);
      return Ok(|live|);
    }
  }

  /** Once its checks pass, a role change or removal goes through. */
  lemma DemotionRuns(org: Organization, job: Job)
    requires (job.UpdateMemberRole? || job.RemoveMember?) && Check(org, job, true).Ok?
    ensures var transfer := Check(org, job, true).value;
            Perform(org, job, true) == Some(Organization(
              if transfer.Some? then transfer.value else org.owner,
              if job.UpdateMemberRole? then org.members[job.user := job.role] else org.members - {job.user},
              RevokeIn(org.tokens, Live(org, job.user), job.at)))
  {
    var transfer := Check(org, job, true).value;
    var n := Steps(job, transfer);
    assert Execute(org, job, transfer, 0) == Some(org);
    if transfer.Some? {
      ReplacementIsOwner(org, job.user);
      assert Execute(org, job, transfer, 1).Some?;
    }
    assert Execute(org, job, transfer, n - 1).Some?;
    DemotionIs(org, job, true);
  }

  // ---- any interleaving ----

  type Tid = nat

  datatype Phase =
    | Start
    | Locked
    | OwnerRead(owner: User)
    | Checked(known: bool, transfer: Option<User>, done: nat)
    | Finished

  /** `read`, `checked` and `since` count the commits before the organization row was read, before the checks were
      complete, and before the last statement. */
  datatype Txn = Txn(job: Job, phase: Phase, pending: seq<Write>, read: nat, checked: nat, since: nat)

  datatype Commit = Commit(
    job: Job, known: bool, read: nat, checked: nat, since: nat, before: Organization, after: Organization)

  /** `org` is committed; `lock` is the lock on the organization row. */
  datatype State = State(org: Organization, lock: Option<Tid>, txns: map<Tid, Txn>, history: seq<Commit>)

  datatype Action =
    | Begin(job: Job)
    | LockOrganization | ReadOrganization
    | Decide(known: bool) | Next
    | CommitWork | Abort

  /** Every transaction of the services locks the organization row first; the operator's bootstrap token is
      issued without it. */
  predicate Locks(job: Job) { !job.BootstrapToken? }

  function With(s: State, t: Tid, txn: Txn): State { s.(txns := s.txns[t := txn]) }

  /** What a statement of a transaction sees: the committed rows with its own writes. */
  function Seen(s: State, txn: Txn): Organization { ApplyAll(s.org, txn.pending) }

  function Unlock(s: State, t: Tid): State { if s.lock == Some(t) then s.(lock := None) else s }

  /** The token ids that uncommitted writes hold in the unique index. */
  function Claimed(writes: seq<Write>): set<TokenId> { set w | w in writes && w.InsertToken? :: w.id }

  predicate Active(s: State, t: Tid) { t in s.txns && !s.txns[t].phase.Finished? }

  /** No other transaction under way has claimed the id; otherwise the statement waits. */
  predicate Unclaimed(s: State, t: Tid, w: Write) {
    w.InsertToken? ==> forall u | u in s.txns && u != t :: Active(s, u) ==> w.id !in Claimed(s.txns[u].pending)
  }

  ghost function Do(s: State, t: Tid, a: Action): Option<State> {
    if a.Begin? then
      if t in s.txns then None else Some(With(s, t, Txn(a.job, Start, [], 0, 0, 0)))
    else if !Active(s, t) then None
    else
      var txn := s.txns[t];
      match a
      case LockOrganization =>
        if txn.phase.Start? && Locks(txn.job) && s.lock.None?
        then Some(With(s, t, txn.(phase := Locked)).(lock := Some(t))) else None
      case ReadOrganization =>
        if txn.phase.Start? && !Locks(txn.job)
        then Some(With(s, t, txn.(phase := OwnerRead(s.org.owner), read := |s.history|))) else None
      case Decide(known) =>
        if txn.phase.Locked? || txn.phase.OwnerRead?
        then
          var checked := Check(CheckedRows(s, txn), txn.job, known);
          if checked.Ok?
          then Some(With(s, t, Cleared(txn, Checked(known, checked.value, 0), |s.history|))) else None
        else None
      case Next =>
        if txn.phase.Checked? && txn.phase.done < Steps(txn.job, txn.phase.transfer)
        then
          var w := Statement(txn.job, txn.phase.transfer, txn.phase.done, Seen(s, txn));
          if w.Some? && Unclaimed(s, t, w.value) then Some(With(s, t, After(txn, w.value, |s.history|))) else None
        else None
      case CommitWork =>
        // Without the lock, the foreign key of an inserted token still waits for whoever holds it.
        if && txn.phase.Checked? && txn.phase.done == Steps(txn.job, txn.phase.transfer)
           && (Locks(txn.job) || s.lock.None?)
        then
          Some(With(Unlock(s, t), t, txn.(phase := Finished))
               .(org := Seen(s, txn), history := s.history + [CommitOf(s, txn)]))
        else None
      case Abort => Some(With(Unlock(s, t), t, txn.(phase := Finished)))
  }

  function CommitOf(s: State, txn: Txn): Commit
    requires txn.phase.Checked?
  {
    Commit(txn.job, txn.phase.known, txn.read, txn.checked, txn.since, s.org, Seen(s, txn))
  }

  /** What the checks go by: without the lock, the owner pointer may have been read earlier than the members. */
  function CheckedRows(s: State, txn: Txn): Organization {
    if txn.phase.OwnerRead? then Seen(s, txn).(owner := txn.phase.owner) else Seen(s, txn)
  }

  function Cleared(txn: Txn, phase: Phase, now: nat): Txn {
    txn.(phase := phase, checked := now, read := if txn.phase.OwnerRead? then txn.read else now)
  }

  function After(txn: Txn, w: Write, since: nat): Txn
    requires txn.phase.Checked?
  {
    Txn(txn.job, txn.phase.(done := txn.phase.done + 1), txn.pending + [w], txn.read, txn.checked, since)
  }

  ghost function Run(s: State, schedule: seq<(Tid, Action)>): State
    decreases |schedule|
  {
    if |schedule| == 0 then s else
    var n := |schedule| - 1;
    var before := Run(s, schedule[..n]);
    var step := Do(before, schedule[n].0, schedule[n].1);
    if step.Some? then step.value else before
  }

  function Committed(initial: Organization, history: seq<Commit>, k: nat): Organization
    requires k <= |history|
  {
    if k == 0 then initial else history[k - 1].after
  }

  /** Commit `k` builds on the one before it: a transaction with the lock is what it would have been alone, its
      checks and statements included; a bootstrap token adds its row, for whom it has seen as the owner, as one of the
      owner members, and as a member, one after the other. */
  ghost predicate SerialAt(initial: Organization, history: seq<Commit>, k: nat)
    requires k < |history|
  {
    var c := history[k];
    && c.before == Committed(initial, history, k)
    && c.read <= c.checked <= c.since <= k
    && (Locks(c.job) ==> c.read == k && Perform(c.before, c.job, c.known) == Some(c.after))
    && (!Locks(c.job) ==>
          && Committed(initial, history, c.read).owner == c.job.user
          && IsOwner(Committed(initial, history, c.checked), c.job.user)
          && c.job.user in Committed(initial, history, c.since).members
          && c.job.id !in c.before.tokens
          && c.after == ApplyWrite(c.before, InsertToken(c.job.id, c.job.user)))
  }

  ghost predicate Serial(initial: Organization, history: seq<Commit>) {
    forall k | 0 <= k < |history| :: SerialAt(initial, history, k)
  }

  /** What a transaction with the lock has done is what it would have done alone on the committed rows. */
  ghost predicate LockedOk(s: State, t: Tid)
    requires t in s.txns
  {
    var txn := s.txns[t];
    && !txn.phase.OwnerRead?
    && (txn.phase.Start? || txn.phase.Locked? ==> txn.pending == [])
    && (txn.phase.Locked? || txn.phase.Checked? ==> s.lock == Some(t))
    && (txn.phase.Checked? ==>
          && Check(s.org, txn.job, txn.phase.known) == Ok(txn.phase.transfer)
          && txn.phase.done <= Steps(txn.job, txn.phase.transfer)
          && Execute(s.org, txn.job, txn.phase.transfer, txn.phase.done) == Some(Seen(s, txn))
          && txn.read == txn.checked == |s.history|
          && (txn.phase.done > 0 ==> txn.since == |s.history|))
  }

  /** A bootstrap token has at most its one row pending, for an owner and member that it saw. */
  ghost predicate UnlockedOk(initial: Organization, s: State, t: Tid)
    requires t in s.txns && s.txns[t].job.BootstrapToken?
  {
    var txn := s.txns[t];
    && !txn.phase.Locked?
    && (txn.phase.Start? || txn.phase.OwnerRead? ==> txn.pending == [])
    && (txn.phase.OwnerRead? ==>
          txn.read <= |s.history| && txn.phase.owner == Committed(initial, s.history, txn.read).owner)
    && (txn.phase.Checked? ==>
          && txn.phase.transfer == None
          && txn.phase.done <= 1
          && txn.pending == (if txn.phase.done == 0 then [] else [InsertToken(txn.job.id, txn.job.user)])
          && txn.read <= txn.checked <= |s.history|
          && Committed(initial, s.history, txn.read).owner == txn.job.user
          && IsOwner(Committed(initial, s.history, txn.checked), txn.job.user)
          && (txn.phase.done == 1 ==>
                && txn.checked <= txn.since <= |s.history|
                && txn.job.user in Committed(initial, s.history, txn.since).members))
  }

  ghost predicate TxnOk(initial: Organization, s: State, t: Tid)
    requires t in s.txns
  {
    && (if Locks(s.txns[t].job) then LockedOk(s, t) else UnlockedOk(initial, s, t))
    && (Active(s, t) ==> Claimed(s.txns[t].pending) !! s.org.tokens.Keys)
  }

  predicate Apart(s: State, t: Tid, u: Tid)
    requires t in s.txns && u in s.txns
  {
    t != u && Active(s, t) && Active(s, u) ==> Claimed(s.txns[t].pending) !! Claimed(s.txns[u].pending)
  }

  ghost predicate Inv(initial: Organization, s: State) {
    && s.org == Committed(initial, s.history, |s.history|)
    && Serial(initial, s.history)
    && (forall t | t in s.txns :: TxnOk(initial, s, t))
    && (forall t, u | t in s.txns && u in s.txns :: Apart(s, t, u))
  }

  lemma AppendApplies(org: Organization, writes: seq<Write>, w: Write)
    ensures ApplyAll(org, writes + [w]) == ApplyWrite(ApplyAll(org, writes), w)
  {
    assert (writes + [w])[..|writes|] == writes;
  }

  lemma ClaimsAppend(writes: seq<Write>, w: Write)
    ensures Claimed(writes + [w]) == Claimed(writes) + if w.InsertToken? then {w.id} else {}
  {
    forall id | id in Claimed(writes) + (if w.InsertToken? then {w.id} else {})
      ensures id in Claimed(writes + [w])
    {
      if w.InsertToken? && id == w.id {
        assert w in writes + [w];
      } else {
        var v :| v in writes && v.InsertToken? && v.id == id;
        assert v in writes + [w];
      }
    }
  }

  /** Statements add exactly the ids they claim. */
  lemma {:induction false} ApplyAddsClaims(org: Organization, writes: seq<Write>)
    ensures ApplyAll(org, writes).tokens.Keys == org.tokens.Keys + Claimed(writes)
    decreases |writes|
  {
    if |writes| > 0 {
      var n := |writes| - 1;
      ApplyAddsClaims(org, writes[..n]);
      ClaimsAppend(writes[..n], writes[n]);
      assert writes[..n] + [writes[n]] == writes;
      var before := ApplyAll(org, writes[..n]);
      assert ApplyWrite(before, writes[n]).tokens.Keys
          == before.tokens.Keys + if writes[n].InsertToken? then {writes[n].id} else {};
    }
  }

  lemma SerialExtends(initial: Organization, history: seq<Commit>, c: Commit)
    requires Serial(initial, history) && SerialAt(initial, history + [c], |history|)
    ensures Serial(initial, history + [c])
  {
    var longer := history + [c];
    forall k | 0 <= k < |longer| ensures SerialAt(initial, longer, k) {
      if k < |history| {
        assert SerialAt(initial, history, k) && longer[k] == history[k];
        SameCommitted(initial, history, c, k);
        SameCommitted(initial, history, c, history[k].since);
        SameCommitted(initial, history, c, history[k].checked);
        SameCommitted(initial, history, c, history[k].read);
      }
    }
  }

  lemma SameCommitted(initial: Organization, history: seq<Commit>, c: Commit, k: nat)
    requires k <= |history|
    ensures Committed(initial, history + [c], k) == Committed(initial, history, k)
  {
  }

  lemma LockedCommit(initial: Organization, s: State, t: Tid)
    requires s.org == Committed(initial, s.history, |s.history|)
    requires Do(s, t, CommitWork).Some? && Locks(s.txns[t].job) && LockedOk(s, t)
    ensures SerialAt(initial, s.history + [CommitOf(s, s.txns[t])], |s.history|)
  {
    var txn := s.txns[t];
    SameCommitted(initial, s.history, CommitOf(s, txn), |s.history|);
    assert Perform(s.org, txn.job, txn.phase.known) == Some(Seen(s, txn));
  }

  lemma OneInsertion(org: Organization, id: TokenId, user: User)
    ensures ApplyAll(org, [InsertToken(id, user)]) == ApplyWrite(org, InsertToken(id, user))
    ensures id in Claimed([InsertToken(id, user)])
  {
    var w := InsertToken(id, user);
    AppendApplies(org, [], w);
    assert [] + [w] == [w];
    assert w in [w];
  }

  lemma UnlockedCommit(initial: Organization, s: State, t: Tid)
    requires s.org == Committed(initial, s.history, |s.history|)
    requires Do(s, t, CommitWork).Some? && !Locks(s.txns[t].job) && UnlockedOk(initial, s, t)
    requires Claimed(s.txns[t].pending) !! s.org.tokens.Keys
    ensures SerialAt(initial, s.history + [CommitOf(s, s.txns[t])], |s.history|)
  {
    var txn := s.txns[t];
    var c := CommitOf(s, txn);
    SameCommitted(initial, s.history, c, |s.history|);
    SameCommitted(initial, s.history, c, txn.since);
    SameCommitted(initial, s.history, c, txn.checked);
    SameCommitted(initial, s.history, c, txn.read);
    OneInsertion(s.org, txn.job.id, txn.job.user);
  }

  lemma CommitIsSerial(initial: Organization, s: State, t: Tid)
    requires Inv(initial, s) && Do(s, t, CommitWork).Some?
    ensures Serial(initial, Do(s, t, CommitWork).value.history)
  {
    assert TxnOk(initial, s, t);
    if Locks(s.txns[t].job) { LockedCommit(initial, s, t); } else { UnlockedCommit(initial, s, t); }
    SerialExtends(initial, s.history, CommitOf(s, s.txns[t]));
  }

  /** The transaction that steps stays in order, */
  lemma StepKeepsOwn(initial: Organization, s: State, t: Tid, a: Action)
    requires Inv(initial, s) && Do(s, t, a).Some?
    ensures TxnOk(initial, Do(s, t, a).value, t)
  {
    if t in s.txns {
      assert TxnOk(initial, s, t);
      if a.Next? {
        if Locks(s.txns[t].job) { LockedGoesOn(s, t); } else { UnlockedGoesOn(initial, s, t); }
        StatementClaims(s, t);
      }
    }
  }

  lemma LockedGoesOn(s: State, t: Tid)
    requires Do(s, t, Next).Some? && Locks(s.txns[t].job) && LockedOk(s, t)
    ensures LockedOk(Do(s, t, Next).value, t)
  {
    var txn := s.txns[t];
    var w := Statement(txn.job, txn.phase.transfer, txn.phase.done, Seen(s, txn)).value;
    AppendApplies(s.org, txn.pending, w);
    assert Execute(s.org, txn.job, txn.phase.transfer, txn.phase.done + 1) == Some(ApplyWrite(Seen(s, txn), w));
  }

  lemma UnlockedGoesOn(initial: Organization, s: State, t: Tid)
    requires s.org == Committed(initial, s.history, |s.history|)
    requires Do(s, t, Next).Some? && !Locks(s.txns[t].job) && UnlockedOk(initial, s, t)
    ensures UnlockedOk(initial, Do(s, t, Next).value, t)
  {
  }

  lemma StatementClaims(s: State, t: Tid)
    requires Do(s, t, Next).Some? && Claimed(s.txns[t].pending) !! s.org.tokens.Keys
    ensures Claimed(Do(s, t, Next).value.txns[t].pending) !! s.org.tokens.Keys
  {
    var txn := s.txns[t];
    ClaimsAppend(txn.pending, Statement(txn.job, txn.phase.transfer, txn.phase.done, Seen(s, txn)).value);
    ApplyAddsClaims(s.org, txn.pending);
  }

  /** so does every other, */
  lemma StepKeepsOther(initial: Organization, s: State, t: Tid, a: Action, u: Tid)
    requires Inv(initial, s) && Do(s, t, a).Some? && u in s.txns && u != t
    ensures TxnOk(initial, Do(s, t, a).value, u)
  {
    assert TxnOk(initial, s, u);
    if a.CommitWork? {
      assert TxnOk(initial, s, t) && Apart(s, t, u);
      CommitKeepsOther(initial, s, t, u);
    } else {
      QuietStep(s, t, a, u);
      QuietKeepsOther(initial, s, Do(s, t, a).value, u);
    }
  }

  lemma QuietStep(s: State, t: Tid, a: Action, u: Tid)
    requires Do(s, t, a).Some? && !a.CommitWork? && u in s.txns && u != t
    ensures Undisturbed(s, Do(s, t, a).value, u)
  {
  }

  /** Nothing was committed, and the transaction has not moved or lost the lock. */
  predicate Undisturbed(s: State, s': State, u: Tid) {
    && s'.org == s.org && s'.history == s.history
    && u in s.txns && u in s'.txns && s'.txns[u] == s.txns[u]
    && (s.lock == Some(u) ==> s'.lock == Some(u))
  }

  lemma QuietKeepsOther(initial: Organization, s: State, s': State, u: Tid)
    requires Undisturbed(s, s', u) && TxnOk(initial, s, u)
    ensures TxnOk(initial, s', u)
  {
  }

  lemma CommitKeepsOther(initial: Organization, s: State, t: Tid, u: Tid)
    requires Do(s, t, CommitWork).Some? && u in s.txns && u != t
    requires TxnOk(initial, s, t) && TxnOk(initial, s, u) && Apart(s, t, u)
    ensures TxnOk(initial, Do(s, t, CommitWork).value, u)
  {
    var s' := Do(s, t, CommitWork).value;
    ApplyAddsClaims(s.org, s.txns[t].pending);
    if !Locks(s.txns[u].job) { UnlockedStays(initial, s, s', CommitOf(s, s.txns[t]), u); }
  }

  /** A longer history still has what an unlocked transaction has seen. */
  lemma UnlockedStays(initial: Organization, s: State, s': State, c: Commit, u: Tid)
    requires u in s.txns && u in s'.txns && s'.txns[u] == s.txns[u] && s'.history == s.history + [c]
    requires s.txns[u].job.BootstrapToken? && UnlockedOk(initial, s, u)
    ensures UnlockedOk(initial, s', u)
  {
    var txn := s.txns[u];
    if txn.phase.OwnerRead? || txn.phase.Checked? { SameCommitted(initial, s.history, c, txn.read); }
    if txn.phase.Checked? {
      SameCommitted(initial, s.history, c, txn.checked);
      if txn.phase.done == 1 { SameCommitted(initial, s.history, c, txn.since); }
    }
  }

  /** and no two claim the same id. */
  lemma StepKeepsApart(initial: Organization, s: State, t: Tid, a: Action, u: Tid)
    requires Inv(initial, s) && Do(s, t, a).Some? && u in s.txns
    ensures Apart(Do(s, t, a).value, t, u) && Apart(Do(s, t, a).value, u, t)
  {
    if t in s.txns {
      var txn := s.txns[t];
      assert Apart(s, t, u);
      if a.Next? {
        ClaimsAppend(txn.pending, Statement(txn.job, txn.phase.transfer, txn.phase.done, Seen(s, txn)).value);
      }
    }
  }

  lemma StepKeepsInv(initial: Organization, s: State, t: Tid, a: Action)
    requires Inv(initial, s) && Do(s, t, a).Some?
    ensures Inv(initial, Do(s, t, a).value)
  {
    var s' := Do(s, t, a).value;
    if a.CommitWork? { CommitIsSerial(initial, s, t); }
    forall u | u in s'.txns ensures TxnOk(initial, s', u) {
      if u == t { StepKeepsOwn(initial, s, t, a); } else { StepKeepsOther(initial, s, t, a, u); }
    }
    forall u, v | u in s'.txns && v in s'.txns ensures Apart(s', u, v) {
      if u == t && v != t {
        StepKeepsApart(initial, s, t, a, v);
      } else if v == t && u != t {
        StepKeepsApart(initial, s, t, a, u);
      } else if u != v {
        assert Apart(s, u, v);
      }
    }
  }

  lemma {:induction false} RunKeepsInv(s: State, schedule: seq<(Tid, Action)>)
    requires s.txns == map[] && s.history == []
    ensures Inv(s.org, Run(s, schedule))
    decreases |schedule|
  {
    if |schedule| > 0 {
      var n := |schedule| - 1;
      RunKeepsInv(s, schedule[..n]);
      var before := Run(s, schedule[..n]);
      if Do(before, schedule[n].0, schedule[n].1).Some? {
        StepKeepsInv(s.org, before, schedule[n].0, schedule[n].1);
      }
    }
  }

  /** Every interleaving, aborts included, commits one transaction after the other on the rows the last one left. */
  lemma CommitsAreSerial(s: State, schedule: seq<(Tid, Action)>)
    requires s.txns == map[] && s.history == []
    ensures var t := Run(s, schedule);
            && t.org == Committed(s.org, t.history, |t.history|)
            && Serial(s.org, t.history)
  {
    RunKeepsInv(s, schedule);
  }

  /** A commit never loses a token, changes its subject or revives it. */
  lemma CommitFollows(initial: Organization, history: seq<Commit>, k: nat)
    requires Serial(initial, history) && k < |history|
    ensures TokensFollow(Committed(initial, history, k).tokens, history[k].after.tokens)
  {
    assert SerialAt(initial, history, k);
    var c := history[k];
    if Locks(c.job) {
      PerformKeeps(c.before, c.job, c.known);
    } else {
      WriteFollows(c.before, InsertToken(c.job.id, c.job.user));
    }
  }

  lemma {:induction false} RevokedForGood(initial: Organization, history: seq<Commit>, i: nat, k: nat, id: TokenId)
    requires Serial(initial, history) && i <= k <= |history|
    requires id in Committed(initial, history, i).tokens && Committed(initial, history, i).tokens[id].revokedAt.Some?
    ensures id in Committed(initial, history, k).tokens
    ensures Committed(initial, history, k).tokens[id] == Committed(initial, history, i).tokens[id]
    decreases k
  {
    if i < k {
      RevokedForGood(initial, history, i, k - 1, id);
      CommitFollows(initial, history, k - 1);
    }
  }

  lemma DemotionRevokes(initial: Organization, history: seq<Commit>, i: nat, user: User)
    requires Serial(initial, history) && i < |history| && Demotes(history[i].job, user)
    ensures AllRevoked(history[i].after, user)
    ensures Committed(initial, history, i + 1) == history[i].after
  {
    assert SerialAt(initial, history, i);
    PerformKeeps(history[i].before, history[i].job, history[i].known);
  }

  /** After a role change or a removal commits, no token its subject had then is ever live again. */
  lemma DemotionRevokesForGood(s: State, schedule: seq<(Tid, Action)>, i: nat, k: nat, user: User, id: TokenId)
    requires s.txns == map[] && s.history == []
    requires i < k <= |Run(s, schedule).history| && Demotes(Run(s, schedule).history[i].job, user)
    requires var at := Run(s, schedule).history[i].after; id in at.tokens && at.tokens[id].subject == user
    ensures var later := Committed(s.org, Run(s, schedule).history, k);
            id in later.tokens && later.tokens[id].revokedAt.Some?
  {
    CommitsAreSerial(s, schedule);
    DemotionRevokes(s.org, Run(s, schedule).history, i, user);
    RevokedForGood(s.org, Run(s, schedule).history, i + 1, k, id);
  }

  /** An addition with a seat limit commits within it, whatever runs beside it. */
  lemma AdditionsFitSeats(s: State, schedule: seq<(Tid, Action)>, k: nat)
    requires s.txns == map[] && s.history == []
    requires k < |Run(s, schedule).history|
    ensures var c := Run(s, schedule).history[k];
            && (c.job.AddMember? && c.job.maxSeats.Some? ==> |c.after.members| <= c.job.maxSeats.value)
            && (!c.job.AddMember? ==> |c.after.members| <= |c.before.members|)
  {
    CommitsAreSerial(s, schedule);
    var c := Run(s, schedule).history[k];
    assert SerialAt(s.org, Run(s, schedule).history, k);
    if Locks(c.job) { PerformKeeps(c.before, c.job, c.known); }
  }

  // ---- a transaction that nobody disturbs ----

  ghost function Moved(s: State, t: Tid, a: Action): State {
    var step := Do(s, t, a);
    if step.Some? then step.value else s
  }

  /** The statements of a transaction one after the other; one that cannot go on is passed over. */
  ghost function Alone(s: State, t: Tid, job: Job, known: bool): State {
    var begun := Moved(s, t, Begin(job));
    var open := Moved(begun, t, if job.BootstrapToken? then ReadOrganization else LockOrganization);
    var checked := Moved(open, t, Decide(known));
    Moved(Moved(Moved(Moved(checked, t, Next), t, Next), t, Next), t, CommitWork)
  }

  /** The transaction has done `k` statements on the organization as it was, and nobody else is under way. */
  ghost predicate Going(s: State, t: Tid, job: Job, known: bool, transfer: Option<User>, k: nat, now: State) {
    && k <= Steps(job, transfer)
    && now.org == s.org && Active(now, t) && (forall u | u != t :: !Active(now, u))
    && now.txns[t].job == job && now.txns[t].phase == Checked(known, transfer, k)
    && now.lock == (if Locks(job) then Some(t) else None)
    && Execute(s.org, job, transfer, k) == Some(Seen(now, now.txns[t]))
  }

  lemma StartsGoing(s: State, t: Tid, job: Job, known: bool)
    requires t !in s.txns && s.lock.None? && forall u :: !Active(s, u)
    ensures var begun := Moved(s, t, Begin(job));
            var open := Moved(begun, t, if job.BootstrapToken? then ReadOrganization else LockOrganization);
            var checked := Moved(open, t, Decide(known));
            if Check(s.org, job, known).Ok?
            then Going(s, t, job, known, Check(s.org, job, known).value, 0, checked)
            else t in checked.txns && !checked.txns[t].phase.Checked? && checked.org == s.org
  {
    var begun := Moved(s, t, Begin(job));
    var open := Moved(begun, t, if job.BootstrapToken? then ReadOrganization else LockOrganization);
    assert CheckedRows(open, open.txns[t]) == s.org;
    forall u | u != t ensures !Active(Moved(open, t, Decide(known)), u) { assert !Active(s, u); }
  }

  lemma GoesOn(s: State, t: Tid, job: Job, known: bool, transfer: Option<User>, k: nat, now: State)
    requires Going(s, t, job, known, transfer, k, now)
    ensures if k < Steps(job, transfer) && Execute(s.org, job, transfer, k + 1).Some?
            then Going(s, t, job, known, transfer, k + 1, Moved(now, t, Next))
            else Moved(now, t, Next) == now
  {
    if k < Steps(job, transfer) {
      var txn := now.txns[t];
      var w := Statement(job, transfer, k, Seen(now, txn));
      if w.Some? {
        AppendApplies(now.org, txn.pending, w.value);
        assert Unclaimed(now, t, w.value) by { assert forall u | u != t :: !Active(now, u); }
        var next := Moved(now, t, Next);
        assert next.txns[t] == After(txn, w.value, |now.history|);
        forall u | u != t ensures !Active(next, u) { assert !Active(now, u); }
      }
    }
  }

  lemma GoingCommits(s: State, t: Tid, job: Job, known: bool, transfer: Option<User>, k: nat, now: State)
    requires Going(s, t, job, known, transfer, k, now)
    ensures Moved(now, t, CommitWork).org
         == if k == Steps(job, transfer) then Execute(s.org, job, transfer, k).value else s.org
  {
  }

  lemma StuckStays(now: State, t: Tid)
    requires t in now.txns && !now.txns[t].phase.Checked?
    ensures Moved(now, t, Next) == now && Moved(now, t, CommitWork) == now
  {
  }

  lemma {:induction false} FailsForGood(org: Organization, job: Job, transfer: Option<User>, k: nat, n: nat)
    requires k <= n <= Steps(job, transfer) && Execute(org, job, transfer, k).None?
    ensures Execute(org, job, transfer, n).None?
  {
    if k < n { FailsForGood(org, job, transfer, k, n - 1); }
  }

  /** Three more statements finish a transaction that can be finished, or leave it where it fails. */
  lemma Finishes(s: State, t: Tid, job: Job, known: bool, transfer: Option<User>, now: State)
    returns (k: nat, last: State)
    requires Going(s, t, job, known, transfer, 0, now)
    ensures last == Moved(Moved(Moved(now, t, Next), t, Next), t, Next) && Going(s, t, job, known, transfer, k, last)
    ensures k == Steps(job, transfer) <==> Execute(s.org, job, transfer, Steps(job, transfer)).Some?
  {
    k, last := 0, now;
    var n := Steps(job, transfer);
    k, last := OneOn(s, t, job, known, transfer, k, last);
    k, last := OneOn(s, t, job, known, transfer, k, last);
    k, last := OneOn(s, t, job, known, transfer, k, last);
    if k < n { FailsForGood(s.org, job, transfer, k + 1, n); }
  }

  lemma OneOn(s: State, t: Tid, job: Job, known: bool, transfer: Option<User>, k: nat, now: State)
    returns (k': nat, next: State)
    requires Going(s, t, job, known, transfer, k, now)
    ensures next == Moved(now, t, Next) && Going(s, t, job, known, transfer, k', next)
    ensures k' == if k < Steps(job, transfer) && Execute(s.org, job, transfer, k + 1).Some? then k + 1 else k
  {
    GoesOn(s, t, job, known, transfer, k, now);
    next := Moved(now, t, Next);
    k' := if k < Steps(job, transfer) && Execute(s.org, job, transfer, k + 1).Some? then k + 1 else k;
  }

  /** With nobody else under way, a transaction commits what it amounts to, or changes nothing. */
  lemma AloneGoesThrough(s: State, t: Tid, job: Job, known: bool)
    requires t !in s.txns && s.lock.None? && forall u :: !Active(s, u)
    ensures Alone(s, t, job, known).org
         == if Perform(s.org, job, known).Some? then Perform(s.org, job, known).value else s.org
  {
    var begun := Moved(s, t, Begin(job));
    var open := Moved(begun, t, if job.BootstrapToken? then ReadOrganization else LockOrganization);
    var checked := Moved(open, t, Decide(known));
    StartsGoing(s, t, job, known);
    var transfer := Check(s.org, job, known);
    if transfer.Ok? {
      var k, last := Finishes(s, t, job, known, transfer.value, checked);
      GoingCommits(s, t, job, known, transfer.value, k, last);
    } else {
      StuckStays(checked, t);
    }
  }

  // ---- the one writer that takes no lock ----

  function RoleOf(org: Organization, user: User): Option<Role> {
    if user in org.members then Some(org.members[user]) else None
  }

  predicate Inserts(job: Job, id: TokenId) { (job.IssueToken? || job.BootstrapToken?) && job.id == id }

  /** From where on a token has to stay in order: from the read of the owner pointer, from the checks of its
      transaction, or from its statement. */
  datatype Mark = AtRead | AtChecks | AtStatement

  function From(c: Commit, mark: Mark): nat {
    match mark case AtRead => c.read case AtChecks => c.checked case AtStatement => c.since
  }

  /** How many commits a token's issue came after; a token from before the run counts as 0. */
  function IssuedAfter(history: seq<Commit>, k: nat, id: TokenId, mark: Mark): nat
    requires k <= |history|
  {
    if k == 0 then 0
    else if Inserts(history[k - 1].job, id) then From(history[k - 1], mark)
    else IssuedAfter(history, k - 1, id, mark)
  }

  ghost predicate SameRole(initial: Organization, history: seq<Commit>, user: User, i: nat, k: nat)
    requires i <= |history| && k <= |history|
  {
    && user in Committed(initial, history, k).members
    && RoleOf(Committed(initial, history, i), user) == RoleOf(Committed(initial, history, k), user)
  }

  /** The user was a member all the time from commit `i` to commit `k`, in one role. */
  ghost predicate Steady(initial: Organization, history: seq<Commit>, user: User, i: nat, k: nat)
    requires i <= k <= |history|
  {
    forall m | i <= m <= k :: SameRole(initial, history, user, i, m)
  }

  ghost predicate LiveAt(initial: Organization, history: seq<Commit>, k: nat, id: TokenId)
    requires k <= |history|
  {
    id in Committed(initial, history, k).tokens && Committed(initial, history, k).tokens[id].revokedAt.None?
  }

  /** The token's subject has kept the role in which the token was issued. */
  ghost predicate InRole(initial: Organization, history: seq<Commit>, k: nat, id: TokenId, mark: Mark)
    requires k <= |history| && LiveAt(initial, history, k, id)
  {
    && IssuedAfter(history, k, id, mark) <= k
    && Steady(initial, history, Committed(initial, history, k).tokens[id].subject, IssuedAfter(history, k, id, mark), k)
  }

  ghost predicate OrderlyAt(initial: Organization, history: seq<Commit>, k: nat, mark: Mark)
    requires k <= |history|
  {
    && OrgOk(Committed(initial, history, k))
    && forall id | LiveAt(initial, history, k, id) :: InRole(initial, history, k, id, mark)
  }

  ghost predicate OrderlyUpTo(initial: Organization, history: seq<Commit>, n: nat, mark: Mark)
    requires n <= |history|
  {
    forall k | 0 <= k <= n :: OrderlyAt(initial, history, k, mark)
  }

  /** In every durable state the owner pointer names an owner, only members have live tokens, and a live token's
      subject was neither removed nor given another role since the token was issued. */
  ghost predicate Orderly(initial: Organization, history: seq<Commit>, mark: Mark) {
    OrderlyUpTo(initial, history, |history|, mark)
  }

  /** A role change or removal of the subject committed between the checks or the statement of a bootstrap token and
      its commit. */
  ghost predicate Overtaken(history: seq<Commit>, k: nat, mark: Mark)
    requires k < |history|
  {
    var c := history[k];
    !Locks(c.job) && exists i | From(c, mark) <= i < k :: Demotes(history[i].job, c.job.user)
  }

  ghost predicate NoneOvertaken(history: seq<Commit>, mark: Mark) {
    forall k | 0 <= k < |history| :: !Overtaken(history, k, mark)
  }

  /** Roles of members change by role changes and removals only, and by each of them. */
  lemma PerformRoles(org: Organization, job: Job, known: bool, user: User)
    requires Perform(org, job, known).Some? && user in org.members
    ensures RoleOf(Perform(org, job, known).value, user) == RoleOf(org, user) <==> !Demotes(job, user)
  {
    if job.UpdateMemberRole? || job.RemoveMember? { DemotionIs(org, job, known); } else { OthersAre(org, job, known); }
  }

  lemma CommitRoles(initial: Organization, history: seq<Commit>, k: nat, user: User)
    requires Serial(initial, history) && k < |history| && user in Committed(initial, history, k).members
    ensures SameRole(initial, history, user, k, k + 1) <==> !Demotes(history[k].job, user)
  {
    assert SerialAt(initial, history, k);
    var c := history[k];
    if Locks(c.job) { PerformRoles(c.before, c.job, c.known, user); }
  }

  /** A token that is live after a transaction was live before and its subject not demoted, or is the new one. */
  lemma PerformLive(org: Organization, job: Job, known: bool, id: TokenId)
    requires Perform(org, job, known).Some?
    requires var after := Perform(org, job, known).value; id in after.tokens && after.tokens[id].revokedAt.None?
    ensures var token := Perform(org, job, known).value.tokens[id];
            if id in org.tokens
            then token == org.tokens[id] && !Demotes(job, token.subject) && !Inserts(job, id)
            else Inserts(job, id) && token.subject in org.members && !Demotes(job, token.subject)
  {
    if job.UpdateMemberRole? || job.RemoveMember? { DemotionIs(org, job, known); } else { OthersAre(org, job, known); }
  }

  lemma {:induction false} StaysSteady(initial: Organization, history: seq<Commit>, user: User, i: nat, k: nat)
    requires Serial(initial, history) && i <= k <= |history| && user in Committed(initial, history, i).members
    requires forall m | i <= m < k :: !Demotes(history[m].job, user)
    ensures Steady(initial, history, user, i, k)
    decreases k
  {
    if i < k {
      StaysSteady(initial, history, user, i, k - 1);
      SteadyGrows(initial, history, user, i, k - 1);
    }
  }

  lemma SteadyGrows(initial: Organization, history: seq<Commit>, user: User, i: nat, k: nat)
    requires Serial(initial, history) && i <= k < |history| && Steady(initial, history, user, i, k)
    requires !Demotes(history[k].job, user)
    ensures Steady(initial, history, user, i, k + 1)
  {
    assert SameRole(initial, history, user, i, k);
    CommitRoles(initial, history, k, user);
    forall m | i <= m <= k + 1 ensures SameRole(initial, history, user, i, m) {
    }
  }

  /** A token that was live before keeps its order, */
  lemma OldTokenInRole(initial: Organization, history: seq<Commit>, k: nat, id: TokenId, mark: Mark)
    requires Serial(initial, history) && k < |history| && OrderlyAt(initial, history, k, mark)
    requires LiveAt(initial, history, k + 1, id) && id in Committed(initial, history, k).tokens
    ensures InRole(initial, history, k + 1, id, mark)
  {
    var c := history[k];
    assert SerialAt(initial, history, k);
    if Locks(c.job) { PerformLive(c.before, c.job, c.known, id); }
    assert LiveAt(initial, history, k, id);
    SteadyGrows(initial, history, c.before.tokens[id].subject, IssuedAfter(history, k, id, mark), k);
  }

  /** The subject of a new token was a member at its mark. */
  lemma MemberAtMark(initial: Organization, history: seq<Commit>, k: nat, mark: Mark)
    requires Serial(initial, history) && k < |history| && OrderlyUpTo(initial, history, k, mark)
    requires !Locks(history[k].job)
    ensures From(history[k], mark) <= k
    ensures history[k].job.user in Committed(initial, history, From(history[k], mark)).members
  {
    assert SerialAt(initial, history, k);
    if mark.AtRead? { assert OrderlyAt(initial, history, history[k].read, mark); }
  }

  /** and a new one starts in order. */
  lemma NewTokenInRole(initial: Organization, history: seq<Commit>, k: nat, id: TokenId, mark: Mark)
    requires Serial(initial, history) && k < |history| && !Overtaken(history, k, mark)
    requires OrderlyUpTo(initial, history, k, mark)
    requires LiveAt(initial, history, k + 1, id) && id !in Committed(initial, history, k).tokens
    ensures InRole(initial, history, k + 1, id, mark)
  {
    var c := history[k];
    assert SerialAt(initial, history, k);
    if Locks(c.job) { PerformLive(c.before, c.job, c.known, id); } else { MemberAtMark(initial, history, k, mark); }
    var user := c.after.tokens[id].subject;
    forall m | From(c, mark) <= m < k + 1 ensures !Demotes(history[m].job, user) {
    }
    StaysSteady(initial, history, user, From(c, mark), k + 1);
  }

  lemma CommitStaysOrderly(initial: Organization, history: seq<Commit>, k: nat, mark: Mark)
    requires Serial(initial, history) && k < |history|
    requires OrderlyUpTo(initial, history, k, mark) && !Overtaken(history, k, mark)
    ensures OrderlyAt(initial, history, k + 1, mark)
  {
    var c := history[k];
    assert SerialAt(initial, history, k) && OrderlyAt(initial, history, k, mark);
    if Locks(c.job) {
      PerformKeeps(c.before, c.job, c.known);
    } else {
      MemberAtMark(initial, history, k, mark);
      StaysSteady(initial, history, c.job.user, From(c, mark), k);
      assert SameRole(initial, history, c.job.user, From(c, mark), k);
      WriteKeepsOrg(c.before, InsertToken(c.job.id, c.job.user));
    }
    var next := k + 1;
    forall id | LiveAt(initial, history, next, id) ensures InRole(initial, history, next, id, mark) {
      if id in c.before.tokens {
        OldTokenInRole(initial, history, k, id, mark);
      } else {
        NewTokenInRole(initial, history, k, id, mark);
      }
    }
  }

  lemma {:induction false} StaysOrderly(initial: Organization, history: seq<Commit>, k: nat, mark: Mark)
    requires OrgOk(initial) && Serial(initial, history) && NoneOvertaken(history, mark) && k <= |history|
    ensures OrderlyUpTo(initial, history, k, mark)
  {
    if k > 0 {
      StaysOrderly(initial, history, k - 1, mark);
      CommitStaysOrderly(initial, history, k - 1, mark);
    } else {
      forall id | LiveAt(initial, history, 0, id) ensures InRole(initial, history, 0, id, mark) {
        assert SameRole(initial, history, initial.tokens[id].subject, 0, 0);
      }
      assert OrderlyAt(initial, history, 0, mark);
    }
  }

  /** The token of an overtaken bootstrap is live, although its subject's role has changed. */
  lemma OvertakenIsDisorder(initial: Organization, history: seq<Commit>, k: nat, mark: Mark)
    requires Serial(initial, history) && k < |history| && Overtaken(history, k, mark)
    ensures !OrderlyAt(initial, history, k + 1, mark)
  {
    var c := history[k];
    assert SerialAt(initial, history, k);
    var i :| From(c, mark) <= i < k && Demotes(history[i].job, c.job.user);
    assert LiveAt(initial, history, k + 1, c.job.id);
    if InRole(initial, history, k + 1, c.job.id, mark) {
      assert SameRole(initial, history, c.job.user, From(c, mark), i);
      assert SameRole(initial, history, c.job.user, From(c, mark), i + 1);
      CommitRoles(initial, history, i, c.job.user);
      assert false;
    }
  }

  /** Every run keeps the owner pointer and the tokens in order exactly if no role change or removal of the
      subject of a bootstrap token commits between the token's issue and its commit. Counted from the statement, a
      live token's subject has the role it had then; counted from the checks or from the first read, the role it had
      there. */
  lemma BootstrapCommitsExactly(s: State, schedule: seq<(Tid, Action)>, mark: Mark)
    requires s.txns == map[] && s.history == [] && OrgOk(s.org)
    ensures Orderly(s.org, Run(s, schedule).history, mark) <==> NoneOvertaken(Run(s, schedule).history, mark)
  {
    CommitsAreSerial(s, schedule);
    var history := Run(s, schedule).history;
    if NoneOvertaken(history, mark) {
      StaysOrderly(s.org, history, |history|, mark);
    } else {
      var k :| 0 <= k < |history| && Overtaken(history, k, mark);
      OvertakenIsDisorder(s.org, history, k, mark);
    }
  }

  predicate AllLock(schedule: seq<(Tid, Action)>) {
    forall i | 0 <= i < |schedule| :: schedule[i].1.Begin? ==> Locks(schedule[i].1.job)
  }

  lemma {:induction false} LockedRuns(s: State, schedule: seq<(Tid, Action)>)
    requires s.txns == map[] && s.history == [] && AllLock(schedule)
    ensures forall t | t in Run(s, schedule).txns :: Locks(Run(s, schedule).txns[t].job)
    ensures forall k | 0 <= k < |Run(s, schedule).history| :: Locks(Run(s, schedule).history[k].job)
    decreases |schedule|
  {
    if |schedule| > 0 { LockedRuns(s, schedule[..|schedule| - 1]); }
  }

  /** Every interleaving of the services' own transactions, which all lock the organization row, commits whole
      transactions one after the other and keeps every durable state in order. */
  lemma EveryDurableStateIsSerial(s: State, schedule: seq<(Tid, Action)>)
    requires s.txns == map[] && s.history == [] && OrgOk(s.org) && AllLock(schedule)
    ensures var t := Run(s, schedule);
            && t.org == Committed(s.org, t.history, |t.history|)
            && Serial(s.org, t.history)
            && (forall k | 0 <= k < |t.history| :: Locks(t.history[k].job))
            && forall mark :: Orderly(s.org, t.history, mark)
  {
    CommitsAreSerial(s, schedule);
    LockedRuns(s, schedule);
    forall mark ensures Orderly(s.org, Run(s, schedule).history, mark) { BootstrapCommitsExactly(s, schedule, mark); }
  }

  // ---- the two races ----

  const FOUNDER: User := [0]
  const PARTNER: User := [1]

  const TWO_OWNERS := Organization(FOUNDER, map[FOUNDER := Releases.Owner, PARTNER := Releases.Owner], map[])
  const RACE_START := State(TWO_OWNERS, None, map[], [])

  /** The partner removes the founder, or makes the founder a viewer. */
  function Demotion(removes: bool): Job {
    if removes then RemoveMember(PARTNER, FOUNDER, "now")
    else UpdateMemberRole(PARTNER, FOUNDER, Releases.Viewer, "now")
  }

  function DemotionWrites(removes: bool): (writes: seq<Write>)
    ensures |writes| == 3
  {
    if removes then [SetOwner(PARTNER), Revoke({}, "now"), Delete(FOUNDER)]
    else [SetOwner(PARTNER), SetRole(FOUNDER, Releases.Viewer), Revoke({}, "now")]
  }

  const BOOTSTRAP: Job := BootstrapToken(FOUNDER, "token")
  const INSERTION := InsertToken("token", FOUNDER)

  lemma FounderIsReplaced(removes: bool)
    ensures Check(TWO_OWNERS, Demotion(removes), true) == Ok(Some(PARTNER))
  {
    assert OtherOwners(TWO_OWNERS, FOUNDER) == {PARTNER};
    assert Replacement(TWO_OWNERS, FOUNDER).value in OtherOwners(TWO_OWNERS, FOUNDER);
  }

  /** The demotion of the founder and the bootstrap token of the founder, on the way. */
  function Racing(removes: bool, demotion: Phase, writes: seq<Write>, issue: Phase, insertions: seq<Write>): State {
    State(
      TWO_OWNERS, Some(1),
      map[1 := Txn(Demotion(removes), demotion, writes, 0, 0, 0), 2 := Txn(BOOTSTRAP, issue, insertions, 0, 0, 0)], [])
  }

  lemma RunExtends(s: State, schedule: seq<(Tid, Action)>, t: Tid, a: Action, after: State)
    returns (longer: seq<(Tid, Action)>)
    requires Do(Run(s, schedule), t, a) == Some(after)
    ensures Run(s, longer) == after
  {
    longer := schedule + [(t, a)];
    assert longer[..|schedule|] == schedule;
  }

  lemma RaceBegins(removes: bool) returns (schedule: seq<(Tid, Action)>)
    ensures Run(RACE_START, schedule) == Racing(removes, Locked, [], Start, [])
  {
    var demotion := Txn(Demotion(removes), Start, [], 0, 0, 0);
    var demoting := State(TWO_OWNERS, None, map[1 := demotion], []);
    var both := State(TWO_OWNERS, None, map[1 := demotion, 2 := Txn(BOOTSTRAP, Start, [], 0, 0, 0)], []);
    schedule := RunExtends(RACE_START, [], 1, Begin(Demotion(removes)), demoting);
    assert demoting.txns[2 := both.txns[2]] == both.txns;
    schedule := RunExtends(RACE_START, schedule, 2, Begin(BOOTSTRAP), both);
    var locked := Racing(removes, Locked, [], Start, []);
    assert both.txns[1 := locked.txns[1]] == locked.txns;
    schedule := RunExtends(RACE_START, schedule, 1, LockOrganization, locked);
  }

  lemma RaceDecides(removes: bool) returns (schedule: seq<(Tid, Action)>)
    ensures Run(RACE_START, schedule)
         == Racing(removes, Checked(true, Some(PARTNER), 0), [], Checked(true, None, 0), [])
  {
    schedule := RaceBegins(removes);
    FounderIsReplaced(removes);
    var first := Racing(removes, Checked(true, Some(PARTNER), 0), [], Start, []);
    assert Racing(removes, Locked, [], Start, []).txns[1 := first.txns[1]] == first.txns;
    schedule := RunExtends(RACE_START, schedule, 1, Decide(true), first);
    schedule := BootstrapDecides(removes, schedule);
  }

  lemma BootstrapDecides(removes: bool, begun: seq<(Tid, Action)>) returns (schedule: seq<(Tid, Action)>)
    requires Run(RACE_START, begun) == Racing(removes, Checked(true, Some(PARTNER), 0), [], Start, [])
    ensures Run(RACE_START, schedule)
         == Racing(removes, Checked(true, Some(PARTNER), 0), [], Checked(true, None, 0), [])
  {
    var first := Racing(removes, Checked(true, Some(PARTNER), 0), [], Start, []);
    var read := Racing(removes, Checked(true, Some(PARTNER), 0), [], OwnerRead(FOUNDER), []);
    var second := Racing(removes, Checked(true, Some(PARTNER), 0), [], Checked(true, None, 0), []);
    assert first.txns[2 := read.txns[2]] == read.txns;
    schedule := RunExtends(RACE_START, begun, 2, ReadOrganization, read);
    assert read.txns[2 := second.txns[2]] == second.txns;
    schedule := RunExtends(RACE_START, schedule, 2, Decide(true), second);
  }

  lemma RaceInserts(removes: bool) returns (schedule: seq<(Tid, Action)>)
    ensures Run(RACE_START, schedule) == Demoting(removes, 0)
  {
    schedule := RaceDecides(removes);
    var s := Racing(removes, Checked(true, Some(PARTNER), 0), [], Checked(true, None, 0), []);
    var t := Demoting(removes, 0);
    assert s.txns[2 := t.txns[2]] == t.txns;
    assert [] + [INSERTION] == [INSERTION];
    schedule := RunExtends(RACE_START, schedule, 2, Next, t);
  }

  /** The token is inserted, and `n` statements of the demotion are done. */
  function Demoting(removes: bool, n: nat): State
    requires n <= 3
  {
    Racing(removes, Checked(true, Some(PARTNER), n), DemotionWrites(removes)[..n], Checked(true, None, 1), [INSERTION])
  }

  /** What the demotion sees after `n` statements. */
  function Halfway(removes: bool, n: nat): Organization {
    Organization(
      if n == 0 then FOUNDER else PARTNER,
      if n == 3 && removes then TWO_OWNERS.members - {FOUNDER}
      else if n >= 2 && !removes then TWO_OWNERS.members[FOUNDER := Releases.Viewer]
      else TWO_OWNERS.members,
      map[])
  }

  lemma HalfwayGoesOn(removes: bool, n: nat)
    requires n < 3
    ensures ApplyWrite(Halfway(removes, n), DemotionWrites(removes)[n]) == Halfway(removes, n + 1)
  {
  }

  lemma {:induction false} SeenByDemotion(removes: bool, n: nat)
    requires n <= 3
    ensures ApplyAll(TWO_OWNERS, DemotionWrites(removes)[..n]) == Halfway(removes, n)
  {
    if n > 0 {
      SeenByDemotion(removes, n - 1);
      PrefixApplies(TWO_OWNERS, DemotionWrites(removes), n - 1);
      HalfwayGoesOn(removes, n - 1);
    }
  }

  lemma PrefixApplies(org: Organization, writes: seq<Write>, n: nat)
    requires n < |writes|
    ensures ApplyAll(org, writes[..n + 1]) == ApplyWrite(ApplyAll(org, writes[..n]), writes[n])
  {
    assert writes[..n + 1] == writes[..n] + [writes[n]];
    AppendApplies(org, writes[..n], writes[n]);
  }

  /** One more statement of the demotion. */
  lemma DemotionGoesOn(removes: bool, n: nat)
    requires n < 3
    ensures Do(Demoting(removes, n), 1, Next) == Some(Demoting(removes, n + 1))
  {
    var s, t, writes := Demoting(removes, n), Demoting(removes, n + 1), DemotionWrites(removes);
    SeenByDemotion(removes, n);
    assert writes[..n] + [writes[n]] == writes[..n + 1];
    assert s.txns[1 := t.txns[1]] == t.txns;
    assert Live(ApplyAll(TWO_OWNERS, writes[..n]), FOUNDER) == {};
  }

  lemma {:induction false} RaceDemotes(removes: bool, n: nat) returns (schedule: seq<(Tid, Action)>)
    requires n <= 3
    ensures Run(RACE_START, schedule) == Demoting(removes, n)
  {
    if n == 0 {
      schedule := RaceInserts(removes);
    } else {
      schedule := RaceDemotes(removes, n - 1);
      DemotionGoesOn(removes, n - 1);
      schedule := RunExtends(RACE_START, schedule, 1, Next, Demoting(removes, n));
    }
  }

  function Demoted(removes: bool): Organization {
    var others := map[PARTNER := Releases.Owner];
    Organization(PARTNER, if removes then others else others[FOUNDER := Releases.Viewer], map[])
  }

  /** The demotion has committed; the token is about to. */
  function RaceDemoted(removes: bool): State {
    State(
      Demoted(removes), None,
      map[1 := Txn(Demotion(removes), Finished, DemotionWrites(removes), 0, 0, 0),
      2 := Txn(BOOTSTRAP, Checked(true, None, 1), [INSERTION], 0, 0, 0)],
      [Commit(Demotion(removes), true, 0, 0, 0, TWO_OWNERS, Demoted(removes))])
  }

  lemma DemotionCommits(removes: bool)
    ensures Do(Demoting(removes, 3), 1, CommitWork) == Some(RaceDemoted(removes))
  {
    var s, t := Demoting(removes, 3), RaceDemoted(removes);
    SeenByDemotion(removes, 3);
    assert DemotionWrites(removes)[..3] == DemotionWrites(removes);
    assert Demoted(removes).members == if removes then TWO_OWNERS.members - {FOUNDER}
                                       else TWO_OWNERS.members[FOUNDER := Releases.Viewer];
    assert s.txns[1 := t.txns[1]] == t.txns;
    assert [] + t.history == t.history;
  }

  lemma TokenCommits(removes: bool)
    ensures Do(RaceDemoted(removes), 2, CommitWork).Some?
    ensures var t := Do(RaceDemoted(removes), 2, CommitWork).value;
            && t.org == Demoted(removes).(tokens := map["token" := Token(FOUNDER, None)])
            && t.history == RaceDemoted(removes).history + [Commit(BOOTSTRAP, true, 0, 0, 0, Demoted(removes), t.org)]
  {
    AppendApplies(Demoted(removes), [], INSERTION);
    assert [] + [INSERTION] == [INSERTION];
  }

  /** A removal or a role change between the statement and the commit of a bootstrap token: the token ends up live
      although its subject is no member or a viewer only; after the role change that state
      alone looks in order. */
  lemma BootstrapRaceLeavesToken(removes: bool) returns (schedule: seq<(Tid, Action)>)
    ensures OrgOk(RACE_START.org)
    ensures var org := Run(RACE_START, schedule).org;
            && "token" in org.tokens && org.tokens["token"] == Token(FOUNDER, None)
            && RoleOf(org, FOUNDER) == (if removes then None else Some(Releases.Viewer))
            && (OrgOk(org) <==> !removes)
    ensures !Orderly(RACE_START.org, Run(RACE_START, schedule).history, AtStatement)
  {
    schedule := RaceEnds(removes);
    RaceIsOvertaken(removes, Run(RACE_START, schedule).history);
    BootstrapCommitsExactly(RACE_START, schedule, AtStatement);
  }

  lemma RaceEnds(removes: bool) returns (schedule: seq<(Tid, Action)>)
    ensures var t := Run(RACE_START, schedule);
            && t.org == Demoted(removes).(tokens := map["token" := Token(FOUNDER, None)])
            && t.history == RaceDemoted(removes).history + [Commit(BOOTSTRAP, true, 0, 0, 0, Demoted(removes), t.org)]
  {
    schedule := RaceDemotes(removes, 3);
    DemotionCommits(removes);
    schedule := RunExtends(RACE_START, schedule, 1, CommitWork, RaceDemoted(removes));
    TokenCommits(removes);
    schedule := RunExtends(RACE_START, schedule, 2, CommitWork, Do(RaceDemoted(removes), 2, CommitWork).value);
  }

  lemma RaceIsOvertaken(removes: bool, history: seq<Commit>)
    requires |history| == 2 && history[0].job == Demotion(removes)
    requires history[1].job == BOOTSTRAP && history[1].since == 0
    ensures !NoneOvertaken(history, AtStatement)
  {
    assert Demotes(history[0].job, FOUNDER);
    assert Overtaken(history, 1, AtStatement);
  }
}
