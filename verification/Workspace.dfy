/**
 One workspace: its owner, members, activation challenges and ownership transfers.

 A command is a function from a state to a state and a result. Inside `Confirm` the writes are kept
 apart, because an immediate index and a deferred foreign key constrain the states between them.
 */
module Workspace {
  import opened Common

  datatype AccountStatus = PendingActivation | ActiveAccount | SuspendedAccount | LockedAccount | ClosedAccount
  datatype Account = Account(email: string, status: AccountStatus, hasPassword: bool, version: int)

  datatype MemberStatus = Pending | Active | Suspended | Revoked
  datatype Membership = Membership(account: Uuid, role: Role, status: MemberStatus, version: int)

  datatype TransferStatus = Initiated | Confirmed | Cancelled | TransferExpired | Completed
  datatype Transfer = Transfer(
    owner: Uuid,
    target: Uuid,
    digest: nat,
    formerRole: Role,
    status: TransferStatus,
    initiatedAt: Instant,
    expiresAt: Instant,
    confirmedAt: Option<Instant>,
    cancelledAt: Option<Instant>,
    expiredAt: Option<Instant>,
    completedAt: Option<Instant>,
    version: int)

  datatype ChallengeStatus = Issued | Used | ChallengeRevoked | ChallengeExpired
  datatype Challenge = Challenge(
    membership: Uuid,
    account: Uuid,
    digest: nat,
    status: ChallengeStatus,
    issuedAt: Instant,
    expiresAt: Instant,
    usedAt: Option<Instant>,
    revokedAt: Option<Instant>,
    version: int)

  datatype Session = Session(account: Uuid, active: bool)

  datatype State = State(
    owner: Uuid,
    version: int,
    accounts: map<Uuid, Account>,
    members: map<Uuid, Membership>,
    transfers: map<Uuid, Transfer>,
    challenges: map<Uuid, Challenge>,
    sessions: map<Uuid, Session>)

  datatype Error =
    | NotFound | PermissionDenied | VersionMismatch | DuplicateMembership
    | OwnershipInvariant | InvalidTransition | TransferConflict
    | ConfirmationDenied | ReauthenticationFailed | IntegrityViolation

  datatype Actor = Actor(account: Uuid, membership: Uuid, role: Role)

  // ---- Opaque credentials ------------------------------------------------------------------

  const CHALLENGE_LIFETIME: int := 24 * HOUR
  const TRANSFER_LIFETIME: int := 30 * MINUTE

  /** A freshly issued credential: only its digest is stored. */
  datatype Credential = Credential(digest: nat, issuedAt: Instant, expiresAt: Instant)

  function Issue(digest: nat, now: Instant, lifetime: int): Credential {
    Credential(digest, now, now + lifetime)
  }

  datatype Verification = Valid | InvalidValue | Expired | Consumed | RevokedValue

  /** Revocation and use are looked at before expiry, and the value itself last of all. */
  function Verify(digestMatches: bool, expiresAt: Instant, consumedAt: Option<Instant>, revokedAt: Option<Instant>,
                  now: Instant): Verification {
    if revokedAt.Some? then RevokedValue
    else if consumedAt.Some? then Consumed
    else if now >= expiresAt then Expired
    else if !digestMatches then InvalidValue
    else Valid
  }

  // ---- Database rules ----------------------------------------------------------------------

  predicate IsActiveAdmin(m: Membership) {
    m.role == Admin && m.status == Active
  }

  /** The immediate partial unique index: at most one Active Admin. */
  ghost predicate OneActiveAdmin(members: map<Uuid, Membership>) {
    forall j, k {:trigger members[j], members[k]} ::
      j in members && k in members && IsActiveAdmin(members[j]) && IsActiveAdmin(members[k]) ==> j == k
  }

  /** The deferred foreign key: at commit the owner is an Active Admin membership. */
  predicate OwnerReferenced(s: State) {
    s.owner in s.members && IsActiveAdmin(s.members[s.owner])
  }

  predicate TransferChecks(t: Transfer) {
    && t.formerRole != Admin && t.owner != t.target && t.expiresAt > t.initiatedAt
    && (t.status in {Confirmed, Completed} <==> t.confirmedAt.Some?)
    && (t.status == Cancelled <==> t.cancelledAt.Some?)
    && (t.status == TransferExpired <==> t.expiredAt.Some?)
    && (t.status == Completed <==> t.completedAt.Some?)
  }

  predicate ChallengeChecks(c: Challenge) {
    && c.expiresAt > c.issuedAt
    && (c.status == Used <==> c.usedAt.Some?)
    && (c.status == ChallengeRevoked <==> c.revokedAt.Some?)
  }

  // ---- Shared lookups and bulk updates -----------------------------------------------------

  /** The actor is an active member with an active account, in the role the request resolved. */
  predicate ActorValid(s: State, ctx: Actor) {
    && ctx.membership in s.members && s.members[ctx.membership].account == ctx.account
    && s.members[ctx.membership].role == ctx.role && s.members[ctx.membership].status == Active
    && ctx.account in s.accounts && s.accounts[ctx.account].status == ActiveAccount
  }

  function AdminError(s: State, ctx: Actor): Option<Error> {
    if !ActorValid(s, ctx) then Some(NotFound) else if ctx.role != Admin then Some(PermissionDenied) else None
  }

  function RevokeSessions(sessions: map<Uuid, Session>, account: Uuid): map<Uuid, Session> {
    map k | k in sessions :: if sessions[k].account == account then sessions[k].(active := false) else sessions[k]
  }

  function RevokeChallenges(challenges: map<Uuid, Challenge>, membership: Uuid, at: Instant): map<Uuid, Challenge> {
    map k | k in challenges ::
      var c := challenges[k];
      if c.membership == membership && c.status == Issued
      then c.(status := ChallengeRevoked, revokedAt := Some(at), version := c.version + 1) else c
  }

  function MarkExpired(t: Transfer, now: Instant): Transfer {
    t.(status := TransferExpired, expiredAt := Some(now), version := t.version + 1)
  }

  function MarkCancelled(t: Transfer, now: Instant): Transfer {
    t.(status := Cancelled, cancelledAt := Some(now), version := t.version + 1)
  }

  function ExpireDue(transfers: map<Uuid, Transfer>, now: Instant): map<Uuid, Transfer> {
    map k | k in transfers ::
      if transfers[k].status == Initiated && transfers[k].expiresAt <= now then MarkExpired(transfers[k], now) else transfers[k]
  }

  function CancelOpen(transfers: map<Uuid, Transfer>, now: Instant): map<Uuid, Transfer> {
    map k | k in transfers :: if transfers[k].status == Initiated then MarkCancelled(transfers[k], now) else transfers[k]
  }

  // ---- Bootstrap ---------------------------------------------------------------------------

  /** The state a bootstrap creates: one account, one membership, its owner. */
  function Bootstrapped(email: string, accountId: Uuid, membershipId: Uuid): State {
    State(membershipId, 1, map[accountId := Account(email, ActiveAccount, true, 1)],
          map[membershipId := Membership(accountId, Admin, Active, 1)], map[], map[], map[])
  }

  // ---- Members -----------------------------------------------------------------------------

  ghost predicate HasEmail(s: State, k: Uuid, email: string) {
    k in s.accounts && s.accounts[k].email == email
  }

  ghost function AccountWithEmail(s: State, email: string): (found: Option<Uuid>)
    ensures found.Some? ==> HasEmail(s, found.value, email)
    ensures found.None? ==> forall k :: !HasEmail(s, k, email)
  {
    if exists k :: HasEmail(s, k, email) then var k :| HasEmail(s, k, email); Some(k) else None
  }

  predicate AccountIsMember(s: State, account: Uuid) {
    exists k :: k in s.members && s.members[k].account == account
  }

  predicate DigestIsNew(challenges: map<Uuid, Challenge>, digest: nat) {
    forall k {:trigger challenges[k]} :: k in challenges ==> challenges[k].digest != digest
  }

  /** The identifiers a request's rows get. */
  datatype NewIds = NewIds(account: Uuid, membership: Uuid, challenge: Uuid, transfer: Uuid)

  function IssuedChallenge(membership: Uuid, account: Uuid, c: Credential): Challenge {
    Challenge(membership, account, c.digest, Issued, c.issuedAt, c.expiresAt, None, None, 1)
  }

  /** Adding the membership and its challenge; the database refuses identifiers and digests it knows. */
  function AddMember(s: State, account: Uuid, role: Role, c: Credential, ids: NewIds): (State, Result<Uuid, Error>) {
    if AccountIsMember(s, account) then (s, Err(DuplicateMembership))
    else if ids.membership in s.members || ids.challenge in s.challenges || !DigestIsNew(s.challenges, c.digest) then (s, Err(IntegrityViolation))
    else
      (s.(members := s.members[ids.membership := Membership(account, role, Pending, 1)],
          challenges := s.challenges[ids.challenge := IssuedChallenge(ids.membership, account, c)]),
       Ok(ids.membership))
  }

  /** A new member is never an Admin: the role comes as one of the two member roles. */
  ghost function Provision(s: State, ctx: Actor, email: string, asAdvisor: bool, digest: nat, now: Instant,
                           ids: NewIds): (State, Result<Uuid, Error>) {
    var role := if asAdvisor then Advisor else Contributor;
    var credential := Issue(digest, now, CHALLENGE_LIFETIME);
    var found := AccountWithEmail(s, email);
    if AdminError(s, ctx).Some? then (s, Err(AdminError(s, ctx).value))
    else if found.None? then
      if ids.account in s.accounts then (s, Err(IntegrityViolation))
      else
        var (after, r) := AddMember(s.(accounts := s.accounts[ids.account := Account(email, PendingActivation, false, 1)]), ids.account, role, credential, ids);
        (if r.Ok? then after else s, r)
    else if s.accounts[found.value].status !in {PendingActivation, ActiveAccount} then (s, Err(DuplicateMembership))
    else AddMember(s, found.value, role, credential, ids)
  }

  function Restart(s: State, ctx: Actor, membershipId: Uuid, expectedVersion: int, digest: nat, now: Instant,
                   ids: NewIds): (State, Result<int, Error>) {
    if AdminError(s, ctx).Some? then (s, Err(AdminError(s, ctx).value))
    else if membershipId !in s.members || s.members[membershipId].status != Pending || s.members[membershipId].role == Admin then (s, Err(NotFound))
    else
      var m := s.members[membershipId];
      if m.version != expectedVersion then (s, Err(VersionMismatch))
      else if ids.challenge in s.challenges || !DigestIsNew(s.challenges, digest) then (s, Err(IntegrityViolation))
      else
        var credential := Issue(digest, now, CHALLENGE_LIFETIME);
        var revoked := RevokeChallenges(s.challenges, membershipId, now);
        (s.(challenges := revoked[ids.challenge := IssuedChallenge(membershipId, m.account, credential)],
            members := s.members[membershipId := m.(version := m.version + 1)]),
         Ok(m.version + 1))
  }

  ghost predicate HasDigest(s: State, k: Uuid, digest: nat) {
    k in s.challenges && s.challenges[k].digest == digest
  }

  ghost function ChallengeWithDigest(s: State, digest: nat): (found: Option<Uuid>)
    ensures found.Some? ==> HasDigest(s, found.value, digest)
    ensures found.None? ==> forall k :: !HasDigest(s, k, digest)
  {
    if exists k :: HasDigest(s, k, digest) then var k :| HasDigest(s, k, digest); Some(k) else None
  }

  function VerifyChallenge(c: Challenge, now: Instant): Verification {
    Verify(true, c.expiresAt, c.usedAt, c.revokedAt, now)
  }

  /** Everything activation asks for besides a valid challenge. */
  predicate MayActivate(s: State, c: Challenge, withPassword: bool) {
    && c.membership in s.members && s.members[c.membership].account == c.account
    && c.account in s.accounts
    && s.members[c.membership].status == Pending && s.members[c.membership].role != Admin
    && s.accounts[c.account].status in {PendingActivation, ActiveAccount}
    && (s.accounts[c.account].status == ActiveAccount || withPassword)
  }

  function ActivatedWith(s: State, k: Uuid, now: Instant): State
    requires k in s.challenges && s.challenges[k].membership in s.members && s.challenges[k].account in s.accounts
  {
    var c := s.challenges[k];
    var m, a := s.members[c.membership], s.accounts[c.account];
    s.(accounts := if a.status == PendingActivation
                   then s.accounts[c.account := a.(status := ActiveAccount, hasPassword := true, version := a.version + 1)] else s.accounts,
       members := s.members[c.membership := m.(status := Active, version := m.version + 1)],
       challenges := s.challenges[k := c.(status := Used, usedAt := Some(now), version := c.version + 1)])
  }

  /** Presenting a value; the result names the challenge it activated with. */
  ghost function Activate(s: State, digest: nat, withPassword: bool, now: Instant): (State, Option<Uuid>) {
    var found := ChallengeWithDigest(s, digest);
    if found.None? then (s, None)
    else
      var c := s.challenges[found.value];
      if VerifyChallenge(c, now) == Valid && MayActivate(s, c, withPassword) then (ActivatedWith(s, found.value, now), Some(found.value))
      else if VerifyChallenge(c, now) == Expired then (s.(challenges := s.challenges[found.value := c.(status := ChallengeExpired)]), None)
      else (s, None)
  }

  datatype Mutation = ChangeRole(role: Role) | Suspend | Reactivate | Revoke

  function ValidateTransition(role: Role, status: MemberStatus, mutation: Mutation): Result<(Role, MemberStatus), Error> {
    if role == Admin then Err(OwnershipInvariant)
    else if status == Revoked then Err(InvalidTransition)
    else match mutation
      case ChangeRole(next) => if next == Admin || next == role then Err(InvalidTransition) else Ok((next, status))
      case Suspend => if status != Active then Err(InvalidTransition) else Ok((role, Suspended))
      case Reactivate => if status != Suspended then Err(InvalidTransition) else Ok((role, Active))
      case Revoke => Ok((role, Revoked))
  }

  function Mutate(s: State, ctx: Actor, membershipId: Uuid, expectedVersion: int, mutation: Mutation, now: Instant): (State, Result<Membership, Error>) {
    if mutation.ChangeRole? && mutation.role == Admin then (s, Err(OwnershipInvariant))
    else if expectedVersion <= 0 then (s, Err(VersionMismatch))
    else if AdminError(s, ctx).Some? then (s, Err(AdminError(s, ctx).value))
    else if membershipId !in s.members || s.members[membershipId].account !in s.accounts then (s, Err(NotFound))
    else
      var m := s.members[membershipId];
      if membershipId == s.owner || m.role == Admin then (s, Err(OwnershipInvariant))
      else if m.version != expectedVersion then (s, Err(VersionMismatch))
      else match ValidateTransition(m.role, m.status, mutation)
        case Err(e) => (s, Err(e))
        case Ok((role, status)) =>
          if mutation.Reactivate? && s.accounts[m.account].status != ActiveAccount then (s, Err(InvalidTransition))
          else
            var changed := m.(role := role, status := status, version := m.version + 1);
            (s.(members := s.members[membershipId := changed],
                sessions := if mutation.Reactivate? then s.sessions else RevokeSessions(s.sessions, m.account),
                challenges := if mutation.Revoke? then RevokeChallenges(s.challenges, membershipId, now) else s.challenges),
             Ok(changed))
  }

  // ---- Ownership transfer ------------------------------------------------------------------

  /** The owner with a live session and a password, as reauthentication needs them. */
  predicate MayReauthenticate(s: State, ctx: Actor, session: Uuid) {
    && ctx.account in s.accounts && s.accounts[ctx.account].status == ActiveAccount && s.accounts[ctx.account].hasPassword
    && session in s.sessions && s.sessions[session] == Session(ctx.account, true)
    && s.owner == ctx.membership && ctx.membership in s.members
    && s.members[ctx.membership].account == ctx.account && IsActiveAdmin(s.members[ctx.membership])
  }

  predicate ActiveMember(s: State, membership: Uuid) {
    && membership in s.members && s.members[membership].status == Active
    && s.members[membership].account in s.accounts && s.accounts[s.members[membership].account].status == ActiveAccount
  }

  predicate TransferDigestIsNew(transfers: map<Uuid, Transfer>, digest: nat) {
    forall k {:trigger transfers[k]} :: k in transfers ==> transfers[k].digest != digest
  }

  function Initiate(s: State, ctx: Actor, target: Uuid, formerRole: Role, session: Uuid, passwordMatches: bool,
                    digest: nat, now: Instant, ids: NewIds): (State, Result<Uuid, Error>) {
    if formerRole == Admin then (s, Err(TransferConflict))
    else if !MayReauthenticate(s, ctx, session) || !passwordMatches then (s, Err(ReauthenticationFailed))
    else if target !in s.members || target == ctx.membership || s.members[target].role == Admin || !ActiveMember(s, target) then (s, Err(NotFound))
    else
      var open := CancelOpen(ExpireDue(s.transfers, now), now);
      if ids.transfer in s.transfers || !TransferDigestIsNew(s.transfers, digest) then (s, Err(IntegrityViolation))
      else
        (s.(transfers := open[ids.transfer := Transfer(ctx.membership, target, digest, formerRole, Initiated, now, now + TRANSFER_LIFETIME, None, None, None, None, 1)]),
         Ok(ids.transfer))
  }

  function VerifyTransfer(t: Transfer, digest: nat, now: Instant): Verification {
    Verify(digest == t.digest, t.expiresAt, t.confirmedAt, t.cancelledAt, now)
  }

  /** The last checks of a confirmation, on both memberships and the actor. */
  predicate MayTakeOver(s: State, ctx: Actor, t: Transfer) {
    && ActiveMember(s, t.owner) && s.members[t.owner].role == Admin
    && ActiveMember(s, t.target) && s.members[t.target].role != Admin
    && s.members[t.target].account == ctx.account && s.members[t.target].role == ctx.role
  }

  /** First flush: the transfer is confirmed and the owner demoted. */
  function Demoted(s: State, k: Uuid, now: Instant): State
    requires k in s.transfers && s.transfers[k].owner in s.members
  {
    var t := s.transfers[k];
    var m := s.members[t.owner];
    s.(transfers := s.transfers[k := t.(status := Confirmed, confirmedAt := Some(now), version := t.version + 1)],
       members := s.members[t.owner := m.(role := t.formerRole, version := m.version + 1)])
  }

  /** Second flush: the target is promoted. */
  function Promoted(s: State, k: Uuid): State
    requires k in s.transfers && s.transfers[k].target in s.members
  {
    var t := s.transfers[k];
    var m := s.members[t.target];
    s.(members := s.members[t.target := m.(role := Admin, version := m.version + 1)])
  }

  /** Third flush: the workspace names its new owner, the transfer is completed and sessions end. */
  function HandedOver(s: State, k: Uuid, now: Instant): State
    requires k in s.transfers && s.transfers[k].owner in s.members && s.transfers[k].target in s.members
  {
    var t := s.transfers[k];
    s.(owner := t.target, version := s.version + 1,
       transfers := s.transfers[k := t.(status := Completed, completedAt := Some(now), version := t.version + 1)],
       sessions := RevokeSessions(RevokeSessions(s.sessions, s.members[t.owner].account), s.members[t.target].account))
  }

  /** The states after the three flushes. */
  function ConfirmWrites(s: State, k: Uuid, now: Instant): (State, State, State)
    requires k in s.transfers && s.transfers[k].owner in s.members && s.transfers[k].target in s.members
  {
    var one := Demoted(s, k, now);
    var two := Promoted(one, k);
    (one, two, HandedOver(two, k, now))
  }

  ghost function Confirm(s: State, ctx: Actor, k: Uuid, digest: nat, now: Instant): (State, Result<Uuid, Error>) {
    if k !in s.transfers then (s, Err(ConfirmationDenied))
    else
      var t := s.transfers[k];
      if t.status == Initiated && now >= t.expiresAt then
        (s.(transfers := s.transfers[k := MarkExpired(t, now)]), Err(ConfirmationDenied))
      else if t.status != Initiated || VerifyTransfer(t, digest, now) != Valid then (s, Err(ConfirmationDenied))
      else if t.target != ctx.membership || s.owner != t.owner then (s, Err(ConfirmationDenied))
      else if !MayTakeOver(s, ctx, t) then (s, Err(ConfirmationDenied))
      else
        var (one, two, three) := ConfirmWrites(s, k, now);
        if OneActiveAdmin(one.members) && OneActiveAdmin(two.members) && OneActiveAdmin(three.members) && OwnerReferenced(three)
        then (three, Ok(k)) else (s, Err(IntegrityViolation))
  }

  function Cancel(s: State, ctx: Actor, k: Uuid, expectedVersion: int, now: Instant): (State, Result<Uuid, Error>) {
    if expectedVersion <= 0 then (s, Err(VersionMismatch))
    else if s.owner != ctx.membership || !ActorValid(s, ctx.(role := Admin)) then (s, Err(NotFound))
    else if k !in s.transfers || s.transfers[k].owner != ctx.membership then (s, Err(NotFound))
    else
      var t := s.transfers[k];
      if t.version != expectedVersion then (s, Err(VersionMismatch))
      else if t.status == Initiated && now >= t.expiresAt then
        (s.(transfers := s.transfers[k := MarkExpired(t, now)]), Err(TransferConflict))
      else if t.status != Initiated then (s, Err(TransferConflict))
      else (s.(transfers := s.transfers[k := MarkCancelled(t, now)]), Ok(k))
  }

  // ---- Steps -------------------------------------------------------------------------------

  datatype Step =
    | Provisioning(ctx: Actor, email: string, asAdvisor: bool, digest: nat, now: Instant, ids: NewIds)
    | Restarting(ctx: Actor, membership: Uuid, expectedVersion: int, digest: nat, now: Instant, ids: NewIds)
    | Activating(digest: nat, withPassword: bool, now: Instant)
    | Mutating(ctx: Actor, membership: Uuid, expectedVersion: int, mutation: Mutation, now: Instant)
    | Initiating(ctx: Actor, target: Uuid, formerRole: Role, session: Uuid, passwordMatches: bool, digest: nat, now: Instant, ids: NewIds)
    | Confirming(ctx: Actor, transfer: Uuid, digest: nat, now: Instant)
    | Cancelling(ctx: Actor, transfer: Uuid, expectedVersion: int, now: Instant)
    | OpeningSession(session: Uuid, account: Uuid, now: Instant)
    | ChangingAccount(account: Uuid, status: AccountStatus, now: Instant)

  /** One committed request. Sessions and account statuses change for reasons outside this model, too. */
  ghost function Next(s: State, step: Step): State {
    match step
    case Provisioning(ctx, email, asAdvisor, digest, now, ids) => Provision(s, ctx, email, asAdvisor, digest, now, ids).0
    case Restarting(ctx, membership, version, digest, now, ids) => Restart(s, ctx, membership, version, digest, now, ids).0
    case Activating(digest, withPassword, now) => Activate(s, digest, withPassword, now).0
    case Mutating(ctx, membership, version, mutation, now) => Mutate(s, ctx, membership, version, mutation, now).0
    case Initiating(ctx, target, formerRole, session, matches, digest, now, ids) =>
      Initiate(s, ctx, target, formerRole, session, matches, digest, now, ids).0
    case Confirming(ctx, transfer, digest, now) => Confirm(s, ctx, transfer, digest, now).0
    case Cancelling(ctx, transfer, version, now) => Cancel(s, ctx, transfer, version, now).0
    case OpeningSession(session, account, _) =>
      if session in s.sessions then s else s.(sessions := s.sessions[session := Session(account, true)])
    case ChangingAccount(account, status, _) =>
      if account in s.accounts then s.(accounts := s.accounts[account := s.accounts[account].(status := status)]) else s
  }
}
