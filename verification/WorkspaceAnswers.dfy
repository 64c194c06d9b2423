/**
 What the membership and ownership repositories answer and store, told row by row in fields a caller can
 look up: who administers, what each command changes, and that it changes nothing else. The conditions
 are written out here on their own, apart from the checks the commands share.
 */
module WorkspaceAnswers {
  import opened Common
  import opened Workspace
  import opened WorkspaceSafety
  import opened ActivationSafety

  // ---- Who is who --------------------------------------------------------------------------

  /** An active membership of an active account. */
  predicate Present(s: State, membership: Uuid) {
    && membership in s.members && s.members[membership].status == Active
    && s.members[membership].account in s.accounts && s.accounts[s.members[membership].account].status == ActiveAccount
  }

  /** The actor is present, with the account and the role the request resolved. */
  predicate Acts(s: State, ctx: Actor) {
    && Present(s, ctx.membership) && s.members[ctx.membership].account == ctx.account && s.members[ctx.membership].role == ctx.role
  }

  /** The finance commands let in exactly the present members, in their own roles, while finance is switched on. */
  lemma AccessFollowsMembers(s: State, enabled: bool, membership: Uuid, role: Role)
    ensures membership in AccessOf(s, enabled).members && AccessOf(s, enabled).members[membership] == role <==>
              Present(s, membership) && s.members[membership].role == role
    ensures AccessOf(s, enabled).financeEnabled == enabled
  {
  }

  // ---- Who administers ---------------------------------------------------------------------

  /** What an administering command answers to somebody who is no present Admin, before it looks at anything else. */
  function TurnedAway(s: State, ctx: Actor): Error {
    if Acts(s, ctx) then PermissionDenied else NotFound
  }

  lemma OnlyTheOwnerActs(s: State, ctx: Actor)
    requires OwnershipValid(s) && Acts(s, ctx) && ctx.role == Admin
    ensures ctx.membership == s.owner && Present(s, s.owner)
  {
  }

  /** Members are provisioned by the owner alone; everybody else is turned away and changes nothing. */
  lemma OnlyTheOwnerProvisions(s: State, ctx: Actor, email: string, asAdvisor: bool, digest: nat, now: Instant,
                               ids: NewIds)
    requires OwnershipValid(s)
    ensures var (after, r) := Provision(s, ctx, email, asAdvisor, digest, now, ids);
            && (r.Err? ==> after == s)
            && (r.Ok? ==> ctx.membership == s.owner && Present(s, s.owner))
            && (!(Acts(s, ctx) && ctx.role == Admin) ==> r == Err(TurnedAway(s, ctx)))
            && (Acts(s, ctx) && ctx.role == Admin ==> r.Ok? || r.error in {DuplicateMembership, IntegrityViolation})
  {
    if Acts(s, ctx) && ctx.role == Admin {
      OnlyTheOwnerActs(s, ctx);
    }
  }

  lemma OnlyTheOwnerRestarts(s: State, ctx: Actor, membership: Uuid, version: int, digest: nat, now: Instant,
                             ids: NewIds)
    requires OwnershipValid(s)
    ensures var (after, r) := Restart(s, ctx, membership, version, digest, now, ids);
            && (r.Err? ==> after == s)
            && (r.Ok? ==> ctx.membership == s.owner && Present(s, s.owner))
            && (!(Acts(s, ctx) && ctx.role == Admin) ==> r == Err(TurnedAway(s, ctx)))
            && (Acts(s, ctx) && ctx.role == Admin ==> r != Err(PermissionDenied))
  {
    if Acts(s, ctx) && ctx.role == Admin {
      OnlyTheOwnerActs(s, ctx);
    }
  }

  lemma OnlyTheOwnerMutates(s: State, ctx: Actor, membership: Uuid, version: int, mutation: Mutation, now: Instant)
    requires OwnershipValid(s)
    ensures var (after, r) := Mutate(s, ctx, membership, version, mutation, now);
            && (r.Err? ==> after == s)
            && (r.Ok? ==> ctx.membership == s.owner && Present(s, s.owner))
            && (!(Acts(s, ctx) && ctx.role == Admin) && version > 0 && mutation != ChangeRole(Admin) ==> r == Err(TurnedAway(s, ctx)))
            && (Acts(s, ctx) && ctx.role == Admin ==> r != Err(PermissionDenied))
  {
    if Acts(s, ctx) && ctx.role == Admin {
      OnlyTheOwnerActs(s, ctx);
    }
  }

  // ---- Rows that stay ----------------------------------------------------------------------

  ghost predicate SessionsEndFor(s: State, after: State, accounts: set<Uuid>) {
    && after.sessions.Keys == s.sessions.Keys
    && forall x {:trigger after.sessions[x]} :: x in s.sessions ==>
         && after.sessions[x].account == s.sessions[x].account
         && (after.sessions[x].active <==> s.sessions[x].active && s.sessions[x].account !in accounts)
  }

  /** The issued challenges of one membership are revoked at a time; all the others are as they were. */
  ghost predicate ChallengesEndFor(before: map<Uuid, Challenge>, after: map<Uuid, Challenge>, membership: Uuid,
                                   now: Instant) {
    forall k {:trigger after[k]} :: k in before ==>
      && k in after
      && if before[k].membership == membership && before[k].status == Issued
         then after[k] == Challenge(membership, before[k].account, before[k].digest, ChallengeRevoked, before[k].issuedAt, before[k].expiresAt,
                                    before[k].usedAt, Some(now), before[k].version + 1)
         else after[k] == before[k]
  }

  // ---- Provisioning, restarting, activating ------------------------------------------------

  /** A new member's two rows. */
  ghost predicate Adds(s: State, after: State, account: Uuid, asAdvisor: bool, digest: nat, now: Instant, ids: NewIds) {
    && ids.membership !in s.members && ids.challenge !in s.challenges
    && (forall k :: k in s.members ==> s.members[k].account != account) && (forall k :: k in s.challenges ==> s.challenges[k].digest != digest)
    && after.members == s.members[ids.membership := Membership(account, if asAdvisor then Advisor else Contributor, Pending, 1)]
    && after.challenges == s.challenges[ids.challenge := Challenge(ids.membership, account, digest, Issued, now, now + 24 * HOUR, None, None, 1)]
    && after.owner == s.owner && after.version == s.version && after.transfers == s.transfers && after.sessions == s.sessions
  }

  /** Under a known address the account is the one that has it, and the accounts stay as they are. */
  lemma KnownAddressChanges(s: State, ctx: Actor, email: string, asAdvisor: bool, digest: nat, now: Instant,
                            ids: NewIds, k: Uuid)
    requires EmailsUnique(s) && Provision(s, ctx, email, asAdvisor, digest, now, ids).1.Ok? && k in s.accounts && s.accounts[k].email == email
    ensures var after := Provision(s, ctx, email, asAdvisor, digest, now, ids).0;
            Adds(s, after, k, asAdvisor, digest, now, ids) && after.accounts == s.accounts && s.accounts[k].status in {PendingActivation, ActiveAccount}
  {
    assert HasEmail(s, k, email);
    assert AccountWithEmail(s, email) == Some(k);
  }

  /** Under a new address there is one new account, pending and without a password. */
  lemma NewAddressChanges(s: State, ctx: Actor, email: string, asAdvisor: bool, digest: nat, now: Instant, ids: NewIds)
    requires Provision(s, ctx, email, asAdvisor, digest, now, ids).1.Ok? && forall k :: k in s.accounts ==> s.accounts[k].email != email
    ensures var after := Provision(s, ctx, email, asAdvisor, digest, now, ids).0;
            && Adds(s, after, ids.account, asAdvisor, digest, now, ids) && ids.account !in s.accounts
            && after.accounts == s.accounts[ids.account := Account(email, PendingActivation, false, 1)]
  {
    var found := AccountWithEmail(s, email);
    assert found.Some? ==> HasEmail(s, found.value, email);
  }

  /** A present Admin's provisioning fails exactly when the address or the identifiers are taken. */
  lemma ProvisionAnswers(s: State, ctx: Actor, email: string, asAdvisor: bool, digest: nat, now: Instant, ids: NewIds,
                         k: Uuid)
    requires EmailsUnique(s) && Acts(s, ctx) && ctx.role == Admin && k in s.accounts && s.accounts[k].email == email
    ensures var r := Provision(s, ctx, email, asAdvisor, digest, now, ids).1;
            var taken := s.accounts[k].status !in {PendingActivation, ActiveAccount} || exists m :: m in s.members && s.members[m].account == k;
            && (r == Err(DuplicateMembership) <==> taken)
            && (r.Ok? <==> !taken && ids.membership !in s.members && ids.challenge !in s.challenges
                           && forall c :: c in s.challenges ==> s.challenges[c].digest != digest)
  {
    assert HasEmail(s, k, email);
    assert AccountWithEmail(s, email) == Some(k);
  }

  lemma NewAddressAnswers(s: State, ctx: Actor, email: string, asAdvisor: bool, digest: nat, now: Instant, ids: NewIds)
    requires MembersHaveAccounts(s) && Acts(s, ctx) && ctx.role == Admin
    requires forall k :: k in s.accounts ==> s.accounts[k].email != email
    ensures Provision(s, ctx, email, asAdvisor, digest, now, ids).1.Ok? <==>
            && ids.account !in s.accounts && ids.membership !in s.members && ids.challenge !in s.challenges
            && forall c :: c in s.challenges ==> s.challenges[c].digest != digest
  {
    assert AccountWithEmail(s, email).None? by {
      if AccountWithEmail(s, email).Some? {
        assert HasEmail(s, AccountWithEmail(s, email).value, email);
      }
    }
    if ids.account !in s.accounts {
      assert forall m :: m in s.members ==> s.members[m].account in s.accounts;
    }
  }

  /** A present Admin's restart: each refusal has its own cause, and success revokes, issues and counts up. */
  lemma RestartAnswers(s: State, ctx: Actor, membership: Uuid, version: int, digest: nat, now: Instant, ids: NewIds)
    requires Acts(s, ctx) && ctx.role == Admin
    ensures var r := Restart(s, ctx, membership, version, digest, now, ids).1;
            var pending := membership in s.members && s.members[membership].status == Pending && s.members[membership].role != Admin;
            && (r == Err(NotFound) <==> !pending)
            && (r == Err(VersionMismatch) <==> pending && s.members[membership].version != version)
            && (r.Ok? <==> pending && s.members[membership].version == version && ids.challenge !in s.challenges
                           && forall c :: c in s.challenges ==> s.challenges[c].digest != digest)
            && (r.Ok? ==> r.value == version + 1)
  {
  }

  lemma RestartChanges(s: State, ctx: Actor, membership: Uuid, version: int, digest: nat, now: Instant, ids: NewIds)
    requires Restart(s, ctx, membership, version, digest, now, ids).1.Ok?
    ensures var after := Restart(s, ctx, membership, version, digest, now, ids).0;
            && after.owner == s.owner && after.version == s.version && after.transfers == s.transfers && after.sessions == s.sessions
            && after.accounts == s.accounts && membership in s.members && ids.challenge !in s.challenges
            && (var m := s.members[membership];
                && after.members == s.members[membership := Membership(m.account, m.role, Pending, m.version + 1)]
                && after.challenges.Keys == s.challenges.Keys + {ids.challenge}
                && after.challenges[ids.challenge] == Challenge(membership, m.account, digest, Issued, now, now + 24 * HOUR, None, None, 1))
            && ChallengesEndFor(s.challenges, after.challenges, membership, now)
  {
  }

  /**
   A successful activation makes the member and its account active: a pending account becomes active with a
   password. Member, account and challenge each count up by one, and no other row changes.
   */
  lemma ActivationChanges(s: State, digest: nat, withPassword: bool, now: Instant)
    requires Activate(s, digest, withPassword, now).1.Some?
    ensures var (after, activated) := Activate(s, digest, withPassword, now);
            var k := activated.value;
            && after.owner == s.owner && after.version == s.version && after.transfers == s.transfers && after.sessions == s.sessions
            && k in s.challenges && s.challenges[k].membership in s.members && s.challenges[k].account in s.accounts
            && (var c := s.challenges[k];
                var m, a := s.members[c.membership], s.accounts[c.account];
                && m.account == c.account && m.status == Pending && m.role != Admin
                && after.members == s.members[c.membership := Membership(m.account, m.role, Active, m.version + 1)]
                && after.challenges == s.challenges[k := Challenge(c.membership, c.account, digest, Used, c.issuedAt, c.expiresAt, Some(now), c.revokedAt, c.version + 1)]
                && (a.status == PendingActivation ==>
                      withPassword && after.accounts == s.accounts[c.account := Account(a.email, ActiveAccount, true, a.version + 1)])
                && (a.status != PendingActivation ==> a.status == ActiveAccount && after.accounts == s.accounts)
                && Present(after, c.membership))
  {
    ActivationFacts(s, digest, withPassword, now);
  }

  /** It succeeds with the challenge that bears the value, if nobody has used or revoked it, in time, for a pending member. */
  lemma ActivationAnswers(s: State, digest: nat, withPassword: bool, now: Instant, k: Uuid)
    requires ChallengesSound(s) && k in s.challenges && s.challenges[k].digest == digest
    ensures var (after, activated) := Activate(s, digest, withPassword, now);
            var c := s.challenges[k];
            var spent, late := c.usedAt != None || c.revokedAt != None, now >= c.expiresAt;
            && (activated == Some(k) <==>
                && !spent && !late
                && s.members[c.membership].status == Pending && s.members[c.membership].role != Admin
                && c.account in s.accounts
                && (s.accounts[c.account].status == ActiveAccount || (s.accounts[c.account].status == PendingActivation && withPassword)))
            && (activated == Some(k) || activated == None)
            && (activated == None ==> after == if !spent && late then s.(challenges := s.challenges[k := c.(status := ChallengeExpired)]) else s)
  {
    assert HasDigest(s, k, digest);
    assert ChallengeWithDigest(s, digest) == Some(k) by {
      assert s.challenges[ChallengeWithDigest(s, digest).value].digest == digest;
    }
    assert ChallengeChecks(s.challenges[k]);
  }

  lemma UnknownValuesDoNothing(s: State, digest: nat, withPassword: bool, now: Instant)
    requires forall k :: k in s.challenges ==> s.challenges[k].digest != digest
    ensures Activate(s, digest, withPassword, now) == (s, None)
  {
  }

  // ---- Mutations ---------------------------------------------------------------------------

  /** What a mutation would make of a member's role and status, or none where it makes no sense. */
  predicate MutationFits(m: Membership, mutation: Mutation, account: Account) {
    && m.role != Admin && m.status != Revoked
    && match mutation
       case ChangeRole(role) => role != Admin && role != m.role
       case Suspend => m.status == Active
       case Reactivate => m.status == Suspended && account.status == ActiveAccount
       case Revoke => true
  }

  /** A present Admin's mutation: each refusal has its own cause. */
  lemma MutationAnswers(s: State, ctx: Actor, membership: Uuid, version: int, mutation: Mutation, now: Instant)
    requires Acts(s, ctx) && ctx.role == Admin && version > 0 && mutation != ChangeRole(Admin)
    ensures var r := Mutate(s, ctx, membership, version, mutation, now).1;
            var known := membership in s.members && s.members[membership].account in s.accounts;
            var own := known && (membership == s.owner || s.members[membership].role == Admin);
            && (r == Err(NotFound) <==> !known)
            && (r == Err(OwnershipInvariant) <==> own)
            && (r == Err(VersionMismatch) <==> known && !own && s.members[membership].version != version)
            && (r == Err(InvalidTransition) <==>
                known && !own && s.members[membership].version == version
                && !MutationFits(s.members[membership], mutation, s.accounts[s.members[membership].account]))
            && (r.Ok? <==>
                known && !own && s.members[membership].version == version
                && MutationFits(s.members[membership], mutation, s.accounts[s.members[membership].account]))
  {
  }

  /** The checks that come first of all. */
  lemma MutationGuards(s: State, ctx: Actor, membership: Uuid, version: int, mutation: Mutation, now: Instant)
    ensures var r := Mutate(s, ctx, membership, version, mutation, now).1;
            && (mutation == ChangeRole(Admin) ==> r == Err(OwnershipInvariant))
            && (mutation != ChangeRole(Admin) && version <= 0 ==> r == Err(VersionMismatch))
  {
  }

  lemma MutationChanges(s: State, ctx: Actor, membership: Uuid, version: int, mutation: Mutation, now: Instant)
    requires Mutate(s, ctx, membership, version, mutation, now).1.Ok?
    ensures var (after, r) := Mutate(s, ctx, membership, version, mutation, now);
            && after.owner == s.owner && after.version == s.version && after.transfers == s.transfers && after.accounts == s.accounts
            && membership in s.members
            && (var m := s.members[membership];
                && r.value.account == m.account && r.value.version == m.version + 1
                && r.value.role == (if mutation.ChangeRole? then mutation.role else m.role)
                && r.value.status == (match mutation case ChangeRole(_) => m.status case Suspend => Suspended case Reactivate => Active case Revoke => Revoked)
                && after.members == s.members[membership := r.value]
                && SessionsEndFor(s, after, if mutation == Reactivate then {} else {m.account}))
            && after.challenges.Keys == s.challenges.Keys
            && (if mutation == Revoke then ChallengesEndFor(s.challenges, after.challenges, membership, now) else after.challenges == s.challenges)
  {
  }

  // ---- Transfers ---------------------------------------------------------------------------

  /** What is open is closed: as expired when it is due, as cancelled before; the rest is as it was. */
  ghost predicate TransfersSuperseded(before: map<Uuid, Transfer>, after: map<Uuid, Transfer>, now: Instant) {
    forall k {:trigger after[k]} :: k in before ==>
      && k in after
      && var t := before[k];
         after[k] == if t.status != Initiated then t
                     else if t.expiresAt <= now then t.(status := TransferExpired, expiredAt := Some(now), version := t.version + 1)
                     else t.(status := Cancelled, cancelledAt := Some(now), version := t.version + 1)
  }

  /** The actor's live session and password are the owner's. */
  predicate Reauthenticates(s: State, ctx: Actor, session: Uuid, passwordMatches: bool) {
    && Present(s, ctx.membership) && s.members[ctx.membership].account == ctx.account && s.members[ctx.membership].role == Admin
    && s.owner == ctx.membership && s.accounts[ctx.account].hasPassword && passwordMatches
    && session in s.sessions && s.sessions[session].account == ctx.account && s.sessions[session].active
  }

  lemma InitiationAnswers(s: State, ctx: Actor, target: Uuid, formerRole: Role, session: Uuid, passwordMatches: bool,
                          digest: nat, now: Instant, ids: NewIds)
    ensures var (after, r) := Initiate(s, ctx, target, formerRole, session, passwordMatches, digest, now, ids);
            var eligible := Present(s, target) && target != ctx.membership && s.members[target].role != Admin;
            var asked := formerRole != Admin && Reauthenticates(s, ctx, session, passwordMatches);
            && (r.Err? ==> after == s)
            && (r == Err(TransferConflict) <==> formerRole == Admin)
            && (r == Err(ReauthenticationFailed) <==> formerRole != Admin && !Reauthenticates(s, ctx, session, passwordMatches))
            && (r == Err(NotFound) <==> asked && !eligible)
            && (r.Ok? <==> asked && eligible && ids.transfer !in s.transfers
                           && forall k :: k in s.transfers ==> s.transfers[k].digest != digest)
  {
  }

  lemma InitiationChanges(s: State, ctx: Actor, target: Uuid, formerRole: Role, session: Uuid, passwordMatches: bool,
                          digest: nat, now: Instant, ids: NewIds)
    requires Initiate(s, ctx, target, formerRole, session, passwordMatches, digest, now, ids).1.Ok?
    ensures var after := Initiate(s, ctx, target, formerRole, session, passwordMatches, digest, now, ids).0;
            && after == s.(transfers := after.transfers) && after.transfers.Keys == s.transfers.Keys + {ids.transfer}
            && ids.transfer !in s.transfers && TransfersSuperseded(s.transfers, after.transfers, now)
            && after.transfers[ids.transfer]
               == Transfer(s.owner, target, digest, formerRole, Initiated, now, now + 30 * MINUTE, None, None, None, None, 1)
  {
  }

  /** Presented by the target itself, in its role, with the transfer's value, before it is due, while both parties are present. */
  predicate Takes(s: State, ctx: Actor, k: Uuid, digest: nat, now: Instant) {
    && k in s.transfers
    && var t := s.transfers[k];
       && t.status == Initiated && now < t.expiresAt && t.digest == digest
       && t.confirmedAt == None && t.cancelledAt == None
       && t.target == ctx.membership && t.owner == s.owner
       && Present(s, t.owner) && s.members[t.owner].role == Admin
       && Acts(s, ctx) && ctx.role != Admin
  }

  lemma ConfirmationAnswers(s: State, ctx: Actor, k: Uuid, digest: nat, now: Instant)
    requires OwnershipValid(s)
    ensures var (after, r) := Confirm(s, ctx, k, digest, now);
            && (r == if Takes(s, ctx, k, digest, now) then Ok(k) else Err(ConfirmationDenied))
            && (r.Err? ==>
                  after == if k in s.transfers && s.transfers[k].status == Initiated && now >= s.transfers[k].expiresAt
                           then s.(transfers := s.transfers[k := s.transfers[k].(status := TransferExpired, expiredAt := Some(now), version := s.transfers[k].version + 1)])
                           else s)
  {
    if ReadyToConfirm(s, ctx, k, digest, now) {
      ConfirmWritesGoThrough(s, ctx, k, digest, now);
    }
  }

  /** A confirmation changes the two parties, the workspace, the transfer and the parties' sessions, and nothing else. */
  lemma ConfirmationChanges(s: State, ctx: Actor, k: Uuid, digest: nat, now: Instant)
    requires OwnershipValid(s) && Takes(s, ctx, k, digest, now)
    ensures var after, t := Confirm(s, ctx, k, digest, now).0, s.transfers[k];
            && t.owner in s.members && t.target in s.members
            && (var former, next := s.members[t.owner], s.members[t.target];
                && after.owner == t.target && after.version == s.version + 1
                && after.accounts == s.accounts && after.challenges == s.challenges
                && after.members == s.members[t.owner := Membership(former.account, t.formerRole, former.status, former.version + 1)]
                                             [t.target := Membership(next.account, Admin, next.status, next.version + 1)]
                && after.transfers == s.transfers[k := Transfer(t.owner, t.target, t.digest, t.formerRole, Completed, t.initiatedAt, t.expiresAt,
                                                                Some(now), None, t.expiredAt, Some(now), t.version + 2)]
                && SessionsEndFor(s, after, {former.account, next.account}))
  {
    ConfirmWritesGoThrough(s, ctx, k, digest, now);
  }

  /** A cancellation: each refusal has its own cause, and a due transfer is marked expired instead. */
  lemma CancellationAnswers(s: State, ctx: Actor, k: Uuid, version: int, now: Instant)
    requires version > 0
    ensures var (after, r) := Cancel(s, ctx, k, version, now);
            var owner := s.owner == ctx.membership && Present(s, ctx.membership) && s.members[ctx.membership].account == ctx.account
                         && s.members[ctx.membership].role == Admin;
            var mine := owner && k in s.transfers && s.transfers[k].owner == ctx.membership;
            && (r == Err(NotFound) <==> !mine)
            && (r == Err(VersionMismatch) <==> mine && s.transfers[k].version != version)
            && (r == Err(TransferConflict) <==>
                mine && s.transfers[k].version == version && (s.transfers[k].status != Initiated || now >= s.transfers[k].expiresAt))
            && (r.Ok? <==> mine && s.transfers[k].version == version && s.transfers[k].status == Initiated && now < s.transfers[k].expiresAt)
            && (if mine && s.transfers[k].version == version && s.transfers[k].status == Initiated
                then after == s.(transfers := s.transfers[k :=
                       if now >= s.transfers[k].expiresAt
                       then s.transfers[k].(status := TransferExpired, expiredAt := Some(now), version := version + 1)
                       else s.transfers[k].(status := Cancelled, cancelledAt := Some(now), version := version + 1)])
                else after == s)
  {
  }

  // ---- What is stored ----------------------------------------------------------------------

  /** What every transfer of a run from bootstrap shows: two parties, no Admin role for the former owner, and the evidence of its status. */
  lemma StoredTransfersAreSound(email: string, accountId: Uuid, membershipId: Uuid, steps: seq<Step>, k: Uuid)
    requires k in WorkspaceSafety.After(Bootstrapped(email, accountId, membershipId), steps).transfers
    ensures var t := WorkspaceSafety.After(Bootstrapped(email, accountId, membershipId), steps).transfers[k];
            && t.owner != t.target && t.formerRole != Admin && t.initiatedAt < t.expiresAt
            && t.status in {Initiated, Completed, Cancelled, TransferExpired}
            && (t.status == Completed <==> t.confirmedAt.Some?) && (t.status == Completed <==> t.completedAt.Some?)
            && (t.status == Cancelled <==> t.cancelledAt.Some?) && (t.status == TransferExpired <==> t.expiredAt.Some?)
  {
    BootstrapIsValid(email, accountId, membershipId);
    RunsKeepOwnership(Bootstrapped(email, accountId, membershipId), steps);
    assert TransferChecks(WorkspaceSafety.After(Bootstrapped(email, accountId, membershipId), steps).transfers[k]);
  }

  /** What every challenge of such a run shows. */
  lemma StoredChallengesAreSound(email: string, accountId: Uuid, membershipId: Uuid, steps: seq<Step>, k: Uuid)
    requires k in WorkspaceSafety.After(Bootstrapped(email, accountId, membershipId), steps).challenges
    ensures var s := WorkspaceSafety.After(Bootstrapped(email, accountId, membershipId), steps);
            var c := s.challenges[k];
            && c.issuedAt < c.expiresAt && (c.status == Used <==> c.usedAt.Some?) && (c.status == ChallengeRevoked <==> c.revokedAt.Some?)
            && c.membership in s.members && s.members[c.membership].account == c.account && c.account in s.accounts
            && forall j :: j in s.challenges && s.challenges[j].digest == c.digest ==> j == k
  {
    BootstrapHasNoChallenges(email, accountId, membershipId);
    RunsKeepChallenges(Bootstrapped(email, accountId, membershipId), steps);
    var s := WorkspaceSafety.After(Bootstrapped(email, accountId, membershipId), steps);
    assert ChallengeChecks(s.challenges[k]);
    forall j | j in s.challenges && s.challenges[j].digest == s.challenges[k].digest ensures j == k {
    }
  }

  /** An installation begins with one active account with a password, and its active Admin who is the owner. */
  lemma InstallationsBegin(email: string, accountId: Uuid, membershipId: Uuid)
    ensures var s := Bootstrapped(email, accountId, membershipId);
            && s.owner == membershipId && s.version == 1 && s.transfers == map[] && s.challenges == map[] && s.sessions == map[]
            && s.accounts.Keys == {accountId} && s.members.Keys == {membershipId}
            && Present(s, s.owner) && s.members[s.owner].role == Admin && s.accounts[accountId].email == email && s.accounts[accountId].hasPassword
            && s.members[membershipId].version == 1 && s.accounts[accountId].version == 1
            && EmailsUnique(s)
  {
  }
}
