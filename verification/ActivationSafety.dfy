/**
 Activation challenges over whole runs: each is spent at most once, each membership is activated at most
 once, and with a clock that does not go back no spent challenge ever changes again.
 */
module ActivationSafety {
  import opened Common
  import opened Workspace
  import opened WorkspaceSafety
  import opened Runs

  // ---- What the challenges always satisfy --------------------------------------------------

  ghost predicate ChallengesSound(s: State) {
    && (forall k {:trigger s.challenges[k]} :: k in s.challenges ==>
          && ChallengeChecks(s.challenges[k])
          && s.challenges[k].membership in s.members && s.members[s.challenges[k].membership].account == s.challenges[k].account)
    && (forall j, k {:trigger s.challenges[j], s.challenges[k]} ::
          j in s.challenges && k in s.challenges && s.challenges[j].digest == s.challenges[k].digest ==> j == k)
  }

  /** At most one issued challenge per membership. */
  ghost predicate OneIssued(s: State) {
    forall j, k {:trigger s.challenges[j], s.challenges[k]} ::
      (j in s.challenges && k in s.challenges && s.challenges[j].status == Issued && s.challenges[k].status == Issued
       && s.challenges[j].membership == s.challenges[k].membership) ==> j == k
  }

  ghost predicate MembersHaveAccounts(s: State) {
    forall k {:trigger s.members[k]} :: k in s.members ==> s.members[k].account in s.accounts
  }

  ghost predicate ActivationValid(s: State) {
    ChallengesSound(s) && OneIssued(s) && MembersHaveAccounts(s)
  }

  /** Challenges are never dropped or redirected, and one that was used or revoked never changes. */
  ghost predicate ChallengesMoveOn(s: State, after: State) {
    forall k {:trigger s.challenges[k]} {:trigger after.challenges[k]} :: k in s.challenges ==>
      && k in after.challenges && after.challenges[k].membership == s.challenges[k].membership
      && after.challenges[k].expiresAt == s.challenges[k].expiresAt
      && (s.challenges[k].usedAt.Some? || s.challenges[k].revokedAt.Some? ==> after.challenges[k] == s.challenges[k])
  }

  // ---- Each command ------------------------------------------------------------------------

  /** Members and challenges are as before, with some issued challenges perhaps revoked. */
  ghost predicate OnlyRevokes(s: State, after: State) {
    && after.challenges.Keys == s.challenges.Keys
    && forall k {:trigger after.challenges[k]} :: k in s.challenges ==>
         after.challenges[k] == s.challenges[k] || RevokedFrom(s.challenges[k], after.challenges[k])
  }

  predicate RevokedFrom(c: Challenge, d: Challenge) {
    && c.status == Issued && d.status == ChallengeRevoked && d.revokedAt.Some?
    && d.membership == c.membership && d.account == c.account && d.digest == c.digest && d.issuedAt == c.issuedAt
    && d.expiresAt == c.expiresAt && d.usedAt == c.usedAt
  }

  /** Members keep their accounts, and a member that is not pending stays so. */
  ghost predicate AccountsKept(s: State, after: State) {
    && (forall k {:trigger s.members[k]} {:trigger after.members[k]} :: k in s.members ==>
          k in after.members && after.members[k].account == s.members[k].account)
    && (forall k {:trigger after.members[k]} :: k in after.members ==> k in s.members && after.members[k].account in after.accounts)
  }

  lemma RevokingKeepsChallenges(s: State, after: State)
    requires ActivationValid(s) && OnlyRevokes(s, after) && AccountsKept(s, after)
    ensures ActivationValid(after) && ChallengesMoveOn(s, after)
  {
  }

  lemma RevokeOnlyRevokes(s: State, membership: Uuid, at: Instant)
    ensures OnlyRevokes(s, s.(challenges := RevokeChallenges(s.challenges, membership, at)))
    ensures forall k {:trigger RevokeChallenges(s.challenges, membership, at)[k]} :: k in s.challenges && s.challenges[k].membership == membership ==>
              RevokeChallenges(s.challenges, membership, at)[k].status != Issued
  {
  }

  /** A new challenge for a membership that has no issued one. */
  lemma IssuingKeepsChallenges(s: State, k: Uuid, membership: Uuid, credential: Credential)
    requires ActivationValid(s) && membership in s.members && k !in s.challenges && DigestIsNew(s.challenges, credential.digest)
    requires credential.expiresAt > credential.issuedAt
    requires forall j {:trigger s.challenges[j]} :: j in s.challenges && s.challenges[j].membership == membership ==> s.challenges[j].status != Issued
    ensures var after := s.(challenges := s.challenges[k := IssuedChallenge(membership, s.members[membership].account, credential)]);
            ActivationValid(after) && ChallengesMoveOn(s, after)
  {
  }

  lemma AddMemberKeepsChallenges(s: State, account: Uuid, role: Role, c: Credential, ids: NewIds)
    requires ActivationValid(s) && account in s.accounts && c.expiresAt > c.issuedAt
    ensures var after := AddMember(s, account, role, c, ids).0;
            ActivationValid(after) && ChallengesMoveOn(s, after) && MembersStay(s, after)
  {
    if AddMember(s, account, role, c, ids).1.Ok? {
      var joined := s.(members := s.members[ids.membership := Membership(account, role, Pending, 1)]);
      assert ActivationValid(joined);
      assert forall j {:trigger s.challenges[j]} :: j in s.challenges ==> s.challenges[j].membership != ids.membership;
      IssuingKeepsChallenges(joined, ids.challenge, ids.membership, c);
    }
  }

  lemma EnrollingKeepsChallenges(s: State, account: Uuid, email: string)
    requires ActivationValid(s)
    ensures ActivationValid(s.(accounts := s.accounts[account := Account(email, PendingActivation, false, 1)]))
  {
  }

  lemma ProvisionAdds(s: State, ctx: Actor, email: string, asAdvisor: bool, digest: nat, now: Instant, ids: NewIds)
    ensures var role := if asAdvisor then Advisor else Contributor;
            var credential := Issue(digest, now, CHALLENGE_LIFETIME);
            var found := AccountWithEmail(s, email);
            var after := Provision(s, ctx, email, asAdvisor, digest, now, ids).0;
            || after == s
            || (found.None? && after == AddMember(s.(accounts := s.accounts[ids.account := Account(email, PendingActivation, false, 1)]), ids.account, role, credential, ids).0)
            || (found.Some? && after == AddMember(s, found.value, role, credential, ids).0)
  {
  }

  lemma ProvisionKeepsChallenges(s: State, ctx: Actor, email: string, asAdvisor: bool, digest: nat, now: Instant,
                                 ids: NewIds)
    requires ActivationValid(s)
    ensures var after := Provision(s, ctx, email, asAdvisor, digest, now, ids).0;
            ActivationValid(after) && ChallengesMoveOn(s, after) && MembersStay(s, after)
  {
    var role := if asAdvisor then Advisor else Contributor;
    var credential := Issue(digest, now, CHALLENGE_LIFETIME);
    var found := AccountWithEmail(s, email);
    ProvisionAdds(s, ctx, email, asAdvisor, digest, now, ids);
    if found.None? {
      var enrolled := s.(accounts := s.accounts[ids.account := Account(email, PendingActivation, false, 1)]);
      EnrollingKeepsChallenges(s, ids.account, email);
      AddMemberKeepsChallenges(enrolled, ids.account, role, credential, ids);
    } else {
      AddMemberKeepsChallenges(s, found.value, role, credential, ids);
    }
  }

  /** The first half of a restart: the issued challenges are revoked and the membership versioned. */
  function Cleared(s: State, membershipId: Uuid, now: Instant): State
    requires membershipId in s.members
  {
    var m := s.members[membershipId];
    s.(challenges := RevokeChallenges(s.challenges, membershipId, now), members := s.members[membershipId := m.(version := m.version + 1)])
  }

  lemma ClearingKeepsChallenges(s: State, membershipId: Uuid, now: Instant)
    requires ActivationValid(s) && membershipId in s.members
    ensures var after := Cleared(s, membershipId, now);
            && ActivationValid(after) && ChallengesMoveOn(s, after) && MembersStay(s, after)
            && after.challenges.Keys == s.challenges.Keys
            && (forall j {:trigger after.challenges[j]} :: j in after.challenges ==> after.challenges[j].digest == s.challenges[j].digest)
            && forall j {:trigger after.challenges[j]} :: j in after.challenges && after.challenges[j].membership == membershipId ==> after.challenges[j].status != Issued
  {
    RevokeOnlyRevokes(s, membershipId, now);
    RevokingKeepsChallenges(s, Cleared(s, membershipId, now));
  }

  lemma RestartIssues(s: State, ctx: Actor, membershipId: Uuid, expectedVersion: int, digest: nat, now: Instant,
                      ids: NewIds)
    requires Restart(s, ctx, membershipId, expectedVersion, digest, now, ids).1.Ok?
    ensures membershipId in s.members && ids.challenge !in s.challenges && DigestIsNew(s.challenges, digest)
    ensures var cleared := Cleared(s, membershipId, now);
            Restart(s, ctx, membershipId, expectedVersion, digest, now, ids).0
            == cleared.(challenges := cleared.challenges[ids.challenge :=
                 IssuedChallenge(membershipId, cleared.members[membershipId].account, Issue(digest, now, CHALLENGE_LIFETIME))])
  {
  }

  lemma RestartKeepsChallenges(s: State, ctx: Actor, membershipId: Uuid, expectedVersion: int, digest: nat,
                               now: Instant, ids: NewIds)
    requires ActivationValid(s)
    ensures var after := Restart(s, ctx, membershipId, expectedVersion, digest, now, ids).0;
            ActivationValid(after) && ChallengesMoveOn(s, after) && MembersStay(s, after)
  {
    if Restart(s, ctx, membershipId, expectedVersion, digest, now, ids).1.Ok? {
      RestartIssues(s, ctx, membershipId, expectedVersion, digest, now, ids);
      var cleared := Cleared(s, membershipId, now);
      ClearingKeepsChallenges(s, membershipId, now);
      IssuingKeepsChallenges(cleared, ids.challenge, membershipId, Issue(digest, now, CHALLENGE_LIFETIME));
      ChallengesMoveOnTwice(s, cleared, Restart(s, ctx, membershipId, expectedVersion, digest, now, ids).0);
    }
  }

  lemma ChallengesMoveOnTwice(s: State, middle: State, after: State)
    requires ChallengesMoveOn(s, middle) && ChallengesMoveOn(middle, after)
    ensures ChallengesMoveOn(s, after)
  {
  }

  lemma MembersStayTwice(s: State, middle: State, after: State)
    requires MembersStay(s, middle) && MembersStay(middle, after)
    ensures MembersStay(s, after)
  {
  }

  /** The challenge an activation succeeds with: it was never used nor revoked and has not expired. */
  lemma ActivationFacts(s: State, digest: nat, withPassword: bool, now: Instant)
    requires Activate(s, digest, withPassword, now).1.Some?
    ensures var k := Activate(s, digest, withPassword, now).1.value;
            && k in s.challenges && s.challenges[k].digest == digest
            && s.challenges[k].usedAt.None? && s.challenges[k].revokedAt.None? && now < s.challenges[k].expiresAt
            && MayActivate(s, s.challenges[k], withPassword)
            && Activate(s, digest, withPassword, now).0 == ActivatedWith(s, k, now)
  {
  }

  /** Activation succeeds with a challenge exactly when its value is presented in time, for the first time, for a member who may be activated. */
  lemma ActivationSucceedsExactly(s: State, digest: nat, withPassword: bool, now: Instant, k: Uuid)
    requires ChallengesSound(s)
    ensures Activate(s, digest, withPassword, now).1 == Some(k) <==>
            && HasDigest(s, k, digest) && s.challenges[k].usedAt.None? && s.challenges[k].revokedAt.None? && now < s.challenges[k].expiresAt
            && MayActivate(s, s.challenges[k], withPassword)
  {
    if HasDigest(s, k, digest) {
      assert s.challenges[ChallengeWithDigest(s, digest).value].digest == s.challenges[k].digest;
    }
  }

  /** The other outcomes change at most one challenge's status, to expired. */
  lemma RefusalFacts(s: State, digest: nat, withPassword: bool, now: Instant)
    requires Activate(s, digest, withPassword, now).1.None?
    ensures var after := Activate(s, digest, withPassword, now).0;
            after == s || exists k :: ExpiresAt(s, after, k, now)
  {
    var found := ChallengeWithDigest(s, digest);
    if found.Some? && VerifyChallenge(s.challenges[found.value], now) == Expired {
      assert ExpiresAt(s, Activate(s, digest, withPassword, now).0, found.value, now);
    }
  }

  ghost predicate ExpiresAt(s: State, after: State, k: Uuid, now: Instant) {
    && k in s.challenges && s.challenges[k].usedAt.None? && s.challenges[k].revokedAt.None? && s.challenges[k].expiresAt <= now
    && after == s.(challenges := s.challenges[k := s.challenges[k].(status := ChallengeExpired)])
  }

  lemma ActivatingKeepsChallenges(s: State, k: Uuid, withPassword: bool, now: Instant)
    requires ActivationValid(s) && k in s.challenges && MayActivate(s, s.challenges[k], withPassword)
    requires s.challenges[k].usedAt.None? && s.challenges[k].revokedAt.None?
    ensures var after := ActivatedWith(s, k, now);
            ActivationValid(after) && ChallengesMoveOn(s, after) && MembersStay(s, after)
  {
  }

  lemma ExpiringKeepsChallenges(s: State, after: State, k: Uuid, now: Instant)
    requires ActivationValid(s) && ExpiresAt(s, after, k, now)
    ensures ActivationValid(after) && ChallengesMoveOn(s, after) && MembersStay(s, after)
  {
  }

  lemma ActivateKeepsChallenges(s: State, digest: nat, withPassword: bool, now: Instant)
    requires ActivationValid(s)
    ensures var after := Activate(s, digest, withPassword, now).0;
            ActivationValid(after) && ChallengesMoveOn(s, after) && MembersStay(s, after)
  {
    var (after, activated) := Activate(s, digest, withPassword, now);
    if activated.Some? {
      ActivationFacts(s, digest, withPassword, now);
      ActivatingKeepsChallenges(s, activated.value, withPassword, now);
    } else {
      RefusalFacts(s, digest, withPassword, now);
      if after != s {
        var k :| ExpiresAt(s, after, k, now);
        ExpiringKeepsChallenges(s, after, k, now);
      }
    }
  }

  lemma MutateOnlyRevokes(s: State, ctx: Actor, membershipId: Uuid, expectedVersion: int, mutation: Mutation,
                          now: Instant)
    ensures OnlyRevokes(s, Mutate(s, ctx, membershipId, expectedVersion, mutation, now).0)
  {
  }

  lemma MutateKeepsMembers(s: State, ctx: Actor, membershipId: Uuid, expectedVersion: int, mutation: Mutation,
                           now: Instant)
    requires MembersHaveAccounts(s)
    ensures var after := Mutate(s, ctx, membershipId, expectedVersion, mutation, now).0; AccountsKept(s, after) && MembersStay(s, after)
  {
  }

  lemma MutateKeepsChallenges(s: State, ctx: Actor, membershipId: Uuid, expectedVersion: int, mutation: Mutation,
                              now: Instant)
    requires ActivationValid(s)
    ensures var after := Mutate(s, ctx, membershipId, expectedVersion, mutation, now).0;
            ActivationValid(after) && ChallengesMoveOn(s, after) && MembersStay(s, after)
  {
    MutateOnlyRevokes(s, ctx, membershipId, expectedVersion, mutation, now);
    MutateKeepsMembers(s, ctx, membershipId, expectedVersion, mutation, now);
    RevokingKeepsChallenges(s, Mutate(s, ctx, membershipId, expectedVersion, mutation, now).0);
  }

  lemma ConfirmRevokesNothing(s: State, ctx: Actor, k: Uuid, digest: nat, now: Instant)
    requires MembersHaveAccounts(s)
    ensures var after := Confirm(s, ctx, k, digest, now).0;
            after.challenges == s.challenges && AccountsKept(s, after) && MembersStay(s, after)
  {
    if Confirm(s, ctx, k, digest, now).1.Ok? {
      HandingOverKeepsMembers(s, k, now);
    }
  }

  lemma HandingOverKeepsMembers(s: State, k: Uuid, now: Instant)
    requires MembersHaveAccounts(s) && k in s.transfers && s.transfers[k].owner in s.members && s.transfers[k].target in s.members
    ensures var after := ConfirmWrites(s, k, now).2;
            after.challenges == s.challenges && AccountsKept(s, after) && MembersStay(s, after)
  {
  }

  lemma OthersRevokeNothing(s: State, step: Step)
    requires MembersHaveAccounts(s) && (step.Initiating? || step.Cancelling? || step.OpeningSession? || step.ChangingAccount?)
    ensures var after := Next(s, step);
            after.challenges == s.challenges && AccountsKept(s, after) && MembersStay(s, after)
  {
  }

  lemma NextKeepsChallenges(s: State, step: Step)
    requires ActivationValid(s)
    ensures ActivationValid(Next(s, step)) && ChallengesMoveOn(s, Next(s, step)) && MembersStay(s, Next(s, step))
  {
    match step
    case Provisioning(ctx, email, asAdvisor, digest, now, ids) => ProvisionKeepsChallenges(s, ctx, email, asAdvisor, digest, now, ids);
    case Restarting(ctx, membership, version, digest, now, ids) => RestartKeepsChallenges(s, ctx, membership, version, digest, now, ids);
    case Activating(digest, withPassword, now) => ActivateKeepsChallenges(s, digest, withPassword, now);
    case Mutating(ctx, membership, version, mutation, now) => MutateKeepsChallenges(s, ctx, membership, version, mutation, now);
    case Confirming(ctx, transfer, digest, now) =>
      ConfirmRevokesNothing(s, ctx, transfer, digest, now);
      RevokingKeepsChallenges(s, Next(s, step));
    case _ =>
      OthersRevokeNothing(s, step);
      RevokingKeepsChallenges(s, Next(s, step));
  }

  // ---- Every run ---------------------------------------------------------------------------

  lemma BootstrapHasNoChallenges(email: string, accountId: Uuid, membershipId: Uuid)
    ensures ActivationValid(Bootstrapped(email, accountId, membershipId))
  {
  }

  lemma {:induction false} RunsKeepChallenges(s: State, steps: seq<Step>)
    requires ActivationValid(s)
    ensures ActivationValid(After(s, steps)) && ChallengesMoveOn(s, After(s, steps)) && MembersStay(s, After(s, steps))
  {
    if steps != [] {
      var before := After(s, steps[..|steps| - 1]);
      RunsKeepChallenges(s, steps[..|steps| - 1]);
      NextKeepsChallenges(before, steps[|steps| - 1]);
      ChallengesMoveOnTwice(s, before, After(s, steps));
      MembersStayTwice(s, before, After(s, steps));
    }
  }

  /** The challenge a step activates with. */
  ghost function ActivatedBy(s: State, step: Step): Option<Uuid> {
    if step.Activating? then Activate(s, step.digest, step.withPassword, step.now).1 else None
  }

  /** Single use: in a run, no challenge and no membership is ever activated a second time. */
  lemma ActivationHappensOnce(s: State, steps: seq<Step>, i: nat, j: nat)
    requires ActivationValid(s) && i < j < |steps|
    requires ActivatedBy(After(s, steps[..i]), steps[i]).Some? && ActivatedBy(After(s, steps[..j]), steps[j]).Some?
    ensures var first, again := ActivatedBy(After(s, steps[..i]), steps[i]).value, ActivatedBy(After(s, steps[..j]), steps[j]).value;
            && first != again
            && After(s, steps[..i]).challenges[first].membership != After(s, steps[..j]).challenges[again].membership
  {
    var before, later := After(s, steps[..i]), After(s, steps[..j]);
    RunsKeepChallenges(s, steps[..i]);
    ActivationFacts(before, steps[i].digest, steps[i].withPassword, steps[i].now);
    ActivationFacts(later, steps[j].digest, steps[j].withPassword, steps[j].now);
    var first := ActivatedBy(before, steps[i]).value;
    var done := Next(before, steps[i]);
    NextKeepsChallenges(before, steps[i]);
    RunOneMore(Next, s, steps, i);
    RunSplits(Next, s, steps, i + 1, j);
    RunsKeepChallenges(done, steps[i + 1..j]);
    assert done.challenges[first].usedAt.Some? && done.members[before.challenges[first].membership].status == Active;
    assert later.challenges[first] == done.challenges[first];
  }

  // ---- Issued challenges and pending members -----------------------------------------------

  ghost predicate IssuedArePending(s: State) {
    forall k {:trigger s.challenges[k]} :: k in s.challenges && s.challenges[k].status == Issued ==>
      s.challenges[k].membership in s.members && s.members[s.challenges[k].membership].status == Pending
  }

  /** A challenge in any of the three end states. */
  predicate Spent(c: Challenge) {
    c.status != Issued
  }

  ghost predicate SpentStay(s: State, after: State) {
    forall k {:trigger s.challenges[k]} {:trigger after.challenges[k]} :: k in s.challenges && Spent(s.challenges[k]) ==>
      k in after.challenges && after.challenges[k] == s.challenges[k]
  }

  /** What every step but an activation does to spent challenges, whatever its time: nothing. */
  ghost predicate Quiet(s: State, after: State) {
    && SpentStay(s, after) && (IssuedArePending(s) ==> IssuedArePending(after))
    && forall k {:trigger after.challenges[k]} :: k in after.challenges && after.challenges[k].status == ChallengeExpired ==>
         k in s.challenges && s.challenges[k] == after.challenges[k]
  }

  lemma RestartIsQuiet(s: State, ctx: Actor, membershipId: Uuid, expectedVersion: int, digest: nat, now: Instant,
                       ids: NewIds)
    ensures Quiet(s, Restart(s, ctx, membershipId, expectedVersion, digest, now, ids).0)
  {
  }

  lemma AddMemberIsQuiet(s: State, account: Uuid, role: Role, c: Credential, ids: NewIds)
    requires ChallengesSound(s)
    ensures Quiet(s, AddMember(s, account, role, c, ids).0)
  {
  }

  lemma ProvisionIsQuiet(s: State, ctx: Actor, email: string, asAdvisor: bool, digest: nat, now: Instant, ids: NewIds)
    requires ChallengesSound(s)
    ensures Quiet(s, Provision(s, ctx, email, asAdvisor, digest, now, ids).0)
  {
    var role := if asAdvisor then Advisor else Contributor;
    var credential := Issue(digest, now, CHALLENGE_LIFETIME);
    var found := AccountWithEmail(s, email);
    ProvisionAdds(s, ctx, email, asAdvisor, digest, now, ids);
    if found.None? {
      var enrolled := s.(accounts := s.accounts[ids.account := Account(email, PendingActivation, false, 1)]);
      AddMemberIsQuiet(enrolled, ids.account, role, credential, ids);
    } else {
      AddMemberIsQuiet(s, found.value, role, credential, ids);
    }
  }

  lemma MutateIsQuiet(s: State, ctx: Actor, membershipId: Uuid, expectedVersion: int, mutation: Mutation, now: Instant)
    ensures Quiet(s, Mutate(s, ctx, membershipId, expectedVersion, mutation, now).0)
  {
  }

  lemma ConfirmIsQuiet(s: State, ctx: Actor, k: Uuid, digest: nat, now: Instant)
    ensures Quiet(s, Confirm(s, ctx, k, digest, now).0)
  {
  }

  lemma OthersAreQuiet(s: State, step: Step)
    requires step.Initiating? || step.Cancelling? || step.OpeningSession? || step.ChangingAccount?
    ensures Quiet(s, Next(s, step))
  {
  }

  lemma NextIsQuiet(s: State, step: Step)
    requires ChallengesSound(s) && !step.Activating?
    ensures Quiet(s, Next(s, step))
  {
    match step
    case Provisioning(ctx, email, asAdvisor, digest, now, ids) => ProvisionIsQuiet(s, ctx, email, asAdvisor, digest, now, ids);
    case Restarting(ctx, membership, version, digest, now, ids) => RestartIsQuiet(s, ctx, membership, version, digest, now, ids);
    case Mutating(ctx, membership, version, mutation, now) => MutateIsQuiet(s, ctx, membership, version, mutation, now);
    case Confirming(ctx, transfer, digest, now) => ConfirmIsQuiet(s, ctx, transfer, digest, now);
    case _ => OthersAreQuiet(s, step);
  }

  /** The membership has an issued challenge. */
  ghost predicate HasIssued(s: State, membership: Uuid) {
    exists j {:trigger s.challenges[j]} :: j in s.challenges && s.challenges[j].status == Issued && s.challenges[j].membership == membership
  }

  /**
   An activation leaves an issued challenge on the membership it has just made active exactly when it
   succeeded with a challenge already marked expired while a newer one was issued.
   */
  lemma ActivationLeavesIssued(s: State, digest: nat, withPassword: bool, now: Instant)
    requires ActivationValid(s) && IssuedArePending(s) && Activate(s, digest, withPassword, now).1.Some?
    ensures var (after, activated) := Activate(s, digest, withPassword, now);
            var k := activated.value;
            && k in s.challenges && s.challenges[k].membership in after.members
            && after.members[s.challenges[k].membership].status == Active
            && (HasIssued(after, s.challenges[k].membership) <==>
                s.challenges[k].status == ChallengeExpired && HasIssued(s, s.challenges[k].membership))
            && (IssuedArePending(after) <==> !HasIssued(after, s.challenges[k].membership))
  {
    ActivationFacts(s, digest, withPassword, now);
    var (after, activated) := Activate(s, digest, withPassword, now);
    IssuedAfterActivation(s, activated.value, withPassword, now);
  }

  lemma IssuedAfterActivation(s: State, k: Uuid, withPassword: bool, now: Instant)
    requires ActivationValid(s) && IssuedArePending(s) && k in s.challenges && MayActivate(s, s.challenges[k], withPassword)
    requires s.challenges[k].usedAt.None? && s.challenges[k].revokedAt.None?
    ensures var after, m := ActivatedWith(s, k, now), s.challenges[k].membership;
            && m in after.members && after.members[m].status == Active
            && (HasIssued(after, m) <==> s.challenges[k].status == ChallengeExpired && HasIssued(s, m))
            && (IssuedArePending(after) <==> !HasIssued(after, m))
  {
    var after, m := ActivatedWith(s, k, now), s.challenges[k].membership;
    assert ChallengeChecks(s.challenges[k]);
    if s.challenges[k].status == ChallengeExpired && HasIssued(s, m) {
      var j :| j in s.challenges && s.challenges[j].status == Issued && s.challenges[j].membership == m;
      assert after.challenges[j] == s.challenges[j];
    }
  }

  /** The step presents the value of a challenge marked expired, at a time before its expiry, while a newer one is issued. */
  ghost predicate RevivesBesideIssued(s: State, step: Step) {
    && step.Activating?
    && exists k {:trigger HasDigest(s, k, step.digest)} ::
         && HasDigest(s, k, step.digest) && s.challenges[k].status == ChallengeExpired && step.now < s.challenges[k].expiresAt
         && MayActivate(s, s.challenges[k], step.withPassword) && HasIssued(s, s.challenges[k].membership)
  }

  lemma ActivationKeepsPending(s: State, digest: nat, withPassword: bool, now: Instant)
    requires ActivationValid(s) && IssuedArePending(s)
    ensures IssuedArePending(Activate(s, digest, withPassword, now).0) <==> !RevivesBesideIssued(s, Activating(digest, withPassword, now))
  {
    var step := Activating(digest, withPassword, now);
    var (after, activated) := Activate(s, digest, withPassword, now);
    if activated.Some? {
      ActivationFacts(s, digest, withPassword, now);
      ActivationLeavesIssued(s, digest, withPassword, now);
      if RevivesBesideIssued(s, step) {
        var k :| HasDigest(s, k, digest) && s.challenges[k].status == ChallengeExpired && HasIssued(s, s.challenges[k].membership);
        assert k == activated.value;
      } else if s.challenges[activated.value].status == ChallengeExpired {
        assert HasDigest(s, activated.value, digest);
      }
    } else {
      RefusalFacts(s, digest, withPassword, now);
      if RevivesBesideIssued(s, step) {
        var k :| HasDigest(s, k, digest) && s.challenges[k].status == ChallengeExpired && now < s.challenges[k].expiresAt
                 && MayActivate(s, s.challenges[k], withPassword);
        assert ChallengeChecks(s.challenges[k]);
        ActivationSucceedsExactly(s, digest, withPassword, now, k);
        assert false;
      }
    }
  }

  /** Each step keeps issued challenges to pending members, exactly unless it is such an activation. */
  lemma NextKeepsPending(s: State, step: Step)
    requires ActivationValid(s) && IssuedArePending(s)
    ensures IssuedArePending(Next(s, step)) <==> !RevivesBesideIssued(s, step)
  {
    if step.Activating? {
      ActivationKeepsPending(s, step.digest, step.withPassword, step.now);
    } else {
      NextIsQuiet(s, step);
    }
  }

  /**
   Issued challenges belong to pending members all through a run, exactly when no step of it presents an
   expired challenge's value at an earlier time beside a newer challenge.
   */
  lemma {:induction false} IssuedStayPendingExactly(s: State, steps: seq<Step>)
    requires ActivationValid(s) && IssuedArePending(s)
    ensures (forall i {:trigger After(s, steps[..i])} :: 0 <= i <= |steps| ==> IssuedArePending(After(s, steps[..i])))
       <==> (forall i {:trigger steps[i]} :: 0 <= i < |steps| ==> !RevivesBesideIssued(After(s, steps[..i]), steps[i]))
  {
    if forall i {:trigger After(s, steps[..i])} :: 0 <= i <= |steps| ==> IssuedArePending(After(s, steps[..i])) {
      forall i | 0 <= i < |steps| ensures !RevivesBesideIssued(After(s, steps[..i]), steps[i]) {
        RunsKeepChallenges(s, steps[..i]);
        NextKeepsPending(After(s, steps[..i]), steps[i]);
        RunOneMore(Next, s, steps, i);
        assert IssuedArePending(After(s, steps[..i + 1]));
      }
    }
    if forall i {:trigger steps[i]} :: 0 <= i < |steps| ==> !RevivesBesideIssued(After(s, steps[..i]), steps[i]) {
      forall i | 0 <= i <= |steps| ensures IssuedArePending(After(s, steps[..i])) {
        PendingUpTo(s, steps, i);
      }
    }
  }

  lemma {:induction false} PendingUpTo(s: State, steps: seq<Step>, n: nat)
    requires ActivationValid(s) && IssuedArePending(s) && n <= |steps|
    requires forall i {:trigger steps[i]} :: 0 <= i < |steps| ==> !RevivesBesideIssued(After(s, steps[..i]), steps[i])
    ensures IssuedArePending(After(s, steps[..n]))
  {
    if n > 0 {
      PendingUpTo(s, steps, n - 1);
      RunsKeepChallenges(s, steps[..n - 1]);
      NextKeepsPending(After(s, steps[..n - 1]), steps[n - 1]);
      RunOneMore(Next, s, steps, n - 1);
    }
  }

  // ---- A clock that does not go back -------------------------------------------------------

  /** Issued challenges belong to pending members, and what was marked expired has expired by `t`. */
  ghost predicate SettledBy(s: State, t: Instant) {
    && (forall k {:trigger s.challenges[k]} :: k in s.challenges && s.challenges[k].status == ChallengeExpired ==> s.challenges[k].expiresAt <= t)
    && IssuedArePending(s)
  }

  lemma SettledLonger(s: State, t: Instant, now: Instant)
    requires SettledBy(s, t) && t <= now
    ensures SettledBy(s, now)
  {
  }

  /** Activation meets an expired challenge only after its expiry, so it leaves it alone. */
  lemma ActivateSettles(s: State, digest: nat, withPassword: bool, now: Instant)
    requires ActivationValid(s) && SettledBy(s, now)
    ensures var after := Activate(s, digest, withPassword, now).0; SettledBy(after, now) && SpentStay(s, after)
  {
    var (after, activated) := Activate(s, digest, withPassword, now);
    if activated.Some? {
      ActivationFacts(s, digest, withPassword, now);
      ActivatingSettles(s, activated.value, withPassword, now);
    } else {
      RefusalFacts(s, digest, withPassword, now);
      if after != s {
        var k :| ExpiresAt(s, after, k, now);
        ExpiringSettles(s, after, k, now);
      }
    }
  }

  lemma ActivatingSettles(s: State, k: Uuid, withPassword: bool, now: Instant)
    requires ActivationValid(s) && SettledBy(s, now) && k in s.challenges && MayActivate(s, s.challenges[k], withPassword)
    requires s.challenges[k].usedAt.None? && s.challenges[k].revokedAt.None? && now < s.challenges[k].expiresAt
    ensures SettledBy(ActivatedWith(s, k, now), now) && SpentStay(s, ActivatedWith(s, k, now))
  {
  }

  lemma ExpiringSettles(s: State, after: State, k: Uuid, now: Instant)
    requires ActivationValid(s) && SettledBy(s, now) && ExpiresAt(s, after, k, now)
    ensures SettledBy(after, now) && SpentStay(s, after)
  {
  }

  lemma NextSettles(s: State, step: Step)
    requires ActivationValid(s) && SettledBy(s, step.now)
    ensures SettledBy(Next(s, step), step.now) && SpentStay(s, Next(s, step))
  {
    if step.Activating? {
      ActivateSettles(s, step.digest, step.withPassword, step.now);
    } else {
      NextIsQuiet(s, step);
    }
  }

  /** The times of the steps never go back. */
  predicate InOrder(steps: seq<Step>) {
    forall i, j {:trigger steps[i], steps[j]} :: 0 <= i < j < |steps| ==> steps[i].now <= steps[j].now
  }

  /**
   With a clock that does not go back: issued challenges belong to pending members, and a challenge that
   was used, revoked or marked expired never changes again.
   */
  lemma {:induction false} SpentChallengesAreFinal(s: State, t: Instant, steps: seq<Step>)
    requires ActivationValid(s) && SettledBy(s, t) && InOrder(steps) && (forall i {:trigger steps[i]} :: 0 <= i < |steps| ==> t <= steps[i].now)
    ensures SettledBy(After(s, steps), if steps == [] then t else steps[|steps| - 1].now) && SpentStay(s, After(s, steps))
  {
    if steps != [] {
      var n := |steps| - 1;
      var before := After(s, steps[..n]);
      SpentChallengesAreFinal(s, t, steps[..n]);
      RunsKeepChallenges(s, steps[..n]);
      SettledLonger(before, if n == 0 then t else steps[n - 1].now, steps[n].now);
      NextSettles(before, steps[n]);
      SpentStayTwice(s, before, Next(before, steps[n]));
    }
  }

  lemma SpentStayTwice(s: State, middle: State, after: State)
    requires SpentStay(s, middle) && SpentStay(middle, after)
    ensures SpentStay(s, after)
  {
  }

  // ---- When the clock does go back ---------------------------------------------------------

  /**
   Activation never looks at the stored status. So a challenge already marked expired comes back to life
   exactly when its value is presented at an earlier time to a member who may still be activated.
   */
  lemma ExpiredChallengesRevive(s: State, digest: nat, withPassword: bool, now: Instant, k: Uuid)
    requires ActivationValid(s) && k in s.challenges && s.challenges[k].status == ChallengeExpired
    ensures Activate(s, digest, withPassword, now).0.challenges[k] != s.challenges[k] <==>
            s.challenges[k].digest == digest && now < s.challenges[k].expiresAt && MayActivate(s, s.challenges[k], withPassword)
  {
    assert ChallengeChecks(s.challenges[k]);
    if s.challenges[k].digest == digest {
      assert HasDigest(s, k, digest);
      assert ChallengeWithDigest(s, digest) == Some(k);
    }
  }

  const OWNER: Actor := Actor(1, 1, Admin)

  /**
   A member is provisioned at hour 0; the value comes a day later and is marked expired; a new challenge is
   issued; and the first value comes again at a time an hour earlier.
   */
  const CLOCK_STORY: seq<Step> := [
    Provisioning(OWNER, "b", false, 30, 0, NewIds(2, 2, 3, 0)),
    Activating(30, true, 24 * HOUR),
    Restarting(OWNER, 2, 1, 40, 24 * HOUR, NewIds(0, 0, 4, 0)),
    Activating(30, true, 23 * HOUR)]

  function Installed(): State {
    Bootstrapped("a", 1, 1)
  }

  function Invited(): State {
    Installed().(accounts := Installed().accounts[2 := Account("b", PendingActivation, false, 1)],
                 members := Installed().members[2 := Membership(2, Contributor, Pending, 1)],
                 challenges := map[3 := Challenge(2, 2, 30, Issued, 0, 24 * HOUR, None, None, 1)])
  }

  function Missed(): State {
    Invited().(challenges := map[3 := Challenge(2, 2, 30, ChallengeExpired, 0, 24 * HOUR, None, None, 1)])
  }

  function Reinvited(): State {
    Missed().(members := Missed().members[2 := Membership(2, Contributor, Pending, 2)],
              challenges := Missed().challenges[4 := Challenge(2, 2, 40, Issued, 24 * HOUR, 48 * HOUR, None, None, 1)])
  }

  lemma InvitationIsStored(s: State)
    requires s == Installed()
    ensures Next(s, CLOCK_STORY[0]) == Invited()
  {
    if AccountWithEmail(s, "b").Some? {
      assert HasEmail(s, AccountWithEmail(s, "b").value, "b");
    }
  }

  lemma InvitationIsMissed(s: State)
    requires s == Invited()
    ensures Next(s, CLOCK_STORY[1]) == Missed()
  {
    assert HasDigest(s, 3, 30);
    assert ChallengeWithDigest(s, 30) == Some(3);
  }

  lemma InvitationIsRepeated(s: State)
    requires s == Missed()
    ensures Next(s, CLOCK_STORY[2]) == Reinvited()
  {
    assert RevokeChallenges(s.challenges, 2, 24 * HOUR) == s.challenges;
  }

  lemma FirstInvitationRevives(s: State)
    requires s == Reinvited()
    ensures var after := Next(s, CLOCK_STORY[3]);
            && 3 in after.challenges && after.challenges[3].status == Used && 2 in after.members && after.members[2].status == Active
            && 4 in after.challenges && after.challenges[4].status == Issued && after.challenges[4].membership == 2
  {
    assert HasDigest(s, 3, 30);
    assert ChallengeWithDigest(s, 30) == Some(3);
  }

  lemma StoryUnfolds(s: State)
    requires s == Installed()
    ensures After(s, CLOCK_STORY[..3]) == Reinvited() && After(s, CLOCK_STORY) == Next(Reinvited(), CLOCK_STORY[3])
  {
    assert CLOCK_STORY[..0] == [] && CLOCK_STORY[..4] == CLOCK_STORY;
    InvitationIsStored(s);
    RunOneMore(Next, s, CLOCK_STORY, 0);
    InvitationIsMissed(Invited());
    RunOneMore(Next, s, CLOCK_STORY, 1);
    InvitationIsRepeated(Missed());
    RunOneMore(Next, s, CLOCK_STORY, 2);
    RunOneMore(Next, s, CLOCK_STORY, 3);
  }

  /** Both promises fail in one run: an expired challenge activates, and an issued one is left on an active member. */
  lemma ClockSetBack()
    ensures !InOrder(CLOCK_STORY) && InOrder(CLOCK_STORY[..3])
    ensures var before, after := After(Bootstrapped("a", 1, 1), CLOCK_STORY[..3]), After(Bootstrapped("a", 1, 1), CLOCK_STORY);
            && 3 in before.challenges && before.challenges[3].status == ChallengeExpired
            && 3 in after.challenges && after.challenges[3].status == Used
            && 2 in after.members && after.members[2].status == Active
            && 4 in after.challenges && after.challenges[4].status == Issued && after.challenges[4].membership == 2
  {
    assert CLOCK_STORY[2].now > CLOCK_STORY[3].now;
    StoryUnfolds(Installed());
    FirstInvitationRevives(Reinvited());
  }

  /** Verification asks about use and revocation first: past its expiry a used challenge is still a used one. */
  lemma UseIsCheckedBeforeExpiry(c: Challenge, now: Instant)
    requires ChallengeChecks(c) && Spent(c) && c.expiresAt <= now
    ensures c.status == Used ==> VerifyChallenge(c, now) == Consumed
    ensures c.status == ChallengeRevoked ==> VerifyChallenge(c, now) == RevokedValue
    ensures c.status != ChallengeExpired ==> !ChallengeChecks(c.(status := ChallengeExpired))
  {
  }
}
