/**
 The membership and ownership repositories as the program runs them: they assign fields of locked rows,
 add rows, flush in order and update in bulk. Each method does exactly what the function of the same
 name in `Workspace` says.
 */
module WorkspaceRepository {
  import opened Common
  import W = Workspace
  import opened Workspace
  import ActivationSafety
  import opened WorkspaceSafety

  class Repository {
    var owner: Uuid
    var version: int
    var accounts: map<Uuid, Account>
    var members: map<Uuid, Membership>
    var transfers: map<Uuid, Transfer>
    var challenges: map<Uuid, Challenge>
    var sessions: map<Uuid, Session>

    /** The bootstrap of an installation. */
    constructor (email: string, accountId: Uuid, membershipId: Uuid)
      ensures Snapshot() == Bootstrapped(email, accountId, membershipId)
      ensures EmailsUnique(Snapshot())
    {
      owner, version := membershipId, 1;
      accounts := map[accountId := Account(email, ActiveAccount, true, 1)];
      members := map[membershipId := Membership(accountId, Admin, Active, 1)];
      transfers, challenges, sessions := map[], map[], map[];
    }

    function Snapshot(): State
      reads this
    {
      State(owner, version, accounts, members, transfers, challenges, sessions)
    }

    method FindAccount(email: string) returns (found: Option<Uuid>)
      requires EmailsUnique(Snapshot())
      ensures found == AccountWithEmail(Snapshot(), email)
    {
      var todo := accounts.Keys;
      while todo != {}
        invariant todo <= accounts.Keys
        invariant forall k :: k in accounts && k !in todo ==> !HasEmail(Snapshot(), k, email)
      {
        var k :| k in todo;
        if accounts[k].email == email {
          assert HasEmail(Snapshot(), k, email);
          assert accounts[AccountWithEmail(Snapshot(), email).value].email == accounts[k].email;
          return Some(k);
        }
        todo := todo - {k};
      }
      found := None;
    }

    method InsertMember(account: Uuid, role: Role, c: Credential, ids: NewIds) returns (r: Result<Uuid, Error>)
      modifies `members, `challenges
      ensures (Snapshot(), r) == AddMember(old(Snapshot()), account, role, c, ids)
    {
      if AccountIsMember(Snapshot(), account) {
        return Err(DuplicateMembership);
      }
      if ids.membership in members || ids.challenge in challenges || !DigestIsNew(challenges, c.digest) {
        return Err(IntegrityViolation);
      }
      members := members[ids.membership := Membership(account, role, Pending, 1)];
      challenges := challenges[ids.challenge := IssuedChallenge(ids.membership, account, c)];
      r := Ok(ids.membership);
    }

    /** A new account and its membership; a refused membership takes the account back. */
    method Enroll(email: string, role: Role, c: Credential, ids: NewIds) returns (r: Result<Uuid, Error>)
      requires EmailsUnique(Snapshot()) && AccountWithEmail(Snapshot(), email).None?
      modifies `accounts, `members, `challenges
      ensures var enrolled := old(Snapshot()).(accounts := old(accounts)[ids.account := Account(email, PendingActivation, false, 1)]);
              var added := AddMember(enrolled, ids.account, role, c, ids);
              if ids.account in old(accounts) then Snapshot() == old(Snapshot()) && r == Err(IntegrityViolation)
              else r == added.1 && Snapshot() == if r.Ok? then added.0 else old(Snapshot())
      ensures EmailsUnique(Snapshot())
    {
      if ids.account in accounts {
        return Err(IntegrityViolation);
      }
      assert forall k :: k in accounts ==> !HasEmail(Snapshot(), k, email);
      var before := accounts;
      accounts := accounts[ids.account := Account(email, PendingActivation, false, 1)];
      r := InsertMember(ids.account, role, c, ids);
      if r.Err? {
        accounts := before;
      }
    }

    method Provision(ctx: Actor, email: string, asAdvisor: bool, digest: nat, now: Instant, ids: NewIds)
      returns (r: Result<Uuid, Error>)
      requires EmailsUnique(Snapshot())
      modifies `accounts, `members, `challenges
      ensures (Snapshot(), r) == W.Provision(old(Snapshot()), ctx, email, asAdvisor, digest, now, ids)
      ensures EmailsUnique(Snapshot())
    {
      var denied := AdminError(Snapshot(), ctx);
      if denied.Some? {
        return Err(denied.value);
      }
      var credential := Issue(digest, now, CHALLENGE_LIFETIME);
      var role := if asAdvisor then Advisor else Contributor;
      var found := FindAccount(email);
      if found.None? {
        r := Enroll(email, role, credential, ids);
        return;
      }
      var status := accounts[found.value].status;
      if status != PendingActivation && status != ActiveAccount {
        return Err(DuplicateMembership);
      }
      r := InsertMember(found.value, role, credential, ids);
    }

    /** The bulk update that revokes a membership's issued challenges. */
    method RevokeIssued(membership: Uuid, at: Instant)
      modifies `challenges
      ensures challenges == RevokeChallenges(old(challenges), membership, at)
    {
      var before := challenges;
      var todo := challenges.Keys;
      while todo != {}
        invariant todo <= before.Keys && challenges.Keys == before.Keys
        invariant forall k {:trigger challenges[k]} :: k in before ==>
                    challenges[k] == if k in todo then before[k] else RevokeChallenges(before, membership, at)[k]
      {
        var k :| k in todo;
        var c := challenges[k];
        if c.membership == membership && c.status == Issued {
          challenges := challenges[k := c.(status := ChallengeRevoked, revokedAt := Some(at), version := c.version + 1)];
        }
        todo := todo - {k};
      }
    }

    /** The flush of a new challenge, under its primary key and its unique digest. */
    method InsertChallenge(id: Uuid, c: Challenge) returns (accepted: bool)
      modifies `challenges
      ensures accepted == (id !in old(challenges) && DigestIsNew(old(challenges), c.digest))
      ensures challenges == if accepted then old(challenges)[id := c] else old(challenges)
    {
      accepted := id !in challenges && DigestIsNew(challenges, c.digest);
      if accepted {
        challenges := challenges[id := c];
      }
    }

    lemma DigestsStayTaken(challenges: map<Uuid, Challenge>, membership: Uuid, at: Instant, digest: nat)
      ensures DigestIsNew(RevokeChallenges(challenges, membership, at), digest) == DigestIsNew(challenges, digest)
    {
      var after := RevokeChallenges(challenges, membership, at);
      assert forall k {:trigger after[k]} {:trigger challenges[k]} :: k in challenges ==> after[k].digest == challenges[k].digest;
    }

    /** The bulk update and the new row go out together; a refused row takes the update back. */
    method Restart(ctx: Actor, membershipId: Uuid, expectedVersion: int, digest: nat, now: Instant, ids: NewIds)
      returns (r: Result<int, Error>)
      modifies `members, `challenges
      ensures (Snapshot(), r) == W.Restart(old(Snapshot()), ctx, membershipId, expectedVersion, digest, now, ids)
    {
      var denied := AdminError(Snapshot(), ctx);
      if denied.Some? {
        return Err(denied.value);
      }
      if membershipId !in members || members[membershipId].status != Pending || members[membershipId].role == Admin {
        return Err(NotFound);
      }
      var membership := members[membershipId];
      if membership.version != expectedVersion {
        return Err(VersionMismatch);
      }
      var before := Snapshot();
      RevokeIssued(membershipId, now);
      DigestsStayTaken(before.challenges, membershipId, now, digest);
      var account := membership.account;
      membership := membership.(version := membership.version + 1);
      members := members[membershipId := membership];
      var accepted := InsertChallenge(ids.challenge, IssuedChallenge(membershipId, account, Issue(digest, now, CHALLENGE_LIFETIME)));
      if !accepted {
        challenges, members := before.challenges, before.members;
        return Err(IntegrityViolation);
      }
      r := Ok(membership.version);
    }

    method FindChallenge(digest: nat) returns (found: Option<Uuid>)
      requires ActivationSafety.ChallengesSound(Snapshot())
      ensures found == ChallengeWithDigest(Snapshot(), digest)
    {
      var todo := challenges.Keys;
      while todo != {}
        invariant todo <= challenges.Keys
        invariant forall k :: k in challenges && k !in todo ==> !HasDigest(Snapshot(), k, digest)
      {
        var k :| k in todo;
        if challenges[k].digest == digest {
          assert HasDigest(Snapshot(), k, digest);
          assert challenges[ChallengeWithDigest(Snapshot(), digest).value].digest == challenges[k].digest;
          return Some(k);
        }
        todo := todo - {k};
      }
      found := None;
    }

    method Activate(digest: nat, withPassword: bool, now: Instant) returns (activated: Option<Uuid>)
      requires ActivationSafety.ChallengesSound(Snapshot())
      modifies `accounts, `members, `challenges
      ensures (Snapshot(), activated) == W.Activate(old(Snapshot()), digest, withPassword, now)
      ensures old(EmailsUnique(Snapshot())) ==> EmailsUnique(Snapshot())
    {
      var found := FindChallenge(digest);
      if found.None? {
        return None;
      }
      var challenge := challenges[found.value];
      var verification := VerifyChallenge(challenge, now);
      var eligible := verification == Valid && MayActivate(Snapshot(), challenge, withPassword);
      if !eligible {
        if verification == Expired {
          challenges := challenges[found.value := challenge.(status := ChallengeExpired)];
        }
        return None;
      }
      var account := accounts[challenge.account];
      if account.status == PendingActivation {
        account := account.(status := ActiveAccount, hasPassword := true);
        account := account.(version := account.version + 1);
        accounts := accounts[challenge.account := account];
      }
      var membership := members[challenge.membership];
      membership := membership.(status := Active);
      membership := membership.(version := membership.version + 1);
      members := members[challenge.membership := membership];
      challenge := challenge.(status := Used, usedAt := Some(now));
      challenge := challenge.(version := challenge.version + 1);
      challenges := challenges[found.value := challenge];
      activated := found;
    }

    method RevokeActiveSessions(account: Uuid)
      modifies `sessions
      ensures sessions == RevokeSessions(old(sessions), account)
    {
      var before := sessions;
      var todo := sessions.Keys;
      while todo != {}
        invariant todo <= before.Keys && sessions.Keys == before.Keys
        invariant forall k {:trigger sessions[k]} :: k in before ==>
                    sessions[k] == if k in todo then before[k] else RevokeSessions(before, account)[k]
      {
        var k :| k in todo;
        if sessions[k].account == account && sessions[k].active {
          sessions := sessions[k := sessions[k].(active := false)];
        }
        todo := todo - {k};
      }
    }

    method Mutate(ctx: Actor, membershipId: Uuid, expectedVersion: int, mutation: Mutation, now: Instant)
      returns (r: Result<Membership, Error>)
      modifies `members, `challenges, `sessions
      ensures (Snapshot(), r) == W.Mutate(old(Snapshot()), ctx, membershipId, expectedVersion, mutation, now)
    {
      if mutation.ChangeRole? && mutation.role == Admin {
        return Err(OwnershipInvariant);
      }
      if expectedVersion <= 0 {
        return Err(VersionMismatch);
      }
      var denied := AdminError(Snapshot(), ctx);
      if denied.Some? {
        return Err(denied.value);
      }
      if membershipId !in members || members[membershipId].account !in accounts {
        return Err(NotFound);
      }
      var membership := members[membershipId];
      if membershipId == owner || membership.role == Admin {
        return Err(OwnershipInvariant);
      }
      if membership.version != expectedVersion {
        return Err(VersionMismatch);
      }
      var transition := ValidateTransition(membership.role, membership.status, mutation);
      if transition.Err? {
        return Err(transition.error);
      }
      if mutation.Reactivate? && accounts[membership.account].status != ActiveAccount {
        return Err(InvalidTransition);
      }
      membership := membership.(role := transition.value.0);
      membership := membership.(status := transition.value.1);
      membership := membership.(version := membership.version + 1);
      members := members[membershipId := membership];
      if mutation.ChangeRole? || mutation.Suspend? || mutation.Revoke? {
        RevokeActiveSessions(membership.account);
      }
      if mutation.Revoke? {
        RevokeIssued(membershipId, now);
      }
      r := Ok(membership);
    }

    /** Marks every open transfer that is due as expired. */
    method ExpireDueTransfers(now: Instant)
      modifies `transfers
      ensures transfers == ExpireDue(old(transfers), now)
    {
      var before := transfers;
      var todo := transfers.Keys;
      while todo != {}
        invariant todo <= before.Keys && transfers.Keys == before.Keys
        invariant forall k {:trigger transfers[k]} :: k in before ==> transfers[k] == if k in todo then before[k] else ExpireDue(before, now)[k]
      {
        var k :| k in todo;
        if transfers[k].status == Initiated && transfers[k].expiresAt <= now {
          transfers := transfers[k := MarkExpired(transfers[k], now)];
        }
        todo := todo - {k};
      }
    }

    /** Cancels every transfer that is still open. */
    method CancelOpenTransfers(now: Instant)
      modifies `transfers
      ensures transfers == CancelOpen(old(transfers), now)
    {
      var before := transfers;
      var todo := transfers.Keys;
      while todo != {}
        invariant todo <= before.Keys && transfers.Keys == before.Keys
        invariant forall k {:trigger transfers[k]} :: k in before ==> transfers[k] == if k in todo then before[k] else CancelOpen(before, now)[k]
      {
        var k :| k in todo;
        if transfers[k].status == Initiated {
          transfers := transfers[k := MarkCancelled(transfers[k], now)];
        }
        todo := todo - {k};
      }
    }

    method InsertTransfer(id: Uuid, t: Transfer) returns (accepted: bool)
      modifies `transfers
      ensures accepted == (id !in old(transfers) && TransferDigestIsNew(old(transfers), t.digest))
      ensures transfers == if accepted then old(transfers)[id := t] else old(transfers)
    {
      accepted := id !in transfers && TransferDigestIsNew(transfers, t.digest);
      if accepted {
        transfers := transfers[id := t];
      }
    }

    lemma TransferDigestsStayTaken(transfers: map<Uuid, Transfer>, now: Instant, digest: nat)
      ensures TransferDigestIsNew(CancelOpen(ExpireDue(transfers, now), now), digest) == TransferDigestIsNew(transfers, digest)
    {
      var due := ExpireDue(transfers, now);
      var after := CancelOpen(due, now);
      assert forall k {:trigger after[k]} {:trigger transfers[k]} :: k in transfers ==> after[k].digest == due[k].digest && due[k].digest == transfers[k].digest;
    }

    /** Superseding comes first; when the new transfer is refused it is taken back with the request. */
    method Initiate(ctx: Actor, target: Uuid, formerRole: Role, session: Uuid, passwordMatches: bool, digest: nat,
                    now: Instant, ids: NewIds) returns (r: Result<Uuid, Error>)
      modifies `transfers
      ensures (Snapshot(), r) == W.Initiate(old(Snapshot()), ctx, target, formerRole, session, passwordMatches, digest, now, ids)
    {
      if formerRole == Admin {
        return Err(TransferConflict);
      }
      if !MayReauthenticate(Snapshot(), ctx, session) || !passwordMatches {
        return Err(ReauthenticationFailed);
      }
      if target !in members || target == ctx.membership || members[target].role == Admin || !ActiveMember(Snapshot(), target) {
        return Err(NotFound);
      }
      var before := transfers;
      ExpireDueTransfers(now);
      CancelOpenTransfers(now);
      TransferDigestsStayTaken(before, now, digest);
      var accepted := InsertTransfer(
        ids.transfer, Transfer(ctx.membership, target, digest, formerRole, Initiated, now, now + TRANSFER_LIFETIME, None, None, None, None, 1));
      if !accepted {
        transfers := before;
        return Err(IntegrityViolation);
      }
      r := Ok(ids.transfer);
    }

    /** The immediate index, checked at every flush. */
    method Flush() returns (accepted: bool)
      ensures accepted == OneActiveAdmin(members)
    {
      accepted := forall j, k {:trigger members[j], members[k]} ::
        j in members && k in members && IsActiveAdmin(members[j]) && IsActiveAdmin(members[k]) ==> j == k;
    }

    method Confirm(ctx: Actor, k: Uuid, digest: nat, now: Instant) returns (r: Result<Uuid, Error>)
      modifies this
      ensures (Snapshot(), r) == W.Confirm(old(Snapshot()), ctx, k, digest, now)
      ensures accounts == old(accounts)
    {
      if k !in transfers {
        return Err(ConfirmationDenied);
      }
      var transfer := transfers[k];
      if transfer.status == Initiated && now >= transfer.expiresAt {
        transfers := transfers[k := MarkExpired(transfer, now)];
        return Err(ConfirmationDenied);
      }
      if transfer.status != Initiated || VerifyTransfer(transfer, digest, now) != Valid {
        return Err(ConfirmationDenied);
      }
      if transfer.target != ctx.membership || owner != transfer.owner {
        return Err(ConfirmationDenied);
      }
      if !MayTakeOver(Snapshot(), ctx, transfer) {
        return Err(ConfirmationDenied);
      }
      r := HandOver(k, now);
    }

    /** The three flushes of a confirmation; a refused one undoes them all. */
    method HandOver(k: Uuid, now: Instant) returns (r: Result<Uuid, Error>)
      requires k in transfers && transfers[k].owner in members && transfers[k].target in members
      modifies this
      ensures var (one, two, three) := ConfirmWrites(old(Snapshot()), k, now);
              if OneActiveAdmin(one.members) && OneActiveAdmin(two.members) && OneActiveAdmin(three.members) && OwnerReferenced(three)
              then Snapshot() == three && r == Ok(k) else Snapshot() == old(Snapshot()) && r == Err(IntegrityViolation)
      ensures accounts == old(accounts)
    {
      var before := Snapshot();
      var accepted := Demote(k, now);
      if accepted {
        accepted := Promote(k);
      }
      if accepted {
        accepted := Complete(k, now);
      }
      if accepted {
        return Ok(k);
      }
      owner, version, accounts, members := before.owner, before.version, before.accounts, before.members;
      transfers, challenges, sessions := before.transfers, before.challenges, before.sessions;
      r := Err(IntegrityViolation);
    }

    method Demote(k: Uuid, now: Instant) returns (accepted: bool)
      requires k in transfers && transfers[k].owner in members
      modifies `transfers, `members
      ensures Snapshot() == Demoted(old(Snapshot()), k, now) && accepted == OneActiveAdmin(members)
    {
      var transfer := transfers[k];
      transfer := transfer.(status := Confirmed, confirmedAt := Some(now), version := transfer.version + 1);
      transfers := transfers[k := transfer];
      var former := members[transfer.owner];
      former := former.(role := transfer.formerRole);
      former := former.(version := former.version + 1);
      members := members[transfer.owner := former];
      accepted := Flush();
    }

    method Promote(k: Uuid) returns (accepted: bool)
      requires k in transfers && transfers[k].target in members
      modifies `members
      ensures Snapshot() == Promoted(old(Snapshot()), k) && accepted == OneActiveAdmin(members)
    {
      var next := members[transfers[k].target];
      next := next.(role := Admin);
      next := next.(version := next.version + 1);
      members := members[transfers[k].target := next];
      accepted := Flush();
    }

    /** The last flush, after which the deferred owner reference has to hold. */
    method Complete(k: Uuid, now: Instant) returns (accepted: bool)
      requires k in transfers && transfers[k].owner in members && transfers[k].target in members
      modifies `owner, `version, `transfers, `sessions
      ensures Snapshot() == HandedOver(old(Snapshot()), k, now)
      ensures accepted == (OneActiveAdmin(members) && OwnerReferenced(Snapshot()))
    {
      var transfer := transfers[k];
      owner := transfer.target;
      version := version + 1;
      transfers := transfers[k := transfer.(status := Completed, completedAt := Some(now), version := transfer.version + 1)];
      RevokeActiveSessions(members[transfer.owner].account);
      RevokeActiveSessions(members[transfer.target].account);
      accepted := Flush();
      accepted := accepted && OwnerReferenced(Snapshot());
    }

    method Cancel(ctx: Actor, k: Uuid, expectedVersion: int, now: Instant) returns (r: Result<Uuid, Error>)
      modifies `transfers
      ensures (Snapshot(), r) == W.Cancel(old(Snapshot()), ctx, k, expectedVersion, now)
    {
      if expectedVersion <= 0 {
        return Err(VersionMismatch);
      }
      if owner != ctx.membership || !ActorValid(Snapshot(), ctx.(role := Admin)) {
        return Err(NotFound);
      }
      if k !in transfers || transfers[k].owner != ctx.membership {
        return Err(NotFound);
      }
      var transfer := transfers[k];
      if transfer.version != expectedVersion {
        return Err(VersionMismatch);
      }
      if transfer.status == Initiated && now >= transfer.expiresAt {
        transfers := transfers[k := MarkExpired(transfer, now)];
        return Err(TransferConflict);
      }
      if transfer.status != Initiated {
        return Err(TransferConflict);
      }
      transfers := transfers[k := MarkCancelled(transfer, now)];
      r := Ok(k);
    }
  }
}
