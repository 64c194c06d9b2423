/**
 What every run of workspace commands keeps: one Admin, who is the owner; at most one open transfer; and
 challenges that are spent once.
 */
module WorkspaceSafety {
  import opened Common
  import opened Workspace
  import opened Runs
  import Ledger

  // ---- The sole Admin ----------------------------------------------------------------------

  /** Exactly one membership is an Admin; it is Active and it is the owner. */
  ghost predicate SoleAdmin(s: State) {
    OwnerReferenced(s) && forall k {:trigger s.members[k]} :: k in s.members && s.members[k].role == Admin ==> k == s.owner
  }

  lemma SoleAdminIsUnique(s: State)
    requires SoleAdmin(s)
    ensures OneActiveAdmin(s.members)
    ensures forall k :: k in s.members ==> (s.members[k].role == Admin <==> k == s.owner)
  {
  }

  // ---- Transfers ---------------------------------------------------------------------------

  ghost predicate TransfersChecked(s: State) {
    forall k {:trigger s.transfers[k]} :: k in s.transfers ==>
      TransferChecks(s.transfers[k]) && s.transfers[k].status != Confirmed && s.transfers[k].target in s.members
  }

  /** At most one transfer is open, and it was opened by the current owner. */
  ghost predicate OneOpenTransfer(s: State) {
    && (forall k {:trigger s.transfers[k]} :: k in s.transfers && s.transfers[k].status == Initiated ==> s.transfers[k].owner == s.owner)
    && (forall j, k {:trigger s.transfers[j], s.transfers[k]} ::
          j in s.transfers && k in s.transfers && s.transfers[j].status == Initiated && s.transfers[k].status == Initiated ==> j == k)
  }

  predicate Terminal(t: Transfer) {
    t.status in {Completed, Cancelled, TransferExpired}
  }

  /** Transfers are never dropped or retargeted, and a terminal one never changes. */
  ghost predicate TransfersMoveOn(s: State, after: State) {
    forall k {:trigger s.transfers[k]} {:trigger after.transfers[k]} :: k in s.transfers ==>
      && k in after.transfers
      && after.transfers[k].owner == s.transfers[k].owner && after.transfers[k].target == s.transfers[k].target
      && after.transfers[k].digest == s.transfers[k].digest && after.transfers[k].formerRole == s.transfers[k].formerRole
      && (Terminal(s.transfers[k]) ==> after.transfers[k] == s.transfers[k])
  }

  ghost predicate MembersStay(s: State, after: State) {
    forall k {:trigger s.members[k]} {:trigger after.members[k]} :: k in s.members ==>
      && k in after.members && after.members[k].account == s.members[k].account
      && (s.members[k].status != Pending ==> after.members[k].status != Pending)
  }

  /** What the ownership results need of a state. */
  ghost predicate OwnershipValid(s: State) {
    SoleAdmin(s) && TransfersChecked(s) && OneOpenTransfer(s)
  }

  lemma BootstrapIsValid(email: string, accountId: Uuid, membershipId: Uuid)
    ensures OwnershipValid(Bootstrapped(email, accountId, membershipId))
  {
  }

  /** A step that leaves the owner and the transfers alone and makes no Admin. */
  ghost predicate LeavesOwnership(s: State, after: State) {
    && after.owner == s.owner && after.transfers == s.transfers
    && (forall k {:trigger after.members[k]} :: k in after.members && after.members[k].role == Admin ==> k in s.members && s.members[k].role == Admin)
    && (forall k {:trigger s.members[k]} :: k in s.members ==> k in after.members)
    && (s.owner in s.members ==> after.members[s.owner].role == s.members[s.owner].role && after.members[s.owner].status == s.members[s.owner].status)
  }

  lemma LeavingOwnershipKeepsIt(s: State, after: State)
    requires OwnershipValid(s) && LeavesOwnership(s, after)
    ensures OwnershipValid(after) && TransfersMoveOn(s, after)
  {
  }

  lemma AddMemberLeavesOwnership(s: State, account: Uuid, role: Role, c: Credential, ids: NewIds)
    requires role != Admin
    ensures LeavesOwnership(s, AddMember(s, account, role, c, ids).0)
  {
  }

  lemma ProvisionLeavesOwnership(s: State, ctx: Actor, email: string, asAdvisor: bool, digest: nat, now: Instant,
                                 ids: NewIds)
    ensures LeavesOwnership(s, Provision(s, ctx, email, asAdvisor, digest, now, ids).0)
  {
    var role := if asAdvisor then Advisor else Contributor;
    var credential := Issue(digest, now, CHALLENGE_LIFETIME);
    var found := AccountWithEmail(s, email);
    if found.None? {
      AddMemberLeavesOwnership(s.(accounts := s.accounts[ids.account := Account(email, PendingActivation, false, 1)]), ids.account, role, credential, ids);
    } else {
      AddMemberLeavesOwnership(s, found.value, role, credential, ids);
    }
  }

  lemma RestartLeavesOwnership(s: State, ctx: Actor, membershipId: Uuid, expectedVersion: int, digest: nat,
                               now: Instant, ids: NewIds)
    ensures LeavesOwnership(s, Restart(s, ctx, membershipId, expectedVersion, digest, now, ids).0)
  {
  }

  lemma ActivateLeavesOwnership(s: State, digest: nat, withPassword: bool, now: Instant)
    requires OwnerReferenced(s)
    ensures LeavesOwnership(s, Activate(s, digest, withPassword, now).0)
  {
  }

  lemma MutateLeavesOwnership(s: State, ctx: Actor, membershipId: Uuid, expectedVersion: int, mutation: Mutation,
                              now: Instant)
    ensures LeavesOwnership(s, Mutate(s, ctx, membershipId, expectedVersion, mutation, now).0)
  {
  }

  // ---- Opening, cancelling and confirming transfers ----------------------------------------

  /** `after` is `s` with some open transfers closed and nothing else changed. */
  ghost predicate OnlyCloses(s: State, after: State) {
    && after.owner == s.owner && after.members == s.members && after.transfers.Keys == s.transfers.Keys
    && forall k {:trigger after.transfers[k]} :: k in s.transfers ==>
         || after.transfers[k] == s.transfers[k]
         || (s.transfers[k].status == Initiated && Closes(s.transfers[k], after.transfers[k]))
  }

  predicate Closes(t: Transfer, u: Transfer) {
    && u.owner == t.owner && u.target == t.target && u.digest == t.digest && u.formerRole == t.formerRole
    && u.status in {Cancelled, TransferExpired} && (TransferChecks(t) ==> TransferChecks(u))
  }

  lemma ClosingKeepsOwnership(s: State, after: State)
    requires OwnershipValid(s) && OnlyCloses(s, after)
    ensures OwnershipValid(after) && TransfersMoveOn(s, after)
  {
  }

  /** Superseding closes every open transfer. */
  lemma SupersedingCloses(s: State, now: Instant)
    ensures var after := s.(transfers := CancelOpen(ExpireDue(s.transfers, now), now));
            && OnlyCloses(s, after)
            && forall k {:trigger after.transfers[k]} :: k in after.transfers ==> after.transfers[k].status != Initiated
  {
    var due := ExpireDue(s.transfers, now);
    var after := CancelOpen(due, now);
    forall k | k in s.transfers
      ensures after[k] == s.transfers[k] || (s.transfers[k].status == Initiated && Closes(s.transfers[k], after[k]))
      ensures after[k].status != Initiated
    {
      MarkingCloses(s.transfers[k], now);
      assert due[k] == s.transfers[k] || due[k] == MarkExpired(s.transfers[k], now);
    }
  }

  lemma MarkingCloses(t: Transfer, now: Instant)
    ensures t.status == Initiated ==> Closes(t, MarkExpired(t, now)) && Closes(t, MarkCancelled(t, now))
  {
  }

  lemma OpeningKeepsOwnership(s: State, k: Uuid, t: Transfer)
    requires OwnershipValid(s) && (forall j {:trigger s.transfers[j]} :: j in s.transfers ==> s.transfers[j].status != Initiated)
    requires k !in s.transfers && t.status == Initiated && t.owner == s.owner && t.target in s.members && TransferChecks(t)
    ensures OwnershipValid(s.(transfers := s.transfers[k := t])) && TransfersMoveOn(s, s.(transfers := s.transfers[k := t]))
  {
  }

  lemma MovingOnTwice(s: State, middle: State, after: State)
    requires TransfersMoveOn(s, middle) && TransfersMoveOn(middle, after)
    ensures TransfersMoveOn(s, after)
  {
  }

  lemma InitiateKeepsOwnership(s: State, ctx: Actor, target: Uuid, formerRole: Role, session: Uuid,
                               passwordMatches: bool, digest: nat, now: Instant, ids: NewIds)
    requires OwnershipValid(s)
    ensures var after := Initiate(s, ctx, target, formerRole, session, passwordMatches, digest, now, ids).0;
            OwnershipValid(after) && TransfersMoveOn(s, after)
  {
    if Initiate(s, ctx, target, formerRole, session, passwordMatches, digest, now, ids).1.Ok? {
      var closed := s.(transfers := CancelOpen(ExpireDue(s.transfers, now), now));
      var t := Transfer(ctx.membership, target, digest, formerRole, Initiated, now, now + TRANSFER_LIFETIME, None, None, None, None, 1);
      SupersedingCloses(s, now);
      ClosingKeepsOwnership(s, closed);
      OpeningKeepsOwnership(closed, ids.transfer, t);
      MovingOnTwice(s, closed, closed.(transfers := closed.transfers[ids.transfer := t]));
    }
  }

  lemma CancelOnlyCloses(s: State, ctx: Actor, k: Uuid, expectedVersion: int, now: Instant)
    ensures OnlyCloses(s, Cancel(s, ctx, k, expectedVersion, now).0)
  {
  }

  lemma CancelKeepsOwnership(s: State, ctx: Actor, k: Uuid, expectedVersion: int, now: Instant)
    requires OwnershipValid(s)
    ensures var after := Cancel(s, ctx, k, expectedVersion, now).0;
            OwnershipValid(after) && TransfersMoveOn(s, after)
  {
    CancelOnlyCloses(s, ctx, k, expectedVersion, now);
    ClosingKeepsOwnership(s, Cancel(s, ctx, k, expectedVersion, now).0);
  }

  /** The checks a confirmation makes before it writes. */
  predicate ReadyToConfirm(s: State, ctx: Actor, k: Uuid, digest: nat, now: Instant) {
    && k in s.transfers && s.transfers[k].status == Initiated && now < s.transfers[k].expiresAt
    && VerifyTransfer(s.transfers[k], digest, now) == Valid
    && s.transfers[k].target == ctx.membership && s.owner == s.transfers[k].owner && MayTakeOver(s, ctx, s.transfers[k])
  }

  /**
   The order of the writes is what makes a confirmation possible: after the first flush there is no
   Active Admin at all, after the second there is one, and the owner reference holds again at commit.
   */
  lemma ConfirmWritesGoThrough(s: State, ctx: Actor, k: Uuid, digest: nat, now: Instant)
    requires OwnershipValid(s) && ReadyToConfirm(s, ctx, k, digest, now)
    ensures var (one, two, three) := ConfirmWrites(s, k, now);
            && (forall j {:trigger one.members[j]} :: j in one.members ==> !IsActiveAdmin(one.members[j]))
            && (forall j {:trigger two.members[j]} :: j in two.members ==> (IsActiveAdmin(two.members[j]) <==> j == s.transfers[k].target))
            && !OwnerReferenced(one) && !OwnerReferenced(two) && OwnerReferenced(three)
            && TransferChecks(one.transfers[k]) && TransferChecks(three.transfers[k])
            && Confirm(s, ctx, k, digest, now) == (three, Ok(k))
  {
  }

  /** A confirmation succeeds exactly when it is ready: nothing in the database refuses it otherwise. */
  lemma ConfirmSucceedsExactly(s: State, ctx: Actor, k: Uuid, digest: nat, now: Instant)
    requires OwnershipValid(s)
    ensures Confirm(s, ctx, k, digest, now).1.Ok? <==> ReadyToConfirm(s, ctx, k, digest, now)
  {
    if ReadyToConfirm(s, ctx, k, digest, now) {
      ConfirmWritesGoThrough(s, ctx, k, digest, now);
    }
  }

  /** Promoting the target first would break the one-Active-Admin index. */
  lemma PromotingFirstIsRejected(s: State, ctx: Actor, k: Uuid, digest: nat, now: Instant)
    requires OwnershipValid(s) && ReadyToConfirm(s, ctx, k, digest, now)
    ensures !OneActiveAdmin(Promoted(s, k).members)
  {
    var t, members := s.transfers[k], Promoted(s, k).members;
    assert TransferChecks(t);
    assert IsActiveAdmin(members[t.owner]) && IsActiveAdmin(members[t.target]);
  }

  /** After a confirmation the target is the owner and neither party has a live session left. */
  lemma ConfirmHandsOver(s: State, ctx: Actor, k: Uuid, digest: nat, now: Instant)
    requires OwnershipValid(s) && ReadyToConfirm(s, ctx, k, digest, now)
    ensures var after, t := Confirm(s, ctx, k, digest, now).0, s.transfers[k];
            && after.owner == t.target && after.members[t.owner].role == t.formerRole && after.transfers[k].status == Completed
            && forall x :: x in after.sessions && after.sessions[x].active ==>
                 after.sessions[x].account != s.members[t.owner].account && after.sessions[x].account != s.members[t.target].account
  {
  }

  lemma ConfirmKeepsOwnership(s: State, ctx: Actor, k: Uuid, digest: nat, now: Instant)
    requires OwnershipValid(s)
    ensures var after := Confirm(s, ctx, k, digest, now).0;
            OwnershipValid(after) && TransfersMoveOn(s, after)
  {
    if ReadyToConfirm(s, ctx, k, digest, now) {
      ConfirmWritesGoThrough(s, ctx, k, digest, now);
      CompletionKeepsOwnership(s, ctx, k, digest, now);
    } else {
      ClosingKeepsOwnership(s, Confirm(s, ctx, k, digest, now).0);
    }
  }

  lemma CompletionKeepsOwnership(s: State, ctx: Actor, k: Uuid, digest: nat, now: Instant)
    requires OwnershipValid(s) && ReadyToConfirm(s, ctx, k, digest, now)
    ensures var after := ConfirmWrites(s, k, now).2;
            OwnershipValid(after) && TransfersMoveOn(s, after)
  {
  }

  // ---- Every run ---------------------------------------------------------------------------

  lemma NextKeepsOwnership(s: State, step: Step)
    requires OwnershipValid(s)
    ensures OwnershipValid(Next(s, step)) && TransfersMoveOn(s, Next(s, step))
  {
    match step
    case Provisioning(ctx, email, asAdvisor, digest, now, ids) =>
      ProvisionLeavesOwnership(s, ctx, email, asAdvisor, digest, now, ids);
      LeavingOwnershipKeepsIt(s, Next(s, step));
    case Restarting(ctx, membership, version, digest, now, ids) =>
      RestartLeavesOwnership(s, ctx, membership, version, digest, now, ids);
      LeavingOwnershipKeepsIt(s, Next(s, step));
    case Activating(digest, withPassword, now) =>
      ActivateLeavesOwnership(s, digest, withPassword, now);
      LeavingOwnershipKeepsIt(s, Next(s, step));
    case Mutating(ctx, membership, version, mutation, now) =>
      MutateLeavesOwnership(s, ctx, membership, version, mutation, now);
      LeavingOwnershipKeepsIt(s, Next(s, step));
    case Initiating(ctx, target, formerRole, session, matches, digest, now, ids) =>
      InitiateKeepsOwnership(s, ctx, target, formerRole, session, matches, digest, now, ids);
    case Confirming(ctx, transfer, digest, now) => ConfirmKeepsOwnership(s, ctx, transfer, digest, now);
    case Cancelling(ctx, transfer, version, now) => CancelKeepsOwnership(s, ctx, transfer, version, now);
    case OpeningSession(_, _, _) => LeavingOwnershipKeepsIt(s, Next(s, step));
    case ChangingAccount(_, _, _) => LeavingOwnershipKeepsIt(s, Next(s, step));
  }

  ghost function After(s: State, steps: seq<Step>): State {
    Run(Next, s, steps)
  }

  /** Safety over runs: there is exactly one Admin, Active and the owner, and at most one open transfer, its own. */
  lemma {:induction false} RunsKeepOwnership(s: State, steps: seq<Step>)
    requires OwnershipValid(s)
    ensures OwnershipValid(After(s, steps)) && TransfersMoveOn(s, After(s, steps))
  {
    if steps != [] {
      var before := After(s, steps[..|steps| - 1]);
      RunsKeepOwnership(s, steps[..|steps| - 1]);
      NextKeepsOwnership(before, steps[|steps| - 1]);
      MovingOnTwice(s, before, After(s, steps));
    }
  }

  /** From bootstrap on, a workspace always has exactly one Admin: its Active owner. */
  lemma SoleAdminInRuns(email: string, accountId: Uuid, membershipId: Uuid, steps: seq<Step>, k: Uuid)
    requires k in After(Bootstrapped(email, accountId, membershipId), steps).members
    ensures var s := After(Bootstrapped(email, accountId, membershipId), steps);
            && s.owner in s.members && s.members[s.owner].status == Active
            && (s.members[k].role == Admin <==> k == s.owner)
  {
    BootstrapIsValid(email, accountId, membershipId);
    RunsKeepOwnership(Bootstrapped(email, accountId, membershipId), steps);
  }

  // ---- Addresses ---------------------------------------------------------------------------

  /** The unique index on account addresses. */
  ghost predicate EmailsUnique(s: State) {
    forall j, k {:trigger s.accounts[j], s.accounts[k]} :: j in s.accounts && k in s.accounts && s.accounts[j].email == s.accounts[k].email ==> j == k
  }

  /** Accounts are never dropped, and keep their addresses. */
  ghost predicate AddressesStay(s: State, after: State) {
    forall k {:trigger s.accounts[k]} {:trigger after.accounts[k]} :: k in s.accounts ==>
      k in after.accounts && after.accounts[k].email == s.accounts[k].email
  }

  lemma ConfirmKeepsAccounts(s: State, ctx: Actor, k: Uuid, digest: nat, now: Instant)
    ensures Confirm(s, ctx, k, digest, now).0.accounts == s.accounts
  {
  }

  lemma ProvisionKeepsEmails(s: State, ctx: Actor, email: string, asAdvisor: bool, digest: nat, now: Instant,
                             ids: NewIds)
    requires EmailsUnique(s)
    ensures var after := Provision(s, ctx, email, asAdvisor, digest, now, ids).0; EmailsUnique(after) && AddressesStay(s, after)
  {
    var after := Provision(s, ctx, email, asAdvisor, digest, now, ids).0;
    ProvisionedAccounts(s, ctx, email, asAdvisor, digest, now, ids);
    if after.accounts != s.accounts {
      EnrollingKeepsEmails(s, ids.account, email);
    }
  }

  lemma ProvisionedAccounts(s: State, ctx: Actor, email: string, asAdvisor: bool, digest: nat, now: Instant,
                            ids: NewIds)
    ensures var accounts := Provision(s, ctx, email, asAdvisor, digest, now, ids).0.accounts;
            || accounts == s.accounts
            || (AccountWithEmail(s, email).None? && ids.account !in s.accounts
                && accounts == s.accounts[ids.account := Account(email, PendingActivation, false, 1)])
  {
  }

  lemma EnrollingKeepsEmails(s: State, account: Uuid, email: string)
    requires EmailsUnique(s) && AccountWithEmail(s, email).None? && account !in s.accounts
    ensures var after := s.(accounts := s.accounts[account := Account(email, PendingActivation, false, 1)]);
            EmailsUnique(after) && AddressesStay(s, after)
  {
    assert forall k {:trigger s.accounts[k]} :: k in s.accounts ==> !HasEmail(s, k, email);
  }

  /** The steps that leave the accounts as they are. */
  lemma OthersKeepAccounts(s: State, step: Step)
    requires step.Initiating? || step.Cancelling? || step.OpeningSession? || step.Restarting?
    ensures Next(s, step).accounts == s.accounts
  {
  }

  lemma StatusKeepsEmails(s: State, account: Uuid, status: AccountStatus, now: Instant)
    requires EmailsUnique(s)
    ensures var after := Next(s, ChangingAccount(account, status, now)); EmailsUnique(after) && AddressesStay(s, after)
  {
  }

  lemma ActivateKeepsEmails(s: State, digest: nat, withPassword: bool, now: Instant)
    requires EmailsUnique(s)
    ensures var after := Activate(s, digest, withPassword, now).0; EmailsUnique(after) && AddressesStay(s, after)
  {
  }

  lemma MutateKeepsAccounts(s: State, ctx: Actor, membershipId: Uuid, expectedVersion: int, mutation: Mutation,
                            now: Instant)
    ensures Mutate(s, ctx, membershipId, expectedVersion, mutation, now).0.accounts == s.accounts
  {
  }

  lemma NextKeepsEmails(s: State, step: Step)
    requires EmailsUnique(s)
    ensures EmailsUnique(Next(s, step)) && AddressesStay(s, Next(s, step))
  {
    match step
    case Provisioning(ctx, email, asAdvisor, digest, now, ids) => ProvisionKeepsEmails(s, ctx, email, asAdvisor, digest, now, ids);
    case Confirming(ctx, transfer, digest, now) => ConfirmKeepsAccounts(s, ctx, transfer, digest, now);
    case Activating(digest, withPassword, now) => ActivateKeepsEmails(s, digest, withPassword, now);
    case Mutating(ctx, membership, version, mutation, now) => MutateKeepsAccounts(s, ctx, membership, version, mutation, now);
    case ChangingAccount(account, status, now) => StatusKeepsEmails(s, account, status, now);
    case _ => OthersKeepAccounts(s, step);
  }

  /** In every run no two accounts share an address, so looking one up by it finds the only one. */
  lemma {:induction false} RunsKeepEmails(s: State, steps: seq<Step>)
    requires EmailsUnique(s)
    ensures EmailsUnique(After(s, steps)) && AddressesStay(s, After(s, steps))
  {
    if steps != [] {
      RunsKeepEmails(s, steps[..|steps| - 1]);
      NextKeepsEmails(After(s, steps[..|steps| - 1]), steps[|steps| - 1]);
    }
  }

  /** Whom the finance commands let in: active members with active accounts, in their roles. */
  function AccessOf(s: State, financeEnabled: bool): Ledger.Access {
    Ledger.Access(map k | k in s.members && ActiveMember(s, k) :: s.members[k].role, financeEnabled)
  }

  /** So at most the owner is ever let in as an Admin. */
  lemma OnlyTheOwnerActsAsAdmin(s: State, financeEnabled: bool, ctx: Ledger.Context)
    requires OwnershipValid(s) && ctx.role == Admin
    ensures Ledger.MemberValid(AccessOf(s, financeEnabled), ctx) <==> ctx.membership == s.owner && ActiveMember(s, s.owner)
  {
  }

  // ---- The chain of owners -----------------------------------------------------------------

  /** The transfer a step completes. */
  ghost function CompletedBy(s: State, step: Step): seq<Uuid> {
    if step.Confirming? && Confirm(s, step.ctx, step.transfer, step.digest, step.now).1.Ok? then [step.transfer] else []
  }

  /** The transfers a run completes, in order. */
  ghost function Completions(s: State, steps: seq<Step>): seq<Uuid> {
    if steps == [] then []
    else Completions(s, steps[..|steps| - 1]) + CompletedBy(After(s, steps[..|steps| - 1]), steps[|steps| - 1])
  }

  /** Each transfer starts where the one before it ended. */
  ghost predicate OwnerPath(transfers: map<Uuid, Transfer>, ids: seq<Uuid>, first: Uuid, last: Uuid) {
    if ids == [] then first == last
    else
      var k := ids[|ids| - 1];
      k in transfers && transfers[k].status == Completed && transfers[k].target == last
      && OwnerPath(transfers, ids[..|ids| - 1], first, transfers[k].owner)
  }

  lemma {:induction false} PathsLast(s: State, after: State, ids: seq<Uuid>, first: Uuid, last: Uuid)
    requires OwnerPath(s.transfers, ids, first, last) && TransfersMoveOn(s, after)
    ensures OwnerPath(after.transfers, ids, first, last)
  {
    if ids != [] {
      var k := ids[|ids| - 1];
      assert after.transfers[k] == s.transfers[k];
      PathsLast(s, after, ids[..|ids| - 1], first, s.transfers[k].owner);
    }
  }

  /** A step hands the workspace on exactly when it completes a transfer. */
  lemma StepsHandOver(s: State, step: Step)
    requires OwnershipValid(s)
    ensures CompletedBy(s, step) == [] ==> Next(s, step).owner == s.owner
    ensures CompletedBy(s, step) != [] ==>
              && step.Confirming? && step.transfer in s.transfers
              && s.transfers[step.transfer].status == Initiated && s.transfers[step.transfer].owner == s.owner
              && step.transfer in Next(s, step).transfers && Next(s, step).transfers[step.transfer].status == Completed
              && Next(s, step).owner == s.transfers[step.transfer].target
  {
    if step.Confirming? && ReadyToConfirm(s, step.ctx, step.transfer, step.digest, step.now) {
      ConfirmWritesGoThrough(s, step.ctx, step.transfer, step.digest, step.now);
    } else if step.Provisioning? {
      ProvisionLeavesOwnership(s, step.ctx, step.email, step.asAdvisor, step.digest, step.now, step.ids);
    }
  }

  /** Owners in order: the completed transfers lead from the first owner to the current one. */
  lemma {:induction false} CompletedTransfersFormAPath(s: State, steps: seq<Step>)
    requires OwnershipValid(s)
    ensures OwnerPath(After(s, steps).transfers, Completions(s, steps), s.owner, After(s, steps).owner)
  {
    if steps != [] {
      var n := |steps| - 1;
      var before, step := After(s, steps[..n]), steps[n];
      CompletedTransfersFormAPath(s, steps[..n]);
      RunsKeepOwnership(s, steps[..n]);
      NextKeepsOwnership(before, step);
      StepsHandOver(before, step);
      PathsLast(before, Next(before, step), Completions(s, steps[..n]), s.owner, before.owner);
      if CompletedBy(before, step) != [] {
        PathExtends(before, Next(before, step), Completions(s, steps[..n]), step.transfer, s.owner);
      } else {
        assert Completions(s, steps) == Completions(s, steps[..n]);
      }
    }
  }

  lemma PathExtends(before: State, after: State, ids: seq<Uuid>, k: Uuid, first: Uuid)
    requires OwnerPath(after.transfers, ids, first, before.owner) && TransfersMoveOn(before, after) && k in before.transfers
    requires before.transfers[k].owner == before.owner && after.transfers[k].status == Completed && after.owner == after.transfers[k].target
    ensures OwnerPath(after.transfers, ids + [k], first, after.owner)
  {
  }

  /** A transfer is completed after a step if it was before, or if this step completed it. */
  lemma CompletedAfter(s: State, step: Step, k: Uuid)
    requires OwnershipValid(s)
    ensures IsCompleted(Next(s, step), k) <==> k in CompletedBy(s, step) || IsCompleted(s, k)
  {
    StepsHandOver(s, step);
    NextKeepsOwnership(s, step);
    if IsCompleted(s, k) {
      assert Next(s, step).transfers[k] == s.transfers[k];
    } else if k !in CompletedBy(s, step) {
      NothingElseCompletes(s, step, k);
    }
  }

  predicate IsCompleted(s: State, k: Uuid) {
    k in s.transfers && s.transfers[k].status == Completed
  }

  lemma NothingElseCompletes(s: State, step: Step, k: Uuid)
    requires OwnershipValid(s) && !IsCompleted(s, k) && k !in CompletedBy(s, step)
    ensures !IsCompleted(Next(s, step), k)
  {
    match step
    case Provisioning(ctx, email, asAdvisor, digest, now, ids) => ProvisionLeavesOwnership(s, ctx, email, asAdvisor, digest, now, ids);
    case Confirming(ctx, transfer, digest, now) => NothingElseConfirmed(s, ctx, transfer, digest, now, k);
    case Initiating(ctx, target, formerRole, session, matches, digest, now, ids) => SupersedingCloses(s, now);
    case _ =>
  }

  lemma NothingElseConfirmed(s: State, ctx: Actor, transfer: Uuid, digest: nat, now: Instant, k: Uuid)
    requires !IsCompleted(s, k) && (k == transfer ==> Confirm(s, ctx, transfer, digest, now).1.Err?)
    ensures !IsCompleted(Confirm(s, ctx, transfer, digest, now).0, k)
  {
  }

  /** Completing a transfer happens once each, and nothing else is ever marked completed. */
  lemma {:induction false} CompletionsAreExact(s: State, steps: seq<Step>, k: Uuid)
    requires OwnershipValid(s) && forall j :: !IsCompleted(s, j)
    ensures k in Completions(s, steps) <==> IsCompleted(After(s, steps), k)
  {
    if steps != [] {
      var n := |steps| - 1;
      CompletionsAreExact(s, steps[..n], k);
      RunsKeepOwnership(s, steps[..n]);
      CompletedAfter(After(s, steps[..n]), steps[n], k);
    }
  }

  lemma {:induction false} CompletionsAreDistinct(s: State, steps: seq<Step>)
    requires OwnershipValid(s) && forall j :: !IsCompleted(s, j)
    ensures forall i, j {:trigger Completions(s, steps)[i], Completions(s, steps)[j]} ::
              0 <= i < j < |Completions(s, steps)| ==> Completions(s, steps)[i] != Completions(s, steps)[j]
  {
    if steps != [] {
      var n := |steps| - 1;
      var before := After(s, steps[..n]);
      CompletionsAreDistinct(s, steps[..n]);
      RunsKeepOwnership(s, steps[..n]);
      StepsHandOver(before, steps[n]);
      if CompletedBy(before, steps[n]) != [] {
        CompletionsAreExact(s, steps[..n], steps[n].transfer);
        AppendingIsDistinct(Completions(s, steps[..n]), steps[n].transfer);
      } else {
        assert Completions(s, steps) == Completions(s, steps[..n]);
      }
    }
  }

  lemma AppendingIsDistinct(ids: seq<Uuid>, k: Uuid)
    requires k !in ids && forall i, j {:trigger ids[i], ids[j]} :: 0 <= i < j < |ids| ==> ids[i] != ids[j]
    ensures forall i, j {:trigger (ids + [k])[i], (ids + [k])[j]} :: 0 <= i < j < |ids| + 1 ==> (ids + [k])[i] != (ids + [k])[j]
  {
  }

  // ---- What each command stores ------------------------------------------------------------

  /** The status changes a membership can make while keeping its role. */
  predicate StatusEdge(before: MemberStatus, after: MemberStatus) {
    (before, after) in {(Active, Suspended), (Suspended, Active), (Pending, Revoked), (Active, Revoked), (Suspended, Revoked)}
  }

  /** Some mutation leads from one role and status to another exactly along these edges; revoked is final. */
  lemma TransitionsAreExact(role: Role, status: MemberStatus, nextRole: Role, nextStatus: MemberStatus)
    ensures (exists m :: ValidateTransition(role, status, m) == Ok((nextRole, nextStatus))) <==>
            && role != Admin && nextRole != Admin && status != Revoked
            && ((nextRole == role && StatusEdge(status, nextStatus)) || (nextRole != role && nextStatus == status))
  {
    if nextRole != role {
      assert ValidateTransition(role, status, ChangeRole(nextRole)) == Ok((nextRole, nextStatus)) || role == Admin || nextRole == Admin || status == Revoked || nextStatus != status;
    } else if nextStatus == Suspended {
      assert ValidateTransition(role, status, Suspend) == Ok((role, Suspended)) || status != Active || role == Admin;
    } else if nextStatus == Active {
      assert ValidateTransition(role, status, Reactivate) == Ok((role, Active)) || status != Suspended || role == Admin;
    } else if nextStatus == Revoked {
      assert ValidateTransition(role, status, Revoke) == Ok((role, Revoked)) || status == Revoked || role == Admin;
    }
  }

  /** A provisioned member is new and pending, in the asked role, under the asked address, with one fresh challenge. */
  lemma ProvisionStores(s: State, ctx: Actor, email: string, asAdvisor: bool, digest: nat, now: Instant, ids: NewIds)
    requires Provision(s, ctx, email, asAdvisor, digest, now, ids).1.Ok?
    ensures var after := Provision(s, ctx, email, asAdvisor, digest, now, ids).0;
            && ids.membership !in s.members && after.members.Keys == s.members.Keys + {ids.membership}
            && (forall k {:trigger after.members[k]} :: k in s.members ==> after.members[k] == s.members[k])
            && (var m := after.members[ids.membership];
                && m.status == Pending && (m.role == Advisor <==> asAdvisor) && m.role != Admin
                && m.account in after.accounts && after.accounts[m.account].email == email)
            && ids.challenge !in s.challenges && ids.challenge in after.challenges
            && (var c := after.challenges[ids.challenge];
                c.membership == ids.membership && c.status == Issued && c.digest == digest && c.issuedAt == now && c.expiresAt == now + 24 * HOUR)
  {
  }

  /** A successful mutation changes one member, ends its sessions unless it brings the member back, and nothing else. */
  lemma MutateStores(s: State, ctx: Actor, membershipId: Uuid, expectedVersion: int, mutation: Mutation, now: Instant)
    requires Mutate(s, ctx, membershipId, expectedVersion, mutation, now).1.Ok?
    ensures var after := Mutate(s, ctx, membershipId, expectedVersion, mutation, now).0;
            && membershipId in s.members && after.members.Keys == s.members.Keys && after.accounts == s.accounts
            && (forall k {:trigger after.members[k]} :: k in s.members && k != membershipId ==> after.members[k] == s.members[k])
            && (var m, n := s.members[membershipId], after.members[membershipId];
                && n.version == expectedVersion + 1 && n.account == m.account
                && ((n.role == m.role && StatusEdge(m.status, n.status)) || (n.role != m.role && n.role != Admin && n.status == m.status))
                && (!(n.status == Active && m.status == Suspended) ==>
                    forall x :: x in after.sessions && after.sessions[x].active ==> after.sessions[x].account != m.account))
  {
  }

  /** A successful initiation leaves exactly one transfer open: the new one, from the owner to the target, for thirty minutes. */
  lemma InitiateOpensOne(s: State, ctx: Actor, target: Uuid, formerRole: Role, session: Uuid, passwordMatches: bool,
                         digest: nat, now: Instant, ids: NewIds, k: Uuid)
    requires Initiate(s, ctx, target, formerRole, session, passwordMatches, digest, now, ids).1.Ok?
    ensures passwordMatches && ids.transfer !in s.transfers
    ensures var after := Initiate(s, ctx, target, formerRole, session, passwordMatches, digest, now, ids).0;
            && ids.transfer in after.transfers
            && (k in after.transfers && after.transfers[k].status == Initiated <==> k == ids.transfer)
            && (var t := after.transfers[ids.transfer];
                && t.owner == s.owner && t.target == target && t.formerRole == formerRole && t.digest == digest
                && t.initiatedAt == now && t.expiresAt == now + 30 * MINUTE)
  {
  }

  /** A cancellation closes exactly the named transfer, while it is open, not due, at the expected version and the owner's own. */
  lemma CancelClosesExactly(s: State, ctx: Actor, k: Uuid, expectedVersion: int, now: Instant)
    requires OwnershipValid(s) && expectedVersion > 0 && s.owner == ctx.membership && ActorValid(s, ctx.(role := Admin))
    ensures Cancel(s, ctx, k, expectedVersion, now).1.Ok? <==>
            k in s.transfers && s.transfers[k].status == Initiated && s.transfers[k].version == expectedVersion && now < s.transfers[k].expiresAt
    ensures Cancel(s, ctx, k, expectedVersion, now).1.Ok? ==> Cancel(s, ctx, k, expectedVersion, now).0.transfers[k].status == Cancelled
  {
  }
}
