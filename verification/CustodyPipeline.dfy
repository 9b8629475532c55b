// Approval rows, custody read model and chain custody as the transfer and assignment procedures move them.
module CustodyPipeline {
  import opened Options
  import opened Authorization

  // ---------------------------------------------------------------- rows

  datatype AssetStatus = AssetActive | AssetPending | AssetRevoked

  datatype Asset = Asset(classification: Classification, status: AssetStatus, owner: Id, custodian: Id)

  datatype Approval = Approval(asset: Id, requester: Id, target: Option<Id>, status: ApprovalStatus,
                               approver: Option<Id>)

  datatype CustodyRow = CustodyRow(asset: Id, custodian: Id, open: bool)

  // Identity wallets are derived from the operator key and the identity's DID: distinct identities, distinct wallets.
  datatype Wallet = DerivedFor(identity: Id) | OtherAddress(address: string)

  /**
   * A transfer the chain confirmed: who asked, who received, the approved row in use, and whether it could be marked.
   */
  datatype ConfirmedTransfer = ConfirmedTransfer(asset: Id, classification: Classification, requester: Id,
                                                 recipient: Id, approval: Option<nat>, marked: bool)

  /** The tables, the chain's custodians, and as history the confirmed transfers and the assets moved so far. */
  datatype State = State(
    assets: map<Id, Asset>,
    identities: map<Id, IdentityStatus>,
    approvals: seq<Approval>,
    custody: seq<CustodyRow>,
    chain: map<Id, Wallet>,
    transfers: seq<ConfirmedTransfer>,
    moved: set<Id>)

  predicate Sensitive(c: Classification) {
    c == HIGHLY_SENSITIVE || c == CRITICAL
  }

  // ---------------------------------------------------------------- approval queries

  predicate ActiveFor(a: Approval, asset: Id, requester: Id) {
    a.asset == asset && a.requester == requester && (a.status == Pending || a.status == Approved)
  }

  /** The newest pending or approved row for this asset and requester. */
  function ActiveApproval(approvals: seq<Approval>, asset: Id, requester: Id): (r: Option<nat>)
    ensures r.Some? ==> r.value < |approvals| && ActiveFor(approvals[r.value], asset, requester)
    ensures forall i | (if r.Some? then r.value + 1 else 0) <= i < |approvals| ::
              !ActiveFor(approvals[i], asset, requester)
  {
    if approvals == [] then None
    else if ActiveFor(approvals[|approvals| - 1], asset, requester) then Some(|approvals| - 1)
    else ActiveApproval(approvals[..|approvals| - 1], asset, requester)
  }

  // ---------------------------------------------------------------- custody rows

  function CloseRows(rows: seq<CustodyRow>, asset: Id): (r: seq<CustodyRow>)
    ensures |r| == |rows|
    ensures forall i | 0 <= i < |rows| :: r[i] == if rows[i].asset == asset then rows[i].(open := false) else rows[i]
  {
    if rows == [] then []
    else [if rows[0].asset == asset then rows[0].(open := false) else rows[0]] + CloseRows(rows[1..], asset)
  }

  function MoveCustody(s: State, asset: Id, custodian: Id): State
    requires asset in s.assets
  {
    s.(assets := s.assets[asset := s.assets[asset].(custodian := custodian)],
       custody := CloseRows(s.custody, asset) + [CustodyRow(asset, custodian, true)])
  }

  // ---------------------------------------------------------------- procedures

  /** The session as the server resolves it on each call. */
  datatype Caller = Caller(identity: Option<Id>, platformAdmin: bool, roles: seq<Role>, permissions: set<string>)

  function RoleOf(c: Caller): Role {
    if c.platformAdmin then Admin else if c.roles != [] then c.roles[0] else User
  }

  function Identity(s: State, c: Caller): Option<Id> {
    if c.identity.Some? && c.identity.value in s.identities then c.identity else None
  }

  /**
   * What lies outside: is a chain bound, can it be read, what does it do with the transaction, and do the writes after
   * it succeed.
   */
  datatype Outside = Outside(configured: bool, readable: bool, verdict: ChainVerdict, approvalWritten: bool,
                             custodyWritten: bool)
  datatype ChainVerdict = Confirms | SameCustody | Rejects

  datatype Reply =
    | NotFound | PreconditionFailed | Forbidden | Conflict | Denied | Challenged | Unchanged | ChainFailed | Done

  datatype Call =
    | RequestApproval(caller: Caller, asset: Id, target: Option<Id>)
    | DecideApproval(caller: Caller, approval: nat, approve: bool)
    | AuthorizeTransfer(caller: Caller, asset: Id, recipient: Option<Id>, stepUp: bool, risk: Risk, outside: Outside)
    | Assign(platformAdmin: bool, asset: Id, custodian: Id, outside: Outside)
    | SetAssetStatus(asset: Id, status: AssetStatus)
    | SetIdentityStatus(identity: Id, identityStatus: IdentityStatus)

  function Requested(s: State, caller: Caller, asset: Id, target: Option<Id>): (State, Reply) {
    var actor := Identity(s, caller);
    if actor.None? then (s, Forbidden)
    else if asset !in s.assets then (s, NotFound)
    else if ActiveApproval(s.approvals, asset, actor.value).Some? then (s, Done)
    else (s.(approvals := s.approvals + [Approval(asset, actor.value, target, Pending, None)]), Done)
  }

  function Decided(s: State, caller: Caller, approval: nat, approve: bool): (State, Reply) {
    var actor := Identity(s, caller);
    if actor.None? then (s, Forbidden)
    else if approval >= |s.approvals| then (s, NotFound)
    else
      var row := s.approvals[approval];
      if RoleOf(caller) != Admin && ADMINISTRATION !in caller.permissions then (s, Forbidden)
      else if row.requester == actor.value then (s, Forbidden)
      else if row.status != Pending then (s, Conflict)
      else
        var decided := row.(status := if approve then Approved else Rejected, approver := actor);
        (s.(approvals := s.approvals[approval := decided]), Done)
  }

  /** An approval with a target is for that recipient only. */
  predicate MatchesTarget(a: Approval, recipient: Option<Id>) {
    a.target.None? || a.target == recipient
  }

  function TransferRequest(s: State, caller: Caller, asset: Id, recipient: Option<Id>, stepUp: bool,
                           risk: Risk): Request
    requires asset in s.assets
  {
    var actor, row := Identity(s, caller), s.assets[asset];
    var active := if actor.Some? then ActiveApproval(s.approvals, asset, actor.value) else None;
    Request(
      if actor.Some? then s.identities[actor.value] else Unregistered,
      RoleOf(caller),
      if caller.platformAdmin then caller.permissions + {ADMINISTRATION} else caller.permissions,
      "asset:transfer", Transfer, Some(row.classification), actor, Some(row.custodian),
      if active.Some? && MatchesTarget(s.approvals[active.value], recipient)
      then Some(s.approvals[active.value].status) else None,
      Some(risk), stepUp, Sensitive(row.classification))
  }

  function StatusOf(s: State, identity: Id): IdentityStatus {
    if identity in s.identities then s.identities[identity] else Suspended
  }

  /** The decision part of the procedure: everything before the chain is touched. */
  function Gate(s: State, caller: Caller, asset: Id, named: Option<Id>, stepUp: bool, risk: Risk): Reply {
    if asset !in s.assets then NotFound
    else if s.assets[asset].status != AssetActive then PreconditionFailed
    else if named.Some? && named.value !in s.identities then NotFound
    else if StatusOf(s, s.assets[asset].owner) != Active then Denied
    else if named.Some? && s.identities[named.value] != Active then Denied
    else
      var recipient := if named.Some? then named else Identity(s, caller);
      match Evaluate(TransferRequest(s, caller, asset, recipient, stepUp, risk))
      case Deny => Denied
      case Challenge => Challenged
      case Allow => Done
  }

  /** The row that a confirmed transfer uses up: the requester's active row, if it is approved. */
  function UsedApproval(s: State, asset: Id, requester: Id): (r: Option<nat>)
    ensures r.Some? ==> r.value < |s.approvals| && s.approvals[r.value].status == Approved
                        && ActiveApproval(s.approvals, asset, requester) == r
  {
    var active := ActiveApproval(s.approvals, asset, requester);
    if active.Some? && s.approvals[active.value].status == Approved then active else None
  }

  /** The chain moves the asset; the read model follows if it can be written. */
  function ChainMoved(s: State, asset: Id, custodian: Id, written: bool): State
    requires asset in s.assets
  {
    var t := s.(chain := s.chain[asset := DerivedFor(custodian)], moved := s.moved + {asset});
    if written then MoveCustody(t, asset, custodian) else t
  }

  function MarkedExecuted(approvals: seq<Approval>, used: Option<nat>): seq<Approval>
    requires used.Some? ==> used.value < |approvals|
  {
    if used.Some? then approvals[used.value := approvals[used.value].(status := Executed)] else approvals
  }

  function Confirmed(s: State, asset: Id, requester: Id, recipient: Id, outside: Outside): State
    requires asset in s.assets
  {
    var used := UsedApproval(s, asset, requester);
    var transfer := ConfirmedTransfer(asset, s.assets[asset].classification, requester, recipient, used,
                                      outside.approvalWritten);
    var t := s.(approvals := if outside.approvalWritten then MarkedExecuted(s.approvals, used) else s.approvals,
                transfers := s.transfers + [transfer]);
    ChainMoved(t, asset, recipient, outside.custodyWritten)
  }

  function Transferred(s: State, caller: Caller, asset: Id, named: Option<Id>, stepUp: bool, risk: Risk,
                       outside: Outside): (State, Reply) {
    var gate := Gate(s, caller, asset, named, stepUp, risk);
    if gate != Done then (s, gate)
    else
      // an unregistered caller is denied above
      var actor := Identity(s, caller);
      var recipient := if named.Some? then named else actor;
      if actor.None? then assert false; (s, Denied)
      else if !outside.configured then (s, PreconditionFailed)
      else if outside.readable && asset in s.chain && s.chain[asset] == DerivedFor(recipient.value) then (s, Unchanged)
      else
        match outside.verdict
        case SameCustody => (s, Unchanged)
        case Rejects => (s, ChainFailed)
        case Confirms => (Confirmed(s, asset, actor.value, recipient.value, outside), Done)
  }

  function Assigned(s: State, platformAdmin: bool, asset: Id, custodian: Id, outside: Outside): (State, Reply) {
    if !platformAdmin then (s, Forbidden)
    else if asset !in s.assets then (s, NotFound)
    else if s.assets[asset].status == AssetRevoked then (s, PreconditionFailed)
    else if custodian !in s.identities then (s, NotFound)
    else if s.identities[custodian] != Active then (s, PreconditionFailed)
    else if !outside.configured then (s, PreconditionFailed)
    else if outside.verdict != Confirms then (s, ChainFailed)
    else (ChainMoved(s, asset, custodian, outside.custodyWritten), Done)
  }

  function Apply(s: State, call: Call): (State, Reply) {
    match call
    case RequestApproval(caller, asset, target) => Requested(s, caller, asset, target)
    case DecideApproval(caller, approval, approve) => Decided(s, caller, approval, approve)
    case AuthorizeTransfer(caller, asset, recipient, stepUp, risk, outside) =>
      Transferred(s, caller, asset, recipient, stepUp, risk, outside)
    case Assign(platformAdmin, asset, custodian, outside) => Assigned(s, platformAdmin, asset, custodian, outside)
    case SetAssetStatus(asset, status) =>
      if asset in s.assets then (s.(assets := s.assets[asset := s.assets[asset].(status := status)]), Done)
      else (s, NotFound)
    case SetIdentityStatus(identity, status) =>
      if identity in s.identities then (s.(identities := s.identities[identity := status]), Done) else (s, NotFound)
  }

  function Run(s: State, calls: seq<Call>): State {
    if calls == [] then s else Apply(Run(s, calls[..|calls| - 1]), calls[|calls| - 1]).0
  }

  /** Before the first procedure call: tables of assets and identities, and any chain custodians. */
  predicate Fresh(s: State) {
    s.approvals == [] && s.custody == [] && s.transfers == [] && s.moved == {}
  }

  /** Writes after the chain's confirmation succeed. */
  predicate Written(call: Call) {
    (call.AuthorizeTransfer? || call.Assign?) ==> call.outside.approvalWritten && call.outside.custodyWritten
  }

  predicate AllWritten(calls: seq<Call>) {
    forall i | 0 <= i < |calls| :: Written(calls[i])
  }

  // ---------------------------------------------------------------- separation of duties and single use

  predicate SameRequest(a: Approval, b: Approval) {
    a.asset == b.asset && a.requester == b.requester
  }

  predicate Live(a: Approval) {
    a.status == Pending || a.status == Approved
  }

  /** A requester has at most one undecided or unused approval per asset. */
  ghost predicate OneActivePerRequester(approvals: seq<Approval>) {
    forall i, j | 0 <= i < j < |approvals| && SameRequest(approvals[i], approvals[j]) ::
      !Live(approvals[i]) || !Live(approvals[j])
  }

  /** A decided row was decided by somebody other than its requester. */
  predicate DecidedByAnother(a: Approval) {
    a.status != Pending ==> a.approver.Some? && a.approver.value != a.requester
  }

  predicate Used(approvals: seq<Approval>, t: ConfirmedTransfer) {
    t.approval.Some? ==>
      && t.approval.value < |approvals|
      && approvals[t.approval.value].status == Executed
      && approvals[t.approval.value].asset == t.asset
      && approvals[t.approval.value].requester == t.requester
  }

  /** This transfer is covered by an executed row for the same asset, requester and recipient. */
  predicate Covers(approvals: seq<Approval>, t: ConfirmedTransfer) {
    t.approval.Some? && Used(approvals, t) && MatchesTarget(approvals[t.approval.value], Some(t.recipient))
  }

  ghost predicate Accounted(approvals: seq<Approval>, transfers: seq<ConfirmedTransfer>) {
    && (forall i | 0 <= i < |approvals| :: DecidedByAnother(approvals[i]))
    && (forall i | 0 <= i < |transfers| :: Used(approvals, transfers[i]))
    && (forall i | 0 <= i < |transfers| && Sensitive(transfers[i].classification) :: Covers(approvals, transfers[i]))
    && (forall i, j | 0 <= i < j < |transfers| && transfers[i].approval.Some? ::
          transfers[i].approval != transfers[j].approval)
  }

  /** What may happen to a row: it is decided once, used once, and otherwise never changes. */
  predicate Advances(before: Approval, after: Approval) {
    || after == before
    || (before.status == Pending && (after.status == Approved || after.status == Rejected)
        && after.approver.Some? && after.approver.value != before.requester
        && after == before.(status := after.status, approver := after.approver))
    || (before.status == Approved && after == before.(status := Executed))
  }

  lemma RowsOnlyAdvance(s: State, call: Call, i: nat)
    requires i < |s.approvals|
    ensures var t := Apply(s, call).0; |s.approvals| <= |t.approvals| && Advances(s.approvals[i], t.approvals[i])
  {
  }

  lemma AdvancingKeepsOneActive(before: seq<Approval>, after: seq<Approval>)
    requires OneActivePerRequester(before) && |before| <= |after| <= |before| + 1
    requires forall i | 0 <= i < |before| :: Advances(before[i], after[i])
    requires |after| > |before| ==>
               forall i | 0 <= i < |before| && SameRequest(before[i], after[|before|]) :: !Live(before[i])
    ensures OneActivePerRequester(after)
  {
    assert forall i | 0 <= i < |before| :: SameRequest(before[i], after[i]) && (Live(after[i]) ==> Live(before[i]));
  }

  lemma StepKeepsOneActive(s: State, call: Call)
    requires OneActivePerRequester(s.approvals)
    ensures OneActivePerRequester(Apply(s, call).0.approvals)
  {
    var after := Apply(s, call).0.approvals;
    forall i: nat | i < |s.approvals| ensures Advances(s.approvals[i], after[i]) {
      RowsOnlyAdvance(s, call, i);
    }
    if |after| > |s.approvals| {
      OnlyRequestsAddRows(s, call);
    }
    AddsAtMostOneRow(s, call);
    AdvancingKeepsOneActive(s.approvals, after);
  }

  lemma AddsAtMostOneRow(s: State, call: Call)
    ensures |s.approvals| <= |Apply(s, call).0.approvals| <= |s.approvals| + 1
  {
  }

  lemma OnlyRequestsAddRows(s: State, call: Call)
    requires |Apply(s, call).0.approvals| > |s.approvals|
    ensures var row := Apply(s, call).0.approvals[|s.approvals|];
            forall i | 0 <= i < |s.approvals| && SameRequest(s.approvals[i], row) :: !Live(s.approvals[i])
  {
  }

  lemma UseKeepsAccount(approvals: seq<Approval>, transfers: seq<ConfirmedTransfer>, t: ConfirmedTransfer)
    requires Accounted(approvals, transfers)
    requires t.approval.Some? ==>
               && t.approval.value < |approvals|
               && approvals[t.approval.value].status == Approved
               && ActiveFor(approvals[t.approval.value], t.asset, t.requester)
    requires Sensitive(t.classification) ==>
             t.approval.Some? && MatchesTarget(approvals[t.approval.value], Some(t.recipient))
    ensures Accounted(MarkedExecuted(approvals, t.approval), transfers + [t])
  {
    var after, all := MarkedExecuted(approvals, t.approval), transfers + [t];
    forall i | 0 <= i < |transfers|
      ensures Used(after, all[i]) && (Sensitive(all[i].classification) ==> Covers(after, all[i]))
    {
      assert Used(approvals, transfers[i]);
    }
  }

  /** What the gate has established when it lets a transfer through. */
  lemma GateLetsThrough(s: State, caller: Caller, asset: Id, named: Option<Id>, stepUp: bool, risk: Risk)
    requires Gate(s, caller, asset, named, stepUp, risk) == Done
    ensures asset in s.assets && s.assets[asset].status == AssetActive
    ensures Identity(s, caller).Some? && s.identities[Identity(s, caller).value] == Active
    ensures StatusOf(s, s.assets[asset].owner) == Active
    ensures named.Some? ==> named.value in s.identities && s.identities[named.value] == Active
    ensures RoleOf(caller) == Admin || Identity(s, caller).value == s.assets[asset].custodian
    ensures s.assets[asset].classification == HIGHLY_SENSITIVE ==> stepUp
    ensures Sensitive(s.assets[asset].classification) ==>
              var used := UsedApproval(s, asset, Identity(s, caller).value);
              used.Some? && MatchesTarget(s.approvals[used.value], if named.Some? then named else Identity(s, caller))
  {
  }

  /** A platform administrator, or the identity's first role is ADMIN. */
  predicate IsAdministrator(c: Caller) {
    c.platformAdmin || (c.roles != [] && c.roles[0] == Admin)
  }

  /** Who may transfer what to whom, as one condition: standing, permission, custody, step-up, approval. */
  predicate MayTransfer(s: State, caller: Caller, asset: Id, named: Option<Id>, stepUp: bool, risk: Risk) {
    && MayChallenge(s, caller, asset, named)
    && var actor, row := caller.identity.value, s.assets[asset];
       && (IsAdministrator(caller) || actor == row.custodian)
       && (row.classification == HIGHLY_SENSITIVE ==> stepUp)
       && (risk == High ==> stepUp)
       && (row.classification == HIGHLY_SENSITIVE || row.classification == CRITICAL ==>
             HasApprovalFor(s, asset, actor, if named.Some? then named.value else actor))
  }

  /** The requester's active approval is approved, and without a target or for this recipient. */
  predicate HasApprovalFor(s: State, asset: Id, requester: Id, recipient: Id) {
    var active := ActiveApproval(s.approvals, asset, requester);
    && active.Some? && s.approvals[active.value].status == Approved
    && (s.approvals[active.value].target == None || s.approvals[active.value].target == Some(recipient))
  }

  /** What no step-up and no approval could make up for. */
  predicate MayChallenge(s: State, caller: Caller, asset: Id, named: Option<Id>) {
    && asset in s.assets && s.assets[asset].status == AssetActive
    && caller.identity.Some? && caller.identity.value in s.identities
    && s.identities[caller.identity.value] == Active
    && s.assets[asset].owner in s.identities && s.identities[s.assets[asset].owner] == Active
    && (named.Some? ==> named.value in s.identities && s.identities[named.value] == Active)
    && (IsAdministrator(caller) || "asset:transfer" in caller.permissions
        || "administration:manage" in caller.permissions)
    && (s.assets[asset].classification == HIGHLY_SENSITIVE ==>
          IsAdministrator(caller) || (caller.roles != [] && caller.roles[0] != User))
  }

  /**
   * Each answer of the gate: the missing and the inactive asset, the unknown recipient, the challenge, the permission.
   */
  lemma GateAnswersExactly(s: State, caller: Caller, asset: Id, named: Option<Id>, stepUp: bool, risk: Risk)
    ensures var reply := Gate(s, caller, asset, named, stepUp, risk);
            && (reply == NotFound <==>
                  asset !in s.assets
                  || (s.assets[asset].status == AssetActive && named.Some? && named.value !in s.identities))
            && (reply == PreconditionFailed <==> asset in s.assets && s.assets[asset].status != AssetActive)
            && (reply == Challenged <==>
                  && MayChallenge(s, caller, asset, named) && !MayTransfer(s, caller, asset, named, stepUp, risk)
                  && ((s.assets[asset].classification == HIGHLY_SENSITIVE && !stepUp)
                      || IsAdministrator(caller) || caller.identity.value == s.assets[asset].custodian))
            && (reply == Done <==> MayTransfer(s, caller, asset, named, stepUp, risk))
            && reply in {NotFound, PreconditionFailed, Challenged, Denied, Done}
  {
  }

  lemma GateOpensExactly(s: State, caller: Caller, asset: Id, named: Option<Id>, stepUp: bool, risk: Risk)
    ensures Gate(s, caller, asset, named, stepUp, risk) == Done <==> MayTransfer(s, caller, asset, named, stepUp, risk)
  {
  }

  lemma TransferKeepsAccount(s: State, caller: Caller, asset: Id, named: Option<Id>, stepUp: bool, risk: Risk,
                             outside: Outside)
    requires Accounted(s.approvals, s.transfers) && outside.approvalWritten
    ensures var t := Transferred(s, caller, asset, named, stepUp, risk, outside).0; Accounted(t.approvals, t.transfers)
  {
    if Gate(s, caller, asset, named, stepUp, risk) == Done {
      GateLetsThrough(s, caller, asset, named, stepUp, risk);
      var actor := Identity(s, caller).value;
      var recipient := if named.Some? then named.value else actor;
      UseKeepsAccount(s.approvals, s.transfers,
                      ConfirmedTransfer(asset, s.assets[asset].classification, actor, recipient,
                                        UsedApproval(s, asset, actor), outside.approvalWritten));
    }
  }

  lemma DecisionKeepsAccount(s: State, call: Call)
    requires Accounted(s.approvals, s.transfers) && !call.AuthorizeTransfer?
    ensures var t := Apply(s, call).0; Accounted(t.approvals, t.transfers)
  {
    var t := Apply(s, call).0;
    assert t.transfers == s.transfers;
    forall i | 0 <= i < |s.transfers|
      ensures Used(t.approvals, s.transfers[i])
      ensures Covers(s.approvals, s.transfers[i]) ==> Covers(t.approvals, s.transfers[i])
    {
      assert Used(s.approvals, s.transfers[i]);
      if s.transfers[i].approval.Some? {
        RowsOnlyAdvance(s, call, s.transfers[i].approval.value);
      }
    }
  }

  lemma StepKeepsAccount(s: State, call: Call)
    requires Accounted(s.approvals, s.transfers) && Written(call)
    ensures var t := Apply(s, call).0; Accounted(t.approvals, t.transfers)
  {
    match call {
      case AuthorizeTransfer(caller, asset, recipient, stepUp, risk, outside) =>
        TransferKeepsAccount(s, caller, asset, recipient, stepUp, risk, outside);
      case _ => DecisionKeepsAccount(s, call);
    }
  }

  lemma {:induction false} RunKeepsAccount(s: State, calls: seq<Call>)
    requires Fresh(s) && AllWritten(calls)
    ensures var t := Run(s, calls); Accounted(t.approvals, t.transfers) && OneActivePerRequester(t.approvals)
  {
    if calls != [] {
      var before := calls[..|calls| - 1];
      RunKeepsAccount(s, before);
      StepKeepsAccount(Run(s, before), calls[|calls| - 1]);
      StepKeepsOneActive(Run(s, before), calls[|calls| - 1]);
    }
  }

  /**
   * In every run of serialised calls whose writes succeed, the confirmed transfers of sensitive assets map one to one
   * into executed approvals of the same requester for the same asset, decided by another identity, without a target
   * or for this very recipient.
   */
  lemma SensitiveTransfersAreApproved(s: State, calls: seq<Call>)
    requires Fresh(s) && AllWritten(calls)
    ensures var t := Run(s, calls);
            && (forall i | 0 <= i < |t.transfers| && t.transfers[i].classification in {HIGHLY_SENSITIVE, CRITICAL} ::
                  && t.transfers[i].approval.Some? && t.transfers[i].approval.value < |t.approvals|
                  && var row := t.approvals[t.transfers[i].approval.value];
                     && row.status == Executed
                     && row.asset == t.transfers[i].asset && row.requester == t.transfers[i].requester
                     && row.approver.Some? && row.approver.value != row.requester
                     && (row.target == None || row.target == Some(t.transfers[i].recipient)))
            && (forall i, j | 0 <= i < j < |t.transfers|
                  && t.transfers[i].classification in {HIGHLY_SENSITIVE, CRITICAL} ::
                  t.transfers[i].approval != t.transfers[j].approval)
  {
    var t := Run(s, calls);
    RunKeepsAccount(s, calls);
    forall i | 0 <= i < |t.transfers| && t.transfers[i].classification in {HIGHLY_SENSITIVE, CRITICAL}
      ensures Covers(t.approvals, t.transfers[i]) && DecidedByAnother(t.approvals[t.transfers[i].approval.value])
    {
      assert Sensitive(t.transfers[i].classification);
    }
  }

  /** The account stays right exactly when the used row could be marked. */
  lemma AccountNeedsTheMark(s: State, asset: Id, requester: Id, recipient: Id, outside: Outside)
    requires Accounted(s.approvals, s.transfers) && asset in s.assets
    requires Sensitive(s.assets[asset].classification) ==>
               var used := UsedApproval(s, asset, requester);
               used.Some? && MatchesTarget(s.approvals[used.value], Some(recipient))
    ensures var t := Confirmed(s, asset, requester, recipient, outside);
            Accounted(t.approvals, t.transfers) <==> outside.approvalWritten || UsedApproval(s, asset, requester).None?
  {
    var t := Confirmed(s, asset, requester, recipient, outside);
    var row := ConfirmedTransfer(asset, s.assets[asset].classification, requester, recipient,
                                 UsedApproval(s, asset, requester), outside.approvalWritten);
    if outside.approvalWritten || row.approval.None? {
      UseKeepsAccount(s.approvals, s.transfers, row);
    } else {
      assert t.transfers[|s.transfers|] == row && !Used(t.approvals, row);
    }
  }

  // ---------------------------------------------------------------- who asks and who decides

  predicate Registered(s: State, c: Caller) {
    c.identity.Some? && c.identity.value in s.identities
  }

  /** When a request is answered, and what row it adds. */
  lemma RequestHappensExactly(s: State, caller: Caller, asset: Id, target: Option<Id>)
    ensures var (t, reply) := Requested(s, caller, asset, target);
            && (reply == Done <==> Registered(s, caller) && asset in s.assets)
            && (reply == Forbidden <==> !Registered(s, caller))
            && t == s.(approvals := t.approvals)
            && (t.approvals == s.approvals
                || (reply == Done && ActiveApproval(s.approvals, asset, caller.identity.value).None?
                    && t.approvals == s.approvals + [Approval(asset, caller.identity.value, target, Pending, None)]))
            && (reply == Done && ActiveApproval(s.approvals, asset, caller.identity.value).None? ==>
                  t.approvals != s.approvals)
  {
    var active := Approval(asset, if caller.identity.Some? then caller.identity.value else "", target, Pending, None);
    assert |s.approvals + [active]| == |s.approvals| + 1;
  }

  /** When a decision is taken: by a registered administrator, on somebody else's pending request. */
  lemma DecisionHappensExactly(s: State, caller: Caller, approval: nat, approve: bool)
    ensures var (t, reply) := Decided(s, caller, approval, approve);
            && (reply == Done <==>
                  && Registered(s, caller) && approval < |s.approvals|
                  && s.approvals[approval].status == Pending
                  && s.approvals[approval].requester != caller.identity.value
                  && (caller.platformAdmin || (caller.roles != [] && caller.roles[0] == Admin)
                      || "administration:manage" in caller.permissions))
            && (reply == Done ==>
                  t == s.(approvals := s.approvals[approval := s.approvals[approval].(
                                status := if approve then Approved else Rejected, approver := caller.identity)]))
            && (reply != Done ==> t == s)
  {
  }

  /** This call asked for the approval of the row. */
  predicate AskedBy(call: Call, row: Approval) {
    call.RequestApproval? && call.caller.identity == Some(row.requester) && call.asset == row.asset
    && call.target == row.target
  }

  /** This call decided the row: an administrator's, whose identity is the row's approver and not its requester. */
  predicate DecidedBy(call: Call, k: nat, row: Approval) {
    && call.DecideApproval? && call.approval == k
    && (call.caller.platformAdmin || (call.caller.roles != [] && call.caller.roles[0] == Admin)
        || "administration:manage" in call.caller.permissions)
    && call.caller.identity.Some? && call.caller.identity == row.approver && row.approver != Some(row.requester)
    && (call.approve <==> row.status != Rejected)
  }

  ghost predicate RowIsTold(calls: seq<Call>, k: nat, row: Approval) {
    && (exists n :: 0 <= n < |calls| && AskedBy(calls[n], row))
    && (row.status == Pending ==> row.approver == None)
    && (row.status != Pending ==> exists n :: 0 <= n < |calls| && DecidedBy(calls[n], k, row))
  }

  lemma RowStaysTold(calls: seq<Call>, call: Call, k: nat, row: Approval, after: Approval)
    requires RowIsTold(calls, k, row)
    requires after == row || (row.status == Approved && after == row.(status := Executed))
             || (row.status == Pending && DecidedBy(call, k, after) && after.status != Pending
                 && after == row.(status := after.status, approver := after.approver))
    ensures RowIsTold(calls + [call], k, after)
  {
    var all := calls + [call];
    var n :| 0 <= n < |calls| && AskedBy(calls[n], row);
    assert AskedBy(all[n], after);
    if after.status != Pending {
      if row.status == Pending {
        assert DecidedBy(all[|calls|], k, after);
      } else {
        var m :| 0 <= m < |calls| && DecidedBy(calls[m], k, row);
        assert DecidedBy(all[m], k, after);
      }
    }
  }

  lemma StepTellsRow(s: State, calls: seq<Call>, call: Call, k: nat)
    requires forall j | 0 <= j < |s.approvals| :: RowIsTold(calls, j, s.approvals[j])
    requires k < |Apply(s, call).0.approvals|
    ensures RowIsTold(calls + [call], k, Apply(s, call).0.approvals[k])
  {
    var t := Apply(s, call).0;
    if k < |s.approvals| {
      RowsOnlyAdvance(s, call, k);
      if call.DecideApproval? { DecisionHappensExactly(s, call.caller, call.approval, call.approve); }
      RowStaysTold(calls, call, k, s.approvals[k], t.approvals[k]);
    } else {
      RequestHappensExactly(s, call.caller, call.asset, call.target);
      assert AskedBy((calls + [call])[|calls|], t.approvals[k]);
    }
  }

  /**
   * In every run each approval row was asked for by its requester, for its asset and target, and each decided one was
   * decided by a call of an administrator, whose identity is its approver and another than its requester.
   */
  lemma {:induction false} EveryRowIsTold(s: State, calls: seq<Call>, k: nat)
    requires Fresh(s) && k < |Run(s, calls).approvals|
    ensures RowIsTold(calls, k, Run(s, calls).approvals[k])
  {
    if calls != [] {
      var n := |calls| - 1;
      var before := Run(s, calls[..n]);
      forall j | 0 <= j < |before.approvals| ensures RowIsTold(calls[..n], j, before.approvals[j]) {
        EveryRowIsTold(s, calls[..n], j);
      }
      StepTellsRow(before, calls[..n], calls[n], k);
      assert calls[..n] + [calls[n]] == calls;
    }
  }

  /** When an assignment happens, and what it changes. */
  lemma AssignmentHappensExactly(s: State, platformAdmin: bool, asset: Id, custodian: Id, outside: Outside)
    ensures var (t, reply) := Assigned(s, platformAdmin, asset, custodian, outside);
            && (reply == Done <==>
                  && platformAdmin && asset in s.assets && s.assets[asset].status != AssetRevoked
                  && custodian in s.identities && s.identities[custodian] == Active
                  && outside.configured && outside.verdict == Confirms)
            && (reply != Done ==> t == s)
            && (reply == Done ==>
                  && t.chain == s.chain[asset := DerivedFor(custodian)] && asset in t.assets
                  && (outside.custodyWritten ==> t.assets[asset] == s.assets[asset].(custodian := custodian))
                  && (!outside.custodyWritten ==> t.assets == s.assets)
                  && t.approvals == s.approvals && t.transfers == s.transfers)
  {
  }

  // ---------------------------------------------------------------- the same approval again

  /** A failed mark leaves the requester's approval in use as it was; a successful one takes it out of use. */
  lemma UnmarkedApprovalStaysInUse(s: State, asset: Id, requester: Id, recipient: Id, outside: Outside)
    requires asset in s.assets && OneActivePerRequester(s.approvals)
    ensures var t := Confirmed(s, asset, requester, recipient, outside);
            UsedApproval(t, asset, requester) ==
            if outside.approvalWritten then None else UsedApproval(s, asset, requester)
  {
    var t, used := Confirmed(s, asset, requester, recipient, outside), UsedApproval(s, asset, requester);
    if outside.approvalWritten && used.Some? {
      assert ActiveFor(s.approvals[used.value], asset, requester);
      forall i | 0 <= i < |t.approvals| ensures !ActiveFor(t.approvals[i], asset, requester) {
        if i != used.value {
          assert ActiveFor(s.approvals[i], asset, requester) ==> SameRequest(s.approvals[i], s.approvals[used.value]);
        }
      }
    }
  }

  /** When a transfer is confirmed, exactly. */
  lemma TransferHappensExactly(s: State, caller: Caller, asset: Id, named: Option<Id>, stepUp: bool, risk: Risk,
                               outside: Outside)
    ensures Transferred(s, caller, asset, named, stepUp, risk, outside).1 == Done <==>
              && MayTransfer(s, caller, asset, named, stepUp, risk)
              && outside.configured && outside.verdict == Confirms
              && var recipient := if named.Some? then named.value else Identity(s, caller).value;
                 !(outside.readable && asset in s.chain && s.chain[asset] == DerivedFor(recipient))
  {
    GateOpensExactly(s, caller, asset, named, stepUp, risk);
  }

  /** The other answers behind an open gate: no chain, custody that already is as asked, a chain that rejects. */
  lemma TransferAnswersExactly(s: State, caller: Caller, asset: Id, named: Option<Id>, stepUp: bool, risk: Risk,
                               outside: Outside)
    requires MayTransfer(s, caller, asset, named, stepUp, risk)
    ensures var recipient := if named.Some? then named.value else caller.identity.value;
            var already := outside.readable && asset in s.chain && s.chain[asset] == DerivedFor(recipient);
            var (after, reply) := Transferred(s, caller, asset, named, stepUp, risk, outside);
            && (reply == PreconditionFailed <==> !outside.configured)
            && (reply == Unchanged <==> outside.configured && (already || outside.verdict == SameCustody))
            && (reply == ChainFailed <==> outside.configured && !already && outside.verdict == Rejects)
            && (reply != Done ==> after == s)
  {
    GateOpensExactly(s, caller, asset, named, stepUp, risk);
  }

  /** What a confirmed transfer leaves in the history, on the chain and, where it is written, in the read model. */
  lemma TransferIsRecorded(s: State, caller: Caller, asset: Id, named: Option<Id>, stepUp: bool, risk: Risk,
                           outside: Outside)
    requires Transferred(s, caller, asset, named, stepUp, risk, outside).1 == Done
    ensures MayTransfer(s, caller, asset, named, stepUp, risk)
    ensures var t := Transferred(s, caller, asset, named, stepUp, risk, outside).0;
            var actor := caller.identity.value;
            var recipient := if named.Some? then named.value else actor;
            && t.transfers == s.transfers + [ConfirmedTransfer(asset, s.assets[asset].classification, actor, recipient,
                                                               UsedApproval(s, asset, actor), outside.approvalWritten)]
            && t.chain == s.chain[asset := DerivedFor(recipient)]
            && asset in t.assets
            && t.assets[asset].custodian == (if outside.custodyWritten then recipient else s.assets[asset].custodian)
  {
    GateOpensExactly(s, caller, asset, named, stepUp, risk);
  }

  /** A transfer that used this row could mark it. */
  ghost predicate Spent(transfers: seq<ConfirmedTransfer>, row: nat) {
    exists i :: 0 <= i < |transfers| && transfers[i].approval == Some(row) && transfers[i].marked
  }

  /**
   * A row that was used belongs to the transfer's requester and asset; it is executed if it was spent, else still
   * approved.
   */
  predicate BookedAs(approvals: seq<Approval>, t: ConfirmedTransfer, spent: bool) {
    t.approval.Some? ==>
      && t.approval.value < |approvals|
      && approvals[t.approval.value].asset == t.asset
      && approvals[t.approval.value].requester == t.requester
      && approvals[t.approval.value].status == if spent then Executed else Approved
  }

  ghost predicate Booked(approvals: seq<Approval>, transfers: seq<ConfirmedTransfer>) {
    forall i | 0 <= i < |transfers| && transfers[i].approval.Some? ::
      BookedAs(approvals, transfers[i], Spent(transfers, transfers[i].approval.value))
  }

  lemma SpentAfter(transfers: seq<ConfirmedTransfer>, t: ConfirmedTransfer, row: nat)
    ensures Spent(transfers + [t], row) <==> Spent(transfers, row) || (t.approval == Some(row) && t.marked)
  {
    var all := transfers + [t];
    assert all[|transfers|] == t;
    if Spent(transfers, row) {
      var i :| 0 <= i < |transfers| && transfers[i].approval == Some(row) && transfers[i].marked;
      assert all[i] == transfers[i];
    }
  }

  lemma ApprovedIsUnspent(approvals: seq<Approval>, transfers: seq<ConfirmedTransfer>, row: nat)
    requires Booked(approvals, transfers) && row < |approvals| && approvals[row].status == Approved
    ensures !Spent(transfers, row)
  {
    forall i | 0 <= i < |transfers| && transfers[i].approval == Some(row) ensures !transfers[i].marked {
      assert BookedAs(approvals, transfers[i], Spent(transfers, row));
    }
  }

  lemma UseIsBooked(approvals: seq<Approval>, transfers: seq<ConfirmedTransfer>, t: ConfirmedTransfer)
    requires Booked(approvals, transfers)
    requires t.approval.Some? ==>
               && t.approval.value < |approvals|
               && approvals[t.approval.value].status == Approved
               && ActiveFor(approvals[t.approval.value], t.asset, t.requester)
    ensures Booked(if t.marked then MarkedExecuted(approvals, t.approval) else approvals, transfers + [t])
  {
    var after := if t.marked then MarkedExecuted(approvals, t.approval) else approvals;
    var all := transfers + [t];
    forall i | 0 <= i < |all| && all[i].approval.Some?
      ensures BookedAs(after, all[i], Spent(all, all[i].approval.value))
    {
      var row := all[i].approval.value;
      SpentAfter(transfers, t, row);
      if i < |transfers| {
        assert BookedAs(approvals, transfers[i], Spent(transfers, row));
      } else {
        ApprovedIsUnspent(approvals, transfers, row);
      }
    }
  }

  lemma TransferIsBooked(s: State, caller: Caller, asset: Id, named: Option<Id>, stepUp: bool, risk: Risk,
                         outside: Outside)
    requires Booked(s.approvals, s.transfers)
    ensures var t := Transferred(s, caller, asset, named, stepUp, risk, outside).0; Booked(t.approvals, t.transfers)
  {
    if Gate(s, caller, asset, named, stepUp, risk) == Done {
      var actor := Identity(s, caller).value;
      var recipient := if named.Some? then named.value else actor;
      UseIsBooked(s.approvals, s.transfers,
                  ConfirmedTransfer(asset, s.assets[asset].classification, actor, recipient,
                                    UsedApproval(s, asset, actor), outside.approvalWritten));
    }
  }

  lemma StepIsBooked(s: State, call: Call)
    requires Booked(s.approvals, s.transfers)
    ensures var t := Apply(s, call).0; Booked(t.approvals, t.transfers)
  {
    if call.AuthorizeTransfer? {
      TransferIsBooked(s, call.caller, call.asset, call.recipient, call.stepUp, call.risk, call.outside);
    } else {
      var t := Apply(s, call).0;
      assert t.transfers == s.transfers;
      forall i | 0 <= i < |s.transfers| && s.transfers[i].approval.Some?
        ensures BookedAs(t.approvals, s.transfers[i], Spent(s.transfers, s.transfers[i].approval.value))
      {
        assert BookedAs(s.approvals, s.transfers[i], Spent(s.transfers, s.transfers[i].approval.value));
        RowsOnlyAdvance(s, call, s.transfers[i].approval.value);
      }
    }
  }

  /** In every run, whatever writes fail: a used row is executed exactly if some transfer that used it could mark it. */
  lemma {:induction false} RunIsBooked(s: State, calls: seq<Call>)
    requires Fresh(s)
    ensures var t := Run(s, calls); Booked(t.approvals, t.transfers) && OneActivePerRequester(t.approvals)
  {
    if calls != [] {
      var before := calls[..|calls| - 1];
      RunIsBooked(s, before);
      StepIsBooked(Run(s, before), calls[|calls| - 1]);
      StepKeepsOneActive(Run(s, before), calls[|calls| - 1]);
    }
  }

  /** An earlier transfer of this asset by this requester used an approval that nobody has marked since. */
  ghost predicate HoldsUnspentUse(transfers: seq<ConfirmedTransfer>, asset: Id, requester: Id) {
    exists i :: 0 <= i < |transfers| && transfers[i].asset == asset && transfers[i].requester == requester
                && transfers[i].approval.Some? && !Spent(transfers, transfers[i].approval.value)
  }

  ghost predicate UsedBefore(transfers: seq<ConfirmedTransfer>, approval: Option<nat>) {
    approval.Some? && exists i :: 0 <= i < |transfers| && transfers[i].approval == approval
  }

  lemma ApprovedRowIsTheActiveOne(approvals: seq<Approval>, asset: Id, requester: Id, row: nat)
    requires OneActivePerRequester(approvals) && row < |approvals| && ActiveFor(approvals[row], asset, requester)
    ensures ActiveApproval(approvals, asset, requester) == Some(row)
  {
    var active := ActiveApproval(approvals, asset, requester);
    assert active.Some? && SameRequest(approvals[row], approvals[active.value]);
  }

  lemma ReuseOfARow(t: State, asset: Id, requester: Id)
    requires Booked(t.approvals, t.transfers) && OneActivePerRequester(t.approvals)
    ensures UsedBefore(t.transfers, UsedApproval(t, asset, requester)) <==>
            HoldsUnspentUse(t.transfers, asset, requester)
  {
    var used := UsedApproval(t, asset, requester);
    if UsedBefore(t.transfers, used) {
      var i :| 0 <= i < |t.transfers| && t.transfers[i].approval == used;
      assert BookedAs(t.approvals, t.transfers[i], Spent(t.transfers, used.value));
    }
    if HoldsUnspentUse(t.transfers, asset, requester) {
      var i :| 0 <= i < |t.transfers| && t.transfers[i].asset == asset && t.transfers[i].requester == requester
               && t.transfers[i].approval.Some? && !Spent(t.transfers, t.transfers[i].approval.value);
      assert BookedAs(t.approvals, t.transfers[i], false);
      ApprovedRowIsTheActiveOne(t.approvals, asset, requester, t.transfers[i].approval.value);
      assert t.transfers[i].approval == used;
    }
  }

  /**
   * After any run, with any writes failing, a further transfer is confirmed on an approval that an earlier transfer
   * already used if and only if the gate is open, the chain confirms, and an earlier transfer of this asset by this
   * requester used an approval whose row nobody could mark.
   */
  lemma SecondUseExactly(s: State, calls: seq<Call>, caller: Caller, asset: Id, named: Option<Id>, stepUp: bool,
                         risk: Risk, outside: Outside)
    requires Fresh(s)
    ensures var t := Run(s, calls);
            var (after, reply) := Transferred(t, caller, asset, named, stepUp, risk, outside);
            var confirmed := reply == Done;
            && (confirmed <==> |after.transfers| == |t.transfers| + 1)
            && (confirmed && UsedBefore(t.transfers, after.transfers[|t.transfers|].approval) <==>
                  confirmed && HoldsUnspentUse(t.transfers, asset, Identity(t, caller).value))
  {
    var t := Run(s, calls);
    RunIsBooked(s, calls);
    if Transferred(t, caller, asset, named, stepUp, risk, outside).1 == Done {
      ReuseOfARow(t, asset, Identity(t, caller).value);
    }
  }

  /** In these states "a" holds an approval of the critical asset, approved by "d", for any recipient. */
  predicate HoldsApproval(s: State) {
    && s.identities == map["a" := Active, "b" := Active, "c" := Active, "d" := Active]
    && s.approvals == [Approval("asset", "a", None, Approved, Some("d"))]
    && "asset" in s.assets && s.assets["asset"].status == AssetActive
    && s.assets["asset"].classification == CRITICAL && s.assets["asset"].owner == "a"
  }

  function UnmarkedTransfer(to: Id): Call {
    AuthorizeTransfer(Caller(Some("a"), true, [], {}), "asset", Some(to), false, Low,
                      Outside(true, true, Confirms, false, true))
  }

  lemma UnmarkedTransferGoesThrough(s: State, to: Id)
    requires HoldsApproval(s) && to in s.identities
    requires "asset" in s.chain ==> s.chain["asset"] != DerivedFor(to)
    ensures var t := Apply(s, UnmarkedTransfer(to)).0;
            && HoldsApproval(t) && t.chain == s.chain["asset" := DerivedFor(to)]
            && t.transfers == s.transfers + [ConfirmedTransfer("asset", CRITICAL, "a", to, Some(0), false)]
  {
    var call := UnmarkedTransfer(to);
    assert ActiveFor(s.approvals[0], "asset", "a");
    assert ActiveApproval(s.approvals, "asset", "a") == Some(0);
    GateOpensExactly(s, call.caller, "asset", Some(to), false, Low);
    TransferHappensExactly(s, call.caller, "asset", Some(to), false, Low, call.outside);
  }

  lemma RunOneMore(s: State, calls: seq<Call>, call: Call)
    ensures Run(s, calls + [call]) == Apply(Run(s, calls), call).0
  {
    assert (calls + [call])[..|calls|] == calls;
  }

  lemma OneUnmarkedTransfer(s: State, calls: seq<Call>, to: Id)
    requires var t := Run(s, calls);
             HoldsApproval(t) && to in t.identities && ("asset" in t.chain ==> t.chain["asset"] != DerivedFor(to))
    ensures var t, after := Run(s, calls), Run(s, calls + [UnmarkedTransfer(to)]);
            && HoldsApproval(after) && after.chain == t.chain["asset" := DerivedFor(to)]
            && after.transfers == t.transfers + [ConfirmedTransfer("asset", CRITICAL, "a", to, Some(0), false)]
  {
    RunOneMore(s, calls, UnmarkedTransfer(to));
    UnmarkedTransferGoesThrough(Run(s, calls), to);
  }

  lemma ApprovalIsAsked(s: State, row: Approval)
    requires s.approvals == [] && "a" in s.identities && "asset" in s.assets
    requires row == Approval("asset", "a", None, Pending, None)
    ensures Run(s, [RequestApproval(Caller(Some("a"), true, [], {}), "asset", None)]) == s.(approvals := [row])
  {
    RunOneMore(s, [], RequestApproval(Caller(Some("a"), true, [], {}), "asset", None));
  }

  lemma ApprovalIsGranted(s: State, calls: seq<Call>, row: Approval)
    requires row == Approval("asset", "a", None, Pending, None) && "d" in s.identities
    requires Run(s, calls) == s.(approvals := [row])
    ensures Run(s, calls + [DecideApproval(Caller(Some("d"), true, [], {}), 0, true)]) ==
            s.(approvals := [Approval("asset", "a", None, Approved, Some("d"))])
  {
    RunOneMore(s, calls, DecideApproval(Caller(Some("d"), true, [], {}), 0, true));
  }

  lemma TwoTransfersAfter(s: State, calls: seq<Call>)
    requires HoldsApproval(Run(s, calls)) && Run(s, calls).chain == map[] && Run(s, calls).transfers == []
    ensures Run(s, calls + [UnmarkedTransfer("b")] + [UnmarkedTransfer("c")]).transfers ==
            [ConfirmedTransfer("asset", CRITICAL, "a", "b", Some(0), false),
             ConfirmedTransfer("asset", CRITICAL, "a", "c", Some(0), false)]
  {
    OneUnmarkedTransfer(s, calls, "b");
    OneUnmarkedTransfer(s, calls + [UnmarkedTransfer("b")], "c");
  }

  lemma SecondUseFrom(s: State)
    requires Fresh(s) && s.chain == map[]
             && HoldsApproval(s.(approvals := [Approval("asset", "a", None, Approved, Some("d"))]))
    ensures exists calls ::
              Run(s, calls).transfers == [ConfirmedTransfer("asset", CRITICAL, "a", "b", Some(0), false),
                                          ConfirmedTransfer("asset", CRITICAL, "a", "c", Some(0), false)]
  {
    var row := Approval("asset", "a", None, Pending, None);
    var asked := [RequestApproval(Caller(Some("a"), true, [], {}), "asset", None)];
    ApprovalIsAsked(s, row);
    ApprovalIsGranted(s, asked, row);
    TwoTransfersAfter(s, asked + [DecideApproval(Caller(Some("d"), true, [], {}), 0, true)]);
  }

  /** It does happen: one approval of a critical asset, marks that fail, and two transfers to different recipients. */
  lemma SecondUseHappens()
    ensures exists s, calls ::
              && Fresh(s)
              && Run(s, calls).transfers == [ConfirmedTransfer("asset", CRITICAL, "a", "b", Some(0), false),
                                             ConfirmedTransfer("asset", CRITICAL, "a", "c", Some(0), false)]
  {
    SecondUseFrom(State(map["asset" := Asset(CRITICAL, AssetActive, "a", "a")],
                        map["a" := Active, "b" := Active, "c" := Active, "d" := Active], [], [], map[], [], {}));
  }

  // ---------------------------------------------------------------- an approval for somebody else

  /**
   * A confirmed transfer uses up an approval given for another recipient exactly when the requester holds such a row
   * as the active approved one, which can only be the case for assets that need no approval.
   */
  lemma WrongApprovalIsUsedUp(s: State, caller: Caller, asset: Id, named: Option<Id>, stepUp: bool, risk: Risk,
                              outside: Outside, i: nat)
    requires Transferred(s, caller, asset, named, stepUp, risk, outside).1 == Done && outside.approvalWritten
    requires i < |s.approvals|
    ensures var t := Transferred(s, caller, asset, named, stepUp, risk, outside).0;
            var recipient := if named.Some? then named else Identity(s, caller);
            var wrong := !MatchesTarget(s.approvals[i], recipient);
            && (t.approvals[i] != s.approvals[i] && wrong <==>
                wrong && s.approvals[i].status == Approved
                && ActiveApproval(s.approvals, asset, Identity(s, caller).value) == Some(i))
            && (t.approvals[i] != s.approvals[i] && wrong ==> !Sensitive(s.assets[asset].classification))
  {
    GateLetsThrough(s, caller, asset, named, stepUp, risk);
  }

  /** It does happen: a public asset, an approval for "b", a transfer to "c". */
  lemma WrongApprovalIsUsedUpExample()
    ensures exists s, caller, outside ::
              && Transferred(s, caller, "asset", Some("c"), true, Low, outside).1 == Done
              && s.approvals == [Approval("asset", "a", Some("b"), Approved, Some("d"))]
              && Transferred(s, caller, "asset", Some("c"), true, Low, outside).0.approvals[0].status == Executed
  {
    var s := State(map["asset" := Asset(PUBLIC, AssetActive, "a", "a")], map["a" := Active, "c" := Active],
                   [Approval("asset", "a", Some("b"), Approved, Some("d"))], [], map[], [], {});
    var caller := Caller(Some("a"), false, [], {"asset:transfer"});
    var outside := Outside(true, true, Confirms, true, true);
    var row := s.approvals[0];
    assert ActiveFor(row, "asset", "a");
    assert ActiveApproval(s.approvals, "asset", "a") == Some(0);
    assert Gate(s, caller, "asset", Some("c"), true, Low) == Done;
    assert Transferred(s, caller, "asset", Some("c"), true, Low, outside).1 == Done;
  }

  // ---------------------------------------------------------------- one custodian everywhere

  predicate OpenFor(rows: seq<CustodyRow>, i: int, asset: Id) {
    0 <= i < |rows| && rows[i].asset == asset && rows[i].open
  }

  ghost predicate OneOpenRow(rows: seq<CustodyRow>) {
    forall i, j, asset | OpenFor(rows, i, asset) && OpenFor(rows, j, asset) :: i == j
  }

  ghost predicate AssetAgrees(s: State, asset: Id) {
    && asset in s.assets
    && asset in s.chain && s.chain[asset] == DerivedFor(s.assets[asset].custodian)
    && exists i :: OpenFor(s.custody, i, asset) && s.custody[i].custodian == s.assets[asset].custodian
  }

  /** At most one open custody row per asset; from its first move on, row, asset table and chain name one custodian. */
  ghost predicate CustodyAgrees(s: State) {
    && OneOpenRow(s.custody)
    && (forall i, asset | OpenFor(s.custody, i, asset) :: asset in s.moved)
    && (forall asset | asset in s.moved :: AssetAgrees(s, asset))
  }

  lemma RowsAfterMove(rows: seq<CustodyRow>, asset: Id, custodian: Id, i: int, a: Id)
    ensures var after := CloseRows(rows, asset) + [CustodyRow(asset, custodian, true)];
            OpenFor(after, i, a) <==> (if a == asset then i == |rows| else OpenFor(rows, i, a))
    ensures var after := CloseRows(rows, asset) + [CustodyRow(asset, custodian, true)];
            OpenFor(rows, i, a) && a != asset ==> after[i] == rows[i]
  {
  }

  lemma MoveKeepsAgreement(s: State, asset: Id, custodian: Id)
    requires CustodyAgrees(s) && asset in s.assets
    ensures CustodyAgrees(ChainMoved(s, asset, custodian, true))
  {
    var t := ChainMoved(s, asset, custodian, true);
    forall i, a
      ensures OpenFor(t.custody, i, a) <==> (if a == asset then i == |s.custody| else OpenFor(s.custody, i, a))
    {
      RowsAfterMove(s.custody, asset, custodian, i, a);
    }
    forall a | a in t.moved ensures AssetAgrees(t, a) {
      if a == asset {
        assert OpenFor(t.custody, |s.custody|, a);
      } else {
        assert AssetAgrees(s, a);
        var i :| OpenFor(s.custody, i, a) && s.custody[i].custodian == s.assets[a].custodian;
        RowsAfterMove(s.custody, asset, custodian, i, a);
        assert OpenFor(t.custody, i, a);
      }
    }
  }

  /** A confirmed move keeps the layers in agreement exactly when the read model is written or already said so. */
  lemma AgreementNeedsTheWrite(s: State, asset: Id, custodian: Id, written: bool)
    requires CustodyAgrees(s) && asset in s.assets
    ensures CustodyAgrees(ChainMoved(s, asset, custodian, written)) <==>
            written || (asset in s.moved && s.assets[asset].custodian == custodian)
  {
    var t := ChainMoved(s, asset, custodian, written);
    if written {
      MoveKeepsAgreement(s, asset, custodian);
    } else if asset in s.moved {
      assert AssetAgrees(s, asset);
      if s.assets[asset].custodian == custodian {
        assert t == s.(chain := t.chain, moved := t.moved) && t.moved == s.moved;
        forall a | a in t.moved ensures AssetAgrees(t, a) {
          assert AssetAgrees(s, a);
        }
      } else {
        assert !AssetAgrees(t, asset);
      }
    } else {
      assert asset in t.moved;
      assert !AssetAgrees(t, asset);
    }
  }

  /** A failed read-model write does make the layers disagree: the chain says "c", the asset table still "a". */
  lemma DriftHappens()
    ensures exists s, calls :: Fresh(s) && !CustodyAgrees(Run(s, calls))
  {
    var caller := Caller(Some("a"), false, [], {"asset:transfer"});
    var unwritten := Outside(true, true, Confirms, true, false);
    var s := State(map["asset" := Asset(PUBLIC, AssetActive, "a", "a")], map["a" := Active, "c" := Active], [], [],
                   map[], [], {});
    var call := AuthorizeTransfer(caller, "asset", Some("c"), true, Low, unwritten);
    assert Gate(s, caller, "asset", Some("c"), true, Low) == Done;
    var t := Confirmed(s, "asset", "a", "c", unwritten);
    assert Apply(s, call).0 == t;
    assert [call][..0] == [] && Run(s, []) == s;
    assert Run(s, [call]) == t;
    assert CustodyAgrees(s) && "asset" in s.assets;
    AgreementNeedsTheWrite(s, "asset", "c", false);
    assert "asset" in t.moved && !AssetAgrees(t, "asset");
  }

  lemma StepKeepsAgreement(s: State, call: Call)
    requires CustodyAgrees(s) && Written(call)
    ensures CustodyAgrees(Apply(s, call).0)
  {
    var t := Apply(s, call).0;
    match call {
      case AuthorizeTransfer(caller, asset, named, stepUp, risk, outside) =>
        if Gate(s, caller, asset, named, stepUp, risk) == Done {
          var recipient := if named.Some? then named.value else Identity(s, caller).value;
          MoveKeepsAgreement(s.(approvals := t.approvals, transfers := t.transfers), asset, recipient);
        }
      case Assign(platformAdmin, asset, custodian, outside) =>
        if asset in s.assets {
          MoveKeepsAgreement(s, asset, custodian);
        }
      case SetAssetStatus(asset, status) =>
        forall a | a in t.moved ensures AssetAgrees(t, a) {
          assert AssetAgrees(s, a);
        }
      case _ =>
    }
  }

  /** In every run whose writes succeed, every asset moved so far has one custodian in all three places. */
  lemma {:induction false} CustodyAgreesInEveryRun(s: State, calls: seq<Call>)
    requires Fresh(s) && AllWritten(calls)
    ensures CustodyAgrees(Run(s, calls))
  {
    if calls != [] {
      var before := calls[..|calls| - 1];
      CustodyAgreesInEveryRun(s, before);
      StepKeepsAgreement(Run(s, before), calls[|calls| - 1]);
    }
  }
}
