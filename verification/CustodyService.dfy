// The procedures that change approval rows, custody rows and the chain, statement by statement.
module CustodyService {
  import opened Options
  import opened Authorization
  import opened CustodyPipeline

  class Platform {
    var assets: map<Id, Asset>
    var identities: map<Id, IdentityStatus>
    var approvals: seq<Approval>
    var custody: seq<CustodyRow>
    var chain: map<Id, Wallet>
    ghost var transfers: seq<ConfirmedTransfer>
    ghost var moved: set<Id>

    ghost function View(): State reads this {
      State(assets, identities, approvals, custody, chain, transfers, moved)
    }

    constructor (assets: map<Id, Asset>, identities: map<Id, IdentityStatus>, chain: map<Id, Wallet>)
      ensures Fresh(View()) && this.assets == assets && this.identities == identities && this.chain == chain
    {
      this.assets, this.identities, this.chain := assets, identities, chain;
      approvals, custody, transfers, moved := [], [], [], {};
    }

    method IdentityOf(caller: Caller) returns (actor: Option<Id>)
      ensures actor == Identity(View(), caller)
    {
      if caller.identity.Some? && caller.identity.value in identities {
        return caller.identity;
      }
      return None;
    }

    method RequestTransferApproval(caller: Caller, asset: Id, target: Option<Id>) returns (reply: Reply)
      modifies this`approvals
      ensures (View(), reply) == Apply(old(View()), RequestApproval(caller, asset, target))
      ensures reply == Done <==> Identity(old(View()), caller).Some? && asset in assets
      ensures reply == Done ==> ActiveApproval(approvals, asset, Identity(View(), caller).value).Some?
    {
      var actor := IdentityOf(caller);
      if actor.None? { return Forbidden; }
      if asset !in assets { return NotFound; }
      var existing := ActiveApproval(approvals, asset, actor.value);
      if existing.Some? { return Done; }
      approvals := approvals + [Approval(asset, actor.value, target, Pending, None)];
      return Done;
    }

    /** The guarded update: only a pending row can be decided. */
    method UpdateApprovalStatus(approval: nat, status: ApprovalStatus, approver: Id) returns (updated: bool)
      requires approval < |approvals| && approvals[approval].requester != approver
      requires status == Approved || status == Rejected
      modifies this`approvals
      ensures updated <==> old(approvals)[approval].status == Pending
      ensures !updated ==> approvals == old(approvals)
      ensures updated ==>
                approvals ==
                old(approvals)[approval := old(approvals)[approval].(status := status, approver := Some(approver))]
      ensures Advances(old(approvals)[approval], approvals[approval])
    {
      var row := approvals[approval];
      if row.status != Pending { return false; }
      approvals := approvals[approval := row.(status := status, approver := Some(approver))];
      return true;
    }

    method Decide(caller: Caller, approval: nat, approve: bool) returns (reply: Reply)
      modifies this`approvals
      ensures (View(), reply) == Apply(old(View()), DecideApproval(caller, approval, approve))
      ensures reply == Done ==>
                && approval < |old(approvals)| == |approvals|
                && old(approvals)[approval].status == Pending
                && (caller.platformAdmin || (caller.roles != [] && caller.roles[0] == Admin)
                    || "administration:manage" in caller.permissions)
                && approvals[approval].approver == caller.identity != Some(approvals[approval].requester)
                && approvals[approval].status == if approve then Approved else Rejected
      ensures reply != Done ==> approvals == old(approvals)
    {
      var actor := IdentityOf(caller);
      if actor.None? { return Forbidden; }
      if approval >= |approvals| { return NotFound; }
      var canApprove := RoleOf(caller) == Admin || ADMINISTRATION in caller.permissions;
      if !canApprove { return Forbidden; }
      if approvals[approval].requester == actor.value { return Forbidden; }
      var updated := UpdateApprovalStatus(approval, if approve then Approved else Rejected, actor.value);
      if !updated { return Conflict; }
      return Done;
    }

    method MarkApprovalExecuted(approval: nat)
      requires approval < |approvals|
      modifies this`approvals
      ensures approvals == MarkedExecuted(old(approvals), Some(approval))
    {
      approvals := approvals[approval := approvals[approval].(status := Executed)];
    }

    /** One transaction: the asset's custodian, the open custody row closed, a new one opened. */
    method ApplyCustodyTransfer(asset: Id, custodian: Id)
      requires asset in assets
      modifies this`assets, this`custody
      ensures View() == MoveCustody(old(View()), asset, custodian)
    {
      assets := assets[asset := assets[asset].(custodian := custodian)];
      custody := CloseRows(custody, asset);
      custody := custody + [CustodyRow(asset, custodian, true)];
    }

    /** The policy's inputs, all from the server's own tables. */
    method ResolveRequest(caller: Caller, asset: Id, recipient: Option<Id>, stepUp: bool, risk: Risk)
      returns (request: Request)
      requires asset in assets
      ensures request == TransferRequest(View(), caller, asset, recipient, stepUp, risk)
    {
      var row := assets[asset];
      var actor := IdentityOf(caller);
      var active, actorStatus := None, Unregistered;
      if actor.Some? {
        active := ActiveApproval(approvals, asset, actor.value);
        actorStatus := identities[actor.value];
      }
      var approvalStatus := None;
      if active.Some? && MatchesTarget(approvals[active.value], recipient) {
        approvalStatus := Some(approvals[active.value].status);
      }
      var permissions := caller.permissions;
      if caller.platformAdmin { permissions := permissions + {ADMINISTRATION}; }
      request := Request(actorStatus, RoleOf(caller), permissions, "asset:transfer", Transfer, Some(row.classification),
                         actor, Some(row.custodian), approvalStatus, Some(risk), stepUp, Sensitive(row.classification));
    }

    /** Everything before the chain is touched. */
    method DecideTransfer(caller: Caller, asset: Id, named: Option<Id>, stepUp: bool, risk: Risk) returns (reply: Reply)
      ensures reply == Gate(View(), caller, asset, named, stepUp, risk)
    {
      if asset !in assets { return NotFound; }
      var row := assets[asset];
      if row.status != AssetActive { return PreconditionFailed; }
      var actor := IdentityOf(caller);
      var recipient := actor;
      if named.Some? {
        if named.value !in identities { return NotFound; }
        recipient := named;
      }
      if row.owner !in identities || identities[row.owner] != Active { return Denied; }
      if named.Some? && identities[named.value] != Active { return Denied; }

      var request := ResolveRequest(caller, asset, recipient, stepUp, risk);
      var decision := Evaluate(request);
      if decision == Deny { return Denied; }
      if decision == Challenge { return Challenged; }
      return Done;
    }

    /** What follows the chain's confirmation: the row in use is marked, then the read model is moved. */
    method RecordTransfer(asset: Id, requester: Id, recipient: Id, outside: Outside)
      requires asset in assets
      modifies this
      ensures View() == Confirmed(old(View()), asset, requester, recipient, outside)
    {
      var active := ActiveApproval(approvals, asset, requester);
      ghost var used := UsedApproval(View(), asset, requester);
      chain := chain[asset := DerivedFor(recipient)];
      moved := moved + {asset};
      transfers := transfers + [ConfirmedTransfer(asset, assets[asset].classification, requester, recipient, used,
                                                  outside.approvalWritten)];
      if active.Some? && approvals[active.value].status == Approved && outside.approvalWritten {
        MarkApprovalExecuted(active.value);
      }
      if outside.custodyWritten {
        ApplyCustodyTransfer(asset, recipient);
      }
    }

    method AuthorizeAssetTransfer(caller: Caller, asset: Id, named: Option<Id>, stepUp: bool, risk: Risk,
                                  outside: Outside)
      returns (reply: Reply)
      modifies this
      ensures (View(), reply) == Apply(old(View()), AuthorizeTransfer(caller, asset, named, stepUp, risk, outside))
      ensures reply == Done ==>
                && MayTransfer(old(View()), caller, asset, named, stepUp, risk)
                && asset in chain
                && chain[asset] == DerivedFor(if named.Some? then named.value else Identity(old(View()), caller).value)
      ensures reply != Done ==> View() == old(View())
    {
      reply := DecideTransfer(caller, asset, named, stepUp, risk);
      if reply != Done { return; }
      GateOpensExactly(View(), caller, asset, named, stepUp, risk);
      var actor := IdentityOf(caller);
      var recipient := if named.Some? then named.value else actor.value;
      if !outside.configured { return PreconditionFailed; }
      if outside.readable && asset in chain && chain[asset] == DerivedFor(recipient) { return Unchanged; }
      match outside.verdict {
        case SameCustody => return Unchanged;
        case Rejects => return ChainFailed;
        case Confirms => RecordTransfer(asset, actor.value, recipient, outside);
      }
    }

    method AssignAsset(platformAdmin: bool, asset: Id, custodian: Id, outside: Outside) returns (reply: Reply)
      modifies this
      ensures (View(), reply) == Apply(old(View()), Assign(platformAdmin, asset, custodian, outside))
      ensures reply == Done ==>
                && platformAdmin && asset in assets && assets[asset].status != AssetRevoked
                && custodian in identities && identities[custodian] == Active
                && asset in chain && chain[asset] == DerivedFor(custodian)
      ensures reply != Done ==> View() == old(View())
    {
      if !platformAdmin { return Forbidden; }
      if asset !in assets { return NotFound; }
      if assets[asset].status == AssetRevoked { return PreconditionFailed; }
      if custodian !in identities { return NotFound; }
      if identities[custodian] != Active { return PreconditionFailed; }
      if !outside.configured { return PreconditionFailed; }
      if outside.verdict != Confirms { return ChainFailed; }
      chain := chain[asset := DerivedFor(custodian)];
      moved := moved + {asset};
      if outside.custodyWritten {
        ApplyCustodyTransfer(asset, custodian);
      }
      return Done;
    }
  }
}
