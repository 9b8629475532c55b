// The authorization engine: a chain of guarded returns over server-resolved inputs.
module Authorization {
  import opened Options

  type Id = string

  datatype Classification = PUBLIC | CONTROLLED | SENSITIVE | HIGHLY_SENSITIVE | CRITICAL
  datatype IdentityStatus = Active | Suspended | Revoked | Unregistered
  datatype Role = Admin | User | OtherRole(name: string)
  datatype Action = Transfer | CreateAsset | OtherAction(name: string)
  datatype ApprovalStatus = Pending | Approved | Rejected | Executed
  datatype Risk = Low | Medium | High
  datatype Decision = Allow | Deny | Challenge

  const ADMINISTRATION := "administration:manage"

  /** `permission` is the resource:action name the request needs. */
  datatype Request = Request(
    identityStatus: IdentityStatus,
    role: Role,
    permissions: set<string>,
    permission: string,
    action: Action,
    classification: Option<Classification>,
    actor: Option<Id>,
    custodian: Option<Id>,
    approvalStatus: Option<ApprovalStatus>,
    risk: Option<Risk>,
    stepUp: bool,
    approvalRequired: bool)

  function Evaluate(r: Request): Decision {
    if r.identityStatus != Active then Deny
    else if r.role != Admin && r.permission !in r.permissions && ADMINISTRATION !in r.permissions then Deny
    else if r.action == Transfer && r.classification == Some(HIGHLY_SENSITIVE) && r.role == User then Deny
    else if r.action == Transfer && r.classification == Some(HIGHLY_SENSITIVE) && !r.stepUp then Challenge
    else if r.action == Transfer && r.role != Admin && r.actor.Some? && r.custodian.Some? && r.actor != r.custodian
    then Deny
    else if r.action == Transfer && r.approvalStatus == Some(Rejected) then Deny
    else if r.action == Transfer && r.approvalRequired && r.approvalStatus != Some(Approved) then Challenge
    else if r.risk == Some(High) && (r.action == Transfer || r.action == CreateAsset) && !r.stepUp then Challenge
    else Allow
  }

  /** Advisory risk can only raise the bar: it never turns a refusal into an Allow. */
  lemma RiskNeverGrants(r: Request, risk: Option<Risk>)
    ensures Evaluate(r.(risk := risk)) == Allow ==> Evaluate(r.(risk := None)) == Allow
  {
  }

  /** What an Allow takes, as one condition. */
  lemma AllowsExactly(r: Request)
    ensures Evaluate(r) == Allow <==>
              && r.identityStatus == Active
              && (r.role == Admin || r.permission in r.permissions || ADMINISTRATION in r.permissions)
              && (r.action == Transfer ==>
                    && (r.classification == Some(HIGHLY_SENSITIVE) ==> r.role != User && r.stepUp)
                    && (r.role == Admin || r.actor.None? || r.custodian.None? || r.actor == r.custodian)
                    && r.approvalStatus != Some(Rejected)
                    && (r.approvalRequired ==> r.approvalStatus == Some(Approved)))
              && (r.action == Transfer || r.action == CreateAsset ==> r.risk == Some(High) ==> r.stepUp)
  {
  }

  /** What an identity's standing, permission and role rule out, whatever else is shown. */
  predicate RuledOut(r: Request) {
    || r.identityStatus != Active
    || (r.role != Admin && r.permission !in r.permissions && "administration:manage" !in r.permissions)
    || (r.action == Transfer && r.classification == Some(HIGHLY_SENSITIVE) && r.role == User)
  }

  /**
   * Denied is what is ruled out, and a transfer by a stranger or on a rejected approval unless a step-up is due first.
   */
  lemma DeniesExactly(r: Request)
    ensures Evaluate(r) == Deny <==>
              || RuledOut(r)
              || (r.action == Transfer
                  && (r.classification == Some(HIGHLY_SENSITIVE) ==> r.stepUp)
                  && ((r.role != Admin && r.actor.Some? && r.custodian.Some? && r.actor != r.custodian)
                      || r.approvalStatus == Some(Rejected)))
  {
  }

  /** A transfer that needs an approval and is allowed has one; one that needs none is judged as if there were none. */
  lemma ApprovalGate(r: Request)
    requires r.action == Transfer
    ensures r.approvalRequired && Evaluate(r) == Allow ==> r.approvalStatus == Some(Approved)
    ensures !r.approvalRequired && r.approvalStatus != Some(Rejected) ==>
            Evaluate(r) == Evaluate(r.(approvalStatus := None))
  {
  }
}
