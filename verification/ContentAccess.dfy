// The authorization of content operations: identity gates, relationship to the asset, permission, classification,
// step-up.
module ContentAccess {
  import opened Options
  import Authorization

  type Id = string
  type Classification = Authorization.Classification

  datatype Permission = ViewGrant | EditGrant
  datatype Action = VIEW | EDIT | UPLOAD | MANAGE_ACCESS
  datatype Baseline = OWNER | CUSTODIAN | GRANT | NONE
  datatype Lifecycle = Verified | Unverified(state: string)
  datatype AssetStatus = AssetActive | AssetPending | AssetRevoked
  datatype Verdict = DENY | CHALLENGE | ALLOW

  datatype Identity = Identity(id: Id, status: Authorization.IdentityStatus, lifecycle: Option<Lifecycle>)
  datatype Actor = Actor(platformAdmin: bool, identity: Option<Identity>, roles: seq<string>, permissions: set<string>)
  datatype Resource = Resource(id: Id, classification: Classification, status: AssetStatus, owner: Id, custodian: Id)

  /** `stepUp` is the answer of the step-up probe for this purpose, if there is a probe. */
  datatype Input = Input(actor: Actor, asset: Resource, action: Action, grants: set<Permission>, stepUp: Option<bool>)

  datatype AccessDecision = AccessDecision(verdict: Verdict, baseline: Baseline)

  function ActionPermission(action: Action): string {
    match action
    case VIEW => "asset:read"
    case EDIT => "asset:edit"
    case UPLOAD => "asset:create"
    case MANAGE_ACCESS => "asset:assign"
  }

  predicate SensitiveOrAbove(c: Classification) {
    c.SENSITIVE? || c.HIGHLY_SENSITIVE? || c.CRITICAL?
  }

  predicate HighlySensitive(c: Classification) {
    c.HIGHLY_SENSITIVE? || c.CRITICAL?
  }

  method EvaluateContentAccess(input: Input) returns (decision: AccessDecision)
    ensures decision.verdict == Judged(input)
    ensures decision.baseline ==
            if !InGoodStanding(input) then NONE
            else if Owns(input) then OWNER
            else if KeepsCustody(input) then CUSTODIAN
            else if input.grants != {} then GRANT
            else NONE
    ensures decision.verdict != DENY && decision.baseline == NONE ==>
              IsAdmin(input.actor) || (input.action == VIEW && !SensitiveOrAbove(input.asset.classification))
  {
    NoGrant(input.grants);
    var actor, asset, action := input.actor, input.asset, input.action;
    if actor.identity.None? { return AccessDecision(DENY, NONE); }
    var identity := actor.identity.value;
    if identity.status != Authorization.Active { return AccessDecision(DENY, NONE); }
    if identity.lifecycle.Some? && identity.lifecycle.value != Verified { return AccessDecision(DENY, NONE); }
    if asset.status == AssetRevoked { return AccessDecision(DENY, NONE); }

    var isAdmin := actor.platformAdmin || "ADMIN" in actor.roles;
    var isOwner := identity.id == asset.owner;
    var isCustodian := identity.id == asset.custodian;
    var baseline := NONE;
    if isOwner { baseline := OWNER; } else if isCustodian { baseline := CUSTODIAN; }

    var hasViewGrant := ViewGrant in input.grants || EditGrant in input.grants;
    var hasEditGrant := EditGrant in input.grants;
    if !isOwner && !isCustodian && (hasEditGrant || hasViewGrant) { baseline := GRANT; }

    var holdsPermission := isAdmin || ActionPermission(action) in actor.permissions
                           || "administration:manage" in actor.permissions;
    var access := false;
    match action {
      case VIEW =>
        access := isAdmin || isOwner || isCustodian || hasViewGrant || hasEditGrant
                  || (holdsPermission && !HighlySensitive(asset.classification));
      case EDIT => access := isAdmin || isOwner || isCustodian || hasEditGrant;
      case UPLOAD => access := isAdmin || isOwner || isCustodian || hasEditGrant;
      case MANAGE_ACCESS => access := isAdmin || isOwner;
    }
    if !access { return AccessDecision(DENY, baseline); }
    if !holdsPermission && action != VIEW { return AccessDecision(DENY, baseline); }
    if action == VIEW && SensitiveOrAbove(asset.classification) && !isAdmin && !isOwner && !isCustodian
       && !hasViewGrant && !hasEditGrant { return AccessDecision(DENY, baseline); }
    var needsStepUp := input.stepUp.Some?
                       && (action == EDIT || action == UPLOAD
                           || (action == VIEW && SensitiveOrAbove(asset.classification)));
    if needsStepUp && !input.stepUp.value { return AccessDecision(CHALLENGE, baseline); }
    return AccessDecision(ALLOW, baseline);
  }

  // ---------------------------------------------------------------- what the decision means

  function Judged(input: Input): Verdict {
    var actor, asset, action := input.actor, input.asset, input.action;
    if actor.identity.None? || actor.identity.value.status != Authorization.Active then DENY
    else if actor.identity.value.lifecycle.Some? && actor.identity.value.lifecycle.value != Verified then DENY
    else if asset.status == AssetRevoked then DENY
    else
      var isAdmin := actor.platformAdmin || "ADMIN" in actor.roles;
      var related := actor.identity.value.id == asset.owner || actor.identity.value.id == asset.custodian;
      var holds := isAdmin || ActionPermission(action) in actor.permissions
                   || "administration:manage" in actor.permissions;
      var sensitive := SensitiveOrAbove(asset.classification);
      var entitled :=
        (match action
         case VIEW => isAdmin || related || input.grants != {} || (holds && !sensitive)
         case MANAGE_ACCESS => isAdmin || (actor.identity.value.id == asset.owner && holds)
         case _ => (isAdmin || related || EditGrant in input.grants) && holds);
      if !entitled then DENY
      else if input.stepUp == Some(false) && (action == EDIT || action == UPLOAD || (action == VIEW && sensitive))
      then CHALLENGE
      else ALLOW
  }

  predicate IsAdmin(actor: Actor) {
    actor.platformAdmin || "ADMIN" in actor.roles
  }

  /** Active, verified if a lifecycle is recorded, and the asset not revoked. */
  predicate InGoodStanding(input: Input) {
    && input.actor.identity.Some?
    && input.actor.identity.value.status == Authorization.Active
    && (input.actor.identity.value.lifecycle == None || input.actor.identity.value.lifecycle == Some(Verified))
    && input.asset.status != AssetRevoked
  }

  predicate Owns(input: Input) {
    input.actor.identity.Some? && input.actor.identity.value.id == input.asset.owner
  }

  predicate KeepsCustody(input: Input) {
    input.actor.identity.Some? && input.actor.identity.value.id == input.asset.custodian
  }

  /** A non-administrator who is neither owner nor custodian. */
  predicate Stranger(input: Input) {
    !IsAdmin(input.actor) && !Owns(input) && !KeepsCustody(input)
  }

  /** A stranger sees sensitive content exactly with a grant, whatever permissions the roles bring. */
  lemma StrangersNeedAGrant(input: Input)
    requires InGoodStanding(input) && Stranger(input)
    requires input.action == VIEW && SensitiveOrAbove(input.asset.classification)
    ensures Judged(input) != DENY <==> ViewGrant in input.grants || EditGrant in input.grants
  {
    NoGrant(input.grants);
  }

  // ---------------------------------------------------------------- each action in its own terms

  /** Holds the permission, or may administer. */
  predicate MayDo(actor: Actor, permission: string) {
    IsAdmin(actor) || permission in actor.permissions || "administration:manage" in actor.permissions
  }

  /** Viewing: administrators, owner, custodian and grantees; of lesser classifications everybody who may read. */
  lemma ViewExactly(input: Input)
    requires input.action == VIEW
    ensures Judged(input) != DENY <==>
              && InGoodStanding(input)
              && (IsAdmin(input.actor) || Owns(input) || KeepsCustody(input)
                  || ViewGrant in input.grants || EditGrant in input.grants
                  || (MayDo(input.actor, "asset:read") && input.asset.classification.PUBLIC?)
                  || (MayDo(input.actor, "asset:read") && input.asset.classification.CONTROLLED?))
  {
    NoGrant(input.grants);
  }

  /** Editing and uploading: owner, custodian and those with an edit grant, if they hold the permission. */
  lemma ChangeExactly(input: Input)
    requires input.action == EDIT || input.action == UPLOAD
    ensures Judged(input) != DENY <==>
              && InGoodStanding(input)
              && (IsAdmin(input.actor) || Owns(input) || KeepsCustody(input) || EditGrant in input.grants)
              && MayDo(input.actor, if input.action == EDIT then "asset:edit" else "asset:create")
  {
  }

  /** The access list: administrators, and the owner with the permission; grants and custody do not count. */
  lemma ManageExactly(input: Input)
    requires input.action == MANAGE_ACCESS
    ensures Judged(input) == ALLOW <==>
              InGoodStanding(input) && (IsAdmin(input.actor) || (Owns(input) && MayDo(input.actor, "asset:assign")))
    ensures Judged(input) != CHALLENGE
  {
  }

  /** A challenge is what is not denied, lacks a demanded step-up, and changes content or shows sensitive content. */
  lemma ChallengedExactly(input: Input)
    ensures Judged(input) == CHALLENGE <==>
              && Judged(input.(stepUp := None)) == ALLOW
              && input.stepUp == Some(false)
              && (input.action == EDIT || input.action == UPLOAD
                  || (input.action == VIEW && !input.asset.classification.PUBLIC?
                      && !input.asset.classification.CONTROLLED?))
    ensures Judged(input.(stepUp := None)) == DENY <==> Judged(input) == DENY
  {
  }

  lemma StrangersExactly(input: Input)
    requires InGoodStanding(input) && Stranger(input)
    ensures input.action == EDIT ==>
              (Judged(input) != DENY <==>
                EditGrant in input.grants
                && ("asset:edit" in input.actor.permissions || "administration:manage" in input.actor.permissions))
    ensures input.action == UPLOAD ==>
              (Judged(input) != DENY <==>
                EditGrant in input.grants
                && ("asset:create" in input.actor.permissions || "administration:manage" in input.actor.permissions))
    ensures input.action == MANAGE_ACCESS ==> Judged(input) == DENY
  {
  }

  /** An administrator is a platform administrator or holds the ADMIN role; one in good standing is never denied. */
  lemma AdministratorsAreNotDenied(input: Input)
    requires InGoodStanding(input) && (input.actor.platformAdmin || "ADMIN" in input.actor.roles)
    ensures Judged(input) != DENY
  {
  }

  lemma NoGrant(grants: set<Permission>)
    ensures grants == {} <==> ViewGrant !in grants && EditGrant !in grants
  {
    if p :| p in grants { assert p == ViewGrant || p == EditGrant; }
  }

  predicate AtMost(a: Verdict, b: Verdict) {
    a == DENY || b == ALLOW || a == b
  }

  /** More grants and more permissions never take access away, and grants alone never open the access list. */
  lemma AccessIsMonotone(input: Input, grants: set<Permission>, permissions: set<string>)
    requires input.grants <= grants && input.actor.permissions <= permissions
    ensures AtMost(Judged(input), Judged(input.(grants := grants, actor := input.actor.(permissions := permissions))))
    ensures input.action == MANAGE_ACCESS ==> Judged(input.(grants := grants)) == Judged(input)
  {
  }
}
