// The cryptographic assurance policy: an additive score with floors that fixes level, algorithms and reason codes.
module AssurancePolicy {
  import opened Options
  import Authorization

  datatype Level = BASELINE | ELEVATED | QUANTUM_HARDENED
  datatype Algorithm = ECDSA_SECP256K1 | ML_DSA_65

  datatype Operation =
    | ASSET_VIEW | CONTENT_ACCESS | CONTENT_UPLOAD | ASSET_MINT | ASSET_ASSIGN | ASSET_TRANSFER | ASSET_FORCE_TRANSFER
    | ASSET_BURN | ASSET_STATUS_CHANGE | IDENTITY_VERIFY | IDENTITY_STATUS_CHANGE | IDENTITY_ROLE_CHANGE
    | IDENTITY_ROLE_ADMIN | DID_DOCUMENT_UPDATE | DID_KEY_ROTATE | DID_KEY_REVOKE | KEY_RECOVERY_REQUEST
    | KEY_RECOVERY_APPROVE | KEY_RECOVERY_EXECUTE | GOVERNANCE_PROPOSAL | GOVERNANCE_APPROVE | GOVERNANCE_EXECUTE
    | GOVERNANCE_CANCEL | GOVERNANCE_CONFIG | PAUSE_REGISTRY | UNPAUSE_REGISTRY | DISPUTE_RESOLVE | AUDIT_REPORT_COMMIT
    | CONSENT_GRANT | UnlistedOperation(name: string)

  datatype Role = Admin | Auditor | OtherRole(name: string)
  datatype Classification =
    | Unclassified
    | Known(value: Authorization.Classification)
    | UnknownClassification(name: string)
  datatype Risk = LOW | MEDIUM | HIGH | CRITICAL | UnknownRisk(name: string)
  datatype Custody = CUSTODIAN | OWNER | NONE | ADMIN_OVERRIDE | NOT_APPLICABLE
  datatype Approval = NOT_REQUIRED | PENDING | APPROVED | REJECTED | EXECUTED

  /** `riskScore` is absent when it is missing or not finite. */
  datatype Input = Input(
    operation: Operation, role: Role, classification: Classification, riskLevel: Option<Risk>, riskScore: Option<real>,
    custody: Option<Custody>, approval: Option<Approval>, stepUpSatisfied: bool)

  datatype Code =
    | OP_BASELINE | OP_ELEVATED_RISK | OP_ADMINISTRATIVE | OP_IRREVERSIBLE
    | CLASSIFICATION_UNKNOWN | CLASSIFICATION_HIGHLY_SENSITIVE | CLASSIFICATION_CRITICAL
    | RISK_MEDIUM | RISK_HIGH | RISK_CRITICAL
    | ROLE_ADMIN_BLAST_RADIUS | ROLE_AUDITOR_READ_ONLY
    | CUSTODY_MISMATCH | CUSTODY_NOT_CUSTODIAN
    | APPROVAL_MISSING | APPROVAL_REJECTED | STEP_UP_NOT_SATISFIED | PQC_POLICY_MANDATED | PLATFORM_FLOOR

  /** The declared order of the codes. */
  const REASON_CODES: seq<Code> :=
    [OP_BASELINE, OP_ELEVATED_RISK, OP_ADMINISTRATIVE, OP_IRREVERSIBLE, CLASSIFICATION_UNKNOWN,
     CLASSIFICATION_HIGHLY_SENSITIVE, CLASSIFICATION_CRITICAL, RISK_MEDIUM, RISK_HIGH, RISK_CRITICAL,
     ROLE_ADMIN_BLAST_RADIUS, ROLE_AUDITOR_READ_ONLY, CUSTODY_MISMATCH, CUSTODY_NOT_CUSTODIAN, APPROVAL_MISSING,
     APPROVAL_REJECTED, STEP_UP_NOT_SATISFIED, PQC_POLICY_MANDATED, PLATFORM_FLOOR]

  datatype Assurance = Assurance(level: Level, algorithms: seq<Algorithm>, dualSignature: bool, stepUp: bool,
                                 score: nat, reasons: seq<Code>)

  const ELEVATED_THRESHOLD := 40
  const QUANTUM_THRESHOLD := 70

  function AlgorithmsOf(level: Level): seq<Algorithm> {
    if level == QUANTUM_HARDENED then [ECDSA_SECP256K1, ML_DSA_65] else [ECDSA_SECP256K1]
  }

  predicate Administrative(op: Operation) {
    op.IDENTITY_ROLE_CHANGE? || op.IDENTITY_ROLE_ADMIN? || op.GOVERNANCE_CONFIG? || op.GOVERNANCE_PROPOSAL?
    || op.GOVERNANCE_APPROVE? || op.GOVERNANCE_EXECUTE? || op.GOVERNANCE_CANCEL? || op.PAUSE_REGISTRY?
    || op.UNPAUSE_REGISTRY?
  }

  predicate Irreversible(op: Operation) {
    op.ASSET_BURN? || op.ASSET_FORCE_TRANSFER? || op.IDENTITY_STATUS_CHANGE? || op.KEY_RECOVERY_EXECUTE?
    || op.DID_KEY_REVOKE?
  }

  predicate QuantumMandated(op: Operation) {
    op.ASSET_BURN? || op.ASSET_FORCE_TRANSFER? || op.IDENTITY_ROLE_ADMIN? || op.GOVERNANCE_CONFIG?
    || op.IDENTITY_STATUS_CHANGE? || op.KEY_RECOVERY_EXECUTE?
  }

  function OperationWeight(op: Operation): nat {
    match op
    case ASSET_BURN => 60
    case ASSET_FORCE_TRANSFER => 60
    case KEY_RECOVERY_EXECUTE => 55
    case IDENTITY_ROLE_ADMIN => 55
    case IDENTITY_ROLE_CHANGE => 45
    case GOVERNANCE_CONFIG => 55
    case GOVERNANCE_EXECUTE => 45
    case GOVERNANCE_PROPOSAL => 35
    case GOVERNANCE_APPROVE => 35
    case GOVERNANCE_CANCEL => 30
    case DID_KEY_REVOKE => 45
    case IDENTITY_STATUS_CHANGE => 45
    case KEY_RECOVERY_APPROVE => 35
    case KEY_RECOVERY_REQUEST => 30
    case DID_KEY_ROTATE => 30
    case DID_DOCUMENT_UPDATE => 25
    case ASSET_TRANSFER => 25
    case ASSET_ASSIGN => 25
    case ASSET_MINT => 25
    case ASSET_STATUS_CHANGE => 30
    case IDENTITY_VERIFY => 20
    case DISPUTE_RESOLVE => 25
    case AUDIT_REPORT_COMMIT => 15
    case PAUSE_REGISTRY => 30
    case UNPAUSE_REGISTRY => 30
    case CONSENT_GRANT => 10
    case CONTENT_ACCESS => 20
    case CONTENT_UPLOAD => 15
    case ASSET_VIEW => 5
    case UnlistedOperation(_) => 60
  }

  function ClassificationPoints(c: Authorization.Classification): nat {
    match c
    case PUBLIC => 0
    case CONTROLLED => 5
    case SENSITIVE => 15
    case HIGHLY_SENSITIVE => 30
    case CRITICAL => 45
  }

  function RiskPoints(r: Risk): nat {
    match r
    case LOW => 0
    case MEDIUM => 10
    case HIGH => 25
    case CRITICAL => 40
    case UnknownRisk(_) => 40
  }

  // ---------------------------------------------------------------- what the engine computes

  function OrElse<T>(o: Option<T>, default: T): T {
    if o.Some? then o.value else default
  }

  function ClassificationScore(c: Classification): nat {
    match c
    case Unclassified => 0
    case Known(k) => ClassificationPoints(k)
    case UnknownClassification(_) => ClassificationPoints(Authorization.CRITICAL)
  }

  /** The advisory score adds at most ten points and never takes any away. */
  function Nudge(score: Option<real>): nat {
    match score
    case None => 0
    case Some(s) => if s >= 75.0 then 10 else if s >= 50.0 then 5 else 0
  }

  function RoleScore(role: Role): nat {
    if role.Admin? then 10 else if role.Auditor? then 15 else 0
  }

  function CustodyScore(c: Custody): nat {
    if c.NONE? then 15 else if c.OWNER? then 5 else 0
  }

  function ApprovalScore(a: Approval): nat {
    if a.PENDING? then 10 else if a.REJECTED? then 20 else 0
  }

  predicate StepUpCounts(i: Input) {
    !i.stepUpSatisfied && (OperationWeight(i.operation) >= 25 || Irreversible(i.operation))
  }

  function Score(i: Input): nat {
    OperationWeight(i.operation) + ClassificationScore(i.classification)
    + RiskPoints(OrElse(i.riskLevel, LOW)) + Nudge(i.riskScore) + RoleScore(i.role)
    + CustodyScore(OrElse(i.custody, NOT_APPLICABLE)) + ApprovalScore(OrElse(i.approval, NOT_REQUIRED))
    + (if StepUpCounts(i) then 15 else 0)
  }

  /** A post-quantum signature is needed even if the risk value is left aside. */
  predicate MandatedRegardless(i: Input) {
    || Score(i) >= QUANTUM_THRESHOLD
    || QuantumMandated(i.operation)
    || (Irreversible(i.operation) && (i.classification == Known(Authorization.CRITICAL) || i.role.Admin?))
  }

  predicate Mandated(i: Input) {
    MandatedRegardless(i) || i.riskLevel == Some(CRITICAL)
  }

  predicate ElevatedFloor(op: Operation) {
    Irreversible(op) || Administrative(op)
  }

  function LevelOf(i: Input): Level {
    if Mandated(i) then QUANTUM_HARDENED
    else if Score(i) >= ELEVATED_THRESHOLD || ElevatedFloor(i.operation) then ELEVATED
    else BASELINE
  }

  /** When a code is emitted. */
  predicate Applies(i: Input, c: Code) {
    match c
    case OP_BASELINE => OperationWeight(i.operation) <= 20
    case OP_ELEVATED_RISK => OperationWeight(i.operation) > 20
    case OP_ADMINISTRATIVE => Administrative(i.operation)
    case OP_IRREVERSIBLE => Irreversible(i.operation)
    case CLASSIFICATION_UNKNOWN => i.classification.UnknownClassification?
    case CLASSIFICATION_HIGHLY_SENSITIVE => i.classification == Known(Authorization.HIGHLY_SENSITIVE)
    case CLASSIFICATION_CRITICAL => i.classification == Known(Authorization.CRITICAL)
    case RISK_MEDIUM => i.riskLevel == Some(MEDIUM)
    case RISK_HIGH => i.riskLevel == Some(HIGH)
    case RISK_CRITICAL => i.riskLevel == Some(CRITICAL)
    case ROLE_ADMIN_BLAST_RADIUS => i.role.Admin?
    case ROLE_AUDITOR_READ_ONLY => i.role.Auditor?
    case CUSTODY_MISMATCH => i.custody == Some(NONE)
    case CUSTODY_NOT_CUSTODIAN => i.custody == Some(OWNER)
    case APPROVAL_MISSING => i.approval == Some(PENDING)
    case APPROVAL_REJECTED => i.approval == Some(REJECTED)
    case STEP_UP_NOT_SATISFIED => StepUpCounts(i)
    case PQC_POLICY_MANDATED => Mandated(i)
    case PLATFORM_FLOOR => ElevatedFloor(i.operation)
  }

  /** Those of the first `n` declared codes that apply, in declared order. */
  function Emitted(i: Input, n: nat): seq<Code>
    requires n <= |REASON_CODES|
  {
    if n == 0 then []
    else Emitted(i, n - 1) + (if Applies(i, REASON_CODES[n - 1]) then [REASON_CODES[n - 1]] else [])
  }

  function EmittedCodes(i: Input): seq<Code> {
    Emitted(i, |REASON_CODES|)
  }

  // ---------------------------------------------------------------- the engine

  lemma OneMoreCode(i: Input, n: nat)
    requires n < |REASON_CODES|
    ensures Emitted(i, n + 1) ==
            if Applies(i, REASON_CODES[n]) then Emitted(i, n) + [REASON_CODES[n]] else Emitted(i, n)
  {
  }

  method ClassificationWeight(i: Input, reasons: seq<Code>) returns (weight: nat, pushed: seq<Code>)
    requires reasons == Emitted(i, 4)
    ensures weight == ClassificationScore(i.classification) && pushed == Emitted(i, 7)
  {
    OneMoreCode(i, 4);
    OneMoreCode(i, 5);
    OneMoreCode(i, 6);
    pushed := reasons;
    var classification := i.classification;
    if classification.Unclassified? {
      weight := 0;
    } else if classification.UnknownClassification? {
      pushed := pushed + [CLASSIFICATION_UNKNOWN];
      weight := ClassificationPoints(Authorization.CRITICAL);
    } else {
      if classification.value.HIGHLY_SENSITIVE? { pushed := pushed + [CLASSIFICATION_HIGHLY_SENSITIVE]; }
      if classification.value.CRITICAL? { pushed := pushed + [CLASSIFICATION_CRITICAL]; }
      weight := ClassificationPoints(classification.value);
    }
  }

  method RiskWeight(i: Input, reasons: seq<Code>) returns (weight: nat, pushed: seq<Code>)
    requires reasons == Emitted(i, 7)
    ensures weight == RiskPoints(OrElse(i.riskLevel, LOW)) + Nudge(i.riskScore) && pushed == Emitted(i, 10)
  {
    OneMoreCode(i, 7);
    OneMoreCode(i, 8);
    OneMoreCode(i, 9);
    pushed := reasons;
    var level := OrElse(i.riskLevel, LOW);
    if level == MEDIUM { pushed := pushed + [RISK_MEDIUM]; }
    if level == HIGH { pushed := pushed + [RISK_HIGH]; }
    if level == CRITICAL { pushed := pushed + [RISK_CRITICAL]; }
    weight := RiskPoints(level);
    var score := 0.0;
    if i.riskScore.Some? {
      score := i.riskScore.value;
      if score > 100.0 { score := 100.0; }
      if score < 0.0 { score := 0.0; }
    }
    if score >= 75.0 { weight := weight + 10; } else if score >= 50.0 { weight := weight + 5; }
  }

  method OperationReasons(i: Input) returns (reasons: seq<Code>)
    ensures reasons == Emitted(i, 4)
  {
    OneMoreCode(i, 0);
    OneMoreCode(i, 1);
    OneMoreCode(i, 2);
    OneMoreCode(i, 3);
    reasons := [];
    assert reasons == Emitted(i, 0);
    if OperationWeight(i.operation) <= 20 {
      reasons := reasons + [OP_BASELINE];
    } else {
      reasons := reasons + [OP_ELEVATED_RISK];
    }
    assert reasons == Emitted(i, 2);
    if Administrative(i.operation) { reasons := reasons + [OP_ADMINISTRATIVE]; }
    if Irreversible(i.operation) { reasons := reasons + [OP_IRREVERSIBLE]; }
  }

  method RoleWeight(i: Input, reasons: seq<Code>) returns (weight: nat, pushed: seq<Code>)
    requires reasons == Emitted(i, 10)
    ensures weight == RoleScore(i.role) && pushed == Emitted(i, 12)
  {
    OneMoreCode(i, 10);
    OneMoreCode(i, 11);
    weight, pushed := 0, reasons;
    if i.role.Admin? { weight, pushed := weight + 10, pushed + [ROLE_ADMIN_BLAST_RADIUS]; }
    if i.role.Auditor? { weight, pushed := weight + 15, pushed + [ROLE_AUDITOR_READ_ONLY]; }
  }

  method CustodyWeight(i: Input, reasons: seq<Code>) returns (weight: nat, pushed: seq<Code>)
    requires reasons == Emitted(i, 12)
    ensures weight == CustodyScore(OrElse(i.custody, NOT_APPLICABLE)) && pushed == Emitted(i, 14)
  {
    OneMoreCode(i, 12);
    OneMoreCode(i, 13);
    weight, pushed := 0, reasons;
    var custody := OrElse(i.custody, NOT_APPLICABLE);
    if custody.NONE? { weight, pushed := weight + 15, pushed + [CUSTODY_MISMATCH]; }
    if custody.OWNER? { weight, pushed := weight + 5, pushed + [CUSTODY_NOT_CUSTODIAN]; }
  }

  method ApprovalAndStepUpWeight(i: Input, reasons: seq<Code>) returns (weight: nat, pushed: seq<Code>)
    requires reasons == Emitted(i, 14)
    ensures weight == ApprovalScore(OrElse(i.approval, NOT_REQUIRED)) + (if StepUpCounts(i) then 15 else 0)
    ensures pushed == Emitted(i, 17)
  {
    OneMoreCode(i, 14);
    OneMoreCode(i, 15);
    OneMoreCode(i, 16);
    weight, pushed := 0, reasons;
    var approval := OrElse(i.approval, NOT_REQUIRED);
    if approval.PENDING? { weight, pushed := weight + 10, pushed + [APPROVAL_MISSING]; }
    if approval.REJECTED? { weight, pushed := weight + 20, pushed + [APPROVAL_REJECTED]; }
    if !i.stepUpSatisfied && (OperationWeight(i.operation) >= 25 || Irreversible(i.operation)) {
      weight, pushed := weight + 15, pushed + [STEP_UP_NOT_SATISFIED];
    }
  }

  /** The floors, applied to the finished score. */
  method DecideLevel(i: Input, score: nat, reasons: seq<Code>) returns (level: Level, pushed: seq<Code>)
    requires score == Score(i) && reasons == Emitted(i, 17)
    ensures level == LevelOf(i) && pushed == Emitted(i, 19)
  {
    OneMoreCode(i, 17);
    OneMoreCode(i, 18);
    pushed := reasons;
    var elevatedFloor := Irreversible(i.operation) || Administrative(i.operation);
    var quantumMandated := score >= QUANTUM_THRESHOLD || QuantumMandated(i.operation);
    if i.riskLevel == Some(CRITICAL) { quantumMandated := true; }
    if Irreversible(i.operation) && (i.classification == Known(Authorization.CRITICAL) || i.role.Admin?) {
      quantumMandated := true;
    }
    assert quantumMandated == Mandated(i);
    if quantumMandated { pushed := pushed + [PQC_POLICY_MANDATED]; }
    if elevatedFloor { pushed := pushed + [PLATFORM_FLOOR]; }
    level := BASELINE;
    if quantumMandated {
      level := QUANTUM_HARDENED;
    } else if score >= ELEVATED_THRESHOLD || elevatedFloor {
      level := ELEVATED;
    }
  }

  method EvaluateAssurance(i: Input) returns (r: Assurance)
    ensures r.level == LevelOf(i) && r.score == Score(i) && r.reasons == EmittedCodes(i)
    ensures r.algorithms == AlgorithmsOf(r.level)
    ensures r.dualSignature <==> ML_DSA_65 in r.algorithms
    ensures r.stepUp <==> r.level != BASELINE
  {
    var score := OperationWeight(i.operation);
    var reasons := OperationReasons(i);
    var weight: nat;
    weight, reasons := ClassificationWeight(i, reasons);
    score := score + weight;
    weight, reasons := RiskWeight(i, reasons);
    score := score + weight;
    weight, reasons := RoleWeight(i, reasons);
    score := score + weight;
    weight, reasons := CustodyWeight(i, reasons);
    score := score + weight;
    weight, reasons := ApprovalAndStepUpWeight(i, reasons);
    score := score + weight;
    var level: Level;
    level, reasons := DecideLevel(i, score, reasons);
    var algorithms := AlgorithmsOf(level);
    r := Assurance(level, algorithms, ML_DSA_65 in algorithms, level != BASELINE, score, reasons);
  }

  // ---------------------------------------------------------------- reason codes

  /** The place of a code in the declared list. */
  function Place(c: Code): nat {
    match c
    case OP_BASELINE => 0 case OP_ELEVATED_RISK => 1 case OP_ADMINISTRATIVE => 2 case OP_IRREVERSIBLE => 3
    case CLASSIFICATION_UNKNOWN => 4 case CLASSIFICATION_HIGHLY_SENSITIVE => 5 case CLASSIFICATION_CRITICAL => 6
    case RISK_MEDIUM => 7 case RISK_HIGH => 8 case RISK_CRITICAL => 9
    case ROLE_ADMIN_BLAST_RADIUS => 10 case ROLE_AUDITOR_READ_ONLY => 11
    case CUSTODY_MISMATCH => 12 case CUSTODY_NOT_CUSTODIAN => 13
    case APPROVAL_MISSING => 14 case APPROVAL_REJECTED => 15
    case STEP_UP_NOT_SATISFIED => 16 case PQC_POLICY_MANDATED => 17 case PLATFORM_FLOOR => 18
  }

  lemma PlaceOfCode(n: nat)
    requires n < |REASON_CODES|
    ensures Place(REASON_CODES[n]) == n
  {
  }

  lemma CodeHasAPlace(c: Code)
    ensures Place(c) < |REASON_CODES| && REASON_CODES[Place(c)] == c
  {
  }

  lemma PlacesDiffer(c: Code, d: Code)
    ensures Place(c) == Place(d) ==> c == d
  {
    CodeHasAPlace(c);
    CodeHasAPlace(d);
  }

  /** In declared order, from the first `n` codes, exactly those that apply. */
  ghost predicate InOrder(i: Input, codes: seq<Code>, n: nat) {
    && (forall k | 0 <= k < |codes| :: Place(codes[k]) < n && Applies(i, codes[k]))
    && (forall j, k | 0 <= j < k < |codes| :: Place(codes[j]) < Place(codes[k]))
    && (forall c | Applies(i, c) && Place(c) < n :: c in codes)
  }

  lemma NextInOrder(i: Input, codes: seq<Code>, next: Code, after: seq<Code>)
    requires InOrder(i, codes, Place(next)) && after == if Applies(i, next) then codes + [next] else codes
    ensures InOrder(i, after, Place(next) + 1)
  {
    forall c | Applies(i, c) && Place(c) < Place(next) + 1 ensures c in after {
      PlacesDiffer(c, next);
    }
  }

  lemma NextCode(i: Input, n: nat) returns (next: Code)
    requires n < |REASON_CODES|
    ensures Place(next) == n && Emitted(i, n + 1) == if Applies(i, next) then Emitted(i, n) + [next] else Emitted(i, n)
  {
    next := REASON_CODES[n];
    PlaceOfCode(n);
  }

  lemma {:induction false} EmittedInOrder(i: Input, n: nat)
    requires n <= |REASON_CODES|
    ensures InOrder(i, Emitted(i, n), n)
  {
    if n > 0 {
      EmittedInOrder(i, n - 1);
      var next := NextCode(i, n - 1);
      NextInOrder(i, Emitted(i, n - 1), next, Emitted(i, n));
    }
  }

  /** The emitted codes are exactly those that apply, strictly in declared order. */
  lemma ReasonsAreOrdered(i: Input)
    ensures forall j, k | 0 <= j < k < |EmittedCodes(i)| :: Place(EmittedCodes(i)[j]) < Place(EmittedCodes(i)[k])
    ensures forall c :: c in EmittedCodes(i) <==> Applies(i, c)
  {
    EmittedInOrder(i, |REASON_CODES|);
    forall c ensures c in EmittedCodes(i) <==> Applies(i, c) {
      CodeHasAPlace(c);
    }
  }

  /** The codes tell the level: the post-quantum code exactly for the top level, the floor code never at the bottom. */
  lemma ReasonsTellTheLevel(i: Input)
    ensures PQC_POLICY_MANDATED in EmittedCodes(i) <==> LevelOf(i) == QUANTUM_HARDENED
    ensures PLATFORM_FLOOR in EmittedCodes(i) ==> LevelOf(i) != BASELINE
    ensures OP_BASELINE in EmittedCodes(i) <==> OP_ELEVATED_RISK !in EmittedCodes(i)
  {
    ReasonsAreOrdered(i);
    assert PQC_POLICY_MANDATED in EmittedCodes(i) <==> Applies(i, PQC_POLICY_MANDATED);
    assert PLATFORM_FLOOR in EmittedCodes(i) <==> Applies(i, PLATFORM_FLOOR);
    assert OP_BASELINE in EmittedCodes(i) <==> Applies(i, OP_BASELINE);
    assert OP_ELEVATED_RISK in EmittedCodes(i) <==> Applies(i, OP_ELEVATED_RISK);
  }

  // ---------------------------------------------------------------- levels by operation

  /** Nothing but the operation speaks for assurance: the level that is left. */
  predicate NothingElse(i: Input) {
    && !i.role.Admin? && !i.role.Auditor? && i.stepUpSatisfied
    && (i.classification.Unclassified? || i.classification == Known(Authorization.PUBLIC))
    && (i.riskLevel == None || i.riskLevel == Some(LOW)) && i.riskScore == None
    && i.custody == Some(CUSTODIAN) && i.approval == Some(APPROVED)
  }

  /** The operations that demand a post-quantum signature, or a step-up, even when all else is well. */
  lemma LevelOfTheOperationAlone(i: Input)
    requires NothingElse(i) && !i.operation.UnlistedOperation?
    ensures LevelOf(i) == QUANTUM_HARDENED <==>
              i.operation in {ASSET_BURN, ASSET_FORCE_TRANSFER, IDENTITY_ROLE_ADMIN, GOVERNANCE_CONFIG,
                              IDENTITY_STATUS_CHANGE, KEY_RECOVERY_EXECUTE}
    ensures LevelOf(i) == ELEVATED <==>
              i.operation in {IDENTITY_ROLE_CHANGE, GOVERNANCE_PROPOSAL, GOVERNANCE_APPROVE, GOVERNANCE_EXECUTE,
                              GOVERNANCE_CANCEL, PAUSE_REGISTRY, UNPAUSE_REGISTRY, DID_KEY_REVOKE}
  {
  }

  /** The operation with nothing else known about it. */
  function Bare(i: Input): Input {
    Input(i.operation, OtherRole(""), Unclassified, None, None, None, None, true)
  }

  /** What an operation weighs when nothing else is known. */
  lemma OperationsWeigh(i: Input)
    ensures Score(Bare(i)) == 60 <==>
            i.operation in {ASSET_BURN, ASSET_FORCE_TRANSFER} || i.operation.UnlistedOperation?
    ensures Score(Bare(i)) == 55 <==> i.operation in {KEY_RECOVERY_EXECUTE, IDENTITY_ROLE_ADMIN, GOVERNANCE_CONFIG}
    ensures Score(Bare(i)) == 45 <==>
              i.operation in {IDENTITY_ROLE_CHANGE, GOVERNANCE_EXECUTE, DID_KEY_REVOKE, IDENTITY_STATUS_CHANGE}
    ensures Score(Bare(i)) == 35 <==> i.operation in {GOVERNANCE_PROPOSAL, GOVERNANCE_APPROVE, KEY_RECOVERY_APPROVE}
    ensures Score(Bare(i)) == 30 <==>
              i.operation in {GOVERNANCE_CANCEL, KEY_RECOVERY_REQUEST, DID_KEY_ROTATE, ASSET_STATUS_CHANGE,
                PAUSE_REGISTRY,
                              UNPAUSE_REGISTRY}
    ensures Score(Bare(i)) == 25 <==>
              i.operation in {DID_DOCUMENT_UPDATE, ASSET_TRANSFER, ASSET_ASSIGN, ASSET_MINT, DISPUTE_RESOLVE}
    ensures Score(Bare(i)) == 20 <==> i.operation in {IDENTITY_VERIFY, CONTENT_ACCESS}
    ensures Score(Bare(i)) == 15 <==> i.operation in {AUDIT_REPORT_COMMIT, CONTENT_UPLOAD}
    ensures Score(Bare(i)) == 10 <==> i.operation == CONSENT_GRANT
    ensures Score(Bare(i)) == 5 <==> i.operation == ASSET_VIEW
  {
  }

  /** Every circumstance adds its own points to the operation's, independently of all others. */
  lemma CircumstancesAddUp(i: Input)
    ensures Score(i) == Score(Bare(i))
                        + Score(Bare(i).(role := i.role)) - Score(Bare(i))
                        + Score(Bare(i).(classification := i.classification)) - Score(Bare(i))
                        + Score(Bare(i).(riskLevel := i.riskLevel)) - Score(Bare(i))
                        + Score(Bare(i).(riskScore := i.riskScore)) - Score(Bare(i))
                        + Score(Bare(i).(custody := i.custody)) - Score(Bare(i))
                        + Score(Bare(i).(approval := i.approval)) - Score(Bare(i))
                        + Score(Bare(i).(stepUpSatisfied := i.stepUpSatisfied)) - Score(Bare(i))
  {
  }

  /** And these are the points. */
  lemma PointsOfCircumstances(i: Input)
    ensures Score(i.(role := Admin)) == Score(i.(role := OtherRole("USER"))) + 10
    ensures Score(i.(role := Auditor)) == Score(i.(role := OtherRole("USER"))) + 15
    ensures var bare := Score(i.(classification := Unclassified));
            && Score(i.(classification := Known(Authorization.PUBLIC))) == bare
            && Score(i.(classification := Known(Authorization.CONTROLLED))) == bare + 5
            && Score(i.(classification := Known(Authorization.SENSITIVE))) == bare + 15
            && Score(i.(classification := Known(Authorization.HIGHLY_SENSITIVE))) == bare + 30
            && Score(i.(classification := Known(Authorization.CRITICAL))) == bare + 45
    ensures var bare := Score(i.(riskLevel := None));
            && Score(i.(riskLevel := Some(LOW))) == bare && Score(i.(riskLevel := Some(MEDIUM))) == bare + 10
            && Score(i.(riskLevel := Some(HIGH))) == bare + 25 && Score(i.(riskLevel := Some(CRITICAL))) == bare + 40
    ensures var bare := Score(i.(custody := None));
            && Score(i.(custody := Some(NONE))) == bare + 15 && Score(i.(custody := Some(OWNER))) == bare + 5
            && Score(i.(custody := Some(CUSTODIAN))) == bare && Score(i.(custody := Some(ADMIN_OVERRIDE))) == bare
    ensures var bare := Score(i.(approval := None));
            && Score(i.(approval := Some(PENDING))) == bare + 10 && Score(i.(approval := Some(REJECTED))) == bare + 20
            && Score(i.(approval := Some(APPROVED))) == bare && Score(i.(approval := Some(EXECUTED))) == bare
    ensures forall s: real :: Score(i.(riskScore := Some(s))) ==
                              Score(i.(riskScore := None)) + if s >= 75.0 then 10 else if s >= 50.0 then 5 else 0
  {
  }

  /** A missing step-up weighs in for operations of 25 points and more, which all irreversible ones have. */
  lemma MissingStepUpWeighs(i: Input)
    ensures Score(i.(stepUpSatisfied := false)) ==
            Score(i.(stepUpSatisfied := true)) + if Score(Bare(i)) >= 25 then 15 else 0
  {
  }

  /** What the codes of the operation say. */
  lemma CodesOfTheOperation(i: Input)
    ensures OP_IRREVERSIBLE in EmittedCodes(i) <==>
              i.operation in {ASSET_BURN, ASSET_FORCE_TRANSFER, IDENTITY_STATUS_CHANGE, KEY_RECOVERY_EXECUTE,
                DID_KEY_REVOKE}
    ensures OP_ADMINISTRATIVE in EmittedCodes(i) <==>
              i.operation in {IDENTITY_ROLE_CHANGE, IDENTITY_ROLE_ADMIN, GOVERNANCE_CONFIG, GOVERNANCE_PROPOSAL,
                              GOVERNANCE_APPROVE, GOVERNANCE_EXECUTE, GOVERNANCE_CANCEL, PAUSE_REGISTRY,
                                  UNPAUSE_REGISTRY}
    ensures PLATFORM_FLOOR in EmittedCodes(i) <==>
              OP_IRREVERSIBLE in EmittedCodes(i) || OP_ADMINISTRATIVE in EmittedCodes(i)
    ensures OP_BASELINE in EmittedCodes(i) <==> Score(Bare(i)) <= 20
    ensures OP_IRREVERSIBLE in EmittedCodes(i) && i.role.Admin? ==> PQC_POLICY_MANDATED in EmittedCodes(i)
  {
    CodeApplies(i, OP_IRREVERSIBLE);
    CodeApplies(i, OP_ADMINISTRATIVE);
    CodeApplies(i, PLATFORM_FLOOR);
    CodeApplies(i, OP_BASELINE);
    CodeApplies(i, PQC_POLICY_MANDATED);
  }

  lemma CodeApplies(i: Input, c: Code)
    ensures c in EmittedCodes(i) <==> Applies(i, c)
  {
    ReasonsAreOrdered(i);
  }

  /** What the codes of the asset and the risk say. */
  lemma CodesOfAssetAndRisk(i: Input)
    ensures var codes := EmittedCodes(i);
            && (CLASSIFICATION_UNKNOWN in codes <==> i.classification.UnknownClassification?)
            && (CLASSIFICATION_HIGHLY_SENSITIVE in codes <==> i.classification == Known(Authorization.HIGHLY_SENSITIVE))
            && (CLASSIFICATION_CRITICAL in codes <==> i.classification == Known(Authorization.CRITICAL))
            && (RISK_MEDIUM in codes <==> i.riskLevel == Some(MEDIUM))
            && (RISK_HIGH in codes <==> i.riskLevel == Some(HIGH))
            && (RISK_CRITICAL in codes <==> i.riskLevel == Some(CRITICAL))
  {
    CodeApplies(i, CLASSIFICATION_UNKNOWN);
    CodeApplies(i, CLASSIFICATION_HIGHLY_SENSITIVE);
    CodeApplies(i, CLASSIFICATION_CRITICAL);
    CodeApplies(i, RISK_MEDIUM);
    CodeApplies(i, RISK_HIGH);
    CodeApplies(i, RISK_CRITICAL);
  }

  /** What the codes of the actor and the approval say. */
  lemma CodesOfActorAndApproval(i: Input)
    ensures var codes := EmittedCodes(i);
            && (ROLE_ADMIN_BLAST_RADIUS in codes <==> i.role == Admin)
            && (ROLE_AUDITOR_READ_ONLY in codes <==> i.role == Auditor)
            && (CUSTODY_MISMATCH in codes <==> i.custody == Some(NONE))
            && (CUSTODY_NOT_CUSTODIAN in codes <==> i.custody == Some(OWNER))
            && (APPROVAL_MISSING in codes <==> i.approval == Some(PENDING))
            && (APPROVAL_REJECTED in codes <==> i.approval == Some(REJECTED))
            && (STEP_UP_NOT_SATISFIED in codes <==> !i.stepUpSatisfied && Score(Bare(i)) >= 25)
  {
    CodeApplies(i, ROLE_ADMIN_BLAST_RADIUS);
    CodeApplies(i, ROLE_AUDITOR_READ_ONLY);
    CodeApplies(i, CUSTODY_MISMATCH);
    CodeApplies(i, CUSTODY_NOT_CUSTODIAN);
    CodeApplies(i, APPROVAL_MISSING);
    CodeApplies(i, APPROVAL_REJECTED);
    CodeApplies(i, STEP_UP_NOT_SATISFIED);
  }

  /** The level in terms of the score and the codes. */
  lemma LevelExactly(i: Input)
    ensures LevelOf(i) == QUANTUM_HARDENED <==>
              || Score(i) >= 70 || i.riskLevel == Some(CRITICAL)
              || i.operation in {ASSET_BURN, ASSET_FORCE_TRANSFER, IDENTITY_ROLE_ADMIN, GOVERNANCE_CONFIG,
                                 IDENTITY_STATUS_CHANGE, KEY_RECOVERY_EXECUTE}
              || (OP_IRREVERSIBLE in EmittedCodes(i)
                  && (i.classification == Known(Authorization.CRITICAL) || i.role == Admin))
    ensures LevelOf(i) == BASELINE <==>
              && LevelOf(i) != QUANTUM_HARDENED && Score(i) < 40 && PLATFORM_FLOOR !in EmittedCodes(i)
  {
    CodeApplies(i, OP_IRREVERSIBLE);
    CodeApplies(i, PLATFORM_FLOOR);
  }

  /** The promises of the policy's own tests, for all inputs around them. */
  lemma PolicyPromises(i: Input)
    ensures i.operation in {ASSET_BURN, ASSET_FORCE_TRANSFER, IDENTITY_STATUS_CHANGE, KEY_RECOVERY_EXECUTE,
      DID_KEY_REVOKE}
            ==> LevelOf(i) != BASELINE
    ensures i.operation in {ASSET_BURN, ASSET_FORCE_TRANSFER, IDENTITY_ROLE_ADMIN, GOVERNANCE_CONFIG,
                            IDENTITY_STATUS_CHANGE, KEY_RECOVERY_EXECUTE}
            ==> LevelOf(i) == QUANTUM_HARDENED
    ensures i.operation == ASSET_TRANSFER && !i.stepUpSatisfied && i.classification == Known(Authorization.CRITICAL)
            ==> LevelOf(i) == QUANTUM_HARDENED
    ensures i.riskLevel == Some(CRITICAL) ==> LevelOf(i) == QUANTUM_HARDENED
    ensures Score(i) <= Score(i.(role := Admin)) || i.role.Auditor?
    ensures Score(i.(stepUpSatisfied := true)) <= Score(i) <= Score(i.(stepUpSatisfied := true)) + 15
  {
  }

  /** Unknown operations count as the heaviest known one. */
  lemma UnknownOperationsAreHeaviest(i: Input, name: string)
    ensures Score(i) <= Score(i.(operation := UnlistedOperation(name)))
    ensures Score(i.(operation := UnlistedOperation(name))) == Score(i.(operation := ASSET_FORCE_TRANSFER))
  {
  }

  // ---------------------------------------------------------------- monotonicity

  function ClassificationRank(c: Classification): nat {
    match c
    case Unclassified => 0
    case Known(PUBLIC) => 0
    case Known(CONTROLLED) => 1
    case Known(SENSITIVE) => 2
    case Known(HIGHLY_SENSITIVE) => 3
    case Known(CRITICAL) => 4
    case UnknownClassification(_) => 4
  }

  function RiskRank(r: Risk): nat {
    match r case LOW => 0 case MEDIUM => 1 case HIGH => 2 case CRITICAL => 3 case UnknownRisk(_) => 3
  }

  function CustodyRank(c: Custody): nat {
    if c.NONE? then 2 else if c.OWNER? then 1 else 0
  }

  function ApprovalRank(a: Approval): nat {
    if a.REJECTED? then 2 else if a.PENDING? then 1 else 0
  }

  function RiskScoreOf(i: Input): real {
    match i.riskScore case None => 0.0 case Some(s) => if s < 0.0 then 0.0 else s
  }

  /** Same operation and role, and nothing about `b` is better than about `a`. */
  predicate NoBetter(a: Input, b: Input) {
    && a.operation == b.operation && a.role == b.role
    && ClassificationRank(a.classification) <= ClassificationRank(b.classification)
    && RiskRank(OrElse(a.riskLevel, LOW)) <= RiskRank(OrElse(b.riskLevel, LOW))
    && RiskScoreOf(a) <= RiskScoreOf(b)
    && CustodyRank(OrElse(a.custody, NOT_APPLICABLE)) <= CustodyRank(OrElse(b.custody, NOT_APPLICABLE))
    && ApprovalRank(OrElse(a.approval, NOT_REQUIRED)) <= ApprovalRank(OrElse(b.approval, NOT_REQUIRED))
    && (b.stepUpSatisfied ==> a.stepUpSatisfied)
  }

  predicate RiskIsListed(i: Input) {
    !OrElse(i.riskLevel, LOW).UnknownRisk?
  }

  predicate AtMost(a: Level, b: Level) {
    a == BASELINE || b == QUANTUM_HARDENED || a == b
  }

  lemma PointsAreMonotone(a: Input, b: Input)
    requires NoBetter(a, b)
    ensures ClassificationScore(a.classification) <= ClassificationScore(b.classification)
    ensures RiskPoints(OrElse(a.riskLevel, LOW)) <= RiskPoints(OrElse(b.riskLevel, LOW))
            && Nudge(a.riskScore) <= Nudge(b.riskScore)
    ensures CustodyScore(OrElse(a.custody, NOT_APPLICABLE)) <= CustodyScore(OrElse(b.custody, NOT_APPLICABLE))
    ensures ApprovalScore(OrElse(a.approval, NOT_REQUIRED)) <= ApprovalScore(OrElse(b.approval, NOT_REQUIRED))
  {
  }

  /** For an irreversible operation an unknown or critical classification reaches the top level by its points. */
  lemma WorstClassificationIsMandated(i: Input)
    requires Irreversible(i.operation) && ClassificationRank(i.classification) == 4
    ensures MandatedRegardless(i)
  {
  }

  /**
   * Worse circumstances never lower the score, and with listed risk values never the level or the set of algorithms.
   */
  lemma AssuranceIsMonotone(a: Input, b: Input)
    requires NoBetter(a, b)
    ensures Score(a) <= Score(b)
    ensures RiskIsListed(b) ==>
              && AtMost(LevelOf(a), LevelOf(b))
              && (forall x | x in AlgorithmsOf(LevelOf(a)) :: x in AlgorithmsOf(LevelOf(b)))
  {
    PointsAreMonotone(a, b);
    if Irreversible(b.operation) && ClassificationRank(b.classification) == 4 {
      WorstClassificationIsMandated(b);
    }
  }

  /** Whatever the operation, an unknown classification counts as a critical one. */
  lemma UnknownClassificationIsCritical(i: Input, name: string)
    ensures var unknown := i.(classification := UnknownClassification(name));
            var critical := i.(classification := Known(Authorization.CRITICAL));
            LevelOf(unknown) == LevelOf(critical) && Score(unknown) == Score(critical)
  {
    if Irreversible(i.operation) {
      WorstClassificationIsMandated(i.(classification := UnknownClassification(name)));
    }
  }

  /**
   * An unknown risk value has the points of a critical one, but its level exactly when nothing else is short of the
   * top.
   */
  lemma UnknownRiskIsNotCritical(i: Input, name: string)
    ensures var unknown, critical := i.(riskLevel := Some(UnknownRisk(name))), i.(riskLevel := Some(CRITICAL));
            && Score(unknown) == Score(critical)
            && LevelOf(critical) == QUANTUM_HARDENED
            && (LevelOf(unknown) == LevelOf(critical) <==>
                  || Score(i.(riskLevel := None)) >= 30
                  || QuantumMandated(i.operation)
                  || (Irreversible(i.operation)
                      && (i.classification == Known(Authorization.CRITICAL) || i.role.Admin?)))
  {
  }

  /** Viewing an asset under an unknown risk value stays below the top level. */
  lemma UnknownRiskExample()
    ensures exists i: Input :: i.riskLevel == Some(UnknownRisk("EXTREME")) && LevelOf(i) == ELEVATED
                               && LevelOf(i.(riskLevel := Some(CRITICAL))) == QUANTUM_HARDENED
  {
    var i := Input(ASSET_VIEW, OtherRole("USER"), Unclassified, Some(UnknownRisk("EXTREME")), None, None, None, true);
    assert LevelOf(i) == ELEVATED;
  }
}
