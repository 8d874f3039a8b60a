/**
 The promotion verifier of internal/canary/verifier.go: one plan, three evidence documents and the
 authorization proofs they name, all bound to each other and to independently current inputs.
 Canonicalization, schema validation, decoding, proof lookup and RFC 3339 parsing are parameters;
 times are nanoseconds.
 */
module Canary {
  import opened Foundation

  // ---------- documents ----------

  datatype PolicyRef = PolicyRef(id: string, digest: string)

  datatype SchemaRef = SchemaRef(id: string, digest: string)

  datatype Capability = Capability(id: string, digest: string)

  datatype Signer = Signer(identity: string, policy: PolicyRef)

  datatype Dispatch = Dispatch(request: string, receipt: string, checkProfile: string, decision: string)

  /** What plan and evidence must agree on. */
  datatype Bindings = Bindings(
    rollout: string, nonce: string, candidate: string, desiredRevision: string, release: string, deployment: string,
    consumer: string, subject: string, target: string, slot: string, generation: int, authority: string, policy: string,
    grantSet: string, workload: string)

  datatype ProofBindings = ProofBindings(
    nonce: string, consumer: string, subject: string, target: string, candidate: string, release: string,
    deployment: string, policy: string, grantSet: string, workload: string)

  function ForProof(b: Bindings): ProofBindings {
    ProofBindings(
      b.nonce, b.consumer, b.subject, b.target, b.candidate, b.release, b.deployment, b.policy, b.grantSet, b.workload)
  }

  datatype CapabilityExpected = CapabilityExpected(
    mode: string, permitted: Capability, denied: Capability, deniedCode: string,
    certificationDigest: string, certificationPolicy: PolicyRef)

  datatype Plan = Plan(
    schema: SchemaRef, bindings: Bindings, expected: CapabilityExpected, hostPolicy: PolicyRef,
    capabilityPolicy: PolicyRef, authorizationPolicy: PolicyRef, issuedAt: string, expiresAt: string)

  datatype DecisionResult = DecisionResult(outcome: string, decisionClass: string, code: string, proofDigest: string)

  /** Decoded results; `actuals` holds the outcome of each named check. */
  datatype Results = Results(
    phase: string, mode: string, actuals: map<string, string>, permitted: DecisionResult, denied: DecisionResult,
    certificationDigest: string, certificationPolicy: PolicyRef)

  datatype Evidence = Evidence(
    schema: SchemaRef, actor: string, planDigest: string, bindings: Bindings, signer: Signer,
    dispatch: Option<Dispatch>, results: Results, issuedAt: string, expiresAt: string)

  datatype Proof = Proof(
    schema: SchemaRef, planDigest: string, bindings: ProofBindings, capability: Capability, decisionClass: string,
    code: string, signer: Signer, issuedAt: string, expiresAt: string)

  datatype AuthRecord = AuthRecord(signer: Signer, evidenceDigest: string, channel: string)

  datatype Inputs = Inputs(
    planDigest: string, authority: string, policy: string, grantSet: string, workload: string, dispatch: Dispatch,
    evidenceSigners: map<string, Signer>, authorizationSigner: Signer,
    authenticatedEvidence: map<string, AuthRecord>, authenticatedProofs: map<string, AuthRecord>,
    certifications: map<string, PolicyRef>)

  datatype World = World(
    validatePlan: Bytes -> Option<(string, Plan)>,
    validateEvidence: Bytes -> Option<(string, Evidence)>,
    validateProof: Bytes -> Option<(string, Proof)>,
    resolveProof: string -> Option<Bytes>,
    parseTime: string -> Option<int>,
    planSchema: SchemaRef, evidenceSchema: SchemaRef, proofSchema: SchemaRef)

  datatype CanaryError =
    | InvalidInputs | InvalidContract | BindingMismatch | SignerMismatch | StaleEvidence | Unauthenticated
    | PermitProofMissing | DenialNotProven | TransportFailure | PermitDecisionMismatch | HostCheckFailed
    | WorkloadLoginFailed | NotApplicableCheckFailed | UncertifiedNotApplicable

  const HOST := "host_reconciler"
  const VERIFIER := "consumer_capability_verifier"
  const MAX_WINDOW: int := 1_800_000_000_000
  const READY_CHECKS := [
    "artifact_readback", "file_inventory", "slot_generation", "service_process", "resource_thresholds",
    "harness_readiness"]
  const READBACK_CHECKS := ["switch_marker", "active_pointer", "file_inventory", "service_process"]

  // ---------- freshness windows ----------

  datatype Window = Window(issued: int, expires: int)

  predicate Active(w: Window, now: int) {
    w.issued <= now < w.expires
  }

  /** A window that parses, is not empty and is at most thirty minutes long. */
  function WindowOf(issuedAt: string, expiresAt: string, w: World): Option<Window> {
    var issued, expires := w.parseTime(issuedAt), w.parseTime(expiresAt);
    if issued.None? || expires.None? || expires.value <= issued.value
      || expires.value - issued.value > MAX_WINDOW then None
    else Some(Window(issued.value, expires.value))
  }

  /** `activeWindow`. */
  function ActiveWindow(issuedAt: string, expiresAt: string, now: int, w: World): (r: Option<Window>)
    ensures r.Some? <==> WindowOf(issuedAt, expiresAt, w).Some? && Active(WindowOf(issuedAt, expiresAt, w).value, now)
    ensures r.Some? ==> r == WindowOf(issuedAt, expiresAt, w) && r.value.expires <= r.value.issued + MAX_WINDOW
  {
    var issued, expires := w.parseTime(issuedAt), w.parseTime(expiresAt);
    if issued.None? || expires.None? then None
    else if expires.value <= issued.value || expires.value - issued.value > MAX_WINDOW
      || now < issued.value || expires.value <= now then None
    else Some(Window(issued.value, expires.value))
  }

  // ---------- checks that do not look at the clock ----------

  predicate IsSha256(text: string) {
    |text| == 71 && text[..7] == "sha256:"
    && forall i :: 7 <= i < 71 ==> '0' <= text[i] <= '9' || 'a' <= text[i] <= 'f'
  }

  predicate ValidDispatch(d: Dispatch) {
    IsSha256(d.request) && IsSha256(d.receipt) && IsSha256(d.checkProfile) && IsSha256(d.decision)
  }

  /** `verifyAuthenticatedRecord`. */
  predicate Authenticated(records: map<string, AuthRecord>, digest: string, expected: Signer, claimed: Signer) {
    && digest in records && IsSha256(records[digest].evidenceDigest)
    && records[digest].channel in ["signature_verified", "authenticated_nonrepudiable_channel_verified"]
    && records[digest].signer == expected && records[digest].signer == claimed
  }

  predicate Passed(results: Results, check: string) {
    check in results.actuals && results.actuals[check] == "passed"
  }

  /** `verifyHostResults`. */
  predicate HostPassed(results: Results) {
    match results.phase
    case "candidate_ready" => forall i :: 0 <= i < |READY_CHECKS| ==> Passed(results, READY_CHECKS[i])
    case "active_readback" => forall i :: 0 <= i < |READBACK_CHECKS| ==> Passed(results, READBACK_CHECKS[i])
    case _ => false
  }

  predicate SignersOk(plan: Plan, inputs: Inputs) {
    && HOST in inputs.evidenceSigners && VERIFIER in inputs.evidenceSigners
    && inputs.evidenceSigners[HOST].identity != "" && inputs.evidenceSigners[VERIFIER].identity != ""
    && inputs.authorizationSigner.identity != ""
    && inputs.evidenceSigners[HOST].policy == plan.hostPolicy
    && inputs.evidenceSigners[VERIFIER].policy == plan.capabilityPolicy
    && inputs.authorizationSigner.policy == plan.authorizationPolicy
  }

  predicate InputsOk(inputs: Inputs) {
    && inputs.planDigest != "" && inputs.authority != "" && inputs.policy != "" && inputs.grantSet != ""
    && inputs.workload != "" && ValidDispatch(inputs.dispatch)
  }

  /** The plan of a request, current and well formed. */
  function CurrentPlan(w: World, inputs: Inputs, document: Bytes): Option<(string, Plan)> {
    var validated := w.validatePlan(document);
    if validated.None? || validated.value.0 != inputs.planDigest then None
    else
      var plan := validated.value.1;
      if plan.schema != w.planSchema || plan.bindings.authority != inputs.authority
        || plan.bindings.policy != inputs.policy || plan.bindings.grantSet != inputs.grantSet
        || plan.bindings.workload != inputs.workload || !SignersOk(plan, inputs) then None
      else validated
  }

  /** An authorization decision: the digest and window of the proof behind it. */
  function Decision(
    w: World, inputs: Inputs, plan: Plan, planDigest: string, planIssued: int, evidenceExpires: int,
    capability: Capability, decisionClass: string, code: string, result: DecisionResult): Option<(string, Window)>
  {
    if result.outcome != "decision" || result.decisionClass != decisionClass
      || (code != "" && result.code != code) then None
    else
      var document := w.resolveProof(result.proofDigest);
      var validated := if document.None? then None else w.validateProof(document.value);
      if validated.None? || validated.value.0 != result.proofDigest then None
      else
        var proof := validated.value.1;
        var window := WindowOf(proof.issuedAt, proof.expiresAt, w);
        if !Authenticated(inputs.authenticatedProofs, validated.value.0, inputs.authorizationSigner, proof.signer) then
          None
        else if proof.schema != w.proofSchema || proof.planDigest != planDigest
          || proof.bindings != ForProof(plan.bindings) || proof.capability != capability then None
        else if proof.signer != inputs.authorizationSigner || proof.signer.policy != plan.authorizationPolicy then None
        else if window.None? || window.value.issued < planIssued || window.value.expires > evidenceExpires then None
        else if proof.decisionClass != result.decisionClass || proof.code != result.code then None
        else Some((validated.value.0, window.value))
  }

  /** What one evidence document contributes. */
  datatype Finding = Finding(role: string, digest: string, proofs: seq<string>, windows: seq<Window>)

  /** The capability results: proofs and their windows. */
  function CapabilityFinding(
    w: World, inputs: Inputs, plan: Plan, planDigest: string, planIssued: int, evidence: Evidence, expires: int):
    Option<seq<(string, Window)>>
  {
    var results, expected := evidence.results, plan.expected;
    if results.mode != expected.mode then None
    else match results.mode
      case "required" =>
        var permitted := Decision(
          w, inputs, plan, planDigest, planIssued, expires, expected.permitted, "permitted", "", results.permitted);
        var denied := Decision(
          w, inputs, plan, planDigest, planIssued, expires, expected.denied, "policy_denied", expected.deniedCode,
          results.denied);
        if !Passed(results, "workload_login") || permitted.None? || denied.None? then None
        else Some([permitted.value, denied.value])
      case "certified_not_applicable" =>
        if !("certified_not_applicable" in results.actuals
          && results.actuals["certified_not_applicable"] == "not_applicable")
          || results.certificationDigest != expected.certificationDigest
          || results.certificationPolicy != expected.certificationPolicy
          || results.certificationDigest !in inputs.certifications
          || inputs.certifications[results.certificationDigest] != expected.certificationPolicy then None
        else Some([])
      case _ => None
  }

  function ProofDigests(proofs: seq<(string, Window)>): (digests: seq<string>)
    ensures |digests| == |proofs|
  {
    seq(|proofs|, i requires 0 <= i < |proofs| => proofs[i].0)
  }

  function ProofWindows(proofs: seq<(string, Window)>): (windows: seq<Window>)
    ensures |windows| == |proofs| && forall i :: 0 <= i < |proofs| ==> windows[i] == proofs[i].1
  {
    seq(|proofs|, i requires 0 <= i < |proofs| => proofs[i].1)
  }

  predicate EvidenceBound(w: World, inputs: Inputs, plan: Plan, planDigest: string, evidence: Evidence) {
    && evidence.schema == w.evidenceSchema && evidence.planDigest == planDigest && evidence.bindings == plan.bindings
    && evidence.actor in inputs.evidenceSigners && evidence.signer == inputs.evidenceSigners[evidence.actor]
    && (evidence.actor == HOST ==> evidence.signer.policy == plan.hostPolicy)
    && (evidence.actor == VERIFIER ==> evidence.signer.policy == plan.capabilityPolicy)
  }

  /** Everything one document must satisfy at whatever time, and what it then contributes. */
  function Examine(w: World, inputs: Inputs, plan: Plan, planDigest: string, planWindow: Window, document: Bytes):
    Option<Finding>
  {
    var validated := w.validateEvidence(document);
    if validated.None? then None
    else
      var (digest, evidence) := validated.value;
      var window := WindowOf(evidence.issuedAt, evidence.expiresAt, w);
      if !EvidenceBound(w, inputs, plan, planDigest, evidence) then None
      else if window.None? || window.value.issued < planWindow.issued
        || window.value.expires > planWindow.expires then None
      else if !Authenticated(
        inputs.authenticatedEvidence, digest, inputs.evidenceSigners[evidence.actor], evidence.signer)
        then None
      else if evidence.actor == HOST then
        if HostPassed(evidence.results) then Some(Finding(evidence.results.phase, digest, [], [window.value])) else None
      else if evidence.actor == VERIFIER && evidence.dispatch == Some(inputs.dispatch) then
        var proofs := CapabilityFinding(
          w, inputs, plan, planDigest, planWindow.issued, evidence, window.value.expires);
        if proofs.None? then None
        else Some(Finding(VERIFIER, digest, ProofDigests(proofs.value), [window.value] + ProofWindows(proofs.value)))
      else None
  }

  predicate AllActive(windows: seq<Window>, now: int) {
    forall i :: 0 <= i < |windows| ==> Active(windows[i], now)
  }

  // ---------- promotion requests ----------

  datatype Request = Request(plan: Bytes, evidence: seq<Bytes>)

  /** The findings of all documents, when each has one. */
  function Findings(w: World, inputs: Inputs, plan: Plan, planDigest: string, planWindow: Window, evidence: seq<Bytes>):
    (r: Option<seq<Finding>>)
    ensures r.Some? ==> |r.value| == |evidence|
    ensures r.Some? <==>
      forall i :: 0 <= i < |evidence| ==> Examine(w, inputs, plan, planDigest, planWindow, evidence[i]).Some?
    ensures r.Some? ==> forall i :: 0 <= i < |evidence| ==>
      Some(r.value[i]) == Examine(w, inputs, plan, planDigest, planWindow, evidence[i])
  {
    if forall i :: 0 <= i < |evidence| ==> Examine(w, inputs, plan, planDigest, planWindow, evidence[i]).Some? then
      Some(seq(|evidence|, i requires 0 <= i < |evidence| =>
        Examine(w, inputs, plan, planDigest, planWindow, evidence[i]).value))
    else None
  }

  function Roles(findings: seq<Finding>): (roles: seq<string>)
    ensures |roles| == |findings| && forall i :: 0 <= i < |findings| ==> roles[i] == findings[i].role
  {
    seq(|findings|, i requires 0 <= i < |findings| => findings[i].role)
  }

  /** The part of acceptance that is the same at all times. */
  ghost predicate Sound(w: World, inputs: Inputs, request: Request) {
    && InputsOk(inputs) && |request.evidence| == 3
    && var current := CurrentPlan(w, inputs, request.plan);
       && current.Some?
       && var (planDigest, plan) := current.value;
          var window := WindowOf(plan.issuedAt, plan.expiresAt, w);
          && window.Some?
          && var findings := Findings(w, inputs, plan, planDigest, window.value, request.evidence);
             findings.Some? && NoRepeats(Roles(findings.value))
  }

  function AllWindows(findings: seq<Finding>): seq<Window> {
    if findings == [] then [] else findings[0].windows + AllWindows(findings[1..])
  }

  /** The freshness windows of the plan, the evidence and the proofs. */
  ghost function Windows(w: World, inputs: Inputs, request: Request): seq<Window>
    requires Sound(w, inputs, request)
  {
    var (planDigest, plan) := CurrentPlan(w, inputs, request.plan).value;
    var window := WindowOf(plan.issuedAt, plan.expiresAt, w).value;
    [window] + AllWindows(Findings(w, inputs, plan, planDigest, window, request.evidence).value)
  }

  /** When `VerifyPromotion` accepts. */
  ghost predicate Accepts(w: World, inputs: Inputs, request: Request, now: int) {
    now != 0 && Sound(w, inputs, request) && AllActive(Windows(w, inputs, request), now)
  }

  // ---------- the verifier ----------

  /** The loop over the technical checks of a phase. */
  method VerifyChecks(results: Results, checks: seq<string>) returns (ok: bool)
    ensures ok <==> forall i :: 0 <= i < |checks| ==> Passed(results, checks[i])
  {
    var n := 0;
    while n < |checks|
      invariant 0 <= n <= |checks|
      invariant forall i :: 0 <= i < n ==> Passed(results, checks[i])
    {
      if !Passed(results, checks[n]) {
        return false;
      }
      n := n + 1;
    }
    return true;
  }

  method VerifyHostResults(results: Results) returns (r: Result<string, CanaryError>)
    ensures r.Ok? <==> HostPassed(results)
    ensures r.Ok? ==> r.value == results.phase
  {
    var checks;
    if results.phase == "candidate_ready" {
      checks := READY_CHECKS;
    } else if results.phase == "active_readback" {
      checks := READBACK_CHECKS;
    } else {
      return Err(InvalidContract);
    }
    var ok := VerifyChecks(results, checks);
    if !ok {
      return Err(HostCheckFailed);
    }
    return Ok(results.phase);
  }

  /** `verifyDecision`. */
  method VerifyDecision(
    w: World, inputs: Inputs, plan: Plan, planDigest: string, planIssued: int, evidenceExpires: int,
    capability: Capability, decisionClass: string, code: string, result: DecisionResult, now: int)
    returns (r: Result<string, CanaryError>)
    ensures var decision :=
        Decision(w, inputs, plan, planDigest, planIssued, evidenceExpires, capability, decisionClass, code, result);
      && (r.Ok? <==> decision.Some? && Active(decision.value.1, now))
      && (r.Ok? ==> r.value == decision.value.0)
  {
    hide Authenticated, WindowOf, ForProof, Active;
    var mismatch, missing := PermitDecisionMismatch, PermitProofMissing;
    if decisionClass == "policy_denied" {
      mismatch, missing := DenialNotProven, DenialNotProven;
    }
    if result.outcome == "failed" {
      return Err(TransportFailure);
    }
    if result.outcome != "decision" || result.decisionClass != decisionClass || (code != "" && result.code != code) {
      return Err(mismatch);
    }
    var document := w.resolveProof(result.proofDigest);
    if document.None? {
      return Err(missing);
    }
    var validated := w.validateProof(document.value);
    if validated.None? {
      return Err(InvalidContract);
    }
    var (digest, proof) := validated.value;
    if digest != result.proofDigest {
      return Err(BindingMismatch);
    }
    if !Authenticated(inputs.authenticatedProofs, digest, inputs.authorizationSigner, proof.signer) {
      return Err(Unauthenticated);
    }
    if proof.schema != w.proofSchema || proof.planDigest != planDigest || proof.bindings != ForProof(plan.bindings)
      || proof.capability != capability {
      return Err(BindingMismatch);
    }
    if proof.signer != inputs.authorizationSigner || proof.signer.policy != plan.authorizationPolicy {
      return Err(SignerMismatch);
    }
    var window := ActiveWindow(proof.issuedAt, proof.expiresAt, now, w);
    if window.None? || window.value.issued < planIssued || window.value.expires > evidenceExpires {
      return Err(StaleEvidence);
    }
    if proof.decisionClass != result.decisionClass || proof.code != result.code {
      return Err(mismatch);
    }
    return Ok(digest);
  }

  /** `verifyCapabilityResults`. */
  method VerifyCapabilityResults(
    w: World, inputs: Inputs, plan: Plan, planDigest: string, planIssued: int, evidence: Evidence, expires: int,
    now: int)
    returns (r: Result<seq<string>, CanaryError>)
    ensures var proofs := CapabilityFinding(w, inputs, plan, planDigest, planIssued, evidence, expires);
      && (r.Ok? <==> proofs.Some? && AllActive(ProofWindows(proofs.value), now))
      && (r.Ok? ==> r.value == ProofDigests(proofs.value))
  {
    hide Decision, Active;
    var results, expected := evidence.results, plan.expected;
    if results.mode != expected.mode {
      return Err(BindingMismatch);
    }
    if results.mode == "required" {
      if !Passed(results, "workload_login") {
        return Err(WorkloadLoginFailed);
      }
      var permitted := VerifyDecision(
        w, inputs, plan, planDigest, planIssued, expires, expected.permitted, "permitted", "", results.permitted, now);
      var denied := VerifyDecision(
        w, inputs, plan, planDigest, planIssued, expires, expected.denied, "policy_denied", expected.deniedCode,
        results.denied, now);
      TwoProofs(w, inputs, plan, planDigest, planIssued, evidence, expires, now);
      if permitted.Err? {
        return Err(permitted.error);
      }
      if denied.Err? {
        return Err(denied.error);
      }
      return Ok([permitted.value, denied.value]);
    } else if results.mode == "certified_not_applicable" {
      if !("certified_not_applicable" in results.actuals
        && results.actuals["certified_not_applicable"] == "not_applicable") {
        return Err(NotApplicableCheckFailed);
      }
      if results.certificationDigest != expected.certificationDigest
        || results.certificationPolicy != expected.certificationPolicy {
        return Err(BindingMismatch);
      }
      if results.certificationDigest !in inputs.certifications
        || inputs.certifications[results.certificationDigest] != expected.certificationPolicy {
        return Err(UncertifiedNotApplicable);
      }
      return Ok([]);
    }
    return Err(InvalidContract);
  }

  lemma TwoProofs(
    w: World, inputs: Inputs, plan: Plan, planDigest: string, planIssued: int, evidence: Evidence, expires: int,
    now: int)
    requires evidence.results.mode == "required" == plan.expected.mode && Passed(evidence.results, "workload_login")
    ensures var permitted := Decision(
        w, inputs, plan, planDigest, planIssued, expires, plan.expected.permitted, "permitted", "",
        evidence.results.permitted);
      var denied := Decision(
        w, inputs, plan, planDigest, planIssued, expires, plan.expected.denied, "policy_denied",
        plan.expected.deniedCode, evidence.results.denied);
      var proofs := CapabilityFinding(w, inputs, plan, planDigest, planIssued, evidence, expires);
      && (proofs.Some? <==> permitted.Some? && denied.Some?)
      && (proofs.Some? ==>
            && ProofDigests(proofs.value) == [permitted.value.0, denied.value.0]
            && (AllActive(ProofWindows(proofs.value), now) <==>
                  Active(permitted.value.1, now) && Active(denied.value.1, now)))
  {
    hide Decision, Active;
    var proofs := CapabilityFinding(w, inputs, plan, planDigest, planIssued, evidence, expires);
    if proofs.Some? {
      assert ProofWindows(proofs.value)[0] == proofs.value[0].1 && ProofWindows(proofs.value)[1] == proofs.value[1].1;
    }
  }

  datatype Checked = Checked(role: string, digest: string, proofs: seq<string>)

  function CheckedOf(finding: Finding): Checked {
    Checked(finding.role, finding.digest, finding.proofs)
  }

  /** The body of the evidence loop, without the duplicate check. */
  method VerifyEvidence(
    w: World, inputs: Inputs, plan: Plan, planDigest: string, planWindow: Window, document: Bytes, now: int)
    returns (r: Result<Checked, CanaryError>)
    ensures var finding := Examine(w, inputs, plan, planDigest, planWindow, document);
      && (r.Ok? <==> finding.Some? && AllActive(finding.value.windows, now))
      && (r.Ok? ==> r.value == CheckedOf(finding.value))
  {
    hide WindowOf, Authenticated, HostPassed, CapabilityFinding, EvidenceBound, Active;
    var validated := w.validateEvidence(document);
    if validated.None? {
      return Err(InvalidContract);
    }
    var (digest, evidence) := validated.value;
    if !EvidenceBound(w, inputs, plan, planDigest, evidence) {
      return Err(BindingMismatch);
    }
    var window := ActiveWindow(evidence.issuedAt, evidence.expiresAt, now, w);
    ExaminedWindow(w, inputs, plan, planDigest, planWindow, document);
    if window.None? || window.value.issued < planWindow.issued || window.value.expires > planWindow.expires {
      return Err(StaleEvidence);
    }
    BoundActorIsKnown(w, inputs, plan, planDigest, evidence);
    if !Authenticated(inputs.authenticatedEvidence, digest, inputs.evidenceSigners[evidence.actor], evidence.signer) {
      return Err(Unauthenticated);
    }
    if evidence.actor == HOST {
      var phase := VerifyHostResults(evidence.results);
      if phase.Err? {
        return Err(phase.error);
      }
      return Ok(Checked(phase.value, digest, []));
    } else if evidence.actor == VERIFIER {
      if evidence.dispatch != Some(inputs.dispatch) {
        return Err(BindingMismatch);
      }
      var proofs := VerifyCapabilityResults(
        w, inputs, plan, planDigest, planWindow.issued, evidence, window.value.expires, now);
      ghost var found := CapabilityFinding(
        w, inputs, plan, planDigest, planWindow.issued, evidence, window.value.expires);
      if found.Some? {
        ActiveCons(window.value, ProofWindows(found.value), now);
      }
      if proofs.Err? {
        return Err(proofs.error);
      }
      return Ok(Checked(VERIFIER, digest, proofs.value));
    }
    return Err(InvalidContract);
  }

  lemma ActiveCons(window: Window, windows: seq<Window>, now: int)
    ensures AllActive([window] + windows, now) <==> Active(window, now) && AllActive(windows, now)
  {
    var all := [window] + windows;
    if AllActive(all, now) {
      assert all[0] == window;
      assert forall i :: 0 <= i < |windows| ==> windows[i] == all[i + 1];
    }
  }

  lemma BoundActorIsKnown(w: World, inputs: Inputs, plan: Plan, planDigest: string, evidence: Evidence)
    requires EvidenceBound(w, inputs, plan, planDigest, evidence)
    ensures evidence.actor in inputs.evidenceSigners
  {
  }

  /** The first window a document contributes is its own. */
  lemma ExaminedWindow(w: World, inputs: Inputs, plan: Plan, planDigest: string, planWindow: Window, document: Bytes)
    ensures var finding := Examine(w, inputs, plan, planDigest, planWindow, document);
      finding.Some? ==>
        var evidence := w.validateEvidence(document).value.1;
        var window := WindowOf(evidence.issuedAt, evidence.expiresAt, w);
        && window.Some? && |finding.value.windows| > 0 && finding.value.windows[0] == window.value
        && planWindow.issued <= window.value.issued && window.value.expires <= planWindow.expires
  {
    hide WindowOf, Authenticated, HostPassed, CapabilityFinding, EvidenceBound;
  }

  datatype Verification = Verification(planDigest: string, evidenceDigests: seq<string>, proofDigests: seq<string>)

  function AllProofs(findings: seq<Finding>): seq<string> {
    if findings == [] then [] else AllProofs(findings[..|findings| - 1]) + findings[|findings| - 1].proofs
  }

  function EvidenceDigests(findings: seq<Finding>): (digests: seq<string>)
    ensures |digests| == |findings| && forall i :: 0 <= i < |findings| ==> digests[i] == findings[i].digest
  {
    seq(|findings|, i requires 0 <= i < |findings| => findings[i].digest)
  }

  /** What the evidence loop knows after a number of documents. */
  ghost predicate Examined(
    w: World, inputs: Inputs, plan: Plan, planDigest: string, planWindow: Window, evidence: seq<Bytes>,
    findings: seq<Finding>, now: int)
  {
    && |findings| <= |evidence|
    && forall i :: 0 <= i < |findings| ==>
         && Examine(w, inputs, plan, planDigest, planWindow, evidence[i]) == Some(findings[i])
         && AllActive(findings[i].windows, now)
  }

  /** The documents of a request at a time: every one examined, every window active, every role once. */
  ghost predicate EvidenceAccepted(
    w: World, inputs: Inputs, plan: Plan, planDigest: string, planWindow: Window, evidence: seq<Bytes>, now: int)
  {
    exists findings ::
      && |findings| == |evidence| && Examined(w, inputs, plan, planDigest, planWindow, evidence, findings, now)
      && NoRepeats(Roles(findings))
  }

  /** The evidence loop. */
  method VerifyAllEvidence(
    w: World, inputs: Inputs, plan: Plan, planDigest: string, planWindow: Window, evidence: seq<Bytes>, now: int)
    returns (r: Result<Verification, CanaryError>, ghost findings: seq<Finding>)
    ensures r.Ok? <==> EvidenceAccepted(w, inputs, plan, planDigest, planWindow, evidence, now)
    ensures r.Ok? ==>
      && |findings| == |evidence| && Examined(w, inputs, plan, planDigest, planWindow, evidence, findings, now)
      && r.value == Verification(planDigest, EvidenceDigests(findings), AllProofs(findings))
  {
    hide Examine, AllActive;
    findings := [];
    var digests: seq<string>, proofs: seq<string> := [], [];
    var seen: set<string> := {};
    var n := 0;
    while n < |evidence|
      invariant 0 <= n <= |evidence| && |findings| == n
      invariant Examined(w, inputs, plan, planDigest, planWindow, evidence, findings, now)
      invariant NoRepeats(Roles(findings)) && Gathers(seen, Roles(findings))
      invariant digests == EvidenceDigests(findings) && proofs == AllProofs(findings)
    {
      var checked := VerifyEvidence(w, inputs, plan, planDigest, planWindow, evidence[n], now);
      if checked.Err? {
        return Err(checked.error), findings;
      }
      ghost var finding := Examine(w, inputs, plan, planDigest, planWindow, evidence[n]).value;
      OneMoreFinding(w, inputs, plan, planDigest, planWindow, evidence, findings, finding, seen, now);
      digests := digests + [checked.value.digest];
      if checked.value.role in seen {
        return Err(InvalidContract), findings;
      }
      seen := seen + {checked.value.role};
      proofs := proofs + checked.value.proofs;
      findings := findings + [finding];
      n := n + 1;
    }
    return Ok(Verification(planDigest, digests, proofs)), findings;
  }

  lemma OneMoreFinding(
    w: World, inputs: Inputs, plan: Plan, planDigest: string, planWindow: Window, evidence: seq<Bytes>,
    findings: seq<Finding>, finding: Finding, seen: set<string>, now: int)
    requires |findings| < |evidence| && Examined(w, inputs, plan, planDigest, planWindow, evidence, findings, now)
    requires Examine(w, inputs, plan, planDigest, planWindow, evidence[|findings|]) == Some(finding)
    requires AllActive(finding.windows, now) && NoRepeats(Roles(findings)) && Gathers(seen, Roles(findings))
    ensures Examined(w, inputs, plan, planDigest, planWindow, evidence, findings + [finding], now)
    ensures EvidenceDigests(findings + [finding]) == EvidenceDigests(findings) + [finding.digest]
    ensures AllProofs(findings + [finding]) == AllProofs(findings) + finding.proofs
    ensures finding.role in seen ==> !EvidenceAccepted(w, inputs, plan, planDigest, planWindow, evidence, now)
    ensures finding.role !in seen ==>
      NoRepeats(Roles(findings + [finding])) && Gathers(seen + {finding.role}, Roles(findings + [finding]))
  {
    hide Examine, Examined, AllActive, EvidenceAccepted, Roles, EvidenceDigests, AllProofs, NoRepeats, Gathers;
    var more := findings + [finding];
    RolesOneMore(findings, finding, seen);
    ExaminedOneMore(w, inputs, plan, planDigest, planWindow, evidence, findings, finding, now);
    if EvidenceAccepted(w, inputs, plan, planDigest, planWindow, evidence, now) {
      AcceptedPrefix(w, inputs, plan, planDigest, planWindow, evidence, more, now);
    }
  }

  lemma ExaminedOneMore(
    w: World, inputs: Inputs, plan: Plan, planDigest: string, planWindow: Window, evidence: seq<Bytes>,
    findings: seq<Finding>, finding: Finding, now: int)
    requires |findings| < |evidence| && Examined(w, inputs, plan, planDigest, planWindow, evidence, findings, now)
    requires Examine(w, inputs, plan, planDigest, planWindow, evidence[|findings|]) == Some(finding)
    requires AllActive(finding.windows, now)
    ensures Examined(w, inputs, plan, planDigest, planWindow, evidence, findings + [finding], now)
  {
    hide Examine, AllActive;
  }

  lemma RolesOneMore(findings: seq<Finding>, finding: Finding, seen: set<string>)
    requires NoRepeats(Roles(findings)) && Gathers(seen, Roles(findings))
    ensures var more := findings + [finding];
      && EvidenceDigests(more) == EvidenceDigests(findings) + [finding.digest]
      && AllProofs(more) == AllProofs(findings) + finding.proofs
      && (finding.role in seen ==> !NoRepeats(Roles(more)))
      && (finding.role !in seen ==> NoRepeats(Roles(more)) && Gathers(seen + {finding.role}, Roles(more)))
  {
    var more := findings + [finding];
    assert more[..|findings|] == findings;
    assert Roles(more) == Roles(findings) + [finding.role];
    assert Roles(more)[..|findings|] == Roles(findings) && Roles(more)[..|more|] == Roles(more);
    ScanOneMore(seen, Roles(more), |findings|);
    hide Gathers, NoRepeats;
  }

  lemma AcceptedPrefix(
    w: World, inputs: Inputs, plan: Plan, planDigest: string, planWindow: Window, evidence: seq<Bytes>,
    findings: seq<Finding>, now: int)
    requires Examined(w, inputs, plan, planDigest, planWindow, evidence, findings, now)
    requires EvidenceAccepted(w, inputs, plan, planDigest, planWindow, evidence, now)
    ensures NoRepeats(Roles(findings))
  {
    hide Examine, AllActive;
    var all :| |all| == |evidence| && Examined(w, inputs, plan, planDigest, planWindow, evidence, all, now)
      && NoRepeats(Roles(all));
    assert forall i :: 0 <= i < |findings| ==> findings[i] == all[i];
    assert forall i :: 0 <= i < |findings| ==> Roles(findings)[i] == Roles(all)[i];
  }

  /** `VerifyPromotion`. */
  method VerifyPromotion(w: World, inputs: Inputs, request: Request, now: int)
    returns (r: Result<Verification, CanaryError>, ghost findings: seq<Finding>)
    ensures r.Ok? <==> Accepts(w, inputs, request, now)
    ensures r.Ok? ==>
      && r.value == Verification(inputs.planDigest, EvidenceDigests(findings), AllProofs(findings))
      && |findings| == 3
      && forall role :: role in Roles(findings) <==> role in ["candidate_ready", "active_readback", VERIFIER]
  {
    findings := [];
    if now == 0 || !InputsOk(inputs) {
      return Err(InvalidInputs), findings;
    }
    if |request.evidence| != 3 {
      return Err(InvalidContract), findings;
    }
    var current := CurrentPlan(w, inputs, request.plan);
    if current.None? {
      return Err(BindingMismatch), findings;
    }
    var (planDigest, plan) := current.value;
    assert planDigest == inputs.planDigest;
    var window := ActiveWindow(plan.issuedAt, plan.expiresAt, now, w);
    AcceptsByParts(w, inputs, request, now);
    if window.None? {
      return Err(StaleEvidence), findings;
    }
    hide CurrentPlan, Accepts, EvidenceAccepted;
    r, findings := VerifyAllEvidence(w, inputs, plan, planDigest, window.value, request.evidence, now);
    if r.Ok? {
      RolesAreComplete(w, inputs, plan, planDigest, window.value, request.evidence, findings, now);
    }
  }

  lemma {:induction false} AllWindowsActive(findings: seq<Finding>, now: int)
    ensures AllActive(AllWindows(findings), now) <==>
      forall i :: 0 <= i < |findings| ==> AllActive(findings[i].windows, now)
    decreases |findings|
  {
    if findings != [] {
      AllWindowsActive(findings[1..], now);
      var first, rest := findings[0].windows, AllWindows(findings[1..]);
      assert forall i :: 0 <= i < |first| ==> (first + rest)[i] == first[i];
      assert forall i :: 0 <= i < |rest| ==> (first + rest)[|first| + i] == rest[i];
      assert findings == [findings[0]] + findings[1..];
    }
  }

  /** Acceptance, put together from what the verifier looks at. */
  lemma AcceptsByParts(w: World, inputs: Inputs, request: Request, now: int)
    ensures Accepts(w, inputs, request, now) <==>
      && now != 0 && InputsOk(inputs) && |request.evidence| == 3 && CurrentPlan(w, inputs, request.plan).Some?
      && var (planDigest, plan) := CurrentPlan(w, inputs, request.plan).value;
         var window := WindowOf(plan.issuedAt, plan.expiresAt, w);
         && window.Some? && Active(window.value, now)
         && EvidenceAccepted(w, inputs, plan, planDigest, window.value, request.evidence, now)
  {
    hide CurrentPlan, WindowOf, Examine, InputsOk, Active, AllWindows;
    if InputsOk(inputs) && |request.evidence| == 3 && CurrentPlan(w, inputs, request.plan).Some? {
      var (planDigest, plan) := CurrentPlan(w, inputs, request.plan).value;
      if WindowOf(plan.issuedAt, plan.expiresAt, w).Some? {
        var window := WindowOf(plan.issuedAt, plan.expiresAt, w).value;
        var findings := Findings(w, inputs, plan, planDigest, window, request.evidence);
        if findings.Some? {
          AllWindowsActive(findings.value, now);
          ActiveCons(window, AllWindows(findings.value), now);
        }
        EvidenceByFindings(w, inputs, plan, planDigest, window, request.evidence, now);
      }
    }
    hide AllActive, EvidenceAccepted, Findings;
  }

  lemma EvidenceByFindings(
    w: World, inputs: Inputs, plan: Plan, planDigest: string, planWindow: Window, evidence: seq<Bytes>, now: int)
    ensures var findings := Findings(w, inputs, plan, planDigest, planWindow, evidence);
      EvidenceAccepted(w, inputs, plan, planDigest, planWindow, evidence, now) <==>
        && findings.Some? && NoRepeats(Roles(findings.value))
        && forall i :: 0 <= i < |findings.value| ==> AllActive(findings.value[i].windows, now)
  {
    hide Examine, AllActive;
    var findings := Findings(w, inputs, plan, planDigest, planWindow, evidence);
    if EvidenceAccepted(w, inputs, plan, planDigest, planWindow, evidence, now) {
      var all :| |all| == |evidence| && Examined(w, inputs, plan, planDigest, planWindow, evidence, all, now)
        && NoRepeats(Roles(all));
      assert all == findings.value;
    }
    if findings.Some? && forall i :: 0 <= i < |findings.value| ==> AllActive(findings.value[i].windows, now) {
      assert Examined(w, inputs, plan, planDigest, planWindow, evidence, findings.value, now);
    }
  }

  lemma RoleIsKnown(w: World, inputs: Inputs, plan: Plan, planDigest: string, planWindow: Window, document: Bytes)
    ensures var finding := Examine(w, inputs, plan, planDigest, planWindow, document);
      finding.Some? ==> finding.value.role in ["candidate_ready", "active_readback", VERIFIER]
  {
    hide WindowOf, Authenticated, CapabilityFinding, EvidenceBound, Passed;
  }

  /** Three distinct roles out of three: one document for each. */
  lemma RolesAreComplete(
    w: World, inputs: Inputs, plan: Plan, planDigest: string, planWindow: Window, evidence: seq<Bytes>,
    findings: seq<Finding>, now: int)
    requires |findings| == |evidence| == 3 && NoRepeats(Roles(findings))
    requires Examined(w, inputs, plan, planDigest, planWindow, evidence, findings, now)
    ensures forall role :: role in Roles(findings) <==> role in ["candidate_ready", "active_readback", VERIFIER]
  {
    hide Examine, AllActive;
    forall i | 0 <= i < 3
      ensures Roles(findings)[i] in ["candidate_ready", "active_readback", VERIFIER]
    {
      RoleIsKnown(w, inputs, plan, planDigest, planWindow, evidence[i]);
    }
    var roles := Roles(findings);
    assert roles[0] != roles[1] && roles[0] != roles[2] && roles[1] != roles[2];
  }

  // ---------- what acceptance means ----------

  /** One evidence document per role, whatever the order of the documents. */
  lemma OneEvidencePerRole(w: World, inputs: Inputs, request: Request, now: int, role: string)
    requires Accepts(w, inputs, request, now) && role in ["candidate_ready", "active_readback", VERIFIER]
    ensures var (planDigest, plan) := CurrentPlan(w, inputs, request.plan).value;
      var window := WindowOf(plan.issuedAt, plan.expiresAt, w).value;
      exists i :: 0 <= i < 3 && Fills(w, inputs, plan, planDigest, window, request.evidence[i], role)
        && forall j :: 0 <= j < 3 && j != i ==> !Fills(w, inputs, plan, planDigest, window, request.evidence[j], role)
  {
    AcceptsByParts(w, inputs, request, now);
    hide Accepts, CurrentPlan, WindowOf, Examine, AllActive;
    var (planDigest, plan) := CurrentPlan(w, inputs, request.plan).value;
    var window := WindowOf(plan.issuedAt, plan.expiresAt, w).value;
    var all :| |all| == |request.evidence|
      && Examined(w, inputs, plan, planDigest, window, request.evidence, all, now) && NoRepeats(Roles(all));
    RolesAreComplete(w, inputs, plan, planDigest, window, request.evidence, all, now);
    var i :| 0 <= i < 3 && Roles(all)[i] == role;
    assert forall k :: 0 <= k < 3 ==> Examine(w, inputs, plan, planDigest, window, request.evidence[k]) == Some(all[k]);
    assert Fills(w, inputs, plan, planDigest, window, request.evidence[i], role);
    forall j | 0 <= j < 3 && j != i
      ensures !Fills(w, inputs, plan, planDigest, window, request.evidence[j], role)
    {
      assert Roles(all)[i] != Roles(all)[j];
    }
  }

  predicate Fills(
    w: World, inputs: Inputs, plan: Plan, planDigest: string, planWindow: Window, document: Bytes, role: string)
  {
    var finding := Examine(w, inputs, plan, planDigest, planWindow, document);
    finding.Some? && finding.value.role == role
  }

  /** The order of the evidence documents never matters. */
  lemma OrderIrrelevant(w: World, inputs: Inputs, request: Request, evidence: seq<Bytes>, now: int)
    requires multiset(evidence) == multiset(request.evidence) && Accepts(w, inputs, request, now)
    ensures Accepts(w, inputs, Request(request.plan, evidence), now)
  {
    var other := Request(request.plan, evidence);
    AcceptsByParts(w, inputs, request, now);
    AcceptsByParts(w, inputs, other, now);
    hide Accepts, CurrentPlan, WindowOf, EvidenceAccepted, Active;
    assert |multiset(evidence)| == |evidence| && |multiset(request.evidence)| == |request.evidence|;
    var (planDigest, plan) := CurrentPlan(w, inputs, request.plan).value;
    var window := WindowOf(plan.issuedAt, plan.expiresAt, w).value;
    EvidenceReordered(w, inputs, plan, planDigest, window, request.evidence, evidence, now);
  }

  lemma EvidenceReordered(
    w: World, inputs: Inputs, plan: Plan, planDigest: string, planWindow: Window, a: seq<Bytes>, b: seq<Bytes>,
    now: int)
    requires multiset(a) == multiset(b) && EvidenceAccepted(w, inputs, plan, planDigest, planWindow, a, now)
    ensures EvidenceAccepted(w, inputs, plan, planDigest, planWindow, b, now)
  {
    hide Examine, AllActive;
    var all :| |all| == |a| && Examined(w, inputs, plan, planDigest, planWindow, a, all, now) && NoRepeats(Roles(all));
    assert forall i, j :: 0 <= i < j < |a| ==> Roles(all)[i] != Roles(all)[j];
    hide NoRepeats, Roles;
    forall i, j | 0 <= i < j < |a|
      ensures a[i] != a[j]
    {
      assert Roles(all)[i] != Roles(all)[j];
    }
    PermutationOfDistinct(a, b);
    MovedDistinct(a, b, all);
    var findings := Moved(a, b, all);
    forall i | 0 <= i < |b|
      ensures Examine(w, inputs, plan, planDigest, planWindow, b[i]) == Some(findings[i])
        && AllActive(findings[i].windows, now)
    {
      assert findings[i] == all[Where(a, b[i])];
    }
    hide Moved;
    assert Examined(w, inputs, plan, planDigest, planWindow, b, findings, now);
  }

  /** The findings in the order of the rearranged documents. */
  ghost function Moved(a: seq<Bytes>, b: seq<Bytes>, findings: seq<Finding>): (moved: seq<Finding>)
    requires |findings| == |a| && forall i :: 0 <= i < |b| ==> b[i] in a
    ensures |moved| == |b|
  {
    seq(|b|, i requires 0 <= i < |b| => findings[Where(a, b[i])])
  }

  lemma MovedDistinct(a: seq<Bytes>, b: seq<Bytes>, findings: seq<Finding>)
    requires |findings| == |a| && (forall i :: 0 <= i < |b| ==> b[i] in a) && NoRepeats(Roles(findings))
    requires forall i, j :: 0 <= i < j < |b| ==> b[i] != b[j]
    ensures NoRepeats(Roles(Moved(a, b, findings)))
  {
    var moved := Moved(a, b, findings);
    forall i, j | 0 <= i < j < |b|
      ensures Roles(moved)[i] != Roles(moved)[j]
    {
      var k, l := Where(a, b[i]), Where(a, b[j]);
      assert a[k] == b[i] && a[l] == b[j];
      assert Roles(findings)[k] != Roles(findings)[l];
    }
  }

  ghost function Where<T>(s: seq<T>, x: T): (i: nat)
    requires x in s
    ensures i < |s| && s[i] == x
  {
    var i: nat :| i < |s| && s[i] == x;
    i
  }

  lemma {:induction false} WindowsInside(findings: seq<Finding>, outer: Window, k: nat)
    requires k < |AllWindows(findings)|
    requires forall i :: 0 <= i < |findings| ==> Inside(findings[i].windows, outer)
    ensures outer.issued <= AllWindows(findings)[k].issued && AllWindows(findings)[k].expires <= outer.expires
    decreases |findings|
  {
    assert findings == [findings[0]] + findings[1..];
    var n := |findings[0].windows|;
    if k >= n {
      WindowsInside(findings[1..], outer, k - n);
    }
  }

  ghost predicate Inside(windows: seq<Window>, outer: Window) {
    forall i :: 0 <= i < |windows| ==> outer.issued <= windows[i].issued && windows[i].expires <= outer.expires
  }

  /** Proof windows lie inside the evidence window, and that inside the plan's. */
  lemma DocumentInside(w: World, inputs: Inputs, plan: Plan, planDigest: string, planWindow: Window, document: Bytes)
    ensures var finding := Examine(w, inputs, plan, planDigest, planWindow, document);
      finding.Some? ==> Inside(finding.value.windows, planWindow)
  {
    hide WindowOf, Authenticated, HostPassed, EvidenceBound, Decision, Passed;
    var finding := Examine(w, inputs, plan, planDigest, planWindow, document);
    if finding.Some? {
      ExaminedWindow(w, inputs, plan, planDigest, planWindow, document);
      var evidence := w.validateEvidence(document).value.1;
      if evidence.actor == VERIFIER {
        ProofsInside(w, inputs, plan, planDigest, planWindow.issued, evidence, finding.value.windows[0].expires);
        hide CapabilityFinding;
      }
    }
  }

  lemma DecisionInside(
    w: World, inputs: Inputs, plan: Plan, planDigest: string, planIssued: int, evidenceExpires: int,
    capability: Capability, decisionClass: string, code: string, result: DecisionResult)
    ensures var decision :=
        Decision(w, inputs, plan, planDigest, planIssued, evidenceExpires, capability, decisionClass, code, result);
      decision.Some? ==> planIssued <= decision.value.1.issued && decision.value.1.expires <= evidenceExpires
  {
    hide WindowOf, Authenticated, ForProof;
  }

  lemma ProofsInside(
    w: World, inputs: Inputs, plan: Plan, planDigest: string, planIssued: int, evidence: Evidence, expires: int)
    ensures var proofs := CapabilityFinding(w, inputs, plan, planDigest, planIssued, evidence, expires);
      proofs.Some? ==> forall i :: 0 <= i < |proofs.value| ==>
        planIssued <= proofs.value[i].1.issued && proofs.value[i].1.expires <= expires
  {
    hide Decision, Passed;
    var results, expected := evidence.results, plan.expected;
    DecisionInside(
      w, inputs, plan, planDigest, planIssued, expires, expected.permitted, "permitted", "", results.permitted);
    DecisionInside(
      w, inputs, plan, planDigest, planIssued, expires, expected.denied, "policy_denied", expected.deniedCode,
      results.denied);
  }

  function EarliestExpiry(windows: seq<Window>): int
    requires windows != []
  {
    if |windows| == 1 then windows[0].expires
    else
      var rest := EarliestExpiry(windows[1..]);
      if windows[0].expires < rest then windows[0].expires else rest
  }

  lemma {:induction false} EarliestExpiryIsLeast(windows: seq<Window>, now: int)
    requires windows != []
    ensures now < EarliestExpiry(windows) <==> forall i :: 0 <= i < |windows| ==> now < windows[i].expires
    decreases |windows|
  {
    if |windows| > 1 {
      EarliestExpiryIsLeast(windows[1..], now);
      assert windows == [windows[0]] + windows[1..];
    }
  }

  /**
   With nothing but the clock changed, an acceptance persists for exactly the times before the earliest expiry
   among plan, evidence and proofs, and never reaches thirty minutes after the plan was issued.
   */
  lemma AcceptancePersists(w: World, inputs: Inputs, request: Request, now: int, later: int)
    requires Accepts(w, inputs, request, now) && now <= later && later != 0
    ensures Accepts(w, inputs, request, later) <==> later < EarliestExpiry(Windows(w, inputs, request))
    ensures Accepts(w, inputs, request, later) ==>
      Windows(w, inputs, request)[0].issued <= now && later < Windows(w, inputs, request)[0].issued + MAX_WINDOW
  {
    hide Sound, Windows;
    WindowsNotEmpty(w, inputs, request);
    EarliestExpiryIsLeast(Windows(w, inputs, request), later);
    hide EarliestExpiry;
  }

  lemma WindowsNotEmpty(w: World, inputs: Inputs, request: Request)
    requires Sound(w, inputs, request)
    ensures var windows := Windows(w, inputs, request);
      windows != [] && windows[0].expires <= windows[0].issued + MAX_WINDOW && Inside(windows, windows[0])
  {
    hide CurrentPlan, Examine;
    var (planDigest, plan) := CurrentPlan(w, inputs, request.plan).value;
    var window := WindowOf(plan.issuedAt, plan.expiresAt, w).value;
    hide WindowOf;
    var findings := Findings(w, inputs, plan, planDigest, window, request.evidence).value;
    forall i | 0 <= i < |findings|
      ensures Inside(findings[i].windows, window)
    {
      DocumentInside(w, inputs, plan, planDigest, window, request.evidence[i]);
    }
    forall k | 0 <= k < |AllWindows(findings)|
      ensures window.issued <= AllWindows(findings)[k].issued && AllWindows(findings)[k].expires <= window.expires
    {
      WindowsInside(findings, window, k);
    }
  }
}
