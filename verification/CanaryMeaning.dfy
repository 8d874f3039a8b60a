/** What an accepted promotion consists of, document by document and check by check. */
module CanaryMeaning {
  import opened Foundation
  import opened Canary

  // ---------- the parts ----------

  /** The two times parse to a window of at most thirty minutes that is open now. */
  ghost predicate Open(w: World, issuedAt: string, expiresAt: string, window: Window, now: int) {
    && w.parseTime(issuedAt) == Some(window.issued) && w.parseTime(expiresAt) == Some(window.expires)
    && 0 < window.expires - window.issued <= 1_800_000_000_000 && window.issued <= now < window.expires
  }

  predicate IsDigest(text: string) {
    && |text| == 71 && text[..7] == "sha256:"
    && forall i :: 7 <= i < 71 ==> '0' <= text[i] <= '9' || 'a' <= text[i] <= 'f'
  }

  /** An independent record says that this signer signed the document of this digest. */
  predicate Recorded(records: map<string, AuthRecord>, digest: string, signer: Signer) {
    && digest in records && records[digest].signer == signer && IsDigest(records[digest].evidenceDigest)
    && (records[digest].channel == "signature_verified"
        || records[digest].channel == "authenticated_nonrepudiable_channel_verified")
  }

  predicate Told(results: Results, check: string, outcome: string) {
    check in results.actuals && results.actuals[check] == outcome
  }

  /** Before the switch. */
  predicate CandidateReady(results: Results) {
    && results.phase == "candidate_ready"
    && Told(results, "artifact_readback", "passed") && Told(results, "file_inventory", "passed")
    && Told(results, "slot_generation", "passed") && Told(results, "service_process", "passed")
    && Told(results, "resource_thresholds", "passed") && Told(results, "harness_readiness", "passed")
  }

  /** After the switch. */
  predicate ActiveReadBack(results: Results) {
    && results.phase == "active_readback"
    && Told(results, "switch_marker", "passed") && Told(results, "active_pointer", "passed")
    && Told(results, "file_inventory", "passed") && Told(results, "service_process", "passed")
  }

  lemma HostChecks(results: Results)
    ensures HostPassed(results) <==> CandidateReady(results) || ActiveReadBack(results)
  {
    assert READY_CHECKS[0] == "artifact_readback" && READY_CHECKS[1] == "file_inventory";
    assert READY_CHECKS[2] == "slot_generation" && READY_CHECKS[3] == "service_process";
    assert READY_CHECKS[4] == "resource_thresholds" && READY_CHECKS[5] == "harness_readiness";
    assert READBACK_CHECKS[0] == "switch_marker" && READBACK_CHECKS[1] == "active_pointer";
    assert READBACK_CHECKS[2] == "file_inventory" && READBACK_CHECKS[3] == "service_process";
    assert |"candidate_ready"| == |"active_readback"| == 15 && "candidate_ready"[0] != "active_readback"[0];
    if CandidateReady(results) {
      forall i | 0 <= i < |READY_CHECKS|
        ensures Passed(results, READY_CHECKS[i])
      {
      }
    }
    if ActiveReadBack(results) {
      forall i | 0 <= i < |READBACK_CHECKS|
        ensures Passed(results, READBACK_CHECKS[i])
      {
      }
    }
  }

  // ---------- authorization decisions ----------

  /** The proof is about the same rollout as the plan. */
  predicate SameRollout(proof: ProofBindings, plan: Bindings) {
    && proof.nonce == plan.nonce && proof.consumer == plan.consumer && proof.subject == plan.subject
    && proof.target == plan.target && proof.candidate == plan.candidate && proof.release == plan.release
    && proof.deployment == plan.deployment && proof.policy == plan.policy && proof.grantSet == plan.grantSet
    && proof.workload == plan.workload
  }

  ghost predicate ProofStands(
    w: World, inputs: Inputs, plan: Plan, planWindow: Window, evidenceExpires: int, capability: Capability,
    result: DecisionResult, proof: Proof, window: Window, now: int)
  {
    && w.resolveProof(result.proofDigest).Some?
    && w.validateProof(w.resolveProof(result.proofDigest).value) == Some((result.proofDigest, proof))
    && proof.schema == w.proofSchema && proof.planDigest == inputs.planDigest
    && SameRollout(proof.bindings, plan.bindings) && proof.capability == capability
    && proof.signer == inputs.authorizationSigner && proof.signer.policy == plan.authorizationPolicy
    && Recorded(inputs.authenticatedProofs, result.proofDigest, inputs.authorizationSigner)
    && proof.decisionClass == result.decisionClass && proof.code == result.code
    && Open(w, proof.issuedAt, proof.expiresAt, window, now)
    && planWindow.issued <= window.issued && window.expires <= evidenceExpires
  }

  /** A decision of the expected class, and code where one is expected, with a proof that stands. */
  ghost predicate Decided(
    w: World, inputs: Inputs, plan: Plan, planWindow: Window, evidenceExpires: int, capability: Capability,
    kind: string, code: string, result: DecisionResult, now: int)
  {
    && result.outcome == "decision" && result.decisionClass == kind && (code != "" ==> result.code == code)
    && exists proof, window ::
         ProofStands(w, inputs, plan, planWindow, evidenceExpires, capability, result, proof, window, now)
  }

  lemma OpenIsActive(w: World, issuedAt: string, expiresAt: string, window: Window, now: int)
    ensures Open(w, issuedAt, expiresAt, window, now) <==>
      WindowOf(issuedAt, expiresAt, w) == Some(window) && Active(window, now)
  {
  }

  lemma RecordedIsAuthenticated(records: map<string, AuthRecord>, digest: string, expected: Signer, claimed: Signer)
    ensures Recorded(records, digest, expected) && expected == claimed <==>
      Authenticated(records, digest, expected, claimed)
  {
  }

  lemma DecisionMeans(
    w: World, inputs: Inputs, plan: Plan, planWindow: Window, evidenceExpires: int, capability: Capability,
    kind: string, code: string, result: DecisionResult, now: int)
    ensures var decision := Decision(
        w, inputs, plan, inputs.planDigest, planWindow.issued, evidenceExpires, capability, kind, code, result);
      decision.Some? && Active(decision.value.1, now) <==>
        Decided(w, inputs, plan, planWindow, evidenceExpires, capability, kind, code, result, now)
  {
    hide Open, WindowOf, Active, Recorded, Authenticated;
    var document := w.resolveProof(result.proofDigest);
    var validated := if document.None? then None else w.validateProof(document.value);
    if validated.Some? && validated.value.0 == result.proofDigest {
      var proof := validated.value.1;
      assert proof.bindings == ForProof(plan.bindings) <==> SameRollout(proof.bindings, plan.bindings);
      RecordedIsAuthenticated(
        inputs.authenticatedProofs, result.proofDigest, inputs.authorizationSigner, proof.signer);
      forall window
        ensures Open(w, proof.issuedAt, proof.expiresAt, window, now) <==>
          WindowOf(proof.issuedAt, proof.expiresAt, w) == Some(window) && Active(window, now)
      {
        OpenIsActive(w, proof.issuedAt, proof.expiresAt, window, now);
      }
      var window := WindowOf(proof.issuedAt, proof.expiresAt, w);
      if window.Some? {
        assert ProofStands(
            w, inputs, plan, planWindow, evidenceExpires, capability, result, proof, window.value, now) ==>
            Active(window.value, now);
      }
    }
  }

  // ---------- evidence documents ----------

  /** A document of this actor, bound to the plan and signed by the actor's independent signer. */
  ghost predicate EvidenceStands(
    w: World, inputs: Inputs, plan: Plan, planWindow: Window, document: Bytes, actor: string, evidence: Evidence,
    window: Window, now: int)
  {
    && (exists digest ::
          && w.validateEvidence(document) == Some((digest, evidence))
          && Recorded(inputs.authenticatedEvidence, digest, evidence.signer))
    && evidence.actor == actor && evidence.schema == w.evidenceSchema && evidence.planDigest == inputs.planDigest
    && evidence.bindings == plan.bindings
    && actor in inputs.evidenceSigners && evidence.signer == inputs.evidenceSigners[actor]
    && evidence.signer.policy == (if actor == "host_reconciler" then plan.hostPolicy else plan.capabilityPolicy)
    && Open(w, evidence.issuedAt, evidence.expiresAt, window, now)
    && planWindow.issued <= window.issued && window.expires <= planWindow.expires
  }

  ghost predicate ReadyStands(
    w: World, inputs: Inputs, plan: Plan, planWindow: Window, document: Bytes, now: int)
  {
    exists evidence, window ::
      && EvidenceStands(w, inputs, plan, planWindow, document, "host_reconciler", evidence, window, now)
      && CandidateReady(evidence.results)
  }

  ghost predicate ReadBackStands(
    w: World, inputs: Inputs, plan: Plan, planWindow: Window, document: Bytes, now: int)
  {
    exists evidence, window ::
      && EvidenceStands(w, inputs, plan, planWindow, document, "host_reconciler", evidence, window, now)
      && ActiveReadBack(evidence.results)
  }

  /** The capability is used and its sentinel is denied, both with proofs. */
  ghost predicate Exercised(
    w: World, inputs: Inputs, plan: Plan, planWindow: Window, evidence: Evidence, expires: int, now: int)
  {
    && evidence.results.mode == "required" && Told(evidence.results, "workload_login", "passed")
    && Decided(
         w, inputs, plan, planWindow, expires, plan.expected.permitted, "permitted", "",
         evidence.results.permitted, now)
    && Decided(
         w, inputs, plan, planWindow, expires, plan.expected.denied, "policy_denied", plan.expected.deniedCode,
         evidence.results.denied, now)
  }

  /** The capability is certified not to apply, by the plan's certification, independently authenticated. */
  predicate Exempt(inputs: Inputs, plan: Plan, results: Results) {
    && results.mode == "certified_not_applicable"
    && Told(results, "certified_not_applicable", "not_applicable")
    && results.certificationDigest == plan.expected.certificationDigest
    && results.certificationPolicy == plan.expected.certificationPolicy
    && results.certificationDigest in inputs.certifications
    && inputs.certifications[results.certificationDigest] == plan.expected.certificationPolicy
  }

  ghost predicate CapabilityStands(
    w: World, inputs: Inputs, plan: Plan, planWindow: Window, document: Bytes, now: int)
  {
    exists evidence, window ::
      && EvidenceStands(w, inputs, plan, planWindow, document, "consumer_capability_verifier", evidence, window, now)
      && evidence.dispatch == Some(inputs.dispatch) && evidence.results.mode == plan.expected.mode
      && (Exercised(w, inputs, plan, planWindow, evidence, window.expires, now)
          || Exempt(inputs, plan, evidence.results))
  }

  /** The document counts now for this role. */
  ghost predicate Counts(
    w: World, inputs: Inputs, plan: Plan, planWindow: Window, document: Bytes, role: string, now: int)
  {
    var finding := Examine(w, inputs, plan, inputs.planDigest, planWindow, document);
    finding.Some? && finding.value.role == role && AllActive(finding.value.windows, now)
  }

  lemma CapabilityMeans(
    w: World, inputs: Inputs, plan: Plan, planWindow: Window, evidence: Evidence, expires: int, now: int)
    ensures var proofs := CapabilityFinding(
        w, inputs, plan, inputs.planDigest, planWindow.issued, evidence, expires);
      proofs.Some? && AllActive(ProofWindows(proofs.value), now) <==>
        && evidence.results.mode == plan.expected.mode
        && (Exercised(w, inputs, plan, planWindow, evidence, expires, now) || Exempt(inputs, plan, evidence.results))
  {
    hide Decision, Decided, Active;
    var results, expected := evidence.results, plan.expected;
    DecisionMeans(
      w, inputs, plan, planWindow, expires, expected.permitted, "permitted", "", results.permitted, now);
    DecisionMeans(
      w, inputs, plan, planWindow, expires, expected.denied, "policy_denied", expected.deniedCode, results.denied, now);
    assert |"required"| == 8 && |"certified_not_applicable"| == 24;
    var proofs := CapabilityFinding(w, inputs, plan, inputs.planDigest, planWindow.issued, evidence, expires);
    if proofs.Some? && results.mode == "required" {
      assert |proofs.value| == 2;
      assert AllActive(ProofWindows(proofs.value), now) <==>
          Active(proofs.value[0].1, now) && Active(proofs.value[1].1, now);
    }
  }

  /** What the verifier looks at before it turns to the results. */
  ghost predicate Bound(
    w: World, inputs: Inputs, plan: Plan, planWindow: Window, digest: string, evidence: Evidence, window: Window,
    now: int)
  {
    && EvidenceBound(w, inputs, plan, inputs.planDigest, evidence)
    && WindowOf(evidence.issuedAt, evidence.expiresAt, w) == Some(window) && Active(window, now)
    && planWindow.issued <= window.issued && window.expires <= planWindow.expires
    && Authenticated(inputs.authenticatedEvidence, digest, inputs.evidenceSigners[evidence.actor], evidence.signer)
  }

  lemma EvidenceMeans(
    w: World, inputs: Inputs, plan: Plan, planWindow: Window, document: Bytes, digest: string, evidence: Evidence,
    actor: string, window: Window, now: int)
    requires w.validateEvidence(document) == Some((digest, evidence))
    requires actor == HOST || actor == VERIFIER
    ensures EvidenceStands(w, inputs, plan, planWindow, document, actor, evidence, window, now) <==>
      evidence.actor == actor && Bound(w, inputs, plan, planWindow, digest, evidence, window, now)
  {
    hide Open, WindowOf, Active, Recorded, Authenticated;
    assert |HOST| == 15 && |VERIFIER| == 28;
    OpenIsActive(w, evidence.issuedAt, evidence.expiresAt, window, now);
    if actor in inputs.evidenceSigners {
      RecordedIsAuthenticated(
        inputs.authenticatedEvidence, digest, inputs.evidenceSigners[actor], evidence.signer);
    }
  }

  lemma CountsByParts(
    w: World, inputs: Inputs, plan: Plan, planWindow: Window, document: Bytes, digest: string, evidence: Evidence,
    role: string, now: int)
    requires w.validateEvidence(document) == Some((digest, evidence))
    ensures Counts(w, inputs, plan, planWindow, document, role, now) <==>
      exists window ::
        && Bound(w, inputs, plan, planWindow, digest, evidence, window, now)
        && ((evidence.actor == HOST && HostPassed(evidence.results) && role == evidence.results.phase)
            || (evidence.actor == VERIFIER && role == VERIFIER && evidence.dispatch == Some(inputs.dispatch)
                && var proofs := CapabilityFinding(
                       w, inputs, plan, inputs.planDigest, planWindow.issued, evidence, window.expires);
                   proofs.Some? && AllActive(ProofWindows(proofs.value), now)))
  {
    hide WindowOf, Authenticated, CapabilityFinding, EvidenceBound, HostPassed, Active;
    assert |HOST| == 15 && |VERIFIER| == 28;
    var window := WindowOf(evidence.issuedAt, evidence.expiresAt, w);
    if window.Some? {
      var proofs := CapabilityFinding(
        w, inputs, plan, inputs.planDigest, planWindow.issued, evidence, window.value.expires);
      ActiveCons(window.value, [], now);
      assert [window.value] + [] == [window.value];
      if proofs.Some? {
        ActiveCons(window.value, ProofWindows(proofs.value), now);
      }
    }
    hide AllActive;
  }

  lemma ReadyMeans(w: World, inputs: Inputs, plan: Plan, planWindow: Window, document: Bytes, now: int)
    ensures Counts(w, inputs, plan, planWindow, document, "candidate_ready", now) <==>
      ReadyStands(w, inputs, plan, planWindow, document, now)
    ensures Counts(w, inputs, plan, planWindow, document, "active_readback", now) <==>
      ReadBackStands(w, inputs, plan, planWindow, document, now)
  {
    hide EvidenceStands, Bound, CapabilityFinding, HostPassed, Told, AllActive;
    assert |"candidate_ready"| == 15 && |"active_readback"| == 15 && |VERIFIER| == 28;
    assert "candidate_ready"[0] != "active_readback"[0];
    var validated := w.validateEvidence(document);
    if validated.Some? {
      var (digest, evidence) := validated.value;
      CountsByParts(w, inputs, plan, planWindow, document, digest, evidence, "candidate_ready", now);
      CountsByParts(w, inputs, plan, planWindow, document, digest, evidence, "active_readback", now);
      HostChecks(evidence.results);
      forall window
        ensures EvidenceStands(w, inputs, plan, planWindow, document, HOST, evidence, window, now) <==>
          evidence.actor == HOST && Bound(w, inputs, plan, planWindow, digest, evidence, window, now)
      {
        EvidenceMeans(w, inputs, plan, planWindow, document, digest, evidence, HOST, window, now);
      }
    }
    forall actor, evidence, window | EvidenceStands(w, inputs, plan, planWindow, document, actor, evidence, window, now)
      ensures validated.Some? && validated.value.1 == evidence
    {
      StandsIsValidated(w, inputs, plan, planWindow, document, actor, evidence, window, now);
    }
    hide Counts;
  }

  lemma StandsIsValidated(
    w: World, inputs: Inputs, plan: Plan, planWindow: Window, document: Bytes, actor: string, evidence: Evidence,
    window: Window, now: int)
    requires EvidenceStands(w, inputs, plan, planWindow, document, actor, evidence, window, now)
    ensures w.validateEvidence(document).Some? && w.validateEvidence(document).value.1 == evidence
  {
  }

  lemma CapabilityRoleMeans(w: World, inputs: Inputs, plan: Plan, planWindow: Window, document: Bytes, now: int)
    ensures Counts(w, inputs, plan, planWindow, document, VERIFIER, now) <==>
      CapabilityStands(w, inputs, plan, planWindow, document, now)
  {
    hide EvidenceStands, Bound, CapabilityFinding, HostPassed, AllActive, Exercised, Exempt;
    assert |"candidate_ready"| == 15 && |"active_readback"| == 15 && |VERIFIER| == 28;
    var validated := w.validateEvidence(document);
    if validated.Some? {
      var (digest, evidence) := validated.value;
      CountsByParts(w, inputs, plan, planWindow, document, digest, evidence, VERIFIER, now);
      HostPhases(evidence.results);
      forall window: Window
        ensures EvidenceStands(w, inputs, plan, planWindow, document, VERIFIER, evidence, window, now) <==>
          evidence.actor == VERIFIER && Bound(w, inputs, plan, planWindow, digest, evidence, window, now)
        ensures var proofs := CapabilityFinding(
            w, inputs, plan, inputs.planDigest, planWindow.issued, evidence, window.expires);
          proofs.Some? && AllActive(ProofWindows(proofs.value), now) <==>
            && evidence.results.mode == plan.expected.mode
            && (Exercised(w, inputs, plan, planWindow, evidence, window.expires, now)
                || Exempt(inputs, plan, evidence.results))
      {
        EvidenceMeans(w, inputs, plan, planWindow, document, digest, evidence, VERIFIER, window, now);
        CapabilityMeans(w, inputs, plan, planWindow, evidence, window.expires, now);
      }
    }
    forall actor, evidence, window | EvidenceStands(w, inputs, plan, planWindow, document, actor, evidence, window, now)
      ensures validated.Some? && validated.value.1 == evidence
    {
      StandsIsValidated(w, inputs, plan, planWindow, document, actor, evidence, window, now);
    }
    hide Counts;
  }

  lemma HostPhases(results: Results)
    ensures HostPassed(results) ==> results.phase in ["candidate_ready", "active_readback"]
  {
  }

  // ---------- the whole request ----------

  /** The plan is the current one, open now, and names the signers' policies. */
  ghost predicate PlanStands(w: World, inputs: Inputs, document: Bytes, plan: Plan, window: Window, now: int) {
    && w.validatePlan(document) == Some((inputs.planDigest, plan)) && plan.schema == w.planSchema
    && plan.bindings.authority == inputs.authority && plan.bindings.policy == inputs.policy
    && plan.bindings.grantSet == inputs.grantSet && plan.bindings.workload == inputs.workload
    && "host_reconciler" in inputs.evidenceSigners && "consumer_capability_verifier" in inputs.evidenceSigners
    && inputs.evidenceSigners["host_reconciler"].identity != ""
    && inputs.evidenceSigners["host_reconciler"].policy == plan.hostPolicy
    && inputs.evidenceSigners["consumer_capability_verifier"].identity != ""
    && inputs.evidenceSigners["consumer_capability_verifier"].policy == plan.capabilityPolicy
    && inputs.authorizationSigner.identity != "" && inputs.authorizationSigner.policy == plan.authorizationPolicy
    && Open(w, plan.issuedAt, plan.expiresAt, window, now)
  }

  predicate InputsStand(inputs: Inputs) {
    && inputs.planDigest != "" && inputs.authority != "" && inputs.policy != "" && inputs.grantSet != ""
    && inputs.workload != "" && IsDigest(inputs.dispatch.request) && IsDigest(inputs.dispatch.receipt)
    && IsDigest(inputs.dispatch.checkProfile) && IsDigest(inputs.dispatch.decision)
  }

  /** The three documents, in some order, are one of each kind. */
  ghost predicate OneOfEach(
    w: World, inputs: Inputs, plan: Plan, window: Window, evidence: seq<Bytes>, now: int, a: nat, b: nat, c: nat)
  {
    && |evidence| == 3 && a < 3 && b < 3 && c < 3 && a != b && a != c && b != c
    && ReadyStands(w, inputs, plan, window, evidence[a], now)
    && ReadBackStands(w, inputs, plan, window, evidence[b], now)
    && CapabilityStands(w, inputs, plan, window, evidence[c], now)
  }

  ghost predicate Promotable(w: World, inputs: Inputs, request: Request, now: int) {
    && now != 0 && InputsStand(inputs)
    && exists plan, window, a: nat, b: nat, c: nat ::
         && PlanStands(w, inputs, request.plan, plan, window, now)
         && OneOfEach(w, inputs, plan, window, request.evidence, now, a, b, c)
  }

  lemma InputsMean(inputs: Inputs)
    ensures InputsOk(inputs) <==> InputsStand(inputs)
  {
  }

  lemma PlanMeans(w: World, inputs: Inputs, document: Bytes, plan: Plan, window: Window, now: int)
    ensures PlanStands(w, inputs, document, plan, window, now) <==>
      && CurrentPlan(w, inputs, document) == Some((inputs.planDigest, plan))
      && WindowOf(plan.issuedAt, plan.expiresAt, w) == Some(window) && Active(window, now)
  {
    hide Open, WindowOf, Active;
    OpenIsActive(w, plan.issuedAt, plan.expiresAt, window, now);
  }

  /** The documents that count, one of each kind, are what the loop over the evidence accepts. */
  lemma EvidenceIsOneOfEach(
    w: World, inputs: Inputs, plan: Plan, window: Window, evidence: seq<Bytes>, now: int)
    requires |evidence| == 3
    ensures EvidenceAccepted(w, inputs, plan, inputs.planDigest, window, evidence, now) <==>
      exists a: nat, b: nat, c: nat :: OneOfEach(w, inputs, plan, window, evidence, now, a, b, c)
  {
    forall k | 0 <= k < 3
      ensures Counts(w, inputs, plan, window, evidence[k], "candidate_ready", now) <==>
        ReadyStands(w, inputs, plan, window, evidence[k], now)
      ensures Counts(w, inputs, plan, window, evidence[k], "active_readback", now) <==>
        ReadBackStands(w, inputs, plan, window, evidence[k], now)
      ensures Counts(w, inputs, plan, window, evidence[k], VERIFIER, now) <==>
        CapabilityStands(w, inputs, plan, window, evidence[k], now)
    {
      ReadyMeans(w, inputs, plan, window, evidence[k], now);
      CapabilityRoleMeans(w, inputs, plan, window, evidence[k], now);
    }
    hide ReadyStands, ReadBackStands, CapabilityStands, Counts, Examined;
    if EvidenceAccepted(w, inputs, plan, inputs.planDigest, window, evidence, now) {
      var a, b, c := AcceptedRoles(w, inputs, plan, window, evidence, now);
      assert OneOfEach(w, inputs, plan, window, evidence, now, a, b, c);
    }
    if a: nat, b: nat, c: nat :| OneOfEach(w, inputs, plan, window, evidence, now, a, b, c) {
      RolesAccepted(w, inputs, plan, window, evidence, now, a, b, c);
    }
  }

  lemma AcceptedRoles(w: World, inputs: Inputs, plan: Plan, window: Window, evidence: seq<Bytes>, now: int)
    returns (a: nat, b: nat, c: nat)
    requires |evidence| == 3 && EvidenceAccepted(w, inputs, plan, inputs.planDigest, window, evidence, now)
    ensures a < 3 && b < 3 && c < 3 && a != b && a != c && b != c
    ensures Counts(w, inputs, plan, window, evidence[a], "candidate_ready", now)
    ensures Counts(w, inputs, plan, window, evidence[b], "active_readback", now)
    ensures Counts(w, inputs, plan, window, evidence[c], VERIFIER, now)
  {
    hide Examine, AllActive, NoRepeats, Roles, Examined, Counts;
    RolesDiffer();
    var all :| |all| == |evidence| && Examined(w, inputs, plan, inputs.planDigest, window, evidence, all, now)
      && NoRepeats(Roles(all));
    RolesAreComplete(w, inputs, plan, inputs.planDigest, window, evidence, all, now);
    a := PlaceOf(Roles(all), "candidate_ready");
    b := PlaceOf(Roles(all), "active_readback");
    c := PlaceOf(Roles(all), VERIFIER);
    FindingCounts(w, inputs, plan, window, evidence, all, now, a);
    FindingCounts(w, inputs, plan, window, evidence, all, now, b);
    FindingCounts(w, inputs, plan, window, evidence, all, now, c);
  }

  lemma FindingCounts(
    w: World, inputs: Inputs, plan: Plan, window: Window, evidence: seq<Bytes>, findings: seq<Finding>, now: int,
    k: nat)
    requires k < |findings| && Examined(w, inputs, plan, inputs.planDigest, window, evidence, findings, now)
    ensures Counts(w, inputs, plan, window, evidence[k], findings[k].role, now)
  {
    hide Examine, AllActive;
  }

  lemma RolesDiffer()
    ensures "candidate_ready" != "active_readback" && "candidate_ready" != VERIFIER && "active_readback" != VERIFIER
  {
    assert |"candidate_ready"| == 15 && |"active_readback"| == 15 && |VERIFIER| == 28;
    assert "candidate_ready"[0] != "active_readback"[0];
  }

  lemma PlaceOf(roles: seq<string>, role: string) returns (k: nat)
    requires role in roles
    ensures k < |roles| && roles[k] == role
  {
    k :| 0 <= k < |roles| && roles[k] == role;
  }

  lemma RolesAccepted(
    w: World, inputs: Inputs, plan: Plan, window: Window, evidence: seq<Bytes>, now: int, a: nat, b: nat, c: nat)
    requires |evidence| == 3 && a < 3 && b < 3 && c < 3 && a != b && a != c && b != c
    requires Counts(w, inputs, plan, window, evidence[a], "candidate_ready", now)
    requires Counts(w, inputs, plan, window, evidence[b], "active_readback", now)
    requires Counts(w, inputs, plan, window, evidence[c], VERIFIER, now)
    ensures EvidenceAccepted(w, inputs, plan, inputs.planDigest, window, evidence, now)
  {
    hide Examine, AllActive;
    RolesDiffer();
    var all := seq(3, k requires 0 <= k < 3 =>
      Examine(w, inputs, plan, inputs.planDigest, window, evidence[k]).value);
    forall k | 0 <= k < 3
      ensures Examine(w, inputs, plan, inputs.planDigest, window, evidence[k]) == Some(all[k])
      ensures AllActive(all[k].windows, now)
    {
      assert k == a || k == b || k == c;
    }
    assert Examined(w, inputs, plan, inputs.planDigest, window, evidence, all, now);
    assert NoRepeats(Roles(all));
  }

  /** Promotion is accepted exactly when plan, inputs and one document of each kind stand, check by check. */
  lemma PromotionMeans(w: World, inputs: Inputs, request: Request, now: int)
    ensures Accepts(w, inputs, request, now) <==> Promotable(w, inputs, request, now)
  {
    hide Accepts, CurrentPlan, WindowOf, Active, EvidenceAccepted, PlanStands, OneOfEach, InputsOk, InputsStand;
    AcceptsByParts(w, inputs, request, now);
    InputsMean(inputs);
    forall plan, window
      ensures PlanStands(w, inputs, request.plan, plan, window, now) <==>
        && CurrentPlan(w, inputs, request.plan) == Some((inputs.planDigest, plan))
        && WindowOf(plan.issuedAt, plan.expiresAt, w) == Some(window) && Active(window, now)
    {
      PlanMeans(w, inputs, request.plan, plan, window, now);
    }
    CurrentDigest(w, inputs, request.plan);
    forall plan, window | |request.evidence| == 3
      ensures EvidenceAccepted(w, inputs, plan, inputs.planDigest, window, request.evidence, now) <==>
        exists a: nat, b: nat, c: nat :: OneOfEach(w, inputs, plan, window, request.evidence, now, a, b, c)
    {
      EvidenceIsOneOfEach(w, inputs, plan, window, request.evidence, now);
    }
    forall plan, window, a: nat, b: nat, c: nat | OneOfEach(w, inputs, plan, window, request.evidence, now, a, b, c)
      ensures |request.evidence| == 3
    {
      ThreeDocuments(w, inputs, plan, window, request.evidence, now, a, b, c);
    }
  }

  lemma CurrentDigest(w: World, inputs: Inputs, document: Bytes)
    ensures CurrentPlan(w, inputs, document).Some? ==> CurrentPlan(w, inputs, document).value.0 == inputs.planDigest
  {
  }

  lemma ThreeDocuments(
    w: World, inputs: Inputs, plan: Plan, window: Window, evidence: seq<Bytes>, now: int, a: nat, b: nat, c: nat)
    requires OneOfEach(w, inputs, plan, window, evidence, now, a, b, c)
    ensures |evidence| == 3
  {
  }
}
