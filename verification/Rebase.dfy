/**
 Three-way rebase of internal/operations/source_resolution.go: a patch accepted on the previous source
 is replayed on the proposed source while both working trees are compared before every operation.
 */
module Rebase {
  import opened Foundation
  import opened JsonPointer
  import opened JsonPatch

  /** `stableRebasePath`: the top-level member the pointer starts in is unchanged. */
  predicate Stable(previous: Json, proposed: Json, tokens: seq<Token>)
  {
    && tokens != [] && previous.Object? && proposed.Object?
    && (tokens[0] in previous.fields <==> tokens[0] in proposed.fields)
    && (tokens[0] in previous.fields ==> previous.fields[tokens[0]] == proposed.fields[tokens[0]])
  }

  /** The operation on the previous tree, then on the proposed one, each result within the limits. */
  function ApplyBoth(previous: Json, proposed: Json, tokens: seq<Token>, op: string, value: Json, rules: Rules)
    : Result<(Json, Json), PatchError>
  {
    var first := ApplyAt(previous, tokens, op, value);
    if first.Err? then Err(first.error)
    else if !rules.fits(first.value) then Err(ResourceLimit)
    else
      var second := ApplyAt(proposed, tokens, op, value);
      if second.Err? then Err(second.error)
      else if !rules.fits(second.value) then Err(ResourceLimit)
      else Ok((first.value, second.value))
  }

  /** One round of the loop: the new pair of working trees. */
  function RebaseStep(previous: Json, proposed: Json, operation: PatchOperation, rules: Rules)
    : Result<(Json, Json), PatchError>
  {
    var tokens := Parse(operation.path, rules.validToken);
    if tokens.Err? then Err(BadPointer(tokens.error))
    else if !Stable(previous, proposed, tokens.value) then Err(RebaseConflict)
    else
      var value := OperationValue(operation, rules);
      if value.Err? then Err(value.error)
      else ApplyBoth(previous, proposed, tokens.value, operation.op, value.value, rules)
  }

  function RebaseAll(previous: Json, proposed: Json, operations: seq<PatchOperation>, rules: Rules)
    : Result<Json, PatchError>
    decreases |operations|
  {
    if operations == [] then Ok(proposed)
    else
      var step := RebaseStep(previous, proposed, operations[0], rules);
      if step.Err? then Err(step.error) else RebaseAll(step.value.0, step.value.1, operations[1..], rules)
  }

  /** `RebaseJSONPatch`. */
  function RebasePatch(previous: Json, proposed: Json, patch: Patch, target: string, rules: Rules)
    : Result<Json, PatchError>
  {
    var refusal := CheckEnvelope(patch, target);
    if refusal.Some? then Err(refusal.value)
    else if !rules.fits(previous) || !rules.fits(proposed) then Err(ResourceLimit)
    else if !previous.Object? || !proposed.Object? then Err(RootNotObject)
    else RebaseAll(previous, proposed, patch.operations, rules)
  }

  // ---------- what the caller sees ----------

  /** The top-level members a patch mentions. */
  ghost predicate Mentions(operations: seq<PatchOperation>, rules: Rules, key: Token) {
    exists i :: 0 <= i < |operations| && MentionedBy(operations[i], rules, key)
  }

  predicate MentionedBy(operation: PatchOperation, rules: Rules, key: Token) {
    var tokens := Parse(operation.path, rules.validToken);
    tokens.Ok? && tokens.value != [] && tokens.value[0] == key
  }

  /** The one comparison that could be made before anything is applied. */
  ghost predicate Agree(previous: Json, proposed: Json, operations: seq<PatchOperation>, rules: Rules)
    requires previous.Object? && proposed.Object?
  {
    forall key :: Mentions(operations, rules, key) ==> SameAt(previous.fields, proposed.fields, key)
  }

  /** The same rules without limits on the documents. */
  function Unlimited(rules: Rules): Rules {
    rules.(fits := (value: Json) => true)
  }

  /** Every intermediate result of the unlimited application is within the limits. */
  ghost predicate IntermediatesFit(document: Json, operations: seq<PatchOperation>, rules: Rules) {
    forall n: nat :: n <= |operations| ==>
      var partial := ApplyAll(document, operations[..n], Unlimited(rules));
      partial.Ok? ==> rules.fits(partial.value)
  }

  // ---------- limits are the only difference between limited and unlimited application ----------

  lemma {:induction false} ApplyAllLimits(document: Json, operations: seq<PatchOperation>, rules: Rules)
    requires rules.fits(document)
    ensures ApplyAll(document, operations, rules).Ok? <==>
      ApplyAll(document, operations, Unlimited(rules)).Ok? && IntermediatesFit(document, operations, rules)
    ensures ApplyAll(document, operations, rules).Ok? ==>
      ApplyAll(document, operations, rules) == ApplyAll(document, operations, Unlimited(rules))
    decreases |operations|
  {
    if operations == [] {
      assert forall n: nat :: n <= |operations| ==> operations[..n] == [];
    } else {
      var free := Unlimited(rules);
      var step := ApplyStep(document, operations[0], free);
      var rest := operations[1..];
      if step.Ok? {
        forall n: nat | n <= |rest|
          ensures ApplyAll(document, operations[..n + 1], free) == ApplyAll(step.value, rest[..n], free)
        {
          assert operations[..n + 1][1..] == rest[..n];
        }
        assert ApplyAll(document, operations[..1], free) == step by {
          assert rest[..0] == [];
        }
        if rules.fits(step.value) {
          ApplyAllLimits(step.value, rest, rules);
          IntermediatesUnfold(document, operations, rules);
        }
      }
    }
  }

  lemma IntermediatesUnfold(document: Json, operations: seq<PatchOperation>, rules: Rules)
    requires operations != [] && rules.fits(document)
    requires ApplyStep(document, operations[0], Unlimited(rules)).Ok?
    ensures IntermediatesFit(document, operations, rules) <==>
      IntermediatesFit(ApplyStep(document, operations[0], Unlimited(rules)).value, operations[1..], rules)
  {
    var free := Unlimited(rules);
    var next := ApplyStep(document, operations[0], free).value;
    var rest := operations[1..];
    if IntermediatesFit(document, operations, rules) {
      forall n: nat | n <= |rest| && ApplyAll(next, rest[..n], free).Ok?
        ensures rules.fits(ApplyAll(next, rest[..n], free).value)
      {
        assert operations[..n + 1][1..] == rest[..n];
        assert ApplyAll(document, operations[..n + 1], free) == ApplyAll(next, rest[..n], free);
      }
    }
    if IntermediatesFit(next, rest, rules) {
      forall n: nat | n <= |operations| && ApplyAll(document, operations[..n], free).Ok?
        ensures rules.fits(ApplyAll(document, operations[..n], free).value)
      {
        if n == 0 {
          assert operations[..0] == [];
        } else {
          assert operations[..n][1..] == rest[..n - 1];
          assert ApplyAll(document, operations[..n], free) == ApplyAll(next, rest[..n - 1], free);
        }
      }
    }
  }

  // ---------- the diamond ----------

  lemma MentionsUnfold(operations: seq<PatchOperation>, rules: Rules, key: Token)
    requires operations != []
    ensures Mentions(operations, rules, key) <==>
      MentionedBy(operations[0], rules, key) || Mentions(operations[1..], rules, key)
  {
    if Mentions(operations, rules, key) && !MentionedBy(operations[0], rules, key) {
      var i :| 0 <= i < |operations| && MentionedBy(operations[i], rules, key);
      assert operations[1..][i - 1] == operations[i];
    }
    if Mentions(operations[1..], rules, key) {
      var i :| 0 <= i < |operations[1..]| && MentionedBy(operations[1..][i], rules, key);
      assert operations[i + 1] == operations[1..][i];
    }
  }

  lemma AgreeUnfold(previous: Json, proposed: Json, operations: seq<PatchOperation>, rules: Rules)
    requires previous.Object? && proposed.Object? && operations != []
    requires RebaseStep(previous, proposed, operations[0], rules).Ok?
    ensures var (a, b) := RebaseStep(previous, proposed, operations[0], rules).value;
      && a.Object? && b.Object?
      && (Agree(a, b, operations[1..], rules) <==> Agree(previous, proposed, operations, rules))
  {
    var (a, b) := RebaseStep(previous, proposed, operations[0], rules).value;
    forall key
      ensures Mentions(operations, rules, key) <==>
        MentionedBy(operations[0], rules, key) || Mentions(operations[1..], rules, key)
      ensures SameAt(a.fields, b.fields, key) <==> SameAt(previous.fields, proposed.fields, key)
      ensures MentionedBy(operations[0], rules, key) ==> SameAt(a.fields, b.fields, key)
    {
      MentionsUnfold(operations, rules, key);
    }
  }

  /** If the step is stable and applies to both sides it is taken; if one of these fails it is not. */
  lemma StepExact(previous: Json, proposed: Json, operations: seq<PatchOperation>, rules: Rules)
    requires previous.Object? && proposed.Object? && operations != []
    ensures RebaseStep(previous, proposed, operations[0], rules).Ok? <==>
      && ApplyStep(previous, operations[0], rules).Ok? && ApplyStep(proposed, operations[0], rules).Ok?
      && forall key :: MentionedBy(operations[0], rules, key) ==> SameAt(previous.fields, proposed.fields, key)
  {
    var tokens := Parse(operations[0].path, rules.validToken);
    if tokens.Ok? {
      ParseInvertsPrint(operations[0].path, tokens.value, rules.validToken);
      assert MentionedBy(operations[0], rules, tokens.value[0]);
    }
  }

  /** The stepwise comparison is the upfront one, and the result is the patch applied to the proposed source. */
  lemma {:induction false} RebaseAllExact(previous: Json, proposed: Json, operations: seq<PatchOperation>, rules: Rules)
    requires previous.Object? && proposed.Object?
    ensures RebaseAll(previous, proposed, operations, rules).Ok? <==>
      && ApplyAll(previous, operations, rules).Ok? && ApplyAll(proposed, operations, rules).Ok?
      && Agree(previous, proposed, operations, rules)
    ensures RebaseAll(previous, proposed, operations, rules).Ok? ==>
      RebaseAll(previous, proposed, operations, rules) == ApplyAll(proposed, operations, rules)
    decreases |operations|
  {
    if operations != [] {
      var rest := operations[1..];
      StepExact(previous, proposed, operations, rules);
      var step := RebaseStep(previous, proposed, operations[0], rules);
      if step.Ok? {
        AgreeUnfold(previous, proposed, operations, rules);
        RebaseAllExact(step.value.0, step.value.1, rest, rules);
      } else if Agree(previous, proposed, operations, rules) {
        forall key | MentionedBy(operations[0], rules, key)
          ensures SameAt(previous.fields, proposed.fields, key)
        {
          MentionsUnfold(operations, rules, key);
        }
      }
    }
  }

  /** The merged document: mentioned members come from the patched previous source, the rest from the proposal. */
  lemma {:induction false} MergedMembers(
    previous: Json, proposed: Json, operations: seq<PatchOperation>, rules: Rules, key: Token)
    requires previous.Object? && proposed.Object? && RebaseAll(previous, proposed, operations, rules).Ok?
    ensures ApplyAll(previous, operations, rules).Ok?
    ensures var merged := RebaseAll(previous, proposed, operations, rules).value;
      var patched := ApplyAll(previous, operations, rules).value;
      && merged.Object? && patched.Object?
      && (SameAt(previous.fields, proposed.fields, key) ==> SameAt(merged.fields, patched.fields, key))
      && (Mentions(operations, rules, key) ==> SameAt(merged.fields, patched.fields, key))
      && (!Mentions(operations, rules, key) ==> SameAt(merged.fields, proposed.fields, key))
    decreases |operations|
  {
    if operations != [] {
      var step := RebaseStep(previous, proposed, operations[0], rules);
      MentionsUnfold(operations, rules, key);
      MergedMembers(step.value.0, step.value.1, operations[1..], rules, key);
    }
  }

  /** An edit of one member on both sides, the same on both, keeps the two agreeing on what is still to come. */
  lemma AgreementGoesOn(
    previous: Json, proposed: Json, a: Json, b: Json, operations: seq<PatchOperation>, rules: Rules, edited: Token)
    requires previous.Object? && proposed.Object? && a.Object? && b.Object? && operations != []
    requires Agree(previous, proposed, operations, rules) && SameAt(a.fields, b.fields, edited)
    requires forall key :: key != edited ==>
      SameAt(a.fields, previous.fields, key) && SameAt(b.fields, proposed.fields, key)
    ensures Agree(a, b, operations[1..], rules)
  {
    forall key | Mentions(operations[1..], rules, key)
      ensures SameAt(a.fields, b.fields, key)
    {
      MentionsUnfold(operations, rules, key);
      assert key != edited ==>
        SameAt(a.fields, previous.fields, key) && SameAt(b.fields, proposed.fields, key);
    }
  }

  /** Applying to the proposal is implied by applying to the previous source and agreeing on what is touched. */
  lemma {:induction false} AppliesToProposal(
    previous: Json, proposed: Json, operations: seq<PatchOperation>, rules: Rules)
    requires previous.Object? && proposed.Object? && Agree(previous, proposed, operations, rules)
    requires ApplyAll(previous, operations, Unlimited(rules)).Ok?
    ensures ApplyAll(proposed, operations, Unlimited(rules)).Ok?
    decreases |operations|
  {
    if operations != [] {
      var free := Unlimited(rules);
      var operation := operations[0];
      var tokens := Parse(operation.path, rules.validToken).value;
      ParseInvertsPrint(operation.path, tokens, rules.validToken);
      assert MentionedBy(operation, rules, tokens[0]);
      MentionsUnfold(operations, rules, tokens[0]);
      RootLocality(previous, proposed, tokens, operation.op, OperationValue(operation, free).value);
      var step := RebaseStep(previous, proposed, operation, free);
      assert step.Ok?;
      AgreementGoesOn(previous, proposed, step.value.0, step.value.1, operations, rules, tokens[0]);
      AppliesToProposal(step.value.0, step.value.1, operations[1..], rules);
    }
  }

  /**
   The commuting diamond, as a caller can decide it before the call: the rebase succeeds exactly when
   both sources are admissible objects, the patch applies to the previous one, the two agree on every
   member the patch mentions, and the intermediate proposed documents stay within the resource limits.
   The result is the patch applied to the proposal.
   */
  lemma RebaseDiamond(previous: Json, proposed: Json, patch: Patch, target: string, rules: Rules)
    ensures RebasePatch(previous, proposed, patch, target, rules).Ok? <==>
      && previous.Object? && proposed.Object? && rules.fits(proposed)
      && ApplyPatch(previous, patch, target, rules).Ok?
      && Agree(previous, proposed, patch.operations, rules)
      && IntermediatesFit(proposed, patch.operations, rules)
    ensures RebasePatch(previous, proposed, patch, target, rules).Ok? ==>
      RebasePatch(previous, proposed, patch, target, rules) == ApplyPatch(proposed, patch, target, rules)
  {
    if previous.Object? && proposed.Object? && rules.fits(previous) && rules.fits(proposed) {
      var operations := patch.operations;
      RebaseAllExact(previous, proposed, operations, rules);
      ApplyAllLimits(previous, operations, rules);
      ApplyAllLimits(proposed, operations, rules);
      if ApplyAll(previous, operations, rules).Ok? && Agree(previous, proposed, operations, rules) {
        AppliesToProposal(previous, proposed, operations, rules);
      }
    }
  }

  // ---------- a refusal that only an intermediate document causes ----------

  /** Limits that admit objects of at most one member. */
  function OneMember(): Rules {
    Rules((token: Token) => true, (json: Json) => true, (json: Json) => json.Object? ==> |json.fields| <= 1)
  }

  /** Adds a member and removes it again. */
  function Passing(y: Token): seq<PatchOperation> {
    [
      PatchOperation("add", PrintPointer([y]), Encoded(Null)),
      PatchOperation("remove", PrintPointer([y]), Absent)]
  }

  lemma PassingSteps(document: Json, y: Token, rules: Rules)
    requires document.Object? && y !in document.fields && rules.fits(document) && rules.fitsOperand(Null)
    requires Parse(PrintPointer([y]), rules.validToken) == Ok([y])
    ensures var larger := Object(document.fields[y := Null]);
      rules.fits(larger) ==>
        && ApplyAll(document, Passing(y)[..1], rules) == Ok(larger)
        && ApplyAll(document, Passing(y), rules) == Ok(document)
  {
    hide Parse, PrintPointer;
    var larger := Object(document.fields[y := Null]);
    if rules.fits(larger) {
      assert larger.fields - {y} == document.fields;
      assert ApplyStep(document, Passing(y)[0], rules) == Ok(larger);
      assert ApplyStep(larger, Passing(y)[1], rules) == Ok(document);
      hide ApplyStep;
      var adding, removing := Passing(y)[..1], Passing(y)[1..];
      assert adding[0] == Passing(y)[0] && adding[1..] == [];
      assert removing[0] == Passing(y)[1] && removing[1..] == [];
      assert ApplyAll(larger, removing, rules) == ApplyAll(document, removing[1..], rules) == Ok(document);
      assert ApplyAll(document, Passing(y), rules) == ApplyAll(larger, removing, rules);
    }
  }

  /**
   Every other condition of the diamond can hold, and the merged document be admissible, while an intermediate
   proposed document is not: adding and removing a member passes through a document that is too large.
   */
  lemma IntermediateCanBeRefused(target: string, x: Token, y: Token)
    requires target in TARGETS && x != y && |PrintPointer([y])| <= MAX_POINTER_BYTES
    ensures var rules, previous, proposed := OneMember(), Object(map[]), Object(map[x := Null]);
      && rules.fits(proposed) && ApplyPatch(previous, Patch(PROFILE, Passing(y)), target, rules).Ok?
      && Agree(previous, proposed, Passing(y), rules)
      && ApplyAll(proposed, Passing(y), Unlimited(rules)) == Ok(proposed)
      && !IntermediatesFit(proposed, Passing(y), rules)
      && RebasePatch(previous, proposed, Patch(PROFILE, Passing(y)), target, rules).Err?
  {
    var rules, previous, proposed := OneMember(), Object(map[]), Object(map[x := Null]);
    ParseInvertsPrint(PrintPointer([y]), [y], rules.validToken);
    hide Parse, PrintPointer;
    PassingSteps(previous, y, rules);
    PassingSteps(proposed, y, Unlimited(rules));
    assert |map[x := Null][y := Null]| == 2;
    var first := ApplyAll(proposed, Passing(y)[..1], Unlimited(rules));
    assert first.Ok? && !rules.fits(first.value);
    assert Agree(previous, proposed, Passing(y), rules) by {
      assert forall i, key :: 0 <= i < 2 && MentionedBy(Passing(y)[i], rules, key) ==> key == y;
    }
    hide ApplyAll, RebasePatch, Agree;
    RebaseDiamond(previous, proposed, Patch(PROFILE, Passing(y)), target, rules);
  }
}
