/**
 The target-wide switch journal of internal/hostreconciler/journal.go. Every transition runs under the
 journal's mutex, so a concurrent execution over many targets is a sequence of transitions.
 */
module SwitchJournal {
  import opened Foundation

  datatype Identity = Identity(release: string, graph: string, authorization: string, evidence: string)

  datatype SwitchState = Active | RecoveryRequired

  datatype Entry = Entry(target: string, state: SwitchState, identity: Identity, failed: Option<Identity>)

  datatype JournalError = RecoveryPending | FencedFailure | ReactivatesFailedRelease | NotInRecovery

  type Entries = map<string, Entry>

  // ---------- one transition ----------

  datatype Call =
    | Activate(target: string, identity: Identity)
    | MarkPostSwitchFailure(target: string, identity: Identity)
    | RecoverTo(target: string, identity: Identity)

  predicate InRecovery(entries: Entries, target: string) {
    target in entries && entries[target].state == RecoveryRequired
  }

  predicate ActiveAs(entries: Entries, target: string, identity: Identity) {
    target in entries && entries[target].state == Active && entries[target].identity == identity
  }

  /** Why a transition is refused. */
  function Refusal(entries: Entries, call: Call): Option<JournalError> {
    match call
    case Activate(target, _) => if InRecovery(entries, target) then Some(RecoveryPending) else None
    case MarkPostSwitchFailure(target, identity) =>
      if ActiveAs(entries, target, identity) then None else Some(FencedFailure)
    case RecoverTo(target, identity) =>
      if !InRecovery(entries, target) then Some(NotInRecovery)
      else if entries[target].failed.Some? && entries[target].failed.value.release == identity.release
        then Some(ReactivatesFailedRelease)
      else None
  }

  function Entered(call: Call): Entry {
    match call
    case MarkPostSwitchFailure(target, identity) => Entry(target, RecoveryRequired, identity, Some(identity))
    case _ => Entry(call.target, Active, call.identity, None)
  }

  function Step(entries: Entries, call: Call): Entries {
    if Refusal(entries, call).Some? then entries else entries[call.target := Entered(call)]
  }

  class Journal {
    var entries: Entries

    constructor ()
      ensures entries == map[]
    {
      entries := map[];
    }

    /** `Read`. */
    method Read(target: string) returns (r: Option<Entry>)
      ensures r == if target in entries then Some(entries[target]) else None
    {
      r := if target in entries then Some(entries[target]) else None;
    }

    /** `Activate`: replaying the active identity writes nothing and says so. */
    method ActivateTarget(target: string, identity: Identity) returns (r: Result<Entry, JournalError>, isNew: bool)
      requires forall t :: t in entries ==> Consistent(t, entries[t])
      modifies this
      ensures entries == Step(old(entries), Activate(target, identity))
      ensures r.Err? <==> target in old(entries) && old(entries)[target].state == RecoveryRequired
      ensures r.Ok? ==> entries == old(entries)[target := Entry(target, Active, identity, None)]
      ensures r.Err? ==> entries == old(entries)
      ensures r.Ok? ==> r.value == Entry(target, Active, identity, None) && (isNew <==> entries != old(entries))
      ensures r.Err? ==> r.error == RecoveryPending && !isNew
    {
      if target in entries && entries[target].state == RecoveryRequired {
        return Err(RecoveryPending), false;
      }
      if target in entries && entries[target].state == Active && entries[target].identity == identity {
        assert entries[target] == Entered(Activate(target, identity));
        assert entries[target := entries[target]] == entries;
        return Ok(entries[target]), false;
      }
      var entry := Entry(target, Active, identity, None);
      entries := entries[target := entry];
      assert target in old(entries) ==> entries[target] != old(entries)[target];
      return Ok(entry), true;
    }

    /** `MarkPostSwitchFailure`. */
    method MarkFailure(target: string, identity: Identity) returns (r: Result<Entry, JournalError>)
      modifies this
      ensures entries == Step(old(entries), MarkPostSwitchFailure(target, identity))
      ensures r.Ok? <==>
        target in old(entries) && old(entries)[target].state == Active && old(entries)[target].identity == identity
      ensures r.Ok? ==> r.value == Entry(target, RecoveryRequired, identity, Some(identity))
      ensures entries == if r.Ok? then old(entries)[target := r.value] else old(entries)
      ensures r.Err? ==> r.error == FencedFailure
    {
      if target !in entries || entries[target].state != Active || entries[target].identity != identity {
        return Err(FencedFailure);
      }
      var entry := Entry(target, RecoveryRequired, entries[target].identity, Some(identity));
      entries := entries[target := entry];
      return Ok(entry);
    }

    /** `RecoverTo`. */
    method Recover(target: string, identity: Identity) returns (r: Result<Entry, JournalError>)
      modifies this
      ensures entries == Step(old(entries), RecoverTo(target, identity))
      ensures r.Ok? <==>
        && target in old(entries) && old(entries)[target].state == RecoveryRequired
        && (old(entries)[target].failed.Some? ==> old(entries)[target].failed.value.release != identity.release)
      ensures r.Ok? ==> r.value == Entry(target, Active, identity, None)
      ensures entries == if r.Ok? then old(entries)[target := r.value] else old(entries)
      ensures r.Err? ==> Refusal(old(entries), RecoverTo(target, identity)) == Some(r.error)
    {
      if target !in entries || entries[target].state != RecoveryRequired {
        return Err(NotInRecovery);
      }
      if entries[target].failed.Some? && entries[target].failed.value.release == identity.release {
        return Err(ReactivatesFailedRelease);
      }
      var entry := Entry(target, Active, identity, None);
      entries := entries[target := entry];
      return Ok(entry);
    }
  }

  // ---------- runs over many targets ----------

  /** A recovery entry remembers exactly the identity that was active; an active entry remembers none. */
  predicate Consistent(target: string, entry: Entry) {
    entry.target == target && entry.failed == (if entry.state == RecoveryRequired then Some(entry.identity) else None)
  }

  /** The entries of a new journal after the first `n` calls. */
  function After(calls: seq<Call>, n: nat): Entries
    requires n <= |calls|
  {
    if n == 0 then map[] else Step(After(calls, n - 1), calls[n - 1])
  }

  lemma {:induction false} RunsStayConsistent(calls: seq<Call>, n: nat)
    requires n <= |calls|
    ensures forall t :: t in After(calls, n) ==> Consistent(t, After(calls, n)[t])
  {
    if n > 0 {
      RunsStayConsistent(calls, n - 1);
    }
  }

  /** The calls on one target, in order. */
  function On(calls: seq<Call>, target: string): seq<Call> {
    if calls == [] then []
    else On(calls[..|calls| - 1], target) + if calls[|calls| - 1].target == target then [calls[|calls| - 1]] else []
  }

  lemma {:induction false} AfterPrefix(calls: seq<Call>, more: seq<Call>, n: nat)
    requires n <= |calls|
    ensures After(calls + more, n) == After(calls, n)
    decreases n
  {
    if n > 0 {
      AfterPrefix(calls, more, n - 1);
    }
  }

  /** Targets do not influence each other: an entry is what the calls on its own target alone make it. */
  lemma {:induction false} TargetsAreIndependent(calls: seq<Call>, target: string)
    ensures var all, own := After(calls, |calls|), After(On(calls, target), |On(calls, target)|);
      (target in all <==> target in own) && (target in all ==> all[target] == own[target])
    decreases |calls|
  {
    if calls != [] {
      var n := |calls| - 1;
      var front, last := calls[..n], calls[n];
      assert calls == front + [last];
      TargetsAreIndependent(front, target);
      var own := On(front, target);
      AfterPrefix(front, [last], n);
      AfterPrefix(own, [last], |own|);
      assert After(calls, n + 1) == Step(After(front, n), last);
      assert After(own + [last], |own| + 1) == Step(After(own, |own|), last);
      assert On(calls, target) == if last.target == target then own + [last] else own;
      hide After, Step, On;
    }
  }

  /** Recovery ends only by `RecoverTo` with a release other than the one that failed. */
  lemma RecoveryEndsElsewhere(calls: seq<Call>, n: nat, target: string)
    requires n < |calls| && InRecovery(After(calls, n), target)
    ensures target in After(calls, n + 1)
    ensures After(calls, n + 1)[target] == After(calls, n)[target]
      || (calls[n].RecoverTo? && calls[n].target == target
          && After(calls, n + 1)[target].state == Active && After(calls, n + 1)[target].identity == calls[n].identity
          && calls[n].identity.release != After(calls, n)[target].identity.release)
  {
    RunsStayConsistent(calls, n);
    assert Consistent(target, After(calls, n)[target]);
  }

  lemma {:induction false} RecoveryLasts(calls: seq<Call>, i: nat, j: nat, target: string)
    requires i <= j <= |calls| && forall k :: i <= k <= j ==> InRecovery(After(calls, k), target)
    ensures target in After(calls, i) && target in After(calls, j)
    ensures After(calls, j)[target] == After(calls, i)[target]
    decreases j
  {
    if i < j {
      RecoveryLasts(calls, i, j - 1, target);
      RecoveryEndsElsewhere(calls, j - 1, target);
    }
  }

  /** Two active periods with only a recovery between them run different releases. */
  lemma PeriodsDiffer(calls: seq<Call>, i: nat, j: nat, target: string)
    requires i + 1 < j <= |calls|
    requires target in After(calls, i) && After(calls, i)[target].state == Active
    requires forall k :: i < k < j ==> InRecovery(After(calls, k), target)
    requires target in After(calls, j) && After(calls, j)[target].state == Active
    ensures After(calls, i)[target].identity.release != After(calls, j)[target].identity.release
  {
    assert InRecovery(After(calls, i + 1), target);
    assert After(calls, i + 1) == Step(After(calls, i), calls[i]);
    assert After(calls, i + 1)[target].identity == After(calls, i)[target].identity;
    RecoveryLasts(calls, i + 1, j - 1, target);
    RecoveryEndsElsewhere(calls, j - 1, target);
  }

  // ---------- releases that failed before ----------

  /** The releases whose failure on a target was recorded by the first `n` calls. */
  function FailedBefore(calls: seq<Call>, n: nat, target: string): set<string>
    requires n <= |calls|
  {
    if n == 0 then {}
    else
      var last := calls[n - 1];
      FailedBefore(calls, n - 1, target)
      + if last.MarkPostSwitchFailure? && last.target == target && Refusal(After(calls, n - 1), last).None?
        then {last.identity.release} else {}
  }

  /** Call `n` puts a release of the target in force that was not in force before the call. */
  predicate PutsInForce(calls: seq<Call>, n: nat, target: string, release: string)
    requires n < |calls|
  {
    && target in After(calls, n + 1) && After(calls, n + 1)[target].state == Active
    && After(calls, n + 1)[target].identity.release == release
    && !(target in After(calls, n) && After(calls, n)[target].state == Active
         && After(calls, n)[target].identity.release == release)
  }

  /**
   Exactly which calls bring a failed release back: an `Activate` outside recovery, or a `RecoverTo` that names
   an earlier failure than the one being recovered from. Only the latest failure is fenced off.
   */
  lemma ReactivationExact(calls: seq<Call>, n: nat, target: string, release: string)
    requires n < |calls| && release in FailedBefore(calls, n, target)
    ensures PutsInForce(calls, n, target, release) <==>
      && calls[n].target == target && calls[n].identity.release == release
      && ((calls[n].Activate? && target in After(calls, n) && After(calls, n)[target].state == Active
           && After(calls, n)[target].identity.release != release)
          || (calls[n].RecoverTo? && InRecovery(After(calls, n), target)
              && After(calls, n)[target].identity.release != release))
  {
    RunsStayConsistent(calls, n);
    FailedTargetsExist(calls, n, target);
  }

  lemma {:induction false} FailedTargetsExist(calls: seq<Call>, n: nat, target: string)
    requires n <= |calls|
    ensures FailedBefore(calls, n, target) != {} ==> target in After(calls, n)
    decreases n
  {
    if n > 0 {
      FailedTargetsExist(calls, n - 1, target);
    }
  }

  /** A release that failed can become active again: `RecoverTo` drops the failed identity. */
  lemma FailedReleaseReturns(target: string, a: Identity, b: Identity)
    requires a.release != b.release
    ensures var calls := [
        Activate(target, a), MarkPostSwitchFailure(target, a), RecoverTo(target, b), Activate(target, a)];
      a.release in FailedBefore(calls, 3, target) && PutsInForce(calls, 3, target, a.release)
  {
    var calls := [Activate(target, a), MarkPostSwitchFailure(target, a), RecoverTo(target, b), Activate(target, a)];
    assert After(calls, 1) == Step(After(calls, 0), calls[0]);
    assert After(calls, 2) == Step(After(calls, 1), calls[1]);
    assert After(calls, 3) == Step(After(calls, 2), calls[2]);
    assert FailedBefore(calls, 2, target) == FailedBefore(calls, 1, target) + {a.release};
  }
}
