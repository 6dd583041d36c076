/** The audit envelope: a metadata-free projection of the ledger with its own validator and payload form. */
module Audit {
  import opened Wrappers
  import opened Values
  import opened Ledger

  /** SHA-256 (of canonical JSON, and of a goal text) and ISO-8601 text, as arbitrary functions. */
  datatype Codec = Codec(
    digestOf: Json -> string, goalDigestOf: string -> string,
    timeText: int -> string, parseTime: string -> Option<int>)
  {
    ghost predicate Sound() {
      && (forall p :: IsDigest(digestOf(p)))
      && (forall g :: IsDigest(goalDigestOf(g)))
      && (forall t :: parseTime(timeText(t)) == Some(t))
    }
  }

  /** The hypotheses about codecs can be met. */
  lemma SoundCodecsExist()
    ensures exists codec: Codec :: codec.Sound()
  {
    var zeros := seq(64, _ => '0');
    var codec := Codec(
      _ => zeros, _ => zeros, t => if t >= 0 then seq(t, _ => '+') else seq(-t, _ => '-'),
      s => if s != "" && s[0] == '-' then Some(-|s|) else Some(|s|));
    assert IsDigest(zeros);
    assert codec.Sound();
  }

  /** A lowercase hexadecimal SHA-256 digest. */
  predicate IsDigest(s: string) {
    |s| == 64 && forall c :: c in s ==> '0' <= c <= '9' || 'a' <= c <= 'f'
  }

  lemma DigestsExactly(s: string)
    ensures IsDigest(s) <==> |s| == 64 && forall c :: c in s ==> c in "0123456789abcdef"
  {}

  datatype AuditError = AuditIntegrity

  datatype Disposition = Terminal | Interrupted

  datatype AuditEvidence = AuditEvidence(kind: EvidenceKind, referenceId: string, digest: Json) {
    /** What its constructor enforces: a name, and a real digest or anything that counts as none. */
    predicate Valid() { !IsBlank(referenceId) && (digest.IsFalsy() || (digest.JString? && IsDigest(digest.text))) }
  }

  /** Audit records only hold timezone-aware instants. */
  datatype AuditRecord = AuditRecord(
    sequence: int, iteration: int, fromState: State, toState: State,
    occurredAt: int, reason: Option<StopReason>, evidence: seq<AuditEvidence>)
  {
    predicate Valid() { sequence >= 1 && iteration >= 0 && forall e :: e in evidence ==> e.Valid() }
  }

  datatype Envelope = Envelope(
    schemaVersion: string, executionId: string, runId: string, goalDigest: string, disposition: Disposition,
    state: State, iteration: int, budget: Budget, history: seq<AuditRecord>, evidence: seq<AuditEvidence>,
    recordDigest: string)

  const SCHEMA_VERSION := "1.0"

  /** The running counters of the audit-side validator. */
  datatype AuditScan = AuditScan(
    sequence: int, state: State, iteration: int, mutations: int, verifications: int, flattened: seq<AuditEvidence>)

  const AUDIT_START := AuditScan(1, Created, 0, 0, 0, [])

  function AuditTurn(s: AuditScan, r: AuditRecord): Option<AuditScan> {
    var iteration := if r.toState.ContextAssembling? then s.iteration + 1 else s.iteration;
    if r.sequence != s.sequence || r.fromState != s.state || r.toState !in LegalTargets(r.fromState) then None
    else if r.iteration != iteration then None
    else Some(AuditScan(
        s.sequence + 1, r.toState, iteration,
        s.mutations + if r.toState.Mutating? then 1 else 0,
        s.verifications + if r.toState.Verifying? then 1 else 0,
        s.flattened + r.evidence))
  }

  function AuditHistory(history: seq<AuditRecord>): Option<AuditScan> {
    if history == [] then Some(AUDIT_START) else
      var before := AuditHistory(history[..|history| - 1]);
      if before.None? then None else AuditTurn(before.value, history[|history| - 1])
  }

  /** The checks after the loop. */
  predicate TotalsHold(e: Envelope, s: AuditScan) {
    && s.state == e.state && s.iteration == e.iteration && e.iteration == e.budget.iterationsUsed
    && s.mutations == e.budget.mutationsUsed && s.verifications == e.budget.verificationsUsed
    && s.flattened == e.evidence
    && (e.disposition.Terminal? <==> e.state.IsTerminal())
  }

  /** The envelope's structural checks: the history replayed against the envelope's own fields. */
  predicate StructureHolds(e: Envelope) {
    e.history != [] && AuditHistory(e.history).Some? && TotalsHold(e, AuditHistory(e.history).value)
  }

  lemma {:induction false} AuditStopsAtFirstError(history: seq<AuditRecord>, i: nat)
    requires i <= |history| && AuditHistory(history[..i]).None?
    ensures AuditHistory(history).None?
    decreases |history|
  {
    if i == |history| {
      assert history[..i] == history;
    } else {
      assert history[..|history| - 1][..i] == history[..i];
      AuditStopsAtFirstError(history[..|history| - 1], i);
    }
  }

  /** Where the replay stands after the first `i` records. */
  function AuditBefore(e: Envelope, i: nat): Option<AuditScan>
    requires i <= |e.history|
  {
    AuditHistory(e.history[..i])
  }

  /** The replay of a history follows the loop, turn by turn, and ends at the first failing one. */
  lemma AuditNextTurn(e: Envelope, i: nat)
    requires i < |e.history| && AuditBefore(e, i).Some?
    ensures var turn := AuditTurn(AuditBefore(e, i).value, e.history[i]);
            AuditBefore(e, i + 1) == turn && (turn.None? ==> !StructureHolds(e))
  {
    assert e.history[..i + 1][..i] == e.history[..i];
    if AuditBefore(e, i + 1).None? { AuditStopsAtFirstError(e.history, i + 1); }
  }

  /** The audit-side validation loop. */
  method ValidateStructure(e: Envelope) returns (ok: bool)
    ensures ok == StructureHolds(e)
  {
    if e.history == [] {
      return false;
    }
    var expectedSequence, expectedState, expectedIteration := 1, Created, 0;
    var flattened: seq<AuditEvidence> := [];
    var mutationEntries, verificationEntries := 0, 0;
    assert AuditBefore(e, 0) == Some(AUDIT_START) && e.history[..|e.history|] == e.history;
    assert AuditBefore(e, |e.history|).Some? ==> StructureHolds(e) == TotalsHold(e, AuditBefore(e, |e.history|).value);
    hide AuditBefore, AuditHistory, StructureHolds, LegalTargets, TotalsHold, State.IsTerminal;
    for i := 0 to |e.history|
      invariant AuditBefore(e, i) == Some(AuditScan(
                  expectedSequence, expectedState, expectedIteration, mutationEntries, verificationEntries, flattened))
    {
      var record := e.history[i];
      AuditNextTurn(e, i);
      if record.sequence != expectedSequence {
        return false;
      }
      if record.fromState != expectedState {
        return false;
      }
      if record.toState !in LegalTargets(record.fromState) {
        return false;
      }
      if record.toState.ContextAssembling? {
        expectedIteration := expectedIteration + 1;
      }
      if record.iteration != expectedIteration {
        return false;
      }
      assert AuditBefore(e, i + 1) == Some(AuditScan(
          expectedSequence + 1, record.toState, expectedIteration,
          mutationEntries + (if record.toState.Mutating? then 1 else 0),
          verificationEntries + (if record.toState.Verifying? then 1 else 0), flattened + record.evidence));
      hide AuditTurn;
      if record.toState.Mutating? {
        mutationEntries := mutationEntries + 1;
      }
      if record.toState.Verifying? {
        verificationEntries := verificationEntries + 1;
      }
      flattened := flattened + record.evidence;
      expectedSequence := expectedSequence + 1;
      expectedState := record.toState;
    }
    ok := TotalsHold(e, AuditScan(
      expectedSequence, expectedState, expectedIteration, mutationEntries, verificationEntries, flattened));
  }
}
