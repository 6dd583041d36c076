/** From ledger to audit envelope and back: the two validators accept the same executions. */
module AuditProjection {
  import opened Wrappers
  import opened Values
  import opened Ledger
  import opened LedgerRuns
  import opened LedgerInvariants
  import opened Audit
  import opened AuditPayload

  function ProjectEvidence(e: Evidence): AuditEvidence { AuditEvidence(e.kind, e.referenceId, e.digest) }

  function ProjectAll(es: seq<Evidence>): seq<AuditEvidence> {
    seq(|es|, i requires 0 <= i < |es| => ProjectEvidence(es[i]))
  }

  function ProjectRecord(r: Record): AuditRecord {
    AuditRecord(r.sequence, r.iteration, r.fromState, r.toState, r.occurredAt.ticks, r.reason, ProjectAll(r.evidence))
  }

  function ProjectHistory(history: seq<Record>): seq<AuditRecord> {
    seq(|history|, i requires 0 <= i < |history| => ProjectRecord(history[i]))
  }

  function Flattened(history: seq<AuditRecord>): seq<AuditEvidence> {
    if history == [] then [] else Flattened(history[..|history| - 1]) + history[|history| - 1].evidence
  }

  predicate EvidenceWellFormed(history: seq<Record>) {
    forall r, e :: r in history && e in r.evidence ==> ProjectEvidence(e).Valid()
  }

  /** The envelope `FromContext` assembles before its constructor checks it. */
  function Draft(codec: Codec, c: Context, disposition: Option<Disposition>): Envelope {
    var resolved := if disposition.Some? then disposition.value
          else if c.state.IsTerminal() then Terminal else Interrupted;
    var history := ProjectHistory(c.history);
    var draft := Envelope(SCHEMA_VERSION, c.executionId, c.runId, codec.goalDigestOf(c.goal), resolved, c.state,
                          c.iteration, c.budget, history, Flattened(history), "");
    draft.(recordDigest := codec.digestOf(PayloadWithoutDigest(codec, draft)))
  }

  /** Projects a context; naive timestamps and malformed digests fail in the record constructors. */
  function FromContext(codec: Codec, c: Context, disposition: Option<Disposition>): Result<Envelope, AuditError> {
    if !StampedAware(c.history) || !EvidenceWellFormed(c.history) then Failure(AuditIntegrity)
    else if ValidEnvelope(codec, Draft(codec, c, disposition)) then Result.Success(Draft(codec, c, disposition))
    else Failure(AuditIntegrity)
  }

  function ProjectScan(s: Scan, sequence: int): AuditScan {
    AuditScan(sequence, s.state, s.iteration, s.mutations, s.verifications, ProjectAll(s.evidence))
  }

  lemma TurnsAgree(s: Scan, sequence: int, r: Record)
    requires ScanRecord(s, sequence, r).Success?
    ensures AuditTurn(ProjectScan(s, sequence), ProjectRecord(r)) ==
            Some(ProjectScan(ScanRecord(s, sequence, r).value, sequence + 1))
    ensures ScanRecord(s, sequence, r).value.evidence == s.evidence + r.evidence
    ensures ProjectAll(s.evidence + r.evidence) == ProjectAll(s.evidence) + ProjectAll(r.evidence)
  {
    assert ProjectAll(s.evidence + r.evidence) == ProjectAll(s.evidence) + ProjectAll(r.evidence);
    hide LegalTargets, CheckStopReason;
  }

  /** Wherever the ledger's validator succeeds, the audit validator follows it step by step. */
  lemma {:induction false} ValidatorsAgree(history: seq<Record>)
    requires ScanHistory(history).Success?
    ensures AuditHistory(ProjectHistory(history)) == Some(ProjectScan(ScanHistory(history).value, |history| + 1))
    ensures Flattened(ProjectHistory(history)) == ProjectAll(ScanHistory(history).value.evidence)
  {
    if history != [] {
      var front, last := history[..|history| - 1], history[|history| - 1];
      ValidatorsAgree(front);
      assert ProjectHistory(history)[..|history| - 1] == ProjectHistory(front);
      TurnsAgree(ScanHistory(front).value, |history|, last);
      hide ScanRecord, AuditTurn, ProjectAll;
    } else {
      assert ProjectHistory(history) == [] && ProjectAll([]) == [];
    }
  }

  lemma {:induction false} SequencesArePositive(history: seq<Record>, i: nat)
    requires ScanHistory(history).Success? && i < |history|
    ensures history[i].sequence == i + 1 && history[i].iteration >= 0
    decreases |history|
  {
    var front := history[..|history| - 1];
    if i < |front| {
      SequencesArePositive(front, i);
      assert front[i] == history[i];
    } else {
      CountsAreNonnegative(front);
    }
  }

  lemma {:induction false} FlattenedIsFromRecords(history: seq<AuditRecord>)
    requires forall r :: r in history ==> r.Valid()
    ensures forall e :: e in Flattened(history) ==> e.Valid()
  {
    if history != [] {
      assert history[|history| - 1] in history;
      FlattenedIsFromRecords(history[..|history| - 1]);
    }
  }

  lemma ProjectedRecordsAreValid(c: Context)
    requires Valid(c) && EvidenceWellFormed(c.history)
    ensures forall r :: r in ProjectHistory(c.history) ==> r.Valid()
  {
    ScanMatchesFields(c);
    forall a | a in ProjectHistory(c.history) ensures a.Valid() {
      var i :| 0 <= i < |c.history| && a == ProjectRecord(c.history[i]);
      SequencesArePositive(c.history, i);
      forall e | e in a.evidence ensures e.Valid() {
        var j :| 0 <= j < |c.history[i].evidence| && e == ProjectEvidence(c.history[i].evidence[j]);
        assert c.history[i] in c.history && c.history[i].evidence[j] in c.history[i].evidence;
      }
    }
  }

  lemma ProjectionHolds(codec: Codec, c: Context, disposition: Option<Disposition>)
    requires Valid(c) && c.history != []
    ensures var d := Draft(codec, c, disposition);
            StructureHolds(d) <==> (d.disposition.Terminal? <==> c.state.IsTerminal())
  {
    ScanMatchesFields(c);
    ValidatorsAgree(c.history);
  }

  /** Exactly when a valid context has an audit envelope. */
  lemma ProjectionSucceedsExactly(codec: Codec, c: Context, disposition: Option<Disposition>)
    requires codec.Sound() && Valid(c)
    ensures FromContext(codec, c, disposition).Success? <==>
              && c.history != [] && StampedAware(c.history) && EvidenceWellFormed(c.history)
              && (disposition.Some? ==> (disposition.value.Terminal? <==> c.state.IsTerminal()))
  {
    if c.history != [] && EvidenceWellFormed(c.history) {
      ScanMatchesFields(c);
      CountersStayInStep(c);
      ProjectionHolds(codec, c, disposition);
      ProjectedRecordsAreValid(c);
      FlattenedIsFromRecords(ProjectHistory(c.history));
      DraftDigest(codec, c, disposition);
      hide StructureHolds, ScanHistory, PayloadWithoutDigest, IsDigest, HistoryError;
    }
  }

  /** The record digest is taken over fields it is not part of. */
  lemma DraftDigest(codec: Codec, c: Context, disposition: Option<Disposition>)
    requires codec.Sound()
    ensures var d := Draft(codec, c, disposition);
            && d.recordDigest == codec.digestOf(PayloadWithoutDigest(codec, d))
            && IsDigest(d.recordDigest) && IsDigest(d.goalDigest)
  {
    hide IsDigest;
  }

  function LiftEvidence(es: seq<AuditEvidence>): seq<Evidence> {
    seq(|es|, i requires 0 <= i < |es| => Evidence(es[i].kind, es[i].referenceId, es[i].digest, ""))
  }

  function LiftRecord(r: AuditRecord): Record {
    Record(r.sequence, r.iteration, r.fromState, r.toState, Aware(r.occurredAt), r.reason, LiftEvidence(r.evidence))
  }

  function LiftHistory(history: seq<AuditRecord>): seq<Record> {
    seq(|history|, i requires 0 <= i < |history| => LiftRecord(history[i]))
  }

  /** A context the envelope could have been taken from. */
  function LiftContext(e: Envelope, goal: string): Context {
    var reason := if e.state.IsTerminal() && e.history != [] then e.history[|e.history| - 1].reason else None;
    Context(e.executionId, e.runId, goal, e.state, e.iteration, e.budget,
            LiftHistory(e.history), LiftEvidence(e.evidence), reason, "")
  }

  /** The one check the audit validator leaves out: the terminal reason contract. */
  predicate ReasonsFit(history: seq<AuditRecord>) { forall r :: r in history ==> ReasonFits(r.toState, r.reason) }

  function LiftScan(s: AuditScan): Scan {
    Scan(s.state, s.iteration, s.mutations, s.verifications, LiftEvidence(s.flattened))
  }

  lemma LiftedTurn(s: AuditScan, r: AuditRecord)
    requires AuditTurn(s, r).Some? && ReasonFits(r.toState, r.reason)
    ensures ScanRecord(LiftScan(s), s.sequence, LiftRecord(r)) == Result.Success(LiftScan(AuditTurn(s, r).value))
    ensures AuditTurn(s, r).value.sequence == s.sequence + 1
    ensures AuditTurn(s, r).value.flattened == s.flattened + r.evidence
  {
    assert LiftEvidence(s.flattened + r.evidence) == LiftEvidence(s.flattened) + LiftEvidence(r.evidence);
    TerminalStatesEnd(s.state);
    hide LegalTargets, CheckStopReason;
  }

  lemma TerminalStatesEnd(s: State)
    ensures s.IsTerminal() ==> LegalTargets(s) == {}
  {}

  /** Conversely, what the audit validator and the reason contract accept, the ledger's validator accepts. */
  lemma {:induction false} LiftedHistoryScans(history: seq<AuditRecord>)
    requires AuditHistory(history).Some? && ReasonsFit(history)
    ensures AuditHistory(history).value.sequence == |history| + 1
    ensures AuditHistory(history).value.flattened == Flattened(history)
    ensures ScanHistory(LiftHistory(history)) == Result.Success(LiftScan(AuditHistory(history).value))
  {
    if history != [] {
      var front, last := history[..|history| - 1], history[|history| - 1];
      assert last in history;
      LiftedHistoryScans(front);
      assert LiftHistory(history)[..|history| - 1] == LiftHistory(front);
      LiftedTurn(AuditHistory(front).value, last);
      hide ScanRecord, AuditTurn, LiftEvidence;
    } else {
      assert LiftEvidence([]) == [];
    }
  }

  lemma LiftedContextIsValid(e: Envelope, goal: string)
    requires StructureHolds(e) && e.budget.Valid() && ReasonsFit(e.history)
    requires !IsBlank(e.executionId) && !IsBlank(e.runId) && !IsBlank(goal)
    ensures Valid(LiftContext(e, goal)) && StampedAware(LiftContext(e, goal).history)
  {
    LiftedHistoryScans(e.history);
  }

  lemma ProjectionUndoesLift(history: seq<AuditRecord>)
    ensures ProjectHistory(LiftHistory(history)) == history
  {
    forall i | 0 <= i < |history| ensures ProjectHistory(LiftHistory(history))[i] == history[i] {
      assert ProjectAll(LiftEvidence(history[i].evidence)) == history[i].evidence;
    }
  }

  lemma LiftedEvidenceIsWellFormed(history: seq<AuditRecord>)
    requires forall r :: r in history ==> r.Valid()
    ensures EvidenceWellFormed(LiftHistory(history))
  {
    forall r, e | r in LiftHistory(history) && e in r.evidence ensures ProjectEvidence(e).Valid() {
      var i :| 0 <= i < |history| && r == LiftRecord(history[i]);
      var j :| 0 <= j < |history[i].evidence| && e == LiftEvidence(history[i].evidence)[j];
      assert history[i] in history && history[i].evidence[j] in history[i].evidence;
    }
  }

  lemma LiftProjectsBack(codec: Codec, e: Envelope, goal: string)
    requires ValidEnvelope(codec, e) && ReasonsFit(e.history)
    requires !IsBlank(goal) && e.goalDigest == codec.goalDigestOf(goal)
    ensures FromContext(codec, LiftContext(e, goal), Some(e.disposition)) == Result.Success(e)
  {
    var c := LiftContext(e, goal);
    LiftedContextIsValid(e, goal);
    LiftedHistoryScans(e.history);
    ProjectionUndoesLift(e.history);
    LiftedEvidenceIsWellFormed(e.history);
    assert Draft(codec, c, Some(e.disposition)).(recordDigest := "") == e.(recordDigest := "");
    DigestIgnoresItself(codec, e);
    hide ValidEnvelope, PayloadWithoutDigest;
  }

  lemma DigestIgnoresItself(codec: Codec, e: Envelope)
    ensures PayloadWithoutDigest(codec, e.(recordDigest := "")) == PayloadWithoutDigest(codec, e)
  {}

  /** The reasons of a ledger's history meet the contract the audit validator does not check. */
  lemma {:induction false} LedgerReasonsFit(history: seq<Record>)
    requires ScanHistory(history).Success?
    ensures ReasonsFit(ProjectHistory(history))
  {
    if history != [] {
      var front := history[..|history| - 1];
      LedgerReasonsFit(front);
      assert ProjectHistory(history) == ProjectHistory(front) + [ProjectRecord(history[|history| - 1])];
    }
  }

  /**
   * The envelopes of reachable executions are exactly the valid envelopes whose reasons meet the terminal
   * contract and whose goal digest is the digest of some goal.
   */
  lemma EnvelopesOfReachableContexts(codec: Codec, e: Envelope)
    requires codec.Sound()
    ensures (exists c, d :: Reachable(c) && FromContext(codec, c, d) == Result.Success(e)) <==>
              && ValidEnvelope(codec, e) && ReasonsFit(e.history)
              && exists goal :: !IsBlank(goal) && codec.goalDigestOf(goal) == e.goalDigest
  {
    if c, d :| Reachable(c) && FromContext(codec, c, d) == Result.Success(e) {
      ValidatedIsReachable(c);
      ScanMatchesFields(c);
      LedgerReasonsFit(c.history);
      assert codec.goalDigestOf(c.goal) == e.goalDigest;
    }
    if ValidEnvelope(codec, e) && ReasonsFit(e.history) {
      if goal :| !IsBlank(goal) && codec.goalDigestOf(goal) == e.goalDigest {
        LiftedContextIsValid(e, goal);
        ValidatedIsReachable(LiftContext(e, goal));
        LiftProjectsBack(codec, e, goal);
      }
    }
  }

  /** The reason contract is a real difference: an envelope may claim that an aborted execution succeeded. */
  lemma UnfitReasonsValidate(codec: Codec)
    requires codec.Sound()
    ensures exists e :: ValidEnvelope(codec, e) && !ReasonsFit(e.history)
                        && !exists c, d :: Reachable(c) && FromContext(codec, c, d) == Result.Success(e)
  {
    var record := AuditRecord(1, 0, Created, Aborted, 0, Some(StopReason.Success), []);
    var draft := Envelope(SCHEMA_VERSION, "x", "x", codec.goalDigestOf("x"), Terminal, Aborted, 0,
                          Budget(1, 1, 1, 0, 0, 0), [record], [], "");
    var e := draft.(recordDigest := codec.digestOf(PayloadWithoutDigest(codec, draft)));
    DigestIgnoresItself(codec, e);
    assert "x"[0] in "x" && !IsBlank("x");
    assert [record][..0] == [] && AuditHistory([record]) == AuditTurn(AUDIT_START, record);
    assert record in e.history && !ReasonFits(record.toState, record.reason);
    assert ValidEnvelope(codec, e);
    EnvelopesOfReachableContexts(codec, e);
  }

  /** What the envelope takes over from the context, field by field. */
  lemma ProjectionFields(codec: Codec, c: Context, disposition: Option<Disposition>)
    requires Valid(c) && FromContext(codec, c, disposition).Success?
    ensures var e := FromContext(codec, c, disposition).value;
            && e.schemaVersion == "1.0" && e.executionId == c.executionId && e.runId == c.runId
            && e.goalDigest == codec.goalDigestOf(c.goal) && e.state == c.state && e.iteration == c.iteration
            && e.budget == c.budget && |e.history| == |c.history| && SameEvidence(e.evidence, c.evidence)
            && (forall i :: 0 <= i < |c.history| ==> SameRecord(e.history[i], c.history[i]))
            && e.disposition == if disposition.Some? then disposition.value
                                else if c.state in {Completed, Failed, Aborted} then Terminal else Interrupted
  {
    ScanMatchesFields(c);
    if c.history != [] { ValidatorsAgree(c.history); }
    RecordsAreTakenOver(c.history);
    EvidenceIsTakenOver(c.evidence);
    hide ValidEnvelope, PayloadWithoutDigest, HistoryError, ScanHistory, AuditHistory, Flattened, ProjectHistory,
      ProjectAll, SameEvidence, SameRecord;
  }

  lemma EvidenceIsTakenOver(es: seq<Evidence>)
    ensures SameEvidence(ProjectAll(es), es)
  {}

  lemma RecordsAreTakenOver(history: seq<Record>)
    ensures |ProjectHistory(history)| == |history|
    ensures forall i :: 0 <= i < |history| ==> SameRecord(ProjectHistory(history)[i], history[i])
  {
    forall i | 0 <= i < |history| { EvidenceIsTakenOver(history[i].evidence); }
    hide SameEvidence, ProjectAll;
  }

  predicate SameEvidence(audited: seq<AuditEvidence>, es: seq<Evidence>) {
    |audited| == |es| && forall i :: 0 <= i < |es| ==>
      && audited[i].kind == es[i].kind && audited[i].referenceId == es[i].referenceId
      && audited[i].digest == es[i].digest
  }

  predicate SameRecord(a: AuditRecord, r: Record) {
    && a.sequence == r.sequence && a.iteration == r.iteration && a.fromState == r.fromState && a.toState == r.toState
    && a.occurredAt == r.occurredAt.ticks && a.reason == r.reason && SameEvidence(a.evidence, r.evidence)
  }
}
