/** The envelope's payload form, its digest, and the round trip through it. */
module AuditPayload {
  import opened Wrappers
  import opened Values
  import opened Ledger
  import opened Audit

  function StateText(s: State): string {
    match s
    case Created => "created"
    case ContextAssembling => "context_assembling"
    case Planning => "planning"
    case Deciding => "deciding"
    case Proposing => "proposing"
    case ApprovalPending => "approval_pending"
    case Authorizing => "authorizing"
    case Mutating => "mutating"
    case Verifying => "verifying"
    case Reflecting => "reflecting"
    case Replanning => "replanning"
    case Completed => "completed"
    case Failed => "failed"
    case Aborted => "aborted"
  }

  const ALL_STATES: seq<State> := [
    Created, ContextAssembling, Planning, Deciding, Proposing, ApprovalPending, Authorizing, Mutating, Verifying,
    Reflecting, Replanning, Completed, Failed, Aborted]

  function ReasonText(r: StopReason): string {
    match r
    case Success => "success"
    case IterationBudgetExhausted => "iteration_budget_exhausted"
    case MutationBudgetExhausted => "mutation_budget_exhausted"
    case VerificationBudgetExhausted => "verification_budget_exhausted"
    case PolicyRejected => "policy_rejected"
    case AuthorizationFailed => "authorization_failed"
    case ProviderFailed => "provider_failed"
    case VerificationFailed => "verification_failed"
    case Unrecoverable => "unrecoverable"
    case UserAborted => "user_aborted"
  }

  const ALL_REASONS: seq<StopReason> := [
    StopReason.Success, IterationBudgetExhausted, MutationBudgetExhausted, VerificationBudgetExhausted, PolicyRejected,
    AuthorizationFailed, ProviderFailed, VerificationFailed, Unrecoverable, UserAborted]

  function KindText(k: EvidenceKind): string {
    match k
    case Plan => "plan"
    case Decision => "decision"
    case Proposal => "proposal"
    case Authorization => "authorization"
    case MutationReceipt => "mutation_receipt"
    case Verification => "verification"
    case Reflection => "reflection"
    case Memory => "memory"
    case ReplanningOutcome => "replanning"
  }

  const ALL_KINDS: seq<EvidenceKind> := [
    Plan, Decision, Proposal, Authorization, MutationReceipt, Verification, Reflection, Memory, ReplanningOutcome]

  function DispositionText(d: Disposition): string {
    match d
    case Terminal => "terminal"
    case Interrupted => "interrupted"
  }

  const ALL_DISPOSITIONS: seq<Disposition> := [Terminal, Interrupted]

  /** The texts of states and dispositions, as the enumerations declare them. */
  lemma StateTexts()
    ensures StateText(Created) == "created" && StateText(ContextAssembling) == "context_assembling"
    ensures StateText(Planning) == "planning" && StateText(Deciding) == "deciding"
    ensures StateText(Proposing) == "proposing" && StateText(ApprovalPending) == "approval_pending"
    ensures StateText(Authorizing) == "authorizing" && StateText(Mutating) == "mutating"
    ensures StateText(Verifying) == "verifying" && StateText(Reflecting) == "reflecting"
    ensures StateText(Replanning) == "replanning" && StateText(State.Completed) == "completed"
    ensures StateText(Failed) == "failed" && StateText(Aborted) == "aborted"
    ensures DispositionText(Terminal) == "terminal" && DispositionText(Interrupted) == "interrupted"
  {}

  lemma ReasonTexts()
    ensures ReasonText(StopReason.Success) == "success" && ReasonText(UserAborted) == "user_aborted"
    ensures ReasonText(IterationBudgetExhausted) == "iteration_budget_exhausted"
    ensures ReasonText(MutationBudgetExhausted) == "mutation_budget_exhausted"
    ensures ReasonText(VerificationBudgetExhausted) == "verification_budget_exhausted"
    ensures ReasonText(PolicyRejected) == "policy_rejected" && ReasonText(AuthorizationFailed) == "authorization_failed"
    ensures ReasonText(ProviderFailed) == "provider_failed" && ReasonText(VerificationFailed) == "verification_failed"
    ensures ReasonText(Unrecoverable) == "unrecoverable"
  {}

  lemma KindTexts()
    ensures KindText(Plan) == "plan" && KindText(Decision) == "decision" && KindText(Proposal) == "proposal"
    ensures KindText(Authorization) == "authorization" && KindText(MutationReceipt) == "mutation_receipt"
    ensures KindText(Verification) == "verification" && KindText(Reflection) == "reflection"
    ensures KindText(Memory) == "memory" && KindText(ReplanningOutcome) == "replanning"
  {}

  /** Enum lookup by value: the member whose text is `value`. */
  function FindByText<T>(all: seq<T>, text: T -> string, value: string): Option<T> {
    if all == [] then None else if text(all[0]) == value then Some(all[0]) else FindByText(all[1..], text, value)
  }

  lemma {:induction false} LookupInvertsText<T>(all: seq<T>, text: T -> string, x: T)
    requires x in all && forall y :: y in all && text(y) == text(x) ==> y == x
    ensures FindByText(all, text, text(x)) == Some(x)
  {
    if text(all[0]) != text(x) { LookupInvertsText(all[1..], text, x); }
  }

  lemma StateLookup(s: State)
    ensures FindByText(ALL_STATES, StateText, StateText(s)) == Some(s)
  {
    forall y | y in ALL_STATES && StateText(y) == StateText(s) ensures y == s {
      assert |StateText(y)| == |StateText(s)| &&
             StateText(y)[0] == StateText(s)[0] && StateText(y)[2] == StateText(s)[2];
    }
    LookupInvertsText(ALL_STATES, StateText, s);
  }

  lemma ReasonLookup(r: StopReason)
    ensures FindByText(ALL_REASONS, ReasonText, ReasonText(r)) == Some(r)
  {
    forall y | y in ALL_REASONS && ReasonText(y) == ReasonText(r) ensures y == r {
      assert |ReasonText(y)| == |ReasonText(r)| && ReasonText(y)[0] == ReasonText(r)[0];
    }
    LookupInvertsText(ALL_REASONS, ReasonText, r);
  }

  lemma KindLookup(k: EvidenceKind)
    ensures FindByText(ALL_KINDS, KindText, KindText(k)) == Some(k)
  {
    forall y | y in ALL_KINDS && KindText(y) == KindText(k) ensures y == k {
      assert |KindText(y)| == |KindText(k)| && KindText(y)[0] == KindText(k)[0] && KindText(y)[2] == KindText(k)[2];
    }
    LookupInvertsText(ALL_KINDS, KindText, k);
  }

  lemma DispositionLookup(d: Disposition)
    ensures FindByText(ALL_DISPOSITIONS, DispositionText, DispositionText(d)) == Some(d)
  {
    assert DispositionText(Terminal)[0] != DispositionText(Interrupted)[0];
    LookupInvertsText(ALL_DISPOSITIONS, DispositionText, d);
  }

  function EvidencePayload(e: AuditEvidence): Json {
    JObject(map["digest" := e.digest,
                "kind" := JString(KindText(e.kind)), "reference_id" := JString(e.referenceId)])
  }

  function EvidenceListPayload(es: seq<AuditEvidence>): seq<Json> {
    if es == [] then [] else [EvidencePayload(es[0])] + EvidenceListPayload(es[1..])
  }

  function RecordPayload(codec: Codec, r: AuditRecord): Json {
    JObject(map[
      "evidence" := JList(EvidenceListPayload(r.evidence)), "from_state" := JString(StateText(r.fromState)),
      "iteration" := JInt(r.iteration), "occurred_at" := JString(codec.timeText(r.occurredAt)),
      "reason" := if r.reason.Some? then JString(ReasonText(r.reason.value)) else JNull,
      "sequence" := JInt(r.sequence), "to_state" := JString(StateText(r.toState))])
  }

  function RecordListPayload(codec: Codec, rs: seq<AuditRecord>): seq<Json> {
    if rs == [] then [] else [RecordPayload(codec, rs[0])] + RecordListPayload(codec, rs[1..])
  }

  function BudgetPayload(b: Budget): Json {
    JObject(map[
      "iterations_used" := JInt(b.iterationsUsed), "max_iterations" := JInt(b.maxIterations),
      "max_mutations" := JInt(b.maxMutations), "max_verifications" := JInt(b.maxVerifications),
      "mutations_used" := JInt(b.mutationsUsed), "verifications_used" := JInt(b.verificationsUsed)])
  }

  function EnvelopeFields(codec: Codec, e: Envelope): map<string, Json> {
    map[
      "budget" := BudgetPayload(e.budget), "disposition" := JString(DispositionText(e.disposition)),
      "evidence" := JList(EvidenceListPayload(e.evidence)), "execution_id" := JString(e.executionId),
      "goal_digest" := JString(e.goalDigest), "history" := JList(RecordListPayload(codec, e.history)),
      "iteration" := JInt(e.iteration), "run_id" := JString(e.runId), "schema_version" := JString(e.schemaVersion),
      "state" := JString(StateText(e.state))]
  }

  function PayloadWithoutDigest(codec: Codec, e: Envelope): Json { JObject(EnvelopeFields(codec, e)) }

  function ToPayload(codec: Codec, e: Envelope): Json {
    JObject(EnvelopeFields(codec, e)["record_digest" := JString(e.recordDigest)])
  }

  /** What the envelope constructor accepts. */
  predicate ValidEnvelope(codec: Codec, e: Envelope) {
    && e.schemaVersion == SCHEMA_VERSION && !IsBlank(e.executionId) && !IsBlank(e.runId) && IsDigest(e.goalDigest)
    && e.iteration >= 0 && e.budget.Valid()
    && (forall r :: r in e.history ==> r.Valid()) && (forall v :: v in e.evidence ==> v.Valid())
    && StructureHolds(e)
    && IsDigest(e.recordDigest) && e.recordDigest == codec.digestOf(PayloadWithoutDigest(codec, e))
  }

  /** What makes an envelope valid, spelled out. */
  lemma EnvelopesExactly(codec: Codec, e: Envelope)
    ensures ValidEnvelope(codec, e) <==>
              && e.schemaVersion == "1.0" && !IsBlank(e.executionId) && !IsBlank(e.runId)
              && IsDigest(e.goalDigest) && IsDigest(e.recordDigest)
              && e.recordDigest == codec.digestOf(JObject(EnvelopeFields(codec, e)))
              && e.iteration >= 0 && e.budget.Valid() && StructureHolds(e)
              && (forall r :: r in e.history ==> RecordHolds(r)) && forall v :: v in e.evidence ==> EvidenceHolds(v)
  {
    hide IsDigest, IsBlank, StructureHolds, EnvelopeFields;
  }

  predicate EvidenceHolds(v: AuditEvidence) {
    && !IsBlank(v.referenceId)
    && match v.digest
       case JString(text) => text == "" || IsDigest(text)
       case JNull => true
       case JBool(flag) => !flag
       case JInt(n) => n == 0
       case JReal(x) => x == 0.0
       case JList(items) => items == []
       case JObject(fields) => fields == map[]
  }

  predicate RecordHolds(r: AuditRecord) {
    r.sequence >= 1 && r.iteration >= 0 && forall v :: v in r.evidence ==> EvidenceHolds(v)
  }

  function Field(p: Json, key: string): Option<Json> {
    if p.JObject? && key in p.fields then Some(p.fields[key]) else None
  }

  function TextField(p: Json, key: string): Option<string> {
    var v := Field(p, key);
    if v.Some? && v.value.JString? then Some(v.value.text) else None
  }

  function IntField(p: Json, key: string): Option<int> {
    var v := Field(p, key);
    if v.Some? && v.value.JInt? then Some(v.value.number) else None
  }

  function ListField(p: Json, key: string): Option<seq<Json>> {
    var v := Field(p, key);
    if v.Some? && v.value.JList? then Some(v.value.items) else None
  }

  function EnumField<T>(p: Json, key: string, all: seq<T>, text: T -> string): Option<T> {
    var v := TextField(p, key);
    if v.Some? then FindByText(all, text, v.value) else None
  }

  /** A missing digest reads as the empty one. */
  function ParseEvidence(p: Json): Option<AuditEvidence> {
    var kind := EnumField(p, "kind", ALL_KINDS, KindText);
    var referenceId := TextField(p, "reference_id");
    var digest := if Field(p, "digest").None? then JString("") else Field(p, "digest").value;
    if kind.None? || referenceId.None? then None
    else
      var e := AuditEvidence(kind.value, referenceId.value, digest);
      if e.Valid() then Some(e) else None
  }

  function ParseEvidenceList(ps: seq<Json>): Option<seq<AuditEvidence>> {
    if ps == [] then Some([]) else
      var head, tail := ParseEvidence(ps[0]), ParseEvidenceList(ps[1..]);
      if head.None? || tail.None? then None else Some([head.value] + tail.value)
  }

  /** A missing evidence list reads as empty, a missing or null reason as none. */
  function ParseRecord(codec: Codec, p: Json): Option<AuditRecord> {
    var items := if Field(p, "evidence").None? then Some([]) else ListField(p, "evidence");
    var evidence := if items.Some? then ParseEvidenceList(items.value) else None;
    var noReason := Field(p, "reason").None? || Field(p, "reason").value.JNull?;
    var reason := if noReason then None else EnumField(p, "reason", ALL_REASONS, ReasonText);
    var time := TextField(p, "occurred_at");
    var occurredAt := if time.Some? then codec.parseTime(time.value) else None;
    var sequence, iteration := IntField(p, "sequence"), IntField(p, "iteration");
    var fromState, toState := EnumField(p, "from_state", ALL_STATES, StateText),
      EnumField(p, "to_state", ALL_STATES, StateText);
    if !p.JObject? || evidence.None? || (!noReason && reason.None?) || occurredAt.None? || sequence.None?
       || iteration.None? || fromState.None? || toState.None? then None
    else
      var r := AuditRecord(sequence.value, iteration.value, fromState.value, toState.value,
                          occurredAt.value, reason, evidence.value);
      if r.Valid() then Some(r) else None
  }

  function ParseRecordList(codec: Codec, ps: seq<Json>): Option<seq<AuditRecord>> {
    if ps == [] then Some([]) else
      var head, tail := ParseRecord(codec, ps[0]), ParseRecordList(codec, ps[1..]);
      if head.None? || tail.None? then None else Some([head.value] + tail.value)
  }

  function ParseBudget(p: Json): Option<Budget> {
    var mi, mm, mv := IntField(p, "max_iterations"), IntField(p, "max_mutations"), IntField(p, "max_verifications");
    var iu, mu, vu := IntField(p, "iterations_used"), IntField(p, "mutations_used"), IntField(p, "verifications_used");
    if mi.None? || mm.None? || mv.None? || iu.None? || mu.None? || vu.None? then None
    else
      var b := Budget(mi.value, mm.value, mv.value, iu.value, mu.value, vu.value);
      if b.Valid() then Some(b) else None
  }

  /** The header fields, under which the lists and the budget are filled in. */
  function ParseHeader(p: Json): Option<Envelope> {
    var schemaVersion, executionId := TextField(p, "schema_version"), TextField(p, "execution_id");
    var runId, goalDigest := TextField(p, "run_id"), TextField(p, "goal_digest");
    var recordDigest := TextField(p, "record_digest");
    var disposition := EnumField(p, "disposition", ALL_DISPOSITIONS, DispositionText);
    var state := EnumField(p, "state", ALL_STATES, StateText);
    var iteration := IntField(p, "iteration");
    if schemaVersion.None? || executionId.None? || runId.None? || goalDigest.None? || recordDigest.None?
       || disposition.None? || state.None? || iteration.None? then None
    else
      Some(Envelope(schemaVersion.value, executionId.value, runId.value, goalDigest.value, disposition.value,
                    state.value, iteration.value, NO_BUDGET, [], [], recordDigest.value))
  }

  const NO_BUDGET := Budget(0, 0, 0, 0, 0, 0)

  /** Decodes and re-validates; whatever goes wrong surfaces as one integrity error. */
  function FromPayload(codec: Codec, p: Json): (r: Result<Envelope, AuditError>)
    ensures r.Success? ==> ValidEnvelope(codec, r.value)
  {
    var budget := if Field(p, "budget").Some? then ParseBudget(Field(p, "budget").value) else None;
    var historyItems, evidenceItems := ListField(p, "history"), ListField(p, "evidence");
    var history := if historyItems.Some? then ParseRecordList(codec, historyItems.value) else None;
    var evidence := if evidenceItems.Some? then ParseEvidenceList(evidenceItems.value) else None;
    var header := ParseHeader(p);
    if header.None? || budget.None? || history.None? || evidence.None? then Failure(AuditIntegrity)
    else
      var e := header.value.(budget := budget.value, history := history.value, evidence := evidence.value);
      if ValidEnvelope(codec, e) then Result.Success(e) else Failure(AuditIntegrity)
  }

  lemma {:induction false} EvidenceRoundTrip(es: seq<AuditEvidence>)
    requires forall e :: e in es ==> e.Valid()
    ensures ParseEvidenceList(EvidenceListPayload(es)) == Some(es)
  {
    if es != [] {
      KindLookup(es[0].kind);
      assert ParseEvidence(EvidencePayload(es[0])) == Some(es[0]);
      EvidenceRoundTrip(es[1..]);
      assert es == [es[0]] + es[1..];
    }
  }

  /** Every field of a written record reads back under its own key. */
  lemma RecordFields(codec: Codec, r: AuditRecord)
    ensures var p := RecordPayload(codec, r);
            && p.JObject?
            && Field(p, "evidence") == Some(JList(EvidenceListPayload(r.evidence)))
            && Field(p, "reason") == Some(if r.reason.Some? then JString(ReasonText(r.reason.value)) else JNull)
            && TextField(p, "from_state") == Some(StateText(r.fromState))
            && TextField(p, "to_state") == Some(StateText(r.toState))
            && TextField(p, "occurred_at") == Some(codec.timeText(r.occurredAt))
            && IntField(p, "iteration") == Some(r.iteration) && IntField(p, "sequence") == Some(r.sequence)
  {
    hide StateText, ReasonText, EvidenceListPayload;
  }

  lemma RecordRoundTrip(codec: Codec, r: AuditRecord)
    requires codec.Sound() && r.Valid()
    ensures ParseRecord(codec, RecordPayload(codec, r)) == Some(r)
  {
    EvidenceRoundTrip(r.evidence);
    StateLookup(r.fromState);
    StateLookup(r.toState);
    if r.reason.Some? { ReasonLookup(r.reason.value); }
    assert codec.parseTime(codec.timeText(r.occurredAt)) == Some(r.occurredAt);
    RecordFields(codec, r);
    hide RecordPayload, FindByText, StateText, ReasonText, EvidenceListPayload, ParseEvidenceList;
  }

  lemma {:induction false} RecordsRoundTrip(codec: Codec, rs: seq<AuditRecord>)
    requires codec.Sound() && forall r :: r in rs ==> r.Valid()
    ensures ParseRecordList(codec, RecordListPayload(codec, rs)) == Some(rs)
  {
    if rs != [] {
      RecordRoundTrip(codec, rs[0]);
      RecordsRoundTrip(codec, rs[1..]);
      assert rs == [rs[0]] + rs[1..];
    }
  }

  /** Every field of a written envelope reads back under its own key. */
  lemma EnvelopeTextFields(codec: Codec, e: Envelope)
    ensures var p := ToPayload(codec, e);
            && TextField(p, "schema_version") == Some(e.schemaVersion)
            && TextField(p, "execution_id") == Some(e.executionId)
            && TextField(p, "run_id") == Some(e.runId) && TextField(p, "goal_digest") == Some(e.goalDigest)
            && TextField(p, "record_digest") == Some(e.recordDigest)
            && TextField(p, "disposition") == Some(DispositionText(e.disposition))
            && TextField(p, "state") == Some(StateText(e.state))
  {
    hide BudgetPayload, DispositionText, EvidenceListPayload, RecordListPayload, StateText;
  }

  lemma EnvelopeOtherFields(codec: Codec, e: Envelope)
    ensures var p := ToPayload(codec, e);
            && Field(p, "budget") == Some(BudgetPayload(e.budget)) && IntField(p, "iteration") == Some(e.iteration)
            && ListField(p, "history") == Some(RecordListPayload(codec, e.history))
            && ListField(p, "evidence") == Some(EvidenceListPayload(e.evidence))
  {
    hide BudgetPayload, DispositionText, EvidenceListPayload, RecordListPayload, StateText;
  }

  lemma BudgetRoundTrip(b: Budget)
    requires b.Valid()
    ensures ParseBudget(BudgetPayload(b)) == Some(b)
  {}

  /** Reading back a written envelope gives the same envelope. */
  lemma PayloadRoundTrip(codec: Codec, e: Envelope)
    requires codec.Sound() && ValidEnvelope(codec, e)
    ensures FromPayload(codec, ToPayload(codec, e)) == Result.Success(e)
  {
    RecordsRoundTrip(codec, e.history);
    EvidenceRoundTrip(e.evidence);
    StateLookup(e.state);
    DispositionLookup(e.disposition);
    BudgetRoundTrip(e.budget);
    EnvelopeTextFields(codec, e);
    EnvelopeOtherFields(codec, e);
    hide ToPayload, FindByText, StateText, DispositionText, EvidenceListPayload, RecordListPayload, BudgetPayload,
      ParseEvidenceList, ParseRecordList, ParseBudget, ValidEnvelope;
  }

  /** Two bodies with one digest. */
  predicate Collides(codec: Codec, p: Json, q: Json) { p != q && codec.digestOf(p) == codec.digestOf(q) }

  /** Valid envelopes with the same record digest are the same envelope, unless their bodies collide. */
  lemma DigestIdentifiesEnvelope(codec: Codec, d: Envelope, e: Envelope)
    requires codec.Sound() && ValidEnvelope(codec, d) && ValidEnvelope(codec, e)
    ensures d.recordDigest == e.recordDigest <==>
              d == e || Collides(codec, PayloadWithoutDigest(codec, d), PayloadWithoutDigest(codec, e))
  {
    if d.recordDigest == e.recordDigest && PayloadWithoutDigest(codec, d) == PayloadWithoutDigest(codec, e) {
      assert ToPayload(codec, d) == ToPayload(codec, e);
      PayloadRoundTrip(codec, d);
      PayloadRoundTrip(codec, e);
    }
  }
}
