/** Exactly which payloads are accepted, and as which envelope. */
module AuditAcceptance {
  import opened Wrappers
  import opened Values
  import opened Ledger
  import opened Audit
  import opened AuditPayload

  predicate Carries(p: Json, key: string, value: Json) { Field(p, key) == Some(value) }

  /** The payload holds the evidence's own fields; an empty digest may be absent. */
  predicate CarriesEvidence(p: Json, e: AuditEvidence) {
    && Carries(p, "kind", JString(KindText(e.kind))) && Carries(p, "reference_id", JString(e.referenceId))
    && (Carries(p, "digest", e.digest) || (e.digest == JString("") && Field(p, "digest").None?))
  }

  /** Likewise item by item. */
  predicate CarriesEvidenceList(ps: seq<Json>, es: seq<AuditEvidence>) {
    |ps| == |es| && forall i :: 0 <= i < |es| ==> CarriesEvidence(ps[i], es[i])
  }

  /** Any text of the same instant will do; an absent or null reason is none, absent evidence is empty. */
  predicate CarriesRecord(codec: Codec, p: Json, r: AuditRecord) {
    && Carries(p, "sequence", JInt(r.sequence)) && Carries(p, "iteration", JInt(r.iteration))
    && Carries(p, "from_state", JString(StateText(r.fromState)))
    && Carries(p, "to_state", JString(StateText(r.toState)))
    && TextField(p, "occurred_at").Some? && codec.parseTime(TextField(p, "occurred_at").value) == Some(r.occurredAt)
    && CarriesReason(p, r.reason)
    && if Field(p, "evidence").None? then r.evidence == []
       else ListField(p, "evidence").Some? && CarriesEvidenceList(ListField(p, "evidence").value, r.evidence)
  }

  predicate CarriesReason(p: Json, reason: Option<StopReason>) {
    if reason.Some? then Carries(p, "reason", JString(ReasonText(reason.value)))
    else Field(p, "reason").None? || Carries(p, "reason", JNull)
  }

  predicate CarriesRecordList(codec: Codec, ps: seq<Json>, rs: seq<AuditRecord>) {
    |ps| == |rs| && forall i :: 0 <= i < |rs| ==> CarriesRecord(codec, ps[i], rs[i])
  }

  predicate CarriesBudget(p: Json, b: Budget) {
    && Carries(p, "max_iterations", JInt(b.maxIterations)) && Carries(p, "iterations_used", JInt(b.iterationsUsed))
    && Carries(p, "max_mutations", JInt(b.maxMutations)) && Carries(p, "mutations_used", JInt(b.mutationsUsed))
    && Carries(p, "max_verifications", JInt(b.maxVerifications))
    && Carries(p, "verifications_used", JInt(b.verificationsUsed))
  }

  /** The payload holds every field of the envelope; what else it holds plays no part. */
  predicate CarriesEnvelope(codec: Codec, p: Json, e: Envelope) {
    && CarriesHeader(p, e)
    && Field(p, "budget").Some? && CarriesBudget(Field(p, "budget").value, e.budget)
    && ListField(p, "history").Some? && CarriesRecordList(codec, ListField(p, "history").value, e.history)
    && ListField(p, "evidence").Some? && CarriesEvidenceList(ListField(p, "evidence").value, e.evidence)
  }

  predicate CarriesHeader(p: Json, e: Envelope) {
    && Carries(p, "schema_version", JString(e.schemaVersion)) && Carries(p, "execution_id", JString(e.executionId))
    && Carries(p, "run_id", JString(e.runId)) && Carries(p, "goal_digest", JString(e.goalDigest))
    && Carries(p, "record_digest", JString(e.recordDigest)) && Carries(p, "iteration", JInt(e.iteration))
    && Carries(p, "disposition", JString(DispositionText(e.disposition)))
    && Carries(p, "state", JString(StateText(e.state)))
  }

  lemma {:induction false} FoundHasText<T>(all: seq<T>, text: T -> string, value: string)
    ensures var found := FindByText(all, text, value); found.Some? ==> text(found.value) == value
  {
    if all != [] { FoundHasText(all[1..], text, value); }
  }

  lemma EnumFieldExactly<T>(p: Json, key: string, all: seq<T>, text: T -> string, x: T)
    requires FindByText(all, text, text(x)) == Some(x)
    ensures EnumField(p, key, all, text) == Some(x) <==> Carries(p, key, JString(text(x)))
  {
    if TextField(p, key).Some? { FoundHasText(all, text, TextField(p, key).value); }
  }

  lemma StateFieldExactly(p: Json, key: string, s: State)
    ensures EnumField(p, key, ALL_STATES, StateText) == Some(s) <==> Carries(p, key, JString(StateText(s)))
  {
    StateLookup(s);
    EnumFieldExactly(p, key, ALL_STATES, StateText, s);
  }

  lemma ParseEvidenceExactly(p: Json, e: AuditEvidence)
    ensures ParseEvidence(p) == Some(e) <==> e.Valid() && CarriesEvidence(p, e)
  {
    KindLookup(e.kind);
    EnumFieldExactly(p, "kind", ALL_KINDS, KindText, e.kind);
    hide EnumField, KindText;
  }

  lemma {:induction false} ParseEvidenceListExactly(ps: seq<Json>, es: seq<AuditEvidence>)
    ensures ParseEvidenceList(ps) == Some(es) <==> (forall e :: e in es ==> e.Valid()) && CarriesEvidenceList(ps, es)
  {
    if ps != [] && es != [] {
      ParseEvidenceExactly(ps[0], es[0]);
      ParseEvidenceListExactly(ps[1..], es[1..]);
      assert es == [es[0]] + es[1..] && ps == [ps[0]] + ps[1..];
      hide ParseEvidence, CarriesEvidence, IsDigest;
    }
  }

  lemma ReasonFieldExactly(p: Json, reason: Option<StopReason>)
    ensures CarriesReason(p, reason) <==>
              var absent := Field(p, "reason").None? || Field(p, "reason").value.JNull?;
              if absent then reason.None?
              else reason.Some? && EnumField(p, "reason", ALL_REASONS, ReasonText) == reason
  {
    if reason.Some? {
      ReasonLookup(reason.value);
      EnumFieldExactly(p, "reason", ALL_REASONS, ReasonText, reason.value);
    }
    hide EnumField, ReasonText;
  }

  lemma ParseRecordExactly(codec: Codec, p: Json, r: AuditRecord)
    ensures ParseRecord(codec, p) == Some(r) <==> r.Valid() && CarriesRecord(codec, p, r)
  {
    StateFieldExactly(p, "from_state", r.fromState);
    StateFieldExactly(p, "to_state", r.toState);
    ReasonFieldExactly(p, r.reason);
    if ListField(p, "evidence").Some? { ParseEvidenceListExactly(ListField(p, "evidence").value, r.evidence); }
    assert ParseEvidenceList([]) == Some([]);
    hide EnumField, StateText, ReasonText, CarriesReason, ParseEvidenceList, CarriesEvidenceList, IsDigest;
  }

  lemma {:induction false} ParseRecordListExactly(codec: Codec, ps: seq<Json>, rs: seq<AuditRecord>)
    ensures ParseRecordList(codec, ps) == Some(rs) <==>
              (forall r :: r in rs ==> r.Valid()) && CarriesRecordList(codec, ps, rs)
  {
    if ps != [] && rs != [] {
      ParseRecordExactly(codec, ps[0], rs[0]);
      ParseRecordListExactly(codec, ps[1..], rs[1..]);
      assert rs == [rs[0]] + rs[1..] && ps == [ps[0]] + ps[1..];
      hide ParseRecord, CarriesRecord, AuditRecord.Valid;
    }
  }

  lemma ParseBudgetExactly(p: Json, b: Budget)
    ensures ParseBudget(p) == Some(b) <==> b.Valid() && CarriesBudget(p, b)
  {}

  lemma ParseHeaderExactly(p: Json, e: Envelope)
    ensures CarriesHeader(p, e) <==> ParseHeader(p) == Some(e.(budget := NO_BUDGET, history := [], evidence := []))
  {
    DispositionLookup(e.disposition);
    EnumFieldExactly(p, "disposition", ALL_DISPOSITIONS, DispositionText, e.disposition);
    StateFieldExactly(p, "state", e.state);
    hide EnumField, StateText, DispositionText;
  }

  /** A payload is accepted as an envelope exactly when it carries its fields and the envelope is valid. */
  lemma AcceptedExactly(codec: Codec, p: Json, e: Envelope)
    ensures FromPayload(codec, p) == Result.Success(e) <==> ValidEnvelope(codec, e) && CarriesEnvelope(codec, p, e)
  {
    ParseHeaderExactly(p, e);
    if Field(p, "budget").Some? { ParseBudgetExactly(Field(p, "budget").value, e.budget); }
    if ListField(p, "history").Some? { ParseRecordListExactly(codec, ListField(p, "history").value, e.history); }
    if ListField(p, "evidence").Some? { ParseEvidenceListExactly(ListField(p, "evidence").value, e.evidence); }
    assert ValidEnvelope(codec, e) ==>
             e.budget.Valid() && (forall r :: r in e.history ==> r.Valid()) &&
             forall v :: v in e.evidence ==> v.Valid();
    hide ListField, Field, ParseHeader, ParseBudget, ParseRecordList, ParseEvidenceList, CarriesHeader,
      CarriesBudget, CarriesRecordList, CarriesEvidenceList, ValidEnvelope;
  }
}
