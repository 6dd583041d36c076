/** The readiness verdict: exactly when evidence is ready, and what the verdict does not depend on. */
module ReadinessVerdict {
  import opened Wrappers
  import opened Readiness
  import Ordering

  function AllHygieneFindings(request: Request, observed: seq<string>): seq<Finding> {
    (if "" in observed then [Finding(HygienePolicyViolation, "hygiene_input")] else [])
    + HygieneFindings(request.hygienePolicy, SafePaths(observed))
  }

  /** Everything the checks append, in the order they run. */
  function AllFindings(request: Request, snapshot: Snapshot, receipts: seq<Candidate>,
                       observed: seq<string>, fingerprintOf: Fingerprint): seq<Finding> {
    var hygiene := AllHygieneFindings(request, observed);
    if snapshot.NotASnapshot? then hygiene + [Finding(SnapshotManifestMismatch, "snapshot")]
    else
      var fold := ReceiptFold(request.fingerprint, receipts);
      hygiene + BindingFindings(request, snapshot, fingerprintOf) + PackagingFindings(request, snapshot)
      + EntrypointFindings(request.expectedEntrypoints, snapshot.entrypoints)
      + fold.findings + MissingFindings(request.requiredClasses, fold.accepted)
  }

  function DispositionOf(request: Request, snapshot: Snapshot, receipts: seq<Candidate>,
                         observed: seq<string>, fingerprintOf: Fingerprint): Disposition {
    if snapshot.NotASnapshot? then NotReady
    else if !ProfileSupported(request, snapshot) then UnsupportedProfile
    else if AllFindings(request, snapshot, receipts, observed, fingerprintOf) != [] then NotReady
    else Ready
  }

  function CodeText(c: Code): string {
    match c
    case PackageLayoutAmbiguous => "package_layout_ambiguous"
    case PackageConfigurationMissing => "package_configuration_missing"
    case UnsupportedPackagingProfile => "unsupported_packaging_profile"
    case ArtifactFingerprintMismatch => "artifact_fingerprint_mismatch"
    case SnapshotManifestMismatch => "snapshot_manifest_mismatch"
    case PyprojectDigestMismatch => "pyproject_digest_mismatch"
    case EntrypointMissing => "entrypoint_missing"
    case ReceiptMissing => "receipt_missing"
    case ReceiptUnknownClass => "receipt_unknown_class"
    case ReceiptDuplicate => "receipt_duplicate"
    case ReceiptInvalid => "receipt_invalid"
    case ReceiptFailed => "receipt_failed"
    case HygienePolicyViolation => "hygiene_policy_violation"
  }

  predicate FindingLe(a: Finding, b: Finding) {
    if CodeText(a.code) == CodeText(b.code) then Ordering.StringLe(a.reference, b.reference)
    else Ordering.StringLe(CodeText(a.code), CodeText(b.code))
  }

  lemma CodeTextsDiffer(a: Code, b: Code)
    requires CodeText(a) == CodeText(b)
    ensures a == b
  {
    var s, t := CodeText(a), CodeText(b);
    assert |s| == |t| && s[0] == t[0] && s[8] == t[8] && s[9] == t[9];
  }

  lemma FindingOrderIsTotal()
    ensures Ordering.TotalPreorder(FindingLe) && Ordering.Antisymmetric(FindingLe)
  {
    forall a, b ensures FindingLe(a, b) || FindingLe(b, a) {
      Ordering.StringLeTotal(a.reference, b.reference);
      Ordering.StringLeTotal(CodeText(a.code), CodeText(b.code));
    }
    forall a, b, c | FindingLe(a, b) && FindingLe(b, c) ensures FindingLe(a, c) { FindingLeTransitive(a, b, c); }
    forall a, b | FindingLe(a, b) && FindingLe(b, a) ensures a == b {
      Ordering.StringLeTotal(a.reference, b.reference);
      Ordering.StringLeTotal(CodeText(a.code), CodeText(b.code));
      CodeTextsDiffer(a.code, b.code);
    }
  }

  lemma FindingLeTransitive(a: Finding, b: Finding, c: Finding)
    requires FindingLe(a, b) && FindingLe(b, c)
    ensures FindingLe(a, c)
  {
    var x, y, z := CodeText(a.code), CodeText(b.code), CodeText(c.code);
    hide CodeText;
    if x == y == z {
      Ordering.StringLeTransitive(a.reference, b.reference, c.reference);
    } else if x != y && y != z {
      Ordering.StringLeTransitive(x, y, z);
      Ordering.StringLeTotal(x, y);
    }
  }

  /** One finding per code and reference, in first-occurrence order. */
  function Dedup(findings: seq<Finding>): seq<Finding> {
    if findings == [] then [] else
      var front, last := findings[..|findings| - 1], findings[|findings| - 1];
      Dedup(front) + if last in front then [] else [last]
  }

  lemma {:induction false} DedupIsASet(findings: seq<Finding>)
    ensures forall x :: x in Dedup(findings) <==> x in findings
    ensures Ordering.DistinctBy(Dedup(findings), x => x)
  {
    if findings != [] {
      var front, last := findings[..|findings| - 1], findings[|findings| - 1];
      DedupIsASet(front);
      assert findings == front + [last];
    }
  }

  function Canonical(findings: seq<Finding>): seq<Finding> { Ordering.Sort(Dedup(findings), FindingLe) }

  /** The order check of the assessment's own constructor: ascending and without repetition. */
  ghost predicate StrictlyOrdered(findings: seq<Finding>) {
    forall i, j :: 0 <= i < j < |findings| ==> FindingLe(findings[i], findings[j]) && findings[i] != findings[j]
  }

  /** The reported findings are the collected ones, and always pass that check. */
  lemma CanonicalFindingsAreStrict(findings: seq<Finding>)
    ensures StrictlyOrdered(Canonical(findings))
    ensures forall x :: x in Canonical(findings) <==> x in findings
  {
    DedupIsASet(findings);
    FindingOrderIsTotal();
    Ordering.SortSorts(Dedup(findings), FindingLe);
    Ordering.SortKeepsElements(Dedup(findings), FindingLe);
    Ordering.DistinctIgnoresArrangement(Dedup(findings), Canonical(findings), x => x);
  }

  datatype Assessment = Assessment(disposition: Disposition, findings: seq<Finding>)

  /** Hygiene first, then binding, packaging, entrypoints and receipts, all on one findings list. */
  method Assess(request: Request, snapshot: Snapshot, receipts: seq<Candidate>,
                observed: seq<string>, fingerprintOf: Fingerprint)
    returns (a: Assessment)
    ensures a.disposition == DispositionOf(request, snapshot, receipts, observed, fingerprintOf)
    ensures a.findings == Canonical(AllFindings(request, snapshot, receipts, observed, fingerprintOf))
  {
    hide HygieneFindings, EntrypointFindings, ReceiptFold, MissingFindings, BindingFindings, PackagingFindings,
         Canonical;
    var log := new FindingLog();
    log.ClassifyHygiene(request.hygienePolicy, observed);
    assert log.findings == AllHygieneFindings(request, observed);
    if snapshot.NotASnapshot? {
      log.findings := log.findings + [Finding(SnapshotManifestMismatch, "snapshot")];
      assert log.findings == AllFindings(request, snapshot, receipts, observed, fingerprintOf);
      return Assessment(NotReady, Canonical(log.findings));
    }
    log.findings := log.findings + BindingFindings(request, snapshot, fingerprintOf);
    log.findings := log.findings + PackagingFindings(request, snapshot);
    log.ValidateEntrypoints(request.expectedEntrypoints, snapshot.entrypoints);
    log.ValidateReceipts(request, receipts);
    assert log.findings == AllFindings(request, snapshot, receipts, observed, fingerprintOf);
    var disposition :=
      if !ProfileSupported(request, snapshot) then UnsupportedProfile
      else if log.findings != [] then NotReady else Ready;
    a := Assessment(disposition, Canonical(log.findings));
  }

  /** A receipt nothing is held against: known class, bound to the artifact, genuine and passed. */
  predicate Acceptable(fingerprint: string, c: Candidate) {
    && c.Receipt? && c.receiptType.Known? && c.fingerprint == fingerprint
    && c.result == Known(Passed) && c.receiptDigest == c.digest
  }

  /** One acceptable receipt per class, and every required class covered. */
  ghost predicate ReceiptsReady(request: Request, receipts: seq<Candidate>) {
    && (forall c :: c in receipts ==> Acceptable(request.fingerprint, c))
    && Ordering.DistinctBy(receipts, ClassOf)
    && (forall k :: k in request.requiredClasses ==> exists c :: c in receipts && ClassOf(c) == Some(k))
  }

  function ClassOf(c: Candidate): Option<ValidationClass> {
    if c.Receipt? && c.receiptType.Known? then Some(c.receiptType.value) else None
  }

  /** Supported profile, exact binding, modules and entrypoints present, receipts ready, hygiene respected. */
  ghost predicate EvidenceIsReady(request: Request, snapshot: Snapshot, receipts: seq<Candidate>,
                                  observed: seq<string>, fingerprintOf: Fingerprint) {
    && snapshot.Snapshot? && request.profile.Known? && snapshot.backend == BACKEND
    && request.snapshotId == snapshot.snapshotId
    && request.fingerprint == fingerprintOf(request.artifactId, snapshot.snapshotId, request.rootIdentity,
                                            snapshot.manifestDigest, snapshot.pyprojectDigest)
    && snapshot.pyModules != [] && (forall m :: m in snapshot.pyModules ==> ModuleFile(m) in snapshot.filePaths)
    && (forall e :: e in request.expectedEntrypoints ==> e in snapshot.entrypoints)
    && ReceiptsReady(request, receipts)
    && "" !in observed
    && (forall entry, path :: entry in request.hygienePolicy && path in observed && PolicyMatches(entry.0, path) ==>
          entry.1.AllowedIgnored? || entry.1.RetainedDeliverable?)
  }

  lemma {:induction false} NoHygieneFindings(policy: seq<(string, HygieneClass)>, observed: seq<string>)
    ensures HygieneFindings(policy, observed) == [] <==> forall entry :: entry in policy ==> !Violates(entry, observed)
  {
    if policy != [] {
      NoHygieneFindings(policy[..|policy| - 1], observed);
      assert policy == policy[..|policy| - 1] + [policy[|policy| - 1]];
    }
  }

  lemma {:induction false} NoEntrypointFindings(expected: seq<string>, declared: seq<string>)
    ensures EntrypointFindings(expected, declared) == [] <==> forall e :: e in expected ==> e in declared
  {
    if expected != [] {
      NoEntrypointFindings(expected[..|expected| - 1], declared);
      assert expected == expected[..|expected| - 1] + [expected[|expected| - 1]];
    }
  }

  lemma {:induction false} NoMissingFindings(required: seq<ValidationClass>, accepted: set<ValidationClass>)
    ensures MissingFindings(required, accepted) == [] <==> forall k :: k in required ==> k in accepted
  {
    if required != [] {
      NoMissingFindings(required[..|required| - 1], accepted);
      assert required == required[..|required| - 1] + [required[|required| - 1]];
    }
  }

  /**
   * The receipt loop stays silent exactly on acceptable receipts of distinct classes, and then
   * accepts their classes.
   */
  lemma {:induction false} SilentReceiptFold(fingerprint: string, receipts: seq<Candidate>)
    ensures ReceiptFold(fingerprint, receipts).findings == [] <==>
              (forall c :: c in receipts ==> Acceptable(fingerprint, c)) && Ordering.DistinctBy(receipts, ClassOf)
    ensures ReceiptFold(fingerprint, receipts).findings == [] ==>
              forall k :: k in ReceiptFold(fingerprint, receipts).accepted <==>
                exists c :: c in receipts && ClassOf(c) == Some(k)
  {
    if receipts != [] {
      var n := |receipts| - 1;
      SilentReceiptFold(fingerprint, receipts[..n]);
      assert receipts == receipts[..n] + [receipts[n]];
      LastIsDistinct(receipts);
      var before := ReceiptFold(fingerprint, receipts[..n]);
      assert ReceiptFold(fingerprint, receipts) == ReceiptTurn(before, fingerprint, receipts[n], n);
      SilentTurn(before, fingerprint, receipts[n], n);
      assert Acceptable(fingerprint, receipts[n]) ==> ClassOf(receipts[n]).Some?;
      hide ReceiptFold, ReceiptTurn, ClassOf, Acceptable, Ordering.DistinctBy;
      if before.findings == [] && Acceptable(fingerprint, receipts[n]) {
        var k := ClassOf(receipts[n]).value;
        assert k in before.accepted <==> exists c :: c in receipts[..n] && ClassOf(c) == Some(k);
      }
    }
  }

  /** A turn keeps the silence exactly on an acceptable receipt of a class not accepted yet. */
  lemma SilentTurn(f: Fold, fingerprint: string, c: Candidate, i: nat)
    ensures var f' := ReceiptTurn(f, fingerprint, c, i);
            && (f'.findings == [] <==>
                  f.findings == [] && Acceptable(fingerprint, c) && ClassOf(c).value !in f.accepted)
            && (f'.findings == [] ==> f'.accepted == f.accepted + {ClassOf(c).value})
  {}

  lemma LastIsDistinct(receipts: seq<Candidate>)
    requires receipts != []
    ensures var n := |receipts| - 1;
            Ordering.DistinctBy(receipts, ClassOf) <==>
              Ordering.DistinctBy(receipts[..n], ClassOf) &&
              forall c :: c in receipts[..n] ==> ClassOf(c) != ClassOf(receipts[n])
  {}

  /** READY if and only if the evidence is ready. */
  lemma ReadyExactly(request: Request, snapshot: Snapshot, receipts: seq<Candidate>,
                     observed: seq<string>, fingerprintOf: Fingerprint)
    ensures DispositionOf(request, snapshot, receipts, observed, fingerprintOf).Ready? <==>
              EvidenceIsReady(request, snapshot, receipts, observed, fingerprintOf)
  {
    NoHygieneFindings(request.hygienePolicy, SafePaths(observed));
    if snapshot.Snapshot? {
      NoEntrypointFindings(request.expectedEntrypoints, snapshot.entrypoints);
      SilentReceiptFold(request.fingerprint, receipts);
      NoMissingFindings(request.requiredClasses, ReceiptFold(request.fingerprint, receipts).accepted);
    }
  }

  /** The disposition does not depend on the order of receipts, nor on order or repetition of observed paths. */
  lemma DispositionIgnoresArrangement(request: Request, snapshot: Snapshot,
                                      receipts: seq<Candidate>, receipts': seq<Candidate>,
                                      observed: seq<string>, observed': seq<string>, fingerprintOf: Fingerprint)
    requires multiset(receipts) == multiset(receipts')
    requires forall path :: path in observed <==> path in observed'
    ensures DispositionOf(request, snapshot, receipts, observed, fingerprintOf) ==
            DispositionOf(request, snapshot, receipts', observed', fingerprintOf)
  {
    ReadyExactly(request, snapshot, receipts, observed, fingerprintOf);
    ReadyExactly(request, snapshot, receipts', observed', fingerprintOf);
    SameReceipts(request, receipts, receipts');
    SameReceipts(request, receipts', receipts);
    hide AllFindings, ReceiptsReady;
  }

  lemma SameReceipts(request: Request, receipts: seq<Candidate>, receipts': seq<Candidate>)
    requires multiset(receipts) == multiset(receipts')
    ensures ReceiptsReady(request, receipts) ==> ReceiptsReady(request, receipts')
  {
    forall c ensures c in receipts <==> c in receipts' {
      assert c in receipts <==> c in multiset(receipts);
      assert c in receipts' <==> c in multiset(receipts');
    }
    if ReceiptsReady(request, receipts) { Ordering.DistinctIgnoresArrangement(receipts, receipts', ClassOf); }
  }
}
