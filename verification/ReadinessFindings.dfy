/** Every finding and its cause: what is reported, and exactly when. */
module ReadinessFindings {
  import opened Readiness
  import opened ReadinessVerdict
  import Ordering

  /** A receipt that counts for its class, whatever its result. */
  predicate Genuine(fingerprint: string, c: Candidate) {
    && c.Receipt? && c.receiptType.Known? && c.fingerprint == fingerprint && c.result.Known?
    && c.receiptDigest == c.digest
  }

  /** A genuine receipt of the given class. */
  predicate Covers(fingerprint: string, c: Candidate, k: ValidationClass) {
    Genuine(fingerprint, c) && c.receiptType.value == k
  }

  /** What is held against the `i`-th candidate, given those before it. */
  ghost predicate Complaint(fingerprint: string, receipts: seq<Candidate>, i: int, x: Finding) {
    if !(0 <= i < |receipts|) then false
    else if receipts[i].NotAReceipt? then x == Finding(ReceiptInvalid, "receipt:" + Decimal(i))
    else if x.reference != receipts[i].id then false
    else
      var c := receipts[i];
      match x.code
      case ReceiptUnknownClass => c.receiptType.Unknown?
      case ArtifactFingerprintMismatch => c.receiptType.Known? && c.fingerprint != fingerprint
      case ReceiptInvalid =>
        c.receiptType.Known? && c.fingerprint == fingerprint && (c.result.Unknown? || c.receiptDigest != c.digest)
      case ReceiptDuplicate =>
        Genuine(fingerprint, c) && exists b :: b in receipts[..i] && Covers(fingerprint, b, c.receiptType.value)
      case ReceiptFailed =>
        && Genuine(fingerprint, c) && c.result == Known(FailedResult)
        && !exists b :: b in receipts[..i] && Covers(fingerprint, b, c.receiptType.value)
      case _ => false
  }

  /** The receipt loop accepts the classes of the genuine receipts and reports exactly the complaints. */
  lemma {:induction false} ReceiptFindingsExactly(fingerprint: string, receipts: seq<Candidate>)
    ensures forall k :: k in ReceiptFold(fingerprint, receipts).accepted <==>
                          exists c :: c in receipts && Covers(fingerprint, c, k)
    ensures forall x :: x in ReceiptFold(fingerprint, receipts).findings <==>
                          exists i :: Complaint(fingerprint, receipts, i, x)
  {
    if receipts != [] {
      var n := |receipts| - 1;
      var front := receipts[..n];
      ReceiptFindingsExactly(fingerprint, front);
      assert receipts == front + [receipts[n]];
      assert ReceiptFold(fingerprint, receipts) ==
             ReceiptTurn(ReceiptFold(fingerprint, front), fingerprint, receipts[n], n);
      TurnExactly(ReceiptFold(fingerprint, front), fingerprint, receipts, n);
      forall i, x | 0 <= i < n
        ensures Complaint(fingerprint, receipts, i, x) <==> Complaint(fingerprint, front, i, x)
      {
        assert receipts[..i] == front[..i] && receipts[i] == front[i];
      }
      hide ReceiptFold, ReceiptTurn, Covers;
      forall x ensures x in ReceiptFold(fingerprint, receipts).findings <==>
                         exists i :: Complaint(fingerprint, receipts, i, x)
      {
        ComplaintsExtend(fingerprint, receipts, x);
      }
    }
  }

  lemma ComplaintsExtend(fingerprint: string, receipts: seq<Candidate>, x: Finding)
    requires receipts != []
    ensures var n := |receipts| - 1;
            (exists i :: Complaint(fingerprint, receipts, i, x)) <==>
              (exists i :: Complaint(fingerprint, receipts[..n], i, x)) || Complaint(fingerprint, receipts, n, x)
  {
    var n := |receipts| - 1;
    var front := receipts[..n];
    forall i | 0 <= i < n ensures Complaint(fingerprint, receipts, i, x) <==> Complaint(fingerprint, front, i, x) {
      assert receipts[..i] == front[..i] && receipts[i] == front[i];
    }
    if i :| Complaint(fingerprint, front, i, x) { assert Complaint(fingerprint, receipts, i, x); }
    if i :| Complaint(fingerprint, receipts, i, x) { assert i == n || Complaint(fingerprint, front, i, x); }
  }

  /** One turn of the loop, on top of a fold that accepted the classes covered so far. */
  lemma TurnExactly(f: Fold, fingerprint: string, receipts: seq<Candidate>, n: nat)
    requires n < |receipts|
    requires forall k :: k in f.accepted <==> exists c :: c in receipts[..n] && Covers(fingerprint, c, k)
    ensures var f' := ReceiptTurn(f, fingerprint, receipts[n], n);
            && (forall k :: k in f'.accepted <==> k in f.accepted || Covers(fingerprint, receipts[n], k))
            && (forall x :: x in f'.findings <==> x in f.findings || Complaint(fingerprint, receipts, n, x))
  {}

  lemma {:induction false} EntrypointFindingsExactly(expected: seq<string>, declared: seq<string>)
    ensures forall x :: x in EntrypointFindings(expected, declared) <==>
                          x.code == EntrypointMissing && x.reference in expected && x.reference !in declared
  {
    if expected != [] {
      EntrypointFindingsExactly(expected[..|expected| - 1], declared);
      assert expected == expected[..|expected| - 1] + [expected[|expected| - 1]];
    }
  }

  lemma {:induction false} MissingFindingsExactly(required: seq<ValidationClass>, accepted: set<ValidationClass>)
    ensures forall x :: x in MissingFindings(required, accepted) <==>
                          x.code == ReceiptMissing
                          && exists k :: k in required && k !in accepted && x.reference == ClassText(k)
  {
    if required != [] {
      MissingFindingsExactly(required[..|required| - 1], accepted);
      assert required == required[..|required| - 1] + [required[|required| - 1]];
      hide ClassText;
    }
  }

  /** A policy entry is broken when it forbids what it matches and something observed matches it. */
  predicate Broken(entry: (string, HygieneClass), observed: seq<string>) {
    (entry.1 == PolicyViolation || entry.1 == MustBeAbsent) && exists p :: p in observed && PolicyMatches(entry.0, p)
  }

  lemma {:induction false} HygieneFindingsExactly(policy: seq<(string, HygieneClass)>, observed: seq<string>)
    ensures forall x :: x in HygieneFindings(policy, observed) <==>
                          x.code == HygienePolicyViolation
                          && exists entry :: entry in policy && Broken(entry, observed) && x.reference == entry.0
  {
    if policy != [] {
      HygieneFindingsExactly(policy[..|policy| - 1], observed);
      assert policy == policy[..|policy| - 1] + [policy[|policy| - 1]];
      assert Violates(policy[|policy| - 1], observed) == Broken(policy[|policy| - 1], observed);
      hide Violates, Broken;
    }
  }

  lemma EndsWithExactly(s: string, suffix: string)
    ensures EndsWith(s, suffix) <==> exists a :: s == a + suffix
  {
    if EndsWith(s, suffix) { assert s == s[..|s| - |suffix|] + suffix; }
  }

  lemma ContainsExactly(s: string, part: string)
    ensures Contains(s, part) <==> exists a, b :: s == a + part + b
  {
    if Contains(s, part) {
      var i :| 0 <= i <= |s| && StartsWith(s[i..], part);
      assert s == s[..i] + part + s[i..][|part|..];
    }
    if a, b :| s == a + part + b {
      assert s[|a|..] == part + b;
      assert StartsWith(s[|a|..], part);
    }
  }

  lemma StartsWithExactly(s: string, prefix: string)
    ensures StartsWith(s, prefix) <==> exists b :: s == prefix + b
  {
    if StartsWith(s, prefix) { assert s == prefix + s[|prefix|..]; }
  }

  /** A policy entry matches itself and everything under it, the egg-info pattern such directories anywhere. */
  lemma PolicyMatchesExactly(policy: string, path: string)
    ensures PolicyMatches(policy, path) <==>
              if policy == "*.egg-info"
              then (exists a :: path == a + ".egg-info") || exists a, b :: path == a + ".egg-info/" + b
              else path == policy || exists b :: path == policy + "/" + b
  {
    EndsWithExactly(path, ".egg-info");
    ContainsExactly(path, ".egg-info/");
    StartsWithExactly(path, policy + "/");
    hide EndsWith, Contains, StartsWith;
  }

  /** A position names itself in decimal. */
  function Value(digits: string): int {
    if digits == "" then 0 else Value(digits[..|digits| - 1]) * 10 + (digits[|digits| - 1] as int - '0' as int)
  }

  lemma {:induction false} DecimalExactly(n: nat)
    ensures Value(Decimal(n)) == n && Decimal(n) != "" && (forall c :: c in Decimal(n) ==> '0' <= c <= '9')
    ensures Decimal(n)[0] == '0' ==> n == 0
  {
    if n >= 10 {
      DecimalExactly(n / 10);
      var front := Decimal(n / 10);
      assert Decimal(n)[..|front|] == front;
    } else {
      assert Value(Decimal(n)[..0]) == 0;
    }
  }

  predicate TwoRootModules(paths: seq<string>) {
    exists i, j :: 0 <= i < j < |paths| && RootModule(paths[i]) && RootModule(paths[j])
  }

  predicate RootModule(path: string) { |path| >= 3 && path[|path| - 3..] == ".py" && '/' !in path }

  /** Why a finding is reported. Without a snapshot only hygiene and the snapshot itself are judged. */
  ghost predicate Caused(x: Finding, request: Request, snapshot: Snapshot, receipts: seq<Candidate>,
                         observed: seq<string>, fingerprintOf: Fingerprint) {
    || (x.code == HygienePolicyViolation &&
        if "" in observed then x.reference == "hygiene_input"
        else exists entry :: entry in request.hygienePolicy && Broken(entry, observed) && x.reference == entry.0)
    || (snapshot.NotASnapshot? && x == Finding(SnapshotManifestMismatch, "snapshot"))
    || (snapshot.Snapshot? &&
        (CausedBySnapshot(x, request, snapshot, fingerprintOf) || CausedByReceipts(x, request, receipts)))
  }

  predicate CausedBySnapshot(x: Finding, request: Request, snapshot: Snapshot, fingerprintOf: Fingerprint)
    requires snapshot.Snapshot?
  {
    var supported := request.profile.Known? && snapshot.backend == "setuptools.build_meta";
    match x.code
    case SnapshotManifestMismatch => x.reference == "snapshot_id" && request.snapshotId != snapshot.snapshotId
    case ArtifactFingerprintMismatch =>
      && x.reference == "artifact:" + request.artifactId
      && request.fingerprint != fingerprintOf(request.artifactId, snapshot.snapshotId, request.rootIdentity,
                                              snapshot.manifestDigest, snapshot.pyprojectDigest)
    case UnsupportedPackagingProfile =>
      if request.profile.Unknown? then x.reference == "profile:" + request.profile.text
      else !supported && x.reference == "backend:" + snapshot.backend
    case PackageLayoutAmbiguous =>
      supported && x.reference == "pyproject.toml" && snapshot.pyModules == [] && TwoRootModules(snapshot.filePaths)
    case PackageConfigurationMissing =>
      && supported && x.reference == "pyproject.toml"
      && if snapshot.pyModules == [] then !TwoRootModules(snapshot.filePaths)
         else exists m :: m in snapshot.pyModules && m + ".py" !in snapshot.filePaths
    case EntrypointMissing => x.reference in request.expectedEntrypoints && x.reference !in snapshot.entrypoints
    case _ => false
  }

  ghost predicate CausedByReceipts(x: Finding, request: Request, receipts: seq<Candidate>) {
    || (exists i :: Complaint(request.fingerprint, receipts, i, x))
    || (x.code == ReceiptMissing &&
        exists k :: k in request.requiredClasses && x.reference == ClassText(k)
                    && !exists c :: c in receipts && Covers(request.fingerprint, c, k))
  }

  lemma PackagingExactly(request: Request, snapshot: Snapshot, fingerprintOf: Fingerprint, x: Finding)
    requires snapshot.Snapshot?
    ensures x in PackagingFindings(request, snapshot) <==>
              && x.code in {UnsupportedPackagingProfile, PackageLayoutAmbiguous, PackageConfigurationMissing}
              && CausedBySnapshot(x, request, snapshot, fingerprintOf)
  {
    var two, files := TwoRootModules(snapshot.filePaths), snapshot.filePaths;
    assert two == exists i, j :: 0 <= i < j < |files| && IsRootModule(files[i]) && IsRootModule(files[j]);
    var incomplete := exists m :: m in snapshot.pyModules && m + ".py" !in snapshot.filePaths;
    assert incomplete == exists m :: m in snapshot.pyModules && ModuleFile(m) !in snapshot.filePaths;
    var found := PackagingFindings(request, snapshot);
    hide TwoRootModules, IsRootModule, RootModule, ModuleFile;
    if request.profile.Unknown? {
      assert found == [Finding(UnsupportedPackagingProfile, "profile:" + request.profile.text)];
    } else if snapshot.backend != BACKEND {
      assert found == [Finding(UnsupportedPackagingProfile, "backend:" + snapshot.backend)];
    } else if snapshot.pyModules == [] {
      assert found == [Finding(if two then PackageLayoutAmbiguous else PackageConfigurationMissing, "pyproject.toml")];
    } else {
      assert found == if incomplete then [Finding(PackageConfigurationMissing, "pyproject.toml")] else [];
    }
    hide PackagingFindings;
  }

  lemma BindingExactly(request: Request, snapshot: Snapshot, fingerprintOf: Fingerprint, x: Finding)
    requires snapshot.Snapshot?
    ensures x in BindingFindings(request, snapshot, fingerprintOf) <==>
              && x.code in {SnapshotManifestMismatch, ArtifactFingerprintMismatch}
              && CausedBySnapshot(x, request, snapshot, fingerprintOf)
  {
    hide TwoRootModules;
  }

  lemma SnapshotFindingsExactly(request: Request, snapshot: Snapshot, fingerprintOf: Fingerprint, x: Finding)
    requires snapshot.Snapshot?
    ensures x in BindingFindings(request, snapshot, fingerprintOf) + PackagingFindings(request, snapshot)
                 + EntrypointFindings(request.expectedEntrypoints, snapshot.entrypoints) <==>
              CausedBySnapshot(x, request, snapshot, fingerprintOf)
  {
    EntrypointFindingsExactly(request.expectedEntrypoints, snapshot.entrypoints);
    PackagingExactly(request, snapshot, fingerprintOf, x);
    BindingExactly(request, snapshot, fingerprintOf, x);
    hide BindingFindings, PackagingFindings, EntrypointFindings, TwoRootModules;
  }

  /** An assessment reports a finding exactly when it has its cause. */
  lemma FindingsExactly(request: Request, snapshot: Snapshot, receipts: seq<Candidate>, observed: seq<string>,
                        fingerprintOf: Fingerprint, x: Finding)
    ensures x in AllFindings(request, snapshot, receipts, observed, fingerprintOf) <==>
              Caused(x, request, snapshot, receipts, observed, fingerprintOf)
  {
    HygieneFindingsExactly(request.hygienePolicy, SafePaths(observed));
    if "" in observed { assert forall entry :: entry in request.hygienePolicy ==> !Broken(entry, []); }
    if snapshot.Snapshot? {
      SnapshotFindingsExactly(request, snapshot, fingerprintOf, x);
      ReceiptFindingsExactly(request.fingerprint, receipts);
      MissingFindingsExactly(request.requiredClasses, ReceiptFold(request.fingerprint, receipts).accepted);
    }
    hide HygieneFindings, BindingFindings, PackagingFindings, EntrypointFindings, ReceiptFold, MissingFindings,
      Complaint, CausedBySnapshot, Broken, Covers, ClassText;
  }

  /** Unsupported for a foreign profile or backend, ready without any finding, else not ready. */
  lemma DispositionsExactly(request: Request, snapshot: Snapshot, receipts: seq<Candidate>, observed: seq<string>,
                            fingerprintOf: Fingerprint)
    ensures var d := DispositionOf(request, snapshot, receipts, observed, fingerprintOf);
            var supported := snapshot.Snapshot? && request.profile.Known?
                             && snapshot.backend == "setuptools.build_meta";
            && (d == UnsupportedProfile <==> snapshot.Snapshot? && !supported)
            && (d == Ready <==>
                  supported && forall x :: !Caused(x, request, snapshot, receipts, observed, fingerprintOf))
            && (d == NotReady <==>
                  || snapshot.NotASnapshot?
                  || (supported && exists x :: Caused(x, request, snapshot, receipts, observed, fingerprintOf)))
  {
    forall x { FindingsExactly(request, snapshot, receipts, observed, fingerprintOf, x); }
    var all := AllFindings(request, snapshot, receipts, observed, fingerprintOf);
    if all != [] { assert all[0] in all; }
    hide AllFindings, Caused;
  }

  /** Findings are ordered by the text of their code, then by reference. */
  lemma FindingOrderExactly(a: Finding, b: Finding)
    ensures FindingLe(a, b) <==>
              || (a.code == b.code && Ordering.StringLe(a.reference, b.reference))
              || (a.code != b.code && Ordering.StringLe(CodeText(a.code), CodeText(b.code)))
  {
    if a.code != b.code && CodeText(a.code) == CodeText(b.code) { CodeTextsDiffer(a.code, b.code); }
    hide CodeText, Ordering.StringLe;
  }

  /** The texts of codes and classes, as the enumerations declare them. */
  lemma CodeTexts()
    ensures CodeText(PackageLayoutAmbiguous) == "package_layout_ambiguous"
    ensures CodeText(PackageConfigurationMissing) == "package_configuration_missing"
    ensures CodeText(UnsupportedPackagingProfile) == "unsupported_packaging_profile"
    ensures CodeText(ArtifactFingerprintMismatch) == "artifact_fingerprint_mismatch"
    ensures CodeText(SnapshotManifestMismatch) == "snapshot_manifest_mismatch"
    ensures CodeText(PyprojectDigestMismatch) == "pyproject_digest_mismatch"
    ensures CodeText(EntrypointMissing) == "entrypoint_missing" && CodeText(ReceiptMissing) == "receipt_missing"
    ensures CodeText(ReceiptUnknownClass) == "receipt_unknown_class"
    ensures CodeText(ReceiptDuplicate) == "receipt_duplicate" && CodeText(ReceiptInvalid) == "receipt_invalid"
    ensures CodeText(ReceiptFailed) == "receipt_failed"
    ensures CodeText(HygienePolicyViolation) == "hygiene_policy_violation"
  {}

  lemma ClassTexts()
    ensures ClassText(TestExecution) == "test_execution" && ClassText(EditableInstall) == "editable_install"
    ensures ClassText(WheelBuild) == "wheel_build" && ClassText(SdistBuild) == "sdist_build"
    ensures ClassText(WheelInstall) == "wheel_install" && ClassText(EntrypointValidation) == "entrypoint_validation"
  {}
}
