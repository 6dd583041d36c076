/** The artifact readiness fold over supplied evidence. */
module Readiness {
  datatype ValidationClass =
    TestExecution | EditableInstall | WheelBuild | SdistBuild | WheelInstall | EntrypointValidation

  datatype HygieneClass = MustBeAbsent | AllowedIgnored | RetainedDeliverable | PolicyViolation

  datatype Code =
    | PackageLayoutAmbiguous | PackageConfigurationMissing | UnsupportedPackagingProfile | ArtifactFingerprintMismatch
    | SnapshotManifestMismatch | PyprojectDigestMismatch | EntrypointMissing | ReceiptMissing | ReceiptUnknownClass
    | ReceiptDuplicate | ReceiptInvalid | ReceiptFailed | HygienePolicyViolation

  datatype Finding = Finding(code: Code, reference: string)

  /** An enum member or whatever other text was supplied. */
  datatype Declared<T> = Known(value: T) | Unknown(text: string)

  datatype PackagingProfile = SetuptoolsFlatModule
  datatype ResultValue = Passed | FailedResult

  /** A candidate is a receipt or some other object. `digest` is the canonical digest of its own fields. */
  datatype Candidate =
    | NotAReceipt
    | Receipt(id: string, receiptType: Declared<ValidationClass>, fingerprint: string, result: Declared<ResultValue>,
              receiptDigest: string, digest: string)

  datatype Snapshot =
    | NotASnapshot
    | Snapshot(snapshotId: string, manifestDigest: string, pyprojectDigest: string, filePaths: seq<string>,
               backend: string, pyModules: seq<string>, entrypoints: seq<string>)

  datatype Request = Request(
    artifactId: string, snapshotId: string, rootIdentity: string, fingerprint: string,
    profile: Declared<PackagingProfile>,
    expectedEntrypoints: seq<string>, requiredClasses: seq<ValidationClass>, hygienePolicy: seq<(string, HygieneClass)>)

  datatype Disposition = Ready | NotReady | UnsupportedProfile

  /** The fingerprint digest over artifact id, snapshot id, root identity, manifest and pyproject digests. */
  type Fingerprint = (string, string, string, string, string) -> string

  const BACKEND := "setuptools.build_meta"

  predicate StartsWith(s: string, prefix: string) { prefix <= s }

  predicate EndsWith(s: string, suffix: string) { |suffix| <= |s| && s[|s| - |suffix|..] == suffix }

  predicate Contains(s: string, part: string) { exists i :: 0 <= i <= |s| && StartsWith(s[i..], part) }

  predicate PolicyMatches(policy: string, path: string) {
    if policy == "*.egg-info" then EndsWith(path, ".egg-info") || Contains(path, ".egg-info/")
    else path == policy || StartsWith(path, policy + "/")
  }

  function ModuleFile(name: string): string { name + ".py" }

  function ClassText(c: ValidationClass): string {
    match c
    case TestExecution => "test_execution"
    case EditableInstall => "editable_install"
    case WheelBuild => "wheel_build"
    case SdistBuild => "sdist_build"
    case WheelInstall => "wheel_install"
    case EntrypointValidation => "entrypoint_validation"
  }

  /** The observed paths that count: none at all when the input is malformed. */
  function SafePaths(observed: seq<string>): seq<string> { if "" in observed then [] else observed }

  predicate Violates(entry: (string, HygieneClass), observed: seq<string>) {
    (entry.1.PolicyViolation? || entry.1.MustBeAbsent?) && exists p :: p in observed && PolicyMatches(entry.0, p)
  }

  function HygieneFindings(policy: seq<(string, HygieneClass)>, observed: seq<string>): seq<Finding> {
    if policy == [] then [] else
      var last := policy[|policy| - 1];
      HygieneFindings(policy[..|policy| - 1], observed) +
      if Violates(last, observed) then [Finding(HygienePolicyViolation, last.0)] else []
  }

  function EntrypointFindings(expected: seq<string>, declared: seq<string>): seq<Finding> {
    if expected == [] then [] else
      var last := expected[|expected| - 1];
      EntrypointFindings(expected[..|expected| - 1], declared) +
      if last !in declared then [Finding(EntrypointMissing, last)] else []
  }

  /** What the receipt loop carries: accepted classes and findings. */
  datatype Fold = Fold(accepted: set<ValidationClass>, findings: seq<Finding>)

  function Decimal(n: nat): string {
    if n < 10 then [(n as char) + '0'] else Decimal(n / 10) + [(n % 10) as char + '0']
  }

  /** Names the candidate at a position that is no receipt. */
  function PositionReference(index: nat): string { "receipt:" + Decimal(index) }

  function ReceiptTurn(f: Fold, fingerprint: string, c: Candidate, index: nat): Fold {
    if c.NotAReceipt? then f.(findings := f.findings + [Finding(ReceiptInvalid, PositionReference(index))])
    else if c.receiptType.Unknown? then f.(findings := f.findings + [Finding(ReceiptUnknownClass, c.id)])
    else if c.fingerprint != fingerprint then f.(findings := f.findings + [Finding(ArtifactFingerprintMismatch, c.id)])
    else if c.result.Unknown? || c.receiptDigest != c.digest then
      f.(findings := f.findings + [Finding(ReceiptInvalid, c.id)])
    else if c.receiptType.value in f.accepted then f.(findings := f.findings + [Finding(ReceiptDuplicate, c.id)])
    else Fold(f.accepted + {c.receiptType.value},
              f.findings + if c.result.value.Passed? then [] else [Finding(ReceiptFailed, c.id)])
  }

  function ReceiptFold(fingerprint: string, receipts: seq<Candidate>): Fold {
    if receipts == [] then Fold({}, []) else
      var n := |receipts| - 1;
      ReceiptTurn(ReceiptFold(fingerprint, receipts[..n]), fingerprint, receipts[n], n)
  }

  function MissingFindings(required: seq<ValidationClass>, accepted: set<ValidationClass>): seq<Finding> {
    if required == [] then [] else
      var last := required[|required| - 1];
      MissingFindings(required[..|required| - 1], accepted) +
      if last !in accepted then [Finding(ReceiptMissing, ClassText(last))] else []
  }

  function BindingFindings(request: Request, snapshot: Snapshot, fingerprintOf: Fingerprint): seq<Finding>
    requires snapshot.Snapshot?
  {
    (if request.snapshotId != snapshot.snapshotId then [Finding(SnapshotManifestMismatch, "snapshot_id")] else []) +
    if request.fingerprint != fingerprintOf(request.artifactId, snapshot.snapshotId, request.rootIdentity,
                                            snapshot.manifestDigest, snapshot.pyprojectDigest)
    then [Finding(ArtifactFingerprintMismatch, "artifact:" + request.artifactId)] else []
  }

  predicate ProfileSupported(request: Request, snapshot: Snapshot)
    requires snapshot.Snapshot?
  {
    request.profile.Known? && snapshot.backend == BACKEND
  }

  predicate IsRootModule(path: string) { EndsWith(path, ".py") && '/' !in path }

  function PackagingFindings(request: Request, snapshot: Snapshot): seq<Finding>
    requires snapshot.Snapshot?
  {
    if request.profile.Unknown? then [Finding(UnsupportedPackagingProfile, "profile:" + request.profile.text)]
    else if snapshot.backend != BACKEND then [Finding(UnsupportedPackagingProfile, "backend:" + snapshot.backend)]
    else if snapshot.pyModules == [] then
      [Finding(if exists i, j :: 0 <= i < j < |snapshot.filePaths| && IsRootModule(snapshot.filePaths[i])
                                 && IsRootModule(snapshot.filePaths[j])
               then PackageLayoutAmbiguous else PackageConfigurationMissing, "pyproject.toml")]
    else if exists m :: m in snapshot.pyModules && ModuleFile(m) !in snapshot.filePaths
    then [Finding(PackageConfigurationMissing, "pyproject.toml")]
    else []
  }

  /** The shared findings list every check appends to. */
  class FindingLog {
    var findings: seq<Finding>

    constructor ()
      ensures findings == []
    {
      findings := [];
    }

    method ClassifyHygiene(policy: seq<(string, HygieneClass)>, observed: seq<string>)
      modifies this
      ensures findings == old(findings) +
              (if "" in observed then [Finding(HygienePolicyViolation, "hygiene_input")] else [])
                          + HygieneFindings(policy, SafePaths(observed))
    {
      var paths := SafePaths(observed);
      if "" in observed {
        findings := findings + [Finding(HygienePolicyViolation, "hygiene_input")];
      }
      ghost var before := findings;
      for i := 0 to |policy|
        invariant findings == before + HygieneFindings(policy[..i], paths)
      {
        assert policy[..i + 1][..i] == policy[..i];
        var present := exists p :: p in paths && PolicyMatches(policy[i].0, p);
        if (policy[i].1.PolicyViolation? && present) || (policy[i].1.MustBeAbsent? && present) {
          findings := findings + [Finding(HygienePolicyViolation, policy[i].0)];
        }
      }
      assert policy[..|policy|] == policy;
    }

    method ValidateEntrypoints(expected: seq<string>, declared: seq<string>)
      modifies this
      ensures findings == old(findings) + EntrypointFindings(expected, declared)
    {
      for i := 0 to |expected|
        invariant findings == old(findings) + EntrypointFindings(expected[..i], declared)
      {
        assert expected[..i + 1][..i] == expected[..i];
        if expected[i] !in declared {
          findings := findings + [Finding(EntrypointMissing, expected[i])];
        }
      }
      assert expected[..|expected|] == expected;
    }

    /** The receipt loop with its dictionary of accepted receipts, then the required classes. */
    method ValidateReceipts(request: Request, receipts: seq<Candidate>)
      modifies this
      ensures var fold := ReceiptFold(request.fingerprint, receipts);
              findings == old(findings) + fold.findings + MissingFindings(request.requiredClasses, fold.accepted)
    {
      var receiptByType: map<ValidationClass, Candidate> := map[];
      for i := 0 to |receipts|
        invariant ReceiptFold(request.fingerprint, receipts[..i]).accepted == receiptByType.Keys
        invariant findings == old(findings) + ReceiptFold(request.fingerprint, receipts[..i]).findings
      {
        var candidate := receipts[i];
        assert receipts[..i + 1][..i] == receipts[..i];
        if candidate.NotAReceipt? {
          findings := findings + [Finding(ReceiptInvalid, PositionReference(i))];
          continue;
        }
        if candidate.receiptType.Unknown? {
          findings := findings + [Finding(ReceiptUnknownClass, candidate.id)];
          continue;
        }
        if candidate.fingerprint != request.fingerprint {
          findings := findings + [Finding(ArtifactFingerprintMismatch, candidate.id)];
          continue;
        }
        if candidate.result.Unknown? || candidate.receiptDigest != candidate.digest {
          findings := findings + [Finding(ReceiptInvalid, candidate.id)];
          continue;
        }
        if candidate.receiptType.value in receiptByType {
          findings := findings + [Finding(ReceiptDuplicate, candidate.id)];
          continue;
        }
        receiptByType := receiptByType[candidate.receiptType.value := candidate];
        if !candidate.result.value.Passed? {
          findings := findings + [Finding(ReceiptFailed, candidate.id)];
        }
      }
      assert receipts[..|receipts|] == receipts;
      ghost var before := findings;
      var required := request.requiredClasses;
      for i := 0 to |required|
        invariant findings == before + MissingFindings(required[..i], receiptByType.Keys)
      {
        assert required[..i + 1][..i] == required[..i];
        if required[i] !in receiptByType {
          findings := findings + [Finding(ReceiptMissing, ClassText(required[i]))];
        }
      }
      assert required[..|required|] == required;
    }
  }
}
