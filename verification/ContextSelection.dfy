/** `select` from ranked candidates to the final projection, with its omission report. */
module ContextSelection {
  import opened ContextNeighborhood
  import opened ContextBudgeting
  import opened ContextExcerpts
  import Ordering

  /** `sum(counts.values())`. */
  method SumOf(counts: map<string, nat>) returns (total: nat)
    ensures total == Sum(counts)
  {
    total := 0;
    var rest := counts;
    while rest != map[]
      invariant total + Sum(rest) == Sum(counts)
      decreases |rest|
    {
      var k :| k in rest;
      SumWithout(rest, k);
      total := total + rest[k];
      rest := rest - {k};
    }
  }

  /** Adds one counter dictionary onto another, entry by entry. */
  method Merge(counts: map<string, nat>, extra: map<string, nat>) returns (merged: map<string, nat>)
    ensures Sum(merged) == Sum(counts) + Sum(extra)
    ensures forall k :: At(merged, k) == At(counts, k) + At(extra, k)
  {
    NothingCounted();
    SumIsZeroWhenAllAre(map[]);
    hide *;
    merged := counts;
    var rest := extra;
    while rest != map[]
      invariant Sum(merged) + Sum(rest) == Sum(counts) + Sum(extra)
      invariant forall k :: At(merged, k) + At(rest, k) == At(counts, k) + At(extra, k)
      decreases |rest|
    {
      var k :| k in rest;
      SumWithout(rest, k);
      AtWithout(rest, k);
      BumpAddsToSum(merged, k, rest[k]);
      merged := Bump(merged, k, rest[k]);
      rest := rest - {k};
    }
  }

  lemma AtWithout(counts: map<string, nat>, k: string)
    requires k in counts
    ensures forall j :: At(counts, j) == At(counts - {k}, j) + if j == k then counts[k] else 0
  {}

  /** The dictionary of omitted counts `select` reports. */
  function OmittedCounts(files: nat, symbols: nat, dependencies: nat, findings: nat, excerpts: nat): map<string, nat> {
    map["files" := files, "symbols" := symbols, "dependencies" := dependencies,
        "source_findings" := findings, "excerpts" := excerpts]
  }

  lemma OmittedCountsAdd(files: nat, symbols: nat, dependencies: nat, findings: nat, excerpts: nat)
    ensures Sum(OmittedCounts(files, symbols, dependencies, findings, excerpts)) ==
            files + symbols + dependencies + findings + excerpts
  {
    var a := Bump(map[], "files", files);
    var b := Bump(a, "symbols", symbols);
    var c := Bump(b, "dependencies", dependencies);
    var d := Bump(c, "source_findings", findings);
    var e := Bump(d, "excerpts", excerpts);
    KeysDiffer();
    assert e == OmittedCounts(files, symbols, dependencies, findings, excerpts);
    BumpAddsToSum(map[], "files", files);
    BumpAddsToSum(a, "symbols", symbols);
    BumpAddsToSum(b, "dependencies", dependencies);
    BumpAddsToSum(c, "source_findings", findings);
    BumpAddsToSum(d, "excerpts", excerpts);
    hide Bump, Sum;
  }

  lemma KeysDiffer()
    ensures "symbols" !in {"files"} && "dependencies" !in {"files", "symbols"}
    ensures "source_findings" !in {"files", "symbols", "dependencies", "excerpts"}
    ensures "excerpts" !in {"files", "symbols", "dependencies"}
  {
    assert |"files"| == 5 && |"symbols"| == 7 && |"dependencies"| == 12 &&
           |"source_findings"| == 15 && |"excerpts"| == 8;
  }

  lemma {:induction false} SumIsZeroWhenAllAre(counts: map<string, nat>)
    ensures Sum(counts) == 0 <==> forall k :: k in counts ==> counts[k] == 0
    decreases |counts|
  {
    forall k | k in counts ensures Sum(counts) >= counts[k] { SumWithout(counts, k); }
    if k :| k in counts {
      SumWithout(counts, k);
      SumIsZeroWhenAllAre(counts - {k});
    }
  }

  datatype Report = Report(omittedCounts: map<string, nat>, omissionReasons: map<string, nat>, truncated: bool)

  function Due(k: string, reason: string, n: nat): nat { if k == reason then n else 0 }

  /** How often each reason is reported. */
  function ReasonCount(k: string, files: nat, symbols: nat, dependencies: nat,
                       p: Projection, excerptReasons: map<string, nat>): nat {
    Due(k, "file_limit", files) + Due(k, "symbol_limit", symbols) + Due(k, "dependency_limit", dependencies)
    + Due(k, "total_context_budget", p.omittedFindings + p.omittedExcerpts) + At(excerptReasons, k)
  }

  /** Which amount is reported under which name and which reason. */
  lemma ReportsExactly(files: nat, symbols: nat, dependencies: nat, p: Projection, excerptReasons: map<string, nat>,
                       excerpts: nat, k: string)
    ensures At(OmittedCounts(files, symbols, dependencies, p.omittedFindings, excerpts), k) ==
            (if k == "files" then files else if k == "symbols" then symbols
             else if k == "dependencies" then dependencies
             else if k == "source_findings" then p.omittedFindings else if k == "excerpts" then excerpts else 0)
    ensures ReasonCount(k, files, symbols, dependencies, p, excerptReasons) ==
            At(excerptReasons, k) +
            (if k == "file_limit" then files else if k == "symbol_limit" then symbols
             else if k == "dependency_limit" then dependencies
             else if k == "total_context_budget" then p.omittedFindings + p.omittedExcerpts else 0)
  {
    KeysDiffer();
    assert |"file_limit"| == 10 && |"symbol_limit"| == 12 && |"dependency_limit"| == 16;
    assert |"total_context_budget"| == 20;
  }

  /** Counts and reasons of everything left out, which always add up to the same number. */
  method ReportOmissions(files: nat, symbols: nat, dependencies: nat, p: Projection, excerptReasons: map<string, nat>)
    returns (report: Report)
    ensures Sum(report.omissionReasons) == Sum(report.omittedCounts)
    ensures report.omittedCounts ==
            OmittedCounts(files, symbols, dependencies, p.omittedFindings, p.omittedExcerpts + Sum(excerptReasons))
    ensures forall k :: At(report.omissionReasons, k) == ReasonCount(k, files, symbols, dependencies, p, excerptReasons)
    ensures Sum(report.omittedCounts) ==
            files + symbols + dependencies + p.omittedFindings + p.omittedExcerpts + Sum(excerptReasons)
    ensures report.truncated <==> Sum(report.omissionReasons) > 0
  {
    hide Sum, Bump, At, OmittedCounts;
    SumIsZeroWhenAllAre(map[]);
    NothingCounted();
    var reasons := BumpIfAny(excerptReasons, "total_context_budget", p.omittedExcerpts);
    var omittedExcerpts := SumOf(reasons);
    var counts := OmittedCounts(files, symbols, dependencies, p.omittedFindings, omittedExcerpts);
    OmittedCountsAdd(files, symbols, dependencies, p.omittedFindings, omittedExcerpts);
    var omission: map<string, nat> := map[];
    omission := BumpIfAny(omission, "file_limit", files);
    omission := BumpIfAny(omission, "symbol_limit", symbols);
    omission := BumpIfAny(omission, "dependency_limit", dependencies);
    omission := BumpIfAny(omission, "total_context_budget", p.omittedFindings);
    omission := Merge(omission, reasons);
    SumIsZeroWhenAllAre(counts);
    report := Report(counts, omission, exists k :: k in counts && counts[k] != 0);
  }

  lemma NothingCounted()
    ensures forall k :: At(map[], k) == 0
  {}

  method BumpIfAny(counts: map<string, nat>, k: string, n: nat) returns (r: map<string, nat>)
    ensures Sum(r) == Sum(counts) + n
    ensures forall j :: At(r, j) == At(counts, j) + Due(j, k, n)
  {
    if n > 0 {
      BumpAddsToSum(counts, k, n);
      return Bump(counts, k, n);
    }
    r := counts;
  }

  datatype Selected = Selected(
    files: seq<Ranked<string>>, symbols: seq<Ranked<Symbol>>, dependencies: seq<Ranked<Dependency>>,
    projection: Projection, report: Report, insufficient: bool)

  /** How the selection renders its evidence: texts of the findings, file reads and excerpt anchors. */
  datatype Rendering = Rendering(
    findingsOf: (seq<Ranked<string>>, seq<Ranked<Symbol>>, seq<Ranked<Dependency>>) -> seq<string>,
    read: string -> Sanitized, anchorOf: (seq<Ranked<Symbol>>, string) -> int)

  function Paths(files: seq<Ranked<string>>): seq<string> {
    seq(|files|, i requires 0 <= i < |files| => files[i].item)
  }

  function Anchors(rendering: Rendering, symbols: seq<Ranked<Symbol>>): string -> int {
    path => rendering.anchorOf(symbols, path)
  }

  /** Every candidate is kept, the summary and all findings are in full, and every file's text is shown whole. */
  predicate IsComplete(s: Selected, files: seq<Ranked<string>>, symbols: seq<Ranked<Symbol>>,
                       dependencies: seq<Ranked<Dependency>>, summary: string, rendering: Rendering) {
    && |s.files| == |files| && |s.symbols| == |symbols| && |s.dependencies| == |dependencies|
    && s.projection.summary == summary
    && s.projection.findings == rendering.findingsOf(s.files, s.symbols, s.dependencies)
    && ShowsAll(s.projection.excerpts, Paths(s.files), rendering.read)
  }

  /** What the report adds up to. */
  function Omissions(s: Selected, files: int, symbols: int, dependencies: int,
                     rendering: Rendering, budget: ContextBudget): int {
    var paths, findings := Paths(s.files), rendering.findingsOf(s.files, s.symbols, s.dependencies);
    (files - |s.files|) + (symbols - |s.symbols|) + (dependencies - |s.dependencies|)
    + (|findings| - |s.projection.findings|)
    + (|Shown(paths, rendering.read, budget.maxExcerpts)| - |s.projection.excerpts|)
    + |ReasonsOf(paths, rendering.read, Anchors(rendering, s.symbols), budget)|
  }

  /** No amount in the report is negative, so they are all zero when they add up to zero. */
  lemma OmitsNothingExactly(s: Selected, files: nat, symbols: nat, dependencies: nat,
                            rendering: Rendering, budget: ContextBudget)
    ensures var paths, findings := Paths(s.files), rendering.findingsOf(s.files, s.symbols, s.dependencies);
            var shown := Shown(paths, rendering.read, budget.maxExcerpts);
            |s.files| <= files && |s.symbols| <= symbols && |s.dependencies| <= dependencies
            && |s.projection.findings| <= |findings| && |s.projection.excerpts| <= |shown| ==>
              (Omissions(s, files, symbols, dependencies, rendering, budget) == 0 <==>
                && |s.files| == files && |s.symbols| == symbols && |s.dependencies| == dependencies
                && |s.projection.findings| == |findings| && |s.projection.excerpts| == |shown|
                && ReasonsOf(paths, rendering.read, Anchors(rendering, s.symbols), budget) == [])
  {
    hide Shown, ReasonsOf, Paths, Anchors;
  }

  lemma CompleteMeans(s: Selected, files: seq<Ranked<string>>, symbols: seq<Ranked<Symbol>>,
                      dependencies: seq<Ranked<Dependency>>, summary: string, rendering: Rendering)
    ensures IsComplete(s, files, symbols, dependencies, summary, rendering) <==>
              && |s.files| == |files| && |s.symbols| == |symbols| && |s.dependencies| == |dependencies|
              && s.projection.summary == summary
              && s.projection.findings == rendering.findingsOf(s.files, s.symbols, s.dependencies)
              && ShowsAll(s.projection.excerpts, Paths(s.files), rendering.read)
  {
    hide ShowsAll, Paths;
  }

  /** A selection is complete exactly when it omits nothing and cuts neither the summary nor any window. */
  lemma CompleteExactly(s: Selected, files: seq<Ranked<string>>, symbols: seq<Ranked<Symbol>>,
                        dependencies: seq<Ranked<Dependency>>, summary: string, rendering: Rendering,
                        budget: ContextBudget, excerpts: seq<Excerpt>)
    requires |s.files| <= |files| && |s.symbols| <= |symbols| && |s.dependencies| <= |dependencies|
    requires s.projection.summary == summary <==> |summary| <= budget.maxTotalCharacters / 4
    requires var p, findings := s.projection, rendering.findingsOf(s.files, s.symbols, s.dependencies);
             && p.findings == Select(findings, Greedy(findings, |p.summary|, budget.maxTotalCharacters))
             && p.excerpts == Select(excerpts, Greedy(Contents(excerpts), |p.summary| + Total(p.findings),
                                                      budget.maxTotalCharacters))
    requires AreExcerptsOf(excerpts, Shown(Paths(s.files), rendering.read, budget.maxExcerpts), rendering.read,
                           Anchors(rendering, s.symbols), budget)
    ensures IsComplete(s, files, symbols, dependencies, summary, rendering) <==>
              && Omissions(s, |files|, |symbols|, |dependencies|, rendering, budget) == 0
              && |summary| <= budget.maxTotalCharacters / 4
              && AllFit(Paths(s.files), rendering.read, Anchors(rendering, s.symbols), budget.maxExcerptLines)
  {
    hide *;
    CompleteMeans(s, files, symbols, dependencies, summary, rendering);
    var p, findings := s.projection, rendering.findingsOf(s.files, s.symbols, s.dependencies);
    OmitsNothingExactly(s, |files|, |symbols|, |dependencies|, rendering, budget);
    var ofFindings := Greedy(findings, |p.summary|, budget.maxTotalCharacters);
    var ofExcerpts := Greedy(Contents(excerpts), |p.summary| + Total(p.findings), budget.maxTotalCharacters);
    SelectAll(findings, ofFindings);
    SelectAll(excerpts, ofExcerpts);
    ExcerptsShowAllExactly(Paths(s.files), excerpts, ofExcerpts, rendering.read, Anchors(rendering, s.symbols), budget);
  }

  /** Ranked truncation, excerpts, total budget and report, in the order `select` runs them. */
  method Run(files: seq<Ranked<string>>, symbols: seq<Ranked<Symbol>>, dependencies: seq<Ranked<Dependency>>,
             summary: string, rendering: Rendering, budget: ContextBudget)
    returns (s: Selected)
    ensures s.projection.TotalCharacters() <= budget.maxTotalCharacters
    ensures s.files == TakeRanked(files, budget.maxFiles).0 && s.symbols == TakeRanked(symbols, budget.maxSymbols).0
    ensures s.dependencies == TakeRanked(dependencies, budget.maxDependencies).0
    ensures AreBest(s.files, files, budget.maxFiles) && AreBest(s.symbols, symbols, budget.maxSymbols)
    ensures AreBest(s.dependencies, dependencies, budget.maxDependencies)
    ensures |s.projection.excerpts| <= budget.maxExcerpts
    ensures var findings := rendering.findingsOf(s.files, s.symbols, s.dependencies);
            IsMaximalSelection(findings, findings, s.projection.findings,
                               s.projection.TotalCharacters(), budget.maxTotalCharacters)
    ensures exists excerpts ::
              && AreExcerptsOf(excerpts, Shown(Paths(s.files), rendering.read, budget.maxExcerpts), rendering.read,
                               Anchors(rendering, s.symbols), budget)
              && IsMaximalSelection(excerpts, Contents(excerpts), s.projection.excerpts,
                                    s.projection.TotalCharacters(), budget.maxTotalCharacters)
    ensures Sum(s.report.omissionReasons) == Sum(s.report.omittedCounts)
    ensures s.report.truncated <==> Sum(s.report.omittedCounts) > 0
    ensures s.insufficient <==> files == [] || budget.maxFiles == 0
    ensures Sum(s.report.omittedCounts) == Omissions(s, |files|, |symbols|, |dependencies|, rendering, budget)
    // What it leaves unsaid: a shortened summary, and lines outside an excerpt's window.
    ensures s.projection.summary == summary <==> |summary| <= budget.maxTotalCharacters / 4
    ensures IsComplete(s, files, symbols, dependencies, summary, rendering) <==>
              && !s.report.truncated && |summary| <= budget.maxTotalCharacters / 4
              && AllFit(Paths(s.files), rendering.read, Anchors(rendering, s.symbols), budget.maxExcerptLines)
  {
    var (keptFiles, omittedFiles) := TakeRanked(files, budget.maxFiles);
    var (keptSymbols, omittedSymbols) := TakeRanked(symbols, budget.maxSymbols);
    var (keptDependencies, omittedDependencies) := TakeRanked(dependencies, budget.maxDependencies);
    TruncationKeepsTheBest(files, budget.maxFiles);
    TruncationKeepsTheBest(symbols, budget.maxSymbols);
    TruncationKeepsTheBest(dependencies, budget.maxDependencies);
    hide *;
    var anchorOf := Anchors(rendering, keptSymbols);
    var excerpts, omissions := Excerpts(Paths(keptFiles), rendering.read, anchorOf, budget);
    var findings := rendering.findingsOf(keptFiles, keptSymbols, keptDependencies);
    var projection := ApplyTotalBudget(summary, findings, excerpts, budget.maxTotalCharacters);
    var report := ReportOmissions(omittedFiles, omittedSymbols, omittedDependencies, projection, omissions);
    s := Selected(keptFiles, keptSymbols, keptDependencies, projection, report, keptFiles == []);
    OmissionsAddUp(s, |files|, |symbols|, |dependencies|, rendering, budget, omissions);
    CompleteExactly(s, files, symbols, dependencies, summary, rendering, budget, excerpts);
  }

  lemma OmissionsAddUp(s: Selected, files: int, symbols: int, dependencies: int, rendering: Rendering,
                       budget: ContextBudget, tally: map<string, nat>)
    requires var paths := Paths(s.files);
             Tallies(tally, ReasonsOf(paths, rendering.read, Anchors(rendering, s.symbols), budget))
    ensures var paths, findings := Paths(s.files), rendering.findingsOf(s.files, s.symbols, s.dependencies);
            Omissions(s, files, symbols, dependencies, rendering, budget) ==
            (files - |s.files|) + (symbols - |s.symbols|) + (dependencies - |s.dependencies|)
            + (|findings| - |s.projection.findings|)
            + (|Shown(paths, rendering.read, budget.maxExcerpts)| - |s.projection.excerpts|) + Sum(tally)
  {
    hide Shown, ReasonsOf, Paths, Anchors, Sum;
  }

  /** Without candidates nothing is ever reported, though a long summary is cut. */
  method SilentSummaryCut(summary: string, rendering: Rendering, budget: ContextBudget) returns (s: Selected)
    requires |summary| > budget.maxTotalCharacters / 4 && rendering.findingsOf([], [], []) == []
    ensures !s.report.truncated && s.projection.summary != summary
  {
    s := Run([], [], [], summary, rendering, budget);
    assert TakeRanked<string>([], budget.maxFiles) == ([], 0) && TakeRanked<Symbol>([], budget.maxSymbols) == ([], 0);
    assert TakeRanked<Dependency>([], budget.maxDependencies) == ([], 0);
    assert Paths([]) == [];
  }

  /** One file, all within every limit but the line window: the lines outside it go unreported. */
  method SilentWindowCut(file: Ranked<string>, rendering: Rendering, budget: ContextBudget) returns (s: Selected)
    requires budget.maxFiles >= 1 && budget.maxExcerpts >= 1
    requires ShownUncut(file.item, rendering.read, Anchors(rendering, []), budget)
    requires !FitsWindow(rendering.read(file.item).lines, Anchors(rendering, [])(file.item), budget.maxExcerptLines)
    requires Total(rendering.findingsOf([file], [], [])) + budget.maxExcerptCharacters <= budget.maxTotalCharacters
    ensures !s.report.truncated && !IsComplete(s, [file], [], [], "", rendering)
  {
    OneFileGivesNoReason(file, rendering, budget);
    TakeOne(file, budget.maxFiles);
    assert TakeRanked<Symbol>([], budget.maxSymbols) == ([], 0);
    assert TakeRanked<Dependency>([], budget.maxDependencies) == ([], 0);
    hide *;
    s := Run([file], [], [], "", rendering, budget);
    ghost var taken: seq<Excerpt> :|
      && AreExcerptsOf(taken, [file.item], rendering.read, Anchors(rendering, []), budget)
      && IsMaximalSelection(taken, Contents(taken), s.projection.excerpts,
                            s.projection.TotalCharacters(), budget.maxTotalCharacters);
    OneExcerptIsShort(file.item, taken, rendering.read, Anchors(rendering, []), budget);
    AmpleBudgetKeepsAll(s.projection, rendering.findingsOf([file], [], []), taken, budget.maxTotalCharacters);
  }

  lemma OneFileGivesNoReason(file: Ranked<string>, rendering: Rendering, budget: ContextBudget)
    requires budget.maxExcerpts >= 1 && ShownUncut(file.item, rendering.read, Anchors(rendering, []), budget)
    requires !FitsWindow(rendering.read(file.item).lines, Anchors(rendering, [])(file.item), budget.maxExcerptLines)
    ensures Paths([file]) == [file.item] && Shown([file.item], rendering.read, budget.maxExcerpts) == [file.item]
    ensures ReasonsOf([file.item], rendering.read, Anchors(rendering, []), budget) == []
    ensures !AllFit([file.item], rendering.read, Anchors(rendering, []), budget.maxExcerptLines)
  {
    NoReasonsExactly([file.item], rendering.read, Anchors(rendering, []), budget);
    NoReasonsAllShown([file.item], rendering.read, Anchors(rendering, []), budget);
    assert file.item in [file.item];
    hide Shown, ReasonsOf, FitsWindow, Window;
  }

  lemma OneExcerptIsShort(path: string, taken: seq<Excerpt>, read: string -> Sanitized, anchorOf: string -> int,
                          budget: ContextBudget)
    requires AreExcerptsOf(taken, [path], read, anchorOf, budget)
    ensures |taken| == 1 && Total(Contents(taken)) <= budget.maxExcerptCharacters
  {
    assert Contents(taken) == [taken[0].content];
    assert Total(Contents(taken)) == Total([]) + |taken[0].content|;
    hide Window;
  }

  lemma TakeOne<T>(candidate: Ranked<T>, limit: nat)
    requires limit >= 1
    ensures TakeRanked([candidate], limit) == ([candidate], 0)
  {
    assert [candidate][1..] == [];
    assert Ordering.Sort([candidate], RankLe) == Ordering.Insert(candidate, [], RankLe) == [candidate];
  }
}
