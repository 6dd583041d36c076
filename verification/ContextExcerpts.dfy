/** Excerpts of the selected files: line windows, character cuts, and what they leave out. */
module ContextExcerpts {
  import opened Values
  import opened ContextBudgeting

  datatype ContextBudget = ContextBudget(
    maxFiles: nat, maxSymbols: nat, maxDependencies: nat, maxExcerpts: nat, maxExcerptLines: nat,
    maxExcerptCharacters: nat, maxTotalCharacters: nat)

  /** What the security policy gives back for a file. */
  datatype Sanitized = Withheld(reason: string) | Readable(lines: seq<string>)

  function JoinLines(lines: seq<string>): string { Join(lines, '\n') }

  /** Python's `lines[start:end]` for a nonnegative start. */
  function Slice(lines: seq<string>, start: nat, end: nat): seq<string> {
    if start < end <= |lines| then lines[start..end] else []
  }

  /** Where the window of an excerpt begins: just above the anchor line. */
  function WindowStart(anchor: int): nat { if anchor - 1 > 0 then anchor - 1 else 0 }

  function WindowEnd(lines: seq<string>, anchor: int, maxLines: nat): nat {
    if WindowStart(anchor) + maxLines <= |lines| then WindowStart(anchor) + maxLines else |lines|
  }

  /** The text an excerpt may show: at most so many lines. */
  function Window(lines: seq<string>, anchor: int, maxLines: nat): string {
    JoinLines(Slice(lines, WindowStart(anchor), WindowEnd(lines, anchor, maxLines)))
  }

  /** The lines of a window, one by one: from the anchor on, as far as there are lines and the limit allows. */
  lemma WindowLines(lines: seq<string>, anchor: int, maxLines: nat)
    requires anchor >= 1
    ensures var left := |lines| - (anchor - 1);
            var shown := Slice(lines, WindowStart(anchor), WindowEnd(lines, anchor, maxLines));
            && |shown| == (if left <= 0 then 0 else if left <= maxLines then left else maxLines)
            && (forall k :: 0 <= k < |shown| ==> shown[k] == lines[anchor - 1 + k])
            && (shown != [] && (forall line :: line in lines ==> '\n' !in line) ==>
                  Split(Window(lines, anchor, maxLines), '\n') == shown)
  {
    var shown := Slice(lines, WindowStart(anchor), WindowEnd(lines, anchor, maxLines));
    if shown != [] && forall line :: line in lines ==> '\n' !in line { SplitUndoesJoin(shown, '\n'); }
  }

  /** A file is shown exactly when it is readable and there is still room. */
  lemma {:induction false} ChosenExactly(files: seq<string>, read: string -> Sanitized, limit: nat, i: nat)
    requires i < |files|
    ensures var mask := Chosen(files, read, limit);
            mask[i] <==> read(files[i]).Readable? && i - Omitted(mask[..i]) < limit
  {
    var n := |files| - 1;
    assert Chosen(files, read, limit)[..n] == Chosen(files[..n], read, limit);
    if i < n {
      ChosenExactly(files[..n], read, limit, i);
      assert Chosen(files[..n], read, limit)[..i] == Chosen(files, read, limit)[..i];
    } else {
      SelectCounts(files[..n], Chosen(files[..n], read, limit));
    }
  }

  /** The window covers the whole text: it starts at the top and is long enough, unless there is no text. */
  predicate FitsWindow(lines: seq<string>, anchor: int, maxLines: nat) {
    JoinLines(lines) == "" || (WindowStart(anchor) == 0 && |lines| <= maxLines)
  }

  lemma {:induction false} JoinedLength(lines: seq<string>)
    ensures lines != [] ==> |JoinLines(lines)| == Total(lines) + |lines| - 1
  {
    if lines != [] {
      JoinedLength(lines[..|lines| - 1]);
      if |lines| == 1 { assert Total(lines[..0]) == 0 && Join(lines, '\n') == lines[0]; }
    }
  }

  /** Fewer lines, less text. */
  lemma SliceIsShorter(lines: seq<string>, start: nat, end: nat)
    requires start < end <= |lines|
    ensures |JoinLines(lines[start..end])| <= |JoinLines(lines)|
    ensures end - start < |lines| ==> |JoinLines(lines[start..end])| < |JoinLines(lines)|
  {
    JoinedLength(lines);
    JoinedLength(lines[start..end]);
    assert lines == lines[..start] + lines[start..end] + lines[end..];
    TotalOfConcat(lines[..start] + lines[start..end], lines[end..]);
    TotalOfConcat(lines[..start], lines[start..end]);
    hide JoinLines, Total;
  }

  /** A window never shows more than the text, and shows all of it exactly when the text fits. */
  lemma WindowShowsAll(lines: seq<string>, anchor: int, maxLines: nat)
    ensures |Window(lines, anchor, maxLines)| <= |JoinLines(lines)|
    ensures Window(lines, anchor, maxLines) == JoinLines(lines) <==> FitsWindow(lines, anchor, maxLines)
  {
    var start, end := WindowStart(anchor), WindowEnd(lines, anchor, maxLines);
    assert JoinLines([]) == "" && lines[0..|lines|] == lines;
    hide JoinLines;
    if start < end { SliceIsShorter(lines, start, end); }
  }

  /** The excerpt taken of one readable file. An anchor past the end shows no text, under its own line number. */
  ghost predicate IsExcerptOf(e: Excerpt, path: string, file: Sanitized, anchor: int, budget: ContextBudget) {
    file.Readable? && e.path == path &&
    var window := Window(file.lines, anchor, budget.maxExcerptLines);
    var first, last := WindowStart(anchor) + 1, WindowEnd(file.lines, anchor, budget.maxExcerptLines);
    && e.content == (if |window| > budget.maxExcerptCharacters then window[..budget.maxExcerptCharacters] else window)
    && e.lineStart == first && e.lineEnd == if last > first then last else first
  }

  /** An excerpt says where it is from: its path, and its first and last line, counted from one. */
  lemma ExcerptFields(e: Excerpt, path: string, file: Sanitized, anchor: int, budget: ContextBudget)
    requires IsExcerptOf(e, path, file, anchor, budget) && anchor >= 1
    ensures var past := anchor - 1 + budget.maxExcerptLines;
            var last := if past <= |file.lines| then past else |file.lines|;
            && e.path == path && e.lineStart == anchor && e.lineEnd == (if last >= anchor then last else anchor)
            && e.content <= Window(file.lines, anchor, budget.maxExcerptLines)
            && (|e.content| == budget.maxExcerptCharacters ||
                  (|e.content| < budget.maxExcerptCharacters &&
                   e.content == Window(file.lines, anchor, budget.maxExcerptLines)))
  {
    hide Window;
  }

  /** The excerpts are those of the given files, one each, in order. */
  ghost predicate AreExcerptsOf(excerpts: seq<Excerpt>, files: seq<string>,
                                read: string -> Sanitized, anchorOf: string -> int, budget: ContextBudget) {
    && |excerpts| == |files|
    && forall i :: 0 <= i < |excerpts| ==>
         IsExcerptOf(excerpts[i], files[i], read(files[i]), anchorOf(files[i]), budget)
  }

  /** Which files show an excerpt: the first readable ones, up to the limit. */
  function Chosen(files: seq<string>, read: string -> Sanitized, limit: nat): (mask: seq<bool>)
    ensures |mask| == |files|
  {
    if files == [] then [] else
      var front, last := files[..|files| - 1], files[|files| - 1];
      var mask := Chosen(front, read, limit);
      mask + [|Select(front, mask)| < limit && read(last).Readable?]
  }

  function Shown(files: seq<string>, read: string -> Sanitized, limit: nat): seq<string> {
    Select(files, Chosen(files, read, limit))
  }

  /** Why files were passed over or their excerpts cut, in file order. */
  function ReasonsOf(files: seq<string>, read: string -> Sanitized, anchorOf: string -> int,
                     budget: ContextBudget): seq<string> {
    if files == [] then [] else
      var front, last := files[..|files| - 1], files[|files| - 1];
      ReasonsOf(front, read, anchorOf, budget) +
      ReasonsAgainst(last, |Shown(front, read, budget.maxExcerpts)|, read, anchorOf, budget)
  }

  function ReasonsAgainst(path: string, shown: nat, read: string -> Sanitized,
                          anchorOf: string -> int, budget: ContextBudget): seq<string> {
    if shown >= budget.maxExcerpts then ["excerpt_limit"] else
      match read(path)
      case Withheld(reason) => [reason]
      case Readable(lines) =>
        if |Window(lines, anchorOf(path), budget.maxExcerptLines)| > budget.maxExcerptCharacters
        then ["excerpt_character_limit"] else []
  }

  /** The one reason a file can give, by room, readability and length. */
  lemma ReasonsAgainstExactly(path: string, shown: nat, read: string -> Sanitized, anchorOf: string -> int,
                              budget: ContextBudget)
    ensures var reasons := ReasonsAgainst(path, shown, read, anchorOf, budget);
            && (reasons == ["excerpt_limit"] <== shown >= budget.maxExcerpts)
            && (shown < budget.maxExcerpts && read(path).Withheld? ==> reasons == [read(path).reason])
            && (shown < budget.maxExcerpts && read(path).Readable? ==>
                  reasons == if ShownUncut(path, read, anchorOf, budget) then [] else ["excerpt_character_limit"])
  {
    hide Window;
  }

  /** The counter holds how often each reason occurs. */
  ghost predicate Tallies(counts: map<string, nat>, reasons: seq<string>) {
    Sum(counts) == |reasons| && forall k :: At(counts, k) == multiset(reasons)[k]
  }

  lemma TallyOne(counts: map<string, nat>, reasons: seq<string>, reason: string)
    requires Tallies(counts, reasons)
    ensures Tallies(Bump(counts, reason, 1), reasons + [reason])
  {
    BumpAddsToSum(counts, reason, 1);
    hide Bump, Sum, At;
  }

  /** What one more file adds to the excerpts shown and to the reasons. */
  lemma NextFile(files: seq<string>, i: nat, read: string -> Sanitized, anchorOf: string -> int, budget: ContextBudget)
    requires i < |files|
    ensures var shown := Shown(files[..i], read, budget.maxExcerpts);
            && Shown(files[..i + 1], read, budget.maxExcerpts) ==
               shown + (if |shown| < budget.maxExcerpts && read(files[i]).Readable? then [files[i]] else [])
            && ReasonsOf(files[..i + 1], read, anchorOf, budget) ==
               ReasonsOf(files[..i], read, anchorOf, budget) + ReasonsAgainst(files[i], |shown|, read, anchorOf, budget)
  {
    assert files[..i + 1][..i] == files[..i];
    var mask := Chosen(files[..i], read, budget.maxExcerpts);
    SelectStep(files, mask, |Select(files[..i], mask)| < budget.maxExcerpts && read(files[i]).Readable?, i);
    hide Select, ReasonsAgainst;
  }

  /** A file whose excerpt gives no reason to report anything. */
  predicate ShownUncut(path: string, read: string -> Sanitized, anchorOf: string -> int, budget: ContextBudget) {
    read(path).Readable?
    && |Window(read(path).lines, anchorOf(path), budget.maxExcerptLines)| <= budget.maxExcerptCharacters
  }

  /** All files are shown exactly when there are not too many and all are readable. */
  lemma {:induction false} AllShownExactly(files: seq<string>, read: string -> Sanitized, limit: nat)
    ensures |Shown(files, read, limit)| <= limit && |Shown(files, read, limit)| <= |files|
    ensures |Shown(files, read, limit)| == |files| <==>
              |files| <= limit && forall path :: path in files ==> read(path).Readable?
    ensures |Shown(files, read, limit)| == |files| ==> Shown(files, read, limit) == files
  {
    if files != [] {
      var n := |files| - 1;
      AllShownExactly(files[..n], read, limit);
      assert files == files[..n] + [files[n]];
      ShowNext(files, read, limit);
      hide Shown;
    }
  }

  lemma ShowNext(files: seq<string>, read: string -> Sanitized, limit: nat)
    requires files != []
    ensures var n := |files| - 1;
            var shown := Shown(files[..n], read, limit);
            Shown(files, read, limit) ==
            shown + if |shown| < limit && read(files[n]).Readable? then [files[n]] else []
  {
    var n := |files| - 1;
    SelectStep(files, Chosen(files[..n], read, limit),
               |Shown(files[..n], read, limit)| < limit && read(files[n]).Readable?, n);
    assert files[..n + 1] == files;
    hide Select;
  }

  /** Exactly when the excerpts give nothing to report. */
  lemma {:induction false} NoReasonsExactly(files: seq<string>, read: string -> Sanitized,
                                            anchorOf: string -> int, budget: ContextBudget)
    ensures ReasonsOf(files, read, anchorOf, budget) == [] <==>
              |files| <= budget.maxExcerpts && forall path :: path in files ==> ShownUncut(path, read, anchorOf, budget)
  {
    if files != [] {
      var n := |files| - 1;
      assert files[..n + 1] == files == files[..n] + [files[n]];
      assert forall path :: path in files[..n] && ShownUncut(path, read, anchorOf, budget) ==> read(path).Readable?;
      hide Shown, Window, ReasonsOf, ReasonsAgainst, ShownUncut;
      NextFile(files, n, read, anchorOf, budget);
      NoReasonsExactly(files[..n], read, anchorOf, budget);
      AllShownExactly(files[..n], read, budget.maxExcerpts);
      NoReasonAgainst(files[n], |Shown(files[..n], read, budget.maxExcerpts)|, read, anchorOf, budget);
    }
  }

  lemma NoReasonAgainst(path: string, shown: nat, read: string -> Sanitized, anchorOf: string -> int,
                        budget: ContextBudget)
    ensures ReasonsAgainst(path, shown, read, anchorOf, budget) == [] <==>
              shown < budget.maxExcerpts && ShownUncut(path, read, anchorOf, budget)
  {
    hide Window;
  }

  /** Without any reason every file is shown. */
  lemma NoReasonsAllShown(files: seq<string>, read: string -> Sanitized, anchorOf: string -> int, budget: ContextBudget)
    requires ReasonsOf(files, read, anchorOf, budget) == []
    ensures Shown(files, read, budget.maxExcerpts) == files
  {
    NoReasonsExactly(files, read, anchorOf, budget);
    AllShownExactly(files, read, budget.maxExcerpts);
  }

  /** The excerpts show the full texts of the given files. */
  predicate ShowsAll(excerpts: seq<Excerpt>, files: seq<string>, read: string -> Sanitized) {
    |excerpts| == |files| && forall i :: 0 <= i < |files| ==> ShowsWhole(excerpts[i], read(files[i]))
  }

  predicate ShowsWhole(e: Excerpt, file: Sanitized) { file.Readable? && e.content == JoinLines(file.lines) }

  predicate AllFit(files: seq<string>, read: string -> Sanitized, anchorOf: string -> int, maxLines: nat) {
    forall path :: path in files && read(path).Readable? ==> FitsWindow(read(path).lines, anchorOf(path), maxLines)
  }

  lemma WholeExcerpt(e: Excerpt, path: string, read: string -> Sanitized, anchorOf: string -> int,
                     budget: ContextBudget)
    requires IsExcerptOf(e, path, read(path), anchorOf(path), budget)
    ensures ShowsWhole(e, read(path)) <==>
              FitsWindow(read(path).lines, anchorOf(path), budget.maxExcerptLines)
              && ShownUncut(path, read, anchorOf, budget)
  {
    WindowShowsAll(read(path).lines, anchorOf(path), budget.maxExcerptLines);
    hide FitsWindow, Window, JoinLines;
  }

  /** The excerpts taken of some files show them whole exactly when each fits its window and needs no cut. */
  lemma ShowsAllExactly(files: seq<string>, taken: seq<Excerpt>, read: string -> Sanitized, anchorOf: string -> int,
                        budget: ContextBudget)
    requires AreExcerptsOf(taken, files, read, anchorOf, budget)
    ensures ShowsAll(taken, files, read) <==>
              && AllFit(files, read, anchorOf, budget.maxExcerptLines)
              && forall path :: path in files ==> ShownUncut(path, read, anchorOf, budget)
  {
    assert forall i :: 0 <= i < |files| ==> read(files[i]).Readable?;
    hide IsExcerptOf, FitsWindow, Window, ShowsWhole;
    forall i | 0 <= i < |files|
      ensures ShowsWhole(taken[i], read(files[i])) <==>
                FitsWindow(read(files[i]).lines, anchorOf(files[i]), budget.maxExcerptLines)
                && ShownUncut(files[i], read, anchorOf, budget)
    {
      WholeExcerpt(taken[i], files[i], read, anchorOf, budget);
    }
    assert forall path :: path in files ==> exists i :: 0 <= i < |files| && files[i] == path;
    assert forall i :: 0 <= i < |files| ==> files[i] in files;
  }

  /** Excerpts show everything exactly when none is left out, nothing is reported, and every window is long enough. */
  lemma ExcerptsShowAllExactly(files: seq<string>, taken: seq<Excerpt>, mask: seq<bool>,
                               read: string -> Sanitized, anchorOf: string -> int, budget: ContextBudget)
    requires AreExcerptsOf(taken, Shown(files, read, budget.maxExcerpts), read, anchorOf, budget) && |mask| == |taken|
    ensures |taken| == |Shown(files, read, budget.maxExcerpts)|
    ensures ShowsAll(Select(taken, mask), files, read) <==>
              && |Select(taken, mask)| == |taken| && ReasonsOf(files, read, anchorOf, budget) == []
              && AllFit(files, read, anchorOf, budget.maxExcerptLines)
  {
    SelectAll(taken, mask);
    AllShownExactly(files, read, budget.maxExcerpts);
    NoReasonsExactly(files, read, anchorOf, budget);
    assert ShowsAll(Select(taken, mask), files, read) ==> |Select(taken, mask)| == |files|;
    assert |taken| == |Shown(files, read, budget.maxExcerpts)|;
    assert forall path :: path in files && ShownUncut(path, read, anchorOf, budget) ==> read(path).Readable?;
    hide Select, Shown, ReasonsOf, AreExcerptsOf, AllFit, ShownUncut, ShowsAll;
    if Shown(files, read, budget.maxExcerpts) == files { ShowsAllExactly(files, taken, read, anchorOf, budget); }
  }

  /** One excerpt, and whether it had to be shortened. */
  method CutExcerpt(path: string, file: Sanitized, anchor: int, budget: ContextBudget)
    returns (excerpt: Excerpt, shortened: bool)
    requires file.Readable?
    ensures IsExcerptOf(excerpt, path, file, anchor, budget) && |excerpt.content| <= budget.maxExcerptCharacters
    ensures shortened <==> |Window(file.lines, anchor, budget.maxExcerptLines)| > budget.maxExcerptCharacters
  {
    var start := if anchor - 1 > 0 then anchor - 1 else 0;
    var end := if start + budget.maxExcerptLines <= |file.lines| then start + budget.maxExcerptLines else |file.lines|;
    var content := JoinLines(Slice(file.lines, start, end));
    shortened := |content| > budget.maxExcerptCharacters;
    if shortened {
      content := content[..budget.maxExcerptCharacters];
    }
    excerpt := Excerpt(path, start + 1, if end > start + 1 then end else start + 1, content);
  }

  /** The excerpt loop, with a tally of what was passed over or cut. */
  method Excerpts(files: seq<string>, read: string -> Sanitized, anchorOf: string -> int, budget: ContextBudget)
    returns (excerpts: seq<Excerpt>, omissions: map<string, nat>)
    ensures AreExcerptsOf(excerpts, Shown(files, read, budget.maxExcerpts), read, anchorOf, budget)
    ensures Tallies(omissions, ReasonsOf(files, read, anchorOf, budget))
    ensures |excerpts| == |Shown(files, read, budget.maxExcerpts)| <= budget.maxExcerpts
  {
    excerpts, omissions := [], map[];
    assert files[..|files|] == files;
    hide AreExcerptsOf, IsExcerptOf, Window, ReasonsOf, Shown, Tallies;
    NothingShownYet(read, anchorOf, budget);
    for i := 0 to |files|
      invariant AreExcerptsOf(excerpts, Shown(files[..i], read, budget.maxExcerpts), read, anchorOf, budget)
      invariant |excerpts| == |Shown(files[..i], read, budget.maxExcerpts)| <= budget.maxExcerpts
      invariant Tallies(omissions, ReasonsOf(files[..i], read, anchorOf, budget))
    {
      var path := files[i];
      ghost var reasons := ReasonsOf(files[..i], read, anchorOf, budget);
      NextFile(files, i, read, anchorOf, budget);
      if |excerpts| >= budget.maxExcerpts {
        TallyOne(omissions, reasons, "excerpt_limit");
        omissions := Bump(omissions, "excerpt_limit", 1);
        continue;
      }
      var sanitized := read(path);
      if sanitized.Withheld? {
        TallyOne(omissions, reasons, sanitized.reason);
        omissions := Bump(omissions, sanitized.reason, 1);
        continue;
      }
      var excerpt, shortened := CutExcerpt(path, sanitized, anchorOf(path), budget);
      if shortened {
        TallyOne(omissions, reasons, "excerpt_character_limit");
        omissions := Bump(omissions, "excerpt_character_limit", 1);
      }
      AddExcerpt(excerpts, Shown(files[..i], read, budget.maxExcerpts), excerpt, path, read, anchorOf, budget);
      excerpts := excerpts + [excerpt];
    }
  }

  lemma NothingShownYet(read: string -> Sanitized, anchorOf: string -> int, budget: ContextBudget)
    ensures Shown([], read, budget.maxExcerpts) == [] && ReasonsOf([], read, anchorOf, budget) == []
    ensures AreExcerptsOf([], [], read, anchorOf, budget) && Tallies(map[], [])
  {}

  lemma AddExcerpt(excerpts: seq<Excerpt>, files: seq<string>, e: Excerpt, path: string,
                   read: string -> Sanitized, anchorOf: string -> int, budget: ContextBudget)
    requires AreExcerptsOf(excerpts, files, read, anchorOf, budget) &&
             IsExcerptOf(e, path, read(path), anchorOf(path), budget)
    ensures AreExcerptsOf(excerpts + [e], files + [path], read, anchorOf, budget)
  {
    hide IsExcerptOf;
  }
}
