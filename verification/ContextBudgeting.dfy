/** Ranked truncation, the greedy character budget, excerpts, and the accounting of what was omitted. */
module ContextBudgeting {
  import opened ContextNeighborhood
  import Ordering

  /** One dictionary entry with the text its key sorts by. */
  datatype Ranked<T> = Ranked(item: T, candidate: Candidate, key: string)

  /** Ascending on negated score, then reason, then key text. */
  predicate RankLe<T>(a: Ranked<T>, b: Ranked<T>) {
    || a.candidate.score > b.candidate.score
    || (a.candidate.score == b.candidate.score &&
        if a.candidate.reason == b.candidate.reason then Ordering.StringLe(a.key, b.key)
        else Ordering.StringLe(a.candidate.reason, b.candidate.reason))
  }

  lemma RankOrderIsTotal<T(!new)>()
    ensures Ordering.TotalPreorder(RankLe<T>)
  {
    forall a: Ranked<T>, b: Ranked<T> ensures RankLe(a, b) || RankLe(b, a) {
      Ordering.StringLeTotal(a.key, b.key);
      Ordering.StringLeTotal(a.candidate.reason, b.candidate.reason);
    }
    forall a: Ranked<T>, b: Ranked<T>, c: Ranked<T> | RankLe(a, b) && RankLe(b, c) ensures RankLe(a, c) {
      RankLeTransitive(a, b, c);
    }
  }

  lemma RankLeTransitive<T>(a: Ranked<T>, b: Ranked<T>, c: Ranked<T>)
    requires RankLe(a, b) && RankLe(b, c)
    ensures RankLe(a, c)
  {
    var x, y, z := a.candidate.reason, b.candidate.reason, c.candidate.reason;
    if a.candidate.score == b.candidate.score == c.candidate.score {
      if x == y && y == z {
        Ordering.StringLeTransitive(a.key, b.key, c.key);
      } else if x != y && y != z {
        Ordering.StringLeTransitive(x, y, z);
        Ordering.StringLeTotal(x, y);
      }
    }
  }

  /** Sorts all candidates, keeps the first `limit`, and counts the rest. */
  function TakeRanked<T>(candidates: seq<Ranked<T>>, limit: nat): (seq<Ranked<T>>, nat) {
    var ranked := Ordering.Sort(candidates, RankLe);
    if |ranked| <= limit then (ranked, 0) else (ranked[..limit], |ranked| - limit)
  }

  /** `a` scores at least as high as `b`; on equal scores its reason, then its key, comes no later. */
  predicate NoWorse<T>(a: Ranked<T>, b: Ranked<T>) {
    && a.candidate.score >= b.candidate.score
    && (a.candidate.score == b.candidate.score ==>
          && Ordering.StringLe(a.candidate.reason, b.candidate.reason)
          && (a.candidate.reason == b.candidate.reason ==> Ordering.StringLe(a.key, b.key)))
  }

  /** `kept` are the `limit` best candidates, best first. */
  ghost predicate AreBest<T(!new)>(kept: seq<Ranked<T>>, candidates: seq<Ranked<T>>, limit: nat) {
    && |kept| == (if |candidates| <= limit then |candidates| else limit)
    && (forall i, j :: 0 <= i < j < |kept| ==> NoWorse(kept[i], kept[j]))
    && exists rest: seq<Ranked<T>> ::
         && multiset(kept) + multiset(rest) == multiset(candidates)
         && forall k, r :: k in kept && r in rest ==> NoWorse(k, r)
  }

  /** The kept entries and the rest share out all candidates, and nothing kept is worse than something left out. */
  lemma TruncationKeepsTheBest<T(!new)>(candidates: seq<Ranked<T>>, limit: nat)
    ensures var (kept, omitted) := TakeRanked(candidates, limit);
            && AreBest(kept, candidates, limit)
            && |kept| + omitted == |candidates| && |kept| == if |candidates| <= limit then |candidates| else limit
  {
    var (kept, omitted) := TakeRanked(candidates, limit);
    var ranked := Ordering.Sort(candidates, RankLe);
    RankOrderIsTotal<T>();
    Ordering.SortSorts(candidates, RankLe);
    Ordering.SortKeepsElements(candidates, RankLe);
    var rest := ranked[|kept|..];
    assert ranked == kept + rest;
    hide RankLe, NoWorse, TakeRanked, Ordering.TotalPreorder, Ordering.Sort;
    Ordering.SortedSplits(kept, rest, RankLe);
    RankedIsNoWorse<T>();
    assert multiset(kept) + multiset(rest) == multiset(candidates);
  }

  lemma RankedIsNoWorse<T(!new)>()
    ensures forall a: Ranked<T>, b: Ranked<T> :: RankLe(a, b) ==> NoWorse(a, b)
  {
    forall a: Ranked<T>, b: Ranked<T> | RankLe(a, b) ensures NoWorse(a, b) {
      Ordering.StringLeTotal(a.candidate.reason, b.candidate.reason);
    }
  }

  function Total(texts: seq<string>): nat {
    if texts == [] then 0 else Total(texts[..|texts| - 1]) + |texts[|texts| - 1]|
  }

  /** Which texts the greedy pass keeps, starting with `used` characters already taken. */
  function Greedy(texts: seq<string>, used: nat, limit: nat): (mask: seq<bool>)
    ensures |mask| == |texts|
  {
    if texts == [] then [] else
      var front, last := texts[..|texts| - 1], texts[|texts| - 1];
      var mask := Greedy(front, used, limit);
      mask + [used + Total(Select(front, mask)) + |last| <= limit]
  }

  function Select<T>(items: seq<T>, mask: seq<bool>): seq<T>
    requires |mask| == |items|
  {
    if items == [] then [] else
      Select(items[..|items| - 1], mask[..|mask| - 1]) + if mask[|mask| - 1] then [items[|items| - 1]] else []
  }

  function Omitted(mask: seq<bool>): nat {
    if mask == [] then 0 else Omitted(mask[..|mask| - 1]) + if mask[|mask| - 1] then 0 else 1
  }

  lemma {:induction false} SelectCounts<T>(items: seq<T>, mask: seq<bool>)
    requires |mask| == |items|
    ensures |Select(items, mask)| + Omitted(mask) == |items|
  {
    if items != [] { SelectCounts(items[..|items| - 1], mask[..|mask| - 1]); }
  }

  /** `Omitted` counts what the mask leaves out. */
  lemma {:induction false} OmittedExactly(mask: seq<bool>)
    ensures Omitted(mask) == |set i | 0 <= i < |mask| && !mask[i]|
  {
    if mask != [] {
      var n := |mask| - 1;
      OmittedExactly(mask[..n]);
      var before := set i | 0 <= i < n && !mask[..n][i];
      assert (set i | 0 <= i < |mask| && !mask[i]) == if mask[n] then before else before + {n};
    }
  }

  /** What the mask picks keeps its order: each picked item stands behind the items picked before it. */
  lemma {:induction false} SelectExactly<T>(items: seq<T>, mask: seq<bool>, k: nat)
    requires |mask| == |items| && k < |items| && mask[k]
    ensures var at := k - Omitted(mask[..k]); 0 <= at < |Select(items, mask)| && Select(items, mask)[at] == items[k]
  {
    var n := |items| - 1;
    SelectCounts(items[..n], mask[..n]);
    if k < n {
      SelectExactly(items[..n], mask[..n], k);
      assert mask[..n][..k] == mask[..k];
    }
  }

  /** Each text is kept exactly when it still fits after those kept before it. */
  lemma {:induction false} GreedyExactly(texts: seq<string>, used: nat, limit: nat, i: nat)
    requires i < |texts|
    ensures var mask := Greedy(texts, used, limit);
            mask[i] <==> used + Total(Select(texts[..i], mask[..i])) + |texts[i]| <= limit
  {
    var n := |texts| - 1;
    assert Greedy(texts, used, limit)[..n] == Greedy(texts[..n], used, limit);
    if i < n {
      GreedyExactly(texts[..n], used, limit, i);
      assert texts[..n][..i] == texts[..i];
      assert Greedy(texts[..n], used, limit)[..i] == Greedy(texts, used, limit)[..i];
    }
  }

  lemma GreedyStep(texts: seq<string>, used: nat, limit: nat, i: nat)
    requires i < |texts|
    ensures var mask := Greedy(texts[..i], used, limit);
            Greedy(texts[..i + 1], used, limit) == mask + [used + Total(Select(texts[..i], mask)) + |texts[i]| <= limit]
  {
    assert texts[..i + 1][..i] == texts[..i];
  }

  /** The last decision of the greedy pass, and the total it leaves. */
  lemma GreedyLast(texts: seq<string>, used: nat, limit: nat)
    requires texts != []
    ensures var n := |texts| - 1;
            var fronts, mask := Greedy(texts[..n], used, limit), Greedy(texts, used, limit);
            var before := used + Total(Select(texts[..n], fronts));
            && mask[..n] == fronts && (mask[n] <==> before + |texts[n]| <= limit)
            && used + Total(Select(texts, mask)) == before + if mask[n] then |texts[n]| else 0
  {
    var n := |texts| - 1;
    var fronts, mask := Greedy(texts[..n], used, limit), Greedy(texts, used, limit);
    assert mask[..n] == fronts;
    var kept := Select(texts[..n], fronts);
    TotalStep(kept, texts[n]);
    assert kept + [] == kept;
  }

  /** The greedy pass stays within the limit and is maximal: everything omitted would overflow the final total. */
  lemma {:induction false} GreedyFitsAndIsMaximal(texts: seq<string>, used: nat, limit: nat)
    requires used <= limit
    ensures var mask := Greedy(texts, used, limit);
            && used + Total(Select(texts, mask)) <= limit
            && forall i :: 0 <= i < |texts| && !mask[i] ==> used + Total(Select(texts, mask)) + |texts[i]| > limit
  {
    if texts != [] {
      var n := |texts| - 1;
      GreedyFitsAndIsMaximal(texts[..n], used, limit);
      GreedyLast(texts, used, limit);
      hide Greedy, Select, Total;
      var fronts, mask := Greedy(texts[..n], used, limit), Greedy(texts, used, limit);
      forall i | 0 <= i < |texts| && !mask[i] ensures used + Total(Select(texts, mask)) + |texts[i]| > limit {
        if i < n { assert fronts[i] == mask[i] && texts[..n][i] == texts[i]; }
      }
    }
  }

  lemma TotalStep(texts: seq<string>, text: string)
    ensures Total(texts + [text]) == Total(texts) + |text|
  {
    assert (texts + [text])[..|texts|] == texts;
  }

  datatype Excerpt = Excerpt(path: string, lineStart: int, lineEnd: int, content: string)

  function Contents(excerpts: seq<Excerpt>): (texts: seq<string>)
    ensures |texts| == |excerpts|
  {
    seq(|excerpts|, i requires 0 <= i < |excerpts| => excerpts[i].content)
  }

  datatype Projection = Projection(
    summary: string, findings: seq<string>, excerpts: seq<Excerpt>, omittedFindings: nat, omittedExcerpts: nat)
  {
    function TotalCharacters(): nat { |summary| + Total(findings) + Total(Contents(excerpts)) }
  }

  lemma {:induction false} SelectContents(excerpts: seq<Excerpt>, mask: seq<bool>)
    requires |mask| == |excerpts|
    ensures Contents(Select(excerpts, mask)) == Select(Contents(excerpts), mask)
  {
    if excerpts != [] {
      SelectContents(excerpts[..|excerpts| - 1], mask[..|mask| - 1]);
      assert Contents(excerpts)[..|excerpts| - 1] == Contents(excerpts[..|excerpts| - 1]);
    }
  }

  lemma SelectStep<T>(items: seq<T>, mask: seq<bool>, keep: bool, i: nat)
    requires i < |items| && |mask| == i
    ensures Select(items[..i + 1], mask + [keep]) == Select(items[..i], mask) + if keep then [items[i]] else []
    ensures Omitted(mask + [keep]) == Omitted(mask) + if keep then 0 else 1
  {
    assert items[..i + 1][..i] == items[..i] && (mask + [keep])[..i] == mask;
  }

  /** The findings loop: keeps whatever still fits, counts the rest. */
  method RetainFindings(findings: seq<string>, start: nat, maxTotal: nat)
    returns (retained: seq<string>, omitted: nat, used: nat)
    ensures retained == Select(findings, Greedy(findings, start, maxTotal))
    ensures omitted == Omitted(Greedy(findings, start, maxTotal))
    ensures used == start + Total(retained)
  {
    retained, omitted, used := [], 0, start;
    for i := 0 to |findings|
      invariant retained == Select(findings[..i], Greedy(findings[..i], start, maxTotal))
      invariant omitted == Omitted(Greedy(findings[..i], start, maxTotal))
      invariant used == start + Total(retained)
    {
      var finding := findings[i];
      GreedyStep(findings, start, maxTotal, i);
      SelectStep(findings, Greedy(findings[..i], start, maxTotal), used + |finding| <= maxTotal, i);
      if used + |finding| > maxTotal {
        omitted := omitted + 1;
        continue;
      }
      TotalStep(retained, finding);
      retained := retained + [finding];
      used := used + |finding|;
    }
    assert findings[..|findings|] == findings;
  }

  /** What the greedy pass keeps of the first `i` excerpts. */
  function KeptBefore(excerpts: seq<Excerpt>, start: nat, limit: nat, i: nat): seq<Excerpt>
    requires i <= |excerpts|
  {
    Select(excerpts[..i], Greedy(Contents(excerpts)[..i], start, limit))
  }

  function OmittedBefore(excerpts: seq<Excerpt>, start: nat, limit: nat, i: nat): nat
    requires i <= |excerpts|
  {
    Omitted(Greedy(Contents(excerpts)[..i], start, limit))
  }

  lemma RetainOne(excerpts: seq<Excerpt>, start: nat, limit: nat, i: nat)
    requires i < |excerpts|
    ensures var kept, e := KeptBefore(excerpts, start, limit, i), excerpts[i];
            var fits := start + Total(Contents(kept)) + |e.content| <= limit;
            && KeptBefore(excerpts, start, limit, i + 1) == (if fits then kept + [e] else kept)
            && OmittedBefore(excerpts, start, limit, i + 1) ==
               OmittedBefore(excerpts, start, limit, i) + (if fits then 0 else 1)
            && Total(Contents(kept + [e])) == Total(Contents(kept)) + |e.content|
  {
    var texts, kept, e := Contents(excerpts), KeptBefore(excerpts, start, limit, i), excerpts[i];
    var mask := Greedy(texts[..i], start, limit);
    assert Contents(excerpts[..i]) == texts[..i] && texts[i] == e.content;
    assert Contents(kept + [e]) == Contents(kept) + [e.content];
    hide Select, Greedy, Omitted, Total, Contents;
    SelectContents(excerpts[..i], mask);
    GreedyStep(texts, start, limit, i);
    SelectStep(excerpts, mask, start + Total(Contents(kept)) + |e.content| <= limit, i);
    TotalStep(Contents(kept), e.content);
  }

  lemma RetainAll(excerpts: seq<Excerpt>, start: nat, limit: nat)
    ensures KeptBefore(excerpts, start, limit, 0) == [] && OmittedBefore(excerpts, start, limit, 0) == 0
    ensures var mask := Greedy(Contents(excerpts), start, limit);
            && KeptBefore(excerpts, start, limit, |excerpts|) == Select(excerpts, mask)
            && OmittedBefore(excerpts, start, limit, |excerpts|) == Omitted(mask)
            && Contents(Select(excerpts, mask)) == Select(Contents(excerpts), mask)
    ensures Total(Contents([])) == 0
  {
    assert excerpts[..|excerpts|] == excerpts && Contents(excerpts)[..|excerpts|] == Contents(excerpts);
    SelectContents(excerpts, Greedy(Contents(excerpts), start, limit));
  }

  /** The excerpts loop, on excerpt contents. */
  method RetainExcerpts(excerpts: seq<Excerpt>, start: nat, maxTotal: nat)
    returns (retained: seq<Excerpt>, omitted: nat)
    ensures retained == Select(excerpts, Greedy(Contents(excerpts), start, maxTotal))
    ensures Contents(retained) == Select(Contents(excerpts), Greedy(Contents(excerpts), start, maxTotal))
    ensures omitted == Omitted(Greedy(Contents(excerpts), start, maxTotal))
  {
    hide *;
    RetainAll(excerpts, start, maxTotal);
    retained, omitted := [], 0;
    var used := start;
    for i := 0 to |excerpts|
      invariant retained == KeptBefore(excerpts, start, maxTotal, i)
      invariant omitted == OmittedBefore(excerpts, start, maxTotal, i)
      invariant used == start + Total(Contents(retained))
    {
      var excerpt := excerpts[i];
      RetainOne(excerpts, start, maxTotal, i);
      if used + |excerpt.content| > maxTotal {
        omitted := omitted + 1;
        continue;
      }
      retained := retained + [excerpt];
      used := used + |excerpt.content|;
    }
  }

  /** Keeping as many as there are keeps all. */
  lemma {:induction false} SelectAll<T>(items: seq<T>, mask: seq<bool>)
    requires |mask| == |items|
    ensures |Select(items, mask)| <= |items| && (|Select(items, mask)| == |items| ==> Select(items, mask) == items)
  {
    if items != [] { SelectAll(items[..|items| - 1], mask[..|mask| - 1]); }
  }

  lemma {:induction false} TotalOfConcat(a: seq<string>, b: seq<string>)
    ensures Total(a + b) == Total(a) + Total(b)
    decreases |b|
  {
    if b == [] {
      assert a + b == a;
    } else {
      assert (a + b)[..|a + b| - 1] == a + b[..|b| - 1];
      TotalOfConcat(a, b[..|b| - 1]);
    }
  }

  /** `kept` is a subsequence of `items`, and each item left out of it would overflow on top of `total`. */
  ghost predicate IsMaximalSelection<T>(items: seq<T>, texts: seq<string>, kept: seq<T>, total: nat, limit: nat)
    requires |items| == |texts|
  {
    exists mask: seq<bool> :: |mask| == |items| && kept == Select(items, mask)
      && forall i :: 0 <= i < |items| && !mask[i] ==> total + |texts[i]| > limit
  }

  lemma {:induction false} SelectLeavesRoom(texts: seq<string>, mask: seq<bool>)
    requires |mask| == |texts|
    ensures Total(Select(texts, mask)) <= Total(texts)
    ensures forall i :: 0 <= i < |texts| && !mask[i] ==> Total(Select(texts, mask)) + |texts[i]| <= Total(texts)
  {
    if texts != [] {
      var n := |texts| - 1;
      SelectLeavesRoom(texts[..n], mask[..n]);
      assert Total(texts) == Total(texts[..n]) + |texts[n]|;
      SelectStep(texts, mask[..n], mask[n], n);
      assert texts[..n + 1] == texts && mask[..n] + [mask[n]] == mask;
      if mask[n] {
        TotalStep(Select(texts[..n], mask[..n]), texts[n]);
      } else {
        assert Select(texts, mask) == Select(texts[..n], mask[..n]);
      }
      forall i | 0 <= i < n ensures texts[..n][i] == texts[i] && mask[..n][i] == mask[i] {}
      hide Select, Total;
    }
  }

  /** A selection that is maximal within an ample limit keeps everything. */
  lemma AmpleLimitKeepsAll(texts: seq<string>, kept: seq<string>, rest: nat, limit: nat)
    requires IsMaximalSelection(texts, texts, kept, rest + Total(kept), limit) && rest + Total(texts) <= limit
    ensures kept == texts
  {
    var mask: seq<bool> :| |mask| == |texts| && kept == Select(texts, mask)
      && forall i :: 0 <= i < |texts| && !mask[i] ==> rest + Total(kept) + |texts[i]| > limit;
    SelectLeavesRoom(texts, mask);
    KeepAll(texts, mask);
  }

  lemma {:induction false} KeepAll<T>(items: seq<T>, mask: seq<bool>)
    requires |mask| == |items| && forall i :: 0 <= i < |items| ==> mask[i]
    ensures Select(items, mask) == items
  {
    if items != [] { KeepAll(items[..|items| - 1], mask[..|mask| - 1]); }
  }

  lemma SelectionOfContents(excerpts: seq<Excerpt>, kept: seq<Excerpt>, total: nat, limit: nat)
    requires IsMaximalSelection(excerpts, Contents(excerpts), kept, total, limit)
    ensures IsMaximalSelection(Contents(excerpts), Contents(excerpts), Contents(kept), total, limit)
    ensures Total(Contents(kept)) <= Total(Contents(excerpts))
  {
    var mask: seq<bool> :| |mask| == |excerpts| && kept == Select(excerpts, mask)
      && forall i :: 0 <= i < |excerpts| && !mask[i] ==> total + |Contents(excerpts)[i]| > limit;
    SelectContents(excerpts, mask);
    SelectLeavesRoom(Contents(excerpts), mask);
  }

  lemma SelectionOfTexts(texts: seq<string>, kept: seq<string>, total: nat, limit: nat)
    requires IsMaximalSelection(texts, texts, kept, total, limit)
    ensures Total(kept) <= Total(texts)
  {
    var mask: seq<bool> :| |mask| == |texts| && kept == Select(texts, mask)
      && forall i :: 0 <= i < |texts| && !mask[i] ==> total + |texts[i]| > limit;
    SelectLeavesRoom(texts, mask);
  }

  /** Where everything fits the total, the projection keeps everything. */
  lemma AmpleBudgetKeepsAll(p: Projection, findings: seq<string>, excerpts: seq<Excerpt>, limit: nat)
    requires IsMaximalSelection(findings, findings, p.findings, p.TotalCharacters(), limit)
    requires IsMaximalSelection(excerpts, Contents(excerpts), p.excerpts, p.TotalCharacters(), limit)
    requires |p.summary| + Total(findings) + Total(Contents(excerpts)) <= limit
    ensures p.findings == findings && |p.excerpts| == |excerpts|
  {
    hide IsMaximalSelection, Total;
    SelectionOfTexts(findings, p.findings, p.TotalCharacters(), limit);
    SelectionOfContents(excerpts, p.excerpts, p.TotalCharacters(), limit);
    AmpleLimitKeepsAll(findings, p.findings, |p.summary| + Total(Contents(p.excerpts)), limit);
    AmpleLimitKeepsAll(Contents(excerpts), Contents(p.excerpts), |p.summary| + Total(p.findings), limit);
    assert |Contents(p.excerpts)| == |Contents(excerpts)|;
  }

  /** Summary first (a quarter at most), then findings, then excerpts, each kept while it fits. */
  method ApplyTotalBudget(summary: string, findings: seq<string>, excerpts: seq<Excerpt>, maxTotal: nat)
    returns (p: Projection)
    ensures p.summary == summary[..if |summary| <= maxTotal / 4 then |summary| else maxTotal / 4]
    ensures p.TotalCharacters() <= maxTotal
    ensures |p.findings| + p.omittedFindings == |findings| && |p.excerpts| + p.omittedExcerpts == |excerpts|
    // Findings compete with the summary only, excerpts with the summary and the findings kept.
    ensures p.findings == Select(findings, Greedy(findings, |p.summary|, maxTotal))
    ensures p.excerpts == Select(excerpts, Greedy(Contents(excerpts), |p.summary| + Total(p.findings), maxTotal))
    ensures IsMaximalSelection(findings, findings, p.findings, p.TotalCharacters(), maxTotal)
    ensures IsMaximalSelection(excerpts, Contents(excerpts), p.excerpts, p.TotalCharacters(), maxTotal)
  {
    hide Greedy, Select, Total, Omitted, IsMaximalSelection;
    var summaryLimit := if |summary| <= maxTotal / 4 then |summary| else maxTotal / 4;
    var boundedSummary := summary[..summaryLimit];
    var retainedFindings, omittedFindings, used := RetainFindings(findings, |boundedSummary|, maxTotal);
    var retainedExcerpts, omittedExcerpts := RetainExcerpts(excerpts, used, maxTotal);
    p := Projection(boundedSummary, retainedFindings, retainedExcerpts, omittedFindings, omittedExcerpts);
    PassIsMaximal(findings, findings, |boundedSummary|, maxTotal, p.TotalCharacters());
    PassIsMaximal(excerpts, Contents(excerpts), used, maxTotal, p.TotalCharacters());
  }

  /** One greedy pass on `items` by their `texts`: in budget, counted, and maximal for any larger total. */
  lemma PassIsMaximal<T>(items: seq<T>, texts: seq<string>, used: nat, limit: nat, total: nat)
    requires used <= limit && |items| == |texts|
    ensures var mask := Greedy(texts, used, limit);
            && used + Total(Select(texts, mask)) <= limit
            && |Select(items, mask)| + Omitted(mask) == |items|
            && (total >= used + Total(Select(texts, mask)) ==>
                  IsMaximalSelection(items, texts, Select(items, mask), total, limit))
  {
    var mask := Greedy(texts, used, limit);
    GreedyFitsAndIsMaximal(texts, used, limit);
    SelectCounts(items, mask);
    hide Greedy, Select, Total, Omitted;
    assert forall i :: 0 <= i < |items| && !mask[i] ==> used + Total(Select(texts, mask)) + |texts[i]| > limit;
  }

  /** Sum of a counter dictionary. */
  ghost function Sum(counts: map<string, nat>): nat {
    if counts == map[] then 0 else
      var k :| k in counts;
      counts[k] + Sum(counts - {k})
  }

  lemma {:induction false} SumWithout(counts: map<string, nat>, k: string)
    requires k in counts
    ensures Sum(counts) == counts[k] + Sum(counts - {k})
    decreases |counts|
  {
    var p :| p in counts && Sum(counts) == counts[p] + Sum(counts - {p});
    if p != k {
      SumWithout(counts - {p}, k);
      SumWithout(counts - {k}, p);
      assert counts - {p} - {k} == counts - {k} - {p};
    }
  }

  /** What a `defaultdict(int)` counter holds for a key. */
  function At(counts: map<string, nat>, k: string): nat { if k in counts then counts[k] else 0 }

  /** The counter after `counts[k] += n`. */
  function Bump(counts: map<string, nat>, k: string, n: nat): map<string, nat> { counts[k := At(counts, k) + n] }

  lemma BumpAddsToSum(counts: map<string, nat>, k: string, n: nat)
    ensures Sum(Bump(counts, k, n)) == Sum(counts) + n
    ensures forall j :: At(Bump(counts, k, n), j) == At(counts, j) + if j == k then n else 0
  {
    var bumped := Bump(counts, k, n);
    SumWithout(bumped, k);
    if k in counts {
      SumWithout(counts, k);
      assert bumped - {k} == counts - {k};
    } else {
      assert bumped - {k} == counts;
    }
  }
}
