/** Adaptive planning: rules in priority order insert steps into a base plan. */
module AdaptivePlanner {
  import opened Wrappers
  import opened Values
  import Ordering

  datatype Priority = Low | Normal | High | Critical

  datatype Rule = Rule(id: string, condition: string, action: string, priority: Priority, confidence: real)

  datatype Step = Step(name: string, capability: string)

  function Rank(p: Priority): nat {
    match p
    case Critical => 4
    case High => 3
    case Normal => 2
    case Low => 1
  }

  /** Ascending on negated priority, then negated confidence, then id. */
  predicate RuleLe(a: Rule, b: Rule) {
    || Rank(a.priority) > Rank(b.priority)
    || (a.priority == b.priority &&
        (a.confidence > b.confidence || (a.confidence == b.confidence && Ordering.StringLe(a.id, b.id))))
  }

  lemma RuleOrderIsTotal()
    ensures Ordering.TotalPreorder(RuleLe)
  {
    forall a, b ensures RuleLe(a, b) || RuleLe(b, a) { Ordering.StringLeTotal(a.id, b.id); }
    forall a, b, c | RuleLe(a, b) && RuleLe(b, c) ensures RuleLe(a, c) {
      if a.priority == b.priority == c.priority && a.confidence == b.confidence == c.confidence {
        Ordering.StringLeTransitive(a.id, b.id, c.id);
      }
    }
  }

  /** The default strategy. */
  function FilterRules(rules: seq<Rule>): seq<Rule> { Ordering.Sort(rules, RuleLe) }

  /** What an action asks for; a step under a blank name cannot be made. */
  datatype Insertion = BeforeLast(step: Step) | AtEnd(step: Step) | Nothing | BlankName

  function ParseAction(action: string): Insertion {
    var parts := Split(action, ':');
    if parts[0] == "insert_worker" && |parts| > 1 then BeforeLast(Step("Adaptive " + parts[1] + " Worker", parts[1]))
    else if parts[0] == "insert_step" && |parts| > 2 then
      if IsBlank(parts[1]) then BlankName else AtEnd(Step(parts[1], parts[2]))
    else Nothing
  }

  function Insert(steps: seq<Step>, insertion: Insertion): seq<Step> {
    match insertion
    case BeforeLast(step) => var i := if steps == [] then 0 else |steps| - 1; steps[..i] + [step] + steps[i..]
    case AtEnd(step) => steps + [step]
    case Nothing => steps
    case BlankName => steps
  }

  /** A rule applies when its condition holds and its action is understood; the steps so far play no part. */
  predicate Applies(rule: Rule, matches: string -> bool) {
    matches(rule.condition) && (ParseAction(rule.action).BeforeLast? || ParseAction(rule.action).AtEnd?)
  }

  /** Applying this rule raises. */
  predicate Raises(rule: Rule, matches: string -> bool) {
    matches(rule.condition) && ParseAction(rule.action).BlankName?
  }

  function Keep(rules: seq<Rule>, matches: string -> bool, applying: bool): seq<Rule> {
    if rules == [] then [] else
      var last := rules[|rules| - 1];
      Keep(rules[..|rules| - 1], matches, applying) + if Applies(last, matches) == applying then [last] else []
  }

  /** The base plan after the given rules, in order. */
  function Rewritten(steps: seq<Step>, rules: seq<Rule>): seq<Step> {
    if rules == [] then steps
    else Insert(Rewritten(steps, rules[..|rules| - 1]), ParseAction(rules[|rules| - 1].action))
  }

  datatype PlanError = BlankStepName

  datatype AdaptivePlan = AdaptivePlan(base: seq<Step>, steps: seq<Step>, applied: seq<Rule>, ignored: seq<Rule>)

  /** The step list the rules rewrite in place. */
  class PlanDraft {
    var steps: seq<Step>

    constructor (steps: seq<Step>)
      ensures this.steps == steps
    {
      this.steps := steps;
    }

    /** Inserts what the action asks for; false if it is not understood, a failure if its step has no name. */
    method ApplyAction(action: string) returns (success: Result<bool, PlanError>)
      modifies this
      ensures steps == Insert(old(steps), ParseAction(action))
      ensures success == match ParseAction(action)
                         case BeforeLast(_) => Success(true)
                         case AtEnd(_) => Success(true)
                         case Nothing => Success(false)
                         case BlankName => Failure(BlankStepName)
      ensures success != Success(true) ==> steps == old(steps)
    {
      var parts := Split(action, ':');
      var cmd := parts[0];
      if cmd == "insert_worker" && |parts| > 1 {
        var cap := parts[1];
        var insertIdx := if |steps| > 0 then |steps| - 1 else 0;
        var newStep := Step("Adaptive " + cap + " Worker", cap);
        steps := steps[..insertIdx] + [newStep] + steps[insertIdx..];
        return Success(true);
      }
      if cmd == "insert_step" && |parts| > 2 {
        if IsBlank(parts[1]) {
          return Failure(BlankStepName);
        }
        var newStep := Step(parts[1], parts[2]);
        steps := steps + [newStep];
        return Success(true);
      }
      return Success(false);
    }
  }

  /** Every worker name is made of more than its capability, so it is never blank. */
  lemma WorkerNamesAreNotBlank(capability: string)
    ensures !IsBlank("Adaptive " + capability + " Worker")
  {
    var name := "Adaptive " + capability + " Worker";
    assert name[0] in name && !IsSpace(name[0]);
  }

  /**
   * Applies the sorted rules one by one; `matches` evaluates a condition against the planning context. The whole
   * call raises exactly when some rule whose condition holds would insert a step without a name.
   */
  method Plan(base: seq<Step>, rules: seq<Rule>, matches: string -> bool) returns (r: Result<AdaptivePlan, PlanError>)
    ensures r.Failure? <==> exists rule :: rule in rules && Raises(rule, matches)
    ensures r.Success? ==>
              var plan := r.value;
              && plan.base == base && plan.applied == Keep(FilterRules(rules), matches, true)
              && plan.ignored == Keep(FilterRules(rules), matches, false) && plan.steps == Rewritten(base, plan.applied)
  {
    var sorted := FilterRules(rules);
    Ordering.SortKeepsElements(rules, RuleLe);
    var applied: seq<Rule>, ignored: seq<Rule> := [], [];
    var draft := new PlanDraft(base);
    hide Ordering.Sort, ParseAction, Insert, RuleLe;
    for i := 0 to |sorted|
      invariant applied == Keep(sorted[..i], matches, true) && ignored == Keep(sorted[..i], matches, false)
      invariant draft.steps == Rewritten(base, applied) && fresh(draft)
      invariant forall rule :: rule in sorted[..i] ==> !Raises(rule, matches)
    {
      var rule := sorted[i];
      assert sorted[..i + 1] == sorted[..i] + [rule] && sorted[..i + 1][..i] == sorted[..i];
      if matches(rule.condition) {
        var success := draft.ApplyAction(rule.action);
        if success.Failure? {
          assert rule in rules && Raises(rule, matches);
          return Failure(success.error);
        }
        if success.value {
          assert (applied + [rule])[..|applied|] == applied;
          applied := applied + [rule];
        } else {
          ignored := ignored + [rule];
        }
      } else {
        ignored := ignored + [rule];
      }
    }
    assert sorted[..|sorted|] == sorted;
    r := Success(AdaptivePlan(base, draft.steps, applied, ignored));
  }

  ghost predicate IsSubsequence<T(!new)>(a: seq<T>, b: seq<T>) {
    a == [] || (b != [] && ((a[0] == b[0] && IsSubsequence(a[1..], b[1..])) || IsSubsequence(a, b[1..])))
  }

  lemma {:induction false} SubsequenceOfItself<T(!new)>(a: seq<T>)
    ensures IsSubsequence(a, a)
  {
    if a != [] { SubsequenceOfItself(a[1..]); }
  }

  lemma {:induction false} InsertionKeepsSubsequence<T(!new)>(a: seq<T>, b: seq<T>, i: nat, x: T)
    requires IsSubsequence(a, b) && i <= |b|
    ensures IsSubsequence(a, b[..i] + [x] + b[i..])
    decreases i
  {
    var longer := b[..i] + [x] + b[i..];
    if a != [] {
      if i == 0 {
        assert longer[1..] == b;
      } else {
        assert longer[0] == b[0] && longer[1..] == b[1..][..i - 1] + [x] + b[1..][i - 1..];
        if a[0] == b[0] && IsSubsequence(a[1..], b[1..]) {
          InsertionKeepsSubsequence(a[1..], b[1..], i - 1, x);
        } else {
          InsertionKeepsSubsequence(a, b[1..], i - 1, x);
        }
      }
    }
  }

  /** Rewriting keeps the base steps, in order, and adds exactly one step per applied rule. */
  lemma {:induction false} RewritingOnlyInserts(base: seq<Step>, applied: seq<Rule>)
    requires forall r :: r in applied ==> ParseAction(r.action).BeforeLast? || ParseAction(r.action).AtEnd?
    ensures IsSubsequence(base, Rewritten(base, applied))
    ensures |Rewritten(base, applied)| == |base| + |applied|
  {
    if applied == [] {
      SubsequenceOfItself(base);
    } else {
      var front, last := applied[..|applied| - 1], applied[|applied| - 1];
      RewritingOnlyInserts(base, front);
      assert last in applied;
      var steps := Rewritten(base, front);
      match ParseAction(last.action)
      case BeforeLast(step) =>
        InsertionKeepsSubsequence(base, steps, if steps == [] then 0 else |steps| - 1, step);
      case AtEnd(step) =>
        InsertionKeepsSubsequence(base, steps, |steps|, step);
        assert steps[..|steps|] + [step] + steps[|steps|..] == steps + [step];
    }
  }

  lemma KeepOne(rules: seq<Rule>, last: Rule, matches: string -> bool, applying: bool)
    ensures Keep(rules + [last], matches, applying) ==
            Keep(rules, matches, applying) + if Applies(last, matches) == applying then [last] else []
  {
    assert (rules + [last])[..|rules|] == rules;
  }

  lemma {:induction false} KeepPartitions(rules: seq<Rule>, matches: string -> bool)
    ensures multiset(Keep(rules, matches, true)) + multiset(Keep(rules, matches, false)) == multiset(rules)
  {
    if rules != [] {
      var front, last := rules[..|rules| - 1], rules[|rules| - 1];
      KeepPartitions(front, matches);
      KeepOne(front, last, matches, true);
      KeepOne(front, last, matches, false);
      assert rules == front + [last];
      hide *;
      var applied, ignored := Keep(front, matches, true), Keep(front, matches, false);
      if Applies(last, matches) {
        assert multiset(applied + [last]) == multiset(applied) + multiset{last};
      } else {
        assert multiset(ignored + [last]) == multiset(ignored) + multiset{last};
      }
    }
  }

  lemma {:induction false} KeepSelects(rules: seq<Rule>, matches: string -> bool, applying: bool)
    ensures forall r :: r in Keep(rules, matches, applying) ==> r in rules && (Applies(r, matches) <==> applying)
  {
    if rules != [] {
      var front, last := rules[..|rules| - 1], rules[|rules| - 1];
      KeepSelects(front, matches, applying);
      KeepOne(front, last, matches, applying);
      assert rules == front + [last];
      hide *;
    }
  }

  lemma {:induction false} KeepStaysSorted(rules: seq<Rule>, matches: string -> bool, applying: bool)
    requires Ordering.Sorted(rules, RuleLe)
    ensures Ordering.Sorted(Keep(rules, matches, applying), RuleLe)
    ensures forall r :: r in Keep(rules, matches, applying) ==> r in rules
  {
    if rules != [] {
      var front, last := rules[..|rules| - 1], rules[|rules| - 1];
      KeepStaysSorted(front, matches, applying);
      assert rules == front + [last];
      forall r | r in front ensures RuleLe(r, last) {
        var i :| 0 <= i < |front| && front[i] == r;
        assert rules[i] == r && rules[|front|] == last;
      }
    }
  }

  predicate HigherPriority(p: Priority, q: Priority) {
    (p.Critical? && !q.Critical?) || (p.High? && (q.Normal? || q.Low?)) || (p.Normal? && q.Low?)
  }

  /** Critical rules first, low ones last; then the surer first; then by id. */
  lemma RuleOrderExactly(a: Rule, b: Rule)
    ensures RuleLe(a, b) <==>
              || HigherPriority(a.priority, b.priority)
              || (a.priority == b.priority && a.confidence > b.confidence)
              || (a.priority == b.priority && a.confidence == b.confidence && Ordering.StringLe(a.id, b.id))
  {}

  ghost predicate InOrder(rules: seq<Rule>) {
    forall i, j :: 0 <= i < j < |rules| ==>
      && !HigherPriority(rules[j].priority, rules[i].priority)
      && (rules[i].priority == rules[j].priority ==> rules[i].confidence >= rules[j].confidence)
      && (rules[i].priority == rules[j].priority && rules[i].confidence == rules[j].confidence ==>
            Ordering.StringLe(rules[i].id, rules[j].id))
  }

  /** Under the default strategy applied and ignored rules share out the supplied ones, each in priority order. */
  lemma RulesArePartitionedInOrder(rules: seq<Rule>, matches: string -> bool)
    ensures var sorted := FilterRules(rules);
            var applied, ignored := Keep(sorted, matches, true), Keep(sorted, matches, false);
            && multiset(applied) + multiset(ignored) == multiset(rules) && InOrder(applied) && InOrder(ignored)
            && (forall r :: r in applied ==> Applies(r, matches)) && (forall r :: r in ignored ==> !Applies(r, matches))
  {
    var sorted := FilterRules(rules);
    RuleOrderIsTotal();
    Ordering.SortKeepsElements(rules, RuleLe);
    Ordering.SortSorts(rules, RuleLe);
    KeepPartitions(sorted, matches);
    KeepSelects(sorted, matches, true);
    KeepSelects(sorted, matches, false);
    KeepStaysSorted(sorted, matches, true);
    KeepStaysSorted(sorted, matches, false);
    SortedIsInOrder(Keep(sorted, matches, true));
    SortedIsInOrder(Keep(sorted, matches, false));
    hide *;
  }

  lemma SortedIsInOrder(rules: seq<Rule>)
    requires Ordering.Sorted(rules, RuleLe)
    ensures InOrder(rules)
  {
    forall a, b { RuleOrderExactly(a, b); }
  }

  /** Actions as lists of colon-separated words. */
  lemma ParseExactly(words: seq<string>)
    requires words != [] && forall w :: w in words ==> ':' !in w
    ensures ParseAction(Join(words, ':')) ==
            if words[0] == "insert_worker" && |words| >= 2 then
              BeforeLast(Step("Adaptive " + words[1] + " Worker", words[1]))
            else if words[0] == "insert_step" && |words| >= 3 then
              if forall c :: c in words[1] ==> IsSpace(c) then BlankName else AtEnd(Step(words[1], words[2]))
            else Nothing
  {
    SplitUndoesJoin(words, ':');
  }

  /** Where an inserted step lands: a worker just before the last step, any other step at the end. */
  lemma InsertExactly(steps: seq<Step>, step: Step)
    ensures Insert(steps, AtEnd(step)) == steps + [step]
    ensures steps == [] ==> Insert(steps, BeforeLast(step)) == [step]
    ensures steps != [] ==>
              var longer := Insert(steps, BeforeLast(step));
              && |longer| == |steps| + 1 && longer[|steps|] == steps[|steps| - 1] && longer[|steps| - 1] == step
              && forall i :: 0 <= i < |steps| - 1 ==> longer[i] == steps[i]
    ensures Insert(steps, Nothing) == Insert(steps, BlankName) == steps
  {}

  /** Rules take effect one after the other. */
  lemma RewriteOne(base: seq<Step>, applied: seq<Rule>, rule: Rule)
    ensures Rewritten(base, []) == base
    ensures Rewritten(base, applied + [rule]) == Insert(Rewritten(base, applied), ParseAction(rule.action))
  {
    assert (applied + [rule])[..|applied|] == applied;
  }

  /** The planned result: base steps kept in order, one step per applied rule. */
  lemma PlansExtendTheBase(base: seq<Step>, rules: seq<Rule>, matches: string -> bool)
    ensures var applied := Keep(FilterRules(rules), matches, true);
            && IsSubsequence(base, Rewritten(base, applied)) && |Rewritten(base, applied)| == |base| + |applied|
  {
    KeepSelects(FilterRules(rules), matches, true);
    RewritingOnlyInserts(base, Keep(FilterRules(rules), matches, true));
  }
}
