/** Rule loading and conflict resolution of the policy engine. */
module PolicyEngine {
  import opened PolicyTypes
  import opened PolicyRules

  // ---- Evaluation ----

  function Matching(regex: Regex, e: PolicyEvent, rules: seq<Rule>): (ms: seq<Rule>)
    ensures forall r :: r in ms <==> r in rules && Applies(regex, e, r)
  {
    if rules == [] then []
    else
      var n := |rules| - 1;
      assert rules == rules[..n] + [rules[n]];
      Matching(regex, e, rules[..n]) + (if Applies(regex, e, rules[n]) then [rules[n]] else [])
  }

  function Resolved(ms: seq<Rule>): Action
    requires ms != []
  {
    if exists i :: 0 <= i < |ms| && ms[i].priority == ms[0].priority && ms[i].action == BLOCK then BLOCK
    else ms[0].action
  }

  function Decision(regex: Regex, e: PolicyEvent, rules: seq<Rule>): Action {
    var ms := Matching(regex, e, rules);
    if ms == [] then BLOCK else Resolved(ms)
  }

  method ResolveConflict(ms: seq<Rule>) returns (a: Action)
    requires ms != []
    ensures a == Resolved(ms)
  {
    var maxPriority := ms[0].priority;
    var top := [];
    for i := 0 to |ms|
      invariant i > 0 ==> top != [] && top[0] == ms[0]
      invariant forall r :: r in top <==> r in ms[..i] && r.priority == maxPriority
    {
      assert ms[..i + 1] == ms[..i] + [ms[i]];
      if ms[i].priority == maxPriority {
        top := top + [ms[i]];
      }
    }
    for i := 0 to |top|
      invariant forall j :: 0 <= j < i ==> top[j].action != BLOCK
    {
      if top[i].action == BLOCK {
        assert top[i] in top && top[i] in ms[..|ms|];
        return BLOCK;
      }
    }
    forall j | 0 <= j < |ms| && ms[j].priority == maxPriority
      ensures ms[j].action != BLOCK
    {
      assert ms[j] in ms[..|ms|] && ms[j] in top;
    }
    return top[0].action;
  }

  method EvaluateEvent(regex: Regex, e: PolicyEvent, rules: seq<Rule>) returns (a: Action)
    ensures a == Decision(regex, e, rules)
  {
    if rules == [] {
      return BLOCK;
    }
    var ms := [];
    for i := 0 to |rules|
      invariant ms == Matching(regex, e, rules[..i])
    {
      assert rules[..i + 1][..i] == rules[..i];
      if !rules[i].enabled {
        continue;
      }
      var matches := MatchConditions(regex, e, rules[i]);
      if matches {
        var excepted := CheckExceptions(e, rules[i]);
        if excepted {
          continue;
        }
        ms := ms + [rules[i]];
      }
    }
    assert rules[..|rules|] == rules;
    if ms == [] {
      return BLOCK;
    }
    a := ResolveConflict(ms);
  }

  // ---- Loading ----

  /** One element of the policy's rule array: without an id it is skipped, and a field of the
      wrong type throws. */
  datatype Source = WithoutId | Throws | Good(rule: Rule)

  /** The rules before the first element that throws, in policy order. */
  function Parsed(policy: seq<Source>): seq<Rule> {
    if policy == [] || policy[0].Throws? then []
    else (if policy[0].Good? then [policy[0].rule] else []) + Parsed(policy[1..])
  }

  ghost predicate ByPriority(rules: seq<Rule>) {
    forall i, j :: 0 <= i < j < |rules| ==> rules[i].priority >= rules[j].priority
  }

  function InsertRule(r: Rule, s: seq<Rule>): (t: seq<Rule>)
    ensures multiset(t) == multiset(s) + multiset{r}
  {
    if s == [] || r.priority > s[0].priority then [r] + s
    else
      assert s == [s[0]] + s[1..];
      [s[0]] + InsertRule(r, s[1..])
  }

  /** One sort by descending priority; the theorems below hold for every sorted order. */
  function SortByPriority(rules: seq<Rule>): (t: seq<Rule>)
    ensures multiset(t) == multiset(rules)
  {
    if rules == [] then []
    else
      assert rules == [rules[0]] + rules[1..];
      InsertRule(rules[0], SortByPriority(rules[1..]))
  }

  lemma {:induction false} InsertSorted(r: Rule, s: seq<Rule>)
    requires ByPriority(s)
    ensures ByPriority(InsertRule(r, s))
    decreases |s|
  {
    if s != [] && r.priority <= s[0].priority {
      InsertSorted(r, s[1..]);
      var t := InsertRule(r, s[1..]);
      forall i | 0 <= i < |t|
        ensures t[i].priority <= s[0].priority
      {
        assert t[i] in multiset(t);
        assert t[i] == r || t[i] in multiset(s[1..]);
        if t[i] != r {
          var j :| 0 <= j < |s[1..]| && s[1..][j] == t[i];
          assert s[j + 1] == t[i];
        }
      }
    }
  }

  lemma {:induction false} SortSorts(rules: seq<Rule>)
    ensures ByPriority(SortByPriority(rules))
    decreases |rules|
  {
    if rules != [] {
      SortSorts(rules[1..]);
      InsertSorted(rules[0], SortByPriority(rules[1..]));
    }
  }

  /** The parsing loop: it stops at the first element that throws. */
  method ParseRules(policy: seq<Source>) returns (ok: bool, rules: seq<Rule>)
    ensures ok <==> Throws !in policy
    ensures rules == Parsed(policy)
  {
    rules := [];
    var i := 0;
    while i < |policy|
      invariant i <= |policy| && Throws !in policy[..i]
      invariant Parsed(policy) == rules + Parsed(policy[i..])
    {
      ParsedStep(policy[i..]);
      assert policy[i..][1..] == policy[i + 1..];
      if policy[i].Throws? {
        return false, rules;
      }
      if policy[i].Good? {
        rules := rules + [policy[i].rule];
      }
      i := i + 1;
    }
    assert policy[..i] == policy;
    return true, rules;
  }

  lemma {:induction false} ParsedStep(policy: seq<Source>)
    requires policy != []
    ensures Parsed(policy) ==
      if policy[0].Throws? then []
      else if policy[0].Good? then [policy[0].rule] + Parsed(policy[1..])
      else Parsed(policy[1..])
  {
  }

  /** Elements are read one after the other: a good one adds its rule, one without an id adds none, and
      from one that throws on nothing is read. */
  lemma {:induction false} ParsedSplit(a: seq<Source>, b: seq<Source>)
    ensures Throws !in a ==> Parsed(a + b) == Parsed(a) + Parsed(b)
    ensures Throws in a ==> Parsed(a + b) == Parsed(a)
    ensures Parsed([]) == Parsed([WithoutId]) == Parsed([Throws]) == []
    ensures forall r :: Parsed([Good(r)]) == [r]
  {
    if a == [] {
      assert a + b == b;
    } else {
      assert (a + b)[1..] == a[1..] + b;
      ParsedSplit(a[1..], b);
    }
    forall r
      ensures Parsed([Good(r)]) == [r]
    {
      assert Parsed([Good(r)]) == [r] + Parsed([]);
    }
  }

  /** The engine's rule list. `None` is a policy without a rule array. */
  class Engine {
    var rules: seq<Rule>

    constructor ()
      ensures rules == []
    {
      rules := [];
    }

    /** A failed load leaves the rules read so far, unsorted. */
    method LoadRules(policy: Option<seq<Source>>) returns (ok: bool)
      modifies this
      ensures ok <==> policy.Some? && Throws !in policy.value
      ensures ok ==> ByPriority(rules) && multiset(rules) == multiset(Parsed(policy.value))
      ensures !ok ==> rules == if policy.None? then [] else Parsed(policy.value)
    {
      rules := [];
      if policy.None? {
        return false;
      }
      ok, rules := ParseRules(policy.value);
      if ok {
        SortSorts(rules);
        rules := SortByPriority(rules);
      }
    }
  }

  // ---- What the decision means ----

  /** A rule that applies and that no applying rule outranks. */
  ghost predicate Top(regex: Regex, e: PolicyEvent, rules: multiset<Rule>, r: Rule) {
    && r in rules && Applies(regex, e, r)
    && forall q :: q in rules && Applies(regex, e, q) ==> q.priority <= r.priority
  }

  ghost predicate Refused(regex: Regex, e: PolicyEvent, rules: multiset<Rule>) {
    || (forall r :: r in rules ==> !Applies(regex, e, r))
    || (exists r :: Top(regex, e, rules, r) && r.action == BLOCK)
  }

  ghost predicate LedByFirst(ms: seq<Rule>) {
    forall i :: 0 <= i < |ms| ==> ms[i].priority <= ms[0].priority
  }

  lemma {:induction false} AppendLed(ms: seq<Rule>, r: Rule)
    requires LedByFirst(ms) && ms != [] && r.priority <= ms[0].priority
    ensures LedByFirst(ms + [r]) && LedByFirst(ms + [])
  {
  }

  /** In a sorted list the first matching rule has the highest priority. */
  lemma {:induction false} FirstIsTop(regex: Regex, e: PolicyEvent, rules: seq<Rule>)
    requires ByPriority(rules)
    ensures LedByFirst(Matching(regex, e, rules))
    decreases |rules|
  {
    if rules != [] {
      var n := |rules| - 1;
      FirstIsTop(regex, e, rules[..n]);
      var before := Matching(regex, e, rules[..n]);
      if before != [] {
        assert before[0].priority >= rules[n].priority by {
          assert before[0] in before && before[0] in rules[..n];
        }
        AppendLed(before, rules[n]);
      }
    }
  }

  /** After a successful load the decision is BLOCK if and only if no enabled rule without an
      applying exception matches, or one of the highest priority among those that do says BLOCK. */
  lemma {:induction false} BlockIff(regex: Regex, e: PolicyEvent, rules: seq<Rule>)
    requires ByPriority(rules)
    ensures Decision(regex, e, rules) == BLOCK <==> Refused(regex, e, multiset(rules))
  {
    var ms, all := Matching(regex, e, rules), multiset(rules);
    FirstIsTop(regex, e, rules);
    if ms == [] {
      forall r | r in all
        ensures !Applies(regex, e, r)
      {
        assert r in rules && r !in ms;
      }
    } else {
      assert ms[0] in ms;
      forall i | 0 <= i < |ms| && ms[i].priority == ms[0].priority
        ensures Top(regex, e, all, ms[i])
      {
        assert ms[i] in ms;
        forall q | q in all && Applies(regex, e, q)
          ensures q.priority <= ms[i].priority
        {
          assert q in rules && q in ms;
          var j :| 0 <= j < |ms| && ms[j] == q;
          assert ms[j].priority <= ms[0].priority;
        }
      }
      forall r | Top(regex, e, all, r)
        ensures r in ms && r.priority == ms[0].priority
      {
        assert r in rules;
      }
    }
  }

  /** The order of the rules in the policy, and of equal priorities after sorting, does not
      decide whether an event is blocked. */
  lemma {:induction false} OrderDoesNotBlock(regex: Regex, e: PolicyEvent, a: seq<Rule>, b: seq<Rule>)
    requires ByPriority(a) && ByPriority(b) && multiset(a) == multiset(b)
    ensures Decision(regex, e, a) == BLOCK <==> Decision(regex, e, b) == BLOCK
  {
    BlockIff(regex, e, a);
    BlockIff(regex, e, b);
  }

  /** Adding a BLOCK rule never turns a BLOCK decision into another one. */
  lemma {:induction false} AddingBlockKeepsBlock(regex: Regex, e: PolicyEvent, before: seq<Rule>, added: Rule,
                                                 after: seq<Rule>)
    requires ByPriority(before) && ByPriority(after) && added.action == BLOCK
    requires multiset(after) == multiset(before) + multiset{added}
    requires Decision(regex, e, before) == BLOCK
    ensures Decision(regex, e, after) == BLOCK
  {
    BlockIff(regex, e, before);
    BlockIff(regex, e, after);
    RefusedGrows(regex, e, multiset(before), added);
  }

  lemma {:induction false} RefusedGrows(regex: Regex, e: PolicyEvent, had: multiset<Rule>, added: Rule)
    requires Refused(regex, e, had) && added.action == BLOCK
    ensures Refused(regex, e, had + multiset{added})
  {
  }

  // ---- When the order does decide ----

  ghost predicate SortedOrder(a: seq<Rule>, rules: seq<Rule>) {
    ByPriority(a) && multiset(a) == multiset(rules)
  }

  ghost predicate TopsAgree(regex: Regex, e: PolicyEvent, rules: multiset<Rule>) {
    forall q, r :: Top(regex, e, rules, q) && Top(regex, e, rules, r) ==> q.action == r.action
  }

  function Filtered(keep: Rule -> bool, rules: seq<Rule>): seq<Rule> {
    if rules == [] then []
    else
      var n := |rules| - 1;
      Filtered(keep, rules[..n]) + (if keep(rules[n]) then [rules[n]] else [])
  }

  lemma {:induction false} FilteredSplit(keep: Rule -> bool, a: seq<Rule>, b: seq<Rule>)
    ensures Filtered(keep, a + b) == Filtered(keep, a) + Filtered(keep, b)
    decreases |b|
  {
    if b == [] {
      assert a + b == a;
    } else {
      var n := |b| - 1;
      assert (a + b)[..|a + b| - 1] == a + b[..n];
      FilteredSplit(keep, a, b[..n]);
    }
  }

  lemma {:induction false} MatchingFilters(regex: Regex, e: PolicyEvent, rules: seq<Rule>)
    ensures Matching(regex, e, rules) == Filtered(r => Applies(regex, e, r), rules)
    decreases |rules|
  {
    if rules != [] {
      MatchingFilters(regex, e, rules[..|rules| - 1]);
    }
  }

  lemma {:induction false} MatchingSplit(regex: Regex, e: PolicyEvent, a: seq<Rule>, b: seq<Rule>)
    ensures Matching(regex, e, a + b) == Matching(regex, e, a) + Matching(regex, e, b)
  {
    MatchingFilters(regex, e, a);
    MatchingFilters(regex, e, b);
    MatchingFilters(regex, e, a + b);
    FilteredSplit(r => Applies(regex, e, r), a, b);
  }

  /** In a sorted list the first matching rule is a top rule, and unless a top rule is BLOCK the
      decision is its action. */
  lemma {:induction false} FirstDecides(regex: Regex, e: PolicyEvent, a: seq<Rule>)
    requires ByPriority(a) && !Refused(regex, e, multiset(a))
    ensures var ms := Matching(regex, e, a);
      ms != [] && Top(regex, e, multiset(a), ms[0]) && Decision(regex, e, a) == ms[0].action
  {
    var ms := Matching(regex, e, a);
    FirstIsTop(regex, e, a);
    BlockIff(regex, e, a);
    forall q | q in multiset(a) && Applies(regex, e, q)
      ensures q.priority <= ms[0].priority
    {
      assert q in a && q in ms;
    }
    assert ms[0] in ms;
  }

  /** Where a rule stands when it goes before all rules of its own priority. */
  function FrontPlace(r: Rule, s: seq<Rule>): (k: nat)
    ensures k <= |s| && (forall i :: 0 <= i < k ==> s[i].priority > r.priority)
    ensures k < |s| ==> s[k].priority <= r.priority
  {
    if s == [] || s[0].priority <= r.priority then 0 else 1 + FrontPlace(r, s[1..])
  }

  function PlaceFront(r: Rule, s: seq<Rule>): (a: seq<Rule>)
    ensures multiset(a) == multiset(s) + multiset{r}
  {
    var k := FrontPlace(r, s);
    assert s == s[..k] + s[k..];
    s[..k] + ([r] + s[k..])
  }

  lemma {:induction false} PlaceFrontSorted(r: Rule, s: seq<Rule>)
    requires ByPriority(s)
    ensures ByPriority(PlaceFront(r, s))
  {
  }

  lemma {:induction false} MatchingNone(regex: Regex, e: PolicyEvent, s: seq<Rule>)
    requires forall x :: x in s ==> !Applies(regex, e, x)
    ensures Matching(regex, e, s) == []
    decreases |s|
  {
    if s != [] {
      MatchingNone(regex, e, s[..|s| - 1]);
    }
  }

  lemma {:induction false} PlaceFrontMatches(regex: Regex, e: PolicyEvent, r: Rule, s: seq<Rule>)
    requires Top(regex, e, multiset(s) + multiset{r}, r)
    ensures var ms := Matching(regex, e, PlaceFront(r, s)); ms != [] && ms[0] == r
  {
    var k := FrontPlace(r, s);
    forall x | x in s[..k]
      ensures !Applies(regex, e, x)
    {
      assert x in s && x in multiset(s) + multiset{r};
    }
    MatchingNone(regex, e, s[..k]);
    MatchingSplit(regex, e, s[..k], [r] + s[k..]);
    MatchingSplit(regex, e, [r], s[k..]);
    assert [r][..0] == [] && Matching(regex, e, [r]) == [] + [r];
  }

  /** Any top rule comes first among the matching rules of some sorted order. */
  lemma {:induction false} TopFirst(regex: Regex, e: PolicyEvent, rules: seq<Rule>, r: Rule) returns (a: seq<Rule>)
    requires Top(regex, e, multiset(rules), r)
    ensures SortedOrder(a, rules) && Matching(regex, e, a) != [] && Matching(regex, e, a)[0] == r
  {
    var i :| 0 <= i < |rules| && rules[i] == r;
    var rest := rules[..i] + rules[i + 1..];
    assert rules == rules[..i] + [r] + rules[i + 1..];
    var s := SortByPriority(rest);
    SortSorts(rest);
    assert multiset(s) + multiset{r} == multiset(rules);
    a := PlaceFront(r, s);
    PlaceFrontSorted(r, s);
    PlaceFrontMatches(regex, e, r, s);
  }

  /** All sorted orders of the rules give the same decision if and only if no rule applies, a top
      rule is BLOCK, or all top rules have the same action. */
  lemma {:induction false} OrderDecidesIff(regex: Regex, e: PolicyEvent, rules: seq<Rule>)
    ensures (forall a, b :: SortedOrder(a, rules) && SortedOrder(b, rules) ==>
               Decision(regex, e, a) == Decision(regex, e, b))
      <==> Refused(regex, e, multiset(rules)) || TopsAgree(regex, e, multiset(rules))
  {
    var all := multiset(rules);
    if Refused(regex, e, all) || TopsAgree(regex, e, all) {
      forall a, b | SortedOrder(a, rules) && SortedOrder(b, rules)
        ensures Decision(regex, e, a) == Decision(regex, e, b)
      {
        SameDecision(regex, e, a, b);
      }
    } else {
      var q, r :| Top(regex, e, all, q) && Top(regex, e, all, r) && q.action != r.action;
      var a := TopFirst(regex, e, rules, q);
      var b := TopFirst(regex, e, rules, r);
      FirstDecides(regex, e, a);
      FirstDecides(regex, e, b);
    }
  }

  lemma {:induction false} SameDecision(regex: Regex, e: PolicyEvent, a: seq<Rule>, b: seq<Rule>)
    requires ByPriority(a) && SortedOrder(b, a)
    requires Refused(regex, e, multiset(a)) || TopsAgree(regex, e, multiset(a))
    ensures Decision(regex, e, a) == Decision(regex, e, b)
  {
    if Refused(regex, e, multiset(a)) {
      BlockIff(regex, e, a);
      BlockIff(regex, e, b);
    } else {
      FirstDecides(regex, e, a);
      FirstDecides(regex, e, b);
    }
  }

  // ---- A load that throws ----

  /** The highest priority among rules. */
  function MaxPriority(ms: seq<Rule>): (p: int)
    requires ms != []
    ensures (exists i :: 0 <= i < |ms| && ms[i].priority == p) && forall i :: 0 <= i < |ms| ==> ms[i].priority <= p
  {
    var n := |ms| - 1;
    if n == 0 then ms[0].priority
    else
      var p := MaxPriority(ms[..n]);
      if ms[n].priority > p then ms[n].priority else p
  }

  predicate BlockAt(ms: seq<Rule>, p: int) {
    exists i :: 0 <= i < |ms| && ms[i].priority == p && ms[i].action == BLOCK
  }

  /** A BLOCK stands at the priority of the first matching rule exactly when one stands at the
      highest priority of the matching rules. */
  predicate Representative(ms: seq<Rule>)
    requires ms != []
  {
    BlockAt(ms, ms[0].priority) <==> BlockAt(ms, MaxPriority(ms))
  }

  /** Over rules in any order, sorted or not, the decision blocks exactly the events it should if and
      only if no rule applies or the first applying rule is representative. */
  lemma {:induction false} UnsortedDecisionIff(regex: Regex, e: PolicyEvent, rules: seq<Rule>)
    ensures var ms := Matching(regex, e, rules);
      (Decision(regex, e, rules) == BLOCK <==> Refused(regex, e, multiset(rules))) <==> ms == [] || Representative(ms)
  {
    var ms := Matching(regex, e, rules);
    if ms == [] {
      NoneApplies(regex, e, rules);
    } else {
      RefusedAtTop(regex, e, rules);
    }
  }

  lemma {:induction false} NoneApplies(regex: Regex, e: PolicyEvent, rules: seq<Rule>)
    requires Matching(regex, e, rules) == []
    ensures Refused(regex, e, multiset(rules))
  {
  }

  /** Top rules are the matching rules of the highest priority. */
  lemma {:induction false} TopIsMax(regex: Regex, e: PolicyEvent, rules: seq<Rule>, r: Rule)
    requires Matching(regex, e, rules) != []
    ensures var ms := Matching(regex, e, rules);
      Top(regex, e, multiset(rules), r) <==> r in ms && r.priority == MaxPriority(ms)
  {
    var ms := Matching(regex, e, rules);
    var t :| 0 <= t < |ms| && ms[t].priority == MaxPriority(ms);
    assert ms[t] in ms && ms[t] in multiset(rules);
    forall q | q in multiset(rules) && Applies(regex, e, q)
      ensures q.priority <= MaxPriority(ms)
    {
      assert q in rules && q in ms;
    }
  }

  lemma {:induction false} BlockAtIsTop(regex: Regex, e: PolicyEvent, rules: seq<Rule>)
    requires Matching(regex, e, rules) != []
    ensures var ms := Matching(regex, e, rules);
      BlockAt(ms, MaxPriority(ms)) <==> exists r :: Top(regex, e, multiset(rules), r) && r.action == BLOCK
  {
    var ms := Matching(regex, e, rules);
    var top := MaxPriority(ms);
    forall r
      ensures Top(regex, e, multiset(rules), r) <==> r in ms && r.priority == top
    {
      TopIsMax(regex, e, rules, r);
    }
    if BlockAt(ms, top) {
      var i :| 0 <= i < |ms| && ms[i].priority == top && ms[i].action == BLOCK;
      assert ms[i] in ms;
    }
  }

  lemma {:induction false} RefusedAtTop(regex: Regex, e: PolicyEvent, rules: seq<Rule>)
    requires Matching(regex, e, rules) != []
    ensures var ms := Matching(regex, e, rules);
      Refused(regex, e, multiset(rules)) <==> BlockAt(ms, MaxPriority(ms))
  {
    var first := Matching(regex, e, rules)[0];
    assert first in Matching(regex, e, rules) && first in multiset(rules) && Applies(regex, e, first);
    BlockAtIsTop(regex, e, rules);
  }

  lemma {:induction false} PairDecision(regex: Regex, e: PolicyEvent, a: Rule, b: Rule)
    requires Applies(regex, e, a) && Applies(regex, e, b)
    ensures Decision(regex, e, [a, b])
      == if a.action == BLOCK || (b.action == BLOCK && a.priority == b.priority) then BLOCK else a.action
  {
    assert [a, b][..1] == [a] && [a][..0] == [];
    assert Matching(regex, e, [a]) == [] + [a];
    var ms := Matching(regex, e, [a, b]);
    assert ms == [a] + [b];
    assert ms[0] == a && ms[1] == b;
  }

  /** Two rules of one priority on which the order decides, and exactly when for two. */
  lemma {:induction false} TieDependsOnOrder(regex: Regex, e: PolicyEvent, a: Rule, b: Rule)
    requires Applies(regex, e, a) && Applies(regex, e, b) && a.priority == b.priority
    ensures Decision(regex, e, [a, b]) == Decision(regex, e, [b, a]) <==>
      a.action == b.action || a.action == BLOCK || b.action == BLOCK
  {
    PairDecision(regex, e, a, b);
    PairDecision(regex, e, b, a);
  }

  /** A load that throws on which it goes wrong: a rule of lower priority that comes first wins over
      a BLOCK of higher priority. */
  lemma {:induction false} FailedLoadMisorders(regex: Regex, e: PolicyEvent, low: Rule, high: Rule)
    requires Applies(regex, e, low) && Applies(regex, e, high) && low.priority < high.priority
    requires low.action != BLOCK && high.action == BLOCK
    ensures Parsed([Good(low), Good(high), Throws]) == [low, high]
    ensures Decision(regex, e, [low, high]) == low.action && Decision(regex, e, [high, low]) == BLOCK
  {
    PairDecision(regex, e, low, high);
    PairDecision(regex, e, high, low);
    var policy := [Good(low), Good(high), Throws];
    assert policy[1..] == [Good(high), Throws] && policy[1..][1..] == [Throws];
    assert Parsed([Throws]) == [] && Parsed([Good(high), Throws]) == [high] + [];
    assert Parsed(policy) == [low] + [high];
  }
}
