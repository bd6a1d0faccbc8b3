/** What decides whether a rule has any effect on an event. */
module RuleEffect {
  import opened PolicyTypes
  import opened PolicyRules
  import opened PolicyEngine

  /** Wherever the rule stands among whatever other rules, the decision is that without it. */
  ghost predicate Inert(regex: Regex, e: PolicyEvent, r: Rule) {
    forall a: seq<Rule>, b: seq<Rule> :: WithoutEffect(regex, e, a, r, b)
  }

  ghost predicate WithoutEffect(regex: Regex, e: PolicyEvent, a: seq<Rule>, r: Rule, b: seq<Rule>) {
    Decision(regex, e, a + [r] + b) == Decision(regex, e, a + b)
  }

  predicate Listed(x: string, list: seq<string>) {
    exists i :: 0 <= i < |list| && list[i] == x
  }

  /** The user or the application is in an exclude list or missing from an include list. */
  predicate ContextFails(e: PolicyEvent, c: Conditions) {
    || (c.users.excluded.Some? && Listed(e.userId, c.users.excluded.value))
    || (c.users.included.Some? && !Listed(e.userId, c.users.included.value))
    || (c.applications.excluded.Some? && Listed(e.application, c.applications.excluded.value))
    || (c.applications.included.Some? && !Listed(e.application, c.applications.included.value))
  }

  /** A list of operations is given, and the event's operation or type is no known one on it. */
  predicate OperationsFail(e: PolicyEvent, c: Conditions) {
    || (c.fileOps.Some? && !(Listed(e.operation, c.fileOps.value) && Listed(e.operation, ["WRITE", "READ", "COPY"])))
    || (c.deviceOps.Some? && !(Listed("USB_WRITE", c.deviceOps.value) && e.eventType == "usb_write"))
    || (c.networkOps.Some? && !(Listed(e.operation, c.networkOps.value) && Listed(e.operation, ["UPLOAD", "DOWNLOAD"])))
  }

  /** Patterns are given and none that is a regular expression is found in the content, or
      fingerprints are given. */
  predicate ContentFails(regex: Regex, e: PolicyEvent, c: Conditions) {
    || c.fingerprints
    || (c.patterns.Some?
        && forall i :: 0 <= i < |c.patterns.value| && c.patterns.value[i].0 == "regex" ==>
             !regex(e.content, c.patterns.value[i].1))
  }

  /** Some exception names both the user and the application, or does not restrict them. */
  predicate ExceptionHolds(e: PolicyEvent, r: Rule) {
    exists i :: 0 <= i < |r.exceptions|
      && (r.exceptions[i].users.Some? ==> Listed(e.userId, r.exceptions[i].users.value))
      && (r.exceptions[i].applications.Some? ==> Listed(e.application, r.exceptions[i].applications.value))
  }

  predicate HasNoEffect(regex: Regex, e: PolicyEvent, r: Rule) {
    || !r.enabled || r.conditions.None? || ExceptionHolds(e, r)
    || ContentFails(regex, e, r.conditions.value)
    || OperationsFail(e, r.conditions.value)
    || ContextFails(e, r.conditions.value)
  }

  lemma {:induction false} OperationsFailIff(e: PolicyEvent, c: Conditions)
    ensures OperationsFail(e, c) <==> !Operations(e, c)
  {
    assert ["WRITE", "READ", "COPY"][0] == "WRITE" && ["WRITE", "READ", "COPY"][1] == "READ"
           && ["WRITE", "READ", "COPY"][2] == "COPY";
    assert ["UPLOAD", "DOWNLOAD"][0] == "UPLOAD" && ["UPLOAD", "DOWNLOAD"][1] == "DOWNLOAD";
    if c.fileOps.Some? {
      var list := c.fileOps.value;
      assert forall i :: 0 <= i < |list| ==>
        (MatchFile(e.operation, list[i]) <==> list[i] == e.operation && Listed(e.operation, ["WRITE", "READ", "COPY"]));
    }
    if c.networkOps.Some? {
      var list := c.networkOps.value;
      assert forall i :: 0 <= i < |list| ==>
        (MatchNetwork(e.operation, list[i]) <==> list[i] == e.operation && Listed(e.operation, ["UPLOAD", "DOWNLOAD"]));
    }
  }

  lemma {:induction false} ContentFailsIff(regex: Regex, e: PolicyEvent, c: Conditions)
    ensures ContentFails(regex, e, c) <==>
      c.fingerprints || (c.patterns.Some? && !MatchPatterns(regex, e.content, c.patterns.value))
  {
    if c.patterns.Some? {
      var ps := c.patterns.value;
      assert forall i :: 0 <= i < |ps| ==>
        (Hits(regex, e.content, ps[i]) <==> ps[i].0 == "regex" && regex(e.content, ps[i].1));
    }
  }

  lemma {:induction false} ExceptionIff(e: PolicyEvent, r: Rule)
    ensures ExceptionHolds(e, r) <==> Excepted(e, r)
  {
  }

  lemma {:induction false} AppliesIff(regex: Regex, e: PolicyEvent, r: Rule)
    ensures Applies(regex, e, r) <==> !HasNoEffect(regex, e, r)
  {
    ExceptionIff(e, r);
    if r.conditions.Some? {
      OperationsFailIff(e, r.conditions.value);
      ContentFailsIff(regex, e, r.conditions.value);
    }
  }

  lemma {:induction false} MatchingOne(regex: Regex, e: PolicyEvent, r: Rule)
    ensures Matching(regex, e, [r]) == if Applies(regex, e, r) then [r] else []
  {
    assert [r][..0] == [];
    assert Matching(regex, e, [r]) == [] + if Applies(regex, e, r) then [r] else [];
  }

  lemma {:induction false} OneRule(regex: Regex, e: PolicyEvent, r: Rule)
    ensures Decision(regex, e, [r]) == if Applies(regex, e, r) then r.action else BLOCK
  {
    MatchingOne(regex, e, r);
  }

  /** A rule alone decides with its action, unless it has no effect: then nothing matches, which
      blocks. */
  lemma {:induction false} OneRuleDecides(regex: Regex, e: PolicyEvent, r: Rule)
    ensures Decision(regex, e, [r]) == if HasNoEffect(regex, e, r) then BLOCK else r.action
  {
    AppliesIff(regex, e, r);
    OneRule(regex, e, r);
  }

  lemma {:induction false} SkippedRule(regex: Regex, e: PolicyEvent, a: seq<Rule>, r: Rule, b: seq<Rule>)
    requires !Applies(regex, e, r)
    ensures WithoutEffect(regex, e, a, r, b)
  {
    SameMatching(regex, e, a, r, b);
    SameMatchingDecides(regex, e, a + [r] + b, a + b);
  }

  lemma {:induction false} SameMatchingDecides(regex: Regex, e: PolicyEvent, x: seq<Rule>, y: seq<Rule>)
    requires Matching(regex, e, x) == Matching(regex, e, y)
    ensures Decision(regex, e, x) == Decision(regex, e, y)
  {
  }

  lemma {:induction false} SameMatching(regex: Regex, e: PolicyEvent, a: seq<Rule>, r: Rule, b: seq<Rule>)
    requires !Applies(regex, e, r)
    ensures Matching(regex, e, a + [r] + b) == Matching(regex, e, a + b)
  {
    var before := Matching(regex, e, a);
    MatchingOne(regex, e, r);
    MatchingSplit(regex, e, a, [r]);
    assert before + [] == before;
    MatchingSplit(regex, e, a + [r], b);
    MatchingSplit(regex, e, a, b);
  }

  /** A rule that applies changes the decision alone, or before a twin that allows. */
  lemma {:induction false} AppliedRule(regex: Regex, e: PolicyEvent, r: Rule)
    requires Applies(regex, e, r)
    ensures !Inert(regex, e, r)
  {
    if r.action != BLOCK {
      OneRule(regex, e, r);
      var none: seq<Rule> := [];
      assert none + [r] + none == [r] && none + none == none;
      assert !WithoutEffect(regex, e, none, r, none);
    } else {
      var twin := r.(action := ALLOW);
      assert Applies(regex, e, twin);
      OneRule(regex, e, twin);
      PairDecision(regex, e, r, twin);
      assert [] + [r] + [twin] == [r, twin] && [] + [twin] == [twin];
      assert !WithoutEffect(regex, e, [], r, [twin]);
    }
  }

  /** A rule has no effect on an event, among whatever other rules, if and only if it is disabled, has
      no conditions, an exception holds, or its content, operation or context conditions fail. */
  lemma {:induction false} InertIff(regex: Regex, e: PolicyEvent, r: Rule)
    ensures Inert(regex, e, r) <==> HasNoEffect(regex, e, r)
  {
    AppliesIff(regex, e, r);
    if Applies(regex, e, r) {
      AppliedRule(regex, e, r);
    } else {
      forall a: seq<Rule>, b: seq<Rule>
        ensures WithoutEffect(regex, e, a, r, b)
      {
        SkippedRule(regex, e, a, r, b);
      }
    }
  }

  // ---- What a policy decides ----

  /** No rule of the policy has an effect on the event, or one of the highest priority among those that
      have says BLOCK. */
  ghost predicate MustBlock(regex: Regex, e: PolicyEvent, rules: seq<Rule>) {
    || (forall i :: 0 <= i < |rules| ==> HasNoEffect(regex, e, rules[i]))
    || (exists i :: 0 <= i < |rules| && BlocksFirst(regex, e, rules, rules[i]))
  }

  /** The rule has an effect, and none of higher priority has. */
  ghost predicate LeadsOthers(regex: Regex, e: PolicyEvent, rules: seq<Rule>, r: Rule) {
    && !HasNoEffect(regex, e, r)
    && forall j :: 0 <= j < |rules| && !HasNoEffect(regex, e, rules[j]) ==> rules[j].priority <= r.priority
  }

  ghost predicate BlocksFirst(regex: Regex, e: PolicyEvent, rules: seq<Rule>, r: Rule) {
    LeadsOthers(regex, e, rules, r) && r.action == BLOCK
  }

  lemma {:induction false} BlocksFirstIff(regex: Regex, e: PolicyEvent, rules: seq<Rule>, r: Rule)
    requires r in rules
    ensures BlocksFirst(regex, e, rules, r) <==> Top(regex, e, multiset(rules), r) && r.action == BLOCK
  {
    AppliesIff(regex, e, r);
    forall j | 0 <= j < |rules|
      ensures Applies(regex, e, rules[j]) <==> !HasNoEffect(regex, e, rules[j])
    {
      AppliesIff(regex, e, rules[j]);
    }
    if BlocksFirst(regex, e, rules, r) {
      forall q | q in multiset(rules) && Applies(regex, e, q)
        ensures q.priority <= r.priority
      {
        assert q in rules;
      }
    }
  }

  lemma {:induction false} RefusedIff(regex: Regex, e: PolicyEvent, rules: seq<Rule>)
    ensures Refused(regex, e, multiset(rules)) <==> MustBlock(regex, e, rules)
  {
    forall i | 0 <= i < |rules|
      ensures Applies(regex, e, rules[i]) <==> !HasNoEffect(regex, e, rules[i])
      ensures BlocksFirst(regex, e, rules, rules[i]) <==>
        Top(regex, e, multiset(rules), rules[i]) && rules[i].action == BLOCK
    {
      AppliesIff(regex, e, rules[i]);
      BlocksFirstIff(regex, e, rules, rules[i]);
    }
    NoneAppliesIff(regex, e, rules);
    if r :| Top(regex, e, multiset(rules), r) && r.action == BLOCK {
      var i :| 0 <= i < |rules| && rules[i] == r;
    }
  }

  /** A rule of the highest priority among those with an effect has this action. */
  ghost predicate SomeTopSays(regex: Regex, e: PolicyEvent, rules: seq<Rule>, a: Action) {
    exists i :: 0 <= i < |rules| && LeadsOthers(regex, e, rules, rules[i]) && rules[i].action == a
  }

  lemma {:induction false} TopSays(regex: Regex, e: PolicyEvent, sorted: seq<Rule>, rules: seq<Rule>)
    requires SortedOrder(sorted, rules) && Decision(regex, e, sorted) != BLOCK
    ensures SomeTopSays(regex, e, rules, Decision(regex, e, sorted))
  {
    BlockIff(regex, e, sorted);
    FirstDecides(regex, e, sorted);
    var r := Matching(regex, e, sorted)[0];
    assert r in multiset(rules);
    var i :| 0 <= i < |rules| && rules[i] == r;
    AppliesIff(regex, e, r);
    forall j | 0 <= j < |rules| && !HasNoEffect(regex, e, rules[j])
      ensures rules[j].priority <= r.priority
    {
      AppliesIff(regex, e, rules[j]);
      assert rules[j] in multiset(rules);
    }
  }

  lemma {:induction false} NoneAppliesIff(regex: Regex, e: PolicyEvent, rules: seq<Rule>)
    ensures (forall r :: r in multiset(rules) ==> !Applies(regex, e, r)) <==>
      forall i :: 0 <= i < |rules| ==> !Applies(regex, e, rules[i])
  {
    if forall r :: r in multiset(rules) ==> !Applies(regex, e, r) {
      assert forall i :: 0 <= i < |rules| ==> rules[i] in multiset(rules);
    }
  }

  /** Loading a policy and deciding one event: right after a load that succeeds, and after one that
      throws exactly when the rules read so far happen to be representative. */
  method LoadAndDecide(policy: Option<seq<Source>>, regex: Regex, e: PolicyEvent) returns (ok: bool, a: Action)
    ensures ok <==> policy.Some? && Throws !in policy.value
    ensures ok ==> (a == BLOCK <==> MustBlock(regex, e, Parsed(policy.value)))
    ensures ok && a != BLOCK ==> SomeTopSays(regex, e, Parsed(policy.value), a)
    ensures policy.None? ==> a == BLOCK
    ensures policy.Some? && !ok ==>
      var rules := Parsed(policy.value);
      var ms := Matching(regex, e, rules);
      (a == BLOCK <==> MustBlock(regex, e, rules)) <==> ms == [] || Representative(ms)
  {
    var engine := new Engine();
    ok := engine.LoadRules(policy);
    a := EvaluateEvent(regex, e, engine.rules);
    if ok {
      RefusedIff(regex, e, Parsed(policy.value));
      BlockIff(regex, e, engine.rules);
      if a != BLOCK {
        TopSays(regex, e, engine.rules, Parsed(policy.value));
      }
    } else if policy.Some? {
      RefusedIff(regex, e, Parsed(policy.value));
      UnsortedDecisionIff(regex, e, engine.rules);
    }
  }
}
