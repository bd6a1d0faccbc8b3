/** When one rule of a policy matches an event. A rule's JSON parts are given as the fields the engine
    reads; regular expression search is a parameter. */
module PolicyRules {
  import opened PolicyTypes

  datatype Action = ALLOW | BLOCK | LOG | QUARANTINE | ENCRYPT | REDACT

  datatype PolicyEvent = PolicyEvent(
    eventType: string, operation: string, application: string, userId: string, content: string)

  datatype Filter = Filter(included: Option<seq<string>>, excluded: Option<seq<string>>)

  /** A missing part constrains nothing; a pattern is its type and its expression. */
  datatype Conditions = Conditions(
    patterns: Option<seq<(string, string)>>,
    fingerprints: bool,
    fileOps: Option<seq<string>>,
    deviceOps: Option<seq<string>>,
    networkOps: Option<seq<string>>,
    users: Filter,
    applications: Filter)

  datatype RuleException = RuleException(users: Option<seq<string>>, applications: Option<seq<string>>)

  /** `conditions` is `None` for an empty condition object. */
  datatype Rule = Rule(
    ruleId: string, priority: int, enabled: bool, action: Action,
    conditions: Option<Conditions>, exceptions: seq<RuleException>)

  type Regex = (string, string) -> bool

  // ---- Matching one rule ----

  predicate Included(list: Option<seq<string>>, x: string) {
    list.None? || x in list.value
  }

  predicate MatchFilter(f: Filter, x: string) {
    Included(f.included, x) && (f.excluded.None? || x !in f.excluded.value)
  }

  predicate MatchPatterns(regex: Regex, content: string, patterns: seq<(string, string)>) {
    exists i :: 0 <= i < |patterns| && Hits(regex, content, patterns[i])
  }

  predicate Hits(regex: Regex, content: string, pattern: (string, string)) {
    pattern.0 == "regex" && regex(content, pattern.1)
  }

  predicate MatchFile(op: string, x: string) {
    (x == "WRITE" && op == "WRITE") || (x == "READ" && op == "READ") || (x == "COPY" && op == "COPY")
  }

  predicate MatchNetwork(op: string, x: string) {
    (x == "UPLOAD" && op == "UPLOAD") || (x == "DOWNLOAD" && op == "DOWNLOAD")
  }

  predicate MatchDevice(eventType: string, x: string) {
    x == "USB_WRITE" && eventType == "usb_write"
  }

  predicate Operations(e: PolicyEvent, c: Conditions) {
    && (c.fileOps.None? || exists i :: 0 <= i < |c.fileOps.value| && MatchFile(e.operation, c.fileOps.value[i]))
    && (c.deviceOps.None? || exists i :: 0 <= i < |c.deviceOps.value| && MatchDevice(e.eventType, c.deviceOps.value[i]))
    && (c.networkOps.None?
        || exists i :: 0 <= i < |c.networkOps.value| && MatchNetwork(e.operation, c.networkOps.value[i]))
  }

  predicate Context(e: PolicyEvent, c: Conditions) {
    MatchFilter(c.users, e.userId) && MatchFilter(c.applications, e.application)
  }

  /** Fingerprints are not implemented: a rule that lists them never matches. */
  predicate Matches(regex: Regex, e: PolicyEvent, r: Rule) {
    && r.conditions.Some?
    && var c := r.conditions.value;
    && (c.patterns.None? || MatchPatterns(regex, e.content, c.patterns.value))
    && !c.fingerprints && Operations(e, c) && Context(e, c)
  }

  predicate Admits(x: RuleException, e: PolicyEvent) {
    Included(x.users, e.userId) && Included(x.applications, e.application)
  }

  predicate Excepted(e: PolicyEvent, r: Rule) {
    exists i :: 0 <= i < |r.exceptions| && Admits(r.exceptions[i], e)
  }

  predicate Applies(regex: Regex, e: PolicyEvent, r: Rule) {
    r.enabled && Matches(regex, e, r) && !Excepted(e, r)
  }

  // ---- The loops over the lists ----

  method Contains(list: seq<string>, x: string) returns (found: bool)
    ensures found <==> x in list
  {
    for i := 0 to |list|
      invariant x !in list[..i]
    {
      if list[i] == x {
        return true;
      }
      assert list[..i + 1] == list[..i] + [list[i]];
    }
    assert list[..|list|] == list;
    return false;
  }

  method CheckFilter(f: Filter, x: string) returns (ok: bool)
    ensures ok <==> MatchFilter(f, x)
  {
    if f.included.Some? {
      var found := Contains(f.included.value, x);
      if !found {
        return false;
      }
    }
    if f.excluded.Some? {
      var found := Contains(f.excluded.value, x);
      return !found;
    }
    return true;
  }

  /** The user's two lists, then the application's. */
  method MatchContext(e: PolicyEvent, c: Conditions) returns (ok: bool)
    ensures ok <==> Context(e, c)
  {
    ok := CheckFilter(c.users, e.userId);
    if ok {
      ok := CheckFilter(c.applications, e.application);
    }
  }

  method MatchDataPatterns(regex: Regex, content: string, patterns: seq<(string, string)>) returns (ok: bool)
    ensures ok <==> MatchPatterns(regex, content, patterns)
  {
    for i := 0 to |patterns|
      invariant forall j :: 0 <= j < i ==> !Hits(regex, content, patterns[j])
    {
      var kind, expression := patterns[i].0, patterns[i].1;
      if kind == "regex" {
        if regex(content, expression) {
          return true;
        }
      }
    }
    return false;
  }

  /** The three lists of operations in turn. */
  method MatchOperations(e: PolicyEvent, c: Conditions) returns (ok: bool)
    ensures ok <==> Operations(e, c)
  {
    if c.fileOps.Some? {
      var found := FindOperation(x => MatchFile(e.operation, x), c.fileOps.value);
      if !found {
        return false;
      }
    }
    if c.deviceOps.Some? {
      var found := FindOperation(x => MatchDevice(e.eventType, x), c.deviceOps.value);
      if !found {
        return false;
      }
    }
    if c.networkOps.Some? {
      var found := FindOperation(x => MatchNetwork(e.operation, x), c.networkOps.value);
      return found;
    }
    return true;
  }

  method FindOperation(matches: string -> bool, list: seq<string>) returns (found: bool)
    ensures found <==> exists i :: 0 <= i < |list| && matches(list[i])
  {
    for i := 0 to |list|
      invariant forall j :: 0 <= j < i ==> !matches(list[j])
    {
      if matches(list[i]) {
        return true;
      }
    }
    return false;
  }

  method MatchConditions(regex: Regex, e: PolicyEvent, r: Rule) returns (ok: bool)
    ensures ok <==> Matches(regex, e, r)
  {
    if r.conditions.None? {
      return false;
    }
    var c := r.conditions.value;
    if c.patterns.Some? {
      var hit := MatchDataPatterns(regex, e.content, c.patterns.value);
      if !hit {
        return false;
      }
    }
    if c.fingerprints {
      return false;
    }
    ok := MatchOperations(e, c);
    if ok {
      ok := MatchContext(e, c);
    }
  }

  /** An exception applies when both its lists admit the event. */
  method CheckExceptions(e: PolicyEvent, r: Rule) returns (applies: bool)
    ensures applies <==> Excepted(e, r)
  {
    for i := 0 to |r.exceptions|
      invariant forall j :: 0 <= j < i ==> !Admits(r.exceptions[j], e)
    {
      var matches := true;
      var x := r.exceptions[i];
      if x.users.Some? {
        matches := Contains(x.users.value, e.userId);
      }
      if x.applications.Some? {
        var found := Contains(x.applications.value, e.application);
        matches := matches && found;
      }
      if matches {
        return true;
      }
    }
    return false;
  }
}
