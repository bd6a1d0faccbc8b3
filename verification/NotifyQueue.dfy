/** The notification FIFO: producers append records under a lock and then signal the worker;
    the worker takes the whole queue over and sends it record by record while producers go on. */
module NotifyQueue {
  import opened PolicyTypes

  datatype Operation = UnknownOperation | FileWrite | FileDelete | FileRename | UsbWrite

  datatype BlockEvent = BlockEvent(id: FileId, operation: Operation, pid: nat, classification: U32, path: seq<nat>)

  /** A block event and whether its header carries the expected size and version. */
  datatype Record = Record(headerValid: bool, event: BlockEvent)

  /** What a producer finds: a record to fill, none left, or a driver that is shutting down. */
  datatype Lookaside = Granted | Exhausted | ShuttingDown

  datatype Worker = Waiting | Draining

  /** `uncounted` producers have appended and not yet counted, `unsignalled` have counted and not yet
      signalled; `enqueued`, `attempted`, `delivered` and `unallocated` are the history of the run. */
  datatype QueueState = QueueState(
    head: seq<Record>,
    count: nat,
    local: seq<Record>,
    worker: Worker,
    signalled: bool,
    uncounted: nat,
    unsignalled: nat,
    totalEvents: nat,
    dropped: nat,
    enqueued: seq<Record>,
    attempted: seq<Record>,
    delivered: seq<Record>,
    unallocated: nat)

  const INITIAL := QueueState([], 0, [], Waiting, false, 0, 0, 0, 0, [], [], [], 0)

  datatype QueueStep =
    | Enqueue(event: BlockEvent, recordOk: bool)
    | Tally
    | Signal
    | Wake
    | Splice
    | SendHead(portOpen: bool, sent: bool)
    | CheckEmpty

  /** A step can be taken: the worker splices only with an empty local list, sends only while
      that list holds records, and looks at the queue again once it is empty. */
  predicate Enabled(q: QueueState, s: QueueStep) {
    match s
    case Enqueue(_, _) => true
    case Tally => q.uncounted > 0
    case Signal => q.unsignalled > 0
    case Wake => q.worker.Waiting? && q.signalled
    case Splice => q.worker.Draining? && q.local == []
    case SendHead(_, _) => q.worker.Draining? && q.local != []
    case CheckEmpty => q.worker.Draining? && q.local == []
  }

  function NextQueue(q: QueueState, s: QueueStep): QueueState
    requires Enabled(q, s)
  {
    match s
    case Enqueue(event, recordOk) =>
      if !recordOk then q.(dropped := q.dropped + 1, unallocated := q.unallocated + 1)
      else
        var record := Record(true, event);
        q.(head := q.head + [record], count := q.count + 1, uncounted := q.uncounted + 1,
           enqueued := q.enqueued + [record])
    case Tally =>
      q.(uncounted := q.uncounted - 1, totalEvents := q.totalEvents + 1, unsignalled := q.unsignalled + 1)
    case Signal => q.(unsignalled := q.unsignalled - 1, signalled := true)
    case Wake => q.(worker := Draining)
    case Splice => q.(local := q.head, head := [], count := 0)
    case SendHead(portOpen, sent) =>
      var record := q.local[0];
      var ok := record.headerValid && portOpen && sent;
      q.(local := q.local[1..], attempted := q.attempted + [record],
         delivered := if ok then q.delivered + [record] else q.delivered,
         dropped := if ok then q.dropped else q.dropped + 1)
    case CheckEmpty => if q.head == [] then q.(worker := Waiting) else q
  }

  /** `q` follows from `p` by a run of enabled steps. */
  ghost predicate Leads(p: QueueState, steps: seq<QueueStep>, q: QueueState)
    decreases |steps|
  {
    if steps == [] then p == q
    else Enabled(p, steps[0]) && Leads(NextQueue(p, steps[0]), steps[1..], q)
  }

  ghost predicate Subsequence(s: seq<Record>, t: seq<Record>) {
    if s == [] then true
    else if t == [] then false
    else if s[|s| - 1] == t[|t| - 1] && Subsequence(s[..|s| - 1], t[..|t| - 1]) then true
    else Subsequence(s, t[..|t| - 1])
  }

  ghost predicate QueueInvariant(q: QueueState) {
    && q.attempted + q.local + q.head == q.enqueued
    && (forall i :: 0 <= i < |q.enqueued| ==> q.enqueued[i].headerValid)
    && q.count == |q.head| && q.totalEvents == |q.enqueued| - q.uncounted
    && Subsequence(q.delivered, q.attempted)
    && |q.delivered| <= |q.attempted|
    && q.dropped == q.unallocated + (|q.attempted| - |q.delivered|)
    && (q.worker.Waiting? ==> q.local == [])
    && (q.head != [] ==> q.signalled || q.uncounted > 0 || q.unsignalled > 0 || q.worker.Draining?)
  }

  lemma {:induction false} InvariantStep(q: QueueState, s: QueueStep)
    requires QueueInvariant(q) && Enabled(q, s)
    ensures QueueInvariant(NextQueue(q, s))
    ensures q.signalled ==> NextQueue(q, s).signalled
  {
    match s {
      case Splice => assert q.attempted + [] + q.head == q.attempted + q.head + [];
      case SendHead(portOpen, sent) => SendKeeps(q, portOpen, sent);
      case _ =>
    }
  }

  lemma {:induction false} SendKeeps(q: QueueState, portOpen: bool, sent: bool)
    requires QueueInvariant(q) && Enabled(q, SendHead(portOpen, sent))
    ensures QueueInvariant(NextQueue(q, SendHead(portOpen, sent)))
  {
    var n := NextQueue(q, SendHead(portOpen, sent));
    assert q.local == [q.local[0]] + q.local[1..];
    assert n.attempted[..|n.attempted| - 1] == q.attempted;
    assert n.delivered != q.delivered ==> n.delivered[..|n.delivered| - 1] == q.delivered;
  }

  lemma {:induction false} InvariantRun(p: QueueState, steps: seq<QueueStep>, q: QueueState)
    requires QueueInvariant(p) && Leads(p, steps, q)
    ensures QueueInvariant(q) && (p.signalled ==> q.signalled)
    decreases |steps|
  {
    if steps != [] {
      InvariantStep(p, steps[0]);
      InvariantRun(NextQueue(p, steps[0]), steps[1..], q);
    }
  }

  lemma {:induction false} InitialOk()
    ensures QueueInvariant(INITIAL)
  {
  }

  lemma {:induction false} ReachedOk(steps: seq<QueueStep>, q: QueueState)
    requires Leads(INITIAL, steps, q)
    ensures QueueInvariant(q)
  {
    InitialOk();
    InvariantRun(INITIAL, steps, q);
  }

  /** Over every interleaving, records attempted, then held locally, then queued are exactly the
      enqueue history in order; the queue's count is exact and the total lacks exactly the records
      whose producers have not counted them yet; delivery keeps the order; and each attempted record
      is delivered or adds one to the dropped count. */
  lemma {:induction false} QueueAlways(steps: seq<QueueStep>, q: QueueState)
    requires Leads(INITIAL, steps, q)
    ensures q.attempted + q.local + q.head == q.enqueued
    ensures q.count == |q.head| && q.totalEvents == |q.enqueued| - q.uncounted
    ensures Subsequence(q.delivered, q.attempted)
    ensures q.dropped == q.unallocated + (|q.attempted| - |q.delivered|)
  {
    ReachedOk(steps, q);
  }

  /** The records that the producers of a run stored, in order. */
  function Stored(steps: seq<QueueStep>): seq<Record> {
    if steps == [] then []
    else
      var first := steps[0];
      (if first.Enqueue? && first.recordOk then [Record(true, first.event)] else []) + Stored(steps[1..])
  }

  /** How each send of a run went. */
  function Sends(steps: seq<QueueStep>): seq<bool> {
    if steps == [] then []
    else
      var first := steps[0];
      (if first.SendHead? then [first.portOpen && first.sent] else []) + Sends(steps[1..])
  }

  function Unstored(steps: seq<QueueStep>): nat {
    if steps == [] then 0
    else (if steps[0].Enqueue? && !steps[0].recordOk then 1 else 0) + Unstored(steps[1..])
  }

  /** The records at the places where the flag is set. */
  function Selected(records: seq<Record>, flags: seq<bool>): seq<Record>
    requires |records| == |flags|
  {
    if records == [] then []
    else
      var n := |records| - 1;
      Selected(records[..n], flags[..n]) + if flags[n] then [records[n]] else []
  }

  /** The queue's history is that of the run, given what went before. */
  ghost predicate HistoryFits(p: QueueState, flags: seq<bool>) {
    |flags| == |p.attempted| && p.delivered == Selected(p.attempted, flags)
  }

  lemma {:induction false} SelectedOneMore(records: seq<Record>, flags: seq<bool>, r: Record, flag: bool)
    requires |records| == |flags|
    ensures Selected(records + [r], flags + [flag]) == Selected(records, flags) + if flag then [r] else []
  {
    assert (records + [r])[..|records|] == records && (flags + [flag])[..|flags|] == flags;
  }

  lemma {:induction false} SendFits(p: QueueState, step: QueueStep, flags: seq<bool>)
    requires QueueInvariant(p) && Enabled(p, step) && step.SendHead? && HistoryFits(p, flags)
    ensures HistoryFits(NextQueue(p, step), flags + [step.portOpen && step.sent])
  {
    assert p.enqueued[|p.attempted|] == p.local[0];
    SelectedOneMore(p.attempted, flags, p.local[0], step.portOpen && step.sent);
  }

  /** The sends so far and those still to come are all of them. */
  ghost predicate Completes(flags: seq<bool>, steps: seq<QueueStep>, all: seq<bool>) {
    forall x :: x == steps ==> flags + Sends(x) == all
  }

  lemma {:induction false} CompletesOneOn(flags: seq<bool>, steps: seq<QueueStep>, all: seq<bool>)
    requires steps != [] && Completes(flags, steps, all)
    ensures var step := steps[0];
      Completes(if step.SendHead? then flags + [step.portOpen && step.sent] else flags, steps[1..], all)
  {
    var step, rest := steps[0], Sends(steps[1..]);
    assert flags + Sends(steps) == all;
    if step.SendHead? {
      assert flags + ([step.portOpen && step.sent] + rest) == flags + [step.portOpen && step.sent] + rest;
    } else {
      assert [] + rest == rest;
    }
  }

  lemma {:induction false} HistoryRun(p: QueueState, steps: seq<QueueStep>, q: QueueState, flags: seq<bool>,
                                      all: seq<bool>)
    requires QueueInvariant(p) && Leads(p, steps, q) && HistoryFits(p, flags) && Completes(flags, steps, all)
    ensures HistoryFits(q, all)
    decreases |steps|
  {
    if steps == [] {
      assert flags + Sends(steps) == all && flags + [] == flags;
    } else {
      var step := steps[0];
      CompletesOneOn(flags, steps, all);
      InvariantStep(p, step);
      if step.SendHead? {
        SendFits(p, step, flags);
        HistoryRun(NextQueue(p, step), steps[1..], q, flags + [step.portOpen && step.sent], all);
      } else {
        HistoryRun(NextQueue(p, step), steps[1..], q, flags, all);
      }
    }
  }

  lemma {:induction false} StoredStep(p: QueueState, step: QueueStep, rest: seq<Record>)
    requires Enabled(p, step)
    ensures NextQueue(p, step).enqueued + rest
      == p.enqueued + ((if step.Enqueue? && step.recordOk then [Record(true, step.event)] else []) + rest)
  {
    if step.Enqueue? && step.recordOk {
      var r := Record(true, step.event);
      assert p.enqueued + [r] + rest == p.enqueued + ([r] + rest);
    } else {
      assert [] + rest == rest;
    }
  }

  lemma {:induction false} StoredRun(p: QueueState, steps: seq<QueueStep>, q: QueueState)
    requires Leads(p, steps, q)
    ensures q.enqueued == p.enqueued + Stored(steps)
    decreases |steps|
  {
    if steps == [] {
      assert p.enqueued + [] == p.enqueued;
    } else {
      StoredRun(NextQueue(p, steps[0]), steps[1..], q);
      StoredStep(p, steps[0], Stored(steps[1..]));
    }
  }

  lemma {:induction false} UnstoredRun(p: QueueState, steps: seq<QueueStep>, q: QueueState)
    requires Leads(p, steps, q)
    ensures q.unallocated == p.unallocated + Unstored(steps)
    decreases |steps|
  {
    if steps != [] {
      UnstoredRun(NextQueue(p, steps[0]), steps[1..], q);
    }
  }

  /** Over every interleaving the records enqueued are those the producers stored, the first of them
      have been attempted, one for each send, and delivered are exactly those whose send went well. */
  lemma {:induction false} DeliveredIsHistory(steps: seq<QueueStep>, q: QueueState)
    requires Leads(INITIAL, steps, q)
    ensures q.enqueued == Stored(steps) && q.attempted <= Stored(steps) && |q.attempted| == |Sends(steps)|
    ensures q.delivered == Selected(q.attempted, Sends(steps))
    ensures q.dropped == Unstored(steps) + |q.attempted| - |q.delivered|
  {
    InitialOk();
    assert [] + Sends(steps) == Sends(steps) && [] + Stored(steps) == Stored(steps);
    HistoryRun(INITIAL, steps, q, [], Sends(steps));
    StoredRun(INITIAL, steps, q);
    UnstoredRun(INITIAL, steps, q);
    ReachedOk(steps, q);
  }

  // ---- No wake-up is lost ----

  /** Whenever the worker finds the queue empty and goes back to waiting, every record enqueued so
      far has been attempted. */
  lemma {:induction false} RestMeansAttempted(steps: seq<QueueStep>, q: QueueState)
    requires Leads(INITIAL, steps, q) && Enabled(q, CheckEmpty) && NextQueue(q, CheckEmpty).worker.Waiting?
    ensures q.attempted == q.enqueued
  {
    ReachedOk(steps, q);
    assert q.attempted + q.local + q.head == q.attempted;
  }

  /** How many steps are still needed: one per signal not yet given, one more before it per record not
      yet counted, one per record to be sent and one more per record still in the queue. */
  function Backlog(q: QueueState): nat {
    2 * q.uncounted + q.unsignalled + 2 * |q.head| + |q.local|
  }

  /** A step that moves a record or a signal on. */
  predicate Productive(q: QueueState, s: QueueStep) {
    Enabled(q, s) && (s.Tally? || s.Signal? || s.SendHead? || (s.Splice? && q.head != []))
  }

  ghost predicate CanAdvance(q: QueueState) {
    exists s :: Productive(q, s)
  }

  /** Without a new record a productive step lowers the backlog, and any other step neither raises
      it nor stops a productive step from being possible. */
  lemma {:induction false} BacklogFalls(q: QueueState, s: QueueStep)
    requires QueueInvariant(q) && Enabled(q, s) && !s.Enqueue?
    ensures var n := NextQueue(q, s);
      if Productive(q, s) then Backlog(n) < Backlog(q)
      else Backlog(n) == Backlog(q) && (CanAdvance(q) ==> CanAdvance(n))
  {
    var n := NextQueue(q, s);
    if !Productive(q, s) && CanAdvance(q) {
      var t :| Productive(q, t);
      assert Productive(n, t);
    }
  }

  /** While there is a backlog, a productive step is possible at once or as soon as the worker, which
      can wake, has woken. */
  lemma {:induction false} BacklogMoves(q: QueueState)
    requires QueueInvariant(q) && Backlog(q) > 0
    ensures CanAdvance(q) || (Enabled(q, Wake) && CanAdvance(NextQueue(q, Wake)))
  {
    if q.uncounted > 0 {
      assert Productive(q, Tally);
    } else if q.unsignalled > 0 {
      assert Productive(q, Signal);
    } else if q.local != [] {
      assert Productive(q, SendHead(true, true));
    } else if q.worker.Draining? {
      assert Productive(q, Splice);
    } else {
      assert Productive(NextQueue(q, Wake), Splice);
    }
  }

  ghost function ProductiveSteps(p: QueueState, steps: seq<QueueStep>): nat
    decreases |steps|
  {
    if steps == [] || !Enabled(p, steps[0]) then 0
    else (if Productive(p, steps[0]) then 1 else 0) + ProductiveSteps(NextQueue(p, steps[0]), steps[1..])
  }

  /** Once the producers fall silent, every run takes at most `Backlog` productive steps, and when
      no backlog is left every record has been attempted. */
  lemma {:induction false} Drains(p: QueueState, steps: seq<QueueStep>, q: QueueState)
    requires QueueInvariant(p) && Leads(p, steps, q)
    requires forall i :: 0 <= i < |steps| ==> !steps[i].Enqueue?
    ensures ProductiveSteps(p, steps) + Backlog(q) <= Backlog(p) && q.enqueued == p.enqueued
    ensures Backlog(q) == 0 ==> q.attempted == q.enqueued
    decreases |steps|
  {
    if steps == [] {
      assert q.local == [] && q.head == [] ==> q.attempted + q.local + q.head == q.attempted;
    } else {
      InvariantStep(p, steps[0]);
      BacklogFalls(p, steps[0]);
      Drains(NextQueue(p, steps[0]), steps[1..], q);
    }
  }

  lemma {:induction false} SignalledBy(p: QueueState, steps: seq<QueueStep>, q: QueueState)
    requires Leads(p, steps, q)
    ensures q.signalled <==> p.signalled || Signal in steps
    decreases |steps|
  {
    if steps != [] {
      SignalledBy(NextQueue(p, steps[0]), steps[1..], q);
      assert steps == [steps[0]] + steps[1..];
    }
  }

  /** The event is never reset: a worker that waits can sleep on if and only if no producer has ever
      signalled. */
  lemma {:induction false} SleepsIff(steps: seq<QueueStep>, q: QueueState)
    requires Leads(INITIAL, steps, q) && q.worker.Waiting?
    ensures !Enabled(q, Wake) <==> Signal !in steps
  {
    SignalledBy(INITIAL, steps, q);
  }

  // ---- The queue itself, updated in place ----

  ghost predicate Reachable(q: QueueState) {
    exists steps :: Leads(INITIAL, steps, q)
  }

  /** Nothing has happened yet. */
  ghost predicate Untouched(q: QueueState) {
    q.enqueued == q.attempted == q.local == [] && q.unallocated == 0 && q.worker.Waiting?
  }

  lemma {:induction false} InitialReachable(q: QueueState, none: seq<QueueStep>)
    requires q == INITIAL && none == []
    ensures Reachable(q)
  {
    assert Leads(q, none, q);
  }

  lemma {:induction false} LeadsOn(p: QueueState, steps: seq<QueueStep>, q: QueueState, s: QueueStep)
    requires Leads(p, steps, q) && Enabled(q, s)
    ensures Leads(p, steps + [s], NextQueue(q, s))
    decreases |steps|
  {
    if steps == [] {
      assert (steps + [s])[1..] == [];
    } else {
      LeadsOn(NextQueue(p, steps[0]), steps[1..], q, s);
      assert (steps + [s])[1..] == steps[1..] + [s];
    }
  }

  lemma {:induction false} ReachableStep(q: QueueState, s: QueueStep)
    requires Reachable(q) && Enabled(q, s)
    ensures Reachable(NextQueue(q, s)) && QueueInvariant(q) && QueueInvariant(NextQueue(q, s))
  {
    var steps :| Leads(INITIAL, steps, q);
    ReachedOk(steps, q);
    InvariantStep(q, s);
    LeadsOn(INITIAL, steps, q, s);
  }

  /** What one producer does: append, count and signal, or count a dropped event, or nothing. */
  function Produced(q: QueueState, event: BlockEvent, lookaside: Lookaside): QueueState {
    match lookaside
    case Granted => NextQueue(NextQueue(NextQueue(q, Enqueue(event, true)), Tally), Signal)
    case Exhausted => NextQueue(q, Enqueue(event, false))
    case ShuttingDown => q
  }

  datatype Arrival = Arrival(event: BlockEvent, lookaside: Lookaside)

  /** What the `k`-th attempted send finds: an open port, and whether the message goes through. */
  type Outcomes = nat -> (bool, bool)

  /** The records that get through. */
  function Passed(records: seq<Record>, outcomes: Outcomes): seq<Record> {
    if records == [] then []
    else
      var n := |records| - 1;
      Passed(records[..n], outcomes) + (if outcomes(n) == (true, true) then [records[n]] else [])
  }

  lemma {:induction false} PassedOne(records: seq<Record>, r: Record, outcomes: Outcomes)
    ensures Passed(records + [r], outcomes)
      == Passed(records, outcomes) + (if outcomes(|records|) == (true, true) then [r] else [])
  {
  }

  /** The records of the arrivals that got one, and how many got none. */
  function Recorded(arrivals: seq<Arrival>): seq<Record> {
    if arrivals == [] then []
    else
      var n := |arrivals| - 1;
      Recorded(arrivals[..n]) + (if arrivals[n].lookaside.Granted? then [Record(true, arrivals[n].event)] else [])
  }

  function Lost(arrivals: seq<Arrival>): nat {
    if arrivals == [] then 0
    else
      var n := |arrivals| - 1;
      Lost(arrivals[..n]) + (if arrivals[n].lookaside.Exhausted? then 1 else 0)
  }

  function Flat(rounds: seq<seq<Arrival>>): seq<Arrival> {
    if rounds == [] then [] else Flat(rounds[..|rounds| - 1]) + rounds[|rounds| - 1]
  }

  lemma {:induction false} ArrivalsSplit(a: seq<Arrival>, b: seq<Arrival>)
    ensures Recorded(a + b) == Recorded(a) + Recorded(b) && Lost(a + b) == Lost(a) + Lost(b)
    decreases |b|
  {
    if b == [] {
      assert a + b == a;
    } else {
      var n := |b| - 1;
      assert (a + b)[..|a + b| - 1] == a + b[..n];
      ArrivalsSplit(a, b[..n]);
    }
  }

  class EventQueue {
    var head: seq<Record>
    var count: nat
    var totalEvents: nat
    var dropped: nat
    var dataAvailable: bool
    var draining: bool
    /** The notify port, and what the user-mode service has received through it. */
    const outcomes: Outcomes
    var received: seq<Record>
    ghost var state: QueueState

    /** The queue is in a state of some run of the steps above. */
    ghost predicate Valid()
      reads this
    {
      && Reachable(state) && QueueInvariant(state) && state.uncounted == 0 && state.unsignalled == 0
      && state.head == head && state.count == count && state.totalEvents == totalEvents && state.dropped == dropped
      && state.signalled == dataAvailable && draining == state.worker.Draining?
      && state.delivered == received == Passed(state.attempted, outcomes)
    }

    constructor (outcomes: Outcomes)
      ensures Valid() && Untouched(state) && this.outcomes == outcomes
    {
      this.outcomes := outcomes;
      head, count, totalEvents, dropped, dataAvailable, draining, received := [], 0, 0, 0, false, false, [];
      state := INITIAL;
      new;
      InitialOk();
      InitialReachable(state, []);
    }

    method QueueBlockEvent(event: BlockEvent, lookaside: Lookaside)
      requires Valid()
      modifies this
      ensures Valid() && SameWorker(state, old(state)) && ProducedAll(old(state), [Arrival(event, lookaside)], state)
    {
      ProducedOne(state, event, lookaside);
      match lookaside {
        case ShuttingDown =>
        case Exhausted =>
          ReachableStep(state, Enqueue(event, false));
          state := NextQueue(state, Enqueue(event, false));
          dropped := dropped + 1;
        case Granted =>
          ReachableStep(state, Enqueue(event, true));
          ReachableStep(NextQueue(state, Enqueue(event, true)), Tally);
          ReachableStep(NextQueue(NextQueue(state, Enqueue(event, true)), Tally), Signal);
          state := Produced(state, event, Granted);
          head := head + [Record(true, event)];
          count := count + 1;
          totalEvents := totalEvents + 1;
          dataAvailable := true;
      }
    }

    /** Move the whole queue to a local list under the lock. */
    method TakeOver() returns (local: seq<Record>)
      requires Valid() && draining && state.local == []
      modifies this
      ensures Valid() && state == NextQueue(old(state), Splice) && local == old(head)
    {
      ReachableStep(state, Splice);
      local := MoveRecords();
      count := 0;
      state := NextQueue(state, Splice);
    }

    /** Record by record from the head of the queue to the tail of the list. */
    method MoveRecords() returns (local: seq<Record>)
      modifies `head
      ensures head == [] && local == old(head)
    {
      local := [];
      while head != []
        invariant local + head == old(head)
        decreases |head|
      {
        local := local + [head[0]];
        head := head[1..];
      }
    }

    /** Send one record, the `k`-th: it is delivered or counted as dropped. */
    method SendNotification(record: Record, k: nat)
      requires Valid() && draining && state.local != [] && state.local[0] == record && k == |state.attempted|
      modifies `state, `dropped, `received
      ensures Valid() && SameProducers(state, old(state)) && state.worker == old(state.worker)
      ensures state.local == old(state.local)[1..] && state.attempted == old(state.attempted) + [record]
    {
      var (portOpen, sent) := outcomes(k);
      ReachableStep(state, SendHead(portOpen, sent));
      PassedOne(state.attempted, record, outcomes);
      assert record == state.enqueued[k];
      state := NextQueue(state, SendHead(portOpen, sent));
      if !record.headerValid || !portOpen || !sent {
        dropped := dropped + 1;
        return;
      }
      received := received + [record];
    }

    /** `before` counts the sends attempted so far. */
    method SendAll(records: seq<Record>, before: nat)
      requires Valid() && draining && state.local == records && before == |state.attempted|
      modifies `state, `dropped, `received
      ensures Valid() && state.local == [] && state.attempted == old(state.attempted) + records
      ensures SameProducers(state, old(state)) && state.worker == old(state.worker)
    {
      for i := 0 to |records|
        invariant Valid() && draining && state.local == records[i..]
        invariant state.attempted == old(state.attempted) + records[..i]
        invariant SameProducers(state, old(state))
      {
        SendNotification(records[i], before + i);
      }
    }

    /** Arrivals while the worker waits or holds a local list. */
    method Produce(arrivals: seq<Arrival>)
      requires Valid()
      modifies this
      ensures Valid() && SameWorker(state, old(state)) && ProducedAll(old(state), arrivals, state)
    {
      for i := 0 to |arrivals|
        invariant Valid() && SameWorker(state, old(state)) && ProducedAll(old(state), arrivals[..i], state)
      {
        ghost var before := state;
        QueueBlockEvent(arrivals[i].event, arrivals[i].lookaside);
        ProducedMore(old(state), arrivals, i, before, state);
      }
      assert arrivals[..|arrivals|] == arrivals;
    }

    /** Take the queue over, let `arrivals` come in, then send what was taken. */
    method FlushNotificationQueue(arrivals: seq<Arrival>)
      requires Valid() && draining && state.local == []
      modifies this
      ensures Valid() && draining && state.local == []
      ensures state.attempted == old(state.attempted) + old(head) && head == Recorded(arrivals)
      ensures state.enqueued == old(state.enqueued) + Recorded(arrivals)
      ensures state.unallocated == old(state.unallocated) + Lost(arrivals)
    {
      var before := totalEvents - count;
      var local := TakeOver();
      Produce(arrivals);
      SendAll(local, before);
    }

    /** One turn of the worker: wait, flush, look at the queue again. As long as nothing has been
        signalled it sleeps through the arrivals. */
    method Turn(arrivals: seq<Arrival>)
      requires Valid() && state.local == []
      modifies this
      ensures Valid() && state.local == []
      ensures state.enqueued == old(state.enqueued) + Recorded(arrivals)
      ensures state.unallocated == old(state.unallocated) + Lost(arrivals)
      ensures arrivals == [] ==> !draining && state.attempted == state.enqueued
    {
      if !draining {
        if !dataAvailable {
          Produce(arrivals);
          return;
        }
        Awake();
      }
      FlushNotificationQueue(arrivals);
      LookAgain();
    }

    method Awake()
      requires Valid() && !draining && dataAvailable
      modifies `state, `draining
      ensures Valid() && draining && SameProducers(state, old(state))
      ensures state.local == old(state.local) && state.attempted == old(state.attempted)
    {
      ReachableStep(state, Wake);
      state := NextQueue(state, Wake);
      draining := true;
    }

    /** An empty queue sends the worker back to waiting. */
    method LookAgain()
      requires Valid() && draining && state.local == []
      modifies `state, `draining
      ensures Valid() && draining == (head != []) && SameProducers(state, old(state))
      ensures state.local == [] && state.attempted == old(state.attempted)
      ensures !draining ==> state.attempted == state.enqueued
    {
      ReachableStep(state, CheckEmpty);
      state := NextQueue(state, CheckEmpty);
      draining := head != [];
      assert !draining ==> state.attempted + [] + [] == state.enqueued;
    }

    /** The worker's loop from the start: `rounds[i]` arrives during its `i`-th turn, and after the
        last round the producers are silent. */
    method NotifyWorker(rounds: seq<seq<Arrival>>)
      requires Valid() && Untouched(state)
      modifies this
      ensures Valid() && !draining && head == []
      ensures received == Passed(Recorded(Flat(rounds)), outcomes)
      ensures dropped + |received| == Lost(Flat(rounds)) + |Recorded(Flat(rounds))|
    {
      for i := 0 to |rounds|
        invariant Valid() && state.local == []
        invariant state.enqueued == Recorded(Flat(rounds[..i])) && state.unallocated == Lost(Flat(rounds[..i]))
      {
        Turn(rounds[i]);
        assert rounds[..i + 1][..i] == rounds[..i];
        ArrivalsSplit(Flat(rounds[..i]), rounds[i]);
      }
      assert rounds[..|rounds|] == rounds;
      Turn([]);
      assert state.attempted == Recorded(Flat(rounds));
    }
  }

  ghost predicate SameProducers(q: QueueState, p: QueueState) {
    q.enqueued == p.enqueued && q.unallocated == p.unallocated && q.head == p.head
  }

  /** The arrivals' records have been appended and their losses counted. */
  ghost predicate ProducedAll(p: QueueState, arrivals: seq<Arrival>, q: QueueState) {
    && q.enqueued == p.enqueued + Recorded(arrivals) && q.head == p.head + Recorded(arrivals)
    && q.unallocated == p.unallocated + Lost(arrivals)
  }

  lemma {:induction false} OneArrival(event: BlockEvent, lookaside: Lookaside)
    ensures Recorded([Arrival(event, lookaside)]) == if lookaside.Granted? then [Record(true, event)] else []
    ensures Lost([Arrival(event, lookaside)]) == if lookaside.Exhausted? then 1 else 0
  {
  }

  lemma {:induction false} ProducedOne(q: QueueState, event: BlockEvent, lookaside: Lookaside)
    ensures var n := Produced(q, event, lookaside);
      ProducedAll(q, [Arrival(event, lookaside)], n) && SameWorker(n, q)
  {
  }

  lemma {:induction false} ProducedMore(p: QueueState, arrivals: seq<Arrival>, i: nat, q: QueueState, n: QueueState)
    requires i < |arrivals| && ProducedAll(p, arrivals[..i], q)
    requires ProducedAll(q, [Arrival(arrivals[i].event, arrivals[i].lookaside)], n)
    ensures ProducedAll(p, arrivals[..i + 1], n)
  {
    var one := [Arrival(arrivals[i].event, arrivals[i].lookaside)];
    ArrivalsSplit(arrivals[..i], one);
    assert arrivals[..i + 1] == arrivals[..i] + one;
  }

  ghost predicate SameWorker(q: QueueState, p: QueueState) {
    q.local == p.local && q.attempted == p.attempted && q.worker == p.worker
  }

  /** However the arrivals fall into the worker's turns, the service receives exactly the records
      whose send succeeds, in order, and every other arrival outside a shutdown is counted. */
  method ExecuteQueue(rounds: seq<seq<Arrival>>, outcomes: Outcomes) returns (received: seq<Record>, dropped: nat)
    ensures received == Passed(Recorded(Flat(rounds)), outcomes)
    ensures dropped + |received| == Lost(Flat(rounds)) + |Recorded(Flat(rounds))|
  {
    var queue := new EventQueue(outcomes);
    queue.NotifyWorker(rounds);
    return queue.received, queue.dropped;
  }
}
