/** The syncer at work on the table: each pass is a run of the outbox steps, with stores coming in
    between its queries, while it sends and before it acknowledges. */
module OutboxSync {
  import opened Outbox
  import opened OutboxRuns

  datatype Arrival = Arrival(payload: nat, parses: bool, now: int, insertOk: bool)

  /** What one pass meets: the connection, the arrivals at its four points, the fate of the send and
      of the acknowledgement. */
  datatype Pass = Pass(
    before: seq<Arrival>, connected: bool, between: seq<Arrival>, during: seq<Arrival>,
    sendOk: bool, after: seq<Arrival>, failAt: nat, commit: Commit)

  /** The table is that of the state. */
  ghost predicate Matches(db: LocalCache, s: SyncState)
    reads db
  {
    db.Valid() && db.rows == s.rows && db.nextId == s.next && db.inTransaction == s.open
  }

  lemma {:induction false} LeadsChain(p: SyncState, a: seq<SyncStep>, q: SyncState, b: seq<SyncStep>, r: SyncState)
    requires Leads(p, a, q) && Leads(q, b, r)
    ensures Leads(p, a + b, r)
    decreases |a|
  {
    if a == [] {
      assert a + b == b;
    } else {
      LeadsChain(Next(p, a[0]), a[1..], q, b, r);
      assert (a + b)[1..] == a[1..] + b;
    }
  }

  lemma {:induction false} LeadsBy(p: SyncState, a: seq<SyncStep>, q: SyncState, step: SyncStep)
    requires Leads(p, a, q) && Enabled(q, step)
    ensures Leads(p, a + [step], Next(q, step))
  {
    assert [step][1..] == [] && Leads(Next(q, step), [], Next(q, step));
    LeadsChain(p, a, q, [step], Next(q, step));
  }

  // ---- The stores of a run ----

  function StoreOf(a: Arrival): seq<SyncStep> {
    if a.insertOk then [Store(a.payload, a.parses, a.now)] else []
  }

  function StoresFrom(arrivals: seq<Arrival>): seq<SyncStep> {
    if arrivals == [] then [] else StoresFrom(arrivals[..|arrivals| - 1]) + StoreOf(arrivals[|arrivals| - 1])
  }

  function StoresIn(steps: seq<SyncStep>): seq<SyncStep> {
    if steps == [] then []
    else StoresIn(steps[..|steps| - 1]) + (if steps[|steps| - 1].Store? then [steps[|steps| - 1]] else [])
  }

  lemma {:induction false} StoresInSplit(a: seq<SyncStep>, b: seq<SyncStep>)
    ensures StoresIn(a + b) == StoresIn(a) + StoresIn(b)
    decreases |b|
  {
    if b == [] {
      assert a + b == a;
    } else {
      var n := |b| - 1;
      assert (a + b)[..|a + b| - 1] == a + b[..n];
      StoresInSplit(a, b[..n]);
    }
  }

  lemma {:induction false} OneStep(step: SyncStep)
    ensures StoresIn([step]) == if step.Store? then [step] else []
  {
  }

  /** Parseable payloads at times that never go back, from time 0. */
  ghost predicate InOrder(stores: seq<SyncStep>) {
    && (forall i :: 0 <= i < |stores| ==> stores[i].Store? && stores[i].parses && 0 <= stores[i].now)
    && (forall i, j :: 0 <= i < j < |stores| ==> stores[i].now <= stores[j].now)
  }

  ghost predicate NotBefore(stores: seq<SyncStep>, clock: int) {
    forall i :: 0 <= i < |stores| && stores[i].Store? ==> clock <= stores[i].now
  }

  /** A run is orderly when its stores are. */
  lemma {:induction false} OrderlyStores(steps: seq<SyncStep>, clock: int)
    requires InOrder(StoresIn(steps)) && NotBefore(StoresIn(steps), clock)
    ensures Orderly(steps, clock)
    decreases |steps|
  {
    if steps != [] {
      var rest := steps[1..];
      assert steps == [steps[0]] + rest;
      StoresInSplit([steps[0]], rest);
      OneStep(steps[0]);
      if steps[0].Store? {
        FirstStore(steps[0], StoresIn(rest), clock);
        OrderlyStores(rest, steps[0].now);
      } else {
        assert StoresIn(steps) == StoresIn(rest);
        OrderlyStores(rest, clock);
      }
    }
  }

  lemma {:induction false} FirstStore(step: SyncStep, later: seq<SyncStep>, clock: int)
    requires step.Store? && InOrder([step] + later) && NotBefore([step] + later, clock)
    ensures step.parses && clock <= step.now && InOrder(later) && NotBefore(later, step.now)
  {
    var all := [step] + later;
    assert all[0] == step && forall i :: 0 <= i < |later| ==> later[i] == all[i + 1];
  }

  // ---- One pass ----

  /** A run followed by another. */
  lemma {:induction false} Joined(s: SyncState, a: seq<SyncStep>, t: SyncState, b: seq<SyncStep>, u: SyncState)
    requires Leads(s, a, t) && Leads(t, b, u)
    ensures Leads(s, a + b, u) && StoresIn(a + b) == StoresIn(a) + StoresIn(b)
  {
    LeadsChain(s, a, t, b, u);
    StoresInSplit(a, b);
  }

  lemma {:induction false} StoresFromSplit(a: seq<Arrival>, b: seq<Arrival>)
    ensures StoresFrom(a + b) == StoresFrom(a) + StoresFrom(b)
    decreases |b|
  {
    if b == [] {
      assert a + b == a;
    } else {
      var n := |b| - 1;
      assert (a + b)[..|a + b| - 1] == a + b[..n];
      StoresFromSplit(a, b[..n]);
    }
  }

  method StoreOne(db: LocalCache, a: Arrival, ghost s: SyncState)
    returns (ghost steps: seq<SyncStep>, ghost t: SyncState)
    requires Matches(db, s)
    modifies db
    ensures Matches(db, t) && Leads(s, steps, t) && StoresIn(steps) == StoresFrom([a])
    ensures t.phase == s.phase && t.delivered == s.delivered
  {
    steps, t := [], s;
    var ok := db.StoreEvent(a.payload, a.parses, a.now, a.insertOk);
    if ok {
      var step := Store(a.payload, a.parses, a.now);
      LeadsBy(s, [], s, step);
      OneStep(step);
      steps, t := [] + [step], Next(s, step);
    }
  }

  method StoreAll(db: LocalCache, arrivals: seq<Arrival>, ghost s: SyncState)
    returns (ghost steps: seq<SyncStep>, ghost t: SyncState)
    requires Matches(db, s)
    modifies db
    ensures Matches(db, t) && Leads(s, steps, t) && StoresIn(steps) == StoresFrom(arrivals)
    ensures t.phase == s.phase && t.delivered == s.delivered
  {
    steps, t := [], s;
    for i := 0 to |arrivals|
      invariant Matches(db, t) && Leads(s, steps, t) && StoresIn(steps) == StoresFrom(arrivals[..i])
      invariant t.phase == s.phase && t.delivered == s.delivered
    {
      ghost var more, u := StoreOne(db, arrivals[i], t);
      Joined(s, steps, t, more, u);
      StoresFromSplit(arrivals[..i], [arrivals[i]]);
      assert arrivals[..i + 1] == arrivals[..i] + [arrivals[i]];
      steps, t := steps + more, u;
    }
    assert arrivals[..|arrivals|] == arrivals;
  }

  /** A silent step of the syncer after a run. */
  lemma {:induction false} Silent(s: SyncState, steps: seq<SyncStep>, t: SyncState, step: SyncStep)
    requires Leads(s, steps, t) && Enabled(t, step) && !step.Store?
    ensures Leads(s, steps + [step], Next(t, step)) && StoresIn(steps + [step]) == StoresIn(steps)
  {
    LeadsBy(s, steps, t, step);
    StoresInSplit(steps, [step]);
    OneStep(step);
  }

  /** The two queries: afterwards the batch to send is loaded, or the pass is over. */
  method Fetch(db: LocalCache, between: seq<Arrival>, ghost s: SyncState)
    returns (ids: seq<nat>, events: seq<Row>, ghost steps: seq<SyncStep>, ghost t: SyncState)
    requires Matches(db, s) && s.phase.Idle?
    modifies db
    ensures Matches(db, t) && Leads(s, steps, t) && t.delivered == s.delivered
    ensures StoresIn(steps) == StoresFrom(between)
    ensures events == [] ==> t.phase.Idle?
    ensures events != [] ==> t.phase == Loaded(ids, events) && ids != []
  {
    ids := db.GetPendingEventIds(BATCH_SIZE);
    Silent(s, [], s, FetchIds);
    ghost var fetched := Next(s, FetchIds);
    ghost var more, u := StoreAll(db, between, fetched);
    Joined(s, [] + [FetchIds], fetched, more, u);
    steps, t, events := [] + [FetchIds] + more, u, [];
    assert StoresIn([]) + StoresFrom(between) == StoresFrom(between);
    if ids == [] {
      return;
    }
    events := db.GetPendingEvents(|ids|);
    Silent(s, steps, t, FetchEvents);
    steps, t := steps + [FetchEvents], Next(t, FetchEvents);
  }

  /** Send the loaded batch and acknowledge it. */
  method Deliver(db: LocalCache, ids: seq<nat>, events: seq<Row>, pass: Pass, ghost s: SyncState)
    returns (count: nat, ghost steps: seq<SyncStep>, ghost t: SyncState)
    requires Matches(db, s) && s.phase == Loaded(ids, events) && ids != []
    modifies db
    ensures Matches(db, t) && Leads(s, steps, t) && t.phase.Idle?
    ensures t.delivered == if pass.sendOk then s.delivered + IdSet(events) else s.delivered
    ensures StoresIn(steps) == StoresFrom(pass.during) + StoresFrom(pass.after)
    ensures count > 0 ==> pass.sendOk && count == |events|
  {
    steps, t := StoreAll(db, pass.during, s);
    Silent(s, steps, t, Send(pass.sendOk));
    ghost var sending := steps + [Send(pass.sendOk)];
    ghost var sent := Next(t, Send(pass.sendOk));
    ghost var more, u := StoreAll(db, pass.after, sent);
    Joined(s, sending, sent, more, u);
    steps, t, count := sending + more, u, 0;
    if !pass.sendOk {
      return;
    }
    var ok := db.MarkEventsSynced(ids, pass.failAt, pass.commit);
    ghost var mark := Mark(pass.failAt >= |ids|, pass.commit);
    Silent(s, steps, t, mark);
    steps, t := steps + [mark], Next(t, mark);
    if ok {
      count := |events|;
    }
  }

  function Arrivals(pass: Pass): seq<Arrival> {
    pass.before + (pass.between + (pass.during + pass.after))
  }

  /** One pass of the syncer, proved to be a run of the outbox steps. The number returned is that of
      the events sent and acknowledged; arrivals whose point the pass does not reach follow it. */
  method SyncEvents(db: LocalCache, pass: Pass, ghost s: SyncState)
    returns (count: nat, sent: seq<Row>, ghost steps: seq<SyncStep>, ghost t: SyncState)
    requires Matches(db, s) && s.phase.Idle?
    modifies db
    ensures Matches(db, t) && t.phase.Idle? && Leads(s, steps, t)
    ensures t.delivered == s.delivered + IdSet(sent)
    ensures StoresIn(steps) == StoresFrom(pass.between) + (StoresFrom(pass.during) + StoresFrom(pass.after))
    ensures count == 0 || count == |sent|
  {
    ghost var a, u;
    if !pass.connected {
      count, sent := 0, [];
      a, u := StoreAll(db, pass.between, s);
      steps, t := Later(db, pass, u);
    } else {
      var ids, events;
      ids, events, a, u := Fetch(db, pass.between, s);
      if events == [] {
        count, sent := 0, [];
        steps, t := Later(db, pass, u);
      } else {
        count, steps, t := Deliver(db, ids, events, pass, u);
        sent := if pass.sendOk then events else [];
      }
    }
    Joined(s, a, u, steps, t);
    steps := a + steps;
  }

  method Later(db: LocalCache, pass: Pass, ghost s: SyncState) returns (ghost steps: seq<SyncStep>, ghost t: SyncState)
    requires Matches(db, s)
    modifies db
    ensures Matches(db, t) && Leads(s, steps, t) && StoresIn(steps) == StoresFrom(pass.during) + StoresFrom(pass.after)
    ensures t.phase == s.phase && t.delivered == s.delivered
  {
    StoresFromSplit(pass.during, pass.after);
    steps, t := StoreAll(db, pass.during + pass.after, s);
  }

  // ---- Whole runs ----

  function AllArrivals(passes: seq<Pass>): seq<Arrival> {
    if passes == [] then [] else AllArrivals(passes[..|passes| - 1]) + Arrivals(passes[|passes| - 1])
  }

  lemma {:induction false} PassStores(p: Pass)
    ensures StoresFrom(Arrivals(p))
      == StoresFrom(p.before) + (StoresFrom(p.between) + (StoresFrom(p.during) + StoresFrom(p.after)))
  {
    StoresFromSplit(p.before, p.between + (p.during + p.after));
    StoresFromSplit(p.between, p.during + p.after);
    StoresFromSplit(p.during, p.after);
  }

  lemma {:induction false} OnePassMore(passes: seq<Pass>, i: nat)
    requires i < |passes|
    ensures StoresFrom(AllArrivals(passes[..i + 1]))
      == StoresFrom(AllArrivals(passes[..i])) + StoresFrom(Arrivals(passes[i]))
  {
    assert passes[..i + 1][..i] == passes[..i];
    StoresFromSplit(AllArrivals(passes[..i]), Arrivals(passes[i]));
  }

  /** The rows of a table hold the payloads stored, in order: nothing is lost or made up. */
  ghost predicate HoldsStores(rows: seq<Row>, stores: seq<SyncStep>) {
    |rows| == |stores| && forall i :: 0 <= i < |rows| ==> stores[i].Store? && rows[i].payload == stores[i].payload
  }

  lemma {:induction false} StepStores(s: SyncState, stores: seq<SyncStep>, step: SyncStep)
    requires HoldsStores(s.rows, stores) && Enabled(s, step)
    ensures HoldsStores(Next(s, step).rows, stores + StoresIn([step]))
  {
  }

  lemma {:induction false} RunStores(s: SyncState, stores: seq<SyncStep>, steps: seq<SyncStep>, t: SyncState)
    requires HoldsStores(s.rows, stores) && Leads(s, steps, t)
    ensures HoldsStores(t.rows, stores + StoresIn(steps))
    decreases |steps|
  {
    if steps == [] {
      assert stores + [] == stores;
    } else {
      var first, rest := StoresIn([steps[0]]), StoresIn(steps[1..]);
      StepStores(s, stores, steps[0]);
      RunStores(Next(s, steps[0]), stores + first, steps[1..], t);
      StoresInSplit([steps[0]], steps[1..]);
      assert steps == [steps[0]] + steps[1..];
      assert stores + first + rest == stores + (first + rest);
    }
  }

  lemma {:induction false} IdSetSplit(a: seq<Row>, b: seq<Row>)
    ensures IdSet(a + b) == IdSet(a) + IdSet(b)
  {
    forall x
      ensures x in IdSet(a + b) <==> x in IdSet(a) || x in IdSet(b)
    {
      if x in IdSet(a) {
        var i :| 0 <= i < |a| && a[i].id == x;
        assert (a + b)[i].id == x;
      }
      if x in IdSet(b) {
        var i :| 0 <= i < |b| && b[i].id == x;
        assert (a + b)[|a| + i].id == x;
      }
    }
  }

  /** The arrivals ahead of a pass, then the pass. */
  method FullPass(db: LocalCache, pass: Pass, ghost s: SyncState)
    returns (sent: seq<Row>, ghost steps: seq<SyncStep>, ghost t: SyncState)
    requires Matches(db, s) && s.phase.Idle?
    modifies db
    ensures Matches(db, t) && t.phase.Idle? && Leads(s, steps, t) && t.delivered == s.delivered + IdSet(sent)
    ensures StoresIn(steps) == StoresFrom(Arrivals(pass))
  {
    ghost var a, u := StoreAll(db, pass.before, s);
    var count;
    count, sent, steps, t := SyncEvents(db, pass, u);
    Joined(s, a, u, steps, t);
    PassStores(pass);
    steps := a + steps;
  }

  /** A run of the outbox steps from the empty table with the arrivals of some passes. */
  ghost predicate RunOf(steps: seq<SyncStep>, s: SyncState, passes: seq<Pass>, sent: seq<Row>) {
    && s.phase.Idle? && Leads(EMPTY, steps, s) && s.delivered == IdSet(sent)
    && StoresIn(steps) == StoresFrom(AllArrivals(passes))
  }

  lemma {:induction false} RunOfOneMore(steps: seq<SyncStep>, s: SyncState, passes: seq<Pass>, sent: seq<Row>, i: nat,
                                        more: seq<SyncStep>, t: SyncState, batch: seq<Row>)
    requires i < |passes| && RunOf(steps, s, passes[..i], sent) && Leads(s, more, t) && t.phase.Idle?
    requires t.delivered == s.delivered + IdSet(batch) && StoresIn(more) == StoresFrom(Arrivals(passes[i]))
    ensures RunOf(steps + more, t, passes[..i + 1], sent + batch)
  {
    Joined(EMPTY, steps, s, more, t);
    OnePassMore(passes, i);
    IdSetSplit(sent, batch);
  }

  /** Of every such run: the rows are what was stored, and under a clock that never goes back every
      marked row was sent. */
  lemma {:induction false} MarkedWasSent(steps: seq<SyncStep>, s: SyncState, passes: seq<Pass>, sent: seq<Row>)
    requires RunOf(steps, s, passes, sent)
    ensures HoldsStores(s.rows, StoresFrom(AllArrivals(passes)))
    ensures InOrder(StoresFrom(AllArrivals(passes))) ==>
      forall i :: 0 <= i < |s.rows| && s.rows[i].synced ==> s.rows[i].id in IdSet(sent)
  {
    RunStores(EMPTY, [], steps, s);
    assert [] + StoresIn(steps) == StoresIn(steps);
    if InOrder(StoresIn(steps)) {
      OrderlyStores(steps, 0);
      SyncedWasDelivered(EMPTY, steps, s);
    }
  }

  /** Any number of passes over a new table. It ends with the payloads that were stored; and if they
      can be read back and the clock never goes back, a row is marked only if it is among the rows
      of the successful sends. */
  method ExecuteSync(passes: seq<Pass>) returns (rows: seq<Row>, sent: seq<Row>)
    ensures HoldsStores(rows, StoresFrom(AllArrivals(passes)))
    ensures InOrder(StoresFrom(AllArrivals(passes))) ==>
      forall i :: 0 <= i < |rows| && rows[i].synced ==> rows[i].id in IdSet(sent)
  {
    var db := new LocalCache();
    ghost var steps, s := [], EMPTY;
    sent := [];
    for i := 0 to |passes|
      invariant fresh(db) && Matches(db, s) && RunOf(steps, s, passes[..i], sent)
    {
      var batch;
      ghost var more, t;
      batch, more, t := FullPass(db, passes[i], s);
      RunOfOneMore(steps, s, passes, sent, i, more, t, batch);
      steps, s, sent := steps + more, t, sent + batch;
    }
    assert passes[..|passes|] == passes;
    rows := db.rows;
    MarkedWasSent(steps, s, passes, sent);
  }
}
