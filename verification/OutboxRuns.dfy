/** One syncer against arbitrary stores: which rows a pass sends and which it marks, and what
    that means over whole runs. */
module OutboxRuns {
  import opened Outbox

  const BATCH_SIZE := 100

  // ---- Sent is marked ----

  ghost predicate AllParse(rows: seq<Row>) {
    forall i :: 0 <= i < |rows| ==> rows[i].parses
  }

  lemma {:induction false} ReadableSnoc(rows: seq<Row>, r: Row)
    ensures Readable(rows + [r]) == Readable(rows) + (if r.parses then [r] else [])
  {
    assert (rows + [r])[..|rows|] == rows;
  }

  lemma {:induction false} ReadableAll(rows: seq<Row>)
    ensures |Readable(rows)| <= |rows|
    ensures |Readable(rows)| == |rows| <==> AllParse(rows)
    ensures AllParse(rows) ==> Readable(rows) == rows
    decreases |rows|
  {
    if rows != [] {
      var init, last := rows[..|rows| - 1], rows[|rows| - 1];
      assert rows == init + [last];
      ReadableAll(init);
      ReadableSnoc(init, last);
      assert AllParse(rows) <==> AllParse(init) && last.parses;
    }
  }

  lemma {:induction false} StoresAddUp(rows: seq<Row>, stores: seq<Row>)
    requires forall i :: 0 <= i < |stores| ==> !stores[i].synced
    ensures |Pending(rows + stores)| == |Pending(rows)| + |stores|
    decreases |stores|
  {
    if stores == [] {
      assert rows + stores == rows;
    } else {
      var k := |stores| - 1;
      StoresAddUp(rows, stores[..k]);
      assert (rows + stores)[..|rows + stores| - 1] == rows + stores[..k];
      PlaceKeepsPrefix(stores[k], Pending(rows + stores[..k]), 0);
    }
  }

  /** Rows of one table with the same ids are the same rows. */
  lemma {:induction false} SameIdsSameRows(all: seq<Row>, next: nat, a: seq<Row>, b: seq<Row>)
    requires Numbered(all, next) && (forall r :: r in a ==> r in all) && (forall r :: r in b ==> r in all)
    requires Ids(a) == Ids(b)
    ensures a == b
  {
    assert |a| == |Ids(a)| == |b|;
    forall i | 0 <= i < |a|
      ensures a[i] == b[i]
    {
      assert a[i] in a && b[i] in b && Ids(a)[i] == Ids(b)[i];
      var j :| 0 <= j < |all| && all[j] == a[i];
      var k :| 0 <= k < |all| && all[k] == b[i];
      assert j == k;
    }
  }

  /** The rows a pass sends are exactly the rows it then marks if and only if no row stored
      between its two queries sorts ahead of the batch and every payload of the batch parses. */
  lemma {:induction false} SentIsMarkedIff(rows: seq<Row>, stores: seq<Row>, next: nat, limit: nat)
    requires Fresh(rows, stores, next)
    ensures var batch := Batch(rows, limit);
      Ids(Readable(Batch(rows + stores, |batch|))) == Ids(batch) <==> NoneAhead(stores, batch) && AllParse(batch)
  {
    var batch, all := Batch(rows, limit), rows + stores;
    var selected := Batch(all, |batch|);
    QueriesAgreeIff(rows, stores, next, limit);
    StoresAddUp(rows, stores);
    ReadableAll(selected);
    assert |selected| == |batch|;
    if Ids(Readable(selected)) == Ids(batch) {
      assert |Readable(selected)| == |Ids(batch)|;
      assert Numbered(rows, next) by {
        assert forall j :: 0 <= j < |rows| ==> rows[j] == all[j];
      }
      PendingOrdered(rows, next);
      PendingOrdered(all, next);
      assert forall r :: r in selected ==> r in Pending(all);
      assert forall r :: r in batch ==> r in Pending(rows) && r in all;
      SameIdsSameRows(all, next, selected, batch);
    }
  }

  // ---- Runs ----

  datatype Phase = Idle | Fetched(ids: seq<nat>) | Loaded(ids: seq<nat>, events: seq<Row>) | Sent(ids: seq<nat>)

  /** `delivered` holds the ids of the rows that a successful send contained; `open` says that a
      failed COMMIT left its transaction open. */
  datatype SyncState = SyncState(rows: seq<Row>, next: nat, clock: int, phase: Phase, delivered: set<nat>, open: bool)

  const EMPTY := SyncState([], 0, 0, Idle, {}, false)

  datatype SyncStep =
    | Store(payload: nat, parses: bool, now: int)
    | FetchIds
    | FetchEvents
    | Send(ok: bool)
    | Mark(updatesOk: bool, commit: Commit)

  predicate Enabled(s: SyncState, step: SyncStep) {
    match step
    case Store(_, _, _) => true
    case FetchIds => s.phase.Idle?
    case FetchEvents => s.phase.Fetched?
    case Send(_) => s.phase.Loaded?
    case Mark(_, _) => s.phase.Sent?
  }

  function IdSet(rows: seq<Row>): set<nat> {
    set i | 0 <= i < |rows| :: rows[i].id
  }

  function Next(s: SyncState, step: SyncStep): SyncState
    requires Enabled(s, step)
  {
    match step
    case Store(payload, parses, now) =>
      s.(rows := s.rows + [Row(s.next, payload, parses, now, false)], next := s.next + 1, clock := now)
    case FetchIds =>
      var ids := Ids(Batch(s.rows, BATCH_SIZE));
      s.(phase := if ids == [] then Idle else Fetched(ids))
    case FetchEvents =>
      var events := Readable(Batch(s.rows, |s.phase.ids|));
      s.(phase := if events == [] then Idle else Loaded(s.phase.ids, events))
    case Send(ok) =>
      if ok then s.(phase := Sent(s.phase.ids), delivered := s.delivered + IdSet(s.phase.events))
      else s.(phase := Idle)
    case Mark(updatesOk, commit) =>
      if s.open || !updatesOk || commit.Undone? then s.(phase := Idle)
      else s.(phase := Idle, rows := Marked(s.rows, s.phase.ids), open := commit.LeftOpen?)
  }

  ghost predicate Leads(p: SyncState, steps: seq<SyncStep>, q: SyncState)
    decreases |steps|
  {
    if steps == [] then p == q
    else Enabled(p, steps[0]) && Leads(Next(p, steps[0]), steps[1..], q)
  }

  /** Stores with parseable payloads at times that never go back. */
  ghost predicate Orderly(steps: seq<SyncStep>, clock: int)
    decreases |steps|
  {
    steps == [] ||
    if steps[0].Store? then steps[0].parses && clock <= steps[0].now && Orderly(steps[1..], steps[0].now)
    else Orderly(steps[1..], clock)
  }

  ghost predicate PhaseOk(s: SyncState) {
    match s.phase
    case Idle => true
    case Fetched(ids) => |ids| <= |Pending(s.rows)| && ids == Ids(Pending(s.rows)[..|ids|])
    case Loaded(ids, events) => Ids(events) == ids
    case Sent(ids) => forall i :: 0 <= i < |ids| ==> ids[i] in s.delivered
  }

  ghost predicate SyncInvariant(s: SyncState) {
    && Numbered(s.rows, s.next) && AllParse(s.rows)
    && (forall i :: 0 <= i < |s.rows| ==> s.rows[i].createdAt <= s.clock)
    && (forall i :: 0 <= i < |s.rows| && s.rows[i].synced ==> s.rows[i].id in s.delivered)
    && PhaseOk(s)
  }

  lemma {:induction false} StoreKeeps(s: SyncState, payload: nat, now: int)
    requires SyncInvariant(s) && s.clock <= now
    ensures SyncInvariant(Next(s, Store(payload, true, now)))
  {
    if s.phase.Fetched? {
      var n, r := |s.phase.ids|, Row(s.next, payload, true, now, false);
      PendingOrdered(s.rows, s.next);
      if n > 0 {
        assert Pending(s.rows)[n - 1] in Pending(s.rows);
      }
      OneStore(s.rows, r, s.next, n);
    }
  }

  lemma {:induction false} FetchKeeps(s: SyncState)
    requires SyncInvariant(s) && s.phase.Idle?
    ensures SyncInvariant(Next(s, FetchIds))
  {
  }

  lemma {:induction false} LoadKeeps(s: SyncState)
    requires SyncInvariant(s) && s.phase.Fetched?
    ensures SyncInvariant(Next(s, FetchEvents))
  {
    PendingOrdered(s.rows, s.next);
    var n := |s.phase.ids|;
    var selected := Pending(s.rows)[..n];
    forall i | 0 <= i < |selected|
      ensures selected[i].parses
    {
      assert selected[i] in Pending(s.rows);
    }
    ReadableAll(selected);
    assert Batch(s.rows, n) == selected;
  }

  lemma {:induction false} SendKeeps(s: SyncState, ok: bool)
    requires SyncInvariant(s) && s.phase.Loaded?
    ensures SyncInvariant(Next(s, Send(ok)))
  {
  }

  lemma {:induction false} MarkKeeps(s: SyncState, updatesOk: bool, commit: Commit)
    requires SyncInvariant(s) && s.phase.Sent?
    ensures SyncInvariant(Next(s, Mark(updatesOk, commit)))
  {
  }

  lemma {:induction false} SyncStepKeeps(s: SyncState, step: SyncStep)
    requires SyncInvariant(s) && Enabled(s, step)
    requires step.Store? ==> step.parses && s.clock <= step.now
    ensures SyncInvariant(Next(s, step))
  {
    match step {
      case Store(payload, _, now) => StoreKeeps(s, payload, now);
      case FetchIds => FetchKeeps(s);
      case FetchEvents => LoadKeeps(s);
      case Send(ok) => SendKeeps(s, ok);
      case Mark(updatesOk, commit) => MarkKeeps(s, updatesOk, commit);
    }
  }

  /** At least once: whatever stores, failed sends and failed acknowledgements interleave, a row is
      marked only after a successful send that contained it. */
  lemma {:induction false} SyncedWasDelivered(p: SyncState, steps: seq<SyncStep>, q: SyncState)
    requires SyncInvariant(p) && Leads(p, steps, q) && Orderly(steps, p.clock)
    ensures SyncInvariant(q)
    ensures forall i :: 0 <= i < |q.rows| && q.rows[i].synced ==> q.rows[i].id in q.delivered
    decreases |steps|
  {
    if steps != [] {
      SyncStepKeeps(p, steps[0]);
      SyncedWasDelivered(Next(p, steps[0]), steps[1..], q);
    }
  }

  /** The ids of the rows that the successful sends of a run contained. */
  ghost function SentIds(p: SyncState, steps: seq<SyncStep>): set<nat>
    decreases |steps|
  {
    if steps == [] || !Enabled(p, steps[0]) then {}
    else
      (if steps[0] == Send(true) then IdSet(p.phase.events) else {}) + SentIds(Next(p, steps[0]), steps[1..])
  }

  lemma {:induction false} DeliveredIsSent(p: SyncState, steps: seq<SyncStep>, q: SyncState)
    requires Leads(p, steps, q)
    ensures q.delivered == p.delivered + SentIds(p, steps)
    decreases |steps|
  {
    if steps != [] {
      DeliveredIsSent(Next(p, steps[0]), steps[1..], q);
    }
  }

  /** From the empty table, a row marked after any run was in one of its successful sends. */
  lemma {:induction false} SyncedWasSent(steps: seq<SyncStep>, q: SyncState)
    requires Leads(EMPTY, steps, q) && Orderly(steps, 0)
    ensures forall i :: 0 <= i < |q.rows| && q.rows[i].synced ==> q.rows[i].id in SentIds(EMPTY, steps)
  {
    SyncedWasDelivered(EMPTY, steps, q);
    DeliveredIsSent(EMPTY, steps, q);
  }

  // ---- Failures and retries ----

  /** The acknowledgement reports success. */
  predicate Acknowledges(s: SyncState, step: SyncStep) {
    step.Mark? && !s.open && step.updatesOk && step.commit.Committed?
  }

  /** The acknowledgement reaches its COMMIT and is not undone. */
  predicate Reaches(s: SyncState, step: SyncStep) {
    step.Mark? && s.phase.Sent? && !s.open && step.updatesOk && !step.commit.Undone?
  }

  /** The ids of the acknowledgements of a run that reached their COMMIT. */
  ghost function MarkedIds(p: SyncState, steps: seq<SyncStep>): set<nat>
    decreases |steps|
  {
    if steps == [] || !Enabled(p, steps[0]) then {}
    else
      (if Reaches(p, steps[0]) then set x | x in p.phase.ids else {}) + MarkedIds(Next(p, steps[0]), steps[1..])
  }

  ghost function PhaseIds(s: SyncState): seq<nat> {
    if s.phase.Idle? then [] else s.phase.ids
  }

  ghost predicate IdsKnown(s: SyncState) {
    Numbered(s.rows, s.next) && forall i :: 0 <= i < |PhaseIds(s)| ==> PhaseIds(s)[i] < s.next
  }

  lemma {:induction false} IdsKnownStep(s: SyncState, step: SyncStep)
    requires IdsKnown(s) && Enabled(s, step)
    ensures IdsKnown(Next(s, step))
  {
    if step.FetchIds? {
      var batch := Batch(s.rows, BATCH_SIZE);
      PendingOrdered(s.rows, s.next);
      forall i | 0 <= i < |batch|
        ensures Ids(batch)[i] < s.next
      {
        assert batch[i] == Pending(s.rows)[i] && batch[i] in Pending(s.rows);
      }
    } else {
      assert PhaseIds(Next(s, step)) == PhaseIds(s) || PhaseIds(Next(s, step)) == [];
    }
  }

  /** A run only appends rows, under ids not given out before, and otherwise changes marks alone. */
  ghost predicate Grows(p: SyncState, q: SyncState) {
    && |p.rows| <= |q.rows| && p.next <= q.next
    && (forall i :: 0 <= i < |p.rows| ==> q.rows[i].id == p.rows[i].id && (p.rows[i].synced ==> q.rows[i].synced))
    && (forall i :: |p.rows| <= i < |q.rows| ==> q.rows[i].id >= p.next)
  }

  lemma {:induction false} RunGrows(p: SyncState, steps: seq<SyncStep>, q: SyncState)
    requires IdsKnown(p) && Leads(p, steps, q)
    ensures Grows(p, q) && IdsKnown(q)
    decreases |steps|
  {
    if steps != [] {
      IdsKnownStep(p, steps[0]);
      RunGrows(Next(p, steps[0]), steps[1..], q);
    }
  }

  /** A row is synced if and only if an acknowledgement that reached its COMMIT contained its id. */
  lemma {:induction false} SyncedIffMarked(p: SyncState, steps: seq<SyncStep>, q: SyncState, i: nat)
    requires IdsKnown(p) && Leads(p, steps, q) && i < |q.rows|
    ensures q.rows[i].synced <==> (i < |p.rows| && p.rows[i].synced) || q.rows[i].id in MarkedIds(p, steps)
    decreases |steps|
  {
    if steps != [] {
      var n := Next(p, steps[0]);
      IdsKnownStep(p, steps[0]);
      RunGrows(n, steps[1..], q);
      SyncedIffMarked(n, steps[1..], q, i);
      assert Reaches(p, steps[0]) ==> PhaseIds(p) == p.phase.ids;
    }
  }

  ghost predicate ClockOk(s: SyncState) {
    IdsKnown(s) && forall i :: 0 <= i < |s.rows| ==> s.rows[i].createdAt <= s.clock
  }

  /** Stores at times that never go back. */
  ghost predicate Timely(steps: seq<SyncStep>, clock: int)
    decreases |steps|
  {
    steps == [] ||
    if steps[0].Store? then clock <= steps[0].now && Timely(steps[1..], steps[0].now)
    else Timely(steps[1..], clock)
  }

  /** These rows are the first ones pending, and a pass under way starts with them. */
  ghost predicate Leading(s: SyncState, batch: seq<Row>) {
    && 0 < |batch| <= BATCH_SIZE && batch <= Pending(s.rows)
    && (s.phase.Idle? || (s.phase.ids != [] && s.phase.ids[0] == batch[0].id))
  }

  lemma {:induction false} LeadingStep(s: SyncState, step: SyncStep, batch: seq<Row>)
    requires ClockOk(s) && Leading(s, batch) && Enabled(s, step) && !Reaches(s, step)
    requires step.Store? ==> s.clock <= step.now
    ensures ClockOk(Next(s, step)) && Leading(Next(s, step), batch)
  {
    IdsKnownStep(s, step);
    if step.Store? {
      var n, r := |batch|, Row(s.next, step.payload, step.parses, step.now, false);
      PendingOrdered(s.rows, s.next);
      assert Pending(s.rows)[n - 1] in Pending(s.rows);
      OneStore(s.rows, r, s.next, n);
      assert batch == Pending(s.rows)[..n];
    }
  }

  lemma {:induction false} UniqueRow(rows: seq<Row>, next: nat, i: nat, x: Row)
    requires Numbered(rows, next) && i < |rows| && x in rows
    ensures x.id == rows[i].id ==> x == rows[i]
  {
    var j :| 0 <= j < |rows| && rows[j] == x;
    if j < i {
      assert rows[j].id < rows[i].id;
    } else if i < j {
      assert rows[i].id < rows[j].id;
    }
  }

  lemma {:induction false} MarkedIsGone(p: SyncState, steps: seq<SyncStep>, q: SyncState, r: Row)
    requires IdsKnown(p) && Leads(p, steps, q) && steps != [] && Reaches(p, steps[0])
    requires r in p.rows && r.id in p.phase.ids
    ensures forall x :: x in Pending(q.rows) ==> x.id != r.id
  {
    var n := Next(p, steps[0]);
    IdsKnownStep(p, steps[0]);
    RunGrows(n, steps[1..], q);
    PendingOrdered(q.rows, q.next);
    var i :| 0 <= i < |p.rows| && p.rows[i] == r;
    assert n.rows[i].synced && q.rows[i].id == r.id;
    forall x | x in Pending(q.rows)
      ensures x.id != r.id
    {
      UniqueRow(q.rows, q.next, i, x);
    }
  }

  /** Retry: whatever sends and acknowledgements fail, every pass starts with the same rows in the same
      order if and only if no acknowledgement has reached its COMMIT. */
  lemma {:induction false} RetriedUntilMarked(p: SyncState, steps: seq<SyncStep>, q: SyncState, batch: seq<Row>)
    requires ClockOk(p) && Leading(p, batch) && Leads(p, steps, q) && Timely(steps, p.clock)
    ensures batch <= Batch(q.rows, BATCH_SIZE) <==> MarkedIds(p, steps) == {}
    decreases |steps|
  {
    if steps == [] {
      assert batch <= Batch(q.rows, BATCH_SIZE);
    } else if Reaches(p, steps[0]) {
      PendingOrdered(p.rows, p.next);
      var first := batch[0];
      assert first == Pending(p.rows)[0] && first in Pending(p.rows);
      MarkedIsGone(p, steps, q, first);
      assert p.phase.ids[0] in MarkedIds(p, steps);
      assert batch <= Batch(q.rows, BATCH_SIZE) ==> first in Pending(q.rows);
    } else {
      LeadingStep(p, steps[0], batch);
      RetriedUntilMarked(Next(p, steps[0]), steps[1..], q, batch);
    }
  }

  /** So an idle syncer's next batch is selected again, first and in order, after any run in which no
      acknowledgement gets beyond its updates: every send fails, or every update or COMMIT is undone. */
  lemma {:induction false} FailureIsRetried(p: SyncState, steps: seq<SyncStep>, q: SyncState)
    requires ClockOk(p) && p.phase.Idle? && Leads(p, steps, q) && Timely(steps, p.clock)
    requires forall i :: 0 <= i < |steps| && steps[i].Mark? ==> !steps[i].updatesOk || steps[i].commit.Undone?
    ensures Batch(p.rows, 100) <= Batch(q.rows, 100)
  {
    var batch := Batch(p.rows, BATCH_SIZE);
    NothingMarked(p, steps);
    if batch != [] {
      RetriedUntilMarked(p, steps, q, batch);
    }
  }

  lemma {:induction false} NothingMarked(p: SyncState, steps: seq<SyncStep>)
    requires forall i :: 0 <= i < |steps| && steps[i].Mark? ==> !steps[i].updatesOk || steps[i].commit.Undone?
    ensures MarkedIds(p, steps) == {}
    decreases |steps|
  {
    if steps != [] && Enabled(p, steps[0]) {
      NothingMarked(Next(p, steps[0]), steps[1..]);
    }
  }

  /** A run that leaves a transaction open: the acknowledgement fails and its row is no longer pending. */
  lemma {:induction false} LeftOpenReached(a: Row)
    requires a == Row(0, 1, true, 10, false)
    ensures var steps := [Store(1, true, 10), FetchIds, FetchEvents, Send(true), Mark(true, LeftOpen)];
      Leads(EMPTY, steps, SyncState([a.(synced := true)], 1, 10, Idle, {0}, true))
  {
    var s1 := SyncState([a], 1, 10, Idle, {}, false);
    var s2 := s1.(phase := Fetched([0]));
    var s3 := s1.(phase := Loaded([0], [a]));
    var s4 := s1.(phase := Sent([0]), delivered := {0});
    var s5 := SyncState([a.(synced := true)], 1, 10, Idle, {0}, true);
    assert Next(EMPTY, Store(1, true, 10)) == s1 by { assert [] + [a] == [a]; }
    OneRowFetched(a, s1, s2, s3);
    OneRowMarked(a, s3, s4, s5);
    var steps := [Store(1, true, 10), FetchIds, FetchEvents, Send(true), Mark(true, LeftOpen)];
    LeadsThrough([EMPTY, s1, s2, s3, s4, s5], steps);
  }

  lemma {:induction false} OneRowFetched(a: Row, s1: SyncState, s2: SyncState, s3: SyncState)
    requires !a.synced && a.parses && a.id == 0 && s1.rows == [a] && s1.phase.Idle?
    requires s2 == s1.(phase := Fetched([0])) && s3 == s1.(phase := Loaded([0], [a]))
    ensures Next(s1, FetchIds) == s2 && Next(s2, FetchEvents) == s3
  {
    SinglePending(a);
    OneId(a);
  }

  lemma {:induction false} OneId(a: Row)
    ensures Ids([a]) == [a.id]
  {
  }

  lemma {:induction false} OneRowMarked(a: Row, s3: SyncState, s4: SyncState, s5: SyncState)
    requires a.id == 0 && s3.rows == [a] && !s3.open && s3.delivered == {} && s3.phase == Loaded([0], [a])
    requires s4 == s3.(phase := Sent([0]), delivered := {0})
    requires s5 == s4.(rows := [a.(synced := true)], phase := Idle, open := true)
    ensures Next(s3, Send(true)) == s4 && Next(s4, Mark(true, LeftOpen)) == s5
  {
    assert [a][0].id == 0 && IdSet([a]) == {0};
    assert Marked([a], [0]) == [a.(synced := true)];
  }

  lemma {:induction false} SinglePending(a: Row)
    requires !a.synced && a.parses
    ensures Pending([a]) == [a] && Batch([a], BATCH_SIZE) == [a] && Batch([a], 1) == [a] && Readable([a]) == [a]
  {
    assert [a][..0] == [] && Place(a, []) == [a];
    assert Readable([a]) == [] + [a];
  }

  // ---- A batch that cannot be read ----

  ghost predicate SomeParse(rows: seq<Row>) {
    exists i :: 0 <= i < |rows| && rows[i].parses
  }

  lemma {:induction false} ReadableNone(rows: seq<Row>)
    ensures Readable(rows) != [] <==> SomeParse(rows)
    decreases |rows|
  {
    if rows != [] {
      var init, last := rows[..|rows| - 1], rows[|rows| - 1];
      assert rows == init + [last];
      ReadableNone(init);
      ReadableSnoc(init, last);
      SomeParseSnoc(init, last);
    }
  }

  lemma {:induction false} SomeParseSnoc(rows: seq<Row>, r: Row)
    ensures SomeParse(rows + [r]) <==> SomeParse(rows) || r.parses
  {
    var all := rows + [r];
    assert all[|rows|] == r && forall i :: 0 <= i < |rows| ==> all[i] == rows[i];
  }

  /** A pass gets to its send if and only if some row it loads can be read. */
  lemma {:induction false} LoadsIff(s: SyncState)
    requires s.phase.Fetched?
    ensures Next(s, FetchEvents).phase.Loaded? <==> SomeParse(Batch(s.rows, |s.phase.ids|))
  {
    ReadableNone(Batch(s.rows, |s.phase.ids|));
  }

  /** A full batch of rows that cannot be read stays first, and a pass under way has just these. */
  ghost predicate Jammed(s: SyncState, batch: seq<Row>) {
    && |batch| == BATCH_SIZE && !SomeParse(batch) && batch <= Pending(s.rows)
    && (s.phase.Idle? || (s.phase.Fetched? && |s.phase.ids| == BATCH_SIZE && s.phase.ids[0] == batch[0].id))
  }

  lemma {:induction false} JammedStep(s: SyncState, step: SyncStep, batch: seq<Row>)
    requires ClockOk(s) && Jammed(s, batch) && Enabled(s, step)
    requires step.Store? ==> s.clock <= step.now
    ensures ClockOk(Next(s, step)) && Jammed(Next(s, step), batch) && Next(s, step).delivered == s.delivered
  {
    LeadingStep(s, step, batch);
    assert Batch(s.rows, BATCH_SIZE) == batch;
    if step.FetchEvents? {
      LoadsIff(s);
    }
  }

  lemma {:induction false} JammedRun(p: SyncState, steps: seq<SyncStep>, q: SyncState, batch: seq<Row>)
    requires ClockOk(p) && Jammed(p, batch) && Leads(p, steps, q) && Timely(steps, p.clock)
    ensures Jammed(q, batch) && q.delivered == p.delivered
    decreases |steps|
  {
    if steps != [] {
      JammedStep(p, steps[0], batch);
      JammedRun(Next(p, steps[0]), steps[1..], q, batch);
    }
  }

  /** Under a clock that never goes back, an idle syncer whose oldest batch is full and holds no row
      that can be read never sends or delivers again, whatever is stored. */
  lemma {:induction false} UnreadableBatchBlocks(p: SyncState, steps: seq<SyncStep>, q: SyncState)
    requires ClockOk(p) && p.phase.Idle? && Leads(p, steps, q) && Timely(steps, p.clock)
    requires |Batch(p.rows, 100)| == 100 && !SomeParse(Batch(p.rows, 100))
    ensures q.delivered == p.delivered && !q.phase.Loaded? && Batch(q.rows, 100) == Batch(p.rows, 100)
  {
    var batch := Batch(p.rows, BATCH_SIZE);
    assert batch <= Pending(p.rows);
    JammedRun(p, steps, q, batch);
  }

  ghost predicate CanReachSend(p: SyncState) {
    exists steps, q :: SendsAfter(p, steps, q)
  }

  ghost predicate SendsAfter(p: SyncState, steps: seq<SyncStep>, q: SyncState) {
    Leads(p, steps, q) && Timely(steps, p.clock) && q.phase.Loaded?
  }

  /** And that is the only way to be stuck: an idle syncer can get to a send again if and only if its
      oldest batch has room or holds a row that can be read. */
  lemma {:induction false} CanSendIff(p: SyncState)
    requires ClockOk(p) && p.phase.Idle?
    ensures CanReachSend(p) <==> |Batch(p.rows, 100)| < 100 || SomeParse(Batch(p.rows, 100))
  {
    var batch := Batch(p.rows, BATCH_SIZE);
    if SomeParse(batch) {
      var steps, q := PassReachesSend(p);
    } else if |batch| < BATCH_SIZE {
      var step := Store(0, true, p.clock);
      var s := Next(p, step);
      NewRowInBatch(p, s);
      var steps, q := PassReachesSend(s);
      assert ([step] + steps)[1..] == steps;
      assert SendsAfter(p, [step] + steps, q);
    } else if CanReachSend(p) {
      var steps, q :| SendsAfter(p, steps, q);
      UnreadableBatchBlocks(p, steps, q);
    }
  }

  lemma {:induction false} PassReachesSend(s: SyncState) returns (steps: seq<SyncStep>, q: SyncState)
    requires s.phase.Idle? && SomeParse(Batch(s.rows, BATCH_SIZE))
    ensures steps == [FetchIds, FetchEvents] && SendsAfter(s, steps, q)
  {
    steps := [FetchIds, FetchEvents];
    var fetched := Next(s, FetchIds);
    q := Next(fetched, FetchEvents);
    assert Batch(s.rows, |Ids(Batch(s.rows, BATCH_SIZE))|) == Batch(s.rows, BATCH_SIZE);
    LoadsIff(fetched);
    LeadsThrough([s, fetched, q], steps);
    assert steps[1..][1..] == [];
  }

  lemma {:induction false} NewRowInBatch(p: SyncState, s: SyncState)
    requires |Batch(p.rows, BATCH_SIZE)| < BATCH_SIZE && s == Next(p, Store(0, true, p.clock)) && ClockOk(p)
    ensures SomeParse(Batch(s.rows, BATCH_SIZE))
  {
    var r := Row(p.next, 0, true, p.clock, false);
    StoresAddUp(p.rows, [r]);
    IdsKnownStep(p, Store(0, true, p.clock));
    PendingOrdered(s.rows, s.next);
    assert s.rows[|p.rows|] == r && r in Pending(s.rows);
    assert Batch(s.rows, BATCH_SIZE) == Pending(s.rows);
  }

  /** Once a transaction is left open, no acknowledgement ever succeeds again and no row's mark
      ever changes, so the rows of that failed acknowledgement are never selected again. */
  lemma {:induction false} OpenForGood(p: SyncState, steps: seq<SyncStep>, q: SyncState, i: nat)
    requires p.open && Leads(p, steps, q) && i < |p.rows|
    ensures q.open && i < |q.rows| && q.rows[i] == p.rows[i]
    ensures forall step :: !Acknowledges(q, step)
    decreases |steps|
  {
    if steps != [] {
      OpenForGood(Next(p, steps[0]), steps[1..], q, i);
    }
  }

  /** If the clock goes back between the queries, a row can be marked without ever being sent:
      here row 0 is marked and row 1 is sent. */
  lemma {:induction false} ClockBackLosesRow()
    ensures
      var steps := [Store(1, true, 10), FetchIds, Store(2, true, 5), FetchEvents, Send(true), Mark(true, Committed)];
      Leads(EMPTY, steps, SyncState([Row(0, 1, true, 10, true), Row(1, 2, true, 5, false)], 2, 5, Idle, {1}, false))
  {
    var a, b := Row(0, 1, true, 10, false), Row(1, 2, true, 5, false);
    var s1 := SyncState([a], 1, 10, Idle, {}, false);
    var s2 := s1.(phase := Fetched([0]));
    var s3 := SyncState([a, b], 2, 5, Fetched([0]), {}, false);
    var s4 := s3.(phase := Loaded([0], [b]));
    var s5 := s4.(phase := Sent([0]), delivered := {1});
    var s6 := SyncState([a.(synced := true), b], 2, 5, Idle, {1}, false);
    OnePending(a, b);
    assert Next(s1, FetchIds) == s2 by { assert Ids([a]) == [0]; }
    assert Next(s2, Store(2, true, 5)) == s3 by { assert [a] + [b] == [a, b]; }
    assert Next(s4, Send(true)) == s5 by { assert IdSet([b]) == {1}; }
    assert Next(s5, Mark(true, Committed)) == s6 by { assert Marked([a, b], [0]) == [a.(synced := true), b]; }
    var steps := [Store(1, true, 10), FetchIds, Store(2, true, 5), FetchEvents, Send(true), Mark(true, Committed)];
    LeadsThrough([EMPTY, s1, s2, s3, s4, s5, s6], steps);
  }

  lemma {:induction false} LeadsThrough(states: seq<SyncState>, steps: seq<SyncStep>)
    requires |states| == |steps| + 1
    requires forall i :: 0 <= i < |steps| ==> Enabled(states[i], steps[i]) && Next(states[i], steps[i]) == states[i + 1]
    ensures Leads(states[0], steps, states[|steps|])
    decreases |steps|
  {
    if steps != [] {
      LeadsThrough(states[1..], steps[1..]);
    }
  }

  lemma {:induction false} OnePending(a: Row, b: Row)
    requires !a.synced && !b.synced && Before(b, a) && b.parses
    ensures Pending([a]) == [a] && Batch([a], BATCH_SIZE) == [a]
    ensures Batch([a, b], 1) == [b] && Readable([b]) == [b]
  {
    assert [a][..0] == [] && [a, b][..1] == [a] && [b][..0] == [];
    assert Pending([a]) == Place(a, []) == [a];
    assert Pending([a, b]) == Place(b, [a]) == [b] + [a];
    assert Readable([b]) == [] + [b];
  }
}
