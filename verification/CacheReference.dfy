/** The policy cache as a plain map with expiry: each entry carries the number of the step
    that last used it, and eviction removes the unpinned entry with the smallest number.
    Every run of the LRU-list model gives the same outcomes. */
module CacheReference {
  import opened PolicyTypes
  import opened CacheModel

  /** A policy and the step of its last lookup hit, or else of its first insertion. */
  datatype Slot = Slot(policy: Policy, lastUse: nat)

  datatype Reference = Reference(entries: map<FileId, Slot>, tick: nat, maxEntries: nat, ttlSec: nat)

  ghost predicate Oldest(entries: map<FileId, Slot>, victim: FileId) {
    && victim in entries && !Pinned(entries[victim].policy)
    && forall id :: id in entries && !Pinned(entries[id].policy) ==> entries[victim].lastUse <= entries[id].lastUse
  }

  /** Above the limit, drop the least recently used unpinned entry, if there is one. */
  ghost function Shrunk(r: Reference): map<FileId, Slot> {
    if |r.entries| >= r.maxEntries && exists v :: Oldest(r.entries, v) then
      var v :| Oldest(r.entries, v);
      r.entries - {v}
    else r.entries
  }

  ghost function Put(entries: map<FileId, Slot>, p: Policy, poolOk: bool, now: nat, ttlSec: nat,
                     tick: nat): (map<FileId, Slot>, Outcome) {
    if p.id in entries then
      (entries[p.id := Slot(Stamped(p, now, ttlSec), entries[p.id].lastUse)], Success)
    else if !poolOk then (entries, InsufficientResources)
    else (entries[p.id := Slot(FreshEntry(p, now, ttlSec), tick)], Success)
  }

  ghost predicate Live(r: Reference, id: FileId, now: nat) {
    id in r.entries && !Expired(r.entries[id].policy, now)
  }

  ghost function RefApply(r: Reference, step: Step): (Reference, Outcome) {
    var next := r.(tick := r.tick + 1);
    match step.op
    case Lookup(id) =>
      if Live(r, id, step.now) then
        var p := r.entries[id].policy;
        (next.(entries := r.entries[id := Slot(p.(lastAccess := step.now), r.tick)]), Found(p))
      else (next, NotFound)
    case QuickLookup(id) =>
      (next, if Live(r, id, step.now) then FoundClass(r.entries[id].policy.classification) else NotFound)
    case Insert(p, poolOk) =>
      var (entries, outcome) := Put(Shrunk(r), p, poolOk, step.now, r.ttlSec, r.tick);
      (next.(entries := entries), outcome)
    case Remove(id) =>
      (next.(entries := r.entries - {id}), if id in r.entries then Success else NotFound)
    case Clear => (next.(entries := map[]), Success)
    case Configure(m, t) =>
      (next.(maxEntries := if 0 < m <= MAX_CACHE_SIZE then m else r.maxEntries,
             ttlSec := if t > 0 then t else r.ttlSec), Success)
  }

  ghost function RefInit(maxEntries: nat, ttlSec: nat): Reference {
    var s := Init(maxEntries, ttlSec);
    Reference(map[], 0, s.maxEntries, s.ttlSec)
  }

  ghost function RefRun(r: Reference, steps: seq<Step>): Reference {
    if steps == [] then r else RefApply(RefRun(r, steps[..|steps| - 1]), steps[|steps| - 1]).0
  }

  ghost function RefOutcomes(r: Reference, steps: seq<Step>): seq<Outcome> {
    if steps == [] then []
    else
      var before := steps[..|steps| - 1];
      RefOutcomes(r, before) + [RefApply(RefRun(r, before), steps[|steps| - 1]).1]
  }

  // ---- The list enumerates the map in order of last use ----

  ghost predicate Increasing(uses: seq<nat>, bound: nat) {
    && (forall i :: 0 <= i < |uses| ==> uses[i] < bound)
    && (forall i, j :: 0 <= i < j < |uses| ==> uses[i] < uses[j])
  }

  /** The `i`-th policy of the list, last used at `uses[i]`, is an entry of the map, and there
      are as many of one as of the other. */
  ghost predicate Lists(order: seq<Policy>, uses: seq<nat>, entries: map<FileId, Slot>) {
    && |order| == |uses| == |entries|
    && forall i :: 0 <= i < |order| ==> order[i].id in entries && entries[order[i].id] == Slot(order[i], uses[i])
  }

  ghost predicate Simulates(s: CacheState, r: Reference) {
    && s.maxEntries == r.maxEntries && s.ttlSec == r.ttlSec
    && exists uses :: Lists(s.order, uses, r.entries) && Increasing(uses, r.tick)
  }

  lemma {:induction false} ListsAt(order: seq<Policy>, uses: seq<nat>, entries: map<FileId, Slot>, bound: nat, k: nat)
    requires Lists(order, uses, entries) && Increasing(uses, bound) && k < |order|
    ensures IndexOf(order, order[k].id) == k
    ensures forall i :: 0 <= i < |order| && i != k ==> order[i].id != order[k].id
  {
  }

  lemma {:induction false} ListsDrop(order: seq<Policy>, uses: seq<nat>, entries: map<FileId, Slot>, bound: nat, k: nat)
    requires Lists(order, uses, entries) && Increasing(uses, bound) && k < |order|
    ensures Lists(DropAt(order, k), DropAt(uses, k), entries - {order[k].id})
  {
  }

  lemma {:induction false} IncreasingDrop(uses: seq<nat>, bound: nat, k: nat)
    requires Increasing(uses, bound) && k < |uses|
    ensures Increasing(DropAt(uses, k), bound)
  {
  }

  lemma {:induction false} ListsAppend(order: seq<Policy>, uses: seq<nat>, entries: map<FileId, Slot>, p: Policy,
                                       use: nat)
    requires Lists(order, uses, entries) && p.id !in entries
    ensures Lists(order + [p], uses + [use], entries[p.id := Slot(p, use)])
  {
  }

  lemma {:induction false} ListsRewrite(order: seq<Policy>, uses: seq<nat>, entries: map<FileId, Slot>, bound: nat,
                                        k: nat, p: Policy)
    requires Lists(order, uses, entries) && Increasing(uses, bound) && k < |order| && order[k].id == p.id
    ensures Lists(order[k := p], uses, entries[p.id := Slot(p, entries[p.id].lastUse)])
  {
  }

  /** Distinct entries in equal number leave none unlisted. */
  lemma {:induction false} ListsAll(order: seq<Policy>, uses: seq<nat>, entries: map<FileId, Slot>, bound: nat,
                                    id: FileId)
    requires Lists(order, uses, entries) && Increasing(uses, bound) && id in entries
    ensures Has(order, id)
  {
    var n := |order| - 1;
    if order[n].id != id {
      ListsDrop(order, uses, entries, bound, n);
      IncreasingDrop(uses, bound, n);
      ListsAll(DropAt(order, n), DropAt(uses, n), entries - {order[n].id}, bound, id);
      var k := IndexOf(DropAt(order, n), id);
      assert order[k].id == id;
    }
  }

  lemma {:induction false} ListsMember(order: seq<Policy>, uses: seq<nat>, entries: map<FileId, Slot>, bound: nat,
                                       id: FileId)
    requires Lists(order, uses, entries) && Increasing(uses, bound)
    ensures id in entries <==> IndexOf(order, id) < |order|
    ensures id in entries ==> entries[id] == Slot(order[IndexOf(order, id)], uses[IndexOf(order, id)])
  {
    if id in entries {
      ListsAll(order, uses, entries, bound, id);
    }
  }

  /** The first unpinned entry of the list is the only oldest one of the map. */
  lemma {:induction false} ListsOldest(order: seq<Policy>, uses: seq<nat>, entries: map<FileId, Slot>, bound: nat)
    requires Lists(order, uses, entries) && Increasing(uses, bound)
    ensures var k := OldestUnpinned(order);
      if k < |order| then forall v :: Oldest(entries, v) <==> v == order[k].id
      else forall v :: !Oldest(entries, v)
  {
    var k := OldestUnpinned(order);
    forall v | v in entries && !Pinned(entries[v].policy)
      ensures k < |order| && entries[order[k].id].lastUse <= entries[v].lastUse
      ensures entries[order[k].id].lastUse == entries[v].lastUse ==> v == order[k].id
    {
      ListsMember(order, uses, entries, bound, v);
      var i := IndexOf(order, v);
      assert k <= i < |order| && entries[v].lastUse == uses[i];
    }
  }

  lemma {:induction false} SimulatesShrink(s: CacheState, r: Reference) returns (uses: seq<nat>)
    requires Simulates(s, r)
    ensures Lists(MakeRoom(s).order, uses, Shrunk(r)) && Increasing(uses, r.tick)
  {
    uses :| Lists(s.order, uses, r.entries) && Increasing(uses, r.tick);
    ListsOldest(s.order, uses, r.entries, r.tick);
    var k := OldestUnpinned(s.order);
    if |s.order| >= s.maxEntries && k < |s.order| {
      assert Oldest(r.entries, s.order[k].id);
      ListsAt(s.order, uses, r.entries, r.tick, k);
      ListsDrop(s.order, uses, r.entries, r.tick, k);
      IncreasingDrop(uses, r.tick, k);
      uses := DropAt(uses, k);
    }
  }

  lemma {:induction false} SimulatesPut(t: CacheState, uses: seq<nat>, entries: map<FileId, Slot>, tick: nat,
                                        p: Policy, poolOk: bool, now: nat) returns (uses': seq<nat>)
    requires Lists(t.order, uses, entries) && Increasing(uses, tick)
    ensures PutStep(t, p, poolOk, now).1 == Put(entries, p, poolOk, now, t.ttlSec, tick).1
    ensures Lists(PutStep(t, p, poolOk, now).0.order, uses', Put(entries, p, poolOk, now, t.ttlSec, tick).0)
    ensures Increasing(uses', tick + 1)
  {
    ListsMember(t.order, uses, entries, tick, p.id);
    var k := IndexOf(t.order, p.id);
    if k < |t.order| {
      ListsRewrite(t.order, uses, entries, tick, k, Stamped(p, now, t.ttlSec));
      uses' := uses;
    } else if poolOk {
      ListsAppend(t.order, uses, entries, FreshEntry(p, now, t.ttlSec), tick);
      uses' := uses + [tick];
    } else {
      uses' := uses;
    }
  }

  lemma {:induction false} SimulatesInsert(s: CacheState, r: Reference, p: Policy, poolOk: bool, now: nat)
    requires Simulates(s, r)
    ensures var (s', o) := InsertStep(s, p, poolOk, now);
      var (r', o') := RefApply(r, Step(Insert(p, poolOk), now));
      o == o' && Simulates(s', r')
  {
    var uses := SimulatesShrink(s, r);
    var uses' := SimulatesPut(MakeRoom(s), uses, Shrunk(r), r.tick, p, poolOk, now);
  }

  lemma {:induction false} SimulatesLookup(s: CacheState, r: Reference, id: FileId, now: nat)
    requires Simulates(s, r)
    ensures var (s', o) := LookupStep(s, id, now);
      var (r', o') := RefApply(r, Step(Lookup(id), now));
      o == o' && Simulates(s', r')
  {
    var uses :| Lists(s.order, uses, r.entries) && Increasing(uses, r.tick);
    ListsMember(s.order, uses, r.entries, r.tick, id);
    var k := IndexOf(s.order, id);
    if k < |s.order| && !Expired(s.order[k], now) {
      var touched := s.order[k].(lastAccess := now);
      ListsDrop(s.order, uses, r.entries, r.tick, k);
      ListsAppend(DropAt(s.order, k), DropAt(uses, k), r.entries - {id}, touched, r.tick);
      assert (r.entries - {id})[id := Slot(touched, r.tick)] == r.entries[id := Slot(touched, r.tick)];
      IncreasingDrop(uses, r.tick, k);
      assert Increasing(DropAt(uses, k) + [r.tick], r.tick + 1);
    } else {
      assert Increasing(uses, r.tick + 1);
    }
  }

  lemma {:induction false} SimulatesRemove(s: CacheState, r: Reference, id: FileId, now: nat)
    requires Simulates(s, r)
    ensures var (s', o) := RemoveStep(s, id);
      var (r', o') := RefApply(r, Step(Remove(id), now));
      o == o' && Simulates(s', r')
  {
    var uses :| Lists(s.order, uses, r.entries) && Increasing(uses, r.tick);
    ListsMember(s.order, uses, r.entries, r.tick, id);
    var k := IndexOf(s.order, id);
    assert Increasing(uses, r.tick + 1);
    if k < |s.order| {
      ListsDrop(s.order, uses, r.entries, r.tick + 1, k);
      IncreasingDrop(uses, r.tick + 1, k);
    } else {
      assert r.entries - {id} == r.entries;
    }
  }

  /** One step: equal outcomes, and the list still enumerates the map in order of last use. */
  lemma {:induction false} SimulatesStep(s: CacheState, r: Reference, step: Step)
    requires Simulates(s, r)
    ensures Apply(s, step).1 == RefApply(r, step).1
    ensures Simulates(Apply(s, step).0, RefApply(r, step).0)
  {
    match step.op {
      case Lookup(id) => SimulatesLookup(s, r, id, step.now);
      case Remove(id) => SimulatesRemove(s, r, id, step.now);
      case Insert(p, poolOk) => SimulatesInsert(s, r, p, poolOk, step.now);
      case QuickLookup(id) => SimulatesQuick(s, r, id, step.now);
      case Clear => SimulatesClear(s, r);
      case Configure(_, _) => SimulatesIdle(s, r);
    }
  }

  lemma {:induction false} SimulatesQuick(s: CacheState, r: Reference, id: FileId, now: nat)
    requires Simulates(s, r)
    ensures QuickLookupStep(s, id, now).1 == RefApply(r, Step(QuickLookup(id), now)).1
    ensures Simulates(QuickLookupStep(s, id, now).0, r.(tick := r.tick + 1))
  {
    var uses :| Lists(s.order, uses, r.entries) && Increasing(uses, r.tick);
    ListsMember(s.order, uses, r.entries, r.tick, id);
    assert Increasing(uses, r.tick + 1);
  }

  lemma {:induction false} SimulatesIdle(s: CacheState, r: Reference)
    requires Simulates(s, r)
    ensures Simulates(s, r.(tick := r.tick + 1))
  {
  }

  lemma {:induction false} SimulatesClear(s: CacheState, r: Reference)
    requires Simulates(s, r)
    ensures Simulates(ClearStep(s), r.(tick := r.tick + 1, entries := map[]))
  {
    assert Lists([], [], map[]) && Increasing([], r.tick + 1);
  }

  lemma {:induction false} SimulatesInit(maxEntries: nat, ttlSec: nat)
    ensures Simulates(Init(maxEntries, ttlSec), RefInit(maxEntries, ttlSec))
  {
    assert Lists([], [], map[]) && Increasing([], 0);
  }

  /** Whole runs: from any related states the LRU list and the plain map give the same outcomes. */
  lemma {:induction false} SimulatesRun(s: CacheState, r: Reference, steps: seq<Step>)
    requires Simulates(s, r)
    ensures Outcomes(s, steps) == RefOutcomes(r, steps)
    ensures Simulates(Run(s, steps), RefRun(r, steps))
  {
    if steps != [] {
      var before := steps[..|steps| - 1];
      SimulatesRun(s, r, before);
      SimulatesStep(Run(s, before), RefRun(r, before), steps[|steps| - 1]);
    }
  }
}
