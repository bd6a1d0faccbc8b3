/** What holds of the policy cache over whole runs: which entry an eviction takes, when the
    size stays within the limit, and what the high-water mark records. */
module CacheRuns {
  import opened PolicyTypes
  import opened CacheModel
  import opened CacheReference

  // ---- Eviction takes the least recently used unpinned entry ----

  /** This step hits the entry of `id` by a full lookup, or creates it. */
  ghost predicate UsesEntry(s: CacheState, step: Step, id: FileId) {
    match step.op
    case Lookup(x) => x == id && Apply(s, step).1.Found?
    case Insert(p, _) => p.id == id && Apply(s, step).1.Success? && !Has(MakeRoom(s).order, id)
    case _ => false
  }

  /** The number of the last step of the run that used the entry of `id`, or -1. */
  ghost function LastUse(start: CacheState, steps: seq<Step>, id: FileId): int {
    if steps == [] then -1
    else
      var before := steps[..|steps| - 1];
      if UsesEntry(Run(start, before), steps[|steps| - 1], id) then |before| else LastUse(start, before, id)
  }

  lemma {:induction false} TickCounts(r: Reference, steps: seq<Step>)
    ensures RefRun(r, steps).tick == r.tick + |steps|
  {
    if steps != [] {
      TickCounts(r, steps[..|steps| - 1]);
    }
  }

  lemma {:induction false} SimulatedMember(s: CacheState, r: Reference, id: FileId)
    requires Simulates(s, r)
    ensures id in r.entries <==> Has(s.order, id)
    ensures id in Shrunk(r) <==> Has(MakeRoom(s).order, id)
  {
    var uses :| Lists(s.order, uses, r.entries) && Increasing(uses, r.tick);
    ListsMember(s.order, uses, r.entries, r.tick, id);
    var uses' := SimulatesShrink(s, r);
    ListsMember(MakeRoom(s).order, uses', Shrunk(r), r.tick, id);
  }

  /** A step renumbers exactly the entry it uses. */
  lemma {:induction false} StepUse(s: CacheState, q: Reference, step: Step, id: FileId)
    requires Simulates(s, q) && id in RefApply(q, step).0.entries
    ensures var slot := RefApply(q, step).0.entries[id];
      if UsesEntry(s, step, id) then slot.lastUse == q.tick
      else id in q.entries && slot.lastUse == q.entries[id].lastUse
  {
    match step.op {
      case Lookup(_) => SimulatesStep(s, q, step);
      case Insert(p, poolOk) => InsertUse(s, q, p, poolOk, step.now, id);
      case _ =>
    }
  }

  lemma {:induction false} InsertUse(s: CacheState, q: Reference, p: Policy, poolOk: bool, now: nat, id: FileId)
    requires Simulates(s, q) && id in RefApply(q, Step(Insert(p, poolOk), now)).0.entries
    ensures var step := Step(Insert(p, poolOk), now);
      var slot := RefApply(q, step).0.entries[id];
      if UsesEntry(s, step, id) then slot.lastUse == q.tick
      else id in q.entries && slot.lastUse == q.entries[id].lastUse
  {
    SimulatedMember(s, q, id);
    assert id in Shrunk(q) ==> id in q.entries && Shrunk(q)[id] == q.entries[id];
  }

  /** The reference's use numbers are those of the run's own history. */
  lemma {:induction false} UseIsHistory(start: CacheState, r: Reference, steps: seq<Step>, id: FileId)
    requires Simulates(start, r) && r.entries == map[] && r.tick == 0
    requires id in RefRun(r, steps).entries
    ensures RefRun(r, steps).entries[id].lastUse == LastUse(start, steps, id)
  {
    var n := |steps| - 1;
    var before, last := steps[..n], steps[n];
    var s, q := Run(start, before), RefRun(r, before);
    SimulatesRun(start, r, before);
    StepUse(s, q, last, id);
    TickCounts(r, before);
    if !UsesEntry(s, last, id) {
      UseIsHistory(start, r, before, id);
    }
  }

  /** In every reachable state, making room removes nothing below the limit or when every
      entry is pinned, and otherwise the one unpinned entry whose last lookup hit or first
      insertion is oldest. */
  lemma {:induction false} EvictsLeastRecentlyUsed(maxEntries: nat, ttlSec: nat, steps: seq<Step>)
    ensures var s := Run(Init(maxEntries, ttlSec), steps);
      var k := OldestUnpinned(s.order);
      if |s.order| < s.maxEntries || k == |s.order| then MakeRoom(s) == s
      else
        && MakeRoom(s).order == DropAt(s.order, k) && !Pinned(s.order[k])
        && MakeRoom(s).evictions == s.evictions + 1
        && forall j :: 0 <= j < |s.order| && j != k && !Pinned(s.order[j]) ==>
             LastUse(Init(maxEntries, ttlSec), steps, s.order[k].id)
               < LastUse(Init(maxEntries, ttlSec), steps, s.order[j].id)
  {
    var start, r := Init(maxEntries, ttlSec), RefInit(maxEntries, ttlSec);
    SimulatesInit(maxEntries, ttlSec);
    SimulatesRun(start, r, steps);
    var s, q := Run(start, steps), RefRun(r, steps);
    var k := OldestUnpinned(s.order);
    var uses :| Lists(s.order, uses, q.entries) && Increasing(uses, q.tick);
    if k < |s.order| {
      ListsAt(s.order, uses, q.entries, q.tick, k);
      UseIsHistory(start, r, steps, s.order[k].id);
      forall j | 0 <= j < |s.order| && j != k && !Pinned(s.order[j])
        ensures LastUse(start, steps, s.order[k].id) < LastUse(start, steps, s.order[j].id)
      {
        UseIsHistory(start, r, steps, s.order[j].id);
        assert uses[k] < uses[j];
      }
    }
  }

  // ---- The size limit ----

  ghost predicate AboveLimit(s: CacheState) {
    |s.order| > s.maxEntries
  }

  /** A new entry is allocated while the cache is full of pinned entries, or the limit is lowered
      below the present size. */
  ghost predicate Exceeds(s: CacheState, step: Step) {
    match step.op
    case Insert(p, poolOk) => poolOk && !Has(s.order, p.id) && |s.order| == s.maxEntries && AllPinned(s.order)
    case Configure(m, _) => 0 < m <= MAX_CACHE_SIZE && m < |s.order|
    case _ => false
  }

  ghost predicate AllPinned(order: seq<Policy>) {
    forall j :: 0 <= j < |order| ==> Pinned(order[j])
  }

  /** From within the limit, a step leads above the limit then in force if and only if it is one of
      these two. */
  lemma {:induction false} LeavesLimitIff(s: CacheState, step: Step)
    requires !AboveLimit(s)
    ensures AboveLimit(Apply(s, step).0) <==> Exceeds(s, step)
  {
    if step.op.Insert? {
      InsertSize(s, step.op.policy, step.op.poolOk, step.now);
    }
  }

  /** An insert at or above the limit evicts one entry unless all are pinned, and adds one if the
      file has none left and one can be allocated: it never brings the size down by storing a new
      file, and it grows without bound over pinned entries. */
  lemma {:induction false} InsertSize(s: CacheState, p: Policy, poolOk: bool, now: nat)
    ensures var evicts := |s.order| >= s.maxEntries && !AllPinned(s.order);
      var adds := poolOk && !Has(MakeRoom(s).order, p.id);
      |InsertStep(s, p, poolOk, now).0.order| == |s.order| - (if evicts then 1 else 0) + (if adds then 1 else 0)
    ensures AllPinned(s.order) || |s.order| < s.maxEntries ==> MakeRoom(s) == s
  {
  }

  /** An insert loses the entry of a file if and only if the cache is at its limit, that entry is the
      first unpinned one, and the insert does not store the file anew. So a mere update of one file
      drops another, and an insert that cannot allocate has evicted for nothing. */
  lemma {:induction false} InsertLosesIff(s: CacheState, p: Policy, poolOk: bool, now: nat, id: FileId)
    requires DistinctIds(s.order) && Has(s.order, id)
    ensures var k := OldestUnpinned(s.order);
      !Has(InsertStep(s, p, poolOk, now).0.order, id) <==>
        && |s.order| >= s.maxEntries && k < |s.order| && s.order[k].id == id
        && (p.id != id || !poolOk)
  {
    var k, t := OldestUnpinned(s.order), MakeRoom(s);
    if |s.order| >= s.maxEntries && k < |s.order| {
      assert Has(s.order, s.order[k].id);
      DropLoses(s.order, k, id);
    }
    PutKeepsFiles(t, p, poolOk, now, id);
  }

  lemma {:induction false} DropLoses(order: seq<Policy>, k: nat, id: FileId)
    requires DistinctIds(order) && k < |order| && Has(order, id)
    ensures Has(DropAt(order, k), id) <==> order[k].id != id
  {
    var j, rest := IndexOf(order, id), DropAt(order, k);
    if j != k {
      assert rest[if j < k then j else j - 1].id == id;
    }
  }

  lemma {:induction false} PutKeepsFiles(t: CacheState, p: Policy, poolOk: bool, now: nat, id: FileId)
    ensures Has(PutStep(t, p, poolOk, now).0.order, id) <==> Has(t.order, id) || (p.id == id && poolOk)
  {
    var order := PutStep(t, p, poolOk, now).0.order;
    if Has(t.order, id) {
      assert order[IndexOf(t.order, id)].id == id;
    } else if p.id == id && poolOk {
      assert order[|t.order|].id == id;
    }
  }

  /** A failed allocation shrinks the cache if and only if it was at its limit and not all pinned. */
  lemma {:induction false} FailedInsertShrinksIff(s: CacheState, p: Policy, now: nat)
    requires InsertStep(s, p, false, now).1.InsufficientResources?
    ensures |InsertStep(s, p, false, now).0.order| < |s.order| <==> |s.order| >= s.maxEntries && !AllPinned(s.order)
  {
    InsertSize(s, p, false, now);
  }

  /** File identities are distinct in every reachable state. */
  lemma {:induction false} ReachableDistinct(maxEntries: nat, ttlSec: nat, steps: seq<Step>)
    ensures DistinctIds(Run(Init(maxEntries, ttlSec), steps).order)
  {
    var start, r := Init(maxEntries, ttlSec), RefInit(maxEntries, ttlSec);
    SimulatesInit(maxEntries, ttlSec);
    SimulatesRun(start, r, steps);
    var order, q := Run(start, steps).order, RefRun(r, steps);
    var uses :| Lists(order, uses, q.entries) && Increasing(uses, q.tick);
    forall i, j | 0 <= i < j < |order|
      ensures order[i].id != order[j].id
    {
      ListsAt(order, uses, q.entries, q.tick, j);
    }
  }

  /** Whenever a run ends above the limit, one of its steps was such a step. */
  lemma {:induction false} AboveLimitHasCause(maxEntries: nat, ttlSec: nat, steps: seq<Step>) returns (i: nat)
    requires AboveLimit(Run(Init(maxEntries, ttlSec), steps))
    ensures i < |steps| && Exceeds(Run(Init(maxEntries, ttlSec), steps[..i]), steps[i])
  {
    var start, n := Init(maxEntries, ttlSec), |steps| - 1;
    var before := Run(start, steps[..n]);
    if AboveLimit(before) {
      i := AboveLimitHasCause(maxEntries, ttlSec, steps[..n]);
      assert steps[..n][..i] == steps[..i];
    } else {
      LeavesLimitIff(before, steps[n]);
      i := n;
    }
  }

  /** Every step stores a file that has no entry at that moment. */
  ghost predicate AllNew(s: CacheState, steps: seq<Step>) {
    if steps == [] then true
    else
      var before, op := steps[..|steps| - 1], steps[|steps| - 1].op;
      AllNew(s, before) && op.Insert? && op.poolOk && !Has(Run(s, before).order, op.policy.id)
  }

  /** Once above the limit, storing new files never brings the cache back within it. */
  lemma {:induction false} NewFilesKeepExcess(s: CacheState, steps: seq<Step>)
    requires AboveLimit(s) && AllNew(s, steps)
    ensures AboveLimit(Run(s, steps)) && Run(s, steps).maxEntries == s.maxEntries
  {
    if steps != [] {
      var n := |steps| - 1;
      NewFilesKeepExcess(s, steps[..n]);
      var before, op := Run(s, steps[..n]), steps[n].op;
      InsertSize(before, op.policy, true, steps[n].now);
      RoomAddsNothing(before, op.policy.id);
    }
  }

  lemma {:induction false} RoomAddsNothing(s: CacheState, id: FileId)
    ensures Has(MakeRoom(s).order, id) ==> Has(s.order, id)
  {
  }

  ghost predicate Unpinned(order: seq<Policy>) {
    forall j :: 0 <= j < |order| ==> !Pinned(order[j])
  }

  ghost predicate PlainStep(step: Step) {
    !step.op.Configure? && (step.op.Insert? ==> !Pinned(step.op.policy))
  }

  lemma {:induction false} PlainStepKeeps(s: CacheState, step: Step)
    requires Unpinned(s.order) && !AboveLimit(s) && 0 < s.maxEntries && PlainStep(step)
    ensures var s' := Apply(s, step).0;
      Unpinned(s'.order) && !AboveLimit(s') && s'.maxEntries == s.maxEntries
  {
    LeavesLimitIff(s, step);
    if step.op.Insert? {
      PlainInsertKeeps(MakeRoom(s), step.op.policy, step.op.poolOk, step.now);
    }
  }

  lemma {:induction false} PlainInsertKeeps(t: CacheState, p: Policy, poolOk: bool, now: nat)
    requires Unpinned(t.order) && !Pinned(p)
    ensures Unpinned(PutStep(t, p, poolOk, now).0.order)
  {
  }

  /** With a fixed limit and no pinned inserts, no reachable state is above the limit. */
  lemma {:induction false} WithinLimit(maxEntries: nat, ttlSec: nat, steps: seq<Step>)
    requires forall i :: 0 <= i < |steps| ==> PlainStep(steps[i])
    ensures var s := Run(Init(maxEntries, ttlSec), steps);
      |s.order| <= s.maxEntries == ClampEntries(maxEntries) && Unpinned(s.order)
  {
    if steps != [] {
      WithinLimit(maxEntries, ttlSec, steps[..|steps| - 1]);
      PlainStepKeeps(Run(Init(maxEntries, ttlSec), steps[..|steps| - 1]), steps[|steps| - 1]);
    }
  }

  /** Two pinned inserts under a configured limit of one leave two entries. */
  lemma {:induction false} PinnedOverflow(a: Policy, b: Policy)
    requires a.id != b.id && Pinned(a) && Pinned(b)
    ensures var steps := [Step(Configure(1, 0), 0), Step(Insert(a, true), 0), Step(Insert(b, true), 0)];
      var s := Run(Init(0, 0), steps);
      |s.order| == 2 && s.maxEntries == 1
  {
    var steps := [Step(Configure(1, 0), 0), Step(Insert(a, true), 0), Step(Insert(b, true), 0)];
    var s1 := Apply(Init(0, 0), steps[0]).0;
    var s2 := Apply(s1, steps[1]).0;
    assert s2.order == [FreshEntry(a, 0, s1.ttlSec)] && Pinned(s2.order[0]);
    LeavesLimitIff(s2, steps[2]);
    assert steps[..2][..1][..0] == [] && steps[..2][..1] == steps[..1] && steps[..1][..0] == [];
    assert Run(Init(0, 0), steps[..1]) == s1;
    assert Run(Init(0, 0), steps[..2]) == s2;
  }

  // ---- The high-water mark ----

  /** The largest number of entries in any state of the run. */
  ghost function PeakSize(start: CacheState, steps: seq<Step>): nat {
    var now := |Run(start, steps).order|;
    if steps == [] then now
    else
      var before := PeakSize(start, steps[..|steps| - 1]);
      if now > before then now else before
  }

  lemma {:induction false} MaxUsedIsPeak(maxEntries: nat, ttlSec: nat, steps: seq<Step>)
    ensures Run(Init(maxEntries, ttlSec), steps).maxUsed == PeakSize(Init(maxEntries, ttlSec), steps)
    ensures |Run(Init(maxEntries, ttlSec), steps).order| <= PeakSize(Init(maxEntries, ttlSec), steps)
  {
    if steps != [] {
      MaxUsedIsPeak(maxEntries, ttlSec, steps[..|steps| - 1]);
      MaxUsedStep(Run(Init(maxEntries, ttlSec), steps[..|steps| - 1]), steps[|steps| - 1]);
    }
  }

  lemma {:induction false} MaxUsedStep(s: CacheState, step: Step)
    requires |s.order| <= s.maxUsed
    ensures var t := Apply(s, step).0;
      t.maxUsed == (if |t.order| > s.maxUsed then |t.order| else s.maxUsed)
  {
    match step.op {
      case Insert(p, poolOk) => MaxUsedInsert(s, p, poolOk, step.now);
      case _ =>
    }
  }

  lemma {:induction false} MaxUsedInsert(s: CacheState, p: Policy, poolOk: bool, now: nat)
    requires |s.order| <= s.maxUsed
    ensures var t := InsertStep(s, p, poolOk, now).0;
      t.maxUsed == (if |t.order| > s.maxUsed then |t.order| else s.maxUsed)
  {
    var room := MakeRoom(s);
    assert room.maxUsed == s.maxUsed && |room.order| <= |s.order|;
  }
}
