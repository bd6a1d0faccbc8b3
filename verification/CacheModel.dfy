/** The policy cache as a value: the policies in LRU order, oldest first, and the counters.
    Every operation is one atomic step at one clock reading. */
module CacheModel {
  import opened PolicyTypes

  datatype CacheState = CacheState(
    order: seq<Policy>,
    maxEntries: nat,
    ttlSec: nat,
    hits: nat,
    misses: nat,
    evictions: nat,
    maxUsed: nat,
    version: nat)

  datatype Op =
    | Lookup(id: FileId)
    | QuickLookup(id: FileId)
    | Insert(policy: Policy, poolOk: bool)
    | Remove(id: FileId)
    | Clear
    | Configure(maxEntries: nat, ttlSec: nat)

  /** An operation and the system time at which it runs. */
  datatype Step = Step(op: Op, now: nat)

  datatype Outcome =
    | Found(policy: Policy)
    | FoundClass(classification: U32)
    | NotFound
    | Success
    | InsufficientResources

  const MIN_CACHE_SIZE := 1024
  const MAX_CACHE_SIZE := 1_000_000
  const DEFAULT_TTL_SEC := 300

  function ClampEntries(n: nat): (r: nat)
    ensures MIN_CACHE_SIZE <= r <= MAX_CACHE_SIZE
  {
    if n < MIN_CACHE_SIZE then MIN_CACHE_SIZE else if n > MAX_CACHE_SIZE then MAX_CACHE_SIZE else n
  }

  function Init(maxEntries: nat, ttlSec: nat): CacheState {
    CacheState([], ClampEntries(maxEntries), if ttlSec > 0 then ttlSec else DEFAULT_TTL_SEC, 0, 0, 0, 0, 1)
  }

  ghost predicate Has(order: seq<Policy>, id: FileId) {
    exists k :: 0 <= k < |order| && order[k].id == id
  }

  /** Position of the entry for `id`, or the length when there is none. */
  ghost function IndexOf(order: seq<Policy>, id: FileId): (k: nat)
    ensures k <= |order|
    ensures if Has(order, id) then k < |order| && order[k].id == id else k == |order|
  {
    if Has(order, id) then
      var k :| 0 <= k < |order| && order[k].id == id; k
    else |order|
  }

  /** Position of the oldest entry that is not pinned, or the length when all are. */
  ghost function OldestUnpinned(order: seq<Policy>): (k: nat)
    ensures k <= |order|
    ensures k < |order| ==> !Pinned(order[k])
    ensures forall j :: 0 <= j < k ==> Pinned(order[j])
  {
    if order == [] || !Pinned(order[0]) then 0 else 1 + OldestUnpinned(order[1..])
  }

  function DropAt<T>(s: seq<T>, k: nat): seq<T>
    requires k < |s|
  {
    s[..k] + s[k + 1..]
  }

  ghost function LookupStep(s: CacheState, id: FileId, now: nat): (CacheState, Outcome) {
    var k := IndexOf(s.order, id);
    if k == |s.order| || Expired(s.order[k], now) then
      (s.(misses := s.misses + 1), NotFound)
    else
      var touched := s.order[k].(lastAccess := now);
      (s.(order := DropAt(s.order, k) + [touched], hits := s.hits + 1), Found(s.order[k]))
  }

  /** The classification-only path: no LRU touch, and an expired entry counts two misses. */
  ghost function QuickLookupStep(s: CacheState, id: FileId, now: nat): (CacheState, Outcome) {
    var k := IndexOf(s.order, id);
    if k == |s.order| then (s.(misses := s.misses + 1), NotFound)
    else if Expired(s.order[k], now) then (s.(misses := s.misses + 2), NotFound)
    else (s.(hits := s.hits + 1), FoundClass(s.order[k].classification))
  }

  ghost function RemoveStep(s: CacheState, id: FileId): (CacheState, Outcome) {
    var k := IndexOf(s.order, id);
    if k == |s.order| then (s, NotFound) else (s.(order := DropAt(s.order, k)), Success)
  }

  ghost function EvictStep(s: CacheState): CacheState {
    var k := OldestUnpinned(s.order);
    if k == |s.order| then s
    else RemoveStep(s, s.order[k].id).0.(evictions := s.evictions + 1)
  }

  ghost function MakeRoom(s: CacheState): CacheState {
    if |s.order| >= s.maxEntries then EvictStep(s) else s
  }

  /** What an in-place update leaves in the entry. */
  function Stamped(p: Policy, now: nat, ttlSec: nat): Policy {
    p.(lastAccess := now, expiration := if Permanent(p) then p.expiration else ExpiryFrom(now, ttlSec))
  }

  /** What a fresh insertion stores: the update, with the VALID flag set. */
  function FreshEntry(p: Policy, now: nat, ttlSec: nat): Policy {
    Stamped(p.(flags := WithValid(p.flags)), now, ttlSec)
  }

  ghost function InsertStep(s: CacheState, p: Policy, poolOk: bool, now: nat): (CacheState, Outcome) {
    PutStep(MakeRoom(s), p, poolOk, now)
  }

  /** Update the entry of this file in place, or else append a new one if one can be allocated. */
  ghost function PutStep(t: CacheState, p: Policy, poolOk: bool, now: nat): (CacheState, Outcome) {
    var k := IndexOf(t.order, p.id);
    if k < |t.order| then
      (t.(order := t.order[k := Stamped(p, now, t.ttlSec)]), Success)
    else if !poolOk then
      (t, InsufficientResources)
    else
      var order := t.order + [FreshEntry(p, now, t.ttlSec)];
      (t.(order := order, maxUsed := if |order| > t.maxUsed then |order| else t.maxUsed), Success)
  }

  ghost function ClearStep(s: CacheState): CacheState {
    s.(order := [], version := s.version + 1)
  }

  ghost function ConfigureStep(s: CacheState, maxEntries: nat, ttlSec: nat): CacheState {
    s.(maxEntries := if 0 < maxEntries <= MAX_CACHE_SIZE then maxEntries else s.maxEntries,
       ttlSec := if ttlSec > 0 then ttlSec else s.ttlSec)
  }

  ghost function Apply(s: CacheState, step: Step): (CacheState, Outcome) {
    match step.op
    case Lookup(id) => LookupStep(s, id, step.now)
    case QuickLookup(id) => QuickLookupStep(s, id, step.now)
    case Insert(p, poolOk) => InsertStep(s, p, poolOk, step.now)
    case Remove(id) => RemoveStep(s, id)
    case Clear => (ClearStep(s), Success)
    case Configure(m, t) => (ConfigureStep(s, m, t), Success)
  }

  /** The state after a run, and the outcomes along it. */
  ghost function Run(s: CacheState, steps: seq<Step>): CacheState {
    if steps == [] then s else Apply(Run(s, steps[..|steps| - 1]), steps[|steps| - 1]).0
  }

  ghost function Outcomes(s: CacheState, steps: seq<Step>): seq<Outcome> {
    if steps == [] then []
    else
      var before := steps[..|steps| - 1];
      Outcomes(s, before) + [Apply(Run(s, before), steps[|steps| - 1]).1]
  }

  /** Equal except for the access time. */
  ghost predicate SamePolicy(p: Policy, q: Policy) {
    p.(lastAccess := 0) == q.(lastAccess := 0)
  }

  /** No file identity occurs twice. */
  ghost predicate DistinctIds(order: seq<Policy>) {
    forall i, j :: 0 <= i < j < |order| ==> order[i].id != order[j].id
  }
}
