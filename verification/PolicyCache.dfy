/** The kernel policy cache: a bucket array of entry chains and an LRU list over the same entries,
    spliced in place, and interlocked counters, each public operation taken as one atomic step. */
module PolicyCache {
  import opened PolicyTypes
  import opened CacheModel
  import opened CacheHistory
  import opened CacheTable
  import opened CacheLists
  import opened CacheReference

  class PolicyCache {
    var maxEntries: nat
    var ttlSec: nat
    var hits: nat
    var misses: nat
    var evictions: nat
    var currentEntries: nat
    var maxEntriesUsed: nat
    var version: nat
    /** The entries by address, and the first address not yet used. */
    var pool: Pool
    var unused: Handle
    var counts: seq<nat>
    const lists: Lists
    /** Pool, chains, counts and LRU list as one value, and the policies in LRU order. */
    ghost var links: Table
    ghost var order: seq<Policy>

    /** The linked lists are those of the value. */
    ghost predicate Linked()
      reads this, lists, lists.repr
    {
      && lists.Valid() && this !in lists.repr
      && |links.buckets| == BUCKETS && lists.contents == links.buckets + [links.lru]
      && links.pool == pool && links.unused == unused && links.counts == counts
    }

    /** The quantifier keeps the table folded where only other operations are called. */
    ghost predicate Valid()
      reads this, lists, lists.repr
    {
      && Linked() && currentEntries == |links.lru| == |order|
      && (forall t :: t == links ==> t.Consistent() && t.Shows(order))
    }

    /** The cache as a value. */
    ghost function State(): CacheState
      reads this
    {
      CacheState(order, maxEntries, ttlSec, hits, misses, evictions, maxEntriesUsed, version)
    }

    constructor (maxEntries: nat, ttlSec: nat)
      ensures Valid() && State() == Init(maxEntries, ttlSec) && fresh(lists.repr)
    {
      this.maxEntries := ClampEntries(maxEntries);
      this.ttlSec := if ttlSec > 0 then ttlSec else DEFAULT_TTL_SEC;
      hits, misses, evictions, currentEntries, maxEntriesUsed, version := 0, 0, 0, 0, 0, 1;
      pool, unused, counts := map[], 0, seq(BUCKETS, _ => 0);
      lists := new Lists();
      links := Table(map[], 0, seq(BUCKETS, _ => []), seq(BUCKETS, _ => 0), []);
      order := [];
    }

    /** The chain walk shared by every operation. */
    method FindInBucket(id: FileId) returns (r: Option<Handle>, ghost pos: nat)
      requires Valid()
      ensures r.Some? <==> IndexOf(order, id) < |links.lru|
      ensures r.Some? ==> pos < |links.buckets[HashFileId(id)]| && links.buckets[HashFileId(id)][pos] == r.value
      ensures r.Some? ==>
        && r.value == links.lru[IndexOf(order, id)]
        && r.value in pool && pool[r.value] == order[IndexOf(order, id)]
    {
      assert links.Consistent() && links.Shows(order);
      var b := HashFileId(id);
      ghost var chain := links.buckets[b];
      assert lists.contents[b] == chain;
      pos := 0;
      r := lists.First(b);
      while r.Some?
        invariant pos <= |chain| && r == if pos == |chain| then None else Some(chain[pos])
        invariant forall j :: 0 <= j < pos ==> chain[j] in pool && pool[chain[j]].id != id
        decreases |chain| - pos
      {
        OnLruToo(links, order, b, pos);
        if pool[r.value].id == id {
          return;
        }
        r := lists.Following(b, r.value, pos);
        pos := pos + 1;
      }
      AbsentFromChain(links, order, id);
    }

    /** New access time and the most recently used place for an entry that was hit. */
    method TouchEntry(h: Handle, now: nat, ghost k: nat)
      requires Valid() && k < |links.lru| && links.lru[k] == h
      modifies this, lists.repr
      ensures Valid() && lists.repr == old(lists.repr)
      ensures State() == old(State()).(order := DropAt(old(order), k) + [old(order[k]).(lastAccess := now)])
    {
      assert links.Consistent() && links.Shows(order);
      var touched := pool[h].(lastAccess := now);
      HitKeeps(links, order, h, k, touched);
      MoveEntry(h, touched, k);
      order := DropAt(order, k) + [touched];
    }

    method MoveEntry(h: Handle, touched: Policy, ghost k: nat)
      requires Linked() && k < |links.lru| && links.lru[k] == h
      modifies this, lists.repr
      ensures Linked() && lists.repr == old(lists.repr)
      ensures State() == old(State()) && currentEntries == old(currentEntries)
      ensures links == old(links).(pool := old(pool)[h := touched], lru := DropAt(old(links.lru), k) + [h])
    {
      assert lists.contents[LRU] == links.lru;
      lists.MoveToTail(LRU, h, k);
      pool := pool[h := touched];
      links := links.(pool := pool, lru := DropAt(links.lru, k) + [h]);
    }

    method LookupPolicy(id: FileId, now: nat) returns (r: Outcome)
      requires Valid()
      modifies this, lists.repr
      ensures Valid() && lists.repr == old(lists.repr)
      ensures (State(), r) == LookupStep(old(State()), id, now)
    {
      var found, pos := FindInBucket(id);
      ghost var k := IndexOf(order, id);
      if found.None? || Expired(pool[found.value], now) {
        misses := misses + 1;
        return NotFound;
      }
      r := Found(pool[found.value]);
      Hit(found.value, now, k);
    }

    method Hit(h: Handle, now: nat, ghost k: nat)
      requires Valid() && k < |links.lru| && links.lru[k] == h
      modifies this, lists.repr
      ensures Valid() && lists.repr == old(lists.repr)
      ensures State() == old(State()).(order := DropAt(old(order), k) + [old(order[k]).(lastAccess := now)],
                                       hits := old(hits) + 1)
    {
      TouchEntry(h, now, k);
      hits := hits + 1;
    }

    method QuickLookupClassification(id: FileId, now: nat) returns (r: Outcome)
      requires Valid()
      modifies this
      ensures Valid() && lists.repr == old(lists.repr)
      ensures (State(), r) == QuickLookupStep(old(State()), id, now)
    {
      var found, pos := FindInBucket(id);
      r := NotFound;
      if found.Some? {
        var policy := pool[found.value];
        if !Expired(policy, now) {
          r := FoundClass(policy.classification);
          hits := hits + 1;
        } else {
          misses := misses + 1;
        }
      }
      if r == NotFound {
        misses := misses + 1;
      }
    }

    /** Unlink the entry from its chain, then from the LRU list, and free it. */
    method RemovePolicy(id: FileId) returns (r: Outcome)
      requires Valid()
      modifies this, lists.repr
      ensures Valid() && lists.repr == old(lists.repr)
      ensures (State(), r) == RemoveStep(old(State()), id)
    {
      var found, pos := FindInBucket(id);
      if found.None? {
        return NotFound;
      }
      EntryAt(links, order, PositionOf(links.lru, found.value));
      UnlinkEntry(HashFileId(id), found.value, pos);
      return Success;
    }

    method UnlinkEntry(b: nat, h: Handle, ghost pos: nat)
      requires Valid() && b < BUCKETS && pos < |links.buckets[b]| && links.buckets[b][pos] == h && h in links.lru
      modifies this, lists.repr
      ensures Valid() && lists.repr == old(lists.repr)
      ensures State() == old(State()).(order := DropAt(old(order), PositionOf(old(links.lru), h)))
    {
      ghost var k := PositionOf(links.lru, h);
      UnlinkKeeps(links, b, pos);
      UnlinkShows(links, order, b, pos);
      UnlinkLists(b, h, pos, k);
      order := DropAt(order, k);
      currentEntries := currentEntries - 1;
    }

    method UnlinkLists(b: nat, h: Handle, ghost pos: nat, ghost k: nat)
      requires Linked() && b < BUCKETS && pos < |links.buckets[b]| && links.buckets[b][pos] == h
      requires h in links.lru && k == PositionOf(links.lru, h) && b < |links.counts| && links.counts[b] > 0
      modifies this, lists.repr
      ensures Linked() && lists.repr == old(lists.repr)
      ensures State() == old(State()) && currentEntries == old(currentEntries)
      ensures links == Unlink(old(links), b, pos)
    {
      lists.Remove(b, h, pos);
      counts := counts[b := counts[b] - 1];
      lists.Remove(LRU, h, k);
      pool := pool - {h};
      links := Unlink(links, b, pos);
    }

    /** Walk the LRU list past pinned entries to the first unpinned one. */
    method FindVictim() returns (r: Option<Handle>)
      requires Valid()
      ensures var k := OldestUnpinned(order);
        r == if k == |links.lru| then None else Some(links.lru[k])
      ensures r.Some? ==> r.value in pool && pool[r.value] == order[OldestUnpinned(order)]
    {
      assert links.Consistent() && links.Shows(order);
      ghost var k := 0;
      assert lists.contents[LRU] == links.lru;
      r := lists.First(LRU);
      while r.Some? && Pinned(pool[r.value])
        invariant k <= |links.lru| && r == if k == |links.lru| then None else Some(links.lru[k])
        invariant forall j :: 0 <= j < k ==> Pinned(order[j])
        decreases |links.lru| - k
      {
        r := lists.Following(LRU, r.value, k);
        k := k + 1;
      }
      assert k == OldestUnpinned(order);
    }

    method EvictOldestEntry()
      requires Valid()
      modifies this, lists.repr
      ensures Valid() && lists.repr == old(lists.repr)
      ensures State() == EvictStep(old(State()))
    {
      var r := FindVictim();
      if r.Some? {
        var _ := RemovePolicy(pool[r.value].id);
        evictions := evictions + 1;
      }
    }

    method InsertPolicy(policy: Policy, poolOk: bool, now: nat) returns (r: Outcome)
      requires Valid()
      modifies this, lists.repr
      ensures Valid() && fresh(lists.repr - old(lists.repr))
      ensures (State(), r) == InsertStep(old(State()), policy, poolOk, now)
    {
      if currentEntries >= maxEntries {
        EvictOldestEntry();
      }
      assert State() == MakeRoom(old(State()));
      r := PutPolicy(policy, poolOk, now);
    }

    method PutPolicy(policy: Policy, poolOk: bool, now: nat) returns (r: Outcome)
      requires Valid()
      modifies this, lists.repr
      ensures Valid() && fresh(lists.repr - old(lists.repr))
      ensures (State(), r) == PutStep(old(State()), policy, poolOk, now)
    {
      var found, pos := FindInBucket(policy.id);
      if found.Some? {
        UpdateInPlace(found.value, policy, now, IndexOf(order, policy.id));
        return Success;
      }
      if !poolOk {
        return InsufficientResources;
      }
      LinkNew(FreshEntry(policy, now, ttlSec));
      return Success;
    }

    /** Overwrite an entry where it stands: it keeps its place in the LRU list. */
    method UpdateInPlace(h: Handle, policy: Policy, now: nat, ghost k: nat)
      requires Valid() && k < |links.lru| && links.lru[k] == h && order[k].id == policy.id
      modifies this
      ensures Valid() && lists.repr == old(lists.repr)
      ensures State() == old(State()).(order := old(order)[k := Stamped(policy, now, ttlSec)])
    {
      RewriteKeeps(links, order, k, Stamped(policy, now, ttlSec));
      pool := pool[h := Stamped(policy, now, ttlSec)];
      links := links.(pool := pool);
      order := order[k := Stamped(policy, now, ttlSec)];
    }

    method LinkNew(entry: Policy)
      requires Valid() && IndexOf(order, entry.id) == |links.lru|
      modifies this, lists.repr
      ensures Valid() && fresh(lists.repr - old(lists.repr)) && order == old(order) + [entry]
      ensures State() == old(State()).(
        order := order, maxUsed := if |order| > old(maxEntriesUsed) then |order| else old(maxEntriesUsed))
    {
      assert links.Consistent() && links.Shows(order);
      LinkKeeps(links, order, entry);
      NewHandle(links, HashFileId(entry.id));
      LinkLists(entry);
      order := order + [entry];
      CountEntry();
    }

    method CountEntry()
      modifies `currentEntries, `maxEntriesUsed
      ensures currentEntries == old(currentEntries) + 1
      ensures maxEntriesUsed == if currentEntries > old(maxEntriesUsed) then currentEntries else old(maxEntriesUsed)
    {
      currentEntries := currentEntries + 1;
      if currentEntries > maxEntriesUsed {
        maxEntriesUsed := currentEntries;
      }
    }

    /** Chain the entry at the head of its bucket and append it to the LRU list. */
    method LinkLists(entry: Policy)
      requires Linked() && |counts| == BUCKETS
      requires unused !in links.lru && unused !in links.buckets[HashFileId(entry.id)]
      modifies this, lists.repr
      ensures Linked() && fresh(lists.repr - old(lists.repr)) && links == Link(old(links), entry)
      ensures State() == old(State()) && currentEntries == old(currentEntries)
    {
      var b, h := HashFileId(entry.id), unused;
      LinkContents(links, entry);
      LinkBoth(b, h);
      counts := counts[b := counts[b] + 1];
      pool, unused := pool[h := entry], h + 1;
      links := Link(links, entry);
    }

    method LinkBoth(b: nat, h: Handle)
      requires lists.Valid() && b < BUCKETS && h !in lists.contents[b] && h !in lists.contents[LRU]
      modifies lists.repr
      ensures lists.Valid() && fresh(lists.repr - old(lists.repr))
      ensures lists.contents
        == old(lists.contents)[b := [h] + old(lists.contents)[b]][LRU := old(lists.contents)[LRU] + [h]]
    {
      lists.InsertHead(b, h);
      lists.InsertTail(LRU, h);
    }

    method ClearCache()
      requires Valid()
      modifies this, lists.repr
      ensures Valid() && lists.repr == old(lists.repr)
      ensures State() == ClearStep(old(State()))
    {
      assert links.Consistent();
      EmptyLists();
      EmptyConsistent(links);
      order := [];
      currentEntries := 0;
      version := version + 1;
    }

    method EmptyLists()
      requires Linked() && ChainsOk(pool, links.buckets) && |counts| == BUCKETS
      modifies this, lists.repr
      ensures Linked() && lists.repr == old(lists.repr) && State() == old(State())
      ensures links == Table(map[], old(unused), seq(BUCKETS, _ => []), seq(BUCKETS, _ => 0), [])
    {
      FreeAllChains();
      lists.Reset(LRU);
      links := links.(lru := []);
    }

    /** Free every entry of every chain and reset the bucket counts. The LRU list is left as it was. */
    method FreeAllChains()
      requires Linked() && ChainsOk(pool, links.buckets) && |counts| == BUCKETS
      modifies this, lists.repr
      ensures Linked() && lists.repr == old(lists.repr) && State() == old(State())
      ensures links == Table(map[], old(unused), seq(BUCKETS, _ => []), seq(BUCKETS, _ => 0), old(links.lru))
    {
      var b := 0;
      while b < BUCKETS
        invariant b <= BUCKETS && Linked() && lists.repr == old(lists.repr) && State() == old(State())
        invariant ChainsOk(pool, links.buckets) && |counts| == BUCKETS && unused == old(unused)
        invariant links.lru == old(links.lru)
        invariant forall c :: 0 <= c < b ==> links.buckets[c] == [] && counts[c] == 0
      {
        FreeChain(b);
        counts := counts[b := 0];
        links := links.(counts := counts);
        b := b + 1;
      }
      EmptyChains(pool, links.buckets);
    }

    /** Take the entries of one chain off its head, one by one, and free them. */
    method FreeChain(b: nat)
      requires Linked() && ChainsOk(pool, links.buckets) && b < BUCKETS
      modifies this, lists.repr
      ensures Linked() && lists.repr == old(lists.repr) && State() == old(State()) && ChainsOk(pool, links.buckets)
      ensures links == old(links).(pool := pool, buckets := old(links.buckets)[b := []])
    {
      var r := lists.First(b);
      while r.Some?
        invariant Linked() && lists.repr == old(lists.repr) && State() == old(State()) && ChainsOk(pool, links.buckets)
        invariant r == if links.buckets[b] == [] then None else Some(links.buckets[b][0])
        invariant links == old(links).(pool := pool, buckets := old(links.buckets)[b := links.buckets[b]])
        decreases |links.buckets[b]|
      {
        FreeFirst(b, r.value);
        r := lists.First(b);
      }
    }

    method FreeFirst(b: nat, h: Handle)
      requires Linked() && ChainsOk(pool, links.buckets) && b < BUCKETS
      requires links.buckets[b] != [] && links.buckets[b][0] == h
      modifies this, lists.repr
      ensures Linked() && lists.repr == old(lists.repr) && State() == old(State()) && ChainsOk(pool, links.buckets)
      ensures links == old(links).(pool := pool, buckets := old(links.buckets)[b := old(links.buckets[b])[1..]])
    {
      UnlinkChain(pool, links.buckets, b, 0);
      assert DropAt(links.buckets[b], 0) == links.buckets[b][1..];
      lists.Remove(b, h, 0);
      pool := pool - {h};
      links := links.(pool := pool, buckets := links.buckets[b := links.buckets[b][1..]]);
    }

    method Configure(maxEntries: nat, ttlSec: nat)
      requires Valid()
      modifies this
      ensures Valid() && lists.repr == old(lists.repr)
      ensures State() == ConfigureStep(old(State()), maxEntries, ttlSec)
    {
      if 0 < maxEntries <= MAX_CACHE_SIZE {
        this.maxEntries := maxEntries;
      }
      if ttlSec > 0 {
        this.ttlSec := ttlSec;
      }
    }

    /** One operation of a run. */
    method Perform(step: Step) returns (r: Outcome)
      requires Valid()
      modifies this, lists.repr
      ensures Valid() && fresh(lists.repr - old(lists.repr))
      ensures (State(), r) == Apply(old(State()), step)
    {
      match step.op {
        case Lookup(id) => r := LookupPolicy(id, step.now);
        case QuickLookup(id) => r := QuickLookupClassification(id, step.now);
        case Insert(p, poolOk) => r := InsertPolicy(p, poolOk, step.now);
        case Remove(id) => r := RemovePolicy(id);
        case Clear => ClearCache(); r := Success;
        case Configure(m, t) => Configure(m, t); r := Success;
      }
    }
  }

  /** An entry on a chain is on the LRU list, at the place its identity has in the order. */
  lemma {:induction false} OnLruToo(t: Table, order: seq<Policy>, b: nat, pos: nat)
    requires t.Consistent() && t.Shows(order) && b < BUCKETS && pos < |t.buckets[b]|
    ensures var h := t.buckets[b][pos];
      && h in t.pool
      && var k := IndexOf(order, t.pool[h].id);
         k < |t.lru| && t.lru[k] == h && order[k] == t.pool[h]
  {
    var h := t.buckets[b][pos];
    assert Enumerates(t.buckets[b], Hashed(t.pool, b)) && h in multiset(t.buckets[b]);
    assert h in multiset(t.lru);
    EntryAt(t, order, PositionOf(t.lru, h));
  }

  /** Linking at both places, seen on the contents of all lists. */
  lemma {:induction false} LinkContents(t: Table, p: Policy)
    requires |t.buckets| == BUCKETS == |t.counts|
    ensures var b, h, all := HashFileId(p.id), t.unused, t.buckets + [t.lru];
      all[b := [h] + all[b]][LRU := all[LRU] + [h]] == Link(t, p).buckets + [Link(t, p).lru]
  {
  }

  lemma {:induction false} EmptyConsistent(t: Table)
    requires t == Table(map[], t.unused, seq(BUCKETS, _ => []), seq(BUCKETS, _ => 0), [])
    ensures t.Consistent() && t.Shows([])
  {
  }

  /** An address not yet used is on no list. */
  lemma {:induction false} NewHandle(t: Table, b: nat)
    requires t.Consistent() && b < BUCKETS
    ensures t.unused !in t.buckets[b] && t.unused !in t.lru
  {
    assert Enumerates(t.buckets[b], Hashed(t.pool, b));
    assert t.unused !in multiset(t.buckets[b]) && t.unused !in multiset(t.lru);
  }

  /** Every run of the bucketed cache answers exactly as the plain map with expiry does, and as the
      history of its operations says. */
  method ExecuteRun(maxEntries: nat, ttlSec: nat, steps: seq<Step>) returns (outcomes: seq<Outcome>)
    ensures outcomes == RefOutcomes(RefInit(maxEntries, ttlSec), steps)
    ensures AllFit(Init(maxEntries, ttlSec), steps, outcomes)
  {
    var cache := new PolicyCache(maxEntries, ttlSec);
    ghost var start := Init(maxEntries, ttlSec);
    outcomes := [];
    for i := 0 to |steps|
      invariant fresh(cache) && fresh(cache.lists.repr) && cache.Valid()
      invariant cache.State() == Run(start, steps[..i])
      invariant outcomes == Outcomes(start, steps[..i])
    {
      var r := cache.Perform(steps[i]);
      outcomes := outcomes + [r];
      assert steps[..i + 1][..i] == steps[..i];
    }
    assert steps[..|steps|] == steps;
    SimulatesInit(maxEntries, ttlSec);
    SimulatesRun(start, RefInit(maxEntries, ttlSec), steps);
    OutcomesFit(start, steps);
  }
}
