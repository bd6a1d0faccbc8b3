/** Buckets, LRU list and entry pool of the policy cache, and what linking, unlinking,
    rewriting and touching one entry keep. A handle stands for the address of an entry:
    chains and LRU list hold handles, so both see one copy of the policy in the pool. */
module CacheTable {
  import opened PolicyTypes
  import opened CacheModel

  type Handle = nat
  type Pool = map<Handle, Policy>

  /** The list holds every element of the set exactly once. */
  ghost predicate Enumerates(s: seq<Handle>, hs: set<Handle>) {
    multiset(s) == multiset(hs)
  }

  ghost predicate IdsUnique(pool: Pool) {
    forall g, h :: g in pool && h in pool && pool[g].id == pool[h].id ==> g == h
  }

  /** Handles from `unused` on are free. */
  ghost predicate AllBelow(pool: Pool, unused: Handle) {
    forall h :: h in pool ==> h < unused
  }

  /** The entries that hash to bucket `b`. */
  ghost function Hashed(pool: Pool, b: nat): set<Handle> {
    set h | h in pool && HashFileId(pool[h].id) == b
  }

  /** Every chain holds exactly the entries of its hash, once each. */
  ghost predicate ChainsOk(pool: Pool, buckets: seq<seq<Handle>>) {
    |buckets| == BUCKETS && forall b :: 0 <= b < BUCKETS ==> Enumerates(buckets[b], Hashed(pool, b))
  }

  ghost predicate CountsOk(buckets: seq<seq<Handle>>, counts: seq<nat>) {
    |counts| == |buckets| && forall b :: 0 <= b < |buckets| ==> counts[b] == |buckets[b]|
  }

  datatype Table = Table(pool: Pool, unused: Handle, buckets: seq<seq<Handle>>, counts: seq<nat>, lru: seq<Handle>)
  {
    /** LRU list and chains enumerate the same allocated entries, whose identities are unique. */
    ghost predicate Consistent() {
      && Enumerates(lru, pool.Keys) && IdsUnique(pool) && AllBelow(pool, unused)
      && ChainsOk(pool, buckets) && CountsOk(buckets, counts)
    }

    /** `order` lists the policies of the entries in LRU order. */
    ghost predicate Shows(order: seq<Policy>) {
      |order| == |lru| && forall i :: 0 <= i < |lru| ==> lru[i] in pool && order[i] == pool[lru[i]]
    }
  }

  function PositionOf(s: seq<Handle>, h: Handle): (k: nat)
    requires h in s
    ensures k < |s| && s[k] == h
  {
    if s[0] == h then 0 else 1 + PositionOf(s[1..], h)
  }

  lemma {:induction false} EnumeratesOnce(s: seq<Handle>, hs: set<Handle>, i: nat, j: nat)
    requires Enumerates(s, hs) && i < j < |s|
    ensures s[i] != s[j]
  {
    assert s == s[..j] + [s[j]] + s[j + 1..];
    assert multiset(s) == multiset(s[..j]) + multiset{s[j]} + multiset(s[j + 1..]);
    assert s[..j][i] in multiset(s[..j]);
    assert multiset(s)[s[j]] == 1;
  }

  /** Identities are distinct in the list model, and it finds an entry where the list has it. */
  lemma {:induction false} EntryAt(t: Table, order: seq<Policy>, k: nat)
    requires t.Consistent() && t.Shows(order) && k < |t.lru|
    ensures DistinctIds(order) && IndexOf(order, order[k].id) == k
  {
    forall i, j | 0 <= i < j < |t.lru|
      ensures order[i].id != order[j].id
    {
      EnumeratesOnce(t.lru, t.pool.Keys, i, j);
    }
  }

  /** An identity that no entry of its own chain carries is in no entry at all. */
  lemma {:induction false} AbsentFromChain(t: Table, order: seq<Policy>, id: FileId)
    requires t.Consistent() && t.Shows(order)
    requires forall h :: h in t.buckets[HashFileId(id)] ==> h in t.pool && t.pool[h].id != id
    ensures IndexOf(order, id) == |order|
  {
    var b := HashFileId(id);
    forall h | h in t.pool
      ensures t.pool[h].id != id
    {
      assert t.pool[h].id == id ==> h in Hashed(t.pool, b);
      assert h in Hashed(t.pool, b) ==> h in multiset(t.buckets[b]);
    }
  }

  lemma {:induction false} AbsentFromPool(t: Table, order: seq<Policy>, id: FileId)
    requires t.Consistent() && t.Shows(order) && IndexOf(order, id) == |order|
    ensures forall h :: h in t.pool ==> t.pool[h].id != id
  {
    forall h | h in t.pool
      ensures t.pool[h].id != id
    {
      assert h in multiset(t.lru);
      assert order[PositionOf(t.lru, h)] == t.pool[h];
    }
  }

  lemma {:induction false} DropAtEnumerates(s: seq<Handle>, hs: set<Handle>, k: nat)
    requires Enumerates(s, hs) && k < |s|
    ensures Enumerates(DropAt(s, k), hs - {s[k]})
  {
    assert s == s[..k] + [s[k]] + s[k + 1..];
    assert multiset(s) == multiset(DropAt(s, k)) + multiset{s[k]};
    assert multiset(hs - {s[k]}) == multiset(hs) - multiset{s[k]};
  }

  /** Remove the `pos`-th entry of a chain and its place in the LRU list, and free it. */
  function Unlink(t: Table, b: nat, pos: nat): Table
    requires b < |t.buckets| && b < |t.counts| && pos < |t.buckets[b]| && t.counts[b] > 0
    requires t.buckets[b][pos] in t.lru
  {
    var h := t.buckets[b][pos];
    Table(t.pool - {h}, t.unused, t.buckets[b := DropAt(t.buckets[b], pos)], t.counts[b := t.counts[b] - 1],
          DropAt(t.lru, PositionOf(t.lru, h)))
  }

  lemma {:induction false} UnlinkKeeps(t: Table, b: nat, pos: nat)
    requires t.Consistent() && b < BUCKETS && pos < |t.buckets[b]|
    ensures t.counts[b] > 0 && t.buckets[b][pos] in t.lru
    ensures Unlink(t, b, pos).Consistent()
  {
    var h := t.buckets[b][pos];
    assert h in multiset(t.buckets[b]);
    assert h in t.pool && h in multiset(t.lru);
    DropAtEnumerates(t.lru, t.pool.Keys, PositionOf(t.lru, h));
    assert (t.pool - {h}).Keys == t.pool.Keys - {h};
    UnlinkChain(t.pool, t.buckets, b, pos);
  }

  lemma {:induction false} UnlinkShows(t: Table, order: seq<Policy>, b: nat, pos: nat)
    requires t.Consistent() && t.Shows(order) && b < BUCKETS && pos < |t.buckets[b]|
    requires t.counts[b] > 0 && t.buckets[b][pos] in t.lru
    ensures Unlink(t, b, pos).Shows(DropAt(order, PositionOf(t.lru, t.buckets[b][pos])))
  {
    var h := t.buckets[b][pos];
    var k := PositionOf(t.lru, h);
    OnceElsewhere(t.lru, t.pool.Keys, k);
  }

  lemma {:induction false} OnceElsewhere(s: seq<Handle>, hs: set<Handle>, k: nat)
    requires Enumerates(s, hs) && k < |s|
    ensures forall i :: 0 <= i < |s| && i != k ==> s[i] != s[k]
  {
    forall i | 0 <= i < |s| && i != k
      ensures s[i] != s[k]
    {
      if i < k { EnumeratesOnce(s, hs, i, k); } else { EnumeratesOnce(s, hs, k, i); }
    }
  }

  lemma {:induction false} UnlinkChain(pool: Pool, buckets: seq<seq<Handle>>, b: nat, pos: nat)
    requires ChainsOk(pool, buckets) && b < BUCKETS && pos < |buckets[b]|
    ensures ChainsOk(pool - {buckets[b][pos]}, buckets[b := DropAt(buckets[b], pos)])
  {
    var h := buckets[b][pos];
    assert h in multiset(buckets[b]);
    DropAtEnumerates(buckets[b], Hashed(pool, b), pos);
    var chains := buckets[b := DropAt(buckets[b], pos)];
    forall c | 0 <= c < BUCKETS
      ensures Enumerates(chains[c], Hashed(pool - {h}, c))
    {
      assert Enumerates(buckets[c], Hashed(pool, c));
      assert Hashed(pool - {h}, c) == if c == b then Hashed(pool, c) - {h} else Hashed(pool, c);
    }
  }

  /** Chain a new entry at the head of its bucket and append it to the LRU list. */
  function Link(t: Table, p: Policy): Table
    requires |t.buckets| == BUCKETS == |t.counts|
  {
    var b, h := HashFileId(p.id), t.unused;
    Table(t.pool[h := p], h + 1, t.buckets[b := [h] + t.buckets[b]], t.counts[b := t.counts[b] + 1], t.lru + [h])
  }

  lemma {:induction false} LinkKeeps(t: Table, order: seq<Policy>, p: Policy)
    requires t.Consistent() && t.Shows(order) && IndexOf(order, p.id) == |order|
    ensures Link(t, p).Consistent() && Link(t, p).Shows(order + [p])
  {
    AbsentFromPool(t, order, p.id);
    LinkChain(t.pool, t.buckets, t.unused, p);
  }

  lemma {:induction false} LinkChain(pool: Pool, buckets: seq<seq<Handle>>, h: Handle, p: Policy)
    requires ChainsOk(pool, buckets) && h !in pool
    ensures var b := HashFileId(p.id);
      ChainsOk(pool[h := p], buckets[b := [h] + buckets[b]])
  {
  }

  /** Overwrite an entry in place. */
  lemma {:induction false} RewriteKeeps(t: Table, order: seq<Policy>, k: nat, p: Policy)
    requires t.Consistent() && t.Shows(order) && k < |t.lru| && order[k].id == p.id
    ensures t.(pool := t.pool[t.lru[k] := p]).Consistent()
    ensures t.(pool := t.pool[t.lru[k] := p]).Shows(order[k := p])
  {
    var pool := t.pool[t.lru[k] := p];
    assert pool.Keys == t.pool.Keys;
    forall c | 0 <= c < BUCKETS
      ensures Hashed(pool, c) == Hashed(t.pool, c)
    {
    }
    OnceElsewhere(t.lru, t.pool.Keys, k);
  }

  /** Move an entry to the most recently used end. */
  lemma {:induction false} TouchKeeps(t: Table, order: seq<Policy>, k: nat)
    requires t.Consistent() && t.Shows(order) && k < |t.lru|
    ensures t.(lru := DropAt(t.lru, k) + [t.lru[k]]).Consistent()
    ensures t.(lru := DropAt(t.lru, k) + [t.lru[k]]).Shows(DropAt(order, k) + [order[k]])
  {
    MoveEnumerates(t.lru, t.pool.Keys, k);
  }

  /** A hit: the entry gets a new access time and the most recently used place. */
  lemma {:induction false} HitKeeps(t: Table, order: seq<Policy>, h: Handle, k: nat, p: Policy)
    requires t.Consistent() && t.Shows(order) && k < |t.lru| && t.lru[k] == h && order[k].id == p.id
    ensures PositionOf(t.lru, h) == k
    ensures var u := t.(pool := t.pool[h := p], lru := DropAt(t.lru, k) + [h]);
      u.Consistent() && u.Shows(DropAt(order, k) + [p])
  {
    RewriteKeeps(t, order, k, p);
    TouchKeeps(t.(pool := t.pool[h := p]), order[k := p], k);
    OnceElsewhere(t.lru, t.pool.Keys, k);
    assert DropAt(order[k := p], k) == DropAt(order, k);
  }

  lemma {:induction false} MoveEnumerates(s: seq<Handle>, hs: set<Handle>, k: nat)
    requires Enumerates(s, hs) && k < |s|
    ensures Enumerates(DropAt(s, k) + [s[k]], hs)
  {
    assert s == s[..k] + [s[k]] + s[k + 1..];
  }

  /** When every chain is empty, every entry has been freed. */
  lemma {:induction false} EmptyChains(pool: Pool, buckets: seq<seq<Handle>>)
    requires ChainsOk(pool, buckets) && forall b :: 0 <= b < BUCKETS ==> buckets[b] == []
    ensures pool == map[]
  {
    forall h | h in pool
      ensures h in multiset(buckets[HashFileId(pool[h].id)])
    {
      assert h in Hashed(pool, HashFileId(pool[h].id));
    }
  }
}
