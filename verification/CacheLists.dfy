/** All lists of the policy cache, sharing no link: the chain of every bucket under the bucket's
    number, and the LRU list under the number after the last bucket. */
module CacheLists {
  import opened PolicyTypes
  import opened CacheModel
  import opened CacheTable
  import opened IntrusiveList
  import opened HandleList

  const LRU := BUCKETS

  class Lists {
    const lists: seq<List>
    ghost var repr: set<object>
    /** The entries on every list, in order. */
    ghost var contents: seq<seq<Handle>>

    ghost predicate ListOk(n: nat)
      requires n < |lists| == |contents|
      reads this, repr
    {
      && lists[n] in repr && lists[n].Repr() <= repr && lists[n].number == n
      && lists[n].Valid() && lists[n].items == contents[n]
    }

    ghost predicate Valid()
      reads this, repr
    {
      this in repr && |lists| == LRU + 1 == |contents| && forall n :: 0 <= n <= LRU ==> ListOk(n)
    }

    constructor ()
      ensures Valid() && contents == seq(LRU + 1, _ => []) && fresh(repr)
    {
      var ls: seq<List> := [];
      ghost var all: set<object> := {};
      for n := 0 to LRU + 1
        invariant |ls| == n && fresh(all)
        invariant forall c :: 0 <= c < n ==>
          ls[c] in all && ls[c].Repr() <= all && ls[c].number == c && ls[c].Valid() && ls[c].items == []
      {
        var list := new List(n);
        ls, all := ls + [list], all + list.Repr();
      }
      lists := ls;
      contents := seq(LRU + 1, _ => []);
      new;
      repr := {this} + all;
    }

    lemma AllApart(n: nat)
      requires Valid() && n <= LRU
      ensures forall c :: 0 <= c <= LRU && c != n ==> lists[n].Repr() !! lists[c].Repr()
    {
      assert ListOk(n);
      forall c | 0 <= c <= LRU && c != n
        ensures lists[n].Repr() !! lists[c].Repr()
      {
        assert ListOk(c);
        Apart(lists[n], lists[c]);
      }
    }

    /** A link that is on no list. */
    ghost predicate Loose(node: Node)
      requires |lists| == LRU + 1
      reads this, lists
    {
      node in repr && forall n :: 0 <= n <= LRU ==> node !in lists[n].Repr()
    }

    /** The link, for one list, of an entry that has just been allocated. */
    method NewLink(n: nat, h: Handle) returns (node: Node)
      requires Valid() && n <= LRU
      modifies `repr
      ensures Valid() && fresh(node) && Loose(node) && node.owner == Place(n, Some(h))
      ensures repr == old(repr) + {node}
    {
      node := new ListEntry(Place(n, Some(h)));
      repr := repr + {node};
      forall c | 0 <= c <= LRU
        ensures ListOk(c) && node !in lists[c].Repr()
      {
        assert old(ListOk(c));
      }
    }

    method InsertHead(n: nat, h: Handle)
      requires Valid() && n <= LRU && h !in contents[n]
      modifies repr
      ensures Valid() && fresh(repr - old(repr)) && contents == old(contents)[n := [h] + old(contents)[n]]
    {
      var node := NewLink(n, h);
      InsertHeadLink(n, h, node);
    }

    method InsertHeadLink(n: nat, h: Handle, node: Node)
      requires Valid() && n <= LRU && h !in contents[n] && node.owner == Place(n, Some(h)) && Loose(node)
      modifies repr
      ensures Valid() && repr == old(repr) && contents == old(contents)[n := [h] + old(contents)[n]]
    {
      assert ListOk(n);
      AllApart(n);
      lists[n].InsertHead(h, node);
      contents := contents[n := [h] + contents[n]];
      forall c | 0 <= c <= LRU && c != n
        ensures ListOk(c)
      {
        assert old(ListOk(c)) && old(lists[c].Repr()) !! old(lists[n].Repr());
        assert lists[c].Valid() && lists[c].items == contents[c];
      }
    }

    method InsertTail(n: nat, h: Handle)
      requires Valid() && n <= LRU && h !in contents[n]
      modifies repr
      ensures Valid() && fresh(repr - old(repr)) && contents == old(contents)[n := old(contents)[n] + [h]]
    {
      var node := NewLink(n, h);
      InsertTailLink(n, h, node);
    }

    method InsertTailLink(n: nat, h: Handle, node: Node)
      requires Valid() && n <= LRU && h !in contents[n] && node.owner == Place(n, Some(h)) && Loose(node)
      modifies repr
      ensures Valid() && repr == old(repr) && contents == old(contents)[n := old(contents)[n] + [h]]
    {
      assert ListOk(n);
      AllApart(n);
      lists[n].InsertTail(h, node);
      contents := contents[n := contents[n] + [h]];
      forall c | 0 <= c <= LRU && c != n
        ensures ListOk(c)
      {
        assert old(ListOk(c)) && old(lists[c].Repr()) !! old(lists[n].Repr());
        assert lists[c].Valid() && lists[c].items == contents[c];
      }
    }

    /** Unlink the entry that is the `k`-th one of its list. */
    method Remove(n: nat, h: Handle, ghost k: nat)
      requires Valid() && n <= LRU && k < |contents[n]| && contents[n][k] == h
      modifies repr
      ensures Valid() && repr == old(repr) && contents == old(contents)[n := DropAt(old(contents)[n], k)]
    {
      assert ListOk(n);
      AllApart(n);
      lists[n].Remove(h, k);
      contents := contents[n := DropAt(contents[n], k)];
      forall c | 0 <= c <= LRU && c != n
        ensures ListOk(c)
      {
        assert old(ListOk(c)) && old(lists[c].Repr()) !! old(lists[n].Repr());
        assert lists[c].Valid() && lists[c].items == contents[c];
      }
    }

    method MoveToTail(n: nat, h: Handle, ghost k: nat)
      requires Valid() && n <= LRU && k < |contents[n]| && contents[n][k] == h
      modifies repr
      ensures Valid() && repr == old(repr) && contents == old(contents)[n := DropAt(old(contents)[n], k) + [h]]
    {
      assert ListOk(n);
      AllApart(n);
      lists[n].MoveToTail(h, k);
      contents := contents[n := DropAt(contents[n], k) + [h]];
      forall c | 0 <= c <= LRU && c != n
        ensures ListOk(c)
      {
        assert old(ListOk(c)) && old(lists[c].Repr()) !! old(lists[n].Repr());
        assert lists[c].Valid() && lists[c].items == contents[c];
      }
    }

    /** Make a list empty without looking at its entries. */
    method Reset(n: nat)
      requires Valid() && n <= LRU
      modifies repr
      ensures Valid() && repr == old(repr) && contents == old(contents)[n := []]
    {
      assert ListOk(n);
      AllApart(n);
      lists[n].Reset();
      contents := contents[n := []];
      forall c | 0 <= c <= LRU && c != n
        ensures ListOk(c)
      {
        assert old(ListOk(c)) && old(lists[c].Repr()) !! old(lists[n].Repr());
        assert lists[c].Valid() && lists[c].items == contents[c];
      }
    }

    method First(n: nat) returns (r: Option<Handle>)
      requires Valid() && n <= LRU
      ensures r == if contents[n] == [] then None else Some(contents[n][0])
    {
      assert ListOk(n);
      r := lists[n].First();
    }

    method Following(n: nat, h: Handle, ghost k: nat) returns (r: Option<Handle>)
      requires Valid() && n <= LRU && k < |contents[n]| && contents[n][k] == h
      ensures r == if k + 1 == |contents[n]| then None else Some(contents[n][k + 1])
    {
      assert ListOk(n);
      r := lists[n].Following(h, k);
    }
  }
}
