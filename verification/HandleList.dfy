/** One list of cache entries, a bucket's chain or the LRU list, as a ring of links embedded in the
    entries. A handle stands for the address of an entry. */
module HandleList {
  import opened PolicyTypes
  import opened CacheModel
  import opened CacheTable
  import opened IntrusiveList

  /** The list a link belongs to, by its number, and the entry that contains it; a head is in none. */
  datatype Place = Place(list: nat, entry: Option<Handle>)

  type Node = ListEntry<Place>
  type LinkMap = map<Handle, Node>

  // ---- Entries and their links ----

  ghost predicate Indexes(link: LinkMap, items: seq<Handle>) {
    forall h :: h in link <==> h in items
  }

  ghost function LinksOf(items: seq<Handle>, link: LinkMap): (s: seq<Node>)
    requires Indexes(link, items)
    ensures |s| == |items| && forall i :: 0 <= i < |items| ==> s[i] == link[items[i]]
  {
    seq(|items|, i requires 0 <= i < |items| => link[items[i]])
  }

  ghost predicate OwnLinks(link: LinkMap, number: nat) {
    forall h :: h in link ==> link[h].owner == Place(number, Some(h))
  }

  lemma {:induction false} LinksHead(items: seq<Handle>, link: LinkMap, h: Handle, n: Node)
    requires Indexes(link, items) && h !in items
    ensures Indexes(link[h := n], [h] + items) && LinksOf([h] + items, link[h := n]) == [n] + LinksOf(items, link)
    ensures link[h := n].Values == link.Values + {n}
  {
    OneMoreValue(link, h, n);
  }

  lemma {:induction false} OneMoreValue(link: LinkMap, h: Handle, n: Node)
    requires h !in link
    ensures link[h := n].Values == link.Values + {n}
  {
    var more := link[h := n];
    assert more[h] == n && forall x :: x in link ==> more[x] == link[x];
  }

  lemma {:induction false} LinksTail(items: seq<Handle>, link: LinkMap, h: Handle, n: Node)
    requires Indexes(link, items) && h !in items
    ensures Indexes(link[h := n], items + [h]) && LinksOf(items + [h], link[h := n]) == LinksOf(items, link) + [n]
    ensures link[h := n].Values == link.Values + {n}
  {
    OneMoreValue(link, h, n);
  }

  /** The entries are as distinct as their links. */
  lemma {:induction false} ItemsOnce(items: seq<Handle>, link: LinkMap, head: Node, k: nat)
    requires Indexes(link, items) && k < |items| && Distinct(Cycle(head, LinksOf(items, link)))
    ensures forall i :: 0 <= i < |items| && i != k ==> items[i] != items[k]
  {
    var c := Cycle(head, LinksOf(items, link));
    forall i | 0 <= i < |items| && i != k
      ensures items[i] != items[k]
    {
      assert c[i + 1] == link[items[i]] && c[k + 1] == link[items[k]];
    }
  }

  lemma {:induction false} IndexesDrop(items: seq<Handle>, link: LinkMap, k: nat)
    requires Indexes(link, items) && k < |items|
    requires forall i :: 0 <= i < |items| && i != k ==> items[i] != items[k]
    ensures Indexes(link - {items[k]}, DropAt(items, k))
  {
    var rest := DropAt(items, k);
    forall h | h in items && h != items[k]
      ensures h in rest
    {
      var i :| 0 <= i < |items| && items[i] == h;
      assert rest[if i < k then i else i - 1] == h;
    }
  }

  lemma {:induction false} LinksDrop(items: seq<Handle>, link: LinkMap, head: Node, k: nat)
    requires Indexes(link, items) && k < |items| && Distinct(Cycle(head, LinksOf(items, link)))
    ensures Indexes(link - {items[k]}, DropAt(items, k))
    ensures LinksOf(DropAt(items, k), link - {items[k]}) == Without(LinksOf(items, link), k)
  {
    ItemsOnce(items, link, head, k);
    IndexesDrop(items, link, k);
  }

  lemma {:induction false} LinksMove(items: seq<Handle>, link: LinkMap, k: nat)
    requires Indexes(link, items) && k < |items|
    ensures Indexes(link, DropAt(items, k) + [items[k]])
    ensures LinksOf(DropAt(items, k) + [items[k]], link) == Without(LinksOf(items, link), k) + [link[items[k]]]
  {
    SameMembers(items, k);
  }

  lemma {:induction false} SameMembers(items: seq<Handle>, k: nat)
    requires k < |items|
    ensures forall h :: h in DropAt(items, k) + [items[k]] <==> h in items
  {
    var front, back := items[..k], items[k + 1..];
    assert items == front + [items[k]] + back;
  }

  // ---- The list ----

  class List {
    const number: nat
    const head: Node
    /** Where each entry on the list has its link. */
    var link: LinkMap
    /** The entries in order. */
    ghost var items: seq<Handle>

    ghost function Repr(): set<object>
      reads this
    {
      {this, head} + link.Values
    }

    ghost predicate Owned()
      reads this
    {
      head.owner == Place(number, None) && OwnLinks(link, number) && Indexes(link, items)
    }

    /** The links form a ring. The quantifier keeps the ring folded where no link is looked at. */
    ghost predicate Valid()
      reads this, Repr()
    {
      Owned() && forall s :: s == LinksOf(items, link) ==> Ring(head, s)
    }

    /** An empty list. */
    constructor (number: nat)
      ensures Valid() && items == [] && this.number == number && fresh(Repr())
    {
      this.number := number;
      head := new ListEntry(Place(number, None));
      link := map[];
      items := [];
    }

    /** The first entry of the list. */
    method First() returns (r: Option<Handle>)
      requires Valid()
      ensures r == if items == [] then None else Some(items[0])
    {
      ghost var c := Cycle(head, LinksOf(items, link));
      assert Ring(head, LinksOf(items, link));
      assert items != [] ==> Linked(c[0], c[1]);
      r := head.flink.owner.entry;
    }

    /** The entry after the `k`-th one. */
    method Following(h: Handle, ghost k: nat) returns (r: Option<Handle>)
      requires Valid() && k < |items| && items[k] == h
      ensures r == if k + 1 == |items| then None else Some(items[k + 1])
    {
      ghost var c := Cycle(head, LinksOf(items, link));
      assert Ring(head, LinksOf(items, link));
      assert c[k + 1] == link[h] && (k + 1 < |items| ==> Linked(c[k + 1], c[k + 2]));
      r := link[h].flink.owner.entry;
    }

    /** Splice in the link of an entry that is not on the list, at its head. */
    method InsertHead(h: Handle, node: Node)
      requires Valid() && h !in items && node !in Repr() && node.owner == Place(number, Some(h))
      modifies Repr(), node
      ensures Valid() && items == [h] + old(items) && Repr() == old(Repr()) + {node}
    {
      ghost var ring := [node] + LinksOf(items, link);
      LinksHead(items, link, h, node);
      SpliceHead(node);
      link := link[h := node];
      items := [h] + items;
      assert LinksOf(items, link) == ring && Ring(head, ring);
    }

    /** Splice it in at the tail. */
    method InsertTail(h: Handle, node: Node)
      requires Valid() && h !in items && node !in Repr() && node.owner == Place(number, Some(h))
      modifies Repr(), node
      ensures Valid() && items == old(items) + [h] && Repr() == old(Repr()) + {node}
    {
      LinksTail(items, link, h, node);
      SpliceTail(node);
      link := link[h := node];
      items := items + [h];
    }

    method SpliceHead(node: Node)
      requires Valid() && node !in Repr()
      modifies Repr() - {this}, node
      ensures Ring(head, [node] + LinksOf(items, link))
    {
      assert Ring(head, LinksOf(items, link));
      InsertHeadList(head, node, LinksOf(items, link));
    }

    method SpliceTail(node: Node)
      requires Valid() && node !in Repr()
      modifies Repr() - {this}, node
      ensures Ring(head, LinksOf(items, link) + [node])
    {
      assert Ring(head, LinksOf(items, link));
      InsertTailList(head, node, LinksOf(items, link));
    }

    /** Unlink the entry that is the `k`-th one. */
    method Remove(h: Handle, ghost k: nat)
      requires Valid() && k < |items| && items[k] == h
      modifies Repr()
      ensures Valid() && items == DropAt(old(items), k) && Repr() <= old(Repr())
    {
      assert Ring(head, LinksOf(items, link));
      LinksDrop(items, link, head, k);
      SpliceOut(h, k);
      link := link - {h};
      items := DropAt(items, k);
    }

    method SpliceOut(h: Handle, ghost k: nat)
      requires Valid() && k < |items| && items[k] == h
      modifies Repr() - {this}
      ensures Ring(head, Without(LinksOf(items, link), k))
    {
      ghost var s := LinksOf(items, link);
      assert Ring(head, s);
      RemoveEntryList(link[h], head, s, k);
    }

    /** Unlink the entry and link it in again at the tail. */
    method MoveToTail(h: Handle, ghost k: nat)
      requires Valid() && k < |items| && items[k] == h
      modifies Repr()
      ensures Valid() && items == DropAt(old(items), k) + [h] && Repr() == old(Repr())
    {
      ghost var s := LinksOf(items, link);
      assert Ring(head, s);
      LinksMove(items, link, k);
      MoveToTailList(link[h], head, s, k);
      items := DropAt(items, k) + [h];
    }

    /** Make the head point to itself, whatever it pointed to. */
    method Reset()
      requires head.owner == Place(number, None)
      modifies this, head
      ensures Valid() && items == [] && Repr() <= old(Repr())
    {
      head.flink, head.blink := head, head;
      link := map[];
      items := [];
    }
  }

  /** Lists of different numbers share no link. */
  lemma {:induction false} Apart(l: List, m: List)
    requires l.Owned() && m.Owned() && l.number != m.number
    ensures l.Repr() !! m.Repr()
  {
  }
}
