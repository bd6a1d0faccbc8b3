/** Circular doubly linked lists through links embedded in their entries, spliced in place. */
module IntrusiveList {

  /** A link: the head of a list or part of an entry, told apart by what it belongs to. */
  class ListEntry<T> {
    const owner: T
    var flink: ListEntry?<T>
    var blink: ListEntry?<T>

    /** An empty list: both links point back to the head. */
    constructor (owner: T)
      ensures this.owner == owner && flink == this && blink == this
    {
      this.owner := owner;
      new;
      flink, blink := this, this;
    }
  }

  /** The head and the entries behind it, in order. */
  ghost function Cycle<T>(head: ListEntry<T>, s: seq<ListEntry<T>>): (r: seq<ListEntry<T>>)
    ensures |r| == |s| + 1
  {
    [head] + s
  }

  ghost predicate Linked<T>(a: ListEntry<T>, b: ListEntry<T>)
    reads a, b
  {
    a.flink == b && b.blink == a
  }

  ghost function Nodes<T>(head: ListEntry<T>, s: seq<ListEntry<T>>): set<ListEntry<T>> {
    {head} + set n | n in s
  }

  ghost predicate Distinct<T>(c: seq<ListEntry<T>>) {
    forall i, j :: 0 <= i < j < |c| ==> c[i] != c[j]
  }

  /** Every link points to the next entry and back, and the last to the head. */
  ghost predicate Ring<T>(head: ListEntry<T>, s: seq<ListEntry<T>>)
    reads Nodes(head, s)
  {
    var c := Cycle(head, s);
    && Distinct(c)
    && (forall i :: 0 <= i < |s| ==> Linked(c[i], c[i + 1]))
    && Linked(c[|s|], head)
  }

  method InsertBetween<T>(e: ListEntry<T>, ghost head: ListEntry<T>, ghost s: seq<ListEntry<T>>, ghost k: nat,
                          before: ListEntry<T>, after: ListEntry<T>)
    requires Ring(head, s) && e !in Nodes(head, s) && k <= |s|
    requires before == Cycle(head, s)[k] && after == if k == |s| then head else s[k]
    modifies e, before, after
    ensures Ring(head, s[..k] + [e] + s[k..])
  {
    ghost var c, d := Cycle(head, s), Cycle(head, s[..k] + [e] + s[k..]);
    assert forall i :: 0 <= i <= |s| ==> c[i] in Nodes(head, s);
    assert before == c[k] && (k < |s| ==> after == c[k + 1] && Linked(c[k], c[k + 1]));
    e.flink := after;
    e.blink := before;
    after.blink := e;
    before.flink := e;
    assert d[k + 1] == e && forall i :: 0 <= i <= k ==> d[i] == c[i];
    assert forall i :: k + 1 < i <= |s| + 1 ==> d[i] == c[i - 1];
    assert Linked(d[k], d[k + 1]);
    assert Linked(e, after);
  }

  method InsertHeadList<T>(head: ListEntry<T>, e: ListEntry<T>, ghost s: seq<ListEntry<T>>)
    requires Ring(head, s) && e !in Nodes(head, s)
    modifies e, Nodes(head, s)
    ensures Ring(head, [e] + s)
  {
    ghost var c := Cycle(head, s);
    assert s != [] ==> Linked(c[0], c[1]);
    InsertBetween(e, head, s, 0, head, head.flink);
    assert s[..0] + [e] + s[0..] == [e] + s;
  }

  method InsertTailList<T>(head: ListEntry<T>, e: ListEntry<T>, ghost s: seq<ListEntry<T>>)
    requires Ring(head, s) && e !in Nodes(head, s)
    modifies e, Nodes(head, s)
    ensures Ring(head, s + [e])
  {
    InsertBetween(e, head, s, |s|, head.blink, head);
    assert s[..|s|] + [e] + s[|s|..] == s + [e];
  }

  method RemoveEntryList<T>(e: ListEntry<T>, ghost head: ListEntry<T>, ghost s: seq<ListEntry<T>>, ghost k: nat)
    requires Ring(head, s) && k < |s| && s[k] == e
    modifies Nodes(head, s)
    ensures Ring(head, s[..k] + s[k + 1..])
  {
    ghost var c := Cycle(head, s);
    assert Linked(c[k], c[k + 1]) && (k + 1 < |s| ==> Linked(c[k + 1], c[k + 2]));
    var after, before := e.flink, e.blink;
    before.flink := after;
    after.blink := before;
    ghost var d := Cycle(head, s[..k] + s[k + 1..]);
    assert forall i :: 0 <= i <= k ==> d[i] == c[i];
    assert forall i :: k < i < |s| ==> d[i] == c[i + 1];
    assert before == d[k] && Linked(before, after);
  }

  /** A ring without its `k`-th link. */
  ghost function Without<T>(s: seq<T>, k: nat): seq<T>
    requires k < |s|
  {
    s[..k] + s[k + 1..]
  }

  /** The links of a ring differ, so one taken out is not among the rest. */
  lemma {:induction false} NotLeft<T>(head: ListEntry<T>, s: seq<ListEntry<T>>, k: nat)
    requires Distinct(Cycle(head, s)) && k < |s|
    ensures s[k] !in Nodes(head, Without(s, k))
  {
    var c, rest := Cycle(head, s), Without(s, k);
    assert c[0] == head && c[k + 1] == s[k];
    forall i | 0 <= i < |rest|
      ensures rest[i] != s[k]
    {
      assert rest[i] == c[if i < k then i + 1 else i + 2];
    }
  }

  /** Take a link out and put it in again at the tail. */
  method MoveToTailList<T>(e: ListEntry<T>, head: ListEntry<T>, ghost s: seq<ListEntry<T>>, ghost k: nat)
    requires Ring(head, s) && k < |s| && s[k] == e
    modifies Nodes(head, s)
    ensures Ring(head, Without(s, k) + [e])
  {
    NotLeft(head, s, k);
    RemoveEntryList(e, head, s, k);
    InsertTailList(head, e, Without(s, k));
  }
}
