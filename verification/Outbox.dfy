/** The offline outbox: stored events, the two queries that pick a batch, and the transactional
    acknowledgement. Whether a payload can be parsed back is a property of the row. */
module Outbox {

  datatype Row = Row(id: nat, payload: nat, parses: bool, createdAt: int, synced: bool)

  /** ORDER BY created_at, id. */
  predicate Before(a: Row, b: Row) {
    a.createdAt < b.createdAt || (a.createdAt == b.createdAt && a.id < b.id)
  }

  ghost predicate Ordered(s: seq<Row>) {
    forall i, j :: 0 <= i < j < |s| ==> Before(s[i], s[j])
  }

  function Place(r: Row, s: seq<Row>): seq<Row> {
    if s == [] || Before(r, s[0]) then [r] + s else [s[0]] + Place(r, s[1..])
  }

  /** The rows not yet synced, in query order. */
  function Pending(rows: seq<Row>): seq<Row> {
    if rows == [] then []
    else
      var n := |rows| - 1;
      if rows[n].synced then Pending(rows[..n]) else Place(rows[n], Pending(rows[..n]))
  }

  function Batch(rows: seq<Row>, limit: nat): seq<Row> {
    var p := Pending(rows);
    if |p| <= limit then p else p[..limit]
  }

  function Ids(rows: seq<Row>): (ids: seq<nat>)
    ensures |ids| == |rows| && forall i :: 0 <= i < |rows| ==> ids[i] == rows[i].id
  {
    seq(|rows|, i requires 0 <= i < |rows| => rows[i].id)
  }

  /** The rows whose payload can be read back: the others are skipped when sending. */
  function Readable(rows: seq<Row>): seq<Row> {
    if rows == [] then []
    else Readable(rows[..|rows| - 1]) + (if rows[|rows| - 1].parses then [rows[|rows| - 1]] else [])
  }

  function Marked(rows: seq<Row>, ids: seq<nat>): (r: seq<Row>)
    ensures |r| == |rows|
    ensures forall i :: 0 <= i < |rows| ==> r[i] == rows[i].(synced := rows[i].synced || rows[i].id in ids)
  {
    seq(|rows|, i requires 0 <= i < |rows| => rows[i].(synced := rows[i].synced || rows[i].id in ids))
  }

  /** Ids are handed out in order and never twice. */
  ghost predicate Numbered(rows: seq<Row>, next: nat) {
    && (forall i :: 0 <= i < |rows| ==> rows[i].id < next)
    && (forall i, j :: 0 <= i < j < |rows| ==> rows[i].id < rows[j].id)
  }

  // ---- The table ----

  /** How a COMMIT ends: done, failed with the transaction undone, or failed with the transaction
      still open. A failed COMMIT is not followed by a ROLLBACK. */
  datatype Commit = Committed | Undone | LeftOpen

  /** `rows` is what the connection sees; `inTransaction` says that a transaction was left open. */
  class LocalCache {
    var rows: seq<Row>
    var nextId: nat
    var inTransaction: bool

    ghost predicate Valid()
      reads this
    {
      Numbered(rows, nextId)
    }

    constructor ()
      ensures Valid() && rows == [] && nextId == 0 && !inTransaction
    {
      rows, nextId, inTransaction := [], 0, false;
    }

    /** A new pending row, unless the insert statement fails. */
    method StoreEvent(payload: nat, parses: bool, now: int, insertOk: bool) returns (ok: bool)
      requires Valid()
      modifies `rows, `nextId
      ensures Valid() && ok == insertOk
      ensures ok ==> rows == old(rows) + [Row(old(nextId), payload, parses, now, false)] && nextId == old(nextId) + 1
      ensures !ok ==> rows == old(rows) && nextId == old(nextId)
    {
      if !insertOk {
        return false;
      }
      rows := rows + [Row(nextId, payload, parses, now, false)];
      nextId := nextId + 1;
      return true;
    }

    /** The rows of a query, stepped through one by one. */
    method GetPendingEvents(limit: nat) returns (events: seq<Row>)
      ensures events == Readable(Batch(rows, limit))
    {
      var selected := Batch(rows, limit);
      events := [];
      for i := 0 to |selected|
        invariant events == Readable(selected[..i])
      {
        assert selected[..i + 1][..i] == selected[..i];
        if selected[i].parses {
          events := events + [selected[i]];
        }
      }
      assert selected[..|selected|] == selected;
    }

    method GetPendingEventIds(limit: nat) returns (ids: seq<nat>)
      ensures ids == Ids(Batch(rows, limit))
    {
      var selected := Batch(rows, limit);
      ids := [];
      for i := 0 to |selected|
        invariant ids == Ids(selected)[..i]
      {
        ids := ids + [selected[i].id];
      }
    }

    /** One update per id inside a transaction: a failed update at `failAt` rolls all of them back.
        No transaction can begin while one is open. */
    method MarkEventsSynced(ids: seq<nat>, failAt: nat, commit: Commit) returns (ok: bool)
      requires Valid()
      modifies `rows, `inTransaction
      ensures var reached := ids != [] && !old(inTransaction) && failAt >= |ids|;
        && Valid() && ok == (ids == [] || (reached && commit.Committed?))
        && rows == (if reached && !commit.Undone? then Marked(old(rows), ids) else old(rows))
        && inTransaction == (old(inTransaction) || (reached && commit.LeftOpen?))
    {
      if ids == [] {
        return true;
      }
      if inTransaction {
        return false;
      }
      var before := rows;
      for i := 0 to |ids|
        invariant i <= failAt && !inTransaction
        invariant rows == Marked(before, ids[..i])
      {
        if i == failAt {
          rows := before;
          return false;
        }
        rows := Marked(rows, [ids[i]]);
        assert ids[..i + 1] == ids[..i] + [ids[i]];
      }
      assert ids[..|ids|] == ids;
      match commit {
        case Committed => return true;
        case Undone => rows := before; return false;
        case LeftOpen => inTransaction := true; return false;
      }
    }
  }

  // ---- Ordering ----

  lemma {:induction false} PlaceOrdered(r: Row, s: seq<Row>)
    requires Ordered(s) && forall i :: 0 <= i < |s| ==> s[i].id != r.id
    ensures Ordered(Place(r, s)) && multiset(Place(r, s)) == multiset(s) + multiset{r}
    decreases |s|
  {
    if s != [] && !Before(r, s[0]) {
      var tail := s[1..];
      PlaceOrdered(r, tail);
      var rest := Place(r, tail);
      assert s == [s[0]] + tail;
      forall x | x in rest
        ensures Before(s[0], x)
      {
        assert x in multiset(rest);
        assert x == r || x in tail;
      }
    }
  }

  /** Pending rows are strictly ordered and are exactly the rows not yet synced. */
  lemma {:induction false} PendingOrdered(rows: seq<Row>, next: nat)
    requires Numbered(rows, next)
    ensures Ordered(Pending(rows))
    ensures var p := Pending(rows);
      forall i, j :: 0 <= i < j < |p| ==>
        p[i].createdAt < p[j].createdAt || (p[i].createdAt == p[j].createdAt && p[i].id < p[j].id)
    ensures forall r :: r in Pending(rows) <==> r in rows && !r.synced
    decreases |rows|
  {
    if rows != [] {
      var n := |rows| - 1;
      var init := rows[..n];
      PendingOrdered(init, rows[n].id);
      assert rows == init + [rows[n]];
      if !rows[n].synced {
        var p := Pending(init);
        forall i | 0 <= i < |p|
          ensures p[i].id != rows[n].id
        {
          assert p[i] in p;
        }
        PlaceOrdered(rows[n], p);
        forall r
          ensures r in Place(rows[n], p) <==> r in p || r == rows[n]
        {
          assert r in Place(rows[n], p) <==> r in multiset(Place(rows[n], p));
        }
      }
    }
  }

  /** A row placed after the `n`-th leaves the first `n` alone. */
  lemma {:induction false} PlaceKeepsPrefix(r: Row, s: seq<Row>, n: nat)
    requires n <= |s| && forall i :: 0 <= i < n ==> Before(s[i], r)
    ensures |Place(r, s)| == |s| + 1 && Place(r, s)[..n] == s[..n]
    decreases |s|
  {
    if s == [] || Before(r, s[0]) {
      assert n == 0;
    } else {
      PlaceKeepsPrefix(r, s[1..], if n > 0 then n - 1 else 0);
      if n > 0 {
        assert Place(r, s)[..n] == [s[0]] + Place(r, s[1..])[..n - 1];
      }
    }
  }

  // ---- Two queries with stores in between ----

  /** No new row sorts before the last row of the batch. */
  ghost predicate NoneAhead(stores: seq<Row>, batch: seq<Row>) {
    forall i :: 0 <= i < |stores| && batch != [] ==> Before(batch[|batch| - 1], stores[i])
  }

  ghost predicate Fresh(rows: seq<Row>, stores: seq<Row>, next: nat) {
    Numbered(rows + stores, next) && forall i :: 0 <= i < |stores| ==> !stores[i].synced
  }

  lemma {:induction false} StoresKeepBatch(rows: seq<Row>, stores: seq<Row>, next: nat, n: nat)
    requires Fresh(rows, stores, next) && n <= |Pending(rows)|
    requires NoneAhead(stores, Pending(rows)[..n])
    ensures |Pending(rows + stores)| == |Pending(rows)| + |stores| && Pending(rows + stores)[..n] == Pending(rows)[..n]
    decreases |stores|
  {
    if stores == [] {
      assert rows + stores == rows;
    } else {
      var k := |stores| - 1;
      var all := rows + stores[..k];
      WithoutLast(rows, stores, next, Pending(rows)[..n]);
      StoresKeepBatch(rows, stores[..k], next, n);
      SameLast(Pending(all), Pending(rows), n);
      OneStore(all, stores[k], next, n);
      assert all + [stores[k]] == rows + stores;
    }
  }

  lemma {:induction false} WithoutLast(rows: seq<Row>, stores: seq<Row>, next: nat, batch: seq<Row>)
    requires Fresh(rows, stores, next) && NoneAhead(stores, batch) && stores != []
    ensures var k := |stores| - 1;
      && Fresh(rows, stores[..k], next) && NoneAhead(stores[..k], batch) && Numbered(rows + stores[..k], next)
      && !stores[k].synced && (batch != [] ==> Before(batch[|batch| - 1], stores[k]))
  {
    var k := |stores| - 1;
    assert (rows + stores)[..|rows| + k] == rows + stores[..k];
  }

  lemma {:induction false} SameLast(a: seq<Row>, b: seq<Row>, n: nat)
    requires n <= |a| && n <= |b| && a[..n] == b[..n]
    ensures n > 0 ==> a[n - 1] == b[n - 1] == b[..n][n - 1]
  {
    assert n > 0 ==> a[n - 1] == a[..n][n - 1];
  }

  lemma {:induction false} OneStore(all: seq<Row>, r: Row, next: nat, n: nat)
    requires Numbered(all, next) && !r.synced && n <= |Pending(all)|
    requires n > 0 ==> Before(Pending(all)[n - 1], r)
    ensures |Pending(all + [r])| == |Pending(all)| + 1 && Pending(all + [r])[..n] == Pending(all)[..n]
  {
    var q := Pending(all);
    PendingOrdered(all, next);
    forall i | 0 <= i < n
      ensures Before(q[i], r)
    {
      assert i == n - 1 || Before(q[i], q[n - 1]);
    }
    PlaceKeepsPrefix(r, q, n);
    assert (all + [r])[..|all|] == all;
  }

  /** The second query reads the batch of the first one if and only if no row stored in between
      sorts ahead of the batch's last row. */
  lemma {:induction false} QueriesAgreeIff(rows: seq<Row>, stores: seq<Row>, next: nat, limit: nat)
    requires Fresh(rows, stores, next)
    ensures var batch := Batch(rows, limit);
      Batch(rows + stores, |batch|) == batch <==> NoneAhead(stores, batch)
  {
    var batch := Batch(rows, limit);
    var n := |batch|;
    assert batch == Pending(rows)[..n];
    if NoneAhead(stores, batch) {
      StoresKeepBatch(rows, stores, next, n);
    } else {
      var i :| 0 <= i < |stores| && batch != [] && !Before(batch[n - 1], stores[i]);
      AheadIsSelected(rows, stores, next, n, i);
    }
  }

  lemma {:induction false} AheadIsSelected(rows: seq<Row>, stores: seq<Row>, next: nat, n: nat, i: nat)
    requires Fresh(rows, stores, next) && 0 < n <= |Pending(rows)| && i < |stores|
    requires !Before(Pending(rows)[n - 1], stores[i])
    ensures |Pending(rows + stores)| >= n ==> Pending(rows + stores)[..n] != Pending(rows)[..n]
  {
    var all := rows + stores;
    var p, t, r := Pending(rows), Pending(all), stores[i];
    assert all[|rows| + i] == r;
    assert Numbered(rows, next) by {
      assert forall j :: 0 <= j < |rows| ==> rows[j] == all[j];
    }
    PendingOrdered(rows, next);
    PendingOrdered(all, next);
    forall m | 0 <= m < |rows|
      ensures rows[m] != r
    {
      assert all[m].id < all[|rows| + i].id;
    }
    assert r in t && r !in rows;
    if n <= |t| {
      OrderedMiss(t, p, n, r);
    }
  }

  lemma {:induction false} OrderedMiss(t: seq<Row>, p: seq<Row>, n: nat, r: Row)
    requires Ordered(t) && r in t && r !in p && 0 < n <= |p| && n <= |t| && !Before(p[n - 1], r)
    ensures t[..n] != p[..n]
  {
  }

  /** Rows stored under a non-decreasing clock never sort ahead. */
  lemma {:induction false} MonotoneNeverAhead(rows: seq<Row>, stores: seq<Row>, next: nat, limit: nat)
    requires Fresh(rows, stores, next)
    requires forall i, j :: 0 <= i < |rows| && 0 <= j < |stores| ==> rows[i].createdAt <= stores[j].createdAt
    ensures NoneAhead(stores, Batch(rows, limit))
  {
    var all := rows + stores;
    assert Numbered(rows, next) by {
      assert forall j :: 0 <= j < |rows| ==> rows[j] == all[j];
    }
    PendingOrdered(rows, next);
    var batch := Batch(rows, limit);
    forall j | 0 <= j < |stores| && batch != []
      ensures Before(batch[|batch| - 1], stores[j])
    {
      var last := Pending(rows)[|batch| - 1];
      assert last in Pending(rows);
      var i :| 0 <= i < |rows| && rows[i] == last;
      assert all[i].id < all[|rows| + j].id;
    }
  }
}
