/** Which processes have read protected content: a hash table of process entries, and the same as
    a map keyed by process id. */
module ProcessTracker {
  import opened PolicyTypes

  type Pid = nat

  /** Five minutes, in 100-nanosecond ticks. */
  const TRACKING_WINDOW := 5 * 60 * TICKS_PER_SECOND
  const MAX_FILES := 16

  datatype ProcessEntry = ProcessEntry(
    highest: U32,
    activeReads: nat,
    lastRead: nat,
    firstRead: nat,
    files: seq<FileId>)

  datatype Tracker = Tracker(entries: map<Pid, ProcessEntry>, trackedReads: nat, blockedWrites: nat)

  const EMPTY := Tracker(map[], 0, 0)

  /** The first occurrence of a file removed, the later ones shifted down. */
  function Without(files: seq<FileId>, f: FileId): (r: seq<FileId>)
    ensures f !in files ==> r == files
    ensures |r| <= |files|
  {
    if files == [] then []
    else if files[0] == f then files[1..]
    else [files[0]] + Without(files[1..], f)
  }

  function WithFile(files: seq<FileId>, f: FileId): seq<FileId> {
    if |files| < MAX_FILES && f !in files then files + [f] else files
  }

  function EntryFor(t: Tracker, pid: Pid, now: nat): ProcessEntry {
    if pid in t.entries then t.entries[pid] else ProcessEntry(0, 0, 0, now, [])
  }

  /** The numerically larger of two classification words. */
  function Higher(c: U32, d: U32): U32 {
    if c > d then c else d
  }

  function Tracked(e: ProcessEntry, f: FileId, c: U32, now: nat): ProcessEntry {
    e.(lastRead := now, highest := Higher(c, e.highest),
       files := WithFile(e.files, f), activeReads := e.activeReads + 1)
  }

  /** A read of protected content. A process without an entry needs one from the pool. */
  function TrackStep(t: Tracker, pid: Pid, f: FileId, c: U32, poolOk: bool, now: nat): Tracker {
    if pid !in t.entries && !poolOk then t
    else t.(entries := t.entries[pid := Tracked(EntryFor(t, pid, now), f, c, now)], trackedReads := t.trackedReads + 1)
  }

  function Untracked(e: ProcessEntry, f: FileId): ProcessEntry {
    e.(activeReads := if e.activeReads > 0 then e.activeReads - 1 else 0, files := Without(e.files, f))
  }

  function UntrackStep(t: Tracker, pid: Pid, f: FileId): Tracker {
    if pid !in t.entries then t else t.(entries := t.entries[pid := Untracked(t.entries[pid], f)])
  }

  /** The elapsed time is an unsigned 64-bit difference. */
  function Elapsed(now: nat, then_: nat): nat {
    (now - then_) % 0x1_0000_0000_0000_0000
  }

  predicate ShouldBlock(t: Tracker, pid: Pid, now: nat) {
    && pid in t.entries
    && Elapsed(now, t.entries[pid].lastRead) < TRACKING_WINDOW
    && ProtectedClass(t.entries[pid].highest)
  }

  function CheckStep(t: Tracker, pid: Pid, now: nat): Tracker {
    if ShouldBlock(t, pid, now) then t.(blockedWrites := t.blockedWrites + 1) else t
  }

  function ExitStep(t: Tracker, pid: Pid): Tracker {
    t.(entries := t.entries - {pid})
  }

  // ---- The hash table ----

  const TABLE_SIZE := 1024

  function HashPid(pid: Pid): (b: nat)
    ensures b < TABLE_SIZE
  {
    var h := pid % 0x1_0000_0000;
    var h := Xor(h, h / 0x1_0000) * 0x85eb_ca6b % 0x1_0000_0000;
    var h := Xor(h, h / 0x2000) * 0xc2b2_ae35 % 0x1_0000_0000;
    Xor(h, h / 0x1_0000) % TABLE_SIZE
  }

  /** An entry on its chain. References are held only while an operation works on the entry. */
  datatype Chained = Chained(pid: Pid, refCount: nat, entry: ProcessEntry)

  type Chain = seq<Chained>

  /** The bucket of a process. */
  type Hash = Pid -> nat

  ghost predicate OnChain(chain: Chain, pid: Pid) {
    exists i :: 0 <= i < |chain| && chain[i].pid == pid
  }

  /** The chain of bucket `b` holds exactly the entries that hash to it, once each, and only the
      entry of `held` is referenced. */
  ghost predicate ChainOk(chain: Chain, b: nat, hash: Hash, entries: map<Pid, ProcessEntry>, held: Option<Pid>) {
    && (forall i :: 0 <= i < |chain| ==>
          && chain[i].pid in entries && hash(chain[i].pid) == b
          && chain[i] == Chained(chain[i].pid, if held == Some(chain[i].pid) then 1 else 0, entries[chain[i].pid]))
    && (forall i, j :: 0 <= i < j < |chain| ==> chain[i].pid != chain[j].pid)
    && (forall pid :: pid in entries && hash(pid) == b ==> OnChain(chain, pid))
  }

  ghost predicate ChainsOk(buckets: seq<Chain>, hash: Hash, entries: map<Pid, ProcessEntry>, held: Option<Pid>) {
    |buckets| == TABLE_SIZE && forall b :: 0 <= b < TABLE_SIZE ==> ChainOk(buckets[b], b, hash, entries, held)
  }

  /** What happens to the entry of a process leaves the chains of other buckets as they are. */
  lemma {:induction false} OtherChain(chain: Chain, c: nat, hash: Hash, entries: map<Pid, ProcessEntry>,
                                      held: Option<Pid>, pid: Pid, entries': map<Pid, ProcessEntry>, held': Option<Pid>)
    requires ChainOk(chain, c, hash, entries, held) && hash(pid) != c
    requires (held == None || held == Some(pid)) && (held' == None || held' == Some(pid))
    requires forall p :: p != pid ==> (p in entries' <==> p in entries) && (p in entries ==> entries'[p] == entries[p])
    ensures ChainOk(chain, c, hash, entries', held')
  {
  }

  /** Another entry at one place of one chain, for the same process. */
  lemma {:induction false} RewriteChain(buckets: seq<Chain>, hash: Hash, entries: map<Pid, ProcessEntry>,
                                        held: Option<Pid>, b: nat, i: nat, e: ProcessEntry, held': Option<Pid>)
    requires ChainsOk(buckets, hash, entries, held) && b < TABLE_SIZE && i < |buckets[b]|
    requires var pid := buckets[b][i].pid; (held == None || held == Some(pid)) && (held' == None || held' == Some(pid))
    ensures var pid := buckets[b][i].pid;
      var chain := buckets[b][i := Chained(pid, if held'.Some? then 1 else 0, e)];
      ChainsOk(buckets[b := chain], hash, entries[pid := e], held')
  {
    var pid := buckets[b][i].pid;
    var chain := buckets[b][i := Chained(pid, if held'.Some? then 1 else 0, e)];
    var after := buckets[b := chain];
    assert ChainOk(buckets[b], b, hash, entries, held);
    RewriteOne(buckets[b], b, hash, entries, held, i, e, held');
    forall c | 0 <= c < TABLE_SIZE && c != b
      ensures ChainOk(after[c], c, hash, entries[pid := e], held')
    {
      OtherChain(buckets[c], c, hash, entries, held, pid, entries[pid := e], held');
    }
  }

  lemma {:induction false} RewriteOne(chain: Chain, b: nat, hash: Hash, entries: map<Pid, ProcessEntry>,
                                      held: Option<Pid>, i: nat, e: ProcessEntry, held': Option<Pid>)
    requires ChainOk(chain, b, hash, entries, held) && i < |chain|
    requires (held == None || held == Some(chain[i].pid)) && (held' == None || held' == Some(chain[i].pid))
    ensures var pid := chain[i].pid;
      ChainOk(chain[i := Chained(pid, if held'.Some? then 1 else 0, e)], b, hash, entries[pid := e], held')
  {
    var pid := chain[i].pid;
    var after := chain[i := Chained(pid, if held'.Some? then 1 else 0, e)];
    forall p | p in entries && hash(p) == b
      ensures OnChain(after, p)
    {
      var j :| 0 <= j < |chain| && chain[j].pid == p;
      assert after[j].pid == p;
    }
  }

  /** A new entry at the head of its chain. */
  lemma {:induction false} PushChain(buckets: seq<Chain>, hash: Hash, entries: map<Pid, ProcessEntry>, pid: Pid,
                                     e: ProcessEntry)
    requires ChainsOk(buckets, hash, entries, None) && pid !in entries && hash(pid) < TABLE_SIZE
    ensures var b := hash(pid);
      ChainsOk(buckets[b := [Chained(pid, 1, e)] + buckets[b]], hash, entries[pid := e], Some(pid))
  {
    var b := hash(pid);
    var chain := [Chained(pid, 1, e)] + buckets[b];
    var after := buckets[b := chain];
    forall c | 0 <= c < TABLE_SIZE && c != b
      ensures ChainOk(after[c], c, hash, entries[pid := e], Some(pid))
    {
      OtherChain(buckets[c], c, hash, entries, None, pid, entries[pid := e], Some(pid));
    }
    assert ChainOk(buckets[b], b, hash, entries, None);
    forall p | p in entries[pid := e] && hash(p) == b
      ensures OnChain(chain, p)
    {
      if p == pid {
        assert chain[0].pid == pid;
      } else {
        var j :| 0 <= j < |buckets[b]| && buckets[b][j].pid == p;
        assert chain[j + 1].pid == p;
      }
    }
  }

  lemma {:induction false} DropChain(buckets: seq<Chain>, hash: Hash, entries: map<Pid, ProcessEntry>, b: nat, i: nat)
    requires ChainsOk(buckets, hash, entries, None) && b < TABLE_SIZE && i < |buckets[b]|
    ensures ChainsOk(buckets[b := buckets[b][..i] + buckets[b][i + 1..]], hash, entries - {buckets[b][i].pid}, None)
  {
    var pid := buckets[b][i].pid;
    var chain := buckets[b][..i] + buckets[b][i + 1..];
    var after := buckets[b := chain];
    assert ChainOk(buckets[b], b, hash, entries, None);
    DropOne(buckets[b], b, hash, entries, i);
    forall c | 0 <= c < TABLE_SIZE && c != b
      ensures ChainOk(after[c], c, hash, entries - {pid}, None)
    {
      OtherChain(buckets[c], c, hash, entries, None, pid, entries - {pid}, None);
    }
  }

  lemma {:induction false} DropOne(chain: Chain, b: nat, hash: Hash, entries: map<Pid, ProcessEntry>, i: nat)
    requires ChainOk(chain, b, hash, entries, None) && i < |chain|
    ensures ChainOk(chain[..i] + chain[i + 1..], b, hash, entries - {chain[i].pid}, None)
  {
    var after := chain[..i] + chain[i + 1..];
    forall p | p in entries - {chain[i].pid} && hash(p) == b
      ensures OnChain(after, p)
    {
      var j :| 0 <= j < |chain| && chain[j].pid == p;
      assert after[if j > i then j - 1 else j].pid == p;
    }
  }

  /** The tracker's table, updated in place. */
  class ProcessTable {
    var buckets: seq<Chain>
    var counts: seq<nat>
    var activeEntries: nat
    var trackedReads: nat
    var blockedWrites: nat
    /** The entries by process id. */
    ghost var entries: map<Pid, ProcessEntry>

    /** Chains, counts and the map agree; an operation may hold one entry. */
    ghost predicate Holding(held: Option<Pid>)
      reads this
    {
      && ChainsOk(buckets, HashPid, entries, held) && activeEntries == |entries|
      && |counts| == TABLE_SIZE && forall b :: 0 <= b < TABLE_SIZE ==> counts[b] == |buckets[b]|
    }

    ghost predicate Valid()
      reads this
    {
      Holding(None)
    }

    ghost function State(): Tracker
      reads this
    {
      Tracker(entries, trackedReads, blockedWrites)
    }

    constructor ()
      ensures Valid() && State() == EMPTY
    {
      buckets, counts := seq(TABLE_SIZE, _ => []), seq(TABLE_SIZE, _ => 0);
      activeEntries, trackedReads, blockedWrites := 0, 0, 0;
      entries := map[];
    }

    /** The walk along the process's chain. */
    method FindOnChain(pid: Pid) returns (found: bool, i: nat)
      requires Valid()
      ensures found <==> pid in entries
      ensures found ==> i < |buckets[HashPid(pid)]| && buckets[HashPid(pid)][i] == Chained(pid, 0, entries[pid])
    {
      found, i := Walk(buckets[HashPid(pid)], pid);
      assert ChainOk(buckets[HashPid(pid)], HashPid(pid), HashPid, entries, None);
    }

    static method Walk(chain: Chain, pid: Pid) returns (found: bool, i: nat)
      ensures found <==> OnChain(chain, pid)
      ensures found ==> i < |chain| && chain[i].pid == pid
    {
      i := 0;
      while i < |chain|
        invariant i <= |chain| && forall j :: 0 <= j < i ==> chain[j].pid != pid
      {
        if chain[i].pid == pid {
          return true, i;
        }
        i := i + 1;
      }
      return false, i;
    }

    /** Find the entry of a process or make one, and take a reference to it. */
    method FindOrCreate(pid: Pid, create: bool, poolOk: bool, now: nat) returns (found: bool, i: nat)
      requires Valid()
      modifies this
      ensures found <==> old(pid in entries) || (create && poolOk)
      ensures !found ==> Valid() && State() == old(State())
      ensures found ==>
        && Holding(Some(pid)) && i < |buckets[HashPid(pid)]|
        && State() == old(State()).(entries := old(entries)[pid := EntryFor(old(State()), pid, now)])
        && buckets[HashPid(pid)][i] == Chained(pid, 1, entries[pid])
    {
      found, i := FindOnChain(pid);
      if found {
        Hold(HashPid(pid), i);
        return;
      }
      if !create || !poolOk {
        return;
      }
      Push(HashPid(pid), pid, ProcessEntry(0, 0, 0, now, []));
      return true, 0;
    }

    /** Take a reference to the `i`-th entry of a chain. */
    method Hold(b: nat, i: nat)
      requires Valid() && b < TABLE_SIZE && i < |buckets[b]|
      modifies `buckets
      ensures Holding(Some(old(buckets)[b][i].pid)) && |buckets[b]| == |old(buckets)[b]|
      ensures buckets[b][i] == old(buckets)[b][i].(refCount := 1)
    {
      var c := buckets[b][i];
      assert ChainOk(buckets[b], b, HashPid, entries, None);
      RewriteChain(buckets, HashPid, entries, None, b, i, c.entry, Some(c.pid));
      assert entries[c.pid := c.entry] == entries;
      buckets := buckets[b := buckets[b][i := c.(refCount := c.refCount + 1)]];
    }

    /** Chain a new entry at the head, with one reference. */
    method Push(b: nat, pid: Pid, e: ProcessEntry)
      requires Valid() && b == HashPid(pid) && pid !in entries
      modifies `buckets, `counts, `activeEntries, `entries
      ensures Holding(Some(pid)) && entries == old(entries)[pid := e]
      ensures |buckets[b]| > 0 && buckets[b][0] == Chained(pid, 1, e)
    {
      PushChain(buckets, HashPid, entries, pid, e);
      PushSize(entries, pid, e);
      buckets, counts := buckets[b := [Chained(pid, 1, e)] + buckets[b]], counts[b := counts[b] + 1];
      activeEntries := activeEntries + 1;
      entries := entries[pid := e];
    }

    /** Store what an operation made of the entry it holds, and give the reference back. */
    method Release(pid: Pid, i: nat, e: ProcessEntry)
      requires Holding(Some(pid)) && i < |buckets[HashPid(pid)]| && buckets[HashPid(pid)][i].pid == pid
      modifies this
      ensures Valid() && State() == old(State()).(entries := old(entries)[pid := e])
    {
      var b := HashPid(pid);
      assert ChainOk(buckets[b], b, HashPid, entries, Some(pid));
      RewriteChain(buckets, HashPid, entries, Some(pid), b, i, e, None);
      assert entries[pid := e].Keys == entries.Keys;
      buckets := buckets[b := buckets[b][i := Chained(pid, buckets[b][i].refCount - 1, e)]];
      entries := entries[pid := e];
    }

    method TrackProtectedRead(pid: Pid, f: FileId, c: U32, poolOk: bool, now: nat) returns (ok: bool)
      requires Valid()
      modifies this
      ensures ok <==> old(pid in entries) || poolOk
      ensures Valid() && State() == TrackStep(old(State()), pid, f, c, poolOk, now)
    {
      var i;
      ok, i := FindOrCreate(pid, true, poolOk, now);
      if !ok {
        return;
      }
      var found := buckets[HashPid(pid)][i].entry;
      var e := found.(lastRead := now, highest := Higher(c, found.highest));
      var files := AddFile(e.files, f);
      e := e.(files := files, activeReads := e.activeReads + 1);
      assert e == Tracked(found, f, c, now);
      trackedReads := trackedReads + 1;
      Release(pid, i, e);
      assert entries == old(entries)[pid := e];
    }

    /** Remember the file unless it is already there or the sixteen places are taken. */
    static method AddFile(files: seq<FileId>, f: FileId) returns (r: seq<FileId>)
      ensures r == WithFile(files, f)
    {
      r := files;
      if |files| < MAX_FILES {
        var i := 0;
        while i < |files| && files[i] != f
          invariant i <= |files| && f !in files[..i]
        {
          i := i + 1;
        }
        if i == |files| {
          assert files[..i] == files;
          r := files + [f];
        }
      }
    }

    method UntrackProtectedFile(pid: Pid, f: FileId)
      requires Valid()
      modifies this
      ensures Valid() && State() == UntrackStep(old(State()), pid, f)
    {
      var found, i := FindOrCreate(pid, false, false, 0);
      if !found {
        return;
      }
      var held := buckets[HashPid(pid)][i].entry;
      var active := if held.activeReads > 0 then held.activeReads - 1 else 0;
      var files := ShiftOut(held.files, f);
      var e := held.(activeReads := active, files := files);
      assert e == Untracked(held, f);
      Release(pid, i, e);
      assert entries == old(entries)[pid := e];
    }

    /** Find the file, shift the remaining ones down over it and drop the last place. */
    static method ShiftOut(files: seq<FileId>, f: FileId) returns (r: seq<FileId>)
      ensures r == Without(files, f)
    {
      r := files;
      var i := 0;
      while i < |r| && r[i] != f
        invariant i <= |r| && f !in r[..i]
      {
        i := i + 1;
      }
      WithoutAt(files, f, i);
      if i < |r| {
        var j := i + 1;
        while j < |r|
          invariant i < j <= |r| == |files|
          invariant forall k :: 0 <= k < |files| && (k < i || j <= k) ==> r[k] == files[k]
          invariant forall k :: i <= k < j - 1 ==> r[k] == files[k + 1]
        {
          r := r[j - 1 := r[j]];
          j := j + 1;
        }
        r := r[..|r| - 1];
      }
    }

    method ShouldBlockProcessWrite(pid: Pid, now: nat) returns (block: bool, classification: U32)
      requires Valid()
      modifies this
      ensures block <==> ShouldBlock(old(State()), pid, now)
      ensures block ==> classification == old(entries)[pid].highest
      ensures Valid() && State() == CheckStep(old(State()), pid, now)
    {
      block, classification := false, 0x1;
      var found, i := FindOrCreate(pid, false, false, 0);
      if !found {
        return;
      }
      var e := buckets[HashPid(pid)][i].entry;
      if Elapsed(now, e.lastRead) < TRACKING_WINDOW && ProtectedClass(e.highest) {
        block, classification := true, e.highest;
        blockedWrites := blockedWrites + 1;
      }
      Release(pid, i, e);
      assert entries == old(entries);
    }

    /** Unlink the entry of a process that ends, and free it. */
    method ProcessExit(pid: Pid)
      requires Valid()
      modifies this
      ensures Valid() && State() == ExitStep(old(State()), pid)
    {
      var found, i := FindOnChain(pid);
      if !found {
        assert entries - {pid} == entries;
        return;
      }
      Unlink(HashPid(pid), i);
    }

    /** Take the `i`-th entry of a chain off it. */
    method Unlink(b: nat, i: nat)
      requires Valid() && b < TABLE_SIZE && i < |buckets[b]|
      modifies `buckets, `counts, `activeEntries, `entries
      ensures Valid() && entries == old(entries) - {old(buckets)[b][i].pid}
    {
      ghost var pid := buckets[b][i].pid;
      assert ChainOk(buckets[b], b, HashPid, entries, None);
      DropChain(buckets, HashPid, entries, b, i);
      DropSize(entries, pid);
      buckets, counts := buckets[b := buckets[b][..i] + buckets[b][i + 1..]], counts[b := counts[b] - 1];
      activeEntries := activeEntries - 1;
      entries := entries - {pid};
    }
  }

  lemma {:induction false} PushSize(entries: map<Pid, ProcessEntry>, pid: Pid, e: ProcessEntry)
    requires pid !in entries
    ensures |entries[pid := e]| == |entries| + 1
  {
    assert entries[pid := e].Keys == entries.Keys + {pid};
  }

  lemma {:induction false} DropSize(entries: map<Pid, ProcessEntry>, pid: Pid)
    requires pid in entries
    ensures |entries - {pid}| == |entries| - 1
  {
  }

  lemma {:induction false} WithoutAt(files: seq<FileId>, f: FileId, i: nat)
    requires i <= |files| && f !in files[..i] && (i < |files| ==> files[i] == f)
    ensures Without(files, f) == if i < |files| then files[..i] + files[i + 1..] else files
  {
    if i > 0 {
      var rest := files[1..];
      assert files[0] == files[..i][0] && rest[..i - 1] == files[..i][1..];
      WithoutAt(rest, f, i - 1);
      CutBehind(files, i);
    }
  }

  lemma {:induction false} CutBehind(files: seq<FileId>, i: nat)
    requires 0 < i <= |files|
    ensures var rest := files[1..];
      (if i < |files| then files[..i] + files[i + 1..] else files)
      == [files[0]] + (if i - 1 < |rest| then rest[..i - 1] + rest[i..] else rest)
  {
  }
}
