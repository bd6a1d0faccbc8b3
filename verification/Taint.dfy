/** Process taint over whole runs of the driver: what the tracker knows about a process is what
    the history of its reads since it started says. */
module Taint {
  import opened PolicyTypes
  import opened ProcessTracker
  import opened Driver
  import opened DriverHistory

  /** A user-mode read by `pid` that returned data. */
  ghost predicate UserRead(t: Timed, pid: Pid) {
    && t.event.Read? && t.event.bytesRead > 0
    && var q := t.event.request;
      q.pid == pid && !q.kernelMode && !q.paging && q.id.Some?
  }

  /** Such a read of a file whose policy, last inserted and alive, has a protected class. */
  ghost predicate ProtectedRead(start: DriverState, run: seq<Timed>, t: Timed, pid: Pid) {
    UserRead(t, pid) && SeenProtected(start, run, t.event.request.id.value, t.now)
  }

  /** The same by what the cache hands out. */
  ghost predicate CachedRead(d: DriverState, t: Timed, pid: Pid) {
    UserRead(t, pid) && CachedProtected(d.cache, t.event.request.id.value, t.now)
  }

  lemma {:induction false} ReadIsSeen(start: DriverState, run: seq<Timed>, t: Timed, pid: Pid)
    requires start.cache.order == []
    ensures CachedRead(After(start, run), t, pid) <==> ProtectedRead(start, run, t, pid)
    ensures CachedRead(After(start, run), t, pid) ==>
      && Seen(start, run, t.event.request.id.value, t.now).Some?
      && Cached(After(start, run).cache, t.event.request.id.value, t.now).value.classification
           == Seen(start, run, t.event.request.id.value, t.now).value.classification
  {
    if UserRead(t, pid) {
      CachedIsSeen(start, run, t.event.request.id.value, t.now);
    }
  }

  /** The time of a process's latest tracked protected read since it started. A first read is
      tracked when an entry could be allocated; later ones always are. */
  ghost function LatestRead(start: DriverState, run: seq<Timed>, pid: Pid): Option<nat> {
    if run == [] then None
    else
      var before, last := run[..|run| - 1], run[|run| - 1];
      var earlier := LatestRead(start, before, pid);
      if last.event == ProcessExit(pid) then None
      else if ProtectedRead(start, before, last, pid) && (last.event.entryOk || earlier.Some?) then
        Some(last.now)
      else earlier
  }

  /** The classifications of those tracked reads. */
  ghost function ReadClasses(start: DriverState, run: seq<Timed>, pid: Pid): set<U32> {
    if run == [] then {}
    else
      var before, last := run[..|run| - 1], run[|run| - 1];
      if last.event == ProcessExit(pid) then {}
      else if ProtectedRead(start, before, last, pid)
              && (last.event.entryOk || LatestRead(start, before, pid).Some?) then
        ReadClasses(start, before, pid)
        + {Seen(start, before, last.event.request.id.value, last.now).value.classification}
      else ReadClasses(start, before, pid)
  }

  ghost predicate IsMax(c: U32, cs: set<U32>) {
    c in cs && forall d :: d in cs ==> d <= c
  }

  /** A step of the driver seen by the tracker entry of one process. */
  lemma {:induction false} TrackerStep(d: DriverState, t: Timed, pid: Pid)
    ensures var e, e' := d.tracker.entries, Next(d, t).tracker.entries;
      if t.event == ProcessExit(pid) then pid !in e'
      else if CachedRead(d, t, pid) && (t.event.entryOk || pid in e) then
        NewlyRead(e, e', pid, Cached(d.cache, t.event.request.id.value, t.now).value.classification, t.now)
      else SameTaint(e, e', pid)
  {
    match t.event {
      case SetInformation(q, info) => SetInformationTaint(d, q, info, t.now);
      case Write(q, volume) => WriteTaint(d, q, volume, t.now);
      case Cleanup(q) => CleanupTaint(d, q, t.now, pid);
      case _ =>
    }
  }

  lemma {:induction false} SetInformationTaint(d: DriverState, q: Request, info: InfoClass, now: nat)
    ensures PreSetInformation(d, q, info, now).0.tracker == d.tracker
  {
  }

  lemma {:induction false} WriteTaint(d: DriverState, q: Request, volume: Option<U32>, now: nat)
    ensures PreWrite(d, q, volume, now).0.tracker.entries == d.tracker.entries
  {
  }

  lemma {:induction false} CleanupTaint(d: DriverState, q: Request, now: nat, pid: Pid)
    ensures SameTaint(d.tracker.entries, PreCleanup(d, q, now).tracker.entries, pid)
  {
  }

  ghost predicate NewlyRead(e: map<Pid, ProcessEntry>, e': map<Pid, ProcessEntry>, pid: Pid, c: U32, now: nat) {
    && pid in e' && e'[pid].lastRead == now
    && e'[pid].highest == Higher(c, if pid in e then e[pid].highest else 0)
  }

  ghost predicate SameTaint(e: map<Pid, ProcessEntry>, e': map<Pid, ProcessEntry>, pid: Pid) {
    && (pid in e' <==> pid in e)
    && (pid in e ==> e'[pid].lastRead == e[pid].lastRead && e'[pid].highest == e[pid].highest)
  }

  lemma {:induction false} MaxGrows(c: U32, h: U32, cs: set<U32>)
    requires IsMax(h, cs) && ProtectedClass(h) && ProtectedClass(c)
    ensures IsMax(Higher(c, h), cs + {c}) && ProtectedClass(Higher(c, h))
  {
  }

  /** The tracker entry of a process is its read history. */
  lemma {:induction false} TrackerIsHistory(start: DriverState, run: seq<Timed>, pid: Pid)
    requires start.tracker == EMPTY && start.cache.order == []
    ensures var d := After(start, run);
      && (pid in d.tracker.entries <==> LatestRead(start, run, pid).Some?)
      && (pid in d.tracker.entries ==>
            && LatestRead(start, run, pid) == Some(d.tracker.entries[pid].lastRead)
            && IsMax(d.tracker.entries[pid].highest, ReadClasses(start, run, pid))
            && ProtectedClass(d.tracker.entries[pid].highest))
  {
    if run != [] {
      var before, last := run[..|run| - 1], run[|run| - 1];
      var d := After(start, before);
      TrackerIsHistory(start, before, pid);
      TrackerStep(d, last, pid);
      ReadIsSeen(start, before, last, pid);
      if last.event != ProcessExit(pid) && ProtectedRead(start, before, last, pid)
         && (last.event.entryOk || pid in d.tracker.entries) {
        var c := Cached(d.cache, last.event.request.id.value, last.now).value.classification;
        if pid in d.tracker.entries {
          MaxGrows(c, d.tracker.entries[pid].highest, ReadClasses(start, before, pid));
        } else {
          NoClasses(start, before, pid);
          assert ReadClasses(start, run, pid) == {c};
          assert Higher(c, 0) == c;
        }
      }
    }
  }

  lemma {:induction false} NoClasses(start: DriverState, run: seq<Timed>, pid: Pid)
    requires LatestRead(start, run, pid).None?
    ensures ReadClasses(start, run, pid) == {}
  {
    if run != [] && run[|run| - 1].event != ProcessExit(pid) {
      NoClasses(start, run[..|run| - 1], pid);
    }
  }

  lemma {:induction false} LatestReadBounds(start: DriverState, run: seq<Timed>, pid: Pid)
    requires LatestRead(start, run, pid).Some?
    ensures exists i :: 0 <= i < |run| && run[i].now == LatestRead(start, run, pid).value
  {
    var before := run[..|run| - 1];
    if LatestRead(start, run, pid) == Some(run[|run| - 1].now) {
    } else {
      LatestReadBounds(start, before, pid);
      var i :| 0 <= i < |before| && before[i].now == LatestRead(start, before, pid).value;
      assert run[i] == before[i];
    }
  }

  /** A recent tracked protected read: less than five minutes of 600,000,000 ticks ago. */
  ghost predicate Tainted(start: DriverState, run: seq<Timed>, pid: Pid, now: nat) {
    var latest := LatestRead(start, run, pid);
    latest.Some? && now - latest.value < 3_000_000_000
  }

  /** A user-mode write to removable media is refused if and only if its process is tainted or
      the live policy of its destination file has a protected class. Cleanup events do not occur in the
      definition of taint: closing the file lifts nothing. */
  lemma {:induction false} UsbWriteRefusedIff(start: DriverState, run: seq<Timed>, q: Request, volume: U32, now: nat)
    requires start.tracker == EMPTY && start.cache.order == [] && Monotone(run, 0)
    requires now < 0x1_0000_0000_0000_0000 && forall i :: 0 <= i < |run| ==> run[i].now <= now
    requires !q.kernelMode && !q.paging && (Bit(volume, 0) || Bit(volume, 1))
    ensures var d := After(start, run);
      && (ShouldBlock(d.tracker, q.pid, now) <==> Tainted(start, run, q.pid, now))
      && (PreWrite(d, q, Some(volume), now).1.Denied? <==>
            Tainted(start, run, q.pid, now) || (q.id.Some? && SeenProtected(start, run, q.id.value, now)))
  {
    BlockedIffTainted(start, run, q.pid, now);
    VolumeBits(volume);
    if q.id.Some? {
      CachedIsSeen(start, run, q.id.value, now);
    }
    WriteVerdict(After(start, run), q, volume, now);
  }

  lemma {:induction false} BlockedIffTainted(start: DriverState, run: seq<Timed>, pid: Pid, now: nat)
    requires start.tracker == EMPTY && start.cache.order == [] && now < 0x1_0000_0000_0000_0000
    requires forall i :: 0 <= i < |run| ==> run[i].now <= now
    ensures ShouldBlock(After(start, run).tracker, pid, now) <==> Tainted(start, run, pid, now)
  {
    TrackerIsHistory(start, run, pid);
    if LatestRead(start, run, pid).Some? {
      LatestReadBounds(start, run, pid);
      NoWrap(now, LatestRead(start, run, pid).value);
    }
  }

  lemma {:induction false} NoWrap(now: nat, earlier: nat)
    requires earlier <= now < 0x1_0000_0000_0000_0000
    ensures Elapsed(now, earlier) == now - earlier
  {
  }

  lemma {:induction false} WriteVerdict(d: DriverState, q: Request, volume: U32, now: nat)
    requires !q.kernelMode && !q.paging && RemovableVolume(volume)
    ensures PreWrite(d, q, Some(volume), now).1.Denied? <==>
      ShouldBlock(d.tracker, q.pid, now) || (q.id.Some? && CachedProtected(d.cache, q.id.value, now))
  {
  }
}
