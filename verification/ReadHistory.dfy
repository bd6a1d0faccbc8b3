/** The rest of what the process table records, told from the history of a run: which files a process
    has open, how many reads are active, and the two counters. */
module ReadHistory {
  import opened PolicyTypes
  import opened ProcessTracker
  import opened Driver
  import opened DriverHistory
  import opened Taint

  // ---- Events of a process ----

  /** A user-mode close by `pid` of an identified file. */
  ghost predicate UserClose(t: Timed, pid: Pid) {
    && t.event.Cleanup?
    && var q := t.event.request;
      q.pid == pid && !q.kernelMode && q.id.Some?
  }

  /** Such a close of a file whose policy, last inserted and alive, has a protected class. */
  ghost predicate ProtectedClose(start: DriverState, run: seq<Timed>, t: Timed, pid: Pid) {
    UserClose(t, pid) && SeenProtected(start, run, t.event.request.id.value, t.now)
  }

  /** A protected read for which there is an entry or one can be had. */
  ghost predicate TrackedRead(start: DriverState, run: seq<Timed>, t: Timed, pid: Pid) {
    ProtectedRead(start, run, t, pid) && (t.event.entryOk || LatestRead(start, run, pid).Some?)
  }

  ghost function FileOf(t: Timed): FileId
    requires (t.event.Read? || t.event.Cleanup?) && t.event.request.id.Some?
  {
    t.event.request.id.value
  }

  // ---- What the entry should hold ----

  /** A tracked read opens a file as long as there are fewer than sixteen, a close closes it, and an
      exit all. */
  ghost function NextOpen(open: set<FileId>, pid: Pid, t: Timed, tracked: bool, closed: bool): set<FileId>
    requires tracked ==> t.event.Read? && t.event.request.id.Some?
    requires closed ==> t.event.Cleanup? && t.event.request.id.Some?
  {
    if t.event == ProcessExit(pid) then {}
    else if tracked then if |open| < 16 then open + {FileOf(t)} else open
    else if closed then open - {FileOf(t)}
    else open
  }

  /** The files a process has open after a run. */
  ghost function OpenFiles(start: DriverState, run: seq<Timed>, pid: Pid): set<FileId> {
    if run == [] then {}
    else
      var before, last := run[..|run| - 1], run[|run| - 1];
      NextOpen(OpenFiles(start, before, pid), pid, last, TrackedRead(start, before, last, pid),
               ProtectedClose(start, before, last, pid))
  }

  /** Tracked reads less closes since the process started, and the lowest that has been. Closes of a
      process without a tracked read do not count. */
  datatype Balance = Balance(net: int, low: int)

  ghost function NextBalance(b: Balance, pid: Pid, t: Timed, tracked: bool, closed: bool): Balance {
    if t.event == ProcessExit(pid) then Balance(0, 0)
    else if tracked then b.(net := b.net + 1)
    else if closed then Balance(b.net - 1, if b.net - 1 < b.low then b.net - 1 else b.low)
    else b
  }

  ghost function BalanceOf(start: DriverState, run: seq<Timed>, pid: Pid): Balance {
    if run == [] then Balance(0, 0)
    else
      var before, last := run[..|run| - 1], run[|run| - 1];
      NextBalance(BalanceOf(start, before, pid), pid, last, TrackedRead(start, before, last, pid),
                  ProtectedClose(start, before, last, pid) && LatestRead(start, before, pid).Some?)
  }

  ghost predicate EntryFits(entries: map<Pid, ProcessEntry>, pid: Pid, open: set<FileId>, b: Balance) {
    && b.low <= 0 && b.low <= b.net
    && if pid in entries then
         var e := entries[pid];
         && (forall f :: f in e.files <==> f in open) && Distinct(e.files) && |e.files| <= 16
         && e.activeReads == b.net - b.low
       else open == {} && b == Balance(0, 0)
  }

  ghost predicate Distinct(files: seq<FileId>) {
    forall i, j :: 0 <= i < j < |files| ==> files[i] != files[j]
  }

  // ---- One event ----

  /** What one event does to the files and the active reads of a process. */
  ghost predicate EntryStep(e: map<Pid, ProcessEntry>, e': map<Pid, ProcessEntry>, pid: Pid, t: Timed,
                            tracked: bool, closed: bool) {
    if t.event == ProcessExit(pid) then pid !in e'
    else if tracked then
      && (t.event.Read? && t.event.request.id.Some? && pid in e')
      && e'[pid].files == WithFile(if pid in e then e[pid].files else [], FileOf(t))
      && e'[pid].activeReads == (if pid in e then e[pid].activeReads else 0) + 1
    else if closed && pid in e then
      && (t.event.Cleanup? && t.event.request.id.Some? && pid in e')
      && e'[pid].files == Without(e[pid].files, FileOf(t))
      && e'[pid].activeReads == if e[pid].activeReads > 0 then e[pid].activeReads - 1 else 0
    else
      && (pid in e' <==> pid in e)
      && (pid in e ==> e'[pid].files == e[pid].files && e'[pid].activeReads == e[pid].activeReads)
  }

  ghost predicate CachedClose(d: DriverState, t: Timed, pid: Pid) {
    UserClose(t, pid) && CachedProtected(d.cache, t.event.request.id.value, t.now)
  }

  lemma {:induction false} EntryStepped(d: DriverState, t: Timed, pid: Pid)
    ensures EntryStep(d.tracker.entries, Next(d, t).tracker.entries, pid, t,
                      CachedRead(d, t, pid) && (t.event.entryOk || pid in d.tracker.entries), CachedClose(d, t, pid))
  {
    match t.event {
      case SetInformation(q, info) => SetInformationTaint(d, q, info, t.now);
      case Write(q, volume) => WriteTaint(d, q, volume, t.now);
      case _ =>
    }
  }

  lemma {:induction false} DistinctSize(files: seq<FileId>, open: set<FileId>)
    requires Distinct(files) && forall f :: f in files <==> f in open
    ensures |open| == |files|
    decreases |files|
  {
    if files == [] {
      assert open == {};
    } else {
      var n := |files| - 1;
      DistinctSize(files[..n], open - {files[n]});
      assert open == open - {files[n]} + {files[n]};
    }
  }

  lemma {:induction false} WithFileIs(files: seq<FileId>, f: FileId)
    requires Distinct(files) && |files| <= 16
    ensures var r := WithFile(files, f);
      && Distinct(r) && |r| <= 16
      && forall x :: x in r <==> x in files || (x == f && |files| < 16)
  {
  }

  lemma {:induction false} WithoutIs(files: seq<FileId>, f: FileId)
    requires Distinct(files)
    ensures var r := Without(files, f); Distinct(r) && forall x :: x in r <==> x in files && x != f
    decreases |files|
  {
    if files != [] {
      var first, tail := files[0], files[1..];
      assert files == [first] + tail && first !in tail;
      WithoutIs(tail, f);
      DistinctCons(first, Without(tail, f));
    }
  }

  lemma {:induction false} DistinctCons(f: FileId, files: seq<FileId>)
    requires Distinct(files)
    ensures f !in files ==> Distinct([f] + files)
  {
  }

  lemma {:induction false} StepFits(e: map<Pid, ProcessEntry>, e': map<Pid, ProcessEntry>, pid: Pid, t: Timed,
                                    tracked: bool, closed: bool, open: set<FileId>, b: Balance)
    requires EntryFits(e, pid, open, b) && EntryStep(e, e', pid, t, tracked, closed)
    requires tracked ==> t.event.Read? && t.event.request.id.Some?
    requires closed ==> t.event.Cleanup? && t.event.request.id.Some?
    ensures EntryFits(e', pid, NextOpen(open, pid, t, tracked, closed),
                      NextBalance(b, pid, t, tracked, closed && pid in e))
  {
    if pid in e {
      DistinctSize(e[pid].files, open);
      if tracked {
        WithFileIs(e[pid].files, FileOf(t));
      } else if closed {
        WithoutIs(e[pid].files, FileOf(t));
      }
    } else if tracked {
      WithFileIs([], FileOf(t));
    }
  }

  // ---- Whole runs ----

  lemma {:induction false} CloseIsSeen(start: DriverState, run: seq<Timed>, t: Timed, pid: Pid)
    requires start.cache.order == []
    ensures CachedClose(After(start, run), t, pid) <==> ProtectedClose(start, run, t, pid)
  {
    if UserClose(t, pid) {
      CachedIsSeen(start, run, t.event.request.id.value, t.now);
    }
  }

  /** In every reachable state the entry of a process remembers exactly the files it has open, at most
      sixteen and each once, and its active reads are the reads less the closes, never below zero. */
  lemma {:induction false} EntryIsHistory(start: DriverState, run: seq<Timed>, pid: Pid)
    requires start.tracker == EMPTY && start.cache.order == []
    ensures EntryFits(After(start, run).tracker.entries, pid, OpenFiles(start, run, pid), BalanceOf(start, run, pid))
  {
    if run != [] {
      var before, last := run[..|run| - 1], run[|run| - 1];
      var d := After(start, before);
      EntryIsHistory(start, before, pid);
      TrackerIsHistory(start, before, pid);
      ReadIsSeen(start, before, last, pid);
      CloseIsSeen(start, before, last, pid);
      EntryStepped(d, last, pid);
      StepFits(d.tracker.entries, Next(d, last).tracker.entries, pid, last, TrackedRead(start, before, last, pid),
               ProtectedClose(start, before, last, pid), OpenFiles(start, before, pid), BalanceOf(start, before, pid));
    }
  }

  /** The time of a process's first tracked read since it started. */
  ghost function FirstRead(start: DriverState, run: seq<Timed>, pid: Pid): Option<nat> {
    if run == [] then None
    else
      var before, last := run[..|run| - 1], run[|run| - 1];
      var earlier := FirstRead(start, before, pid);
      if last.event == ProcessExit(pid) then None
      else if TrackedRead(start, before, last, pid) && earlier.None? then Some(last.now)
      else earlier
  }

  lemma {:induction false} FirstStep(d: DriverState, t: Timed, pid: Pid)
    ensures var e, e' := d.tracker.entries, Next(d, t).tracker.entries;
      pid in e' ==>
        if pid in e then e'[pid].firstRead == e[pid].firstRead
        else CachedRead(d, t, pid) && t.event.entryOk && e'[pid].firstRead == t.now
  {
    match t.event {
      case SetInformation(q, info) => SetInformationTaint(d, q, info, t.now);
      case Write(q, volume) => WriteTaint(d, q, volume, t.now);
      case _ =>
    }
  }

  /** And it carries the time of its first tracked read. */
  lemma {:induction false} FirstReadIsHistory(start: DriverState, run: seq<Timed>, pid: Pid)
    requires start.tracker == EMPTY && start.cache.order == []
    ensures var e := After(start, run).tracker.entries;
      FirstRead(start, run, pid) == if pid in e then Some(e[pid].firstRead) else None
  {
    if run != [] {
      var before, last := run[..|run| - 1], run[|run| - 1];
      FirstReadIsHistory(start, before, pid);
      TrackerIsHistory(start, before, pid);
      TrackerIsHistory(start, run, pid);
      ReadIsSeen(start, before, last, pid);
      FirstStep(After(start, before), last, pid);
    }
  }

  /** Tracked reads of any process, and user-mode writes to removable media by a tainted one. */
  datatype Tally = Tally(tracked: nat, blocked: nat)

  ghost function TallyOf(start: DriverState, run: seq<Timed>): Tally {
    if run == [] then Tally(0, 0)
    else
      var before, last := run[..|run| - 1], run[|run| - 1];
      var n := TallyOf(start, before);
      match last.event
      case Read(q, _, _) => if TrackedRead(start, before, last, q.pid) then n.(tracked := n.tracked + 1) else n
      case Write(q, volume) =>
        if !q.kernelMode && !q.paging && volume.Some? && (Bit(volume.value, 0) || Bit(volume.value, 1))
           && Tainted(start, before, q.pid, last.now) then n.(blocked := n.blocked + 1) else n
      case _ => n
  }

  lemma {:induction false} ReadTally(d: DriverState, t: Timed)
    requires t.event.Read?
    ensures var pid, n := t.event.request.pid, Next(d, t).tracker;
      && n.blockedWrites == d.tracker.blockedWrites
      && n.trackedReads == d.tracker.trackedReads
           + if CachedRead(d, t, pid) && (t.event.entryOk || pid in d.tracker.entries) then 1 else 0
  {
  }

  lemma {:induction false} WriteTally(d: DriverState, q: Request, volume: Option<U32>, now: nat)
    ensures var n := PreWrite(d, q, volume, now).0.tracker;
      && n.trackedReads == d.tracker.trackedReads
      && n.blockedWrites == d.tracker.blockedWrites
           + if !q.kernelMode && !q.paging && volume.Some? && RemovableVolume(volume.value)
                && ShouldBlock(d.tracker, q.pid, now) then 1 else 0
  {
  }

  lemma {:induction false} OtherTally(d: DriverState, t: Timed)
    requires !t.event.Read? && !t.event.Write?
    ensures var n := Next(d, t).tracker;
      n.trackedReads == d.tracker.trackedReads && n.blockedWrites == d.tracker.blockedWrites
  {
    match t.event {
      case SetInformation(q, info) => SetInformationTaint(d, q, info, t.now);
      case _ =>
    }
  }

  /** The two counters of the table are those of the run. */
  lemma {:induction false} TallyIsHistory(start: DriverState, run: seq<Timed>)
    requires start.tracker == EMPTY && start.cache.order == [] && Monotone(run, 0)
    ensures var n := After(start, run).tracker; Tally(n.trackedReads, n.blockedWrites) == TallyOf(start, run)
  {
    if run != [] {
      var before, last := run[..|run| - 1], run[|run| - 1];
      var d := After(start, before);
      TallyIsHistory(start, before);
      match last.event {
        case Read(q, _, _) =>
          TrackerIsHistory(start, before, q.pid);
          ReadIsSeen(start, before, last, q.pid);
          ReadTally(d, last);
        case Write(q, volume) =>
          BlockedIffTainted(start, before, q.pid, last.now);
          if volume.Some? {
            VolumeBits(volume.value);
          }
          WriteTally(d, q, volume, last.now);
        case _ => OtherTally(d, last);
      }
    }
  }
}
