/** The minifilter's callbacks as they work on the driver's globals: the policy cache, the process
    table, the event queue and the statistics. Each is proved to be a step of `Driver`. */
module Minifilter {
  import opened PolicyTypes
  import opened CacheModel
  import opened ProcessTracker
  import opened NotifyQueue
  import opened Driver
  import opened DriverRuns
  import Cache = PolicyCache

  /** The state after the driver has been loaded. */
  ghost function Loaded(config: Config, maxEntries: nat, ttlSec: nat): DriverState {
    DriverState(config, Init(maxEntries, ttlSec), EMPTY, [], 0, 0, 0)
  }

  class Globals {
    var config: Config
    const cache: Cache.PolicyCache
    const processes: ProcessTable
    const events: EventQueue
    var blocked: nat
    var scanned: nat

    /** Cache, table and queue are valid and share nothing, and between two callbacks the worker
        waits. The quantifiers keep the parts folded in callbacks that only call others. */
    ghost predicate Valid()
      reads this, cache, cache.lists, cache.lists.repr, processes, events
    {
      && this !in cache.lists.repr && processes !in cache.lists.repr && events !in cache.lists.repr
      && cache !in cache.lists.repr && !events.draining && events.state.local == []
      && (forall c :: c == cache ==> c.Valid())
      && (forall p :: p == processes ==> p.Valid())
      && (forall q :: q == events ==> q.Valid())
    }

    ghost function State(): DriverState
      reads this, cache, processes, events
    {
      DriverState(config, cache.State(), processes.State(), events.state.enqueued, events.state.unallocated,
                  blocked, scanned)
    }

    constructor (config: Config, maxEntries: nat, ttlSec: nat, outcomes: Outcomes)
      ensures Valid() && State() == Loaded(config, maxEntries, ttlSec) && events.outcomes == outcomes
      ensures fresh(cache) && fresh(cache.lists.repr) && fresh(processes) && fresh(events)
    {
      this.config := config;
      cache := new Cache.PolicyCache(maxEntries, ttlSec);
      processes := new ProcessTable();
      events := new EventQueue(outcomes);
      blocked, scanned := 0, 0;
    }

    method LookUp(id: FileId, now: nat) returns (policy: Option<Policy>)
      requires Valid()
      modifies cache, cache.lists.repr
      ensures fresh(cache.lists.repr - old(cache.lists.repr))
      ensures Valid() && State() == AfterLookup(old(State()), id, now)
      ensures policy == Cached(old(State()).cache, id, now)
    {
      var r := cache.LookupPolicy(id, now);
      policy := if r.Found? then Some(r.policy) else None;
    }

    /** Audit mode allows everything; a miss is refused only in fail-closed mode and only for
        operations that change data; a protected file by the kind of operation. */
    method IsOperationBlocked(id: FileId, irp: IrpMajor, volume: Option<U32>, now: nat) returns (verdict: Verdict)
      requires Valid()
      modifies cache, cache.lists.repr
      ensures fresh(cache.lists.repr - old(cache.lists.repr))
      ensures Valid() && (State(), verdict) == Driver.IsOperationBlocked(old(State()), id, irp, volume, now)
    {
      if config.audit {
        return Allowed;
      }
      var policy := LookUp(id, now);
      if policy.None? {
        return if config.failClosed && (irp.IrpWrite? || irp.IrpSetInformation?) then Denied else Allowed;
      }
      var c := policy.value.classification;
      if !ProtectedClass(c) {
        return Allowed;
      }
      match irp {
        case IrpWrite =>
          if volume.Some? {
            if RemovableVolume(volume.value) {
              return Denied;
            }
            if HasBit(volume.value, VOLUME_NETWORK) && HasBit(c, CLASS_RESTRICTED) {
              return Denied;
            }
          }
          return Allowed;
        case IrpSetInformation =>
          return if HasBit(policy.value.blockedActions, ACTION_BLOCK) || HasBit(c, CLASS_RESTRICTED)
                    || HasBit(c, CLASS_TOP_SECRET) then Denied else Allowed;
        case IrpOther => return Allowed;
      }
    }

    method QueueBlockEvent(q: Request, id: FileId, op: Operation, path: Option<seq<nat>>, now: nat)
      requires Valid()
      modifies cache, cache.lists.repr, events
      ensures fresh(cache.lists.repr - old(cache.lists.repr))
      ensures Valid() && State() == Driver.QueueBlockEvent(old(State()), q, id, op, path, now)
    {
      var classification := 0;
      if q.lookaside.Granted? {
        var policy := LookUp(id, now);
        classification := if policy.Some? then policy.value.classification else 0;
      }
      Report(BlockEvent(id, op, q.pid, classification, PathField(path)), q.lookaside);
    }

    method Report(event: BlockEvent, lookaside: Lookaside)
      requires Valid()
      modifies events
      ensures Valid() && State() == match lookaside
        case Granted => old(State()).(reported := old(State()).reported + [Record(true, event)])
        case Exhausted => old(State()).(unrecorded := old(State()).unrecorded + 1)
        case ShuttingDown => old(State())
    {
      OneArrival(event, lookaside);
      events.QueueBlockEvent(event, lookaside);
    }

    method Refuse(q: Request, id: FileId, op: Operation, path: Option<seq<nat>>, now: nat) returns (verdict: Verdict)
      requires Valid()
      modifies this, cache, cache.lists.repr, events
      ensures fresh(cache.lists.repr - old(cache.lists.repr))
      ensures Valid() && (State(), verdict) == Driver.Refuse(old(State()), q, id, op, path, now)
    {
      QueueBlockEvent(q, id, op, path, now);
      blocked := blocked + 1;
      return Denied;
    }

    method PreSetInformation(q: Request, info: InfoClass, now: nat) returns (verdict: Verdict)
      requires Valid()
      modifies this, cache, cache.lists.repr, events
      ensures fresh(cache.lists.repr - old(cache.lists.repr))
      ensures Valid() && (State(), verdict) == Driver.PreSetInformation(old(State()), q, info, now)
    {
      if q.kernelMode {
        return Allowed;
      }
      match info {
        case Disposition(delete) =>
          if delete != Some(true) || q.id.None? {
            return Allowed;
          }
          verdict := Decide(q, FileDelete, now);
        case Rename =>
          if q.id.None? {
            return Allowed;
          }
          verdict := Decide(q, FileRename, now);
        case EndOfFileOrAllocation =>
          if q.id.None? {
            return Allowed;
          }
          verdict := Resize(q, now);
        case OtherClass =>
          Scan();
          return Allowed;
      }
    }

    /** A delete or rename: the central policy decision. */
    method Decide(q: Request, op: Operation, now: nat) returns (verdict: Verdict)
      requires Valid() && q.id.Some?
      modifies this, cache, cache.lists.repr, events
      ensures fresh(cache.lists.repr - old(cache.lists.repr))
      ensures Valid() && (State(), verdict) == Driver.Decide(old(State()), q, op, now)
    {
      verdict := IsOperationBlocked(q.id.value, IrpSetInformation, None, now);
      if verdict.Denied? {
        verdict := Refuse(q, q.id.value, op, q.path, now);
      } else {
        Scan();
      }
    }

    /** Count an operation that was let through. */
    method Scan()
      requires Valid()
      modifies this`scanned
      ensures Valid() && State() == old(State()).(scanned := old(scanned) + 1)
    {
      scanned := scanned + 1;
    }

    /** A change of the file's size: refused only for files cached as protected. */
    method Resize(q: Request, now: nat) returns (verdict: Verdict)
      requires Valid() && q.id.Some?
      modifies this, cache, cache.lists.repr, events
      ensures fresh(cache.lists.repr - old(cache.lists.repr))
      ensures Valid() && (State(), verdict) == Driver.Resize(old(State()), q, now)
    {
      var policy := LookUp(q.id.value, now);
      if policy.Some? && ProtectedClass(policy.value.classification) {
        verdict := Refuse(q, q.id.value, FileWrite, q.path, now);
      } else {
        Scan();
        return Allowed;
      }
    }

    /** First the taint of the process, then the classification of the destination file. */
    method PreWrite(q: Request, volume: Option<U32>, now: nat) returns (verdict: Verdict)
      requires Valid()
      modifies this, cache, cache.lists.repr, processes, events
      ensures fresh(cache.lists.repr - old(cache.lists.repr))
      ensures Valid() && (State(), verdict) == Driver.PreWrite(old(State()), q, volume, now)
    {
      if q.kernelMode || q.paging || volume.None? || !RemovableVolume(volume.value) {
        return Allowed;
      }
      var tainted, _ := processes.ShouldBlockProcessWrite(q.pid, now);
      if tainted {
        verdict := Refuse(q, if q.id.Some? then q.id.value else FileId(0, 0), UsbWrite, None, now);
        return;
      }
      if q.id.None? {
        return Allowed;
      }
      verdict := CheckDestination(q, now);
    }

    method CheckDestination(q: Request, now: nat) returns (verdict: Verdict)
      requires Valid() && q.id.Some?
      modifies this, cache, cache.lists.repr, events
      ensures fresh(cache.lists.repr - old(cache.lists.repr))
      ensures Valid() && (State(), verdict) == Driver.CheckDestination(old(State()), q, now)
    {
      var policy := LookUp(q.id.value, now);
      if policy.Some? && ProtectedClass(policy.value.classification) {
        verdict := Refuse(q, q.id.value, UsbWrite, None, now);
        return;
      }
      return Allowed;
    }

    method PostRead(q: Request, bytesRead: nat, entryOk: bool, now: nat)
      requires Valid()
      modifies cache, cache.lists.repr, processes
      ensures fresh(cache.lists.repr - old(cache.lists.repr))
      ensures Valid() && State() == Driver.PostRead(old(State()), q, bytesRead, entryOk, now)
    {
      if bytesRead == 0 || q.kernelMode || q.paging || q.id.None? {
        return;
      }
      var policy := LookUp(q.id.value, now);
      if policy.Some? && ProtectedClass(policy.value.classification) {
        var _ := processes.TrackProtectedRead(q.pid, q.id.value, policy.value.classification, entryOk, now);
      }
    }

    method PreCleanup(q: Request, now: nat)
      requires Valid()
      modifies cache, cache.lists.repr, processes
      ensures fresh(cache.lists.repr - old(cache.lists.repr))
      ensures Valid() && State() == Driver.PreCleanup(old(State()), q, now)
    {
      if q.kernelMode || q.id.None? {
        return;
      }
      var policy := LookUp(q.id.value, now);
      if policy.Some? && ProtectedClass(policy.value.classification) {
        processes.UntrackProtectedFile(q.pid, q.id.value);
      }
    }

    /** A command of the user-mode service to the cache. */
    method Control(op: Op, now: nat)
      requires Valid()
      modifies cache, cache.lists.repr
      ensures fresh(cache.lists.repr - old(cache.lists.repr))
      ensures Valid() && State() == old(State()).(cache := Apply(old(State()).cache, Step(op, now)).0)
    {
      var _ := cache.Perform(Step(op, now));
    }

    method SetConfig(config: Config)
      requires Valid()
      modifies this`config
      ensures Valid() && State() == old(State()).(config := config)
    {
      this.config := config;
    }

    method Exited(pid: Pid)
      requires Valid()
      modifies processes
      ensures Valid() && State() == old(State()).(tracker := ExitStep(old(State()).tracker, pid))
    {
      processes.ProcessExit(pid);
    }

    /** The notification worker's turn: every record queued so far is attempted. */
    method DrainEvents()
      requires Valid()
      modifies events
      ensures Valid() && State() == old(State()) && events.state.attempted == events.state.enqueued
    {
      events.Turn([]);
      assert events.state.enqueued == old(events.state.enqueued) + [];
    }

    /** The worker's last turn: what the service has received, and how many records were dropped. */
    method Finish() returns (received: seq<Record>, dropped: nat)
      requires Valid()
      modifies events
      ensures received == Passed(old(State()).reported, events.outcomes)
      ensures |received| + dropped == |old(State()).reported| + old(State()).unrecorded
    {
      DrainEvents();
      assert events.Valid();
      return events.received, events.dropped;
    }

    /** One event of a run. */
    method Handle(t: Timed) returns (verdict: Verdict)
      requires Valid()
      modifies this, cache, cache.lists.repr, processes, events
      ensures fresh(cache.lists.repr - old(cache.lists.repr))
      ensures Valid() && StepsTo(old(State()), t, State(), verdict)
    {
      match t.event {
        case SetInformation(q, info) => verdict := PreSetInformation(q, info, t.now);
        case Write(q, volume) => verdict := PreWrite(q, volume, t.now);
        case _ => Observe(t); return Allowed;
      }
    }

    /** One event after the other. */
    method Serve(run: seq<Timed>) returns (verdicts: seq<Verdict>)
      requires Valid()
      modifies this, cache, cache.lists.repr, processes, events
      ensures fresh(cache.lists.repr - old(cache.lists.repr))
      ensures Valid() && LedTo(old(State()), run, State(), verdicts)
    {
      verdicts := [];
      LedNowhere(State(), run);
      for i := 0 to |run|
        invariant fresh(cache.lists.repr - old(cache.lists.repr))
        invariant Valid() && LedTo(old(State()), run[..i], State(), verdicts)
      {
        ghost var before := State();
        var v := Handle(run[i]);
        LedOneOn(old(State()), run, i, before, verdicts, State(), v);
        verdicts := verdicts + [v];
      }
      assert run[..|run|] == run;
    }

    /** An event that nothing waits for. */
    method Observe(t: Timed)
      requires Valid() && !t.event.SetInformation? && !t.event.Write?
      modifies this, cache, cache.lists.repr, processes, events
      ensures fresh(cache.lists.repr - old(cache.lists.repr))
      ensures Valid() && State() == Next(old(State()), t)
    {
      match t.event {
        case Command(op) => Control(op, t.now);
        case SetModes(f, a) => SetConfig(Config(f, a));
        case ProcessExit(pid) => Exited(pid);
        case Read(q, bytes, entryOk) => PostRead(q, bytes, entryOk, t.now);
        case Cleanup(q) => PreCleanup(q, t.now);
        case Drain => DrainEvents();
      }
    }
  }

  /** Every run of the driver over buckets, lists and tables. Under a monotone clock its verdicts are
      exactly what the history of inserts, modes and reads says, so that removable media are guarded
      and fail-closed refusals last. After the worker's last turn each refusal outside a shutdown has
      reached the service or been counted as dropped, and the statistics count the run. */
  method ExecuteDriver(config: Config, maxEntries: nat, ttlSec: nat, outcomes: Outcomes, run: seq<Timed>)
    returns (verdicts: seq<Verdict>, received: seq<Record>, dropped: nat, statistics: Statistics)
    ensures var start := Loaded(config, maxEntries, ttlSec);
      && verdicts == Verdicts(start, run)
      && (Monotone(run, 0) ==> VerdictsExact(start, run, verdicts) && RefusalsLast(start, run, verdicts))
      && (Monotone(run, 0) ==> GuardsMedia(start, run, verdicts))
      && ReportsFit(start, run, verdicts, After(start, run).reported)
      && received == Passed(After(start, run).reported, outcomes)
      && |received| + dropped == Refusals(run, verdicts)
      && statistics == StatisticsOf(run, verdicts)
  {
    ghost var start := Loaded(config, maxEntries, ttlSec);
    verdicts, received, dropped, statistics := HandleAll(config, maxEntries, ttlSec, outcomes, run);
    if Monotone(run, 0) {
      AllDecided(start, run);
      MediaGuarded(start, run);
      RefusalsAllLast(start, run);
    }
    RefusalsReported(start, run);
  }

  method HandleAll(config: Config, maxEntries: nat, ttlSec: nat, outcomes: Outcomes, run: seq<Timed>)
    returns (verdicts: seq<Verdict>, received: seq<Record>, dropped: nat, statistics: Statistics)
    ensures var start := Loaded(config, maxEntries, ttlSec);
      var d := After(start, run);
      && verdicts == Verdicts(start, run) && received == Passed(d.reported, outcomes)
      && |received| + dropped == |d.reported| + d.unrecorded
      && statistics == Statistics(d.blocked, d.scanned)
  {
    var globals := new Globals(config, maxEntries, ttlSec, outcomes);
    ghost var start := Loaded(config, maxEntries, ttlSec);
    verdicts := globals.Serve(run);
    assert globals.State() == After(start, run) && verdicts == Verdicts(start, run);
    statistics := Statistics(globals.blocked, globals.scanned);
    received, dropped := globals.Finish();
  }
}
