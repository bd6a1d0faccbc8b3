/** The minifilter's decisions on top of the policy cache and the process tracker, as steps of
    one driver state. Each callback and command is one atomic step at one clock reading. */
module Driver {
  import opened PolicyTypes
  import opened CacheModel
  import opened ProcessTracker
  import opened NotifyQueue

  const VOLUME_REMOVABLE: U32 := 0x1
  const VOLUME_USB: U32 := 0x2
  const VOLUME_NETWORK: U32 := 0x4

  predicate RemovableVolume(flags: U32) {
    HasBit(flags, VOLUME_REMOVABLE) || HasBit(flags, VOLUME_USB)
  }

  datatype Config = Config(failClosed: bool, audit: bool)

  /** `reported` holds every record ever queued, and `unrecorded` counts the refusals for which none
      could be allocated. */
  datatype DriverState = DriverState(
    config: Config,
    cache: CacheState,
    tracker: Tracker,
    reported: seq<Record>,
    unrecorded: nat,
    blocked: nat,
    scanned: nat)

  datatype IrpMajor = IrpWrite | IrpSetInformation | IrpOther

  /** The information class of a set-information request; a delete carries its buffer. */
  datatype InfoClass = Disposition(deleteFile: Option<bool>) | Rename | EndOfFileOrAllocation | OtherClass

  datatype Verdict = Allowed | Denied

  // ---- Policy decision ----

  ghost function Blocks(config: Config, policy: Option<Policy>, irp: IrpMajor, volume: Option<U32>): Verdict {
    if config.audit then Allowed
    else match policy
      case None => if config.failClosed && !irp.IrpOther? then Denied else Allowed
      case Some(p) =>
        if !ProtectedClass(p.classification) then Allowed
        else match irp
          case IrpWrite =>
            if volume.Some? && (RemovableVolume(volume.value)
                                || (HasBit(volume.value, VOLUME_NETWORK) && HasBit(p.classification, CLASS_RESTRICTED)))
            then Denied else Allowed
          case IrpSetInformation =>
            if HasBit(p.blockedActions, ACTION_BLOCK)
               || HasBit(p.classification, CLASS_RESTRICTED) || HasBit(p.classification, CLASS_TOP_SECRET)
            then Denied else Allowed
          case IrpOther => Allowed
  }

  /** The policy a lookup hands out. */
  ghost function Cached(cache: CacheState, id: FileId, now: nat): Option<Policy> {
    match LookupStep(cache, id, now).1
    case Found(p) => Some(p)
    case _ => None
  }

  ghost predicate CachedProtected(cache: CacheState, id: FileId, now: nat) {
    Cached(cache, id, now).Some? && ProtectedClass(Cached(cache, id, now).value.classification)
  }

  ghost function AfterLookup(d: DriverState, id: FileId, now: nat): DriverState {
    d.(cache := LookupStep(d.cache, id, now).0)
  }

  /** The decision; audit mode answers without touching the cache. */
  ghost function IsOperationBlocked(d: DriverState, id: FileId, irp: IrpMajor, volume: Option<U32>,
                                    now: nat): (DriverState, Verdict) {
    (if d.config.audit then d else AfterLookup(d, id, now), Blocks(d.config, Cached(d.cache, id, now), irp, volume))
  }

  /** A record has room for a path of 519 units and its terminator. */
  const PATH_UNITS := 519

  function PathField(path: Option<seq<nat>>): (r: seq<nat>)
    ensures |r| <= PATH_UNITS
  {
    if path.None? then [] else if |path.value| <= PATH_UNITS then path.value else path.value[..PATH_UNITS]
  }

  ghost function CachedClass(cache: CacheState, id: FileId, now: nat): U32 {
    if Cached(cache, id, now).Some? then Cached(cache, id, now).value.classification else 0
  }

  /** Queue a record with the cached classification, or count it as dropped, or do nothing while the
      driver shuts down. */
  ghost function QueueBlockEvent(d: DriverState, q: Request, id: FileId, op: Operation, path: Option<seq<nat>>,
                                 now: nat): DriverState {
    match q.lookaside
    case ShuttingDown => d
    case Exhausted => d.(unrecorded := d.unrecorded + 1)
    case Granted =>
      var event := BlockEvent(id, op, q.pid, CachedClass(d.cache, id, now), PathField(path));
      AfterLookup(d, id, now).(reported := d.reported + [Record(true, event)])
  }

  ghost function Refuse(d: DriverState, q: Request, id: FileId, op: Operation, path: Option<seq<nat>>,
                        now: nat): (DriverState, Verdict) {
    var e := QueueBlockEvent(d, q, id, op, path, now);
    (e.(blocked := e.blocked + 1), Denied)
  }

  // ---- Callbacks ----

  /** A request as its callback sees it: identity and path are missing when they cannot be queried. */
  datatype Request = Request(
    pid: Pid, kernelMode: bool, paging: bool, id: Option<FileId>, path: Option<seq<nat>>, lookaside: Lookaside)

  ghost function PreSetInformation(d: DriverState, q: Request, info: InfoClass, now: nat): (DriverState, Verdict) {
    if q.kernelMode then (d, Allowed)
    else match info
      case Disposition(delete) =>
        if delete != Some(true) || q.id.None? then (d, Allowed)
        else Decide(d, q, FileDelete, now)
      case Rename => if q.id.None? then (d, Allowed) else Decide(d, q, FileRename, now)
      case EndOfFileOrAllocation =>
        if q.id.None? then (d, Allowed) else Resize(d, q, now)
      case OtherClass => (d.(scanned := d.scanned + 1), Allowed)
  }

  ghost function Decide(d: DriverState, q: Request, op: Operation, now: nat): (DriverState, Verdict)
    requires q.id.Some?
  {
    var (e, verdict) := IsOperationBlocked(d, q.id.value, IrpSetInformation, None, now);
    if verdict.Denied? then Refuse(e, q, q.id.value, op, q.path, now)
    else (e.(scanned := e.scanned + 1), Allowed)
  }

  ghost function Resize(d: DriverState, q: Request, now: nat): (DriverState, Verdict)
    requires q.id.Some?
  {
    var e := AfterLookup(d, q.id.value, now);
    if CachedProtected(d.cache, q.id.value, now) then Refuse(e, q, q.id.value, FileWrite, q.path, now)
    else (e.(scanned := e.scanned + 1), Allowed)
  }

  /** Neither check of a write looks at the audit flag. */
  ghost function PreWrite(d: DriverState, q: Request, volume: Option<U32>, now: nat): (DriverState, Verdict) {
    if q.kernelMode || q.paging || volume.None? || !RemovableVolume(volume.value) then (d, Allowed)
    else
      var e := d.(tracker := CheckStep(d.tracker, q.pid, now));
      if ShouldBlock(d.tracker, q.pid, now) then
        Refuse(e, q, if q.id.Some? then q.id.value else FileId(0, 0), UsbWrite, None, now)
      else if q.id.None? then (e, Allowed)
      else CheckDestination(e, q, now)
  }

  ghost function CheckDestination(e: DriverState, q: Request, now: nat): (DriverState, Verdict)
    requires q.id.Some?
  {
    var f := AfterLookup(e, q.id.value, now);
    if CachedProtected(e.cache, q.id.value, now) then Refuse(f, q, q.id.value, UsbWrite, None, now)
    else (f, Allowed)
  }

  /** A completed read taints its process when the file is cached as protected. */
  ghost function PostRead(d: DriverState, q: Request, bytesRead: nat, entryOk: bool, now: nat): DriverState {
    if bytesRead == 0 || q.kernelMode || q.paging || q.id.None? then d
    else
      var e := AfterLookup(d, q.id.value, now);
      var p := Cached(d.cache, q.id.value, now);
      if CachedProtected(d.cache, q.id.value, now) then
        e.(tracker := TrackStep(d.tracker, q.pid, q.id.value, p.value.classification, entryOk, now))
      else e
  }

  ghost function PreCleanup(d: DriverState, q: Request, now: nat): DriverState {
    if q.kernelMode || q.id.None? then d
    else
      var e := AfterLookup(d, q.id.value, now);
      if CachedProtected(d.cache, q.id.value, now) then
        e.(tracker := UntrackStep(d.tracker, q.pid, q.id.value))
      else e
  }

  // ---- Runs ----

  datatype Event =
    | Command(op: Op)
    | SetModes(failClosed: bool, audit: bool)
    | SetInformation(request: Request, info: InfoClass)
    | Write(request: Request, volume: Option<U32>)
    | Read(request: Request, bytesRead: nat, entryOk: bool)
    | Cleanup(request: Request)
    | ProcessExit(pid: Pid)
    | Drain

  datatype Timed = Timed(event: Event, now: nat)

  ghost function Next(d: DriverState, t: Timed): DriverState {
    match t.event
    case Command(op) => d.(cache := Apply(d.cache, Step(op, t.now)).0)
    case SetModes(f, a) => d.(config := Config(f, a))
    case SetInformation(q, info) => PreSetInformation(d, q, info, t.now).0
    case Write(q, volume) => PreWrite(d, q, volume, t.now).0
    case Read(q, bytes, entryOk) => PostRead(d, q, bytes, entryOk, t.now)
    case Cleanup(q) => PreCleanup(d, q, t.now)
    case ProcessExit(pid) => d.(tracker := ExitStep(d.tracker, pid))
    case Drain => d
  }

  ghost function After(d: DriverState, run: seq<Timed>): DriverState {
    if run == [] then d else Next(After(d, run[..|run| - 1]), run[|run| - 1])
  }

  /** Clock readings never go back, starting from `since`, and fit in 64 bits. */
  ghost predicate Monotone(run: seq<Timed>, since: nat) {
    && (forall i :: 0 <= i < |run| ==> since <= run[i].now < 0x1_0000_0000_0000_0000)
    && (forall i, j :: 0 <= i < j < |run| ==> run[i].now <= run[j].now)
  }
}
