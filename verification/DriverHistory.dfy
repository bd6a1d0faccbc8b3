/** What the driver decides, told from the history of its events alone: the modes last set, the
    policies inserted and their lifetimes. */
module DriverHistory {
  import opened PolicyTypes
  import opened CacheModel
  import opened CacheHistory
  import opened Driver
  import opened DriverSafety

  // ---- History ----

  /** The modes of the last message that set them, or else those at the start. */
  function ModesAfter(config: Config, run: seq<Timed>): Config {
    if run == [] then config
    else
      var last := run[|run| - 1].event;
      if last.SetModes? then Config(last.failClosed, last.audit) else ModesAfter(config, run[..|run| - 1])
  }

  /** The last insert command for `id`, if no command has removed, cleared or evicted it since. */
  ghost function HeldBy(start: DriverState, run: seq<Timed>, id: FileId): Option<Deposit> {
    if run == [] then None
    else
      var before, last := run[..|run| - 1], run[|run| - 1];
      var had := HeldBy(start, before, id);
      if last.event.Command? then DepositNext(After(start, before).cache, Step(last.event.op, last.now), id, had)
      else had
  }

  /** The policy so held, while it is alive. */
  ghost function Seen(start: DriverState, run: seq<Timed>, id: FileId, now: nat): Option<Policy> {
    var had := HeldBy(start, run, id);
    if had.Some? && Alive(had.value, now) then Some(had.value.policy) else None
  }

  ghost predicate SeenProtected(start: DriverState, run: seq<Timed>, id: FileId, now: nat) {
    Seen(start, run, id, now).Some? && ProtectedBits(Seen(start, run, id, now).value.classification)
  }

  /** The state is what the history says. */
  ghost predicate Holds(start: DriverState, run: seq<Timed>, d: DriverState, id: FileId) {
    && DistinctIds(d.cache.order) && OrderHolds(d.cache.order, id, HeldBy(start, run, id))
    && d.config == ModesAfter(start.config, run)
  }

  lemma {:induction false} LookupsHold(s: CacheState, s': CacheState, a: FileId, now: nat, id: FileId,
                                       had: Option<Deposit>)
    requires OrderHolds(s.order, id, had) && LooksUp(s, s', a, now)
    ensures OrderHolds(s'.order, id, had)
  {
    LookupHolds(s, a, now, id, had);
    LookupHolds(LookupStep(s, a, now).0, a, now, id, had);
  }

  /** An event that is no command looks up one file at most. */
  lemma {:induction false} EventLooksUp(d: DriverState, t: Timed) returns (a: FileId)
    requires !t.event.Command?
    ensures LooksUp(d.cache, Next(d, t).cache, a, t.now)
  {
    a := FileId(0, 0);
    if t.event.SetInformation? || t.event.Write? || t.event.Read? || t.event.Cleanup? {
      a := Target(t.event.request);
      RequestLooksUp(d, t);
    }
  }

  lemma {:induction false} RequestLooksUp(d: DriverState, t: Timed)
    requires t.event.SetInformation? || t.event.Write? || t.event.Read? || t.event.Cleanup?
    ensures LooksUp(d.cache, Next(d, t).cache, Target(t.event.request), t.now)
  {
    match t.event {
      case SetInformation(q, info) => SetInformationLooksUp(d, q, info, t.now);
      case Write(q, volume) => WriteLooksUp(d, q, volume, t.now);
      case Read(q, bytes, entryOk) => ReadLooksUp(d, q, bytes, entryOk, t.now);
      case Cleanup(q) => ReadLooksUp(d, q, 0, true, t.now);
    }
  }

  /** Only commands change what is held. */
  lemma {:induction false} EventHolds(d: DriverState, t: Timed, id: FileId, had: Option<Deposit>)
    requires DistinctIds(d.cache.order) && OrderHolds(d.cache.order, id, had)
    ensures OrderHolds(Next(d, t).cache.order, id,
      if t.event.Command? then DepositNext(d.cache, Step(t.event.op, t.now), id, had) else had)
  {
    if t.event.Command? {
      DepositStep(d.cache, Step(t.event.op, t.now), id, had);
    } else {
      var a := EventLooksUp(d, t);
      LookupsHold(d.cache, Next(d, t).cache, a, t.now, id, had);
    }
  }

  lemma {:induction false} HistoryHolds(start: DriverState, run: seq<Timed>, id: FileId)
    requires start.cache.order == []
    ensures Holds(start, run, After(start, run), id)
  {
    if run != [] {
      var before, last := run[..|run| - 1], run[|run| - 1];
      HistoryHolds(start, before, id);
      EventKeeps(After(start, before), last, id);
      EventHolds(After(start, before), last, id, HeldBy(start, before, id));
    }
  }

  // ---- What a lookup sees ----

  /** The same as far as decisions go. */
  ghost predicate DecidesAlike(p: Option<Policy>, q: Option<Policy>) {
    && (p.Some? <==> q.Some?)
    && (p.Some? ==> p.value.classification == q.value.classification
                    && p.value.blockedActions == q.value.blockedActions)
  }

  /** After any run a lookup hands out the policy last inserted, exactly while it is alive. */
  lemma {:induction false} CachedIsSeen(start: DriverState, run: seq<Timed>, id: FileId, now: nat)
    requires start.cache.order == []
    ensures var cache := After(start, run).cache;
      && DecidesAlike(Cached(cache, id, now), Seen(start, run, id, now))
      && (CachedProtected(cache, id, now) <==> SeenProtected(start, run, id, now))
  {
    HistoryHolds(start, run, id);
    var cache := After(start, run).cache;
    HeldAnswers(cache, id, HeldBy(start, run, id), now);
    if Cached(cache, id, now).Some? {
      ClassBits(Cached(cache, id, now).value.classification);
    }
  }

  // ---- The central decision ----

  /** A protected file may not be changed if its policy blocks it or its class is restricted or top
      secret. */
  ghost predicate ForbidsChange(p: Policy) {
    && ProtectedBits(p.classification)
    && (Bit(p.blockedActions, 0) || Bit(p.classification, 3) || Bit(p.classification, 4))
  }

  /** A protected file may not be written to removable or USB media, and a restricted one to no
      network share either. */
  ghost predicate ForbidsWrite(p: Policy, volume: Option<U32>) {
    && ProtectedBits(p.classification) && volume.Some?
    && (Bit(volume.value, 0) || Bit(volume.value, 1) || (Bit(volume.value, 2) && Bit(p.classification, 3)))
  }

  lemma {:induction false} VolumeBits(flags: U32)
    ensures RemovableVolume(flags) <==> Bit(flags, 0) || Bit(flags, 1)
    ensures HasBit(flags, VOLUME_NETWORK) <==> Bit(flags, 2)
  {
    Powers();
    MaskReadsBit(flags, 0, VOLUME_REMOVABLE);
    MaskReadsBit(flags, 1, VOLUME_USB);
    MaskReadsBit(flags, 2, VOLUME_NETWORK);
  }

  /** What must be refused in these modes with this policy for the file, if any. */
  ghost predicate MustRefuse(m: Config, p: Option<Policy>, irp: IrpMajor, volume: Option<U32>) {
    && !m.audit && !irp.IrpOther?
    && if p.None? then m.failClosed
       else if irp.IrpWrite? then ForbidsWrite(p.value, volume)
       else ForbidsChange(p.value)
  }

  lemma {:induction false} BlocksIff(m: Config, p: Option<Policy>, irp: IrpMajor, volume: Option<U32>)
    ensures Blocks(m, p, irp, volume).Denied? <==> MustRefuse(m, p, irp, volume)
  {
    if p.Some? {
      ClassBits(p.value.classification);
      FlagBits(p.value.blockedActions);
      if volume.Some? {
        VolumeBits(volume.value);
      }
    }
  }

  lemma {:induction false} BlocksAlike(m: Config, p: Option<Policy>, q: Option<Policy>, irp: IrpMajor,
                                       volume: Option<U32>)
    requires DecidesAlike(p, q)
    ensures MustRefuse(m, p, irp, volume) <==> MustRefuse(m, q, irp, volume)
  {
  }

  /** In every reachable state and in all four settings of the modes the central decision refuses
      exactly: nothing in audit mode; without a live policy, changes and writes in fail-closed mode
      only; with one, what that policy forbids, fail-closed or not. */
  lemma {:induction false} OperationDecided(start: DriverState, run: seq<Timed>, id: FileId, irp: IrpMajor,
                                            volume: Option<U32>, now: nat)
    requires start.cache.order == []
    ensures IsOperationBlocked(After(start, run), id, irp, volume, now).1.Denied? <==>
      MustRefuse(ModesAfter(start.config, run), Seen(start, run, id, now), irp, volume)
  {
    HistoryHolds(start, run, id);
    CachedIsSeen(start, run, id, now);
    var d := After(start, run);
    BlocksIff(d.config, Cached(d.cache, id, now), irp, volume);
    BlocksAlike(d.config, Cached(d.cache, id, now), Seen(start, run, id, now), irp, volume);
  }

  // ---- Set-information requests ----

  /** A delete or rename in these modes with this live policy, if any. */
  ghost predicate ChangeRefused(m: Config, p: Option<Policy>) {
    !m.audit && if p.Some? then ForbidsChange(p.value) else m.failClosed
  }

  /** What must be refused of a set-information request: nothing of the kernel's and nothing without a
      file identity; deletes that set the flag, and renames, by the central decision; changes of size
      exactly when the file is protected; and nothing else. */
  ghost predicate SetInformationRefused(start: DriverState, run: seq<Timed>, q: Request, info: InfoClass, now: nat) {
    && !q.kernelMode && q.id.Some?
    && match info
       case Disposition(delete) =>
         && delete == Some(true)
         && ChangeRefused(ModesAfter(start.config, run), Seen(start, run, q.id.value, now))
       case Rename => ChangeRefused(ModesAfter(start.config, run), Seen(start, run, q.id.value, now))
       case EndOfFileOrAllocation => SeenProtected(start, run, q.id.value, now)
       case OtherClass => false
  }

  /** The callback refuses exactly what must be refused, after every run. */
  lemma {:induction false} SetInformationDecided(start: DriverState, run: seq<Timed>, q: Request, info: InfoClass,
                                                 now: nat)
    requires start.cache.order == []
    ensures PreSetInformation(After(start, run), q, info, now).1.Denied? <==>
      SetInformationRefused(start, run, q, info, now)
  {
    if q.id.Some? {
      OperationDecided(start, run, q.id.value, IrpSetInformation, None, now);
      CachedIsSeen(start, run, q.id.value, now);
      SetInformationAnswer(After(start, run), q, info, now);
    }
  }

  lemma {:induction false} SetInformationAnswer(d: DriverState, q: Request, info: InfoClass, now: nat)
    requires q.id.Some?
    ensures PreSetInformation(d, q, info, now).1.Denied? <==>
      && !q.kernelMode
      && if info == Disposition(Some(true)) || info.Rename? then
           IsOperationBlocked(d, q.id.value, IrpSetInformation, None, now).1.Denied?
         else info.EndOfFileOrAllocation? && CachedProtected(d.cache, q.id.value, now)
  {
  }

  lemma {:induction false} InsertHeld(start: DriverState, run: seq<Timed>, all: seq<Timed>, p: Policy, now: nat)
    requires all == run + [Timed(Command(Insert(p, true)), now)]
    ensures var had := HeldBy(start, all, p.id);
      had.Some? && had.value.policy == p && had.value.at == now && had.value.ttlSec == After(start, run).cache.ttlSec
  {
    var last := Timed(Command(Insert(p, true)), now);
    assert all[..|all| - 1] == run && all[|all| - 1] == last;
    assert HeldBy(start, all, p.id)
      == DepositNext(After(start, run).cache, Step(Insert(p, true), now), p.id, HeldBy(start, run, p.id));
  }

  /** Storing a policy for the file itself settles the matter from then on: in any modes, deletes and
      renames are decided by that policy while it is alive and by fail-closed mode afterwards. */
  lemma {:induction false} InsertDecides(start: DriverState, run: seq<Timed>, p: Policy, now: nat, q: Request,
                                         info: InfoClass, later: nat)
    requires start.cache.order == [] && ChangesFile(q, info, p.id)
    ensures var all := run + [Timed(Command(Insert(p, true)), now)];
      PreSetInformation(After(start, all), q, info, later).1.Denied? <==>
        ChangeRefused(ModesAfter(start.config, all), Live(p, now, After(start, run).cache.ttlSec, later))
  {
    var all := run + [Timed(Command(Insert(p, true)), now)];
    InsertHeld(start, run, all, p, now);
    HeldDecides(start, all, q, info, later, HeldBy(start, all, p.id).value);
  }

  /** A policy, as long as it is alive after its insert. */
  ghost function Live(p: Policy, at: nat, ttlSec: nat, t: nat): Option<Policy> {
    if Alive(Deposit(p, at, ttlSec, true), t) then Some(p) else None
  }

  lemma {:induction false} HeldDecides(start: DriverState, all: seq<Timed>, q: Request, info: InfoClass,
                                       later: nat, d: Deposit)
    requires start.cache.order == [] && ChangesFile(q, info, d.policy.id)
    requires HeldBy(start, all, d.policy.id) == Some(d)
    ensures PreSetInformation(After(start, all), q, info, later).1.Denied? <==>
      ChangeRefused(ModesAfter(start.config, all), Live(d.policy, d.at, d.ttlSec, later))
  {
    SetInformationDecided(start, all, q, info, later);
  }
}
