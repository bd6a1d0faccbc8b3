/** Safety of delete and rename over whole runs: a refusal in fail-closed mode stays until the file
    itself gets a new policy or the modes change. */
module DriverSafety {
  import opened PolicyTypes
  import opened CacheModel
  import opened CacheHistory
  import opened Driver

  // ---- Fail-closed decisions are stable ----

  /** One file looked up not at all, once or twice. */
  ghost predicate LooksUp(s: CacheState, s': CacheState, a: FileId, now: nat) {
    || s' == s || s' == LookupStep(s, a, now).0
    || s' == LookupStep(LookupStep(s, a, now).0, a, now).0
  }

  lemma {:induction false} LookupsKeep(s: CacheState, s': CacheState, a: FileId, now: nat, id: FileId)
    requires DistinctIds(s.order) && LooksUp(s, s', a, now)
    ensures DistinctIds(s'.order) && NothingNew(s.order, s'.order, id)
  {
    NothingNewRefl(s.order, id);
    LookupKeeps(s, a, now, id);
    var t := LookupStep(s, a, now).0;
    LookupKeeps(t, a, now, id);
    NothingNewTrans(s.order, t.order, LookupStep(t, a, now).0.order, id);
  }

  ghost function Target(q: Request): FileId {
    if q.id.Some? then q.id.value else FileId(0, 0)
  }

  lemma {:induction false} SetInformationLooksUp(d: DriverState, q: Request, info: InfoClass, now: nat)
    ensures var e := PreSetInformation(d, q, info, now).0;
      e.config == d.config && LooksUp(d.cache, e.cache, Target(q), now)
  {
  }

  lemma {:induction false} WriteLooksUp(d: DriverState, q: Request, volume: Option<U32>, now: nat)
    ensures var e := PreWrite(d, q, volume, now).0;
      e.config == d.config && LooksUp(d.cache, e.cache, Target(q), now)
  {
  }

  lemma {:induction false} ReadLooksUp(d: DriverState, q: Request, bytes: nat, entryOk: bool, now: nat)
    ensures var e := PostRead(d, q, bytes, entryOk, now);
      e.config == d.config && LooksUp(d.cache, e.cache, Target(q), now)
    ensures var e := PreCleanup(d, q, now);
      e.config == d.config && LooksUp(d.cache, e.cache, Target(q), now)
  {
  }

  ghost predicate Spares(e: Event, id: FileId) {
    e.Command? ==> SparesId(e.op, id)
  }

  lemma {:induction false} EventKeeps(d: DriverState, t: Timed, id: FileId)
    requires DistinctIds(d.cache.order)
    ensures var e := Next(d, t);
      && DistinctIds(e.cache.order)
      && (Spares(t.event, id) ==> NothingNew(d.cache.order, e.cache.order, id))
      && (!t.event.SetModes? ==> e.config == d.config)
  {
    var e := Next(d, t);
    match t.event {
      case Command(op) => CommandKeeps(d.cache, Step(op, t.now), id);
      case SetInformation(q, info) =>
        SetInformationLooksUp(d, q, info, t.now);
        LookupsKeep(d.cache, e.cache, Target(q), t.now, id);
      case Write(q, volume) =>
        WriteLooksUp(d, q, volume, t.now);
        LookupsKeep(d.cache, e.cache, Target(q), t.now, id);
      case Read(q, bytes, entryOk) =>
        ReadLooksUp(d, q, bytes, entryOk, t.now);
        LookupsKeep(d.cache, e.cache, Target(q), t.now, id);
      case Cleanup(q) =>
        ReadLooksUp(d, q, 0, true, t.now);
        LookupsKeep(d.cache, e.cache, Target(q), t.now, id);
      case _ => NothingNewRefl(d.cache.order, id);
    }
  }

  ghost predicate RefusesChange(d: DriverState, id: FileId, now: nat) {
    Blocks(d.config, Cached(d.cache, id, now), IrpSetInformation, None).Denied?
  }

  /** Without news for `id`, a fail-closed refusal survives one step and any passage of time. */
  lemma {:induction false} RefusalSurvives(c: Config, s: CacheState, s': CacheState, id: FileId, now: nat, later: nat)
    requires c.failClosed && !c.audit && now <= later
    requires DistinctIds(s.order) && NothingNew(s.order, s'.order, id)
    requires Blocks(c, Cached(s, id, now), IrpSetInformation, None).Denied?
    ensures Blocks(c, Cached(s', id, later), IrpSetInformation, None).Denied?
  {
    if Cached(s', id, later).Some? {
      var j := IndexOf(s'.order, id);
      var i :| 0 <= i < |s.order| && SamePolicy(s.order[i], s'.order[j]);
      assert s.order[i].id == s'.order[j].(lastAccess := 0).id;
      assert s.order[i].expiration == s'.order[j].(lastAccess := 0).expiration;
      assert s.order[i].flags == s'.order[j].(lastAccess := 0).flags;
      assert s.order[i].classification == s'.order[j].(lastAccess := 0).classification;
      assert s.order[i].blockedActions == s'.order[j].(lastAccess := 0).blockedActions;
      assert i == IndexOf(s.order, id);
    }
  }

  lemma {:induction false} DistinctAlways(d: DriverState, run: seq<Timed>)
    requires DistinctIds(d.cache.order)
    ensures DistinctIds(After(d, run).cache.order)
  {
    if run != [] {
      DistinctAlways(d, run[..|run| - 1]);
      EventKeeps(After(d, run[..|run| - 1]), run[|run| - 1], FileId(0, 0));
    }
  }

  /** Over a run of any callbacks, expiries, removals, clears, evictions and inserts for other
      files, a fail-closed refusal of `id` never becomes a permission. */
  lemma {:induction false} RefusalStable(d: DriverState, run: seq<Timed>, id: FileId, now: nat, later: nat)
    requires d.config.failClosed && !d.config.audit && DistinctIds(d.cache.order)
    requires Monotone(run, now) && now <= later && forall i :: 0 <= i < |run| ==> run[i].now <= later
    requires forall i :: 0 <= i < |run| ==> !run[i].event.SetModes? && Spares(run[i].event, id)
    requires RefusesChange(d, id, now)
    ensures After(d, run).config == d.config && RefusesChange(After(d, run), id, later)
  {
    if run == [] {
      NothingNewRefl(d.cache.order, id);
      RefusalSurvives(d.config, d.cache, d.cache, id, now, later);
    } else {
      var before, last := run[..|run| - 1], run[|run| - 1];
      RefusalStable(d, before, id, now, last.now);
      DistinctAlways(d, before);
      var e := After(d, before);
      EventKeeps(e, last, id);
      RefusalSurvives(e.config, e.cache, Next(e, last).cache, id, last.now, later);
    }
  }

  /** A user-mode delete or rename of an identified file. */
  ghost predicate ChangesFile(q: Request, info: InfoClass, id: FileId) {
    !q.kernelMode && q.id == Some(id) && (info == Disposition(Some(true)) || info.Rename?)
  }

  /** The callbacks' verdicts: fail-closed is stable from every reachable state on. */
  lemma {:induction false} FailClosedStable(start: DriverState, earlier: seq<Timed>, run: seq<Timed>, id: FileId,
                                            q: Request, info: InfoClass, now: nat, q': Request, info': InfoClass,
                                            later: nat)
    requires start.cache.order == []
    requires var d := After(start, earlier);
      && d.config.failClosed && !d.config.audit
      && PreSetInformation(d, q, info, now).1.Denied?
    requires ChangesFile(q, info, id) && ChangesFile(q', info', id)
    requires Monotone(run, now) && now <= later && forall i :: 0 <= i < |run| ==> run[i].now <= later
    requires forall i :: 0 <= i < |run| ==> !run[i].event.SetModes? && Spares(run[i].event, id)
    ensures PreSetInformation(After(After(start, earlier), run), q', info', later).1.Denied?
  {
    DistinctAlways(start, earlier);
    RefusalStable(After(start, earlier), run, id, now, later);
  }
}
