/** What the verdicts of a whole run of the driver promise: removable media are guarded by the taint
    of the process, fail-closed refusals last, and every refusal is reported once. */
module DriverRuns {
  import opened PolicyTypes
  import opened ProcessTracker
  import opened NotifyQueue
  import opened Driver
  import opened DriverSafety
  import opened DriverHistory
  import opened CacheModel
  import opened CacheHistory
  import opened Taint

  /** The answer of the callback that an event calls. */
  ghost function VerdictOn(d: DriverState, t: Timed): Verdict {
    match t.event
    case SetInformation(q, info) => PreSetInformation(d, q, info, t.now).1
    case Write(q, volume) => PreWrite(d, q, volume, t.now).1
    case _ => Allowed
  }

  ghost function Verdicts(start: DriverState, run: seq<Timed>): (vs: seq<Verdict>)
    ensures |vs| == |run|
  {
    seq(|run|, i requires 0 <= i < |run| => VerdictOn(After(start, run[..i]), run[i]))
  }

  /** One event: the state it leads to and the answer it gets. The quantifier keeps the driver's
      functions folded. */
  ghost predicate StepsTo(d: DriverState, t: Timed, n: DriverState, v: Verdict) {
    forall x :: x == t ==> n == Next(d, x) && v == VerdictOn(d, x)
  }

  /** An event after a run is refused. */
  ghost predicate DeniedAfter(start: DriverState, run: seq<Timed>, t: Timed) {
    forall x :: x == run ==> VerdictOn(After(start, x), t).Denied?
  }

  /** A run has led to this state with these answers. */
  ghost predicate LedTo(start: DriverState, run: seq<Timed>, d: DriverState, vs: seq<Verdict>) {
    forall x :: x == run ==> d == After(start, x) && vs == Verdicts(start, x)
  }

  lemma {:induction false} LedNowhere(start: DriverState, run: seq<Timed>)
    ensures LedTo(start, run[..0], start, [])
  {
    assert run[..0] == [] && Verdicts(start, []) == [];
  }

  lemma {:induction false} LedOneOn(start: DriverState, run: seq<Timed>, i: nat, d: DriverState, vs: seq<Verdict>,
                                    n: DriverState, v: Verdict)
    requires i < |run| && LedTo(start, run[..i], d, vs) && StepsTo(d, run[i], n, v)
    ensures LedTo(start, run[..i + 1], n, vs + [v])
  {
    var before, now := run[..i], run[..i + 1];
    assert d == After(start, before) && vs == Verdicts(start, before);
    AfterOneOn(start, run, i);
    VerdictsOneOn(start, run, i);
    assert n == Next(d, run[i]) && v == VerdictOn(d, run[i]);
  }

  lemma {:induction false} AfterOneOn(start: DriverState, run: seq<Timed>, i: nat)
    requires i < |run|
    ensures After(start, run[..i + 1]) == Next(After(start, run[..i]), run[i])
  {
    assert run[..i + 1][..i] == run[..i];
  }

  lemma {:induction false} VerdictsOneOn(start: DriverState, run: seq<Timed>, i: nat)
    requires i < |run|
    ensures Verdicts(start, run[..i + 1]) == Verdicts(start, run[..i]) + [VerdictOn(After(start, run[..i]), run[i])]
  {
    assert forall j :: 0 <= j <= i ==> run[..i + 1][..j] == run[..j];
    assert forall j :: 0 <= j < i ==> run[..i][..j] == run[..j];
  }

  lemma {:induction false} DeniedAt(start: DriverState, run: seq<Timed>, i: nat)
    requires i < |run|
    ensures Verdicts(start, run)[i].Denied? <==> DeniedAfter(start, run[..i], run[i])
  {
    assert Verdicts(start, run)[i] == VerdictOn(After(start, run[..i]), run[i]);
  }

  // ---- Every verdict ----

  /** What must be refused of a write: one of a user, to removable or USB media, by a process that made
      a tracked protected read less than five minutes ago or into a file whose live policy has a
      protected class; no mode plays a part. */
  ghost predicate WriteRefused(start: DriverState, run: seq<Timed>, q: Request, volume: Option<U32>, now: nat) {
    && !q.kernelMode && !q.paging && volume.Some? && (Bit(volume.value, 0) || Bit(volume.value, 1))
    && (Tainted(start, run, q.pid, now) || (q.id.Some? && SeenProtected(start, run, q.id.value, now)))
  }

  /** What must be refused after a run, by its history alone. */
  ghost predicate MustBeRefused(start: DriverState, run: seq<Timed>, t: Timed) {
    match t.event
    case SetInformation(q, info) => SetInformationRefused(start, run, q, info, t.now)
    case Write(q, volume) => WriteRefused(start, run, q, volume, t.now)
    case _ => false
  }

  /** Exactly what must be refused is refused. The quantifier keeps the history folded. */
  ghost predicate VerdictsExact(start: DriverState, run: seq<Timed>, vs: seq<Verdict>)
    requires |vs| == |run|
  {
    forall i :: 0 <= i < |run| ==> (vs[i].Denied? <==> RefusedAfter(start, run[..i], run[i]))
  }

  ghost predicate RefusedAfter(start: DriverState, run: seq<Timed>, t: Timed) {
    forall x :: x == run ==> MustBeRefused(start, x, t)
  }

  lemma {:induction false} WriteDecided(start: DriverState, run: seq<Timed>, q: Request, volume: Option<U32>, now: nat)
    requires start.tracker == EMPTY && start.cache.order == [] && Monotone(run, 0)
    requires now < 0x1_0000_0000_0000_0000 && forall i :: 0 <= i < |run| ==> run[i].now <= now
    ensures PreWrite(After(start, run), q, volume, now).1.Denied? <==> WriteRefused(start, run, q, volume, now)
  {
    if volume.Some? {
      VolumeBits(volume.value);
      if !q.kernelMode && !q.paging && RemovableVolume(volume.value) {
        UsbWriteRefusedIff(start, run, q, volume.value, now);
      }
    }
  }

  lemma {:induction false} EventDecided(start: DriverState, run: seq<Timed>, t: Timed)
    requires start.tracker == EMPTY && start.cache.order == [] && Monotone(run + [t], 0)
    ensures DeniedAfter(start, run, t) <==> RefusedAfter(start, run, t)
  {
    assert forall i :: 0 <= i < |run| ==> (run + [t])[i] == run[i];
    assert (run + [t])[|run|] == t;
    match t.event {
      case SetInformation(q, info) => SetInformationDecided(start, run, q, info, t.now);
      case Write(q, volume) => WriteDecided(start, run, q, volume, t.now);
      case _ =>
    }
    assert DeniedAfter(start, run, t) <==> VerdictOn(After(start, run), t).Denied?;
    assert RefusedAfter(start, run, t) <==> MustBeRefused(start, run, t);
  }

  /** In every run the verdict on every event is what the history of inserts, modes and reads says. */
  lemma {:induction false} AllDecided(start: DriverState, run: seq<Timed>)
    requires start.tracker == EMPTY && start.cache.order == [] && Monotone(run, 0)
    ensures VerdictsExact(start, run, Verdicts(start, run))
  {
    forall i | 0 <= i < |run|
      ensures Verdicts(start, run)[i].Denied? <==> RefusedAfter(start, run[..i], run[i])
    {
      DeniedAt(start, run, i);
      assert run[..i] + [run[i]] == run[..i + 1];
      EventDecided(start, run[..i], run[i]);
    }
  }

  // ---- Removable media ----

  ghost predicate UserWrite(e: Event) {
    && e.Write? && !e.request.kernelMode && !e.request.paging
    && e.volume.Some? && (Bit(e.volume.value, 0) || Bit(e.volume.value, 1))
  }

  ghost predicate ToProtected(start: DriverState, run: seq<Timed>, q: Request, now: nat) {
    q.id.Some? && SeenProtected(start, run, q.id.value, now)
  }

  /** A user-mode write to removable media is refused if and only if its process made a tracked
      protected read less than five minutes ago or its destination is held as protected. */
  ghost predicate GuardsMedia(start: DriverState, run: seq<Timed>, vs: seq<Verdict>)
    requires |vs| == |run|
  {
    forall i :: 0 <= i < |run| && UserWrite(run[i].event) ==>
      (vs[i].Denied? <==>
         || Tainted(start, run[..i], run[i].event.request.pid, run[i].now)
         || ToProtected(start, run[..i], run[i].event.request, run[i].now))
  }

  lemma {:induction false} MediaGuarded(start: DriverState, run: seq<Timed>)
    requires start.tracker == EMPTY && start.cache.order == [] && Monotone(run, 0)
    ensures GuardsMedia(start, run, Verdicts(start, run))
  {
    forall i | 0 <= i < |run| && UserWrite(run[i].event)
      ensures Verdicts(start, run)[i].Denied? <==>
        || Tainted(start, run[..i], run[i].event.request.pid, run[i].now)
        || ToProtected(start, run[..i], run[i].event.request, run[i].now)
    {
      DeniedAt(start, run, i);
      UsbWriteRefusedIff(start, run[..i], run[i].event.request, run[i].event.volume.value, run[i].now);
    }
  }

  // ---- Fail-closed refusals ----

  ghost predicate ChangeOf(t: Timed, id: FileId) {
    t.event.SetInformation? && ChangesFile(t.event.request, t.event.info, id)
  }

  /** Between two events the modes are not set and no policy for `id` is inserted. */
  ghost predicate QuietBetween(run: seq<Timed>, i: nat, j: nat, id: FileId)
    requires j <= |run|
  {
    forall k :: i < k < j ==> !run[k].event.SetModes? && Spares(run[k].event, id)
  }

  /** Event `i` is a refused change of `id` in fail-closed mode, event `j` another change, and nothing
      between them sets the modes or inserts a policy for `id`. */
  ghost predicate RefusedAndQuiet(start: DriverState, run: seq<Timed>, vs: seq<Verdict>, i: nat, j: nat, id: FileId)
    requires |vs| == |run| && i < j < |run|
  {
    && ChangeOf(run[i], id) && ChangeOf(run[j], id) && ClosedAfter(start, run[..i])
    && QuietBetween(run, i, j, id) && vs[i].Denied?
  }

  /** A delete or rename refused in fail-closed mode is refused again as long as that is so. */
  ghost predicate RefusalsLast(start: DriverState, run: seq<Timed>, vs: seq<Verdict>)
    requires |vs| == |run|
  {
    forall i, j, id :: 0 <= i < j < |run| && RefusedAndQuiet(start, run, vs, i, j, id) ==> vs[j].Denied?
  }

  ghost predicate FailsClosed(d: DriverState) {
    d.config.failClosed && !d.config.audit
  }

  ghost predicate ClosedAfter(start: DriverState, run: seq<Timed>) {
    forall x :: x == run ==> FailsClosed(After(start, x))
  }

  /** A run leads from one state to another. */
  ghost predicate Reaches(d: DriverState, run: seq<Timed>, e: DriverState) {
    forall x :: x == run ==> After(d, x) == e
  }

  lemma {:induction false} ReachesOneOn(d: DriverState, run: seq<Timed>, more: seq<Timed>, t: Timed, e: DriverState)
    requires more == run + [t]
    ensures Reaches(d, run, e) ==> Reaches(d, more, Next(e, t))
  {
    assert more[..|more| - 1] == run && more[|more| - 1] == t;
    assert After(d, more) == Next(After(d, run), t);
  }

  lemma {:induction false} AfterSplit(start: DriverState, a: seq<Timed>, m: DriverState, b: seq<Timed>)
    returns (e: DriverState)
    requires Reaches(start, a, m)
    ensures Reaches(m, b, e) && Reaches(start, a + b, e)
    decreases |b|
  {
    if b == [] {
      assert a + b == a;
      e := m;
    } else {
      var n := |b| - 1;
      var before := AfterSplit(start, a, m, b[..n]);
      e := Next(before, b[n]);
      ReachesOneOn(m, b[..n], b, b[n], before);
      assert a + b == a + b[..n] + [b[n]];
      ReachesOneOn(start, a + b[..n], a + b, b[n], before);
    }
  }

  /** A run that spares `id` and the modes and lies between two times. */
  ghost predicate Quiet(part: seq<Timed>, id: FileId, now: nat, later: nat) {
    && Monotone(part, now) && now <= later
    && (forall k :: 0 <= k < |part| ==> part[k].now <= later && !part[k].event.SetModes? && Spares(part[k].event, id))
  }

  lemma {:induction false} QuietPart(run: seq<Timed>, i: nat, j: nat, id: FileId)
    requires Monotone(run, 0) && i < j < |run| && ChangeOf(run[i], id) && QuietBetween(run, i, j, id)
    ensures Quiet(run[i..j], id, run[i].now, run[j].now)
  {
  }

  lemma {:induction false} StillRefused(start: DriverState, earlier: seq<Timed>, part: seq<Timed>, id: FileId,
                                        t: Timed, t': Timed)
    requires start.cache.order == [] && ClosedAfter(start, earlier) && ChangeOf(t, id) && ChangeOf(t', id)
    requires Quiet(part, id, t.now, t'.now) && DeniedAfter(start, earlier, t)
    ensures DeniedAfter(start, earlier + part, t')
  {
    var e := AfterSplit(start, earlier, After(start, earlier), part);
    assert After(start, earlier + part) == e == After(After(start, earlier), part);
    assert VerdictOn(After(start, earlier), t).Denied? && FailsClosed(After(start, earlier));
    FailClosedStable(start, earlier, part, id, t.event.request, t.event.info, t.now,
                     t'.event.request, t'.event.info, t'.now);
  }

  /** The answers are those of the run. */
  ghost predicate Answers(start: DriverState, run: seq<Timed>, vs: seq<Verdict>) {
    |vs| == |run| && forall k :: 0 <= k < |run| ==> (vs[k].Denied? <==> DeniedAfter(start, run[..k], run[k]))
  }

  lemma {:induction false} VerdictsAnswer(start: DriverState, run: seq<Timed>)
    ensures Answers(start, run, Verdicts(start, run))
  {
    forall k | 0 <= k < |run|
      ensures Verdicts(start, run)[k].Denied? <==> DeniedAfter(start, run[..k], run[k])
    {
      DeniedAt(start, run, k);
    }
  }

  lemma {:induction false} RefusalLasts(start: DriverState, run: seq<Timed>, vs: seq<Verdict>, i: nat, j: nat,
                                        id: FileId)
    requires start.cache.order == [] && Monotone(run, 0) && i < j < |run| && Answers(start, run, vs)
    requires RefusedAndQuiet(start, run, vs, i, j, id)
    ensures vs[j].Denied?
  {
    QuietPart(run, i, j, id);
    StillRefused(start, run[..i], run[i..j], id, run[i], run[j]);
    assert run[..i] + run[i..j] == run[..j];
  }

  lemma {:induction false} RefusalsAllLast(start: DriverState, run: seq<Timed>)
    requires start.cache.order == [] && Monotone(run, 0)
    ensures RefusalsLast(start, run, Verdicts(start, run))
  {
    VerdictsAnswer(start, run);
    AnswersLast(start, run, Verdicts(start, run));
  }

  lemma {:induction false} AnswersLast(start: DriverState, run: seq<Timed>, vs: seq<Verdict>)
    requires start.cache.order == [] && Monotone(run, 0) && Answers(start, run, vs)
    ensures RefusalsLast(start, run, vs)
  {
    forall i, j, id | 0 <= i < j < |run| && RefusedAndQuiet(start, run, vs, i, j, id)
      ensures vs[j].Denied?
    {
      RefusalLasts(start, run, vs, i, j, id);
    }
  }

  // ---- Reports ----

  ghost predicate Asks(e: Event) {
    e.SetInformation? || e.Write?
  }

  /** The path of a request for a change, at most 519 units of it; a write carries none. */
  ghost predicate PathOf(path: seq<nat>, e: Event)
    requires Asks(e)
  {
    if e.Write? || e.request.path.None? then path == []
    else path <= e.request.path.value && |path| == Least(|e.request.path.value|, 519)
  }

  function Least(a: nat, b: nat): nat { if a < b then a else b }

  /** The record names the process, the file with this class, the path and the operation that was
      refused. */
  ghost predicate Describes(r: Record, e: Event, classification: U32)
    requires Asks(e)
  {
    && r.headerValid && r.event.pid == e.request.pid && r.event.id == Target(e.request)
    && r.event.classification == classification && PathOf(r.event.path, e)
    && r.event.operation == (
         if e.Write? then UsbWrite
         else match e.info
           case Disposition(_) => FileDelete
           case Rename => FileRename
           case EndOfFileOrAllocation => FileWrite
           case OtherClass => UnknownOperation)
  }

  /** The class of the policy that a file has, or 0. */
  ghost function SeenClass(start: DriverState, run: seq<Timed>, t: Timed): U32
    requires Asks(t.event)
  {
    var p := Seen(start, run, Target(t.event.request), t.now);
    if p.Some? then p.value.classification else 0
  }

  /** The records are those of the refused requests that got one, in order. */
  ghost predicate ReportsFit(start: DriverState, run: seq<Timed>, vs: seq<Verdict>, records: seq<Record>)
    requires |vs| == |run|
  {
    if run == [] then records == []
    else
      var n := |run| - 1;
      var e := run[n].event;
      if Asks(e) && vs[n].Denied? && e.request.lookaside.Granted? then
        && records != [] && Describes(records[|records| - 1], e, SeenClass(start, run[..n], run[n]))
        && ReportsFit(start, run[..n], vs[..n], records[..|records| - 1])
      else ReportsFit(start, run[..n], vs[..n], records)
  }

  /** Refusals outside a shutdown. */
  ghost function Refusals(run: seq<Timed>, vs: seq<Verdict>): nat
    requires |vs| == |run|
  {
    if run == [] then 0
    else
      var n := |run| - 1;
      var e := run[n].event;
      Refusals(run[..n], vs[..n]) + (if Asks(e) && vs[n].Denied? && !e.request.lookaside.ShuttingDown? then 1 else 0)
  }

  /** All refusals, and what is let through of a user's deletes, renames and changes of size of
      identified files and of requests of other classes. */
  datatype Statistics = Statistics(blocked: nat, scanned: nat)

  predicate Scanned(e: Event) {
    && e.SetInformation? && !e.request.kernelMode
    && (e.info.OtherClass? || (e.request.id.Some? && (e.info.Disposition? ==> e.info == Disposition(Some(true)))))
  }

  ghost function StatisticsOf(run: seq<Timed>, vs: seq<Verdict>): Statistics
    requires |vs| == |run|
  {
    if run == [] then Statistics(0, 0)
    else
      var n := |run| - 1;
      var s := StatisticsOf(run[..n], vs[..n]);
      if vs[n].Denied? then s.(blocked := s.blocked + 1)
      else if Scanned(run[n].event) then s.(scanned := s.scanned + 1)
      else s
  }

  /** A refusal adds one record or one to the count of missing ones; what is let through adds none. */
  ghost predicate ReportedOne(d: DriverState, e: Event, n: DriverState, refused: bool, classification: U32)
    requires Asks(e)
  {
    if !refused then n.reported == d.reported && n.unrecorded == d.unrecorded
    else match e.request.lookaside
      case Granted =>
        && n.unrecorded == d.unrecorded && |n.reported| == |d.reported| + 1
        && n.reported[..|d.reported|] == d.reported && Describes(n.reported[|d.reported|], e, classification)
      case Exhausted => n.reported == d.reported && n.unrecorded == d.unrecorded + 1
      case ShuttingDown => n.reported == d.reported && n.unrecorded == d.unrecorded
  }

  ghost predicate CountedOne(d: DriverState, e: Event, n: DriverState, refused: bool) {
    && n.blocked == d.blocked + (if refused then 1 else 0)
    && n.scanned == d.scanned + (if !refused && Scanned(e) then 1 else 0)
  }

  /** A second lookup at the same time hands out the same. */
  lemma {:induction false} SecondLookup(s: CacheState, id: FileId, now: nat)
    requires DistinctIds(s.order)
    ensures CachedClass(LookupStep(s, id, now).0, id, now) == CachedClass(s, id, now)
  {
    LookupKeeps(s, id, now, id);
    var t, k := LookupStep(s, id, now).0, IndexOf(s.order, id);
    if t.order != s.order {
      var last := |t.order| - 1;
      assert t.order[last].id == id;
      assert IndexOf(t.order, id) == last;
    }
  }

  lemma {:induction false} RefusedReports(d: DriverState, e: DriverState, event: Event, op: Operation, now: nat,
                                          path: Option<seq<nat>>, classification: U32)
    requires Asks(event) && e.reported == d.reported && e.unrecorded == d.unrecorded
    requires CachedClass(e.cache, Target(event.request), now) == classification
    requires path == if event.Write? then None else event.request.path
    requires op == if event.Write? then UsbWrite
                   else if event.info.Disposition? then FileDelete
                   else if event.info.Rename? then FileRename
                   else FileWrite
    requires event.SetInformation? ==> !event.info.OtherClass?
    ensures var (n, v) := Refuse(e, event.request, Target(event.request), op, path, now);
      ReportedOne(d, event, n, v.Denied?, classification) && n.blocked == e.blocked + 1 && n.scanned == e.scanned
  {
  }

  lemma {:induction false} SetInformationReports(d: DriverState, q: Request, info: InfoClass, now: nat)
    requires DistinctIds(d.cache.order)
    ensures var (n, v) := PreSetInformation(d, q, info, now);
      && ReportedOne(d, SetInformation(q, info), n, v.Denied?, CachedClass(d.cache, Target(q), now))
      && CountedOne(d, SetInformation(q, info), n, v.Denied?)
  {
    if !q.kernelMode && q.id.Some? && !info.OtherClass? {
      var op := if info.Disposition? then FileDelete else if info.Rename? then FileRename else FileWrite;
      SecondLookup(d.cache, q.id.value, now);
      RefusedReports(d, AfterLookup(d, q.id.value, now), SetInformation(q, info), op, now, q.path,
                     CachedClass(d.cache, Target(q), now));
    }
  }

  lemma {:induction false} WriteReports(d: DriverState, q: Request, volume: Option<U32>, now: nat)
    requires DistinctIds(d.cache.order)
    ensures var (n, v) := PreWrite(d, q, volume, now);
      && ReportedOne(d, Write(q, volume), n, v.Denied?, CachedClass(d.cache, Target(q), now))
      && CountedOne(d, Write(q, volume), n, v.Denied?)
  {
    var e := d.(tracker := CheckStep(d.tracker, q.pid, now));
    var c := CachedClass(d.cache, Target(q), now);
    RefusedReports(d, e, Write(q, volume), UsbWrite, now, None, c);
    if q.id.Some? {
      SecondLookup(d.cache, q.id.value, now);
      RefusedReports(d, AfterLookup(e, q.id.value, now), Write(q, volume), UsbWrite, now, None, c);
    }
  }

  /** What one event reports and counts. */
  ghost predicate Accounts(d: DriverState, t: Timed, n: DriverState, v: Verdict, classification: U32) {
    && (if Asks(t.event) then ReportedOne(d, t.event, n, v.Denied?, classification)
        else n.reported == d.reported && n.unrecorded == d.unrecorded)
    && CountedOne(d, t.event, n, v.Denied?)
  }

  /** One event: nothing but a refusal reports anything. */
  lemma {:induction false} ReportStep(d: DriverState, t: Timed)
    requires DistinctIds(d.cache.order)
    ensures Accounts(d, t, Next(d, t), VerdictOn(d, t),
                     if Asks(t.event) then CachedClass(d.cache, Target(t.event.request), t.now) else 0)
  {
    match t.event {
      case SetInformation(q, info) => SetInformationReports(d, q, info, t.now);
      case Write(q, volume) => WriteReports(d, q, volume, t.now);
      case _ =>
    }
  }

  /** The records, their count and the statistics so far fit the run so far. */
  ghost predicate ReportsUpTo(start: DriverState, run: seq<Timed>, vs: seq<Verdict>, d: DriverState)
    requires |vs| == |run|
  {
    && ReportsFit(start, run, vs, d.reported) && |d.reported| + d.unrecorded == Refusals(run, vs)
    && Statistics(d.blocked, d.scanned) == StatisticsOf(run, vs)
  }

  ghost predicate ClassAfter(start: DriverState, run: seq<Timed>, t: Timed, classification: U32) {
    Asks(t.event) ==> forall x :: x == run ==> classification == SeenClass(start, x, t)
  }

  lemma {:induction false} ReportsGrow(start: DriverState, run: seq<Timed>, vs: seq<Verdict>, d: DriverState, t: Timed,
                                       v: Verdict, n: DriverState, classification: U32)
    requires |vs| == |run| && ReportsUpTo(start, run, vs, d) && Accounts(d, t, n, v, classification)
    requires ClassAfter(start, run, t, classification)
    ensures ReportsUpTo(start, run + [t], vs + [v], n)
  {
    assert (run + [t])[..|run|] == run && (vs + [v])[..|vs|] == vs;
    assert Asks(t.event) ==> classification == SeenClass(start, run, t);
  }

  /** The class a record carries is that of the history. */
  lemma {:induction false} StepReports(start: DriverState, run: seq<Timed>, d: DriverState, t: Timed, n: DriverState,
                                       v: Verdict) returns (classification: U32)
    requires start.cache.order == [] && StepsTo(d, t, n, v) && forall x :: x == run ==> d == After(start, x)
    ensures Accounts(d, t, n, v, classification) && ClassAfter(start, run, t, classification)
  {
    assert d == After(start, run);
    HistoryHolds(start, run, FileId(0, 0));
    ReportStep(d, t);
    assert n == Next(d, t) && v == VerdictOn(d, t);
    classification := if Asks(t.event) then CachedClass(d.cache, Target(t.event.request), t.now) else 0;
    if Asks(t.event) {
      CachedIsSeen(start, run, Target(t.event.request), t.now);
    }
  }

  lemma {:induction false} ReportsLed(start: DriverState, run: seq<Timed>, d: DriverState, vs: seq<Verdict>)
    requires start.cache.order == [] && start.reported == [] && start.unrecorded == start.blocked == start.scanned == 0
    requires LedTo(start, run, d, vs) && |vs| == |run|
    ensures ReportsUpTo(start, run, vs, d)
    decreases |run|
  {
    if run == [] {
      assert d == After(start, run);
    } else {
      var p, ws, v := LedBack(start, run, d, vs);
      var before, last := run[..|run| - 1], run[|run| - 1];
      ReportsLed(start, before, p, ws);
      var c := StepReports(start, before, p, last, d, v);
      ReportsGrow(start, before, ws, p, last, v, d, c);
      assert before + [last] == run;
    }
  }

  /** The state and the answers before the last event. */
  lemma {:induction false} LedBack(start: DriverState, run: seq<Timed>, d: DriverState, vs: seq<Verdict>)
    returns (p: DriverState, ws: seq<Verdict>, v: Verdict)
    requires run != [] && LedTo(start, run, d, vs)
    ensures LedTo(start, run[..|run| - 1], p, ws) && StepsTo(p, run[|run| - 1], d, v)
    ensures vs == ws + [v] && |ws| == |run| - 1
  {
    var n := |run| - 1;
    p, ws := After(start, run[..n]), Verdicts(start, run[..n]);
    v := VerdictOn(p, run[n]);
    AfterOneOn(start, run, n);
    VerdictsOneOn(start, run, n);
    assert run[..n + 1] == run && d == After(start, run) && vs == Verdicts(start, run);
  }

  /** Over a whole run the records queued are those of the refused requests, together with the
      missing ones they are as many as the refusals, and the statistics count the run. */
  lemma {:induction false} RefusalsReported(start: DriverState, run: seq<Timed>)
    requires start.cache.order == [] && start.reported == [] && start.unrecorded == start.blocked == start.scanned == 0
    ensures ReportsUpTo(start, run, Verdicts(start, run), After(start, run))
  {
    ReportsLed(start, run, After(start, run), Verdicts(start, run));
  }
}
