/** The clipboard capture protocol: the operating system's clipboard, which may change between
    any two steps, the listener thread, the latest-value slot and the worker thread. Sequence
    numbers count changes from the moment monitoring starts and do not wrap. */
module Clipboard {

  /** What the clipboard holds, as one opaque value. */
  type Content = nat

  datatype SeqSlot = SeqSlot(pending: nat, hasPending: bool, coalesced: nat)

  function Update(q: SeqSlot, s: nat): SeqSlot {
    if q.hasPending && s == q.pending then q
    else SeqSlot(s, true, if q.hasPending then q.coalesced + 1 else q.coalesced)
  }

  /** The slot, updated in place under the queue mutex. */
  class BoundedSeqQueue {
    var pending: nat
    var hasPending: bool
    var coalesced: nat

    function State(): SeqSlot
      reads this
    {
      SeqSlot(pending, hasPending, coalesced)
    }

    constructor ()
      ensures State() == SeqSlot(0, false, 0)
    {
      pending, hasPending, coalesced := 0, false, 0;
    }

    method Record(s: nat) returns (changed: bool)
      modifies this
      ensures State() == Update(old(State()), s)
      ensures hasPending && pending == s
      ensures changed <==> !(old(hasPending) && old(pending) == s)
    {
      if hasPending {
        if s == pending {
          return false;
        }
        coalesced := coalesced + 1;
      }
      pending, hasPending := s, true;
      return true;
    }

    method Take() returns (taken: bool, s: nat)
      modifies this
      ensures taken <==> old(hasPending)
      ensures taken ==> s == old(pending)
      ensures State() == old(State()).(hasPending := false)
    {
      taken, s := hasPending, pending;
      hasPending := false;
    }
  }

  datatype SlotOp = Post(s: nat) | Fetch

  function SlotAfter(ops: seq<SlotOp>): SeqSlot {
    if ops == [] then SeqSlot(0, false, 0)
    else
      var q, last := SlotAfter(ops[..|ops| - 1]), ops[|ops| - 1];
      if last.Post? then Update(q, last.s) else q.(hasPending := false)
  }

  /** The posts that come right after a post of another value. */
  function Superseding(ops: seq<SlotOp>): nat {
    if |ops| < 2 then 0
    else
      var last, previous := ops[|ops| - 1], ops[|ops| - 2];
      Superseding(ops[..|ops| - 1]) + if last.Post? && previous.Post? && last.s != previous.s then 1 else 0
  }

  /** A value is pending exactly if it was posted last, and each superseded one is counted. */
  lemma {:induction false} SlotIsHistory(ops: seq<SlotOp>)
    ensures var q := SlotAfter(ops);
      && (q.hasPending <==> ops != [] && ops[|ops| - 1].Post?)
      && (q.hasPending ==> q.pending == ops[|ops| - 1].s)
      && q.coalesced == Superseding(ops)
  {
    if ops != [] {
      SlotIsHistory(ops[..|ops| - 1]);
    }
  }

  datatype Listener = Quiet | HasRead(seqRead: nat)

  /** Where the worker is between two accesses to shared state. */
  datatype Worker =
    | Waiting
    | Took(s: nat)
    | Rescheduling(latest: nat)
    | Opening(s: nat, attempt: nat)
    | Opened(s: nat)
    | Captured(s: nat, content: Content)
    | Confirmed(s: nat, content: Content)
    | Exited

  /** `contents[i]` is what the clipboard held at sequence number `i`; `attempted` and
      `classified` record what the worker did. */
  datatype Monitor = Monitor(
    running: bool,
    contents: seq<Content>,
    notices: nat,
    listener: Listener,
    slot: SeqSlot,
    worker: Worker,
    retries: nat,
    attempted: set<nat>,
    classified: seq<(nat, Content)>)

  function Current(m: Monitor): nat
    requires m.contents != []
  {
    |m.contents| - 1
  }

  function Start(initial: Content, retries: nat): Monitor {
    Monitor(true, [initial], 0, Quiet, SeqSlot(0, false, 0), Waiting, retries, {}, [])
  }

  datatype OpenResult = OpenOk | AccessDenied | OpenFailed

  datatype ClipStep =
    | Change(content: Content)
    | Stop
    | Notice
    | ListenerSchedule
    | TakePending
    | ReadBefore
    | Reschedule
    | TryOpen(result: OpenResult)
    | Capture(haveContent: bool)
    | ReadAfter
    | Classify(converts: bool)
    | Exit

  predicate Enabled(m: Monitor, step: ClipStep) {
    && m.contents != []
    && match step
       case Change(_) => true
       case Stop => m.running
       case Notice => m.notices > 0 && m.listener.Quiet?
       case ListenerSchedule => m.listener.HasRead?
       case TakePending => m.worker.Waiting? && m.slot.hasPending
       case ReadBefore => m.worker.Took?
       case Reschedule => m.worker.Rescheduling?
       case TryOpen(_) => m.worker.Opening?
       case Capture(_) => m.worker.Opened?
       case ReadAfter => m.worker.Captured?
       case Classify(_) => m.worker.Confirmed?
       case Exit => m.worker.Waiting? && !m.running && !m.slot.hasPending
  }

  function Next(m: Monitor, step: ClipStep): Monitor
    requires Enabled(m, step)
  {
    var current := Current(m);
    match step
    case Change(c) => m.(contents := m.contents + [c], notices := m.notices + 1)
    case Stop => m.(running := false)
    case Notice => m.(notices := m.notices - 1, listener := HasRead(current))
    case ListenerSchedule => m.(listener := Quiet, slot := Update(m.slot, m.listener.seqRead))
    case TakePending =>
      m.(slot := m.slot.(hasPending := false), worker := if m.running then Took(m.slot.pending) else Exited)
    case ReadBefore =>
      if !m.running then m.(worker := Waiting)
      else if current != m.worker.s then m.(worker := Rescheduling(current))
      else m.(worker := if m.retries == 0 then Waiting else Opening(current, 0), attempted := m.attempted + {current})
    case Reschedule => m.(slot := Update(m.slot, m.worker.latest), worker := Waiting)
    case TryOpen(result) =>
      var s, k := m.worker.s, m.worker.attempt;
      m.(worker :=
        if !m.running then Waiting
        else if result.OpenOk? then Opened(s)
        else if result.AccessDenied? && k + 1 < m.retries then Opening(s, k + 1)
        else Waiting)
    case Capture(haveContent) =>
      m.(worker := if haveContent then Captured(m.worker.s, m.contents[current]) else Waiting)
    case ReadAfter =>
      m.(worker := if current == m.worker.s then Confirmed(m.worker.s, m.worker.content) else Rescheduling(current))
    case Classify(converts) =>
      m.(worker := Waiting,
         classified := if converts then m.classified + [(m.worker.s, m.worker.content)] else m.classified)
    case Exit => m.(worker := Exited)
  }

  ghost predicate Leads(p: Monitor, steps: seq<ClipStep>, q: Monitor)
    decreases |steps|
  {
    if steps == [] then p == q
    else Enabled(p, steps[0]) && Leads(Next(p, steps[0]), steps[1..], q)
  }

  // ---- Snapshot safety ----

  ghost predicate HeldAt(contents: seq<Content>, s: nat, c: Content) {
    s < |contents| && contents[s] == c
  }

  /** The content was on the clipboard at some sequence number from `s` on. */
  ghost predicate HeldSince(contents: seq<Content>, s: nat, c: Content) {
    exists i :: s <= i < |contents| && contents[i] == c
  }

  ghost predicate SnapshotInvariant(m: Monitor) {
    && m.contents != []
    && (m.worker.Opening? || m.worker.Opened? ==> m.worker.s < |m.contents|)
    && (m.worker.Captured? ==> HeldSince(m.contents, m.worker.s, m.worker.content))
    && (m.worker.Confirmed? ==> HeldAt(m.contents, m.worker.s, m.worker.content))
    && (forall i :: 0 <= i < |m.classified| ==> HeldAt(m.contents, m.classified[i].0, m.classified[i].1))
  }

  lemma {:induction false} SnapshotStep(m: Monitor, step: ClipStep)
    requires SnapshotInvariant(m) && Enabled(m, step)
    ensures SnapshotInvariant(Next(m, step)) && m.contents <= Next(m, step).contents
  {
    var n := Next(m, step);
    match step {
      case Change(c) =>
        if m.worker.Captured? {
          var i :| m.worker.s <= i < |m.contents| && m.contents[i] == m.worker.content;
          assert n.contents[i] == m.worker.content;
        }
      case _ =>
    }
  }

  /** Content classified under sequence number `s` is exactly what the clipboard held at `s`,
      whatever changes, notifications and worker steps interleave. */
  lemma {:induction false} ClassifiedIsSnapshot(p: Monitor, steps: seq<ClipStep>, q: Monitor)
    requires SnapshotInvariant(p) && Leads(p, steps, q)
    ensures SnapshotInvariant(q)
    ensures forall i :: 0 <= i < |q.classified| ==> HeldAt(q.contents, q.classified[i].0, q.classified[i].1)
    decreases |steps|
  {
    if steps != [] {
      SnapshotStep(p, steps[0]);
      ClassifiedIsSnapshot(Next(p, steps[0]), steps[1..], q);
    }
  }

  // ---- What is classified ----

  function Numbers(cs: seq<(nat, Content)>): seq<nat> {
    seq(|cs|, i requires 0 <= i < |cs| => cs[i].0)
  }

  /** For each successful classification the number that was current when the sequence was last read
      back, given how many changes there have been and which number was read back before. */
  function Sampled(current: nat, readBack: nat, steps: seq<ClipStep>): seq<nat>
    decreases |steps|
  {
    if steps == [] then []
    else match steps[0]
      case Change(_) => Sampled(current + 1, readBack, steps[1..])
      case ReadAfter => Sampled(current, current, steps[1..])
      case Classify(converts) =>
        (if converts then [readBack] else []) + Sampled(current, readBack, steps[1..])
      case _ => Sampled(current, readBack, steps[1..])
  }

  /** What the clipboard was changed to. */
  function Changes(steps: seq<ClipStep>): seq<Content> {
    if steps == [] then []
    else (if steps[0].Change? then [steps[0].content] else []) + Changes(steps[1..])
  }

  lemma {:induction false} NumbersOneMore(cs: seq<(nat, Content)>, c: (nat, Content))
    ensures Numbers(cs + [c]) == Numbers(cs) + [c.0]
  {
  }

  lemma {:induction false} ContentsStep(m: Monitor, step: ClipStep)
    requires Enabled(m, step)
    ensures Next(m, step).contents == m.contents + Changes([step])
  {
    assert [step][1..] == [];
  }

  lemma {:induction false} SampledCons(current: nat, readBack: nat, step: ClipStep, rest: seq<ClipStep>)
    ensures Sampled(current, readBack, [step] + rest)
      == (if step.Classify? && step.converts then [readBack] else [])
         + Sampled(if step.Change? then current + 1 else current, if step.ReadAfter? then current else readBack, rest)
  {
    assert ([step] + rest)[1..] == rest;
  }

  /** What one step adds to the samples and makes of the number read back. */
  lemma {:induction false} SampledStep(m: Monitor, step: ClipStep, readBack: nat, later: seq<nat>)
    requires Enabled(m, step) && (m.worker.Confirmed? ==> m.worker.s == readBack)
    ensures var n, now := Next(m, step), if step.ReadAfter? then Current(m) else readBack;
      && Current(n) == Current(m) + (if step.Change? then 1 else 0)
      && Numbers(m.classified) + ((if step.Classify? && step.converts then [readBack] else []) + later)
           == Numbers(n.classified) + later
  {
    if step.Classify? && step.converts {
      NumbersOneMore(m.classified, (m.worker.s, m.worker.content));
      var before := Numbers(m.classified);
      assert before + ([readBack] + later) == before + [readBack] + later;
    } else {
      assert [] + later == later;
    }
  }

  lemma {:induction false} ChangesCons(step: ClipStep, rest: seq<ClipStep>)
    ensures Changes([step] + rest) == Changes([step]) + Changes(rest)
  {
    assert ([step] + rest)[1..] == rest && [step][1..] == [];
  }

  lemma {:induction false} ContentsRun(p: Monitor, steps: seq<ClipStep>, q: Monitor)
    requires Leads(p, steps, q)
    ensures q.contents == p.contents + Changes(steps)
    decreases |steps|
  {
    if steps != [] {
      var step, rest := steps[0], steps[1..];
      assert steps == [step] + rest;
      ContentsStep(p, step);
      ChangesCons(step, rest);
      ContentsRun(Next(p, step), rest, q);
      Joins(p.contents, Changes([step]), Changes(rest));
    } else {
      assert p.contents + [] == p.contents;
    }
  }

  lemma {:induction false} Joins(a: seq<Content>, b: seq<Content>, c: seq<Content>)
    ensures (a + b) + c == a + (b + c)
  {
  }

  /** The numbers so far and the samples still to come are these. */
  ghost predicate Completes(m: Monitor, readBack: nat, steps: seq<ClipStep>, all: seq<nat>) {
    m.contents != [] && forall x :: x == steps ==> Numbers(m.classified) + Sampled(Current(m), readBack, x) == all
  }

  lemma {:induction false} CompletesOneOn(m: Monitor, readBack: nat, step: ClipStep, rest: seq<ClipStep>,
                                          all: seq<nat>)
    requires Enabled(m, step) && (m.worker.Confirmed? ==> m.worker.s == readBack)
    requires Completes(m, readBack, [step] + rest, all)
    ensures Completes(Next(m, step), if step.ReadAfter? then Current(m) else readBack, rest, all)
  {
    var n, now := Next(m, step), if step.ReadAfter? then Current(m) else readBack;
    var steps := [step] + rest;
    assert Numbers(m.classified) + Sampled(Current(m), readBack, steps) == all;
    SampledCons(Current(m), readBack, step, rest);
    SampledStep(m, step, readBack, Sampled(Current(n), now, rest));
  }

  lemma {:induction false} SampledRun(p: Monitor, steps: seq<ClipStep>, q: Monitor, readBack: nat, all: seq<nat>)
    requires Leads(p, steps, q) && (p.worker.Confirmed? ==> p.worker.s == readBack)
    requires Completes(p, readBack, steps, all)
    ensures Numbers(q.classified) == all
    decreases |steps|
  {
    if steps == [] {
      assert Numbers(p.classified) + Sampled(Current(p), readBack, steps) == all;
    } else {
      var step, rest := steps[0], steps[1..];
      assert steps == [step] + rest;
      CompletesOneOn(p, readBack, step, rest, all);
      ReadBackKept(p, step, readBack);
      SampledRun(Next(p, step), rest, q, if step.ReadAfter? then Current(p) else readBack, all);
    }
  }

  lemma {:induction false} ReadBackKept(m: Monitor, step: ClipStep, readBack: nat)
    requires Enabled(m, step) && (m.worker.Confirmed? ==> m.worker.s == readBack)
    ensures var n, now := Next(m, step), if step.ReadAfter? then Current(m) else readBack;
      n.worker.Confirmed? ==> n.worker.s == now
  {
  }

  /** From the start, the contents are the initial one and those it was changed to, in order, and what
      is classified is, in order, each number read back before a successful classification, with what
      the clipboard held at that number. */
  lemma {:induction false} ClassifiedIsHistory(initial: Content, retries: nat, steps: seq<ClipStep>, q: Monitor)
    requires Leads(Start(initial, retries), steps, q)
    ensures q.contents == [initial] + Changes(steps)
    ensures ClassifiedAs(q.classified, Sampled(0, 0, steps), q.contents)
  {
    ClassifiedIsSnapshot(Start(initial, retries), steps, q);
    ContentsRun(Start(initial, retries), steps, q);
    SampledRun(Start(initial, retries), steps, q, 0, Numbers([]) + Sampled(0, 0, steps));
    NumbersFit(q.classified, Sampled(0, 0, steps), q.contents);
  }

  /** These numbers, each with what the clipboard held at it. */
  ghost predicate ClassifiedAs(cs: seq<(nat, Content)>, numbers: seq<nat>, contents: seq<Content>) {
    |cs| == |numbers| && forall i :: 0 <= i < |cs| ==> cs[i].0 == numbers[i] && HeldAt(contents, cs[i].0, cs[i].1)
  }

  lemma {:induction false} NumbersFit(cs: seq<(nat, Content)>, numbers: seq<nat>, contents: seq<Content>)
    requires Numbers(cs) == Numbers([]) + numbers
    requires forall i :: 0 <= i < |cs| ==> HeldAt(contents, cs[i].0, cs[i].1)
    ensures ClassifiedAs(cs, numbers, contents)
  {
    assert Numbers([]) + numbers == numbers;
    assert forall i :: 0 <= i < |cs| ==> Numbers(cs)[i] == cs[i].0;
  }

  // ---- No update is lost ----

  /** Somebody still has to look at the current sequence number. */
  ghost predicate WorkOutstanding(m: Monitor) {
    || m.notices > 0 || m.listener.HasRead? || m.slot.hasPending
    || m.worker.Took? || m.worker.Rescheduling?
  }

  /** The content present at the start is never notified; every later one is. */
  ghost predicate NothingLost(m: Monitor) {
    && m.contents != []
    && (m.running && Current(m) > 0 ==> Current(m) in m.attempted || WorkOutstanding(m))
    && (m.running ==> !m.worker.Exited?)
    && (m.worker.Opening? ==> m.worker.attempt < m.retries)
  }

  lemma {:induction false} NothingLostStep(m: Monitor, step: ClipStep)
    requires NothingLost(m) && Enabled(m, step)
    ensures NothingLost(Next(m, step))
  {
  }

  /** While monitoring runs, in every reachable state the current sequence number has been
      attempted, or a notification, a pending value or a worker step will lead to it, even
      when a stale value overwrote a newer pending one. */
  lemma {:induction false} NoLostUpdate(p: Monitor, steps: seq<ClipStep>, q: Monitor)
    requires NothingLost(p) && Leads(p, steps, q)
    ensures NothingLost(q)
    decreases |steps|
  {
    if steps != [] {
      NothingLostStep(p, steps[0]);
      NoLostUpdate(Next(p, steps[0]), steps[1..], q);
    }
  }

  // ---- And the outstanding work is finite ----

  /** How far a pending value, a stale one more, is from being dealt with. */
  function SlotRank(m: Monitor, s: nat): nat
    requires m.contents != []
  {
    if s == Current(m) then m.retries + 5 else m.retries + 8
  }

  function WorkerRank(m: Monitor): nat
    requires m.contents != []
  {
    var r, c := m.retries, Current(m);
    match m.worker
    case Waiting => 1
    case Exited => 0
    case Confirmed(_, _) => 2
    case Captured(s, _) => if s == c then 3 else r + 8
    case Opened(s) => if s == c then 4 else r + 9
    case Opening(s, k) => (if s == c then 4 else r + 9) + (if k < r then r - k else 0)
    case Took(s) => if s == c then r + 5 else r + 8
    case Rescheduling(s) => SlotRank(m, s) + 2
  }

  function Rank(m: Monitor): nat
    requires m.contents != []
  {
    WorkerRank(m)
    + (if m.slot.hasPending then SlotRank(m, m.slot.pending) else 0)
    + (if m.listener.HasRead? then m.retries + 9 else 0)
    + m.notices * (m.retries + 10)
  }

  ghost predicate OwnStep(step: ClipStep) {
    !step.Change? && !step.Stop?
  }

  /** Every step of the monitor itself brings it closer to rest. */
  lemma {:induction false} RankDecreases(m: Monitor, step: ClipStep)
    requires NothingLost(m) && m.running && Enabled(m, step) && OwnStep(step)
    ensures Rank(Next(m, step)) < Rank(m)
  {
    match step {
      case Notice => assert m.notices * (m.retries + 10) == (m.notices - 1) * (m.retries + 10) + m.retries + 10;
      case ListenerSchedule =>
      case _ => WorkerRankDecreases(m, step);
    }
  }

  lemma {:induction false} WorkerRankDecreases(m: Monitor, step: ClipStep)
    requires NothingLost(m) && m.running && Enabled(m, step) && OwnStep(step)
    requires !step.Notice? && !step.ListenerSchedule?
    ensures var n := Next(m, step);
      && n.notices == m.notices && n.listener == m.listener && n.retries == m.retries && n.contents == m.contents
      && WorkerRank(n) + (if n.slot.hasPending then SlotRank(n, n.slot.pending) else 0)
           < WorkerRank(m) + (if m.slot.hasPending then SlotRank(m, m.slot.pending) else 0)
  {
  }

  /** If the clipboard stays unchanged, the monitor can take at most `Rank` steps, and when it
      can take none, the current sequence number has been attempted. */
  lemma {:induction false} Settles(p: Monitor, steps: seq<ClipStep>, q: Monitor)
    requires NothingLost(p) && p.running && Leads(p, steps, q)
    requires forall i :: 0 <= i < |steps| ==> OwnStep(steps[i])
    ensures |steps| <= Rank(p) && q.contents == p.contents && q.running
    ensures (forall step: ClipStep :: OwnStep(step) ==> !Enabled(q, step)) && Current(q) > 0 ==>
      Current(q) in q.attempted
    decreases |steps|
  {
    if steps == [] {
      if forall step: ClipStep :: OwnStep(step) ==> !Enabled(q, step) {
        assert !Enabled(q, Notice) && !Enabled(q, ListenerSchedule) && !Enabled(q, TakePending)
               && !Enabled(q, ReadBefore) && !Enabled(q, Reschedule) && !Enabled(q, TryOpen(OpenOk))
               && !Enabled(q, Capture(true)) && !Enabled(q, ReadAfter) && !Enabled(q, Classify(true));
      }
    } else {
      RankDecreases(p, steps[0]);
      NothingLostStep(p, steps[0]);
      Settles(Next(p, steps[0]), steps[1..], q);
    }
  }

  /** Snapshot safety and no lost update from the moment monitoring starts. */
  lemma {:induction false} FromStart(initial: Content, retries: nat, steps: seq<ClipStep>, q: Monitor)
    requires Leads(Start(initial, retries), steps, q)
    ensures forall i :: 0 <= i < |q.classified| ==> HeldAt(q.contents, q.classified[i].0, q.classified[i].1)
    ensures q.contents != []
    ensures q.running && Current(q) > 0 ==> Current(q) in q.attempted || WorkOutstanding(q)
  {
    ClassifiedIsSnapshot(Start(initial, retries), steps, q);
    NoLostUpdate(Start(initial, retries), steps, q);
  }

  // ---- And the current content is classified ----

  /** The outcomes that let a capture go on: content that is there and converts, and no failure to open
      but a busy clipboard. */
  ghost predicate Succeeds(step: ClipStep) {
    && OwnStep(step) && step != TryOpen(OpenFailed) && step != Capture(false) && step != Classify(false)
  }

  function Denials(steps: seq<ClipStep>): nat {
    if steps == [] then 0 else (if steps[0] == TryOpen(AccessDenied) then 1 else 0) + Denials(steps[1..])
  }

  /** The worker is at the current number and has enough tries left for so many denials. */
  ghost predicate InHand(m: Monitor, denials: nat)
    requires m.contents != []
  {
    var current := Current(m);
    match m.worker
    case Opening(s, k) => s == current && k + denials < m.retries
    case Opened(s) => s == current
    case Captured(s, c) => s == current && c == m.contents[current]
    case Confirmed(s, c) => s == current && c == m.contents[current]
    case _ => false
  }

  /** If the current number has been attempted, its content is classified or in hand. */
  ghost predicate Served(m: Monitor, denials: nat) {
    m.contents != []
    && (Current(m) in m.attempted ==>
          (Current(m), m.contents[Current(m)]) in m.classified || InHand(m, denials))
  }

  lemma {:induction false} ServedStep(m: Monitor, step: ClipStep, denials: nat)
    requires NothingLost(m) && m.running && Enabled(m, step) && Succeeds(step) && denials < m.retries
    requires Served(m, denials + if step == TryOpen(AccessDenied) then 1 else 0)
    ensures Served(Next(m, step), denials)
  {
    var n, c := Next(m, step), (Current(m), m.contents[Current(m)]);
    assert Current(n) == Current(m) && n.contents == m.contents;
    if c in m.classified {
      assert c in n.classified;
    } else if step.Classify? && m.worker.s == Current(m) && m.worker.content == c.1 {
      assert n.classified[|m.classified|] == c;
    }
  }

  lemma {:induction false} ServedRun(p: Monitor, steps: seq<ClipStep>, q: Monitor)
    requires NothingLost(p) && p.running && Leads(p, steps, q) && Served(p, Denials(steps))
    requires Denials(steps) < p.retries && forall i :: 0 <= i < |steps| ==> Succeeds(steps[i])
    ensures Served(q, 0)
    decreases |steps|
  {
    if steps != [] {
      ServedStep(p, steps[0], Denials(steps[1..]));
      NothingLostStep(p, steps[0]);
      ServedRun(Next(p, steps[0]), steps[1..], q);
    }
  }

  lemma {:induction false} AttemptedBelow(p: Monitor, steps: seq<ClipStep>, q: Monitor)
    requires p.contents != [] && Leads(p, steps, q) && forall s :: s in p.attempted ==> s < |p.contents|
    ensures q.contents != [] && q.retries == p.retries && forall s :: s in q.attempted ==> s < |q.contents|
    decreases |steps|
  {
    if steps != [] {
      AttemptedBelow(Next(p, steps[0]), steps[1..], q);
    }
  }

  ghost predicate AtRest(q: Monitor) {
    forall step: ClipStep :: OwnStep(step) ==> !Enabled(q, step)
  }

  /** Whatever happened since the start, once the clipboard is changed for the last time and the
      capture is let through, with fewer denials than tries, the monitor comes to rest with what the
      clipboard then holds classified under the number of that change. */
  lemma {:induction false} LastChangeClassified(initial: Content, retries: nat, earlier: seq<ClipStep>, p: Monitor,
                                                content: Content, steps: seq<ClipStep>, q: Monitor)
    requires Leads(Start(initial, retries), earlier, p) && p.running
    requires Enabled(p, Change(content)) && Leads(Next(p, Change(content)), steps, q)
    requires Denials(steps) < retries && forall i :: 0 <= i < |steps| ==> Succeeds(steps[i])
    ensures q.contents == p.contents + [content] && |steps| <= Rank(Next(p, Change(content)))
    ensures AtRest(q) ==> (|p.contents|, content) in q.classified
  {
    var m := Next(p, Change(content));
    NoLostUpdate(Start(initial, retries), earlier, p);
    AttemptedBelow(Start(initial, retries), earlier, p);
    NothingLostStep(p, Change(content));
    assert Current(m) !in m.attempted;
    ServedRun(m, steps, q);
    Settles(m, steps, q);
    if AtRest(q) {
      RestNotInHand(q);
    }
  }

  lemma {:induction false} RestNotInHand(q: Monitor)
    requires q.contents != [] && AtRest(q)
    ensures !InHand(q, 0)
  {
    assert !Enabled(q, TryOpen(OpenOk)) && !Enabled(q, Capture(true)) && !Enabled(q, ReadAfter)
           && !Enabled(q, Classify(true));
  }
}
