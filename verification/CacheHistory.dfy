/** What the cache answers, told from the history of its operations alone: the policies as they were
    handed in, the times of the inserts and the TTL then in force. */
module CacheHistory {
  import opened PolicyTypes
  import opened CacheModel

  // ---- What one operation keeps ----

  ghost predicate Came(order: seq<Policy>, p: Policy) {
    exists i :: 0 <= i < |order| && SamePolicy(order[i], p)
  }

  /** What the later list holds for `id`, the earlier list held. */
  ghost predicate NothingNew(order: seq<Policy>, order': seq<Policy>, id: FileId) {
    forall j :: 0 <= j < |order'| && order'[j].id == id ==> Came(order, order'[j])
  }

  /** A step that inserts no policy for `id`. */
  ghost predicate SparesId(op: Op, id: FileId) {
    op.Insert? ==> op.policy.id != id
  }

  lemma {:induction false} DropKeeps(order: seq<Policy>, k: nat, id: FileId)
    requires DistinctIds(order) && k < |order|
    ensures DistinctIds(DropAt(order, k)) && NothingNew(order, DropAt(order, k), id)
    ensures !Has(DropAt(order, k), order[k].id)
  {
  }

  lemma {:induction false} LookupKeeps(s: CacheState, id: FileId, now: nat, file: FileId)
    requires DistinctIds(s.order)
    ensures DistinctIds(LookupStep(s, id, now).0.order) && NothingNew(s.order, LookupStep(s, id, now).0.order, file)
  {
  }

  lemma {:induction false} NothingNewRefl(order: seq<Policy>, id: FileId)
    ensures NothingNew(order, order, id)
  {
  }

  lemma {:induction false} NothingNewTrans(a: seq<Policy>, b: seq<Policy>, c: seq<Policy>, id: FileId)
    requires NothingNew(a, b, id) && NothingNew(b, c, id)
    ensures NothingNew(a, c, id)
  {
  }

  lemma {:induction false} PutKeeps(t: CacheState, p: Policy, poolOk: bool, now: nat, id: FileId)
    requires DistinctIds(t.order)
    ensures DistinctIds(PutStep(t, p, poolOk, now).0.order)
    ensures p.id != id ==> NothingNew(t.order, PutStep(t, p, poolOk, now).0.order, id)
  {
  }

  lemma {:induction false} RoomKeeps(s: CacheState, id: FileId)
    requires DistinctIds(s.order)
    ensures DistinctIds(MakeRoom(s).order) && NothingNew(s.order, MakeRoom(s).order, id)
  {
  }

  lemma {:induction false} CommandKeeps(s: CacheState, step: Step, id: FileId)
    requires DistinctIds(s.order)
    ensures DistinctIds(Apply(s, step).0.order)
    ensures SparesId(step.op, id) ==> NothingNew(s.order, Apply(s, step).0.order, id)
  {
    NothingNewRefl(s.order, id);
    match step.op {
      case Lookup(x) => LookupKeeps(s, x, step.now, id);
      case Remove(x) =>
        if Has(s.order, x) {
          DropKeeps(s.order, IndexOf(s.order, x), id);
        }
      case Insert(p, poolOk) =>
        RoomKeeps(s, id);
        PutKeeps(MakeRoom(s), p, poolOk, step.now, id);
        if p.id != id {
          NothingNewTrans(s.order, MakeRoom(s).order, Apply(s, step).0.order, id);
        }
      case _ =>
    }
  }

  // ---- The insert history ----

  /** A policy as it was handed in, when, the TTL then in force, and whether it made a new entry. */
  datatype Deposit = Deposit(policy: Policy, at: nat, ttlSec: nat, created: bool)

  /** A permanent policy never expires. Any other is good until so many seconds of 10,000,000 ticks
      after its insert, in unsigned 64-bit arithmetic. */
  ghost predicate Alive(d: Deposit, now: nat) {
    Bit(d.policy.flags, 1) || now <= (d.at + d.ttlSec * 10_000_000) % 0x1_0000_0000_0000_0000
  }

  /** The entry that this insert leaves: all fields as given, except that a new entry is VALID and
      that an expiration time is set. */
  ghost predicate Carries(e: Policy, d: Deposit) {
    var p := d.policy;
    && e.id == p.id && e.classification == p.classification && e.ruleId == p.ruleId
    && e.allowedActions == p.allowedActions && e.blockedActions == p.blockedActions
    && e.flags / 2 == p.flags / 2 && (Bit(e.flags, 0) <==> d.created || Bit(p.flags, 0))
    && e.expiration == if Bit(p.flags, 1) then p.expiration
                       else (d.at + d.ttlSec * 10_000_000) % 0x1_0000_0000_0000_0000
  }

  /** An insert for `id` that finds an entry to update or can allocate one. */
  ghost predicate Stores(s: CacheState, step: Step, id: FileId) {
    step.op.Insert? && step.op.policy.id == id && (step.op.poolOk || Has(MakeRoom(s).order, id))
  }

  /** This step evicts the entry of `id`. */
  ghost predicate Evicts(s: CacheState, step: Step, id: FileId) {
    step.op.Insert? && Has(s.order, id) && !Has(MakeRoom(s).order, id)
  }

  ghost predicate Loses(s: CacheState, step: Step, id: FileId) {
    step.op == Remove(id) || step.op.Clear? || Evicts(s, step, id)
  }

  ghost function DepositNext(s: CacheState, step: Step, id: FileId, had: Option<Deposit>): Option<Deposit> {
    if Stores(s, step, id) then Some(Deposit(step.op.policy, step.now, s.ttlSec, !Has(MakeRoom(s).order, id)))
    else if Loses(s, step, id) then None
    else had
  }

  /** The last insert for `id`, if its entry has not been removed, cleared or evicted since. */
  ghost function Deposited(start: CacheState, steps: seq<Step>, id: FileId): Option<Deposit> {
    if steps == [] then None
    else
      var before := steps[..|steps| - 1];
      DepositNext(Run(start, before), steps[|steps| - 1], id, Deposited(start, before, id))
  }

  /** The list has an entry for `id` exactly after such an insert, and it is that one's. */
  ghost predicate OrderHolds(order: seq<Policy>, id: FileId, had: Option<Deposit>) {
    && (Has(order, id) <==> had.Some?)
    && (forall k :: 0 <= k < |order| && order[k].id == id ==> had.Some? && Carries(order[k], had.value))
  }

  lemma {:induction false} LookupHolds(s: CacheState, x: FileId, now: nat, id: FileId, had: Option<Deposit>)
    requires OrderHolds(s.order, id, had)
    ensures OrderHolds(LookupStep(s, x, now).0.order, id, had)
  {
    var k, t := IndexOf(s.order, x), LookupStep(s, x, now).0;
    if t.order != s.order {
      var touched := s.order[k].(lastAccess := now);
      assert t.order == DropAt(s.order, k) + [touched];
      MovedHolds(s.order, k, touched, id, had);
    }
  }

  lemma {:induction false} MovedHolds(order: seq<Policy>, k: nat, touched: Policy, id: FileId, had: Option<Deposit>)
    requires OrderHolds(order, id, had) && k < |order| && touched == order[k].(lastAccess := touched.lastAccess)
    ensures OrderHolds(DropAt(order, k) + [touched], id, had)
  {
    var after := DropAt(order, k) + [touched];
    if Has(order, id) {
      var j :| 0 <= j < |order| && order[j].id == id;
      assert after[if j < k then j else if j > k then j - 1 else |order| - 1].id == id;
    }
    forall j | 0 <= j < |after| && after[j].id == id
      ensures had.Some? && Carries(after[j], had.value)
    {
      var i := if j < k then j else if j < |order| - 1 then j + 1 else k;
      assert order[i].id == id;
    }
  }

  lemma {:induction false} DroppedHolds(order: seq<Policy>, k: nat, id: FileId, had: Option<Deposit>)
    requires OrderHolds(order, id, had) && DistinctIds(order) && k < |order|
    ensures OrderHolds(DropAt(order, k), id, if order[k].id == id then None else had)
    ensures Has(DropAt(order, k), id) <==> Has(order, id) && order[k].id != id
  {
    var after := DropAt(order, k);
    if Has(order, id) && order[k].id != id {
      var j :| 0 <= j < |order| && order[j].id == id;
      assert after[if j < k then j else j - 1].id == id;
    }
    forall j | 0 <= j < |after| && after[j].id == id
      ensures order[k].id != id && had.Some? && Carries(after[j], had.value)
    {
      assert after[j] == order[if j < k then j else j + 1];
    }
  }

  lemma {:induction false} RoomHolds(s: CacheState, id: FileId, had: Option<Deposit>)
    requires OrderHolds(s.order, id, had) && DistinctIds(s.order)
    ensures OrderHolds(MakeRoom(s).order, id, if Has(MakeRoom(s).order, id) then had else None)
    ensures MakeRoom(s).ttlSec == s.ttlSec && (Has(MakeRoom(s).order, id) ==> Has(s.order, id))
  {
    var k := OldestUnpinned(s.order);
    if |s.order| >= s.maxEntries && k < |s.order| {
      DroppedHolds(s.order, IndexOf(s.order, s.order[k].id), id, had);
    }
  }

  lemma {:induction false} StampedCarries(p: Policy, now: nat, ttlSec: nat)
    ensures Carries(Stamped(p, now, ttlSec), Deposit(p, now, ttlSec, false))
    ensures Carries(FreshEntry(p, now, ttlSec), Deposit(p, now, ttlSec, true))
  {
    FlagBits(p.flags);
    FlagBits(WithValid(p.flags));
    assert WithValid(p.flags) / 2 == p.flags / 2;
  }

  /** What storing into a cache with room makes of the last insert. */
  ghost function PutNext(t: CacheState, p: Policy, poolOk: bool, now: nat, id: FileId,
                         had: Option<Deposit>): Option<Deposit> {
    if p.id == id && (poolOk || Has(t.order, id)) then Some(Deposit(p, now, t.ttlSec, !Has(t.order, id))) else had
  }

  lemma {:induction false} InsertNext(s: CacheState, p: Policy, poolOk: bool, now: nat, id: FileId,
                                      had: Option<Deposit>, kept: Option<Deposit>)
    requires Has(s.order, id) <==> had.Some?
    requires Has(MakeRoom(s).order, id) ==> Has(s.order, id)
    requires MakeRoom(s).ttlSec == s.ttlSec && kept == if Has(MakeRoom(s).order, id) then had else None
    ensures DepositNext(s, Step(Insert(p, poolOk), now), id, had) == PutNext(MakeRoom(s), p, poolOk, now, id, kept)
  {
  }

  lemma {:induction false} PutHolds(t: CacheState, p: Policy, poolOk: bool, now: nat, id: FileId, had: Option<Deposit>)
    requires OrderHolds(t.order, id, had) && DistinctIds(t.order)
    ensures OrderHolds(PutStep(t, p, poolOk, now).0.order, id, PutNext(t, p, poolOk, now, id, had))
  {
    StampedCarries(p, now, t.ttlSec);
    var after, k := PutStep(t, p, poolOk, now).0.order, IndexOf(t.order, p.id);
    assert after != t.order ==> k < |after| && after[k].id == p.id;
    if Has(t.order, id) {
      var j :| 0 <= j < |t.order| && t.order[j].id == id;
      assert after[j].id == id;
    }
  }

  lemma {:induction false} DepositStep(s: CacheState, step: Step, id: FileId, had: Option<Deposit>)
    requires OrderHolds(s.order, id, had) && DistinctIds(s.order)
    ensures OrderHolds(Apply(s, step).0.order, id, DepositNext(s, step, id, had))
  {
    match step.op {
      case Lookup(x) => LookupHolds(s, x, step.now, id, had);
      case Remove(x) =>
        if Has(s.order, x) {
          DroppedHolds(s.order, IndexOf(s.order, x), id, had);
        }
      case Insert(p, poolOk) => InsertHolds(s, p, poolOk, step.now, id, had);
      case _ =>
    }
  }

  lemma {:induction false} InsertHolds(s: CacheState, p: Policy, poolOk: bool, now: nat, id: FileId,
                                       had: Option<Deposit>)
    requires OrderHolds(s.order, id, had) && DistinctIds(s.order)
    ensures OrderHolds(InsertStep(s, p, poolOk, now).0.order, id,
      DepositNext(s, Step(Insert(p, poolOk), now), id, had))
  {
    var t := MakeRoom(s);
    var kept := if Has(t.order, id) then had else None;
    RoomHolds(s, id, had);
    RoomKeeps(s, id);
    InsertNext(s, p, poolOk, now, id, had, kept);
    PutHolds(t, p, poolOk, now, id, kept);
  }

  lemma {:induction false} DepositsHold(start: CacheState, steps: seq<Step>, id: FileId)
    requires start.order == []
    ensures DistinctIds(Run(start, steps).order)
    ensures OrderHolds(Run(start, steps).order, id, Deposited(start, steps, id))
  {
    if steps != [] {
      var before, last := steps[..|steps| - 1], steps[|steps| - 1];
      DepositsHold(start, before, id);
      CommandKeeps(Run(start, before), last, id);
      DepositStep(Run(start, before), last, id, Deposited(start, before, id));
    }
  }

  /** Both lookups hit exactly while the last insert is alive, and give back what was handed in. */
  ghost predicate AnswersFor(had: Option<Deposit>, now: nat, full: Outcome, quick: Outcome) {
    if had.Some? && Alive(had.value, now) then
      full.Found? && Carries(full.policy, had.value) && quick == FoundClass(had.value.policy.classification)
    else full == quick == NotFound
  }

  lemma {:induction false} CarriedExpiry(e: Policy, d: Deposit, now: nat)
    requires Carries(e, d)
    ensures Expired(e, now) <==> !Alive(d, now)
  {
    FlagBits(e.flags);
    FlagBits(d.policy.flags);
    assert Bit(e.flags, 1) == Bit(e.flags / 2, 0) == Bit(d.policy.flags, 1);
  }

  lemma {:induction false} HeldAnswers(s: CacheState, id: FileId, had: Option<Deposit>, now: nat)
    requires OrderHolds(s.order, id, had)
    ensures AnswersFor(had, now, LookupStep(s, id, now).1, QuickLookupStep(s, id, now).1)
  {
    var k := IndexOf(s.order, id);
    if k < |s.order| {
      CarriedExpiry(s.order[k], had.value, now);
    }
  }

  /** After any run, at any time, both lookup paths answer with the policy last inserted for the
      file and not since removed, cleared or evicted, while it is alive; otherwise both miss. */
  lemma {:induction false} LookupsAnswerFromHistory(maxEntries: nat, ttlSec: nat, steps: seq<Step>, id: FileId,
                                                    now: nat)
    ensures var start := Init(maxEntries, ttlSec);
      var s := Run(start, steps);
      AnswersFor(Deposited(start, steps, id), now, LookupStep(s, id, now).1, QuickLookupStep(s, id, now).1)
  {
    var start := Init(maxEntries, ttlSec);
    DepositsHold(start, steps, id);
    HeldAnswers(Run(start, steps), id, Deposited(start, steps, id), now);
  }

  // ---- The settings in force ----

  /** The TTL of the last configuration that gave one, or else that of the start, 300 by default. */
  function TtlAfter(ttlSec: nat, steps: seq<Step>): nat {
    if steps == [] then if ttlSec > 0 then ttlSec else 300
    else
      var last := steps[|steps| - 1].op;
      if last.Configure? && last.ttlSec > 0 then last.ttlSec else TtlAfter(ttlSec, steps[..|steps| - 1])
  }

  /** The limit of the last configuration that gave one of at most a million, or else that of the
      start, from 1024 to a million. */
  function LimitAfter(maxEntries: nat, steps: seq<Step>): nat {
    if steps == [] then if maxEntries < 1024 then 1024 else if maxEntries > 1_000_000 then 1_000_000 else maxEntries
    else
      var last := steps[|steps| - 1].op;
      if last.Configure? && 0 < last.maxEntries <= 1_000_000 then last.maxEntries
      else LimitAfter(maxEntries, steps[..|steps| - 1])
  }

  lemma {:induction false} SettingsAreHistory(maxEntries: nat, ttlSec: nat, steps: seq<Step>)
    ensures var s := Run(Init(maxEntries, ttlSec), steps);
      s.ttlSec == TtlAfter(ttlSec, steps) && s.maxEntries == LimitAfter(maxEntries, steps)
  {
    if steps != [] {
      var before, last := steps[..|steps| - 1], steps[|steps| - 1];
      SettingsAreHistory(maxEntries, ttlSec, before);
      SettingsStep(Run(Init(maxEntries, ttlSec), before), last);
    }
  }

  lemma {:induction false} SettingsStep(s: CacheState, step: Step)
    ensures var t := Apply(s, step).0;
      && t.ttlSec == (if step.op.Configure? && step.op.ttlSec > 0 then step.op.ttlSec else s.ttlSec)
      && t.maxEntries
           == if step.op.Configure? && 0 < step.op.maxEntries <= 1_000_000 then step.op.maxEntries else s.maxEntries
  {
    if step.op.Insert? {
      assert MakeRoom(s).ttlSec == s.ttlSec && MakeRoom(s).maxEntries == s.maxEntries;
    }
  }

  // ---- How long an entry lives ----

  /** The next step stores a policy for `id`. The quantifiers keep runs folded. */
  ghost predicate StoresAfter(start: CacheState, run: seq<Step>, step: Step, id: FileId) {
    forall x :: x == run ==> Stores(Run(start, x), step, id)
  }

  /** The next step neither stores a policy for `id` nor loses its entry. */
  ghost predicate SparesAfter(start: CacheState, run: seq<Step>, step: Step, id: FileId) {
    forall x :: x == run ==> !Stores(Run(start, x), step, id) && !Loses(Run(start, x), step, id)
  }

  ghost predicate HasAfter(start: CacheState, run: seq<Step>, id: FileId, d: Deposit) {
    forall x :: x == run ==> Deposited(start, x, id) == Some(d)
  }

  /** Step `i` stores a policy for its file, and no later step stores one for it or loses it. */
  ghost predicate StoredLast(start: CacheState, steps: seq<Step>, i: nat, id: FileId) {
    && i < |steps| && steps[i].op.Insert? && StoresAfter(start, steps[..i], steps[i], id)
    && forall j :: i < j < |steps| ==> SparesAfter(start, steps[..j], steps[j], id)
  }

  lemma {:induction false} SparedOneOn(start: CacheState, before: seq<Step>, after: seq<Step>, step: Step, id: FileId,
                                       d: Deposit)
    requires after == before + [step] && HasAfter(start, before, id, d) && SparesAfter(start, before, step, id)
    ensures HasAfter(start, after, id, d)
  {
    assert after[..|after| - 1] == before && after[|after| - 1] == step;
    assert Deposited(start, before, id) == Some(d);
    assert Deposited(start, after, id) == Some(d);
  }

  lemma {:induction false} StoredOneOn(start: CacheState, before: seq<Step>, after: seq<Step>, step: Step, id: FileId)
    returns (d: Deposit)
    requires step.op.Insert? && after == before + [step] && StoresAfter(start, before, step, id)
    ensures HasAfter(start, after, id, d)
    ensures d.policy == step.op.policy && d.at == step.now
    ensures forall x :: x == before ==> d.ttlSec == Run(start, x).ttlSec
  {
    assert after[..|after| - 1] == before && after[|after| - 1] == step;
    assert Stores(Run(start, before), step, id);
    d := Deposited(start, after, id).value;
  }

  lemma {:induction false} LastDeposit(start: CacheState, steps: seq<Step>, i: nat, n: nat, id: FileId, d: Deposit)
    requires StoredLast(start, steps, i, id) && i < n <= |steps| && HasAfter(start, steps[..i + 1], id, d)
    ensures HasAfter(start, steps[..n], id, d)
  {
    if i + 1 < n {
      LastDeposit(start, steps, i, n - 1, id, d);
      assert steps[..n] == steps[..n - 1] + [steps[n - 1]];
      SparedOneOn(start, steps[..n - 1], steps[..n], steps[n - 1], id, d);
    }
  }

  lemma {:induction false} LifetimeDeposit(maxEntries: nat, ttlSec: nat, steps: seq<Step>, i: nat, id: FileId)
    returns (d: Deposit)
    requires StoredLast(Init(maxEntries, ttlSec), steps, i, id)
    ensures HasAfter(Init(maxEntries, ttlSec), steps, id, d)
    ensures d.policy == steps[i].op.policy && d.at == steps[i].now && d.ttlSec == TtlAfter(ttlSec, steps[..i])
  {
    var start := Init(maxEntries, ttlSec);
    assert steps[..i + 1] == steps[..i] + [steps[i]] && steps[..|steps|] == steps;
    d := StoredOneOn(start, steps[..i], steps[..i + 1], steps[i], id);
    SettingsAreHistory(maxEntries, ttlSec, steps[..i]);
    LastDeposit(start, steps, i, |steps|, id, d);
  }

  /** At this time both lookups of this file hit, or both miss. */
  ghost predicate BothHit(s: CacheState, id: FileId, t: nat, hit: bool) {
    (LookupStep(s, id, t).1.Found? <==> hit) && (QuickLookupStep(s, id, t).1.FoundClass? <==> hit)
  }

  /** A policy inserted into a new or an existing entry is found by both lookups as long as it is not
      removed, cleared, evicted or inserted again: for good when it is permanent, and otherwise up to
      and including so many seconds of 10,000,000 ticks as the TTL in force at its insert said. */
  lemma {:induction false} EntryLifetime(maxEntries: nat, ttlSec: nat, steps: seq<Step>, i: nat, id: FileId, t: nat)
    requires StoredLast(Init(maxEntries, ttlSec), steps, i, id)
    ensures var p, ends := steps[i].op.policy, steps[i].now + TtlAfter(ttlSec, steps[..i]) * 10_000_000;
      HitsUntil(Run(Init(maxEntries, ttlSec), steps), id, p, ends, t)
  {
    var d := LifetimeDeposit(maxEntries, ttlSec, steps, i, id);
    AnswersOf(maxEntries, ttlSec, steps, id, d, t);
    AliveUntil(Run(Init(maxEntries, ttlSec), steps), id, d, t);
  }

  /** Both lookups hit if and only if the policy is permanent or the time is not past its end, which
      wraps at 64 bits. */
  ghost predicate HitsUntil(s: CacheState, id: FileId, p: Policy, ends: nat, t: nat) {
    && BothHit(s, id, t, Bit(p.flags, 1) || t <= ends % 0x1_0000_0000_0000_0000)
    && (ends < 0x1_0000_0000_0000_0000 ==> BothHit(s, id, t, Bit(p.flags, 1) || t <= ends))
  }

  lemma {:induction false} AliveUntil(s: CacheState, id: FileId, d: Deposit, t: nat)
    requires BothHit(s, id, t, Alive(d, t))
    ensures HitsUntil(s, id, d.policy, d.at + d.ttlSec * 10_000_000, t)
  {
  }

  lemma {:induction false} AnswersOf(maxEntries: nat, ttlSec: nat, steps: seq<Step>, id: FileId, d: Deposit, t: nat)
    requires HasAfter(Init(maxEntries, ttlSec), steps, id, d)
    ensures BothHit(Run(Init(maxEntries, ttlSec), steps), id, t, Alive(d, t))
  {
    assert Deposited(Init(maxEntries, ttlSec), steps, id) == Some(d);
    LookupsAnswerFromHistory(maxEntries, ttlSec, steps, id, t);
  }

  // ---- Access times and counters ----

  /** The time of the last step that stored a policy for `id` or hit its entry by a full lookup. */
  ghost function LastAccess(start: CacheState, steps: seq<Step>, id: FileId): nat {
    if steps == [] then 0
    else
      var before, last := steps[..|steps| - 1], steps[|steps| - 1];
      var had := Deposited(start, before, id);
      if Stores(Run(start, before), last, id) || (last.op == Lookup(id) && had.Some? && Alive(had.value, last.now))
      then last.now else LastAccess(start, before, id)
  }

  ghost predicate AccessedAt(order: seq<Policy>, id: FileId, at: nat) {
    forall k :: 0 <= k < |order| && order[k].id == id ==> order[k].lastAccess == at
  }

  lemma {:induction false} AccessStep(s: CacheState, step: Step, id: FileId, had: Option<Deposit>, at: nat)
    requires OrderHolds(s.order, id, had) && DistinctIds(s.order) && AccessedAt(s.order, id, at)
    ensures AccessedAt(Apply(s, step).0.order, id,
      if Stores(s, step, id) || (step.op == Lookup(id) && had.Some? && Alive(had.value, step.now)) then step.now
      else at)
  {
    match step.op {
      case Lookup(x) => LookupAccess(s, x, step.now, id, had, at);
      case Insert(p, poolOk) => InsertAccess(s, p, poolOk, step.now, id, at);
      case _ =>
    }
  }

  lemma {:induction false} LookupAccess(s: CacheState, x: FileId, now: nat, id: FileId, had: Option<Deposit>, at: nat)
    requires OrderHolds(s.order, id, had) && DistinctIds(s.order) && AccessedAt(s.order, id, at)
    ensures AccessedAt(LookupStep(s, x, now).0.order, id,
      if x == id && had.Some? && Alive(had.value, now) then now else at)
  {
    HeldAnswers(s, id, had, now);
    var k := IndexOf(s.order, x);
    if k < |s.order| {
      DropKeeps(s.order, k, id);
    }
  }

  lemma {:induction false} InsertAccess(s: CacheState, p: Policy, poolOk: bool, now: nat, id: FileId, at: nat)
    requires DistinctIds(s.order) && AccessedAt(s.order, id, at)
    ensures AccessedAt(InsertStep(s, p, poolOk, now).0.order, id,
      if p.id == id && (poolOk || Has(MakeRoom(s).order, id)) then now else at)
  {
    var t := MakeRoom(s);
    RoomKeeps(s, id);
    assert AccessedAt(t.order, id, at) by {
      var k := OldestUnpinned(s.order);
      if |s.order| >= s.maxEntries && k < |s.order| {
        DropKeeps(s.order, IndexOf(s.order, s.order[k].id), id);
      }
    }
    PutKeeps(t, p, poolOk, now, id);
  }

  /** The access time of an entry is that of the last insert or full hit. */
  lemma {:induction false} AccessIsHistory(start: CacheState, steps: seq<Step>, id: FileId)
    requires start.order == []
    ensures AccessedAt(Run(start, steps).order, id, LastAccess(start, steps, id))
  {
    if steps != [] {
      var before, last := steps[..|steps| - 1], steps[|steps| - 1];
      AccessIsHistory(start, before, id);
      DepositsHold(start, before, id);
      AccessStep(Run(start, before), last, id, Deposited(start, before, id), LastAccess(start, before, id));
    }
  }

  datatype Counters = Counters(hits: nat, misses: nat, evictions: nat, clears: nat)

  /** What a run counts: an expired entry misses twice on the quick path. */
  ghost function Counted(start: CacheState, steps: seq<Step>): Counters {
    if steps == [] then Counters(0, 0, 0, 0)
    else
      var before, step := steps[..|steps| - 1], steps[|steps| - 1];
      CountedNext(Run(start, before), step, Deposited(start, before, Subject(step.op)), Counted(start, before))
  }

  ghost predicate Counts(s: CacheState, c: Counters) {
    s.hits == c.hits && s.misses == c.misses && s.evictions == c.evictions && s.version == 1 + c.clears
  }

  lemma {:induction false} EvictionCounted(s: CacheState, step: Step)
    requires step.op.Insert? && DistinctIds(s.order)
    ensures MakeRoom(s).evictions == s.evictions + if exists id :: Evicts(s, step, id) then 1 else 0
  {
    var k := OldestUnpinned(s.order);
    if |s.order| >= s.maxEntries && k < |s.order| {
      DropKeeps(s.order, IndexOf(s.order, s.order[k].id), s.order[k].id);
      assert Evicts(s, step, s.order[k].id);
    }
  }

  /** What one step counts. */
  ghost function CountedNext(s: CacheState, step: Step, had: Option<Deposit>, c: Counters): Counters {
    match step.op
    case Lookup(_) =>
      if had.Some? && Alive(had.value, step.now) then c.(hits := c.hits + 1) else c.(misses := c.misses + 1)
    case QuickLookup(_) =>
      if had.None? then c.(misses := c.misses + 1)
      else if Alive(had.value, step.now) then c.(hits := c.hits + 1)
      else c.(misses := c.misses + 2)
    case Insert(_, _) => if exists id :: Evicts(s, step, id) then c.(evictions := c.evictions + 1) else c
    case Clear => c.(clears := c.clears + 1)
    case _ => c
  }

  /** The file a step is about. */
  function Subject(op: Op): FileId {
    match op
    case Lookup(id) => id
    case QuickLookup(id) => id
    case Insert(p, _) => p.id
    case Remove(id) => id
    case _ => FileId(0, 0)
  }

  lemma {:induction false} CounterStep(s: CacheState, step: Step, had: Option<Deposit>, c: Counters)
    requires DistinctIds(s.order) && OrderHolds(s.order, Subject(step.op), had) && Counts(s, c)
    ensures Counts(Apply(s, step).0, CountedNext(s, step, had, c))
  {
    match step.op {
      case Lookup(id) => HeldAnswers(s, id, had, step.now);
      case QuickLookup(id) => HeldAnswers(s, id, had, step.now);
      case Insert(_, _) => EvictionCounted(s, step);
      case _ =>
    }
  }

  /** The statistics of the cache are those of its history. */
  lemma {:induction false} CountersAreHistory(maxEntries: nat, ttlSec: nat, steps: seq<Step>)
    ensures Counts(Run(Init(maxEntries, ttlSec), steps), Counted(Init(maxEntries, ttlSec), steps))
  {
    if steps != [] {
      var start, before, step := Init(maxEntries, ttlSec), steps[..|steps| - 1], steps[|steps| - 1];
      CountersAreHistory(maxEntries, ttlSec, before);
      DepositsHold(start, before, Subject(step.op));
      CounterStep(Run(start, before), step, Deposited(start, before, Subject(step.op)), Counted(start, before));
    }
  }

  // ---- Every outcome from the history ----

  /** The outcome of a step after a run, by the history alone. */
  ghost predicate Fits(start: CacheState, run: seq<Step>, step: Step, o: Outcome) {
    match step.op
    case Lookup(id) =>
      var had := Deposited(start, run, id);
      if had.Some? && Alive(had.value, step.now) then
        o.Found? && Carries(o.policy, had.value) && o.policy.lastAccess == LastAccess(start, run, id)
      else o == NotFound
    case QuickLookup(id) =>
      var had := Deposited(start, run, id);
      o == if had.Some? && Alive(had.value, step.now) then FoundClass(had.value.policy.classification) else NotFound
    case Insert(p, _) => o == if Stores(Run(start, run), step, p.id) then Success else InsufficientResources
    case Remove(id) => o == if Deposited(start, run, id).Some? then Success else NotFound
    case _ => o == Success
  }

  ghost predicate AllFit(start: CacheState, steps: seq<Step>, outcomes: seq<Outcome>) {
    && |outcomes| == |steps|
    && forall i :: 0 <= i < |steps| ==> FitsAfter(start, steps[..i], steps[i], outcomes[i])
  }

  ghost predicate FitsAfter(start: CacheState, run: seq<Step>, step: Step, o: Outcome) {
    forall x :: x == run ==> Fits(start, x, step, o)
  }

  lemma {:induction false} StepFits(start: CacheState, run: seq<Step>, step: Step)
    requires start.order == []
    ensures FitsAfter(start, run, step, Apply(Run(start, run), step).1)
  {
    match step.op {
      case Lookup(id) =>
        LookupFits(start, run, id, step.now);
        AccessIsHistory(start, run, id);
      case QuickLookup(id) => LookupFits(start, run, id, step.now);
      case Remove(id) => DepositsHold(start, run, id);
      case _ =>
    }
  }

  lemma {:induction false} LookupFits(start: CacheState, run: seq<Step>, id: FileId, now: nat)
    requires start.order == []
    ensures var s := Run(start, run);
      AnswersFor(Deposited(start, run, id), now, LookupStep(s, id, now).1, QuickLookupStep(s, id, now).1)
  {
    DepositsHold(start, run, id);
    HeldAnswers(Run(start, run), id, Deposited(start, run, id), now);
  }

  /** Every outcome of every run is what the history of its operations says. */
  lemma {:induction false} OutcomesFit(start: CacheState, steps: seq<Step>)
    requires start.order == []
    ensures AllFit(start, steps, Outcomes(start, steps))
  {
    if steps != [] {
      var n := |steps| - 1;
      OutcomesFit(start, steps[..n]);
      StepFits(start, steps[..n], steps[n]);
      FitOneMore(start, steps, Outcomes(start, steps[..n]), Apply(Run(start, steps[..n]), steps[n]).1);
    }
  }

  lemma {:induction false} FitOneMore(start: CacheState, steps: seq<Step>, os: seq<Outcome>, o: Outcome)
    requires steps != []
    requires AllFit(start, steps[..|steps| - 1], os) && FitsAfter(start, steps[..|steps| - 1], steps[|steps| - 1], o)
    ensures AllFit(start, steps, os + [o])
  {
    var before := steps[..|steps| - 1];
    forall i | 0 <= i < |steps|
      ensures FitsAfter(start, steps[..i], steps[i], (os + [o])[i])
    {
      if i < |before| {
        assert before[..i] == steps[..i];
      }
    }
  }
}
