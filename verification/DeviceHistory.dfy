/** The registry told from the history of its calls alone: which record a call names and what each
    record holds after any run. */
module DeviceHistory {
  import opened PolicyTypes
  import opened DeviceRegistry

  // ---- The calls that named a record ----

  type Kind = RegistryStep -> bool

  function Contacts(step: RegistryStep): bool { !step.Tick? }
  function Registrations(step: RegistryStep): bool { step.Register? }
  function Heartbeats(step: RegistryStep): bool { step.Heartbeat? }
  function Methods(step: RegistryStep): bool { step.Register? && step.q.method_ != "" }

  ghost predicate IsPrefix(r: Run, i: nat) {
    i <= |r.steps| && i <= |r.keys| && i <= |r.times|
  }

  /** The last of the first `i` steps that is of this kind and named `k`, or -1. */
  ghost function Last(r: Run, i: nat, k: string, kind: Kind): (j: int)
    requires IsPrefix(r, i)
    ensures -1 <= j < i
    ensures j >= 0 ==> r.keys[j] == Some(k) && kind(r.steps[j])
  {
    if i == 0 then -1
    else if r.keys[i - 1] == Some(k) && kind(r.steps[i - 1]) then i - 1
    else Last(r, i - 1, k, kind)
  }

  lemma {:induction false} LastIsLast(r: Run, i: nat, k: string, kind: Kind, m: nat)
    requires IsPrefix(r, i) && m < i && r.keys[m] == Some(k) && kind(r.steps[m])
    ensures m <= Last(r, i, k, kind)
    decreases i
  {
    if m < i - 1 {
      LastIsLast(r, i - 1, k, kind, m);
    }
  }

  /** The first of the first `i` steps that named `k`, or -1. */
  ghost function First(r: Run, i: nat, k: string): (j: int)
    requires IsPrefix(r, i)
    ensures -1 <= j < i
  {
    if i == 0 then -1
    else
      var earlier := First(r, i - 1, k);
      if earlier < 0 && r.keys[i - 1] == Some(k) then i - 1 else earlier
  }

  /** The last tick among the first `i` steps, or -1. */
  ghost function LastTick(r: Run, i: nat): (j: int)
    requires IsPrefix(r, i)
    ensures -1 <= j < i
    ensures j >= 0 ==> r.steps[j].Tick?
  {
    if i == 0 then -1 else if r.steps[i - 1].Tick? then i - 1 else LastTick(r, i - 1)
  }

  function AddressOf(step: RegistryStep): string {
    match step
    case Register(q, _) => q.ip
    case Heartbeat(_, _, ip, _, _, _) => ip
    case Tick => ""
  }

  // ---- What a record holds ----

  /** Offline after 300 seconds of silence, in warning after 90. */
  function StatusAfter(silence: int): Status {
    if silence > 300_000_000_000 then Offline
    else if silence > 90_000_000_000 then Warning
    else Online
  }

  /** Online since the last contact, until a tick finds the silence too long. */
  ghost predicate StatusFits(r: Run, i: nat, k: string, status: Status)
    requires IsPrefix(r, i) && Last(r, i, k, Contacts) >= 0
  {
    var c, t := Last(r, i, k, Contacts), LastTick(r, i);
    status == if t < c then Online else StatusAfter(r.times[t] - r.times[c])
  }

  /** Time and address of the last contact, versions and host of the last registration, metrics of the
      last heartbeat, and the time of the first contact. */
  ghost predicate FieldsFit(r: Run, i: nat, k: string, d: Device)
    requires IsPrefix(r, i)
  {
    var c, g, b := Last(r, i, k, Contacts), Last(r, i, k, Registrations), Last(r, i, k, Heartbeats);
    var first, m := First(r, i, k), Last(r, i, k, Methods);
    && c >= 0 && g >= 0 && first >= 0 && d.id == k
    && d.lastSeen == r.times[c] && d.ip == AddressOf(r.steps[c]) && d.registeredAt == r.times[first]
    && d.hostname == r.steps[g].q.hostname && d.osVersion == r.steps[g].q.osVersion
    && d.agentVersion == r.steps[g].q.agentVersion
    && d.registrationMethod == (if m < 0 then "" else r.steps[m].q.method_)
    && (if b < 0 then d.cpu == d.memory == d.disk == 0.0
        else d.cpu == r.steps[b].cpu && d.memory == r.steps[b].memory && d.disk == r.steps[b].disk)
  }

  /** There is a record for `k` exactly if some call named it, and it holds what its calls brought. */
  ghost predicate RecordFits(r: Run, i: nat, k: string)
    requires IsPrefix(r, i) && i < |r.states|
  {
    && (k in r.states[i] <==> Last(r, i, k, Contacts) >= 0)
    && (k in r.states[i] ==> FieldsFit(r, i, k, r.states[i][k]) && StatusFits(r, i, k, r.states[i][k].status))
  }

  /** A step that does not name `k` leaves all but its status alone. */
  lemma {:induction false} OthersFit(r: Run, i: nat, k: string, d: Device)
    requires IsPrefix(r, i + 1) && r.keys[i] != Some(k) && FieldsFit(r, i, k, d)
    ensures FieldsFit(r, i + 1, k, d)
    ensures Last(r, i + 1, k, Contacts) == Last(r, i, k, Contacts)
  {
  }

  lemma {:induction false} TickFits(r: Run, i: nat, k: string, d: Device)
    requires IsRun(r) && i < |r.steps| && r.steps[i].Tick? && r.keys[i].None?
    requires FieldsFit(r, i, k, d) && StatusFits(r, i, k, d.status)
    ensures FieldsFit(r, i + 1, k, Degraded(d, r.times[i]))
    ensures StatusFits(r, i + 1, k, Degraded(d, r.times[i]).status)
  {
    OthersFit(r, i, k, d);
    var c, t := Last(r, i, k, Contacts), LastTick(r, i);
    assert r.times[c] <= r.times[i];
    assert t >= c ==> r.times[t] <= r.times[i];
  }

  lemma {:induction false} RegisteredFits(r: Run, i: nat, k: string, d: Device)
    requires IsPrefix(r, i + 1) && r.keys[i] == Some(k) && r.steps[i].Register? && FieldsFit(r, i, k, d)
    ensures FieldsFit(r, i + 1, k, Refreshed(d, r.steps[i].q, r.times[i])) && StatusFits(r, i + 1, k, Online)
  {
  }

  lemma {:induction false} NewFits(r: Run, i: nat, k: string)
    requires IsPrefix(r, i + 1) && r.keys[i] == Some(k) && r.steps[i].Register?
    requires forall j :: 0 <= j < i ==> r.keys[j] != Some(k)
    ensures FieldsFit(r, i + 1, k, NewDevice(r.steps[i].q, k, r.times[i])) && StatusFits(r, i + 1, k, Online)
  {
    NeverNamed(r, i, k);
  }

  lemma {:induction false} NeverNamed(r: Run, i: nat, k: string)
    requires IsPrefix(r, i) && forall j :: 0 <= j < i ==> r.keys[j] != Some(k)
    ensures forall kind: Kind :: Last(r, i, k, kind) == -1
    ensures First(r, i, k) == -1
  {
    if i > 0 {
      NeverNamed(r, i - 1, k);
    }
  }

  lemma {:induction false} BeatenFits(r: Run, i: nat, k: string, d: Device)
    requires IsPrefix(r, i + 1) && r.keys[i] == Some(k) && r.steps[i].Heartbeat? && FieldsFit(r, i, k, d)
    ensures var h := r.steps[i];
      FieldsFit(r, i + 1, k, Beaten(d, h.ip, h.cpu, h.memory, h.disk, r.times[i])) && StatusFits(r, i + 1, k, Online)
  {
  }

  /** Ticks name no record. */
  lemma {:induction false} NamedByContact(r: Run, i: nat)
    requires IsRun(r) && i < |r.steps| && r.keys[i].Some?
    ensures Contacts(r.steps[i])
  {
    assert StepAt(r, i);
  }

  lemma {:induction false} OtherStepFits(r: Run, i: nat, k: string)
    requires IsRun(r) && i < |r.steps| && RecordFits(r, i, k) && r.keys[i] != Some(k)
    ensures RecordFits(r, i + 1, k)
  {
    assert StepAt(r, i);
    assert Last(r, i + 1, k, Contacts) == Last(r, i, k, Contacts);
    if k in r.states[i] {
      if r.steps[i].Tick? {
        TickFits(r, i, k, r.states[i][k]);
      } else {
        OthersFit(r, i, k, r.states[i][k]);
        assert LastTick(r, i + 1) == LastTick(r, i);
      }
    }
  }

  lemma {:induction false} NamedStepFits(r: Run, i: nat, k: string)
    requires IsRun(r) && i < |r.steps| && RecordFits(r, i, k) && r.keys[i] == Some(k)
    ensures RecordFits(r, i + 1, k)
  {
    assert StepAt(r, i);
    NamedByContact(r, i);
    if r.steps[i].Heartbeat? {
      BeatenFits(r, i, k, r.states[i][k]);
    } else if k in r.states[i] {
      RegisteredFits(r, i, k, r.states[i][k]);
    } else {
      forall j | 0 <= j < i
        ensures r.keys[j] != Some(k)
      {
        if r.keys[j] == Some(k) {
          NamedByContact(r, j);
          LastIsLast(r, i, k, Contacts, j);
        }
      }
      NewFits(r, i, k);
    }
  }

  /** After any number of steps of any run, every record is determined by the calls that named it. */
  lemma {:induction false} RecordsAreHistory(r: Run, i: nat, k: string)
    requires IsRun(r) && i < |r.states|
    ensures RecordFits(r, i, k)
    decreases i
  {
    if i > 0 {
      RecordsAreHistory(r, i - 1, k);
      if r.keys[i - 1] == Some(k) {
        NamedStepFits(r, i - 1, k);
      } else {
        OtherStepFits(r, i - 1, k);
      }
    }
  }

  // ---- Silence and status ----

  /** Right after a tick each record is offline, in warning or online exactly as the time since the
      last call that named it is over 300 seconds, over 90 or neither. */
  lemma {:induction false} TickIsExact(r: Run, i: nat, k: string)
    requires IsRun(r) && i < |r.steps| && r.steps[i].Tick? && k in r.states[i + 1]
    ensures var c := Last(r, i, k, Contacts);
      c >= 0 && r.states[i + 1][k].status == StatusAfter(r.times[i] - r.times[c])
  {
    RecordsAreHistory(r, i + 1, k);
    assert Last(r, i + 1, k, Contacts) == Last(r, i, k, Contacts);
  }

  /** Each tick comes at most so long after some contact with a record it finds. */
  ghost predicate Steady(r: Run, k: string, gap: int)
    requires IsRun(r)
  {
    forall i :: 0 <= i < |r.steps| && r.steps[i].Tick? && k in r.states[i] ==>
      exists j :: 0 <= j < i && r.keys[j] == Some(k) && r.times[i] - r.times[j] <= gap
  }

  lemma {:induction false} ContactBounds(r: Run, i: nat, j: nat, k: string)
    requires IsRun(r) && j < i < |r.states| && r.keys[j] == Some(k)
    ensures var c := Last(r, i, k, Contacts); j <= c < i && r.times[j] <= r.times[c]
  {
    NamedByContact(r, j);
    LastIsLast(r, i, k, Contacts, j);
  }

  /** A device in contact at least every 300 seconds is never offline, and one in contact at least
      every 90 seconds is always online. */
  lemma {:induction false} SteadyStaysOnline(r: Run, i: nat, k: string, gap: int)
    requires IsRun(r) && i < |r.states| && k in r.states[i] && Steady(r, k, gap)
    ensures gap <= 300_000_000_000 ==> r.states[i][k].status != Offline
    ensures gap <= 90_000_000_000 ==> r.states[i][k].status == Online
  {
    RecordsAreHistory(r, i, k);
    var c, t := Last(r, i, k, Contacts), LastTick(r, i);
    if t > c {
      KeptUntil(r, i, t, k);
      var j :| 0 <= j < t && r.keys[j] == Some(k) && r.times[t] - r.times[j] <= gap;
      ContactBounds(r, i, j, k);
    }
  }

  lemma {:induction false} KeptUntil(r: Run, i: nat, t: nat, k: string)
    requires IsRun(r) && t < i < |r.states| && k in r.states[i] && Last(r, i, k, Contacts) < t
    ensures k in r.states[t]
  {
    RecordsAreHistory(r, i, k);
    RecordsAreHistory(r, t, k);
    var c := Last(r, i, k, Contacts);
    LastIsLast(r, t, k, Contacts, c);
  }

  // ---- Which record a call names ----

  ghost predicate Known(r: Run, i: nat, k: string)
    requires IsPrefix(r, i)
  {
    Last(r, i, k, Contacts) >= 0 && Last(r, i, k, Registrations) >= 0
  }

  /** The host name of the last registration that named `k`. */
  ghost predicate OnHost(r: Run, i: nat, k: string, hostname: string)
    requires IsPrefix(r, i)
  {
    Known(r, i, k) && r.steps[Last(r, i, k, Registrations)].q.hostname == hostname
  }

  /** The last contact that named `k` came from this address, over two minutes ago. */
  ghost predicate SilentAt(r: Run, i: nat, k: string, ip: string, now: int)
    requires IsPrefix(r, i)
  {
    && Known(r, i, k) && ip != ""
    && var c := Last(r, i, k, Contacts);
      AddressOf(r.steps[c]) == ip && now - r.times[c] > 120_000_000_000
  }

  /** A registration names the record of its host; without one, a record silent at its address for
      over two minutes; without any, a new one. */
  ghost predicate RegistersRight(r: Run, i: nat)
    requires IsPrefix(r, i + 1) && r.steps[i].Register?
  {
    var q, now := r.steps[i].q, r.times[i];
    && r.keys[i].Some?
    && if exists k :: OnHost(r, i, k, q.hostname) then OnHost(r, i, r.keys[i].value, q.hostname)
       else if exists k :: SilentAt(r, i, k, q.ip, now) then SilentAt(r, i, r.keys[i].value, q.ip, now)
       else r.keys[i].value == r.steps[i].newId && !Known(r, i, r.steps[i].newId)
  }

  /** A heartbeat names the record of its id; without one, that of its host; and else none. */
  ghost predicate BeatsRight(r: Run, i: nat)
    requires IsPrefix(r, i + 1) && r.steps[i].Heartbeat?
  {
    var h := r.steps[i];
    if h.deviceId != "" && Known(r, i, h.deviceId) then r.keys[i] == Some(h.deviceId)
    else if h.hostname != "" && exists k :: OnHost(r, i, k, h.hostname) then
      r.keys[i].Some? && OnHost(r, i, r.keys[i].value, h.hostname)
    else r.keys[i] == None
  }

  lemma {:induction false} HostIsHistory(r: Run, i: nat, k: string, hostname: string)
    requires IsRun(r) && i < |r.states|
    ensures Known(r, i, k) <==> k in r.states[i]
    ensures OnHost(r, i, k, hostname) <==> k in r.states[i] && r.states[i][k].hostname == hostname
  {
    RecordsAreHistory(r, i, k);
  }

  lemma {:induction false} SilenceIsHistory(r: Run, i: nat, k: string, ip: string, now: int)
    requires IsRun(r) && i < |r.states|
    ensures SilentAt(r, i, k, ip, now) <==> k in r.states[i] && StaleAt(r.states[i][k], ip, now)
  {
    RecordsAreHistory(r, i, k);
  }

  lemma {:induction false} RegistrationNames(r: Run, i: nat)
    requires IsRun(r) && i < |r.steps| && r.steps[i].Register?
    ensures RegistersRight(r, i)
  {
    assert StepAt(r, i);
    var q, now, devices := r.steps[i].q, r.times[i], r.states[i];
    forall k
      ensures OnHost(r, i, k, q.hostname) <==> k in devices && devices[k].hostname == q.hostname
      ensures SilentAt(r, i, k, q.ip, now) <==> k in devices && StaleAt(devices[k], q.ip, now)
      ensures Known(r, i, k) <==> k in devices
    {
      HostIsHistory(r, i, k, q.hostname);
      SilenceIsHistory(r, i, k, q.ip, now);
    }
    PickedRight(devices, q, r.steps[i].newId, now, r.keys[i].value, r.states[i + 1]);
  }

  lemma {:induction false} PickedRight(devices: Devices, q: Registration, newId: string, now: int, key: string,
                                       devices': Devices)
    requires newId !in devices && Registers(devices, q, newId, now, key, devices')
    ensures
      if HasHost(devices, q.hostname) then key in devices && devices[key].hostname == q.hostname
      else if exists k :: k in devices && StaleAt(devices[k], q.ip, now) then
        key in devices && StaleAt(devices[key], q.ip, now)
      else key == newId
  {
    if k :| k in devices && devices[k].hostname == q.hostname {
      assert Picks(devices, q, now, k);
    } else if k :| k in devices && StaleAt(devices[k], q.ip, now) {
      assert Picks(devices, q, now, k);
    }
  }

  lemma {:induction false} HeartbeatNames(r: Run, i: nat)
    requires IsRun(r) && i < |r.steps| && r.steps[i].Heartbeat?
    ensures BeatsRight(r, i)
  {
    assert StepAt(r, i);
    var h, devices := r.steps[i], r.states[i];
    forall k
      ensures OnHost(r, i, k, h.hostname) <==> k in devices && devices[k].hostname == h.hostname
      ensures Known(r, i, k) <==> k in devices
    {
      HostIsHistory(r, i, k, h.hostname);
    }
    NamedRight(devices, h.deviceId, h.hostname, r.keys[i]);
  }

  lemma {:induction false} NamedRight(devices: Devices, deviceId: string, hostname: string, key: Option<string>)
    requires if key.None? then NoneNamed(devices, deviceId, hostname) else Names(devices, deviceId, hostname, key.value)
    ensures
      if deviceId != "" && deviceId in devices then key == Some(deviceId)
      else if hostname != "" && exists k :: k in devices && devices[k].hostname == hostname then
        key.Some? && key.value in devices && devices[key.value].hostname == hostname
      else key == None
  {
    if deviceId != "" && deviceId in devices {
      assert key.None? ==> !Names(devices, deviceId, hostname, deviceId);
    } else if k :| k in devices && devices[k].hostname == hostname {
      assert key.None? ==> !Names(devices, deviceId, hostname, k);
    }
  }

  // ---- Every run of the manager ----

  datatype Call = Call(step: RegistryStep, now: int)

  /** The clock never goes back and identifiers of new records are unique. */
  ghost predicate Orderly(calls: seq<Call>) {
    && (forall i, j :: 0 <= i < j < |calls| ==> calls[i].now <= calls[j].now)
    && (forall i, j :: 0 <= i < j < |calls| && calls[i].step.Register? && calls[j].step.Register? ==>
          calls[i].step.newId != calls[j].step.newId)
  }

  /** The run makes the first `n` calls. */
  ghost predicate Makes(r: Run, calls: seq<Call>, n: nat) {
    && IsRun(r) && |r.steps| == n <= |calls|
    && (forall i :: 0 <= i < n ==> r.steps[i] == calls[i].step && r.times[i] == calls[i].now)
    && MadeBy(r.states[n], calls, n)
  }

  /** Each record was made by one of the first `n` calls. */
  ghost predicate MadeBy(devices: Devices, calls: seq<Call>, n: nat)
    requires n <= |calls|
  {
    forall k :: k in devices ==> exists i :: 0 <= i < n && MakesRecord(calls[i].step, k)
  }

  lemma {:induction false} MadeOneMore(devices: Devices, calls: seq<Call>, n: nat, key: Option<string>,
                                       after: Devices)
    requires n < |calls| && MadeBy(devices, calls, n)
    requires Steps(devices, calls[n].step, calls[n].now, key, after)
    ensures MadeBy(after, calls, n + 1)
  {
    forall k | k in after
      ensures exists i :: 0 <= i < n + 1 && MakesRecord(calls[i].step, k)
    {
      if k in devices {
        var i :| 0 <= i < n && MakesRecord(calls[i].step, k);
      } else {
        NewIsMade(devices, calls[n].step, calls[n].now, key, after, k);
      }
    }
  }

  predicate MakesRecord(step: RegistryStep, k: string) {
    step.Register? && step.newId == k
  }

  ghost predicate Extends(r: Run, step: RegistryStep, now: int, key: Option<string>, after: Devices, s: Run) {
    s == Run(r.states + [after], r.steps + [step], r.times + [now], r.keys + [key])
  }

  lemma {:induction false} RunOneMore(r: Run, step: RegistryStep, now: int, key: Option<string>, after: Devices, s: Run)
    requires IsRun(r) && Extends(r, step, now, key, after, s)
    requires Steps(r.states[|r.steps|], step, now, key, after) && forall i :: 0 <= i < |r.steps| ==> r.times[i] <= now
    ensures IsRun(s)
  {
    forall i | 0 <= i <= |r.steps|
      ensures StepAt(s, i)
    {
      assert i < |r.steps| ==> StepAt(r, i);
    }
  }

  lemma {:induction false} MakesOneMore(r: Run, calls: seq<Call>, n: nat, key: Option<string>, after: Devices,
                                        s: Run)
    requires Makes(r, calls, n) && n < |calls| && Orderly(calls)
    requires Steps(r.states[n], calls[n].step, calls[n].now, key, after)
    requires Extends(r, calls[n].step, calls[n].now, key, after, s)
    ensures Makes(s, calls, n + 1)
  {
    RunOneMore(r, calls[n].step, calls[n].now, key, after, s);
    MadeOneMore(r.states[n], calls, n, key, after);
  }

  lemma {:induction false} NewIsMade(devices: Devices, step: RegistryStep, now: int, key: Option<string>,
                                     after: Devices, k: string)
    requires Steps(devices, step, now, key, after) && k in after && k !in devices
    ensures MakesRecord(step, k)
  {
  }

  lemma {:induction false} NewIdIsNew(r: Run, calls: seq<Call>, n: nat)
    requires Makes(r, calls, n) && n < |calls| && Orderly(calls) && calls[n].step.Register?
    ensures calls[n].step.newId !in r.states[n]
  {
  }

  /** Every sequence of calls to the manager is a run, whose calls name the right records and whose
      records hold what their calls brought. */
  method ExecuteRegistry(calls: seq<Call>) returns (devices: Devices, ghost r: Run)
    requires Orderly(calls)
    ensures Makes(r, calls, |calls|) && r.states[|calls|] == devices
    ensures forall k :: RecordFits(r, |calls|, k)
    ensures forall i :: 0 <= i < |calls| ==> NamesRight(r, i)
  {
    var manager := new DeviceManager();
    r := Run([map[]], [], [], []);
    for n := 0 to |calls|
      invariant fresh(manager) && Makes(r, calls, n) && r.states[n] == manager.devices
    {
      ghost var key: Option<string> := None;
      match calls[n].step {
        case Register(q, newId) =>
          NewIdIsNew(r, calls, n);
          var k := manager.RegisterDevice(q, newId, calls[n].now);
          key := Some(k);
        case Heartbeat(id, host, ip, cpu, memory, disk) =>
          var _, k := manager.UpdateHeartbeat(id, host, ip, cpu, memory, disk, calls[n].now);
          key := k;
        case Tick => manager.UpdateStatuses(calls[n].now);
      }
      ghost var s := Run(r.states + [manager.devices], r.steps + [calls[n].step], r.times + [calls[n].now],
                         r.keys + [key]);
      MakesOneMore(r, calls, n, key, manager.devices, s);
      r := s;
    }
    devices := manager.devices;
    AllFit(r);
  }

  ghost predicate NamesRight(r: Run, i: nat)
    requires IsPrefix(r, i + 1)
  {
    (r.steps[i].Register? ==> RegistersRight(r, i)) && (r.steps[i].Heartbeat? ==> BeatsRight(r, i))
  }

  lemma {:induction false} AllFit(r: Run)
    requires IsRun(r)
    ensures forall k :: RecordFits(r, |r.steps|, k)
    ensures forall i :: 0 <= i < |r.steps| ==> NamesRight(r, i)
  {
    forall k
      ensures RecordFits(r, |r.steps|, k)
    {
      RecordsAreHistory(r, |r.steps|, k);
    }
    forall i | 0 <= i < |r.steps|
      ensures NamesRight(r, i)
    {
      if r.steps[i].Register? {
        RegistrationNames(r, i);
      } else if r.steps[i].Heartbeat? {
        HeartbeatNames(r, i);
      }
    }
  }
}
