/** The in-memory device registry: registration with reuse of stale addresses, heartbeats and
    the periodic status update. Times are nanoseconds; identifiers of new records are unique. */
module DeviceRegistry {
  import opened PolicyTypes

  datatype Status = Online | Warning | Offline

  datatype Device = Device(
    id: string, hostname: string, ip: string, osVersion: string, agentVersion: string, status: Status,
    lastSeen: int, registeredAt: int, cpu: real, memory: real, disk: real, registrationMethod: string)

  type Devices = map<string, Device>

  /** Two minutes, 90 seconds and five minutes in nanoseconds. */
  const IP_RECLAIM_WINDOW := 120_000_000_000
  const WARNING_AFTER := 90_000_000_000
  const OFFLINE_AFTER := 300_000_000_000

  datatype Registration = Registration(
    hostname: string, ip: string, osVersion: string, agentVersion: string, method_: string)

  // ---- Steps ----

  predicate StaleAt(d: Device, ip: string, now: int) {
    d.ip != "" && d.ip == ip && now - d.lastSeen > IP_RECLAIM_WINDOW
  }

  predicate HasHost(devices: Devices, hostname: string) {
    exists k :: k in devices && devices[k].hostname == hostname
  }

  /** A record taken over or refreshed by a registration: the method only when one is given. */
  function Refreshed(d: Device, q: Registration, now: int): Device {
    d.(hostname := q.hostname, ip := q.ip, osVersion := q.osVersion, agentVersion := q.agentVersion,
       lastSeen := now, status := Online,
       registrationMethod := if q.method_ != "" then q.method_ else d.registrationMethod)
  }

  function NewDevice(q: Registration, id: string, now: int): Device {
    Device(id, q.hostname, q.ip, q.osVersion, q.agentVersion, Online, now, now, 0.0, 0.0, 0.0, q.method_)
  }

  /** `k` is a record that a registration may pick: the one of this host, or else, when no record
      has this host, one with this address that has been silent long enough. */
  ghost predicate Picks(devices: Devices, q: Registration, now: int, k: string) {
    && k in devices
    && (devices[k].hostname == q.hostname || (!HasHost(devices, q.hostname) && StaleAt(devices[k], q.ip, now)))
  }

  /** One registration of record `key`: a picked record is refreshed; only without any is a new one
      made. Go's map iteration may pick any of several stale records. */
  ghost predicate Registers(devices: Devices, q: Registration, newId: string, now: int, key: string,
                            devices': Devices) {
    || (Picks(devices, q, now, key) && devices' == devices[key := Refreshed(devices[key], q, now)])
    || (NonePicked(devices, q, now) && key == newId && devices' == devices[newId := NewDevice(q, newId, now)])
  }

  ghost predicate NonePicked(devices: Devices, q: Registration, now: int) {
    forall k :: !Picks(devices, q, now, k)
  }

  function Beaten(d: Device, ip: string, cpu: real, memory: real, disk: real, now: int): Device {
    d.(lastSeen := now, status := Online, ip := ip, cpu := cpu, memory := memory, disk := disk)
  }

  /** The record a heartbeat names: by id if that is known, else by host name. */
  ghost predicate Names(devices: Devices, deviceId: string, hostname: string, k: string) {
    && k in devices
    && if deviceId != "" && deviceId in devices then k == deviceId
       else hostname != "" && devices[k].hostname == hostname
  }

  ghost predicate NoneNamed(devices: Devices, deviceId: string, hostname: string) {
    forall k :: !Names(devices, deviceId, hostname, k)
  }

  function Degraded(d: Device, now: int): Device {
    if now - d.lastSeen > OFFLINE_AFTER then d.(status := Offline)
    else if now - d.lastSeen > WARNING_AFTER && d.status == Online then d.(status := Warning)
    else d
  }

  function AllDegraded(devices: Devices, now: int): Devices {
    map k | k in devices :: Degraded(devices[k], now)
  }

  // ---- The manager ----

  class DeviceManager {
    var devices: Devices

    constructor ()
      ensures devices == map[]
    {
      devices := map[];
    }

    method FindByHost(hostname: string) returns (r: Option<string>)
      ensures r.Some? ==> r.value in devices && devices[r.value].hostname == hostname
      ensures r.None? ==> !HasHost(devices, hostname)
    {
      var keys := devices.Keys;
      while keys != {}
        invariant keys <= devices.Keys
        invariant forall k :: k in devices && k !in keys ==> devices[k].hostname != hostname
        decreases keys
      {
        var k :| k in keys;
        if devices[k].hostname == hostname {
          return Some(k);
        }
        keys := keys - {k};
      }
      return None;
    }

    method FindStale(ip: string, now: int) returns (r: Option<string>)
      ensures r.Some? ==> r.value in devices && StaleAt(devices[r.value], ip, now)
      ensures r.None? ==> forall k :: k in devices ==> !StaleAt(devices[k], ip, now)
    {
      var keys := devices.Keys;
      while keys != {}
        invariant keys <= devices.Keys
        invariant forall k :: k in devices && k !in keys ==> !StaleAt(devices[k], ip, now)
        decreases keys
      {
        var k :| k in keys;
        if StaleAt(devices[k], ip, now) {
          return Some(k);
        }
        keys := keys - {k};
      }
      return None;
    }

    /** The key of the record that is refreshed or made. */
    method RegisterDevice(q: Registration, newId: string, now: int) returns (key: string)
      requires newId !in devices
      modifies this
      ensures Registers(old(devices), q, newId, now, key, devices)
    {
      var found := FindByHost(q.hostname);
      if found.None? {
        found := FindStale(q.ip, now);
      }
      if found.Some? {
        key := found.value;
        devices := devices[key := Refreshed(devices[key], q, now)];
      } else {
        key := newId;
        devices := devices[newId := NewDevice(q, newId, now)];
      }
    }

    method UpdateHeartbeat(deviceId: string, hostname: string, ip: string, cpu: real, memory: real, disk: real,
                           now: int)
      returns (found: bool, ghost key: Option<string>)
      modifies this
      ensures found == key.Some? && Steps(old(devices), Heartbeat(deviceId, hostname, ip, cpu, memory, disk), now, key,
                                          devices)
    {
      var k: Option<string> := None;
      if deviceId != "" && deviceId in devices {
        k := Some(deviceId);
      }
      if k.None? && hostname != "" {
        k := FindByHost(hostname);
      }
      if k.None? {
        return false, None;
      }
      devices := devices[k.value := Beaten(devices[k.value], ip, cpu, memory, disk, now)];
      return true, k;
    }

    /** One tick of the status updater. */
    method UpdateStatuses(now: int)
      modifies this
      ensures devices == AllDegraded(old(devices), now)
    {
      var keys := devices.Keys;
      while keys != {}
        invariant keys <= devices.Keys == old(devices).Keys
        invariant forall k :: k in keys ==> devices[k] == old(devices)[k]
        invariant forall k :: k in devices && k !in keys ==> devices[k] == Degraded(old(devices)[k], now)
        decreases keys
      {
        var k :| k in keys;
        var d := devices[k];
        var age := now - d.lastSeen;
        if age > OFFLINE_AFTER {
          if d.status != Offline {
            d := d.(status := Offline);
          }
        } else if age > WARNING_AFTER {
          if d.status == Online {
            d := d.(status := Warning);
          }
        }
        devices := devices[k := d];
        keys := keys - {k};
      }
    }
  }

  // ---- What every run keeps ----

  datatype RegistryStep =
    | Register(q: Registration, newId: string)
    | Heartbeat(deviceId: string, hostname: string, ip: string, cpu: real, memory: real, disk: real)
    | Tick

  /** One step, which names the record `key` or none. */
  ghost predicate Steps(devices: Devices, step: RegistryStep, now: int, key: Option<string>, devices': Devices) {
    match step
    case Register(q, newId) =>
      newId !in devices && key.Some? && Registers(devices, q, newId, now, key.value, devices')
    case Heartbeat(id, host, ip, cpu, memory, disk) =>
      if key.None? then NoneNamed(devices, id, host) && devices' == devices
      else
        && Names(devices, id, host, key.value)
        && devices' == devices[key.value := Beaten(devices[key.value], ip, cpu, memory, disk, now)]
    case Tick => key.None? && devices' == AllDegraded(devices, now)
  }

  /** A run as the states it passes through, the times of its steps and the records they name. */
  datatype Run = Run(states: seq<Devices>, steps: seq<RegistryStep>, times: seq<int>, keys: seq<Option<string>>)

  ghost predicate IsRun(r: Run) {
    && |r.states| - 1 == |r.steps| == |r.times| == |r.keys| && r.states[0] == map[]
    && (forall i :: 0 <= i < |r.steps| ==> StepAt(r, i))
    && (forall i, j :: 0 <= i < j < |r.times| ==> r.times[i] <= r.times[j])
  }

  ghost predicate StepAt(r: Run, i: nat)
    requires i < |r.steps| && i + 1 < |r.states| && i < |r.times| && i < |r.keys|
  {
    Steps(r.states[i], r.steps[i], r.times[i], r.keys[i], r.states[i + 1])
  }

  ghost predicate UniqueHosts(devices: Devices) {
    forall j, k :: j in devices && k in devices && devices[j].hostname == devices[k].hostname ==> j == k
  }

  /** What the status of a record says about its age. */
  ghost predicate StatusHonest(d: Device, now: int) {
    && d.lastSeen <= now
    && (d.status == Warning ==> now - d.lastSeen > WARNING_AFTER)
    && (d.status == Offline ==> now - d.lastSeen > OFFLINE_AFTER)
  }

  ghost predicate RegistryInvariant(devices: Devices, now: int) {
    && UniqueHosts(devices)
    && (forall k :: k in devices ==> devices[k].id == k && StatusHonest(devices[k], now))
  }

  lemma {:induction false} StepKeeps(devices: Devices, step: RegistryStep, before: int, now: int, key: Option<string>,
                                     devices': Devices)
    requires RegistryInvariant(devices, before) && before <= now && Steps(devices, step, now, key, devices')
    ensures RegistryInvariant(devices', now)
  {
    match step {
      case Register(q, newId) => RegisterKeeps(devices, q, newId, before, now, key.value, devices');
      case Heartbeat(_, _, ip, cpu, memory, disk) =>
        if key.Some? {
          ChangeKeeps(devices, before, now, key.value, devices'[key.value]);
        } else {
          LaterKeeps(devices, before, now);
        }
      case Tick => TickKeeps(devices, before, now);
    }
  }

  lemma {:induction false} LaterKeeps(devices: Devices, before: int, now: int)
    requires RegistryInvariant(devices, before) && before <= now
    ensures RegistryInvariant(devices, now)
  {
  }

  lemma {:induction false} ChangeKeeps(devices: Devices, before: int, now: int, k: string, d: Device)
    requires RegistryInvariant(devices, before) && before <= now && k in devices
    requires d.id == k && d.hostname == devices[k].hostname && StatusHonest(d, now)
    ensures RegistryInvariant(devices[k := d], now)
  {
  }

  /** What a tick makes of the status of a record: exactly what its age says. */
  ghost predicate StatusExact(d: Device, now: int) {
    var age := now - d.lastSeen;
    && (d.status == Offline <==> age > OFFLINE_AFTER)
    && (d.status == Warning <==> WARNING_AFTER < age <= OFFLINE_AFTER)
  }

  ghost predicate AllExact(devices: Devices, now: int) {
    forall k :: k in devices ==> StatusExact(devices[k], now)
  }

  lemma {:induction false} DegradedStatus(d: Device, before: int, now: int)
    requires StatusHonest(d, before) && before <= now
    ensures StatusHonest(Degraded(d, now), now) && StatusExact(Degraded(d, now), now)
  {
  }

  lemma {:induction false} TickKeeps(devices: Devices, before: int, now: int)
    requires RegistryInvariant(devices, before) && before <= now
    ensures RegistryInvariant(AllDegraded(devices, now), now)
    ensures AllExact(AllDegraded(devices, now), now)
  {
    var after := AllDegraded(devices, now);
    forall k | k in devices
      ensures after[k].id == k && after[k].hostname == devices[k].hostname
      ensures StatusHonest(after[k], now) && StatusExact(after[k], now)
    {
      DegradedStatus(devices[k], before, now);
    }
  }

  lemma {:induction false} RegisterKeeps(devices: Devices, q: Registration, newId: string, before: int, now: int,
                                         key: string, devices': Devices)
    requires RegistryInvariant(devices, before) && before <= now
    requires newId !in devices && Registers(devices, q, newId, now, key, devices')
    ensures RegistryInvariant(devices', now)
  {
    if Picks(devices, q, now, key) {
      forall j | j in devices' && j != key
        ensures devices'[j].hostname != q.hostname
      {
        assert devices[j] == devices'[j];
        assert devices[j].hostname == q.hostname ==> HasHost(devices, q.hostname);
      }
    } else {
      forall j | j in devices
        ensures devices[j].hostname != q.hostname
      {
        assert !Picks(devices, q, now, j);
      }
    }
  }

  /** In every state of every run under a monotone clock, each key is its record's id, host names
      are unique, a warning means more than 90 seconds of silence and offline more than 300. */
  lemma {:induction false} RegistryAlways(r: Run, i: nat)
    requires IsRun(r) && 0 < i < |r.states|
    ensures RegistryInvariant(r.states[i], r.times[i - 1])
    decreases i
  {
    if i == 1 {
      assert StepAt(r, 0);
      StepKeeps(r.states[0], r.steps[0], r.times[0], r.times[0], r.keys[0], r.states[1]);
    } else {
      RegistryAlways(r, i - 1);
      assert StepAt(r, i - 1);
      StepKeeps(r.states[i - 1], r.steps[i - 1], r.times[i - 2], r.times[i - 1], r.keys[i - 1], r.states[i]);
    }
  }

  /** No step removes a record or changes its id or its registration time, and one that gives it
      another host name is a registration for its address after two minutes of silence. */
  lemma {:induction false} RecordsKept(devices: Devices, step: RegistryStep, now: int, key: Option<string>,
                                       devices': Devices, k: string)
    requires Steps(devices, step, now, key, devices') && k in devices
    ensures k in devices' && devices'[k].id == devices[k].id && devices'[k].registeredAt == devices[k].registeredAt
    ensures devices'[k].hostname != devices[k].hostname ==>
      && step.Register? && devices'[k].hostname == step.q.hostname
      && devices[k].ip == step.q.ip != "" && now - devices[k].lastSeen > 120_000_000_000
      && forall j :: j in devices ==> devices[j].hostname != step.q.hostname
  {
  }

  /** Over a whole run: a record once made keeps its id and registration time for good. */
  lemma {:induction false} RecordsKeptAlways(r: Run, i: nat, j: nat, k: string)
    requires IsRun(r) && i <= j < |r.states| && k in r.states[i]
    ensures k in r.states[j] && r.states[j][k].id == r.states[i][k].id
    ensures r.states[j][k].registeredAt == r.states[i][k].registeredAt
    decreases j
  {
    if i < j {
      RecordsKeptAlways(r, i, j - 1, k);
      assert StepAt(r, j - 1);
      RecordsKept(r.states[j - 1], r.steps[j - 1], r.times[j - 1], r.keys[j - 1], r.states[j], k);
    }
  }
}
