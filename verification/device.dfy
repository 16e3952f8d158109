/** The device record the cloud reports for each topic (const.py), and the
    behaviour every entity shares (base_device.py): its unique id, its
    availability, and how it finds its own record in a fresh snapshot. */
module Device {
  import opened Optional

  // Device-type strings of the record's `id` field.
  const LightType: string := "light"
  const AirConditionerType: string := "aircondition"
  const FanType: string := "fan"
  const CurtainType: string := "curtain"
  const SensorType: string := "sensor"

  /** A record older than this many seconds makes its entity unavailable. */
  const StaleSeconds: int := 600

  const IdPrefix: string := "bemfa_"

  /** The `msg` dictionary of a record. Every key is optional; an absent
      key is `None`. */
  datatype Msg = Msg(
    on: Option<bool>,
    mode: Option<int>,
    t: Option<real>,
    h: Option<real>,
    level: Option<int>,
    position: Option<int>,
    shake: Option<int>)
  {
    /** `msg.get('on', False)`. */
    predicate IsOn() {
      on.GetOr(false)
    }
  }

  /** One element of the cloud's device list. `unix` is the time of the
      device's last report, `units` the record-level unit list (an absent
      list reads as empty). */
  datatype Record = Record(
    topic: string,
    id: string,
    name: string,
    msg: Msg,
    unix: Option<int>,
    units: seq<string>)

  /** The `shake` field of a command: 1 when oscillating, else 0. */
  function ShakeFlag(oscillating: bool): (flag: int)
    ensures flag == 1 <==> oscillating
    ensures flag == 0 <==> !oscillating
  {
    if oscillating then 1 else 0
  }

  /** One user action: the commands it sent, in order, and the entity
      state after the optimistic local update. */
  datatype Step<S> = Step(sent: seq<string>, state: S)

  /** The base entity's unique id, `f"bemfa_{topic}"`. */
  function UniqueId(topic: string): (uid: string)
    ensures |uid| == |IdPrefix| + |topic|
    ensures uid[..|IdPrefix|] == IdPrefix && uid[|IdPrefix|..] == topic
  {
    IdPrefix + topic
  }

  /** Entities of different topics never share a base unique id. */
  lemma UniqueIdInjective(a: string, b: string)
    requires UniqueId(a) == UniqueId(b)
    ensures a == b
  {
    assert a == UniqueId(a)[|IdPrefix|..];
  }

  /** `available`: the coordinator's last refresh succeeded and the record
      was reported less than ten minutes before `now`; a record without a
      timestamp counts as reported at time 0. */
  function Available(lastUpdateSuccess: bool, now: int, r: Record): (ok: bool)
    ensures ok ==> lastUpdateSuccess
    ensures ok <==> lastUpdateSuccess && r.unix.GetOr(0) > now - StaleSeconds
  {
    lastUpdateSuccess && now - r.unix.GetOr(0) < StaleSeconds
  }

  /** An entity available now was available at every earlier moment not
      before its record's report, and it stops being available for good
      once ten minutes have passed without a newer record. */
  lemma AvailabilityWindow(ok: bool, now: int, later: int, r: Record)
    requires now <= later
    ensures Available(ok, later, r) ==> Available(ok, now, r)
    ensures later >= r.unix.GetOr(0) + StaleSeconds ==> !Available(ok, later, r)
  {
  }

  /** `i` is the index of the first record of `data` with the given topic. */
  predicate IsFirstWithTopic(data: seq<Record>, i: int, topic: string) {
    && 0 <= i < |data|
    && data[i].topic == topic
    && forall j :: 0 <= j < i ==> data[j].topic != topic
  }

  /** The generator `next(device for device in data if ...)`: the index of
      the first record with the topic, if any. */
  function FirstWithTopic(data: seq<Record>, topic: string): (r: Option<nat>)
    ensures r.Some? ==> IsFirstWithTopic(data, r.value, topic)
    ensures r.None? ==> forall j :: 0 <= j < |data| ==> data[j].topic != topic
  {
    if |data| == 0 then None
    else if data[0].topic == topic then Some(0)
    else
      match FirstWithTopic(data[1..], topic)
      case Some(i) => Some(i + 1)
      case None => None
  }

  /** `update_device_state`: with no snapshot the record stays; otherwise
      the entity takes the first record of the snapshot that carries its
      topic, and keeps its old record when none does. */
  function UpdateDeviceState(data: Option<seq<Record>>, current: Record): (r: Record)
    ensures r.topic == current.topic
    ensures data.None? ==> r == current
    ensures data.Some? && (forall j :: 0 <= j < |data.value| ==> data.value[j].topic != current.topic)
            ==> r == current
    ensures data.Some? && (exists j :: 0 <= j < |data.value| && data.value[j].topic == current.topic)
            ==> exists i :: IsFirstWithTopic(data.value, i, current.topic) && r == data.value[i]
  {
    match data
    case None => current
    case Some(d) =>
      match FirstWithTopic(d, current.topic)
      case Some(i) => d[i]
      case None => current
  }

  /** Refreshing twice from the same snapshot is refreshing once. */
  lemma UpdateDeviceStateIdempotent(data: Option<seq<Record>>, current: Record)
    ensures UpdateDeviceState(data, UpdateDeviceState(data, current)) == UpdateDeviceState(data, current)
  {
  }

  /** The records a platform's setup makes entities of: those whose `id`
      is the platform's device type, in snapshot order. */
  function RecordsOfType(data: seq<Record>, deviceType: string): (r: seq<Record>)
    ensures |r| <= |data|
    ensures forall i :: 0 <= i < |r| ==> r[i].id == deviceType && r[i] in data
    ensures forall j :: 0 <= j < |data| && data[j].id == deviceType ==> data[j] in r
  {
    if |data| == 0 then []
    else
      var rest := RecordsOfType(data[1..], deviceType);
      assert forall j :: 1 <= j < |data| ==> data[j] == data[1..][j - 1];
      (if data[0].id == deviceType then [data[0]] else []) + rest
  }

  /** Filtering a concatenated snapshot filters each part, in order. */
  lemma {:induction false} RecordsOfTypeAppend(a: seq<Record>, b: seq<Record>, deviceType: string)
    ensures RecordsOfType(a + b, deviceType) == RecordsOfType(a, deviceType) + RecordsOfType(b, deviceType)
    decreases |a|
  {
    if |a| == 0 {
      assert a + b == b;
    } else {
      assert (a + b)[1..] == a[1..] + b;
      RecordsOfTypeAppend(a[1..], b, deviceType);
    }
  }
}
