/** The read-only sensor entities (sensor.py): one entity per reading a
    sensor record carries, temperature (`t`) and humidity (`h`). */
module Sensor {
  import opened Optional
  import opened Device

  datatype Kind = Temperature | Humidity

  /** The message key of a kind of reading. */
  function Key(kind: Kind): string {
    match kind
    case Temperature => "t"
    case Humidity => "h"
  }

  /** The name suffix of a kind of reading (temperature, humidity). */
  function NameSuffix(kind: Kind): string {
    match kind
    case Temperature => " 温度"
    case Humidity => " 湿度"
  }

  /** `_get_unit`: the record's first unit for temperature when the list is
      not empty, its second unit for humidity when it has two, else none. */
  function Unit(record: Record, kind: Kind): (u: Option<string>)
    ensures kind == Temperature ==> (u.Some? <==> |record.units| > 0)
    ensures kind == Humidity ==> (u.Some? <==> |record.units| > 1)
    ensures u.Some? ==> u.value == record.units[if kind == Temperature then 0 else 1]
  {
    match kind
    case Temperature => if |record.units| > 0 then Some(record.units[0]) else None
    case Humidity => if |record.units| > 1 then Some(record.units[1]) else None
  }

  /** `msg.get(sensor_type)`: the reading under the kind's key, if any. */
  function Reading(msg: Msg, kind: Kind): (v: Option<real>)
    ensures kind == Temperature ==> v == msg.t
    ensures kind == Humidity ==> v == msg.h
  {
    match kind
    case Temperature => msg.t
    case Humidity => msg.h
  }

  /** `unit` is fixed when the entity is created. */
  datatype Sensor = Sensor(record: Record, kind: Kind, unit: Option<string>, value: Option<real>)

  /** `bemfa_<topic>_<t|h>`: distinct for the two kinds of one topic and
      never the base id of the topic. */
  function UniqueId(topic: string, kind: Kind): (uid: string)
    ensures |uid| == |Device.UniqueId(topic)| + 2
    ensures uid[..|Device.UniqueId(topic)|] == Device.UniqueId(topic)
    ensures uid[|uid| - 1..] == Key(kind)
  {
    Device.UniqueId(topic) + "_" + Key(kind)
  }

  lemma UniqueIdsDistinct(topic: string)
    ensures UniqueId(topic, Temperature) != UniqueId(topic, Humidity)
    ensures UniqueId(topic, Temperature) != Device.UniqueId(topic)
    ensures UniqueId(topic, Humidity) != Device.UniqueId(topic)
  {
    assert UniqueId(topic, Temperature)[|UniqueId(topic, Temperature)| - 1..] == "t";
    assert UniqueId(topic, Humidity)[|UniqueId(topic, Humidity)| - 1..] == "h";
  }

  /** The entity name: the device name with the kind's suffix. */
  function Name(deviceName: string, kind: Kind): (name: string)
    ensures |name| > |deviceName| && name[..|deviceName|] == deviceName
  {
    deviceName + NameSuffix(kind)
  }

  /** `_update_state`: the value is the record's reading of the kind. */
  function UpdateState(s: Sensor): (r: Sensor)
    ensures r.record == s.record && r.kind == s.kind && r.unit == s.unit
    ensures r.value == Reading(s.record.msg, s.kind)
  {
    s.(value := Reading(s.record.msg, s.kind))
  }

  /** Creating an entity: unit chosen once from the record, then a decode. */
  function Create(record: Record, kind: Kind): (s: Sensor)
    ensures s.record == record && s.kind == kind && s.unit == Unit(record, kind)
    ensures s.value == Reading(record.msg, kind)
  {
    UpdateState(Sensor(record, kind, Unit(record, kind), None))
  }

  /** `_handle_coordinator_update`: refresh the record, then decode it; the
      unit stays the one chosen at creation. */
  function HandleCoordinatorUpdate(data: Option<seq<Record>>, s: Sensor): (r: Sensor)
    ensures r.record == UpdateDeviceState(data, s.record)
    ensures r.record.topic == s.record.topic && r.unit == s.unit && r.kind == s.kind
    ensures r.value == Reading(r.record.msg, r.kind)
  {
    UpdateState(s.(record := UpdateDeviceState(data, s.record)))
  }

  /** A coordinator update is creating the sensor afresh from the refreshed
      record, except that the unit stays the one chosen at creation. */
  lemma RefreshIsCreate(data: Option<seq<Record>>, s: Sensor)
    ensures HandleCoordinatorUpdate(data, s) == Create(UpdateDeviceState(data, s.record), s.kind).(unit := s.unit)
  {
  }

  /** The entities one record yields: none unless it is a sensor record,
      then one per reading key present, temperature first. */
  function EntitiesFor(record: Record): (r: seq<Sensor>)
    ensures |r| <= 2
    ensures forall i :: 0 <= i < |r| ==>
      r[i] == Create(record, r[i].kind) && record.id == SensorType && Reading(record.msg, r[i].kind).Some?
    ensures record.id == SensorType && record.msg.t.Some? ==> Create(record, Temperature) in r
    ensures record.id == SensorType && record.msg.h.Some? ==> Create(record, Humidity) in r
    ensures |r| == (if record.id != SensorType then 0
                    else (if record.msg.t.Some? then 1 else 0) + (if record.msg.h.Some? then 1 else 0))
    ensures |r| > 0 && record.msg.t.Some? ==> r[0] == Create(record, Temperature)
    ensures |r| > 0 && record.msg.h.Some? ==> r[|r| - 1] == Create(record, Humidity)
  {
    if record.id != SensorType then []
    else
      (if record.msg.t.Some? then [Create(record, Temperature)] else [])
      + (if record.msg.h.Some? then [Create(record, Humidity)] else [])
  }

  /** The entities of a list of records, record by record. */
  function EntitiesOf(records: seq<Record>): (r: seq<Sensor>)
    ensures forall i :: 0 <= i < |r| ==>
      && r[i].record in records
      && r[i] == Create(r[i].record, r[i].kind)
      && r[i].record.id == SensorType
      && Reading(r[i].record.msg, r[i].kind).Some?
    ensures forall j, kind :: 0 <= j < |records| && records[j].id == SensorType && Reading(records[j].msg, kind).Some?
              ==> Create(records[j], kind) in r
  {
    if |records| == 0 then []
    else
      var rest := EntitiesOf(records[1..]);
      assert forall j :: 1 <= j < |records| ==> records[j] == records[1..][j - 1];
      EntitiesFor(records[0]) + rest
  }

  /** The entities of a record list are those of its first record,
      followed by those of the rest: together with `EntitiesOf([]) == []`
      this fixes the list exactly, in order. */
  lemma EntitiesOfCons(x: Record, rest: seq<Record>)
    ensures EntitiesOf([]) == []
    ensures EntitiesOf([x]) == EntitiesFor(x)
    ensures EntitiesOf([x] + rest) == EntitiesFor(x) + EntitiesOf(rest)
  {
    assert ([x] + rest)[1..] == rest;
    assert [x][1..] == [];
  }

  /** The entities of a concatenation are the entities of each part. */
  lemma {:induction false} EntitiesOfAppend(a: seq<Record>, b: seq<Record>)
    ensures EntitiesOf(a + b) == EntitiesOf(a) + EntitiesOf(b)
    decreases |a|
  {
    if |a| == 0 {
      assert a + b == b;
    } else {
      assert (a + b)[1..] == a[1..] + b;
      EntitiesOfAppend(a[1..], b);
    }
  }

  /** The sensor platform's setup over a snapshot: the records of type
      `sensor`, and of each one entity per reading key present, in snapshot
      order. */
  function Setup(data: seq<Record>): (r: seq<Sensor>)
    ensures forall i :: 0 <= i < |r| ==>
      && r[i].record in data
      && r[i] == Create(r[i].record, r[i].kind)
      && r[i].record.id == SensorType
      && Reading(r[i].record.msg, r[i].kind).Some?
    ensures forall j, kind :: 0 <= j < |data| && data[j].id == SensorType && Reading(data[j].msg, kind).Some?
              ==> Create(data[j], kind) in r
  {
    var records := RecordsOfType(data, SensorType);
    assert forall j :: 0 <= j < |data| && data[j].id == SensorType ==> exists k :: 0 <= k < |records| && records[k] == data[j];
    EntitiesOf(records)
  }

  /** Setup over a snapshot is the entities of its first record followed
      by setup over the rest; so every sensor record contributes exactly
      its one or two entities, in snapshot order, and no entity twice. */
  lemma SetupCons(x: Record, rest: seq<Record>)
    ensures Setup([]) == []
    ensures Setup([x] + rest) == EntitiesFor(x) + Setup(rest)
  {
    RecordsOfTypeAppend([x], rest, SensorType);
    assert [x][1..] == [];
    var tail := RecordsOfType(rest, SensorType);
    if x.id == SensorType {
      assert RecordsOfType([x], SensorType) == [x];
      EntitiesOfCons(x, tail);
    } else {
      assert RecordsOfType([x], SensorType) == [];
      assert [] + tail == tail;
    }
  }

  /** Setup over a concatenated snapshot is setup over each part, in order. */
  lemma SetupAppend(a: seq<Record>, b: seq<Record>)
    ensures Setup(a + b) == Setup(a) + Setup(b)
  {
    RecordsOfTypeAppend(a, b, SensorType);
    EntitiesOfAppend(RecordsOfType(a, SensorType), RecordsOfType(b, SensorType));
  }
}
