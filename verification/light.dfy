/** The on/off light (light.py). Its on state is read live from the
    record, and both commands update the record whatever the send result. */
module Light {
  import opened Optional
  import opened Device
  import Command

  /** `attrIsOn` is the attribute the decode writes; the host reads `IsOn`. */
  datatype Light = Light(record: Record, attrIsOn: bool)

  /** `is_on`: the record's `on`, false when absent. */
  predicate IsOn(l: Light) {
    l.record.msg.IsOn()
  }

  /** `_update_state`: the attribute mirrors the record. */
  function UpdateState(l: Light): (r: Light)
    ensures r.record == l.record
    ensures r.attrIsOn == IsOn(r)
  {
    l.(attrIsOn := l.record.msg.IsOn())
  }

  /** Creating the entity: the attribute starts as the record's `on`. */
  function Create(record: Record): (l: Light)
    ensures l.record == record && l.attrIsOn == IsOn(l)
    ensures UpdateState(l) == l
  {
    Light(record, record.msg.IsOn())
  }

  /** `_handle_coordinator_update`: refresh the record, then decode it. */
  function HandleCoordinatorUpdate(data: Option<seq<Record>>, l: Light): (r: Light)
    ensures r.record == UpdateDeviceState(data, l.record)
    ensures r.record.topic == l.record.topic && r.attrIsOn == IsOn(r)
  {
    UpdateState(l.(record := UpdateDeviceState(data, l.record)))
  }

  /** A coordinator update is creating the light afresh from the refreshed
      record. */
  lemma RefreshIsCreate(data: Option<seq<Record>>, l: Light)
    ensures HandleCoordinatorUpdate(data, l) == Create(UpdateDeviceState(data, l.record))
  {
  }

  /** `async_turn_on`: sends `on`; the record says on. */
  function TurnOn(l: Light): (r: Step<Light>)
    ensures r.sent == [Command.On] && IsOn(r.state)
    ensures r.state.record == l.record.(msg := l.record.msg.(on := Some(true)))
    ensures r.state.attrIsOn == l.attrIsOn
  {
    Step([Command.On], l.(record := l.record.(msg := l.record.msg.(on := Some(true)))))
  }

  /** `async_turn_off`: sends `off`; the record says off. */
  function TurnOff(l: Light): (r: Step<Light>)
    ensures r.sent == [Command.Off] && !IsOn(r.state)
    ensures r.state.record == l.record.(msg := l.record.msg.(on := Some(false)))
    ensures r.state.attrIsOn == l.attrIsOn
  {
    Step([Command.Off], l.(record := l.record.(msg := l.record.msg.(on := Some(false)))))
  }

  /** Turning on and then off (or off and then on) ends in the state of
      the last command, and the next decode agrees with it. */
  lemma ToggleSettles(l: Light)
    ensures !IsOn(TurnOff(TurnOn(l).state).state) && IsOn(TurnOn(TurnOff(l).state).state)
    ensures UpdateState(TurnOn(l).state).attrIsOn && !UpdateState(TurnOff(l).state).attrIsOn
  {
  }
}
