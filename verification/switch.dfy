/** The air conditioner's on/off switch (switch.py). It sends a fixed
    default command to turn on, updates its record only when the send
    succeeded, and then asks the same-topic climate entities to refresh. */
module Switch {
  import opened Optional
  import opened Text
  import opened Device
  import Command
  import Climate
  import Coordinator

  /** The turn-on command: auto mode, 25 degrees, low fan. */
  const TurnOnCommand: string := "on#1#25#1"

  const IdSuffix: string := "_switch"
  const NameSuffix: string := " 开关"

  datatype Switch = Switch(record: Record, isOn: bool)

  /** The switch's unique id `bemfa_<topic>_switch`, never the base id of
      its own topic (which its climate entity uses). */
  function UniqueId(topic: string): (uid: string)
    ensures |uid| == |Device.UniqueId(topic)| + |IdSuffix|
    ensures uid[..|Device.UniqueId(topic)|] == Device.UniqueId(topic)
    ensures uid != Device.UniqueId(topic)
  {
    Device.UniqueId(topic) + IdSuffix
  }

  /** The entity name: the device name followed by the word for switch. */
  function Name(deviceName: string): (name: string)
    ensures |name| > |deviceName| && name[..|deviceName|] == deviceName
  {
    deviceName + NameSuffix
  }

  /** `_update_state`: on iff the record says on (false when absent). */
  function UpdateState(s: Switch): (r: Switch)
    ensures r.record == s.record && (r.isOn <==> s.record.msg.IsOn())
  {
    s.(isOn := s.record.msg.IsOn())
  }

  /** Creating the entity: a first decode of its record. */
  function Create(record: Record): (s: Switch)
    ensures s.record == record && (s.isOn <==> record.msg.IsOn())
    ensures UpdateState(s) == s
  {
    UpdateState(Switch(record, false))
  }

  /** `_handle_coordinator_update`: refresh the record, then decode it. */
  function HandleCoordinatorUpdate(data: Option<seq<Record>>, s: Switch): (r: Switch)
    ensures r.record == UpdateDeviceState(data, s.record)
    ensures r.record.topic == s.record.topic && (r.isOn <==> r.record.msg.IsOn())
  {
    UpdateState(s.(record := UpdateDeviceState(data, s.record)))
  }

  /** A coordinator update is creating the switch afresh from the
      refreshed record. */
  lemma RefreshIsCreate(data: Option<seq<Record>>, s: Switch)
    ensures HandleCoordinatorUpdate(data, s) == Create(UpdateDeviceState(data, s.record))
  {
  }

  /** One switch action: the command sent, the new switch, and the
      climate entities asked to refresh. */
  datatype Action = Action(sent: seq<string>, state: Switch, refreshed: seq<Climate.Climate>)

  /** `async_turn_on`. Sends `on#1#25#1` whatever the state. If the send
      succeeded the record says on and every registered climate entity of
      the topic is asked to refresh; if it failed nothing changes. The
      shown `isOn` waits for the next decode either way. */
  function TurnOn(s: Switch, succeeded: bool, climates: seq<Climate.Climate>): (r: Action)
    ensures r.sent == [TurnOnCommand]
    ensures r.state.isOn == s.isOn
    ensures succeeded ==> r.state.record == s.record.(msg := s.record.msg.(on := Some(true)))
    ensures succeeded ==> r.refreshed == Coordinator.ClimatesForTopic(climates, s.record.topic)
    ensures !succeeded ==> r.state == s && r.refreshed == []
  {
    if succeeded then
      Action([TurnOnCommand], s.(record := s.record.(msg := s.record.msg.(on := Some(true)))),
             Coordinator.ClimatesForTopic(climates, s.record.topic))
    else Action([TurnOnCommand], s, [])
  }

  /** `async_turn_off`: as turn-on, with `off` and the record saying off. */
  function TurnOff(s: Switch, succeeded: bool, climates: seq<Climate.Climate>): (r: Action)
    ensures r.sent == [Command.Off]
    ensures r.state.isOn == s.isOn
    ensures succeeded ==> r.state.record == s.record.(msg := s.record.msg.(on := Some(false)))
    ensures succeeded ==> r.refreshed == Coordinator.ClimatesForTopic(climates, s.record.topic)
    ensures !succeeded ==> r.state == s && r.refreshed == []
  {
    if succeeded then
      Action([Command.Off], s.(record := s.record.(msg := s.record.msg.(on := Some(false)))),
             Coordinator.ClimatesForTopic(climates, s.record.topic))
    else Action([Command.Off], s, [])
  }

  /** The argument strings of the turn-on command. */
  lemma TurnOnArgStrings()
    ensures Command.ArgStrings([1, 25, 1]) == ["1", "25", "1"]
  {
    assert NatToString(2) == "2";
    assert NatToString(25) == NatToString(2) + [DigitChar(5)];
    assert IntToString(25) == "25";
    assert IntToString(1) == "1";
  }

  /** The turn-on command is the `#`-join of its head and arguments. */
  lemma TurnOnJoin()
    ensures Join([Command.On, "1", "25", "1"], '#') == TurnOnCommand
  {
    var parts := [Command.On, "1", "25", "1"];
    assert parts[1..] == ["1", "25", "1"];
    assert parts[1..][1..] == ["25", "1"];
    assert parts[1..][1..][1..] == ["1"];
    assert Join(["1"], '#') == "1";
    assert Join(["25", "1"], '#') == "25#1";
    assert Join(["1", "25", "1"], '#') == "1#25#1";
  }

  /** The switch's turn-on command is what the climate entity would send
      for auto mode, 25 degrees and low fan. */
  lemma TurnOnMatchesClimate()
    ensures TurnOnCommand == Climate.GenerateCommand(Climate.Internal(Climate.Auto, 25, Climate.Low)).cmd
    ensures Command.Decode(TurnOnCommand) == Some(Command.Parsed(Command.On, [1, 25, 1]))
  {
    TurnOnArgStrings();
    TurnOnJoin();
    assert [Command.On] + Command.ArgStrings([1, 25, 1]) == [Command.On, "1", "25", "1"];
    assert Command.Encode(Command.On, [1, 25, 1]) == TurnOnCommand;
  }

  /** After a successful turn-on, the next decode shows the switch on. */
  lemma TurnOnThenDecode(s: Switch, climates: seq<Climate.Climate>)
    ensures UpdateState(TurnOn(s, true, climates).state).isOn
    ensures !UpdateState(TurnOff(s, true, climates).state).isOn
  {
  }
}
