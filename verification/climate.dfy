/** The air-conditioner entity (climate.py). It keeps an internal mode,
    target temperature and fan mode that the cloud does not always echo;
    a report merges the fields it carries over that internal state, and
    every user action re-encodes the whole internal state as one
    `on#<mode>#<temp>#<fan>` command (or `off`). */
module Climate {
  import opened Optional
  import opened Numeric
  import opened Device
  import Command

  datatype HvacMode = Off | Auto | Cool | Heat | FanOnly | Dry | HeatCool

  const MinTemp: int := 16
  const MaxTemp: int := 32
  const InitialTarget: int := 25

  const Low: string := "low"
  const Medium: string := "medium"
  const High: string := "high"
  /** The supported fan modes; speed code `k` is `FanModes[k - 1]`. */
  const FanModes: seq<string> := [Low, Medium, High]

  /** The modes a device mode code can stand for. */
  predicate IsDeviceMode(m: HvacMode) {
    m == Auto || m == Cool || m == Heat || m == FanOnly || m == Dry
  }

  /** `_mode_to_hvac`: device mode code to HVAC mode; 6 is a second
      fan-only code, 7 a second auto code, and any other code reads as auto. */
  function ModeToHvac(code: int): (m: HvacMode)
    ensures IsDeviceMode(m)
    ensures m == Cool <==> code == 2
    ensures m == Heat <==> code == 3
    ensures m == Dry <==> code == 5
    ensures m == FanOnly <==> code == 4 || code == 6
    ensures m == Auto <==> code < 2 || code > 6
  {
    if code == 1 then Auto
    else if code == 2 then Cool
    else if code == 3 then Heat
    else if code == 4 then FanOnly
    else if code == 5 then Dry
    else if code == 6 then FanOnly
    else if code == 7 then Auto
    else Auto
  }

  /** `_hvac_to_mode`: HVAC mode to device mode code; off is 0 and a mode
      outside the table is sent as 1 (auto). */
  function HvacToMode(m: HvacMode): (code: int)
    ensures m == Off <==> code == 0
    ensures m != Off ==> 1 <= code <= 5
    ensures IsDeviceMode(m) ==> ModeToHvac(code) == m
    ensures !IsDeviceMode(m) && m != Off ==> code == 1
  {
    match m
    case Auto => 1
    case Cool => 2
    case Heat => 3
    case FanOnly => 4
    case Dry => 5
    case Off => 0
    case HeatCool => 1
  }

  /** Decoding then encoding a mode code: codes 1 to 5 come back as they
      were, 6 comes back as 4 and every other code as 1. */
  lemma ModeCodeRoundTrip(code: int)
    ensures HvacToMode(ModeToHvac(code)) == (if 1 <= code <= 5 then code else if code == 6 then 4 else 1)
  {
  }

  /** `_fan_mode_to_speed_code`: low, medium, high are 1, 2, 3; any other
      fan mode is sent as 1. */
  function FanModeToSpeedCode(f: string): (code: int)
    ensures 1 <= code <= 3
    ensures f in FanModes ==> FanModes[code - 1] == f
    ensures f !in FanModes ==> code == 1
  {
    if f == Low then 1
    else if f == Medium then 2
    else if f == High then 3
    else 1
  }

  /** `_speed_code_to_fan_mode`: 1, 2, 3 are low, medium, high; any other
      code reads as low. */
  function SpeedCodeToFanMode(code: int): (f: string)
    ensures f in FanModes
    ensures 1 <= code <= 3 ==> FanModeToSpeedCode(f) == code
    ensures !(1 <= code <= 3) ==> f == Low
  {
    if code == 1 then Low
    else if code == 2 then Medium
    else if code == 3 then High
    else Low
  }

  /** Both fan tables are inverse to each other on their domains. */
  lemma FanCodeRoundTrip(f: string, code: int)
    ensures f in FanModes ==> SpeedCodeToFanMode(FanModeToSpeedCode(f)) == f
    ensures 1 <= code <= 3 ==> FanModeToSpeedCode(SpeedCodeToFanMode(code)) == code
  {
  }

  /** The state the entity keeps for its next command. */
  datatype Internal = Internal(mode: HvacMode, target: int, fan: string)

  /** The internal state of a freshly created entity. */
  const InitialInternal: Internal := Internal(Off, InitialTarget, Low)

  /** The attributes shown to the host. */
  datatype Attrs = Attrs(
    hvacMode: HvacMode,
    current: Option<real>,
    target: int,
    fanMode: Option<string>)

  datatype Climate = Climate(record: Record, internal: Internal, attrs: Attrs)

  /** `is_on`. */
  predicate IsOn(c: Climate) {
    c.attrs.hvacMode != Off
  }

  /** The command that stands for an internal state: `off` for mode off,
      otherwise `on#<mode code>#<target>#<fan code>`. */
  predicate CommandFor(cmd: string, s: Internal) {
    if s.mode == Off then cmd == Command.Off
    else cmd == Command.Encode(Command.On, [HvacToMode(s.mode), s.target, FanModeToSpeedCode(s.fan)])
  }

  datatype Generated = Generated(cmd: string, internal: Internal)

  /** `_generate_command_msg`: the command for the internal state. When the
      mode is not off, an out-of-range target is clamped to [16, 32] and
      the clamped value is written back to the internal state. */
  function GenerateCommand(s: Internal): (r: Generated)
    ensures CommandFor(r.cmd, r.internal)
    ensures Command.WellFormed(r.cmd) && Command.FormSafe(r.cmd)
    ensures r.cmd == Command.Off <==> s.mode == Off
    ensures r.internal.mode == s.mode && r.internal.fan == s.fan
    ensures s.mode == Off ==> r.internal == s
    ensures s.mode != Off ==> MinTemp <= r.internal.target <= MaxTemp
    ensures s.mode != Off && MinTemp <= s.target <= MaxTemp ==> r.internal == s
    ensures s.mode != Off && s.target < MinTemp ==> r.internal.target == MinTemp
    ensures s.mode != Off && s.target > MaxTemp ==> r.internal.target == MaxTemp
  {
    Command.FixedCommandsWellFormed();
    if s.mode == Off then Generated(Command.Off, s)
    else
      var target := Clamp(s.target, MinTemp, MaxTemp);
      var args := [HvacToMode(s.mode), target, FanModeToSpeedCode(s.fan)];
      var cmd := Command.Encode(Command.On, args);
      Command.EncodedOnWellFormed(args);
      Generated(cmd, s.(target := target))
  }

  datatype Decoded = Decoded(internal: Internal, attrs: Attrs)

  /** `_update_state`. An off report shows mode off, no current
      temperature, the internal target and no fan mode, and leaves the
      internal state alone. An on report overwrites each internal field
      whose key is present (`t` truncated, not clamped) and keeps the
      others; the attributes then mirror the internal state, and the
      current temperature is the linked sensor's reading when there is a
      valid one (`reading`), else the target. */
  function UpdateState(msg: Msg, s: Internal, reading: Option<real>): (r: Decoded)
    ensures !msg.IsOn() ==> r.internal == s && r.attrs == Attrs(Off, None, s.target, None)
    ensures msg.IsOn() ==>
      && r.attrs == Attrs(r.internal.mode, r.attrs.current, r.internal.target, Some(r.internal.fan))
      && (msg.mode.None? ==> r.internal.mode == s.mode)
      && (msg.mode.Some? ==> r.internal.mode == ModeToHvac(msg.mode.value))
      && (msg.t.None? ==> r.internal.target == s.target)
      && (msg.t.Some? ==> r.internal.target == Truncate(msg.t.value))
      && (msg.level.None? ==> r.internal.fan == s.fan)
      && (msg.level.Some? ==> r.internal.fan == SpeedCodeToFanMode(msg.level.value))
      && (reading.Some? ==> r.attrs.current == reading)
      && (reading.None? ==> r.attrs.current == Some(r.internal.target as real))
  {
    if !msg.IsOn() then
      Decoded(s, Attrs(Off, None, s.target, None))
    else
      var mode := if msg.mode.Some? then ModeToHvac(msg.mode.value) else s.mode;
      var target := if msg.t.Some? then Truncate(msg.t.value) else s.target;
      var fan := if msg.level.Some? then SpeedCodeToFanMode(msg.level.value) else s.fan;
      var current := if reading.Some? then reading.value else target as real;
      Decoded(Internal(mode, target, fan), Attrs(mode, Some(current), target, Some(fan)))
  }

  /** Creating the entity and adding it to the host: the initial internal
      state (off, 25, low) decoded against the entity's record. */
  function Create(record: Record, reading: Option<real>): (c: Climate)
    ensures c.record == record
    ensures !record.msg.IsOn() ==> c.internal == InitialInternal && c.attrs.hvacMode == Off
    ensures record.msg.mode.None? ==> c.internal.mode == Off && c.attrs.hvacMode == Off
    ensures record.msg.IsOn() ==>
      && c.internal.mode == (if record.msg.mode.Some? then ModeToHvac(record.msg.mode.value) else Off)
      && c.internal.target == (if record.msg.t.Some? then Truncate(record.msg.t.value) else InitialTarget)
      && c.internal.fan == (if record.msg.level.Some? then SpeedCodeToFanMode(record.msg.level.value) else Low)
      && c.attrs.hvacMode == c.internal.mode
      && c.attrs.target == c.internal.target
      && c.attrs.fanMode == Some(c.internal.fan)
      && c.attrs.current == (if reading.Some? then reading else Some(c.internal.target as real))
    ensures !record.msg.IsOn() ==> c.attrs == Attrs(Off, None, InitialTarget, None)
  {
    var d := UpdateState(record.msg, InitialInternal, reading);
    Climate(record, d.internal, d.attrs)
  }

  /** `_handle_coordinator_update`: refresh the record from the snapshot,
      then decode it over the current internal state. */
  function HandleCoordinatorUpdate(data: Option<seq<Record>>, c: Climate, reading: Option<real>): (r: Climate)
    ensures r.record == UpdateDeviceState(data, c.record)
    ensures r.record.topic == c.record.topic
    ensures !r.record.msg.IsOn() ==> r.internal == c.internal && !IsOn(r)
    ensures var d := UpdateState(r.record.msg, c.internal, reading); r.internal == d.internal && r.attrs == d.attrs
  {
    var record := UpdateDeviceState(data, c.record);
    var d := UpdateState(record.msg, c.internal, reading);
    Climate(record, d.internal, d.attrs)
  }

  /** A coordinator update merges an on report into the entity's own
      internal state: each of `mode`, `t` and `level` that the refreshed
      record carries replaces its field, and each it lacks keeps the value
      the entity held. */
  lemma RefreshMerges(data: Option<seq<Record>>, c: Climate, reading: Option<real>)
    requires UpdateDeviceState(data, c.record).msg.IsOn()
    ensures var r := HandleCoordinatorUpdate(data, c, reading);
            var msg := r.record.msg;
            && r.internal.mode == (if msg.mode.Some? then ModeToHvac(msg.mode.value) else c.internal.mode)
            && r.internal.target == (if msg.t.Some? then Truncate(msg.t.value) else c.internal.target)
            && r.internal.fan == (if msg.level.Some? then SpeedCodeToFanMode(msg.level.value) else c.internal.fan)
            && r.attrs.hvacMode == r.internal.mode && IsOn(r) == (r.internal.mode != Off)
  {
  }

  /** `async_set_temperature`. Without a temperature nothing happens.
      Otherwise the temperature is clamped to [16, 32], truncated, stored
      in the internal state and the attribute, and the whole state is sent
      as one command; a failed send rolls nothing back. */
  function SetTemperature(c: Climate, temperature: Option<real>): (r: Step<Climate>)
    ensures temperature.None? ==> r == Step([], c)
    ensures temperature.Some? ==>
      && |r.sent| == 1
      && CommandFor(r.sent[0], r.state.internal)
      && r.state.record == c.record
      && r.state.internal == c.internal.(target := r.state.internal.target)
      && r.state.attrs == c.attrs.(target := r.state.internal.target)
      && MinTemp <= r.state.internal.target <= MaxTemp
      && (MinTemp as real <= temperature.value <= MaxTemp as real ==>
            r.state.internal.target == temperature.value.Floor)
      && (temperature.value < MinTemp as real ==> r.state.internal.target == MinTemp)
      && (temperature.value > MaxTemp as real ==> r.state.internal.target == MaxTemp)
  {
    match temperature
    case None => Step([], c)
    case Some(t) =>
      var clamped := if t < MinTemp as real then MinTemp as real else if t > MaxTemp as real then MaxTemp as real else t;
      var target := Truncate(clamped);
      var g := GenerateCommand(c.internal.(target := target));
      Step([g.cmd], Climate(c.record, g.internal, c.attrs.(target := target)))
  }

  /** `async_set_hvac_mode`: the mode becomes the internal mode and the
      attribute at once, and the whole state is sent; `off` when the mode
      is off. A stored target outside [16, 32] is clamped in the internal
      state (the attribute keeps the old value). */
  function SetHvacMode(c: Climate, mode: HvacMode): (r: Step<Climate>)
    ensures |r.sent| == 1 && CommandFor(r.sent[0], r.state.internal)
    ensures r.sent[0] == Command.Off <==> mode == Off
    ensures r.state.internal.mode == mode && r.state.attrs.hvacMode == mode
    ensures r.state.internal.fan == c.internal.fan
    ensures r.state.attrs == c.attrs.(hvacMode := mode) && r.state.record == c.record
    ensures r.state.internal.target ==
      (if mode == Off then c.internal.target else Clamp(c.internal.target, MinTemp, MaxTemp))
    ensures mode != Off ==> MinTemp <= r.state.internal.target <= MaxTemp
  {
    var g := GenerateCommand(c.internal.(mode := mode));
    Step([g.cmd], Climate(c.record, g.internal, c.attrs.(hvacMode := mode)))
  }

  /** `async_set_fan_mode`: a fan mode outside low/medium/high is ignored
      (no command, no change); a supported one is stored and the whole
      state is sent. */
  function SetFanMode(c: Climate, fan: string): (r: Step<Climate>)
    ensures fan !in FanModes ==> r == Step([], c)
    ensures fan in FanModes ==>
      && |r.sent| == 1
      && CommandFor(r.sent[0], r.state.internal)
      && r.state.internal.fan == fan && r.state.attrs.fanMode == Some(fan)
      && r.state.internal.mode == c.internal.mode
      && r.state.internal.target ==
           (if c.internal.mode == Off then c.internal.target else Clamp(c.internal.target, MinTemp, MaxTemp))
      && r.state.attrs == c.attrs.(fanMode := Some(fan))
      && r.state.record == c.record
  {
    if fan !in FanModes then Step([], c)
    else
      var g := GenerateCommand(c.internal.(fan := fan));
      Step([g.cmd], Climate(c.record, g.internal, c.attrs.(fanMode := Some(fan))))
  }

  /** A report that echoes an `on` command's fields: mode code, target and
      fan code. */
  function EchoMessage(mode: int, target: int, fan: int): Msg {
    Msg(Some(true), Some(mode), Some(target as real), None, Some(fan), None, None)
  }

  /** Encoding then decoding is stable: for a state the device can show
      (a device mode, a target in [16, 32], a supported fan mode), the
      command leaves the state as it is, and a report echoing the
      command's fields decodes to the same state whatever the entity held
      before. */
  lemma EncodeDecodeStable(s: Internal, before: Internal, reading: Option<real>)
    requires IsDeviceMode(s.mode) && MinTemp <= s.target <= MaxTemp && s.fan in FanModes
    ensures GenerateCommand(s).internal == s
    ensures UpdateState(EchoMessage(HvacToMode(s.mode), s.target, FanModeToSpeedCode(s.fan)), before, reading).internal == s
  {
    TruncateWhole(s.target);
  }

  /** The report a device gives back after a set-mode echoes the command's
      fields, and decoding it gives the internal state the action stored,
      whatever the entity held before. */
  lemma SetHvacModeEchoes(c: Climate, mode: HvacMode, before: Internal, reading: Option<real>)
    requires IsDeviceMode(mode) && c.internal.fan in FanModes
    ensures var r := SetHvacMode(c, mode);
            var p := Command.Decode(r.sent[0]).value;
            UpdateState(EchoMessage(p.args[0], p.args[1], p.args[2]), before, reading).internal == r.state.internal
  {
    var r := SetHvacMode(c, mode);
    EncodeDecodeStable(r.state.internal, before, reading);
  }

  /** The same for a set-fan-mode of a running entity. */
  lemma SetFanModeEchoes(c: Climate, fan: string, before: Internal, reading: Option<real>)
    requires IsDeviceMode(c.internal.mode) && fan in FanModes
    ensures var r := SetFanMode(c, fan);
            var p := Command.Decode(r.sent[0]).value;
            UpdateState(EchoMessage(p.args[0], p.args[1], p.args[2]), before, reading).internal == r.state.internal
  {
    var r := SetFanMode(c, fan);
    EncodeDecodeStable(r.state.internal, before, reading);
  }

  /** A device reported on but never with a mode shows mode off, because
      the internal mode starts as off and only a `mode` key changes it. */
  lemma OnWithoutModeShowsOff(msg: Msg, reading: Option<real>)
    requires msg.IsOn() && msg.mode.None?
    ensures UpdateState(msg, InitialInternal, reading).attrs.hvacMode == Off
  {
  }

  /** An off report does not reset the internal mode: a later temperature
      change sends an `on` command with the mode the entity held before
      the report, although the entity shows off. */
  lemma OffReportKeepsStaleMode(c: Climate, msg: Msg, reading: Option<real>, t: real)
    requires !msg.IsOn() && c.internal.mode != Off
    ensures var d := UpdateState(msg, c.internal, reading);
            var after := Climate(c.record, d.internal, d.attrs);
            && !IsOn(after)
            && Command.Decode(SetTemperature(after, Some(t)).sent[0]).value.head == Command.On
            && Command.Decode(SetTemperature(after, Some(t)).sent[0]).value.args[0] == HvacToMode(c.internal.mode)
  {
  }

  /** A report `{on: true, mode: 2, t: 22, level: 1}` decodes to cool,
      22 degrees, low fan; an off report shows off with no current
      temperature and keeps the target. */
  lemma DecodeScenario(s: Internal)
    ensures var d := UpdateState(EchoMessage(2, 22, 1), s, None);
            d.attrs == Attrs(Cool, Some(22.0), 22, Some(Low))
    ensures var off := Msg(Some(false), None, None, None, None, None, None);
            var d := UpdateState(off, s, None);
            d.attrs.hvacMode == Off && d.attrs.current.None? && d.attrs.target == s.target
  {
    TruncateWhole(22);
  }
}
