/** The fixed three-speed fan variant (fan-3level.py): fixed tables
    between levels 0..3 and percentages 0/33/66/100, and a decode that
    falls back on the previous percentage when a report has no level. */
module FanThreeLevel {
  import opened Optional
  import opened Device
  import Command

  /** The lowest non-zero setting, used to turn the fan on. */
  const LowPercentage: int := 33

  /** `_level_to_percentage`: 0, 1, 2, 3 are 0%, 33%, 66%, 100%; any other
      level reads as 0%. */
  function LevelToPercentage(level: int): (p: int)
    ensures p == 0 || p == 33 || p == 66 || p == 100
    ensures p == 0 <==> !(1 <= level <= 3)
    ensures 0 <= level <= 3 ==> PercentageToLevel(p) == level
  {
    if level == 0 then 0
    else if level == 1 then 33
    else if level == 2 then 66
    else if level == 3 then 100
    else 0
  }

  /** `_percentage_to_level`: 0% is level 0, up to 33% level 1, up to 66%
      level 2, anything above level 3 (a negative percentage is level 1). */
  function PercentageToLevel(p: int): (l: int)
    ensures 0 <= l <= 3
    ensures l == 0 <==> p == 0
    ensures l == 1 <==> p != 0 && p <= 33
    ensures l == 3 <==> p > 66
  {
    if p == 0 then 0
    else if p <= 33 then 1
    else if p <= 66 then 2
    else 3
  }

  /** Snapping a percentage to its level's percentage keeps the level. */
  lemma SnapStable(p: int)
    ensures PercentageToLevel(LevelToPercentage(PercentageToLevel(p))) == PercentageToLevel(p)
  {
  }

  datatype Fan = Fan(record: Record, percentage: int, oscillating: bool, isOn: bool)

  /** `_update_state`. An on report without a level takes the level of the
      previous percentage when that is positive, else level 1; a level of 0
      counts as 1; the percentage is the level's, so a level outside 0..3
      shows 0% while the fan stays on. Oscillation iff `shake == 1`. An off
      report shows 0% and no oscillation. */
  function UpdateState(f: Fan): (r: Fan)
    ensures r.record == f.record
    ensures r.isOn == f.record.msg.IsOn()
    ensures !r.isOn ==> r.percentage == 0 && !r.oscillating
    ensures r.isOn ==> (r.oscillating <==> f.record.msg.shake == Some(1))
    ensures r.isOn && f.record.msg.level.None? && f.percentage > 0
            ==> r.percentage == LevelToPercentage(PercentageToLevel(f.percentage)) && r.percentage > 0
    ensures r.isOn && f.record.msg.level.None? && f.percentage <= 0 ==> r.percentage == LowPercentage
    ensures r.isOn && f.record.msg.level == Some(0) ==> r.percentage == LowPercentage
    ensures r.isOn && f.record.msg.level.Some? && f.record.msg.level.value != 0
            ==> r.percentage == LevelToPercentage(f.record.msg.level.value)
    ensures r.isOn && f.record.msg.level.Some? && !(0 <= f.record.msg.level.value <= 3)
            ==> r.percentage == 0
  {
    var msg := f.record.msg;
    if msg.IsOn() then
      var level :=
        if msg.level.Some? then msg.level.value
        else if f.percentage > 0 then
          (var l := PercentageToLevel(f.percentage); if l == 0 then 1 else l)
        else 1;
      var level' := if level == 0 then 1 else level;
      f.(percentage := LevelToPercentage(level'), oscillating := msg.shake.GetOr(0) == 1, isOn := true)
    else
      f.(percentage := 0, oscillating := false, isOn := false)
  }

  /** Creating the entity: 0% and no oscillation, then a first decode. */
  function Create(record: Record): (f: Fan)
    ensures f.record == record && f.isOn == record.msg.IsOn()
    ensures !f.isOn ==> f.percentage == 0 && !f.oscillating
    ensures f.isOn ==> (f.oscillating <==> record.msg.shake == Some(1))
    ensures f.isOn && (record.msg.level.None? || record.msg.level == Some(0)) ==> f.percentage == LowPercentage
    ensures f.isOn && record.msg.level.Some? && record.msg.level.value != 0
            ==> f.percentage == LevelToPercentage(record.msg.level.value)
  {
    UpdateState(Fan(record, 0, false, record.msg.IsOn()))
  }

  /** `_handle_coordinator_update`: refresh the record, then decode it over
      the previous percentage. */
  function HandleCoordinatorUpdate(data: Option<seq<Record>>, f: Fan): (r: Fan)
    ensures r.record == UpdateDeviceState(data, f.record) && r.isOn == r.record.msg.IsOn()
    ensures !r.isOn ==> r.percentage == 0 && !r.oscillating
    ensures r.isOn ==> (r.oscillating <==> r.record.msg.shake == Some(1))
    ensures r.isOn && r.record.msg.level.None? && f.percentage > 0
            ==> r.percentage == LevelToPercentage(PercentageToLevel(f.percentage))
                && PercentageToLevel(r.percentage) == PercentageToLevel(f.percentage)
    ensures r.isOn && r.record.msg.level.None? && f.percentage <= 0 ==> r.percentage == LowPercentage
    ensures r.isOn && r.record.msg.level == Some(0) ==> r.percentage == LowPercentage
    ensures r.isOn && r.record.msg.level.Some? && r.record.msg.level.value != 0
            ==> r.percentage == LevelToPercentage(r.record.msg.level.value)
  {
    UpdateState(f.(record := UpdateDeviceState(data, f.record)))
  }

  /** Only an on report without a level looks at the shown percentage: any
      other refreshed record gives the fan a fresh entity would get. */
  lemma RefreshIsCreate(data: Option<seq<Record>>, f: Fan)
    requires var msg := UpdateDeviceState(data, f.record).msg; !msg.IsOn() || msg.level.Some?
    ensures HandleCoordinatorUpdate(data, f) == Create(UpdateDeviceState(data, f.record))
  {
  }

  /** An on report without a level keeps a running fan's level: a fan shown
      at 66% that is reported on with no level stays at 66%. */
  lemma RefreshKeepsLevel(data: Option<seq<Record>>, f: Fan)
    requires f.percentage == 66
    requires var msg := UpdateDeviceState(data, f.record).msg; msg.IsOn() && msg.level.None?
    ensures HandleCoordinatorUpdate(data, f).percentage == 66
    ensures Create(UpdateDeviceState(data, f.record)).percentage == LowPercentage
  {
  }

  /** `async_set_percentage`: `off` for 0%, else `on#<level>#<shake>`; the
      record takes `on` and the level and the entity snaps to 0, 33, 66 or
      100%, whatever the send result. */
  function SetPercentage(f: Fan, p: int): (r: Step<Fan>)
    ensures |r.sent| == 1
    ensures r.sent[0] == Command.Off <==> p == 0
    ensures p != 0 ==> r.sent[0] == Command.Encode(Command.On, [PercentageToLevel(p), ShakeFlag(f.oscillating)])
    ensures Command.WellFormed(r.sent[0]) && Command.FormSafe(r.sent[0])
    ensures r.state.isOn <==> p > 0
    ensures r.state.percentage in {0, 33, 66, 100}
    ensures PercentageToLevel(r.state.percentage) == PercentageToLevel(p)
    ensures r.state.oscillating == f.oscillating
    ensures r.state.record == f.record.(msg := f.record.msg.(on := Some(p > 0), level := Some(PercentageToLevel(p))))
  {
    Command.FixedCommandsWellFormed();
    var level := PercentageToLevel(p);
    var cmd := if p == 0 then Command.Off else Command.Encode(Command.On, [level, ShakeFlag(f.oscillating)]);
    Command.EncodedOnWellFormed([level, ShakeFlag(f.oscillating)]);
    var record := f.record.(msg := f.record.msg.(on := Some(p > 0), level := Some(level)));
    Step([cmd], f.(record := record, percentage := LevelToPercentage(level), isOn := p > 0))
  }

  /** The optimistic update agrees with the next decode of the same record. */
  lemma SetPercentageRedecodes(f: Fan, p: int)
    requires p >= 0
    ensures var s := SetPercentage(f, p).state;
            UpdateState(s).isOn == s.isOn && UpdateState(s).percentage == s.percentage
  {
  }

  /** `async_turn_on`: with a percentage, set it; without one, resume the
      current percentage, or 33% when it is 0. */
  function TurnOn(f: Fan, p: Option<int>): (r: Step<Fan>)
    ensures p.Some? ==> r == SetPercentage(f, p.value)
    ensures p.None? && f.percentage == 0 ==> r == SetPercentage(f, LowPercentage)
    ensures p.None? && f.percentage != 0 ==> r == SetPercentage(f, f.percentage)
    ensures p.None? && f.percentage >= 0 ==> r.state.isOn
  {
    var target :=
      if p.Some? then p.value
      else if f.percentage == 0 then LowPercentage
      else f.percentage;
    SetPercentage(f, target)
  }

  /** `async_turn_off` is `async_set_percentage(0)`. */
  function TurnOff(f: Fan): (r: Step<Fan>)
    ensures r.sent == [Command.Off] && !r.state.isOn && r.state.percentage == 0
    ensures r.state == f.(record := f.record.(msg := f.record.msg.(on := Some(false), level := Some(0))),
                          percentage := 0, isOn := false)
  {
    SetPercentage(f, 0)
  }

  /** `async_oscillate`. A fan that is off is first set to 33% and then
      sent `on#1#<shake>` (two commands); a fan that is on is sent
      `on#<level of its percentage>#<shake>`. */
  function Oscillate(f: Fan, oscillating: bool): (r: Step<Fan>)
    ensures !f.isOn ==> |r.sent| == 2 && r.sent[0] == SetPercentage(f, LowPercentage).sent[0]
    ensures !f.isOn ==> r.state.isOn && r.state.percentage == LowPercentage
    ensures !f.isOn ==> r.state.record == f.record.(msg := f.record.msg.(on := Some(true), level := Some(1),
                                                     shake := Some(ShakeFlag(oscillating))))
    ensures f.isOn ==> |r.sent| == 1 && r.state.percentage == f.percentage && r.state.isOn
    ensures f.isOn ==> r.state.record == f.record.(msg := f.record.msg.(shake := Some(ShakeFlag(oscillating))))
    ensures |r.sent| >= 1
    ensures r.sent[|r.sent| - 1] == Command.Encode(Command.On,
              [if f.isOn then PercentageToLevel(f.percentage) else 1, ShakeFlag(oscillating)])
    ensures r.state.oscillating == oscillating
    ensures r.state.record.msg.shake == Some(ShakeFlag(oscillating))
  {
    var shake := ShakeFlag(oscillating);
    var before := if f.isOn then Step([], f) else SetPercentage(f, LowPercentage);
    var level := if f.isOn then PercentageToLevel(f.percentage) else PercentageToLevel(LowPercentage);
    var cmd := Command.Encode(Command.On, [level, shake]);
    var s := before.state;
    Step(before.sent + [cmd],
         s.(record := s.record.(msg := s.record.msg.(shake := Some(shake))), oscillating := oscillating))
  }

  /** For a fan that shows what its record says, the optimistic update of
      an oscillate agrees with the next decode of the record it writes:
      same on state, percentage and oscillation. */
  lemma OscillateRedecodes(f: Fan, oscillating: bool)
    requires UpdateState(f) == f
    ensures var s := Oscillate(f, oscillating).state;
            && UpdateState(s).isOn == s.isOn
            && UpdateState(s).percentage == s.percentage
            && UpdateState(s).oscillating == s.oscillating
  {
  }

  /** A fan shown on at 0% (an on report with a level that maps to 0%) is
      oscillated as a running fan: one command, `on#0#<shake>`. */
  lemma OscillateShownOnAtZero(f: Fan, oscillating: bool)
    requires f.isOn && f.percentage == 0
    ensures Oscillate(f, oscillating).sent == [Command.Encode(Command.On, [0, ShakeFlag(oscillating)])]
  {
  }
}
