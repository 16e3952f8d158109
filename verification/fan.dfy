/** The fan with a configurable number of speed levels (fan.py). Percentages
    and levels are converted with Python's `round` on `level * (100 / n)`
    and `p / (100 / n)`; the model evaluates both quotients exactly. */
module Fan {
  import opened Optional
  import opened Numeric
  import opened Device
  import Command

  /** The level count used when the configured one is missing or below 1. */
  const DefaultLevels: int := 3

  type LevelCount = n: int | n >= 1 witness 1

  /** The level count the entity uses: the one configured for its topic if
      it is at least 1, the default otherwise. */
  function EffectiveLevels(configured: Option<int>): (n: LevelCount)
    ensures configured.Some? && configured.value >= 1 ==> n == configured.value
    ensures configured.None? || configured.value < 1 ==> n == DefaultLevels
  {
    if configured.Some? && configured.value >= 1 then configured.value else DefaultLevels
  }

  /** `_level_to_percentage`: level 0 is 0%; any other level is the
      percentage nearest to `level * 100 / n` (ties to even), kept within
      [0, 100], so a negative level is 0% and a level above n is 100%. */
  function LevelToPercentage(n: LevelCount, level: int): (p: int)
    ensures 0 <= p <= 100
    ensures level <= 0 ==> p == 0
    ensures level >= n ==> p == 100
    ensures 1 <= level <= n ==> 2 * Abs(100 * level - p * n) <= n
    ensures 1 <= level <= n && 2 * Abs(100 * level - p * n) == n ==> p % 2 == 0
  {
    if level == 0 then 0
    else
      LevelRounding(n, level);
      Clamp(RoundHalfEven(100 * level, n), 0, 100)
  }

  /** `_percentage_to_level`: 0% is level 0; any other percentage maps to
      a level in [1, n]. For a percentage in (0, 100] that level is the one
      nearest to `p * n / 100` (ties to even), except that a quotient
      rounding to 0 is raised to level 1; so level 1 means a quotient
      below 1.5. */
  function PercentageToLevel(n: LevelCount, p: int): (l: int)
    ensures p == 0 ==> l == 0
    ensures p != 0 ==> 1 <= l <= n
    ensures 0 < p <= 100 && l > 1 ==> 2 * Abs(p * n - 100 * l) <= 100
    ensures 0 < p <= 100 && l > 1 && 2 * Abs(p * n - 100 * l) == 100 ==> l % 2 == 0
    ensures 0 < p <= 100 && l == 1 ==> 2 * p * n < 300
  {
    if p == 0 then 0
    else
      PercentageRounding(n, p);
      Clamp(RoundHalfEven(p * n, 100), 1, n)
  }

  lemma LevelRounding(n: LevelCount, level: int)
    ensures 1 <= level <= n ==> 0 <= RoundHalfEven(100 * level, n) <= 100
    ensures level == n ==> RoundHalfEven(100 * level, n) == 100
    ensures level < 0 ==> RoundHalfEven(100 * level, n) <= 0
    ensures level > n ==> RoundHalfEven(100 * level, n) >= 100
  {
    if 1 <= level <= n {
      RoundWithin(100 * level, n, 0, 100);
    }
    if level == n {
      RoundWhole(100, n);
    }
    if level < 0 {
      ScaledNegative(100 * level, n);
      RoundWithin(100 * level, n, 100 * level, 0);
    }
    if level > n {
      ScaledAbove(level, n);
      RoundWithin(100 * level, n, 100, 100 * level);
    }
  }

  lemma ScaledNegative(a: int, n: LevelCount)
    requires a < 0
    ensures a * n <= a
  {
    assert a * n == a + a * (n - 1);
  }

  lemma ScaledAbove(level: int, n: LevelCount)
    requires level > n
    ensures 100 * n <= 100 * level <= (100 * level) * n
  {
    assert (100 * level) * n == 100 * level + (100 * level) * (n - 1);
  }

  lemma PercentageRounding(n: LevelCount, p: int)
    ensures 0 < p <= 100 ==> 0 <= RoundHalfEven(p * n, 100) <= n
  {
    if 0 < p <= 100 {
      assert 0 <= p * n <= n * 100;
      RoundWithin(p * n, 100, 0, n);
    }
  }

  /** For up to 100 levels, every level survives the trip to a percentage
      and back. */
  lemma LevelRoundTrip(n: LevelCount, l: int)
    requires n <= 100 && 1 <= l <= n
    ensures PercentageToLevel(n, LevelToPercentage(n, l)) == l
  {
    var p := LevelToPercentage(n, l);
    var pn := p * n;
    var a := 100 * l - pn;
    assert 2 * Abs(a) <= n;
    assert p != 0;
    assert 0 < p <= 100;
    var back := RoundHalfEven(pn, 100);
    ScaledPercentage(p, n);
    RoundWithin(pn, 100, 0, n);
    var b := pn - 100 * back;
    assert 2 * Abs(b) <= 100;
    assert 100 * (l - back) == a + b;
    if n == 100 {
      RoundWhole(l, 100);
      assert 100 * l == l * 100;
    }
    NoWholeHundred(a, b, n, l - back);
  }

  /** A percentage scaled by the level count lies in [0, 100 n]. */
  lemma ScaledPercentage(p: int, n: LevelCount)
    requires 0 <= p <= 100
    ensures 0 <= p * n <= n * 100
  {
  }

  /** Two rounding errors, one within half of `n < 100` (or none when
      `n = 100`) and one within 50, cannot add up to a non-zero multiple
      of 100. */
  lemma NoWholeHundred(a: int, b: int, n: int, d: int)
    requires n <= 100 && 2 * Abs(a) <= n && 2 * Abs(b) <= 100
    requires n == 100 ==> a == 0
    requires 100 * d == a + b
    ensures d == 0
  {
  }

  /** Snapping is stable: the level of a percentage, turned into a
      percentage and back, is the same level (for up to 100 levels). */
  lemma SnapStable(n: LevelCount, p: int)
    requires n <= 100
    ensures PercentageToLevel(n, LevelToPercentage(n, PercentageToLevel(n, p))) == PercentageToLevel(n, p)
  {
    if p != 0 {
      LevelRoundTrip(n, PercentageToLevel(n, p));
    }
  }

  /** Worked values: with 5 levels 50% is a tie and rounds to the even
      level 2, 60% is level 3; with 3 levels the percentages are 33, 67
      and 100, and the tie at 50% also goes to level 2. */
  lemma ConversionExamples()
    ensures PercentageToLevel(5, 50) == 2
    ensures PercentageToLevel(5, 60) == 3
    ensures LevelToPercentage(3, 1) == 33
    ensures LevelToPercentage(3, 2) == 67
    ensures LevelToPercentage(3, 3) == 100
    ensures PercentageToLevel(3, 50) == 2
  {
  }

  datatype Fan = Fan(
    record: Record,
    levels: LevelCount,
    percentage: int,
    oscillating: bool,
    isOn: bool)

  /** `_update_state`. An on report shows the percentage of its level,
      where a missing or zero level counts as 1 and a level above the
      count is capped at the count, and oscillation iff `shake == 1`. An
      off report shows 0% and no oscillation. */
  function UpdateState(f: Fan): (r: Fan)
    ensures r.record == f.record && r.levels == f.levels
    ensures r.isOn == f.record.msg.IsOn()
    ensures 0 <= r.percentage <= 100
    ensures !r.isOn ==> r.percentage == 0 && !r.oscillating
    ensures r.isOn ==> (r.oscillating <==> f.record.msg.shake == Some(1))
    ensures r.isOn && (f.record.msg.level.None? || f.record.msg.level == Some(0))
            ==> r.percentage == LevelToPercentage(f.levels, 1)
    ensures r.isOn && f.record.msg.level.Some? && f.record.msg.level.value >= f.levels
            ==> r.percentage == 100
    ensures r.isOn && f.record.msg.level.Some? && 0 < f.record.msg.level.value <= f.levels
            ==> r.percentage == LevelToPercentage(f.levels, f.record.msg.level.value)
    ensures r.isOn && f.record.msg.level.Some? && f.record.msg.level.value < 0 ==> r.percentage == 0
  {
    var msg := f.record.msg;
    if msg.IsOn() then
      var level := if msg.level.None? || msg.level == Some(0) then 1 else msg.level.value;
      var capped := if level < f.levels then level else f.levels;
      f.(percentage := LevelToPercentage(f.levels, capped),
         oscillating := msg.shake.GetOr(0) == 1,
         isOn := true)
    else
      f.(percentage := 0, oscillating := false, isOn := false)
  }

  /** Creating the entity: the effective level count, 0% and no
      oscillation, then a first decode of the record. */
  function Create(record: Record, configured: Option<int>): (f: Fan)
    ensures f.record == record && f.levels == EffectiveLevels(configured)
    ensures f.isOn == record.msg.IsOn()
    ensures UpdateState(f) == f
    ensures f.isOn && (record.msg.level.None? || record.msg.level == Some(0))
            ==> f.percentage == LevelToPercentage(f.levels, 1)
    ensures f.isOn && record.msg.level.Some? && 0 < record.msg.level.value <= f.levels
            ==> f.percentage == LevelToPercentage(f.levels, record.msg.level.value)
    ensures f.isOn && record.msg.level.Some? && record.msg.level.value >= f.levels ==> f.percentage == 100
    ensures f.isOn && record.msg.level.Some? && record.msg.level.value < 0 ==> f.percentage == 0
  {
    UpdateState(Fan(record, EffectiveLevels(configured), 0, false, record.msg.IsOn()))
  }

  /** `_handle_coordinator_update`: refresh the record, then decode it. */
  function HandleCoordinatorUpdate(data: Option<seq<Record>>, f: Fan): (r: Fan)
    ensures r.record == UpdateDeviceState(data, f.record) && r.levels == f.levels
    ensures r.isOn == r.record.msg.IsOn() && 0 <= r.percentage <= 100
  {
    UpdateState(f.(record := UpdateDeviceState(data, f.record)))
  }

  /** The decode keeps nothing of the shown state: a coordinator update is
      creating the fan afresh from the refreshed record with its level
      count. */
  lemma RefreshIsCreate(data: Option<seq<Record>>, f: Fan)
    ensures HandleCoordinatorUpdate(data, f) == Create(UpdateDeviceState(data, f.record), Some(f.levels))
  {
  }

  /** `async_set_percentage`. 0% sends `off`; any other percentage sends
      `on#<level>#<shake>` with the level of the percentage and the current
      oscillation. Whatever the send result, the record takes `on` (iff
      the percentage is positive) and the level, and the entity snaps to
      the level's percentage. */
  function SetPercentage(f: Fan, p: int): (r: Step<Fan>)
    ensures |r.sent| == 1
    ensures r.sent[0] == Command.Off <==> p == 0
    ensures p != 0 ==>
      r.sent[0] == Command.Encode(Command.On, [PercentageToLevel(f.levels, p), ShakeFlag(f.oscillating)])
    ensures Command.WellFormed(r.sent[0]) && Command.FormSafe(r.sent[0])
    ensures r.state.isOn <==> p > 0
    ensures r.state.percentage == LevelToPercentage(f.levels, PercentageToLevel(f.levels, p))
    ensures r.state.oscillating == f.oscillating && r.state.levels == f.levels
    ensures r.state.record == f.record.(msg := f.record.msg.(on := Some(p > 0), level := Some(PercentageToLevel(f.levels, p))))
  {
    Command.FixedCommandsWellFormed();
    var level := PercentageToLevel(f.levels, p);
    var cmd := if p == 0 then Command.Off else Command.Encode(Command.On, [level, ShakeFlag(f.oscillating)]);
    Command.EncodedOnWellFormed([level, ShakeFlag(f.oscillating)]);
    var record := f.record.(msg := f.record.msg.(on := Some(p > 0), level := Some(level)));
    Step([cmd], f.(record := record, percentage := LevelToPercentage(f.levels, level), isOn := p > 0))
  }

  /** The optimistic update agrees with the next decode of the same record:
      decoding after a set-percentage shows the same on/off state and
      percentage. */
  lemma SetPercentageRedecodes(f: Fan, p: int)
    requires p >= 0
    ensures var s := SetPercentage(f, p).state;
            UpdateState(s).isOn == s.isOn && UpdateState(s).percentage == s.percentage
  {
  }

  /** `async_turn_on`: with a percentage, set it; without one, resume the
      current percentage, or go to level 1's percentage when it is 0. */
  function TurnOn(f: Fan, p: Option<int>): (r: Step<Fan>)
    ensures p.Some? ==> r == SetPercentage(f, p.value)
    ensures p.None? && f.percentage == 0 ==> r == SetPercentage(f, LevelToPercentage(f.levels, 1))
    ensures p.None? && f.percentage != 0 ==> r == SetPercentage(f, f.percentage)
  {
    var target :=
      if p.Some? then p.value
      else if f.percentage == 0 then LevelToPercentage(f.levels, 1)
      else f.percentage;
    SetPercentage(f, target)
  }

  /** Without a percentage, turning on an entity showing a valid percentage
      leaves it on (for up to 100 levels). */
  lemma TurnOnWithoutPercentageIsOn(f: Fan)
    requires f.levels <= 100 && 0 <= f.percentage
    ensures TurnOn(f, None).state.isOn
    ensures TurnOn(f, None).sent[0] != Command.Off
  {
    if f.percentage == 0 {
      LevelRoundTrip(f.levels, 1);
    }
  }

  /** With 200 levels or more, level 1's percentage rounds to 0, so turning
      on a fan at 0% without a percentage sends `off` and leaves it off. */
  lemma TurnOnManyLevelsSendsOff(f: Fan)
    requires f.levels >= 200 && f.percentage == 0
    ensures LevelToPercentage(f.levels, 1) == 0
    ensures TurnOn(f, None).sent == [Command.Off]
    ensures !TurnOn(f, None).state.isOn
  {
    RoundToZero(100, f.levels);
  }

  /** `async_turn_off` is `async_set_percentage(0)`. */
  function TurnOff(f: Fan): (r: Step<Fan>)
    ensures r.sent == [Command.Off]
    ensures !r.state.isOn && r.state.percentage == 0
    ensures r.state.record.msg.on == Some(false) && r.state.record.msg.level == Some(0)
    ensures r.state == f.(record := f.record.(msg := f.record.msg.(on := Some(false), level := Some(0))),
                          percentage := 0, isOn := false)
  {
    SetPercentage(f, 0)
  }

  /** `async_oscillate`. A fan that is off is first set to level 1's
      percentage (one command) and then sent `on#1#<shake>`; a fan that is
      on is sent `on#<level of its percentage>#<shake>`. The record's
      `shake` and the oscillation take the requested value. */
  function Oscillate(f: Fan, oscillating: bool): (r: Step<Fan>)
    ensures !f.isOn ==> |r.sent| == 2 && r.sent[0] == SetPercentage(f, LevelToPercentage(f.levels, 1)).sent[0]
    ensures f.isOn ==> |r.sent| == 1
    ensures |r.sent| >= 1
    ensures r.sent[|r.sent| - 1] == Command.Encode(Command.On,
              [if f.isOn then PercentageToLevel(f.levels, f.percentage) else 1, ShakeFlag(oscillating)])
    ensures r.state.oscillating == oscillating && r.state.levels == f.levels
    ensures r.state.record.msg.shake == Some(ShakeFlag(oscillating))
    ensures f.isOn ==> r.state.percentage == f.percentage && r.state.isOn
    ensures f.isOn ==> r.state.record == f.record.(msg := f.record.msg.(shake := Some(ShakeFlag(oscillating))))
    ensures !f.isOn ==>
      var p1 := LevelToPercentage(f.levels, 1);
      && r.state.isOn == (p1 > 0)
      && r.state.percentage == LevelToPercentage(f.levels, PercentageToLevel(f.levels, p1))
      && r.state.record == f.record.(msg := f.record.msg.(on := Some(p1 > 0),
           level := Some(PercentageToLevel(f.levels, p1)), shake := Some(ShakeFlag(oscillating))))
  {
    var shake := ShakeFlag(oscillating);
    var before :=
      if f.isOn then Step([], f)
      else SetPercentage(f, LevelToPercentage(f.levels, 1));
    var level := if f.isOn then PercentageToLevel(f.levels, f.percentage) else 1;
    var cmd := Command.Encode(Command.On, [level, shake]);
    var s := before.state;
    Step(before.sent + [cmd],
         s.(record := s.record.(msg := s.record.msg.(shake := Some(shake))), oscillating := oscillating))
  }

  /** For up to 100 levels, oscillating a fan that is off turns it on at
      level 1 and records level 1. */
  lemma OscillateFromOff(f: Fan, oscillating: bool)
    requires f.levels <= 100 && !f.isOn
    ensures Oscillate(f, oscillating).state.isOn
    ensures Oscillate(f, oscillating).state.percentage == LevelToPercentage(f.levels, 1)
    ensures Oscillate(f, oscillating).state.record.msg.level == Some(1)
    ensures Oscillate(f, oscillating).state.oscillating == oscillating
  {
    LevelRoundTrip(f.levels, 1);
  }

  /** A fan shown on at 0% (an on report with a level that maps to 0%) is
      oscillated as a running fan: one command, `on#0#<shake>`. */
  lemma OscillateShownOnAtZero(f: Fan, oscillating: bool)
    requires f.isOn && f.percentage == 0
    ensures Oscillate(f, oscillating).sent == [Command.Encode(Command.On, [0, ShakeFlag(oscillating)])]
  {
  }
}
