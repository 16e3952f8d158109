# bemfa_smart: a Dafny model of the device state mappers

`bemfa_smart` is a Home Assistant integration for devices on the Bemfa
(巴法) cloud. A coordinator polls the cloud for a list of device records:
topic, id (the device type), name, a `msg` of optional fields and a
`unix` timestamp. Each platform then turns a record into entity state.
The platforms are the air conditioner (climate) with its on/off switch,
the fan (configurable level count, plus the fixed 3-level variant), the
curtain, the light and the temperature/humidity sensor.

User actions post `#`-separated command strings such as `on#2#24#1`,
`on#3#0`, `on#40`, `off` and `pause`. Each action then applies an
optimistic local update.

This project models that layer as pure functions:

- Records are immutable datatypes. `Device.Msg` holds the optional
  message fields.
- Each entity's state is a datatype.
- Every async action is one atomic step returning a `Device.Step`: the
  commands sent and the new state.
- The send result is an input only for the switch, which is the one
  platform whose state change depends on it.
- The command grammar has an encoder (`Command.Encode`) and a decoder
  (`Command.Decode`), proved inverse to each other. Contracts therefore
  say which fields a command carries, not just which characters it holds.
- Python's `round` becomes `Numeric.RoundHalfEven`, an exact
  half-to-even rounding of a rational. Python's `int()` on a temperature
  becomes `Numeric.Truncate`.

Modules: `Optional`, `Numeric`, `Text` and `Command` are shared helpers.
`Device` covers the constants and the entity base class. Then one module
per platform file: `Coordinator`, `Climate`, `Fan`, `FanThreeLevel`,
`Cover`, `Switch`, `Light`, `Sensor`.

Details of the code the model keeps:

- A command send counts as successful only when the status is exactly
  200, not for any 2xx status.
- In `fan.py`, an on report without a `level` shows level 1, not the
  previous level. Only `fan-3level.py` falls back to the previous
  percentage.
- The fan level count is any configured value of at least 1, not only
  1 to 5. `fan.py` imports its default and configuration constants from
  modules that do not define them. The model takes the configured count
  as a parameter and uses a default of 3, the count the 3-level variant
  hard-codes.
- An off report clears the climate entity's fan-mode attribute, so the
  entity shows no fan mode while off.
- A curtain reported on with position 0 (or no position) shows fully
  open.

## Model

| member | source | states |
|---|---|---|
| Device.UniqueId | custom_components/bemfa_smart/base_device.py:16 | the base unique id is the prefix `bemfa_` followed by the topic, so the topic can be read back from it |
| Device.UniqueIdInjective | custom_components/bemfa_smart/base_device.py:16 | two topics with the same base unique id are the same topic |
| Device.Available | custom_components/bemfa_smart/base_device.py:25-33 | available iff the last refresh succeeded and `now - unix < 600`, with a missing `unix` read as 0 |
| Device.AvailabilityWindow | custom_components/bemfa_smart/base_device.py:29-33 | availability only ends as time passes: once it is lost it stays lost, and a record is unavailable from `unix + 600` on |
| Device.FirstWithTopic | custom_components/bemfa_smart/base_device.py:42-45 | finds the index of the first snapshot record with the topic, or reports that no record has it |
| Device.UpdateDeviceState | custom_components/bemfa_smart/base_device.py:35-45 | no snapshot keeps the record; otherwise the first snapshot record with the same topic replaces it, or the old record stays when none matches; the topic never changes |
| Device.UpdateDeviceStateIdempotent | custom_components/bemfa_smart/base_device.py:35-45 | refreshing twice from the same snapshot is the same as refreshing once |
| Device.RecordsOfType | custom_components/bemfa_smart/climate.py:344-347 | a platform's setup takes exactly the snapshot records whose `id` is its device type (every platform file filters this way) |
| Device.RecordsOfTypeAppend | custom_components/bemfa_smart/light.py:68-71 | filtering a concatenated snapshot is filtering each part, in order |
| Device.ShakeFlag | custom_components/bemfa_smart/fan.py:135 | the shake flag sent is 1 iff the fan oscillates and 0 otherwise (`fan-3level.py` uses the same rule) |
| Coordinator.ClimatesForTopic | custom_components/bemfa_smart/coordinator.py:41-43 | returns only registered climate entities with the topic, and every registered one with the topic |
| Coordinator.ClimatesForTopicAppend | custom_components/bemfa_smart/coordinator.py:41-43 | the filter keeps registration order: filtering a concatenation is concatenating the filters |
| Coordinator.FetchDevices | custom_components/bemfa_smart/coordinator.py:46-66 | a fetch succeeds iff there is a response with a status below 400, a JSON body whose `code` is 0 and a `data` that is not `null`; the result is then `data`, or `[]` when `data` is absent; a client error or a status of 400 or more is a request failure, an unreadable body or a `null` data (whose length the debug line takes) an unexpected failure, any other `code` an API error carrying `msg` |
| Coordinator.Refresh | custom_components/bemfa_smart/coordinator.py:46-66 | a successful fetch replaces the device list and sets the success flag; a failed one keeps the old list and clears the flag |
| Coordinator.Payload | custom_components/bemfa_smart/coordinator.py:68-72 | the form body `user=..&topic=..&msg=..&type=..` is not escaped; when no value holds `&` or `=`, it parses back to exactly the four fields |
| Coordinator.SendPayload | custom_components/bemfa_smart/coordinator.py:68-72 | a command sent without an explicit type carries type 3, and parses back to the user, topic, message and 3 |
| Coordinator.PayloadParses | custom_components/bemfa_smart/coordinator.py:72 | the payload round trip above, for every user, topic, message and type |
| Coordinator.SendSucceeded | custom_components/bemfa_smart/coordinator.py:78-87 | a send reports success iff the response status is exactly 200; any exception reports failure |
| Command.Encode | custom_components/bemfa_smart/climate.py:244 | a `#`-joined command decodes back to its head and integer arguments, and holds no form separator when its head holds none |
| Command.EncodeInjective | custom_components/bemfa_smart/fan.py:136 | different heads or argument lists never give the same command string |
| Command.EncodedOnWellFormed | custom_components/bemfa_smart/cover.py:79 | an `on` command with at most three integer arguments is in the command grammar and safe to put in a form body |
| Command.FixedCommandsWellFormed | custom_components/bemfa_smart/cover.py:57-91 | the bare commands `on`, `off` and `pause` are in the grammar and are their own encodings |
| Command.LeadingZeroNotWellFormed | custom_components/bemfa_smart/climate.py:244 | the grammar holds only the canonical spelling the f-strings produce: `on#02#24#1` reads back as `on` with 2, 24 and 1 but is not well formed |
| Numeric.RoundHalfEven | custom_components/bemfa_smart/fan.py:78 | Python's `round` of `num/den`: the result is within half a unit of the quotient, and a tie goes to the even integer |
| Numeric.RoundHalfEvenUnique | custom_components/bemfa_smart/fan.py:86 | these two properties determine the rounded value uniquely |
| Numeric.Truncate | custom_components/bemfa_smart/climate.py:130 | Python's `int()` on a float rounds toward zero: the result lies within one unit of the value, on the side of zero |
| Climate.ModeToHvac | custom_components/bemfa_smart/climate.py:170-181 | 2 is cool, 3 heat, 5 dry, 4 and 6 fan-only, and every other code (1, 7, unknown) auto, each as an if-and-only-if |
| Climate.HvacToMode | custom_components/bemfa_smart/climate.py:183-193 | off is code 0 and only off is; every device mode encodes to a code that decodes back to it; a mode outside the table encodes as 1 |
| Climate.ModeCodeRoundTrip | custom_components/bemfa_smart/climate.py:170-193 | decoding then re-encoding keeps codes 1 to 5, turns 6 into 4 and every other code into 1 |
| Climate.FanModeToSpeedCode | custom_components/bemfa_smart/climate.py:195-205 | the speed code is in 1..3 and names the fan mode when it is low/medium/high; any other fan mode is sent as 1 |
| Climate.SpeedCodeToFanMode | custom_components/bemfa_smart/climate.py:207-217 | codes 1..3 decode to a fan mode that re-encodes to the same code; any other code reads as low |
| Climate.FanCodeRoundTrip | custom_components/bemfa_smart/climate.py:195-217 | the two fan tables are inverse to each other on low/medium/high and on codes 1..3 |
| Climate.GenerateCommand | custom_components/bemfa_smart/climate.py:219-245 | the command is exactly `off` iff the internal mode is off; otherwise it is exactly `on#<mode code>#<target>#<fan code>` with the target clamped to [16, 32], and the clamped target is written back |
| Climate.UpdateState | custom_components/bemfa_smart/climate.py:104-163 | an off report shows off, no current temperature, the internal target and no fan mode, and leaves the internal state alone; an on report overwrites exactly the internal fields whose keys are present (`t` truncated, not clamped), and the current temperature is the linked reading or else the target |
| Climate.Create | custom_components/bemfa_smart/climate.py:56-87 | a new entity decodes its record over off, 25 and low: an off report shows off, no current temperature, target 25 and no fan mode, and keeps that initial state; an on report without a mode shows off; an on report takes the mode, the truncated `t` and the fan code each when present and the initial value otherwise, shows exactly that state, and shows the linked reading or else the target as current temperature |
| Climate.HandleCoordinatorUpdate | custom_components/bemfa_smart/base_device.py:47-51 | a coordinator update first replaces the record by the snapshot's same-topic record, then decodes that record over the entity's own internal state; after an off report the internal state is unchanged and the entity is off |
| Climate.RefreshMerges | custom_components/bemfa_smart/climate.py:124-140 | after an on report, each of `mode`, `t` and `level` the refreshed record carries replaces the internal field and each it lacks keeps the entity's previous value; the entity is on iff its mode is not off |
| Climate.SetTemperature | custom_components/bemfa_smart/climate.py:252-284 | with no temperature nothing is sent and nothing changes; otherwise the target is clamped to [16, 32] and truncated, then stored, and exactly the command for the whole internal state is sent, with nothing rolled back |
| Climate.SetHvacMode | custom_components/bemfa_smart/climate.py:287-297 | the mode becomes the internal mode and the attribute; fan and record are kept; the stored target is re-sent, clamped to [16, 32] unless the mode is off; the one command sent is exactly the command for that internal state, `off` iff the mode is off |
| Climate.SetFanMode | custom_components/bemfa_smart/climate.py:314-327 | a fan mode outside low/medium/high sends nothing and changes nothing; a supported one is stored and shown, mode and record are kept, the stored target is re-sent (clamped unless off), and exactly the command for the whole internal state is sent |
| Climate.SetHvacModeEchoes | custom_components/bemfa_smart/climate.py:124-140 | a report echoing the fields of the command a set-mode sent decodes to the internal state the action stored, from any prior state |
| Climate.SetFanModeEchoes | custom_components/bemfa_smart/climate.py:124-140 | the same for a set-fan-mode of a running entity |
| Climate.EncodeDecodeStable | custom_components/bemfa_smart/climate.py:125-140 | for a state the device can show, the command leaves the state unchanged, and a report echoing the command's fields decodes to that state from any prior state |
| Climate.OnWithoutModeShowsOff | custom_components/bemfa_smart/climate.py:58 | a device reported on but with no mode, decoded from the initial state, shows off |
| Climate.OffReportKeepsStaleMode | custom_components/bemfa_smart/climate.py:114-121 | after an off report the entity shows off, yet a set-temperature then sends an `on` command carrying the mode held before the report |
| Climate.DecodeScenario | custom_components/bemfa_smart/climate.py:114-140 | `{on, mode 2, t 22, level 1}` shows cool, 22, 22 and low; an off report shows off with no current temperature and keeps the target |
| Fan.EffectiveLevels | custom_components/bemfa_smart/fan.py:27-35 | the level count is the configured one when it is at least 1, and 3 otherwise |
| Fan.LevelToPercentage | custom_components/bemfa_smart/fan.py:74-78 | level 0 or below is 0%, level n or above is 100%, every result lies in [0, 100], and levels 1..n give the percentage nearest to `100·level/n`, a tie going to the even percentage |
| Fan.PercentageToLevel | custom_components/bemfa_smart/fan.py:81-88 | 0% is level 0; any other percentage gives a level in [1, n]; for (0, 100] that is the level nearest to `p·n/100` with ties to even, or 1 exactly when the quotient is below 1.5 |
| Fan.LevelRoundTrip | custom_components/bemfa_smart/fan.py:74-88 | for up to 100 levels, every level 1..n survives the trip to a percentage and back |
| Fan.SnapStable | custom_components/bemfa_smart/fan.py:130-142 | snapping a percentage to its level's percentage does not change its level |
| Fan.ConversionExamples | custom_components/bemfa_smart/fan.py:78-88 | with 5 levels 50% is the tie that goes to level 2 and 60% is level 3; with 3 levels the percentages are 33, 67, 100 and 50% is level 2 |
| Fan.UpdateState | custom_components/bemfa_smart/fan.py:54-72 | an on report shows its level's percentage, with a missing or zero level read as 1, a level above n capped to n and a negative level shown as 0%, and oscillates iff `shake` is 1; an off report shows 0% and no oscillation |
| Fan.Create | custom_components/bemfa_smart/fan.py:22-52 | a new fan uses the effective level count and decodes its record: off shows 0%; on with no level or level 0 shows level 1's percentage, with a level up to n that level's percentage, with a level of n or more 100%, and with a negative level 0% |
| Fan.HandleCoordinatorUpdate | custom_components/bemfa_smart/base_device.py:47-51 | a coordinator update replaces the record by the snapshot's same-topic record and keeps the level count; the on state is the refreshed record's and the percentage lies in [0, 100] |
| Fan.RefreshIsCreate | custom_components/bemfa_smart/fan.py:54-72 | a refresh shows exactly what a new fan with the same level count would show for the refreshed record, since the decode reads nothing of the previous state |
| Fan.SetPercentage | custom_components/bemfa_smart/fan.py:126-144 | 0% sends `off`; any other percentage sends exactly `on#<its level>#<current shake>`; the fan is then on iff the percentage is positive, snaps to its level's percentage, keeps its oscillation and level count, and the record takes `on` and the level |
| Fan.SetPercentageRedecodes | custom_components/bemfa_smart/fan.py:140-143 | the optimistic update agrees with decoding the updated record: same on state, same percentage |
| Fan.TurnOn | custom_components/bemfa_smart/fan.py:106-119 | with a percentage, turn-on sets it; without one, it resumes the current percentage, or level 1's percentage when that is 0 |
| Fan.TurnOnWithoutPercentageIsOn | custom_components/bemfa_smart/fan.py:109-119 | for up to 100 levels, turning on without a percentage leaves the fan on and never sends `off` |
| Fan.TurnOnManyLevelsSendsOff | custom_components/bemfa_smart/fan.py:109-119 | with 200 levels or more level 1 rounds to 0%, so turning on from 0% without a percentage sends `off` and leaves the fan off |
| Fan.TurnOff | custom_components/bemfa_smart/fan.py:121-124 | turn-off sends `off`, shows 0% and off, records `on` false with level 0, and changes nothing else |
| Fan.Oscillate | custom_components/bemfa_smart/fan.py:146-164 | a fan that is off is first set to level 1's percentage, so it shows that percentage snapped to its level, is on iff it is positive and records that `on` and level, and is then sent exactly `on#1#<shake>`; a fan that is on is sent exactly `on#<its level>#<shake>` once and its record changes only in `shake`; the oscillation and the record's `shake` take the requested value and the level count is kept |
| Fan.OscillateShownOnAtZero | custom_components/bemfa_smart/fan.py:146-164 | a fan shown on at 0% is oscillated as a running fan: one command `on#0#<shake>` |
| Fan.OscillateFromOff | custom_components/bemfa_smart/fan.py:152-164 | for up to 100 levels, oscillating a fan that is off turns it on at level 1's percentage with level 1 recorded and the requested oscillation |
| FanThreeLevel.LevelToPercentage | custom_components/bemfa_smart/fan-3level.py:63-75 | levels 0..3 give 0, 33, 66, 100 and every other level 0; levels 0..3 survive the trip back |
| FanThreeLevel.PercentageToLevel | custom_components/bemfa_smart/fan-3level.py:77-86 | 0 is level 0, up to 33 is level 1, above 66 is level 3, and level 2 lies between |
| FanThreeLevel.SnapStable | custom_components/bemfa_smart/fan-3level.py:77-86 | a percentage's level survives snapping to that level's percentage |
| FanThreeLevel.UpdateState | custom_components/bemfa_smart/fan-3level.py:36-61 | on with no level uses the previous percentage's level when it is positive, else level 1; level 0 while on is level 1; a level outside 0..3 shows 0% while on; off shows 0% and no oscillation |
| FanThreeLevel.Create | custom_components/bemfa_smart/fan-3level.py:20-34 | a new fan decodes its record from 0%: off shows 0% and no oscillation; on with no level or level 0 shows 33%, on with another level that level's percentage, and it oscillates iff `shake` is 1 |
| FanThreeLevel.HandleCoordinatorUpdate | custom_components/bemfa_smart/base_device.py:47-51 | a refresh replaces the record by the snapshot's same-topic record and decodes it: off shows 0% and no oscillation; on oscillates iff `shake` is 1; a non-zero level shows its percentage, level 0 shows 33%, and a missing level shows the previous percentage snapped to its level, or 33% when that was 0 or less |
| FanThreeLevel.RefreshIsCreate | custom_components/bemfa_smart/fan-3level.py:36-61 | when the refreshed record is off or carries a level, a refresh shows what a new fan would show for it |
| FanThreeLevel.RefreshKeepsLevel | custom_components/bemfa_smart/fan-3level.py:43-48 | an on report without a level keeps a fan at 66% at 66%, while a new fan for the same record shows 33%: the refresh depends on the previous state |
| FanThreeLevel.SetPercentage | custom_components/bemfa_smart/fan-3level.py:124-145 | 0% sends `off`, others exactly `on#<level>#<shake>`; the fan is on iff the percentage is positive and snaps to one of 0/33/66/100 with the same level; the record takes `on` and the level |
| FanThreeLevel.SetPercentageRedecodes | custom_components/bemfa_smart/fan-3level.py:141-144 | decoding the updated record shows the same on state and percentage as the optimistic update |
| FanThreeLevel.TurnOn | custom_components/bemfa_smart/fan-3level.py:103-117 | without a percentage, turn-on resumes the current one or 33% when that is 0, and the fan ends on |
| FanThreeLevel.TurnOff | custom_components/bemfa_smart/fan-3level.py:119-122 | turn-off sends `off`, shows off at 0%, records `on` false with level 0, and changes nothing else |
| FanThreeLevel.Oscillate | custom_components/bemfa_smart/fan-3level.py:147-167 | off: two commands, set 33% then exactly `on#1#<shake>`, and the record becomes on at level 1; on: one command `on#<current level>#<shake>`, the fan stays on at its percentage and the record changes only in `shake`; the oscillation takes the requested value |
| FanThreeLevel.OscillateShownOnAtZero | custom_components/bemfa_smart/fan-3level.py:147-167 | a fan shown on at 0% is oscillated as a running fan: one command `on#0#<shake>` |
| FanThreeLevel.OscillateRedecodes | custom_components/bemfa_smart/fan-3level.py:36-61 | for a fan that shows what its record says, the next decode of the record an oscillate writes shows the same on state, percentage and oscillation |
| Cover.UpdateState | custom_components/bemfa_smart/cover.py:32-47 | off shows position 0 and closed; on with a positive position shows it and open; on with position absent or 0 shows 100 and open; closed iff position 0 |
| Cover.Create | custom_components/bemfa_smart/cover.py:19-47 | a new curtain decodes its record: off shows position 0, on with a positive position shows it, on with none or 0 shows 100; decoding again changes nothing, and it is closed iff its position is 0 |
| Cover.HandleCoordinatorUpdate | custom_components/bemfa_smart/base_device.py:47-51 | a refresh replaces the record by the snapshot's same-topic record, keeps the topic and the closed-iff-position-0 invariant |
| Cover.RefreshIsCreate | custom_components/bemfa_smart/cover.py:32-47 | a refresh shows exactly what a new curtain would show for the refreshed record |
| Cover.Open | custom_components/bemfa_smart/cover.py:54-63 | open sends `on`, records on with position 100 and nothing else in the record, and shows it open |
| Cover.Close | custom_components/bemfa_smart/cover.py:65-74 | close sends `off`, records off with position 0 and nothing else in the record, and shows it closed |
| Cover.SetPosition | custom_components/bemfa_smart/cover.py:76-86 | sends exactly `on#<position>`, records on with that position and nothing else in the record, and shows it, closed iff it is 0 |
| Cover.Stop | custom_components/bemfa_smart/cover.py:88-94 | stop sends `pause` and changes nothing |
| Cover.CommandsKeepConsistent | custom_components/bemfa_smart/cover.py:38-86 | every command leaves the curtain closed iff its position is 0 |
| Cover.CommandsRedecode | custom_components/bemfa_smart/cover.py:32-86 | after open, close or a positive set-position, decoding the updated record changes nothing |
| Cover.SetPositionZeroRedecodesOpen | custom_components/bemfa_smart/cover.py:44-47 | set-position 0 shows closed, but the next decode of the same record shows fully open |
| Switch.UniqueId | custom_components/bemfa_smart/switch.py:21 | the switch id extends the base id of its topic and differs from it, so it never collides with the climate entity |
| Switch.Name | custom_components/bemfa_smart/switch.py:22 | the switch name extends the device name |
| Switch.UpdateState | custom_components/bemfa_smart/switch.py:25-28 | on iff the record's `on` is true, missing read as false |
| Switch.Create | custom_components/bemfa_smart/switch.py:18-28 | a new switch shows the record's on state, and decoding again changes nothing |
| Switch.HandleCoordinatorUpdate | custom_components/bemfa_smart/base_device.py:47-51 | a refresh replaces the record by the snapshot's same-topic record, and the switch shows its on state |
| Switch.RefreshIsCreate | custom_components/bemfa_smart/switch.py:25-28 | a refresh shows exactly what a new switch would show for the refreshed record |
| Switch.TurnOn | custom_components/bemfa_smart/switch.py:32-47 | always sends `on#1#25#1`; on success records `on` true and refreshes exactly the same-topic climate entities; on failure changes nothing |
| Switch.TurnOff | custom_components/bemfa_smart/switch.py:50-63 | always sends `off`; on success records `on` false and refreshes the same-topic climate entities; on failure changes nothing |
| Switch.TurnOnMatchesClimate | custom_components/bemfa_smart/switch.py:38 | the switch's turn-on command is the climate encoder's command for auto, 25 degrees, low fan |
| Switch.TurnOnThenDecode | custom_components/bemfa_smart/switch.py:39-56 | after a successful turn-on (turn-off) the next decode shows on (off) |
| Light.UpdateState | custom_components/bemfa_smart/light.py:54-57 | the attribute mirrors the record's `on`, missing read as false |
| Light.Create | custom_components/bemfa_smart/light.py:20-26 | a new light's attribute mirrors its record, and decoding again changes nothing |
| Light.HandleCoordinatorUpdate | custom_components/bemfa_smart/base_device.py:47-51 | a refresh replaces the record by the snapshot's same-topic record, and the attribute mirrors it |
| Light.RefreshIsCreate | custom_components/bemfa_smart/light.py:54-57 | a refresh shows exactly what a new light would show for the refreshed record |
| Light.TurnOn | custom_components/bemfa_smart/light.py:38-44 | sends `on` and records `on` true, so the live state is on, whatever the send result |
| Light.TurnOff | custom_components/bemfa_smart/light.py:46-52 | sends `off` and records `on` false, so the live state is off, whatever the send result |
| Light.ToggleSettles | custom_components/bemfa_smart/light.py:33-57 | turn-off after turn-on shows off and the reverse shows on; decoding after either agrees with it |
| Sensor.Unit | custom_components/bemfa_smart/sensor.py:29-36 | the temperature unit is `unit[0]` iff the list is non-empty, the humidity unit `unit[1]` iff it has two entries, otherwise none |
| Sensor.Reading | custom_components/bemfa_smart/sensor.py:38-41 | the value is the message's `t` or `h` field, none when absent |
| Sensor.UniqueId | custom_components/bemfa_smart/sensor.py:25 | the sensor id extends the base id of its topic by `_t` or `_h` |
| Sensor.UniqueIdsDistinct | custom_components/bemfa_smart/sensor.py:25 | the temperature and humidity ids of a topic differ from each other and from the base id |
| Sensor.Name | custom_components/bemfa_smart/sensor.py:48-55 | the name extends the device name with a type suffix |
| Sensor.UpdateState | custom_components/bemfa_smart/sensor.py:38-41 | the value is re-read from the record; the unit chosen at creation is kept |
| Sensor.Create | custom_components/bemfa_smart/sensor.py:21-27 | a new sensor takes its unit from the record once and reads its value |
| Sensor.HandleCoordinatorUpdate | custom_components/bemfa_smart/base_device.py:47-51 | a refresh replaces the record by the snapshot's same-topic record; the value is the refreshed record's and the unit is unchanged |
| Sensor.RefreshIsCreate | custom_components/bemfa_smart/sensor.py:21-41 | a refresh shows what a new sensor of the same kind would show for the refreshed record, except that the unit chosen at creation stays |
| Sensor.EntitiesFor | custom_components/bemfa_smart/sensor.py:68-73 | a sensor record yields one temperature entity iff `t` is present and one humidity entity iff `h` is present, temperature first; other records yield none |
| Sensor.EntitiesOf | custom_components/bemfa_smart/sensor.py:66-73 | every entity comes from one of the records and has its reading, and every reading of every sensor record gets its entity |
| Sensor.EntitiesOfCons | custom_components/bemfa_smart/sensor.py:66-73 | the entities of a record list are exactly those of its first record followed by those of the rest, and none for the empty list |
| Sensor.EntitiesOfAppend | custom_components/bemfa_smart/sensor.py:66-73 | the entities of a concatenated record list are those of each part, in order |
| Sensor.Setup | custom_components/bemfa_smart/sensor.py:58-76 | every entity comes from a sensor record that has its reading, and every reading of every sensor record gets its entity |
| Sensor.SetupCons | custom_components/bemfa_smart/sensor.py:66-73 | setup over a snapshot is exactly the entities of its first record followed by setup over the rest, so each sensor record contributes its one or two entities once, in snapshot order |
| Sensor.SetupAppend | custom_components/bemfa_smart/sensor.py:66-73 | setup over a concatenated snapshot is setup over each part, in order |

## Left out

- HTTP and JSON transport is left out: the aiohttp session, URLs, headers and `raise_for_status`. A fetch is an abstract reply (client error, or status plus envelope), and a send is an abstract reply (exception, or status).
- `response.json()` raising a content-type error is an aiohttp client error in the code. The model classifies every unreadable body as the generic failure. Both reach the host only as `UpdateFailed`.
- Host plumbing is left out, because it is the host's code:
  - the update timer;
  - `async_write_ha_state` and `async_schedule_update_ha_state`;
  - `async_added_to_hass` registration;
  - the `async_setup_entry` wiring in `__init__.py`.
- Switch.TurnOn and Switch.TurnOff return the same-topic climate entities they ask the host to refresh, but do not perform the refresh.
- Shared `device_data` dictionaries are left out. Records here are values, so that aliasing is not modelled. Two consequences follow:
  - The switch and the climate entity of one topic share that dictionary, so a switch command's write is also seen by the climate entity.
  - An entity's dictionary is the element of the coordinator's snapshot it was created from, so a command's optimistic write also lands in that snapshot. After a failed poll the snapshot is unchanged, and the next update re-reads the written dictionary and keeps the optimistic state. `HandleCoordinatorUpdate` instead restores the record as the snapshot value held it.
- The linked temperature sensor is left out: the table from AC name to sensor entity, the host state lookup and the float parse. The climate decode takes the sensor's valid reading as an optional parameter.
- The clock behind availability is left out. `now` is an integer parameter; the code compares the event loop's monotonic time with an epoch timestamp.
- Fan in `fan.py`, for every level count n for which `100/n` is not an exact float (3, 6, 7, ...): the code divides by that rounded float, the model by the exact quotient. Near a tie the float result can round the other way; with 3 levels the only tie on integer percentages is 50%, and both give level 2.
- Fan.TurnOnWithoutPercentageIsOn requires at most 100 levels. From 200 levels up, level 1 rounds to 0%, and turn-on from 0% sends `off` (Fan.TurnOnManyLevelsSendsOff).
- Fan.LevelRoundTrip requires at most 100 levels. Above that, several levels share a percentage and the round trip fails.
- Fan.SnapStable requires at most 100 levels, for the same reason.
- Fan.Create: the configured level count comes from `options["fan_levels_by_topic"][topic]`. The model takes it as an optional integer, because the configuration constants `fan.py` imports are not defined in the integration.
- Fan and FanThreeLevel: `isOn` is the `_attr_is_on` attribute the code writes. The host's fan base class, which is not part of this model, derives `is_on` from the percentage when the attribute is not used. The two readings differ where an on report shows 0%: a level outside 0..3 in `fan-3level.py`, or a negative level in `fan.py`. There the model's fan is on at 0%, and `Oscillate` takes the running branch and sends `on#0#<shake>` (Fan.OscillateShownOnAtZero, FanThreeLevel.OscillateShownOnAtZero).
- Device.Available: a `unix` key holding JSON null makes the code subtract `None` from the loop time, which raises; the model reads null like a missing key, as 0, and returns a value.
- The climate entity is left out of several details:
  - the empty loop in `async_set_hvac_mode` does nothing;
  - the `target_temp is None` branch of `_generate_command_msg` cannot be reached, since the internal target is always an integer;
  - the `_internal_fan_mode is None` branch cannot be reached either.
- Climate.SetTemperature: the arguments other than `temperature` are not modelled.
- The light's color mode is always ONOFF, so it is not modelled.
- Cover.UpdateState: a `position` key present with a null value makes the code compare `None > 0`, which raises; the model reads it as absent and shows the curtain fully open.
- Sensor.EntitiesFor: the code creates an entity when the `t` or `h` key is present, even with a null value; the model creates one only for a present value.
- Device.Msg: the code reads `on` by truthiness and may keep a non-boolean value; the model holds an optional boolean.
- Sensor.Reading: a `t` or `h` key present with a null value is the same as an absent key here. Messages have optional fields, not a key set.
- Logging, `device_info` strings and `device_type` properties are left out; they are not behaviour.
- `config_flow.py` is not part of this model. Its scan-interval range and the `user[:8]` unique id only constrain configuration.
- Concurrency is left out: interleaving between polls and commands across awaits. Each action is one atomic step.
