/** The curtain entity (cover.py): a position in percent and a closed
    flag, decoded from `on` and `position`, and four commands that apply
    their local update whatever the send result. */
module Cover {
  import opened Optional
  import opened Device
  import Command

  const FullyOpen: int := 100

  datatype Cover = Cover(record: Record, position: int, isClosed: bool)

  /** The curtain is shown closed exactly when it is shown at position 0. */
  predicate Consistent(c: Cover) {
    c.isClosed <==> c.position == 0
  }

  /** `_update_state`. Off is position 0 and closed. On with a positive
      position is that position and open. On with no position, or a
      position of 0 or below, is fully open: a report `on, position 0`
      shows 100. */
  function UpdateState(c: Cover): (r: Cover)
    ensures Consistent(r) && r.record == c.record
    ensures !c.record.msg.IsOn() ==> r.position == 0 && r.isClosed
    ensures c.record.msg.IsOn() && c.record.msg.position.GetOr(0) > 0
            ==> r.position == c.record.msg.position.value && !r.isClosed
    ensures c.record.msg.IsOn() && c.record.msg.position.GetOr(0) <= 0
            ==> r.position == FullyOpen && !r.isClosed
  {
    var msg := c.record.msg;
    var on := msg.IsOn();
    var position := msg.position.GetOr(0);
    if !on then c.(position := 0, isClosed := true)
    else if position > 0 then c.(position := position, isClosed := position == 0)
    else c.(position := if on then FullyOpen else 0, isClosed := !on)
  }

  /** Creating the entity: position 0, then a first decode, so a new
      curtain shows what its record reports. */
  function Create(record: Record): (c: Cover)
    ensures c.record == record && Consistent(c)
    ensures UpdateState(c) == c
    ensures !record.msg.IsOn() ==> c.position == 0
    ensures record.msg.IsOn() && record.msg.position.GetOr(0) > 0 ==> c.position == record.msg.position.value
    ensures record.msg.IsOn() && record.msg.position.GetOr(0) <= 0 ==> c.position == FullyOpen
  {
    UpdateState(Cover(record, 0, false))
  }

  /** `_handle_coordinator_update`: refresh the record, then decode it. */
  function HandleCoordinatorUpdate(data: Option<seq<Record>>, c: Cover): (r: Cover)
    ensures r.record == UpdateDeviceState(data, c.record)
    ensures r.record.topic == c.record.topic && Consistent(r)
    ensures data.None? ==> r == UpdateState(c)
  {
    UpdateState(c.(record := UpdateDeviceState(data, c.record)))
  }

  /** The decode keeps nothing of the shown state: a coordinator update is
      the same as creating the curtain afresh from the refreshed record. */
  lemma RefreshIsCreate(data: Option<seq<Record>>, c: Cover)
    ensures HandleCoordinatorUpdate(data, c) == Create(UpdateDeviceState(data, c.record))
  {
  }

  /** `async_open_cover`: sends `on`; the record and the entity become
      on, position 100, open. */
  function Open(c: Cover): (r: Step<Cover>)
    ensures r.sent == [Command.On]
    ensures Consistent(r.state) && r.state.position == FullyOpen
    ensures r.state.record == c.record.(msg := c.record.msg.(on := Some(true), position := Some(FullyOpen)))
  {
    var msg := c.record.msg.(on := Some(true), position := Some(FullyOpen));
    Step([Command.On], Cover(c.record.(msg := msg), FullyOpen, false))
  }

  /** `async_close_cover`: sends `off`; the record and the entity become
      off, position 0, closed. */
  function Close(c: Cover): (r: Step<Cover>)
    ensures r.sent == [Command.Off]
    ensures Consistent(r.state) && r.state.position == 0 && r.state.isClosed
    ensures r.state.record == c.record.(msg := c.record.msg.(on := Some(false), position := Some(0)))
  {
    var msg := c.record.msg.(on := Some(false), position := Some(0));
    Step([Command.Off], Cover(c.record.(msg := msg), 0, true))
  }

  /** `async_set_cover_position`: sends `on#<position>`; the record takes
      on and the position, and the entity shows that position, closed
      exactly when it is 0. */
  function SetPosition(c: Cover, position: int): (r: Step<Cover>)
    ensures |r.sent| == 1
    ensures r.sent[0] == Command.Encode(Command.On, [position])
    ensures Command.WellFormed(r.sent[0]) && Command.FormSafe(r.sent[0])
    ensures Consistent(r.state) && r.state.position == position
    ensures r.state.record == c.record.(msg := c.record.msg.(on := Some(true), position := Some(position)))
  {
    Command.EncodedOnWellFormed([position]);
    var msg := c.record.msg.(on := Some(true), position := Some(position));
    Step([Command.Encode(Command.On, [position])], Cover(c.record.(msg := msg), position, position == 0))
  }

  /** `async_stop_cover`: sends `pause` and changes nothing. */
  function Stop(c: Cover): (r: Step<Cover>)
    ensures r.sent == [Command.Pause] && r.state == c
  {
    Step([Command.Pause], c)
  }

  /** Every command leaves the entity consistent, whatever it was before. */
  lemma CommandsKeepConsistent(c: Cover, position: int)
    ensures Consistent(Open(c).state) && Consistent(Close(c).state)
    ensures Consistent(SetPosition(c, position).state)
    ensures Consistent(c) ==> Consistent(Stop(c).state)
  {
  }

  /** The optimistic updates of open, close and a positive position agree
      with the next decode of the same record. */
  lemma CommandsRedecode(c: Cover, position: int)
    requires position > 0
    ensures UpdateState(Open(c).state) == Open(c).state
    ensures UpdateState(Close(c).state) == Close(c).state
    ensures UpdateState(SetPosition(c, position).state) == SetPosition(c, position).state
  {
  }

  /** Setting position 0 shows a closed curtain, but the record it writes
      (`on`, position 0) decodes as fully open. */
  lemma SetPositionZeroRedecodesOpen(c: Cover)
    ensures SetPosition(c, 0).state.isClosed
    ensures UpdateState(SetPosition(c, 0).state).position == FullyOpen
    ensures !UpdateState(SetPosition(c, 0).state).isClosed
  {
  }
}
