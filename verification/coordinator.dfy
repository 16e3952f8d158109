/** The shared coordinator (coordinator.py): it classifies the outcome of a
    device-list fetch, builds the form body of a command, reduces a send to
    a boolean, and lists the registered climate entities of a topic. The
    HTTP exchange itself is an input: the model receives what the server
    answered (or that the request failed). */
module Coordinator {
  import opened Optional
  import opened Text
  import opened Device
  import Command
  import Climate

  /** The `type` field the integration sends unless told otherwise. */
  const DefaultMessageType: int := 3

  /** `get_climate_entities_for_topic`: the registered climate entities
      whose record carries the topic, in registration order. */
  function ClimatesForTopic(climates: seq<Climate.Climate>, topic: string): (r: seq<Climate.Climate>)
    ensures |r| <= |climates|
    ensures forall i :: 0 <= i < |r| ==> r[i].record.topic == topic && r[i] in climates
    ensures forall i :: 0 <= i < |climates| && climates[i].record.topic == topic ==> climates[i] in r
  {
    if |climates| == 0 then []
    else
      var rest := ClimatesForTopic(climates[1..], topic);
      if climates[0].record.topic == topic then [climates[0]] + rest else rest
  }

  /** The filter keeps registration order: the entities of a longer
      registry are those of its first part followed by those of the rest. */
  lemma {:induction false} ClimatesForTopicAppend(a: seq<Climate.Climate>, b: seq<Climate.Climate>, topic: string)
    ensures ClimatesForTopic(a + b, topic) == ClimatesForTopic(a, topic) + ClimatesForTopic(b, topic)
    decreases |a|
  {
    if |a| > 0 {
      assert (a + b)[1..] == a[1..] + b;
      ClimatesForTopicAppend(a[1..], b, topic);
    } else {
      assert a + b == b;
    }
  }

  /** The `data` member of the envelope: missing, JSON `null`, or the
      device list. */
  datatype DataField = Missing | Null | Devices(records: seq<Record>)

  /** The JSON envelope `{code, data, msg}` of the device-list endpoint. */
  datatype Envelope = Envelope(code: Option<int>, data: DataField, message: Option<string>)

  /** What the GET request produced: an aiohttp client error (connection,
      timeout, ...), or a response with its status and its body, `None`
      when the body cannot be read as a JSON object. */
  datatype FetchReply = ClientError | Response(status: int, body: Option<Envelope>)

  /** Why a fetch failed; all of them reach the host as `UpdateFailed`. */
  datatype Failure =
    | RequestFailed             // an aiohttp client error, including raise_for_status
    | ApiError(message: Option<string>)  // code != 0, re-wrapped by the generic handler
    | Unexpected                // any other exception (an unreadable body)

  datatype FetchResult = Fetched(devices: seq<Record>) | UpdateFailed(failure: Failure)

  /** `_async_update_data`. A client error or a status of 400 and above
      (which `raise_for_status` turns into a client error) is a request
      failure; an unreadable body is an unexpected failure; a `code` other
      than 0, or no `code`, is an API error; otherwise the device list,
      with a missing `data` read as the empty list. A `data` of `null` is
      an unexpected failure: the debug line takes its length before the
      list is returned. A status other than 200 below 400 is not a failure
      by itself. */
  function FetchDevices(reply: FetchReply): (r: FetchResult)
    ensures r.Fetched? <==>
      && reply.Response? && reply.status < 400 && reply.body.Some?
      && reply.body.value.code == Some(0) && !reply.body.value.data.Null?
    ensures r.Fetched? ==>
      r.devices == (if reply.body.value.data.Devices? then reply.body.value.data.records else [])
    ensures reply.ClientError? || reply.status >= 400 ==> r == UpdateFailed(RequestFailed)
    ensures reply.Response? && reply.status < 400 && reply.body.None? ==> r == UpdateFailed(Unexpected)
    ensures reply.Response? && reply.status < 400 && reply.body.Some? && reply.body.value.code != Some(0)
            ==> r == UpdateFailed(ApiError(reply.body.value.message))
    ensures (reply.Response? && reply.status < 400 && reply.body.Some? && reply.body.value.code == Some(0)
             && reply.body.value.data.Null?) ==> r == UpdateFailed(Unexpected)
  {
    match reply
    case ClientError => UpdateFailed(RequestFailed)
    case Response(status, body) =>
      if status >= 400 then UpdateFailed(RequestFailed)
      else
        match body
        case None => UpdateFailed(Unexpected)
        case Some(envelope) =>
          if envelope.code != Some(0) then UpdateFailed(ApiError(envelope.message))
          else
            match envelope.data
            case Missing => Fetched([])
            case Null => UpdateFailed(Unexpected)
            case Devices(records) => Fetched(records)
  }

  /** The coordinator's data as the host keeps it: the last fetched device
      list (`None` before the first success) and whether the last refresh
      succeeded. */
  datatype State = State(data: Option<seq<Record>>, lastUpdateSuccess: bool)

  /** One refresh as the host's update coordinator performs it around
      `_async_update_data`: a success replaces the device list wholesale, a
      failure keeps the previous one and clears the success flag. */
  function Refresh(s: State, reply: FetchReply): (r: State)
    ensures r.lastUpdateSuccess <==> FetchDevices(reply).Fetched?
    ensures r.lastUpdateSuccess ==> r.data == Some(FetchDevices(reply).devices)
    ensures !r.lastUpdateSuccess ==> r.data == s.data
  {
    match FetchDevices(reply)
    case Fetched(devices) => State(Some(devices), true)
    case UpdateFailed(_) => State(s.data, false)
  }

  /** The fields of a command's form body. */
  datatype PayloadFields = PayloadFields(user: string, topic: string, msg: string, kind: int)

  /** The form body `user=<u>&topic=<t>&msg=<m>&type=<k>`, with no escaping.
      When no value holds `&` or `=`, the body reads back as the four
      fields. */
  function Payload(user: string, topic: string, msg: string, kind: int): (body: string)
    ensures Command.FormSafe(user) && Command.FormSafe(topic) && Command.FormSafe(msg)
            ==> ParsePayload(body) == Some(PayloadFields(user, topic, msg, kind))
  {
    var body := "user=" + user + "&topic=" + topic + "&msg=" + msg + "&type=" + IntToString(kind);
    PayloadParses(user, topic, msg, kind);
    body
  }

  /** `async_send_command` without an explicit `device_type`: the body
      carries the default message type 3. */
  function SendPayload(user: string, topic: string, msg: string): (body: string)
    ensures Command.FormSafe(user) && Command.FormSafe(topic) && Command.FormSafe(msg)
            ==> ParsePayload(body) == Some(PayloadFields(user, topic, msg, 3))
  {
    Payload(user, topic, msg, DefaultMessageType)
  }

  /** Reads `name=value` when the field holds exactly one `=` after `name`. */
  function FieldValue(field: string, name: string): Option<string> {
    var kv := Split(field, '=');
    if |kv| == 2 && kv[0] == name then Some(kv[1]) else None
  }

  /** Reads a form body of four `&`-separated fields `user`, `topic`, `msg`
      and `type`, in that order. */
  function ParsePayload(body: string): Option<PayloadFields> {
    var fields := Split(body, '&');
    if |fields| != 4 then None
    else
      match (FieldValue(fields[0], "user"), FieldValue(fields[1], "topic"),
             FieldValue(fields[2], "msg"), FieldValue(fields[3], "type"))
      case (Some(u), Some(t), Some(m), Some(k)) =>
        (match ParseInt(k)
         case Some(kind) => Some(PayloadFields(u, t, m, kind))
         case None => None)
      case _ => None
  }

  lemma FieldParses(name: string, value: string)
    requires '=' !in name && '=' !in value
    ensures name + "=" + value == Join([name, value], '=')
    ensures FieldValue(name + "=" + value, name) == Some(value)
  {
    assert [name, value][1..] == [value];
    SplitJoin([name, value], '=');
  }

  lemma JoinFour(a: string, b: string, c: string, d: string, sep: char)
    ensures Join([a, b, c, d], sep) == a + [sep] + b + [sep] + c + [sep] + d
  {
    var parts := [a, b, c, d];
    assert parts[1..] == [b, c, d];
    assert [b, c, d][1..] == [c, d];
    assert [c, d][1..] == [d];
    assert Join([c, d], sep) == c + [sep] + d;
    assert Join([b, c, d], sep) == b + [sep] + (c + [sep] + d);
    assert Join(parts, sep) == a + [sep] + (b + [sep] + (c + [sep] + d));
  }

  /** Four fields written one after the other, each after the first led by
      the separator, are the fields joined by it. */
  lemma JoinLed(a: string, p2: string, b: string, p3: string, c: string, p4: string, d: string, sep: char)
    ensures a + ([sep] + p2) + b + ([sep] + p3) + c + ([sep] + p4) + d == Join([a, p2 + b, p3 + c, p4 + d], sep)
  {
    JoinFour(a, p2 + b, p3 + c, p4 + d, sep);
  }

  /** The f-string body is the four `name=value` fields joined by `&`. */
  lemma PayloadIsJoin(user: string, topic: string, msg: string, k: string)
    ensures "user=" + user + "&topic=" + topic + "&msg=" + msg + "&type=" + k
            == Join(["user=" + user, "topic=" + topic, "msg=" + msg, "type=" + k], '&')
  {
    assert "&topic=" == ['&'] + "topic=";
    assert "&msg=" == ['&'] + "msg=";
    assert "&type=" == ['&'] + "type=";
    JoinLed("user=" + user, "topic=", topic, "msg=", msg, "type=", k, '&');
  }

  lemma FieldAvoids(name: string, value: string)
    requires '&' !in name && '&' !in value
    ensures '&' !in name + "=" + value
  {
  }

  lemma ParseFourFields(body: string, u: string, t: string, m: string, k: string, kind: int)
    requires Split(body, '&') == ["user=" + u, "topic=" + t, "msg=" + m, "type=" + k]
    requires FieldValue("user=" + u, "user") == Some(u)
    requires FieldValue("topic=" + t, "topic") == Some(t)
    requires FieldValue("msg=" + m, "msg") == Some(m)
    requires FieldValue("type=" + k, "type") == Some(k)
    requires ParseInt(k) == Some(kind)
    ensures ParsePayload(body) == Some(PayloadFields(u, t, m, kind))
  {
  }

  lemma SplitPayload(user: string, topic: string, msg: string, k: string)
    requires '&' !in user && '&' !in topic && '&' !in msg && '&' !in k
    ensures Split("user=" + user + "&topic=" + topic + "&msg=" + msg + "&type=" + k, '&')
            == ["user=" + user, "topic=" + topic, "msg=" + msg, "type=" + k]
  {
    PayloadIsJoin(user, topic, msg, k);
    FieldAvoids("user", user);
    FieldAvoids("topic", topic);
    FieldAvoids("msg", msg);
    FieldAvoids("type", k);
    SplitJoin(["user=" + user, "topic=" + topic, "msg=" + msg, "type=" + k], '&');
  }

  /** Each of the four fields reads back as its value. */
  lemma FieldsParse(user: string, topic: string, msg: string, k: string)
    requires '=' !in user && '=' !in topic && '=' !in msg && '=' !in k
    ensures FieldValue("user=" + user, "user") == Some(user)
    ensures FieldValue("topic=" + topic, "topic") == Some(topic)
    ensures FieldValue("msg=" + msg, "msg") == Some(msg)
    ensures FieldValue("type=" + k, "type") == Some(k)
  {
    assert "user" + "=" == "user=" && "topic" + "=" == "topic=";
    assert "msg" + "=" == "msg=" && "type" + "=" == "type=";
    FieldParses("user", user);
    FieldParses("topic", topic);
    FieldParses("msg", msg);
    FieldParses("type", k);
  }

  lemma PayloadParsesWith(user: string, topic: string, msg: string, k: string, kind: int)
    requires Command.FormSafe(user) && Command.FormSafe(topic) && Command.FormSafe(msg)
    requires Command.FormSafe(k) && ParseInt(k) == Some(kind)
    ensures ParsePayload("user=" + user + "&topic=" + topic + "&msg=" + msg + "&type=" + k)
            == Some(PayloadFields(user, topic, msg, kind))
  {
    SplitPayload(user, topic, msg, k);
    FieldsParse(user, topic, msg, k);
    ParseFourFields("user=" + user + "&topic=" + topic + "&msg=" + msg + "&type=" + k, user, topic, msg, k, kind);
  }

  lemma PayloadParses(user: string, topic: string, msg: string, kind: int)
    ensures Command.FormSafe(user) && Command.FormSafe(topic) && Command.FormSafe(msg) ==>
      ParsePayload("user=" + user + "&topic=" + topic + "&msg=" + msg + "&type=" + IntToString(kind))
        == Some(PayloadFields(user, topic, msg, kind))
  {
    if Command.FormSafe(user) && Command.FormSafe(topic) && Command.FormSafe(msg) {
      var k := IntToString(kind);
      assert Command.FormSafe(k) by {
        assert forall j :: 0 <= j < |k| ==> k[j] != '&' && k[j] != '=';
      }
      PayloadParsesWith(user, topic, msg, k, kind);
    }
  }

  /** What the POST request produced: an exception of any kind, or a
      response status. */
  datatype SendReply = SendError | SendStatus(status: int)

  /** `async_send_command`'s result: true exactly when the response status
      is 200; any other status, and any exception, is false. */
  function SendSucceeded(reply: SendReply): (ok: bool)
    ensures ok <==> reply.SendStatus? && reply.status == 200
  {
    match reply
    case SendError => false
    case SendStatus(status) => status == 200
  }
}
