/** The older, compiled generation of the server: admission by a `device_id` query parameter
    with duplicate rejection, inbound `input` frames, guarded listener registration and an
    unclamped `setOutput`. */
module LegacyServer {
  import opened Wrappers
  import opened Transport
  import opened Search

  /** The close code sent to a connection that is refused. */
  const RefusedCode: int := 4002

  const InvalidEventName: string := "Invalid event name."

  class CloudBit {
    const deviceId: string
    const socket: Socket
    /** The event names listeners may be registered for. */
    const events: seq<string> := ["input", "output", "heartbeat"]
    var inputValue: int
    var emitted: seq<Event>
    var listeners: seq<Listener>

    constructor (deviceId: string, socket: Socket)
      ensures this.deviceId == deviceId && this.socket == socket
      ensures inputValue == 0 && emitted == [] && listeners == []
    {
      this.deviceId := deviceId;
      this.socket := socket;
      inputValue := 0;
      emitted := [];
      listeners := [];
    }

    /** `getInputValue()`: the level last stored by `setInput`. */
    function GetInputValue(): (v: int)
      reads this
      ensures v == inputValue
    {
      inputValue
    }

    /** In this version `setInput` only stores the value; it emits nothing. */
    method SetInput(value: int)
      modifies this
      ensures GetInputValue() == value
      ensures emitted == old(emitted) && listeners == old(listeners)
    {
      inputValue := value;
    }

    /** Emits `'output'` and sends the value as given (no clamping at all), rejecting when the
        socket is not open. */
    method SetOutput(value: int) returns (o: Settlement)
      modifies this, socket
      ensures emitted == old(emitted) + [Emitted("output", Number(value))]
      ensures old(socket.readyState) == Open ==>
                o == Resolved && socket.sent == old(socket.sent) + [OutputFrame(value)]
      ensures old(socket.readyState) != Open ==>
                o == Rejected(NotOpen) && socket.sent == old(socket.sent)
      ensures inputValue == old(inputValue) && listeners == old(listeners)
      ensures socket.readyState == old(socket.readyState) && socket.closeCode == old(socket.closeCode)
    {
      emitted := emitted + [Emitted("output", Number(value))];
      var promise := Pending;
      if socket.readyState == Open {
        socket.Send(OutputFrame(value));
        promise := Settle(promise, Resolved);
      } else {
        promise := Settle(promise, Rejected(NotOpen));
      }
      o := promise.outcome;
    }

    /** `on(event, cb)`: throws for an event name outside `events`. */
    method On(event: string) returns (r: Outcome)
      modifies this
      ensures r == Returned <==> event in events
      ensures r.Threw? ==> r.message == InvalidEventName
      ensures listeners == old(listeners) + (if event in events then [Listener(event, false)] else [])
      ensures inputValue == old(inputValue) && emitted == old(emitted)
    {
      if event !in events {
        return Threw(InvalidEventName);
      }
      listeners := listeners + [Listener(event, false)];
      r := Returned;
    }

    /** `once(event, cb)`: throws for an event name outside `events`. */
    method Once(event: string) returns (r: Outcome)
      modifies this
      ensures r == Returned <==> event in events
      ensures r.Threw? ==> r.message == InvalidEventName
      ensures listeners == old(listeners) + (if event in events then [Listener(event, true)] else [])
      ensures inputValue == old(inputValue) && emitted == old(emitted)
    {
      if event !in events {
        return Threw(InvalidEventName);
      }
      listeners := listeners + [Listener(event, true)];
      r := Returned;
    }
  }

  /** What the `'message'` handler does with one message. */
  datatype Action = Ignore | SetInputTo(value: int)

  /** The `switch (json.type)` of the `'message'` handler: only a parsed `input` frame with a
      numeric `value` does anything; a parse error is caught. */
  function Dispatch(data: Inbound): (a: Action)
    ensures a.SetInputTo? <==> data.Parsed? && data.kind == Str("input") && data.value.Num?
    ensures a.SetInputTo? ==> data.value == Num(a.value)
  {
    match data
    case Malformed => Ignore
    case Parsed(_, kind, value) =>
      if kind == Str("input") then
        match value
        case Num(n) => SetInputTo(n)
        case _ => Ignore
      else Ignore
  }

  /** The selector of `getCloudBitByDeviceId`. */
  function HasId(deviceId: string): CloudBit -> bool
  {
    (c: CloudBit) => c.deviceId == deviceId
  }

  /** Some registered session holds `deviceId`. */
  ghost predicate Holds(s: seq<CloudBit>, deviceId: string)
  {
    exists i :: 0 <= i < |s| && s[i].deviceId == deviceId
  }

  ghost predicate UniqueIds(s: seq<CloudBit>)
  {
    forall i, j :: 0 <= i < j < |s| ==> s[i].deviceId != s[j].deviceId
  }

  class Server {
    var cloudbits: seq<CloudBit>

    /** A `Set` of sessions whose device ids are pairwise distinct. */
    ghost predicate Valid()
      reads this
    {
      Distinct(cloudbits) && UniqueIds(cloudbits)
    }

    constructor ()
      ensures Valid() && cloudbits == []
    {
      cloudbits := [];
    }

    /** The `'connection'` handler. `deviceIdParam` is the `device_id` query parameter of the
        request URL (`None` when it is missing). */
    method Connection(socket: Socket, deviceIdParam: Option<string>) returns (admitted: Option<CloudBit>)
      requires Valid()
      modifies this, socket
      ensures Valid()
      ensures deviceIdParam.None? || Holds(old(cloudbits), deviceIdParam.value) ==>
                admitted.None? && cloudbits == old(cloudbits) &&
                (old(socket.readyState) == Open ==>
                   socket.readyState == Closing && socket.closeCode == Some(RefusedCode)) &&
                (old(socket.readyState) != Open ==>
                   socket.readyState == old(socket.readyState) && socket.closeCode == old(socket.closeCode))
      ensures deviceIdParam.Some? && !Holds(old(cloudbits), deviceIdParam.value) ==>
                admitted.Some? && fresh(admitted.value) &&
                cloudbits == old(cloudbits) + [admitted.value] &&
                admitted.value.deviceId == deviceIdParam.value && admitted.value.socket == socket &&
                admitted.value.inputValue == 0 && admitted.value.listeners == [] &&
                socket.readyState == old(socket.readyState) && socket.closeCode == old(socket.closeCode)
      ensures socket.sent == old(socket.sent)
    {
      if deviceIdParam.None? {
        socket.Close(RefusedCode);
        return None;
      }
      var deviceId := deviceIdParam.value;
      var held := GetCloudBitByDeviceId(deviceId);
      if held.Some? {
        socket.Close(RefusedCode);
        return None;
      }
      var cb := new CloudBit(deviceId, socket);
      assert cb !in cloudbits;
      cloudbits := cloudbits + [cb];
      admitted := Some(cb);
    }

    /** The `'message'` handler of session `cb`. */
    method Message(cb: CloudBit, data: Inbound)
      modifies cb
      ensures cb.inputValue == (match Dispatch(data) case SetInputTo(v) => v case Ignore => old(cb.inputValue))
      ensures cb.emitted == old(cb.emitted) && cb.listeners == old(cb.listeners)
    {
      match Dispatch(data)
      case SetInputTo(v) => cb.SetInput(v);
      case Ignore =>
    }

    /** The `forEach` scan: remembers the first session with the id and keeps it to the end. */
    method GetCloudBitByDeviceId(deviceId: string) returns (cloudbit: Option<CloudBit>)
      ensures cloudbit == First(cloudbits, HasId(deviceId))
    {
      cloudbit := None;
      ghost var at: nat := 0;
      var i := 0;
      while i < |cloudbits|
        invariant 0 <= i <= |cloudbits|
        invariant cloudbit.None? <==> forall j :: 0 <= j < i ==> cloudbits[j].deviceId != deviceId
        invariant cloudbit.Some? ==> at < i && cloudbits[at] == cloudbit.value && cloudbit.value.deviceId == deviceId
        invariant cloudbit.Some? ==> forall j :: 0 <= j < at ==> cloudbits[j].deviceId != deviceId
      {
        var value := cloudbits[i];
        if value.deviceId == deviceId && cloudbit == None {
          cloudbit := Some(value);
          at := i;
        }
        i := i + 1;
      }
      match FirstIndex(cloudbits, HasId(deviceId))
      case None =>
      case Some(k) =>
        assert HasId(deviceId)(cloudbits[at]);
        assert k == at;
    }
  }

  /** Two connections claiming the same `device_id`: whichever arrives first is admitted, the
      other is closed with 4002 and never becomes a session. */
  method DuplicateIdRejected(deviceId: string) returns (server: Server, kept: CloudBit, refused: Socket)
    ensures server.cloudbits == [kept] && kept.deviceId == deviceId
    ensures refused.closeCode == Some(RefusedCode) && refused.readyState == Closing
    ensures kept.socket != refused && kept.socket.readyState == Open
  {
    server := new Server();
    var first := new Socket(Open);
    refused := new Socket(Open);
    var a := server.Connection(first, Some(deviceId));
    kept := a.value;
    assert server.cloudbits[0].deviceId == deviceId;
    var b := server.Connection(refused, Some(deviceId));
  }
}
