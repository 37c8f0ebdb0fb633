/** The per-device session of the current server: a CloudBit connected over one WebSocket. */
module CloudBitSession {
  import opened Wrappers
  import opened Transport

  /** The output level `setOutput` uses: negative levels become 0 and nothing else changes
      (in particular there is no upper limit at 99). */
  function ClampBelow(value: int): (r: int)
    ensures r >= 0
    ensures r == value <==> value >= 0
    ensures value < 0 ==> r == 0
  {
    if value < 0 then 0 else value
  }

  class CloudBit {
    const deviceId: string
    const socket: Socket
    var inputValue: int
    var emitted: seq<Event>
    var listeners: seq<Listener>

    constructor (deviceId: string, socket: Socket)
      ensures this.deviceId == deviceId && this.socket == socket
      ensures inputValue == 0 && emitted == [] && listeners == []
    {
      this.deviceId := deviceId;
      this.socket := socket;
      inputValue := 0;
      emitted := [];
      listeners := [];
    }

    /** `getInputValue()`: the level last stored by `setInput`. */
    function GetInputValue(): (v: int)
      reads this
      ensures v == inputValue
    {
      inputValue
    }

    /** Mirrors a new reading of the device's input: stores it and emits `'input'`. */
    method SetInput(value: int)
      modifies this
      ensures GetInputValue() == value
      ensures emitted == old(emitted) + [Emitted("input", Number(value))]
      ensures listeners == old(listeners)
      ensures socket.sent == old(socket.sent)
    {
      inputValue := value;
      emitted := emitted + [Emitted("input", Number(value))];
    }

    /** Asks the device to output `value`: emits `'output'` with the clamped level, then sends it
        when the socket is open and rejects otherwise. */
    method SetOutput(value: int) returns (o: Settlement)
      modifies this, socket
      ensures emitted == old(emitted) + [Emitted("output", Number(ClampBelow(value)))]
      ensures old(socket.readyState) == Open ==>
                o == Resolved && socket.sent == old(socket.sent) + [OutputFrame(ClampBelow(value))]
      ensures old(socket.readyState) != Open ==>
                o == Rejected(NotOpen) && socket.sent == old(socket.sent)
      ensures inputValue == old(inputValue) && listeners == old(listeners)
      ensures socket.readyState == old(socket.readyState) && socket.closeCode == old(socket.closeCode)
    {
      var level := value;
      if level < 0 {
        level := 0;
      }
      emitted := emitted + [Emitted("output", Number(level))];
      var promise := Pending;
      if socket.readyState == Open {
        socket.Send(OutputFrame(level));
        promise := Settle(promise, Resolved);
      } else {
        promise := Settle(promise, Rejected(NotOpen));
      }
      o := promise.outcome;
    }

    /** `on(event, cb)`: any event name is accepted. */
    method On(event: string)
      modifies this
      ensures listeners == old(listeners) + [Listener(event, false)]
      ensures inputValue == old(inputValue) && emitted == old(emitted)
    {
      listeners := listeners + [Listener(event, false)];
    }

    /** `once(event, cb)`: any event name is accepted. */
    method Once(event: string)
      modifies this
      ensures listeners == old(listeners) + [Listener(event, true)]
      ensures inputValue == old(inputValue) && emitted == old(emitted)
    {
      listeners := listeners + [Listener(event, true)];
    }

    /** True exactly for this session's own socket (the `instanceof` test fails for anything
        that is not a socket). */
    function SocketEquals(s: object?): (r: bool)
      ensures r <==> s == socket
    {
      s is Socket && s as Socket == socket
    }
  }

  /** The documentation promises that levels above 99 become 99; the code passes them through:
      `setOutput(150)` emits and sends 150. */
  method OutputAbove99IsNotCapped() returns (sent: seq<Frame>, emitted: seq<Event>, o: Settlement)
    ensures sent == [OutputFrame(150)]
    ensures emitted == [Emitted("output", Number(150))]
    ensures o == Resolved
  {
    var socket := new Socket(Open);
    var cb := new CloudBit("0", socket);
    o := cb.SetOutput(150);
    sent, emitted := socket.sent, cb.emitted;
  }

  /** On a socket that is not open, `setOutput` still emits `'output'` but rejects and sends
      nothing; a negative level is emitted as 0. */
  method OutputOnClosedSocket() returns (sent: seq<Frame>, emitted: seq<Event>, o: Settlement)
    ensures sent == []
    ensures emitted == [Emitted("output", Number(0))]
    ensures o == Rejected(NotOpen)
  {
    var socket := new Socket(3);
    var cb := new CloudBit("0", socket);
    o := cb.SetOutput(-1);
    sent, emitted := socket.sent, cb.emitted;
  }
}
