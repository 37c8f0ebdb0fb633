/** A separate, simpler version of the session: a CloudBit that sends events by tag, of which
    only `OUTPUT` is meant to be sendable. */
module EventSession {
  import opened Wrappers
  import opened Transport

  datatype CloudBitEvent = Input | Output | Heartbeat | HeartbeatAck | Hello

  /** The string value of each member of the `CloudBitEvents` enum. */
  function Tag(e: CloudBitEvent): (t: string)
    ensures |t| > 0
  {
    match e
    case Input => "INPUT"
    case Output => "OUTPUT"
    case Heartbeat => "Heartbeat"
    case HeartbeatAck => "HeartbeatAck"
    case Hello => "Hello"
  }

  /** The five tags are pairwise distinct strings. */
  lemma TagsDistinct(a: CloudBitEvent, b: CloudBitEvent)
    ensures Tag(a) == Tag(b) <==> a == b
  {
  }

  /** The rejection reason for an event other than `OUTPUT`. */
  function CannotSend(e: CloudBitEvent): (m: string)
  {
    "Cannot send a " + Tag(e) + " event."
  }

  /** How a `sendEvent` call settles: the first of its two settlements. */
  function SendOutcome(e: CloudBitEvent, readyState: int): (o: Settlement)
    ensures e != Output ==> o == Rejected(CannotSend(e))
    ensures e == Output ==> (o == Resolved <==> readyState == Open)
    ensures e == Output && readyState != Open ==> o == Rejected(NotOpen)
  {
    var p := if e != Output then Settle(Pending, Rejected(CannotSend(e))) else Pending;
    var q := Settle(p, if readyState == Open then Resolved else Rejected(NotOpen));
    q.outcome
  }

  class CloudBit {
    const deviceId: string
    const socket: Socket
    var emitted: seq<Event>

    /** The constructor already sends an empty `OUTPUT` event, whose promise nobody awaits. */
    constructor (deviceId: string, socket: Socket)
      modifies socket
      ensures this.deviceId == deviceId && this.socket == socket
      ensures emitted == [Emitted(Tag(Output), Strings([""]))]
      ensures socket.sent == old(socket.sent) + (if old(socket.readyState) == Open then [RawFrame([""])] else [])
      ensures socket.readyState == old(socket.readyState) && socket.closeCode == old(socket.closeCode)
    {
      this.deviceId := deviceId;
      this.socket := socket;
      emitted := [];
      new;
      var _ := SendEvent(Output, [""]);
    }

    /** `sendEvent(event, ...data)`: a wrong event rejects but does not return, so the event is
        still emitted and the data still sent when the socket is open. */
    method SendEvent(event: CloudBitEvent, data: seq<string>) returns (o: Settlement)
      modifies this, socket
      ensures o == SendOutcome(event, old(socket.readyState))
      ensures emitted == old(emitted) + [Emitted(Tag(event), Strings(data))]
      ensures socket.sent == old(socket.sent) + (if old(socket.readyState) == Open then [RawFrame(data)] else [])
      ensures socket.readyState == old(socket.readyState) && socket.closeCode == old(socket.closeCode)
    {
      var promise := Pending;
      if event != Output {
        promise := Settle(promise, Rejected(CannotSend(event)));
      }
      emitted := emitted + [Emitted(Tag(event), Strings(data))];
      if socket.readyState == Open {
        socket.Send(RawFrame(data));
        promise := Settle(promise, Resolved);
      } else {
        promise := Settle(promise, Rejected(NotOpen));
      }
      o := promise.outcome;
    }
  }

  /** Sending `Hello` on an open socket rejects, yet the data goes out anyway. */
  method WrongEventStillSent() returns (sent: seq<Frame>, o: Settlement)
    ensures o == Rejected("Cannot send a Hello event.")
    ensures sent == [RawFrame([""]), RawFrame(["hi"])]
  {
    var socket := new Socket(Open);
    var cb := new CloudBit("0", socket);
    o := cb.SendEvent(Hello, ["hi"]);
    sent := socket.sent;
  }
}
