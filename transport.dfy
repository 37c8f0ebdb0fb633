/** What the sessions see of the WebSocket transport and of Node's event emitter: a socket with
    its `readyState`, the frames sent on it and the close code it was closed with; the events a
    session emits; the listeners registered on it; and inbound data after `JSON.parse`. */
module Transport {
  import opened Wrappers

  /** `WebSocket.CONNECTING`, `WebSocket.OPEN` (the only ready state in which the sessions send),
      `WebSocket.CLOSING` and `WebSocket.CLOSED`. */
  const Connecting: int := 0
  const Open: int := 1
  const Closing: int := 2
  const Closed: int := 3

  /** The message every session rejects a send with when its socket is not open. */
  const NotOpen: string := "Socket is not open."

  /** A payload as it reaches listeners: a number, or the argument list of a rest parameter. */
  datatype Value = Number(n: int) | Strings(items: seq<string>)

  /** One `emit(name, value)` call. */
  datatype Event = Emitted(name: string, value: Value)

  /** A listener registered with `on` (`once == false`) or `once` (`once == true`); the callback
      itself is not modelled. */
  datatype Listener = Listener(name: string, once: bool)

  /** One `socket.send(...)` call, by the JSON object it stringifies. */
  datatype Frame =
    | OutputFrame(value: int)                                          // { type: 'output', value }
    | HelloFrame(opcode: int, heartbeatInterval: int, deviceId: string) // { opcode, heartbeat_interval, deviceId }
    | RawFrame(data: seq<string>)                                      // the rest-parameter array itself

  /** A JSON property after parsing: absent, a number, a string, or anything else. */
  datatype Json = Missing | Num(n: int) | Str(s: string) | OtherJson

  /** What `JSON.parse` made of a message: it threw, or an object with the properties read. */
  datatype Inbound = Malformed | Parsed(opcode: Json, kind: Json, value: Json)

  /** The server side of one WebSocket connection. */
  class Socket {
    var readyState: int
    var sent: seq<Frame>
    var closeCode: Option<int>

    constructor (readyState: int)
      ensures this.readyState == readyState && sent == [] && closeCode == None
    {
      this.readyState := readyState;
      sent := [];
      closeCode := None;
    }

    /** `socket.send(JSON.stringify(f))`. */
    method Send(f: Frame)
      modifies this
      ensures sent == old(sent) + [f]
      ensures readyState == old(readyState) && closeCode == old(closeCode)
    {
      sent := sent + [f];
    }

    /** `socket.close(code)`: an open socket starts the closing handshake with `code` and moves
        to CLOSING; on a socket already closing or closed the call does nothing. */
    method Close(code: int)
      modifies this
      ensures old(readyState) == Open ==> readyState == Closing && closeCode == Some(code)
      ensures old(readyState) != Open ==> readyState == old(readyState) && closeCode == old(closeCode)
      ensures sent == old(sent)
    {
      if readyState == Open {
        readyState := Closing;
        closeCode := Some(code);
      }
    }
  }
}
