# CloudBit server: device registry and sessions

A model of the core of a WebSocket server that littleBits CloudBit devices connect to. Each
connection becomes a `CloudBit` session that holds the device id, its socket and the last input
value, emits `input` and `output` events, and sends output levels to the device. A server keeps
the connected sessions in a registry (a `Set`, kept here as a duplicate-free sequence in
insertion order) and looks them up by device id or by socket.

The repository holds three generations of this code, and each one is modelled in its own module:

- `CloudBitSession` (`src/cloudbit.ts`) and `CloudBitServer` (`src/server.ts`) are the current
  session and server. A new connection gets the decimal string of the registry size as its id.
  The server sends a HELLO frame with opcode 3, a heartbeat interval of 30000 plus a jitter in
  0..100, and the id. A `'close'` event deletes the session. Inbound messages change nothing.
  The HTTPS variant listens on `options.port | 3000`.
- `LegacyServer` (`dist/index.js`) is the older compiled version. A connection must carry a
  `device_id` query parameter, and a missing or already-held id is closed with code 4002. An
  inbound `input` frame with a numeric value sets the input. `on` and `once` accept only
  `input`, `output` and `heartbeat`. `setOutput` does not clamp.
- `EventSession` (`index.ts`) is a separate, simpler version of the session. `sendEvent`
  rejects every event except `OUTPUT`, but it does not return early, so the event is still
  emitted and the data still sent.
- `Entry` (`src/index.ts`, the same logic as `dist/index.js:13-26`) chooses HTTP or HTTPS and the
  port from the options.

Shared modules: `Wrappers` (option, promise settlement with first-settlement-wins, thrown
errors), `Transport` (a socket with `readyState`, the log of frames sent on it and its close
code; emitted events; registered listeners; inbound data after `JSON.parse`), `Search`
(`filter(...)[0]`, first match in iteration order, `Set.delete`), `Decimal`
(`Number.prototype.toString` on naturals, with its inverse), `Bitwise` (JavaScript's int32
`|`, modelled arithmetically with two's complement) and `Opcodes` (the `WebSocketOpcodes` enum).

Emissions are an append-only log `emitted: seq<Event>` on each session. Sends are the log
`sent: seq<Frame>` on each socket. A promise is the first of its settlements. Calls that may
throw return an `Outcome`.

### Where the code and its documentation disagree (the model follows the code)

- The doc comment of `setOutput` (`src/cloudbit.ts:35`) says levels above 99 become 99. The
  code only raises negative levels to 0 (`src/cloudbit.ts:41`). `OutputAbove99IsNotCapped`
  shows that `setOutput(150)` emits and sends 150. The older `setOutput` (`dist/index.js:62-70`)
  does not clamp at all.
- `src/server.ts:31` passes three arguments to a two-argument constructor, and `src/server.ts:66`
  reads `cb.deviceId` where the class declares `device_id` (`src/cloudbit.ts:9,15`). The model
  has one field, `deviceId`, and drops the extra heartbeat argument, which the class never
  stores. Taken literally, `cb.deviceId` would be `undefined` and the lookup by id would never
  find a session. The model follows the evident intent.
- Nothing in `CloudBit` ever emits `'close'`. `Server.Close` models the event arriving from
  outside.
- Ids based on the registry size are unique only while no session has closed
  (`NumberedIdsAreUnique`). After a close they collide: `SizeIdsCollideAfterClose` connects
  three devices and closes the first, and the third device then gets the id "1" that the second
  device still holds.
- `options.port | 3000` is a bitwise OR, not a default. Port 443 becomes 3003 and 8080 becomes
  8120. A negative int32 port stays negative, and a port from 2^31 to 2^32 - 1 wraps to a negative
  int32 first, so it gives a negative result too.
- The older server never removes a session, so a device id that has been admitted once is
  refused for good. An empty `device_id=` is a present parameter, so it is admitted.
- No generation of the code handles heartbeats, HEARTBEAT_ACK or liveness timeouts, and none
  sends close code 4001. The model has none of these either.

## Model

| member | source | states |
|---|---|---|
| `Opcodes.Code` | src/server.ts:7-13 | Each opcode has its wire value, and every value lies in 1..5. |
| `Opcodes.FromCode` | src/server.ts:7-13 | A number is decoded exactly when it is in 1..5, and it decodes to the opcode whose value it is. |
| `Opcodes.CodesDistinct` | src/server.ts:7-13 | INPUT=1, OUTPUT=2, HELLO=3, HEARTBEAT=4 and HEARTBEAT_ACK=5 are pairwise distinct, and decoding recovers the opcode. |
| `CloudBitSession.CloudBit.constructor` | src/cloudbit.ts:9-19 | A new session keeps the given id and socket, starts with input value 0, and has emitted nothing. |
| `CloudBitSession.CloudBit.GetInputValue` | src/cloudbit.ts:24 | Returns the stored input value. |
| `CloudBitSession.CloudBit.SetInput` | src/cloudbit.ts:24-33 | Afterwards `getInputValue()` returns the value, exactly one `'input'` event with it is appended, and no frame is sent. |
| `CloudBitSession.ClampBelow` | src/cloudbit.ts:41 | The level used is never negative. It equals the requested value exactly when that value is non-negative, and it is 0 otherwise. |
| `CloudBitSession.CloudBit.SetOutput` | src/cloudbit.ts:39-46 | Always emits `'output'` with the clamped level. It resolves and sends exactly one output frame iff `readyState == 1`, and otherwise rejects with 'Socket is not open.' and sends nothing. The input value is unchanged. |
| `CloudBitSession.CloudBit.On` | src/cloudbit.ts:55-58 | Any event name is accepted, and one listener is appended. |
| `CloudBitSession.CloudBit.Once` | src/cloudbit.ts:64-67 | Any event name is accepted, and one once-listener is appended. |
| `CloudBitSession.CloudBit.SocketEquals` | src/cloudbit.ts:71-73 | True exactly when the argument is the session's own socket. Anything that is not a socket fails the `instanceof` test. |
| `CloudBitSession.OutputAbove99IsNotCapped` | src/cloudbit.ts:35-43 | Against the doc comment: `setOutput(150)` emits 150, sends 150 and resolves. |
| `CloudBitSession.OutputOnClosedSocket` | src/cloudbit.ts:41-44 | On a socket that is not open, `setOutput(-1)` still emits `'output'` with 0, sends nothing and rejects. |
| `CloudBitServer.Server.constructor` | src/server.ts:20 | The registry starts empty. |
| `CloudBitServer.Server.Connection` | src/server.ts:28-40 | For the socket of a new connection, appends exactly one fresh session whose id is the decimal string of the size before insertion. Registers its `'close'` once-listener, sends HELLO with opcode 3, interval 30000 + jitter and that id, and keeps the registry duplicate-free with one session per socket. |
| `CloudBitServer.Server.Close` | src/server.ts:32-34 | Deletes exactly that session and keeps every other session in its order, still one session per socket. Closing a session that is not present, or closing it again, changes nothing. |
| `CloudBitServer.DropKeepsUniqueSockets` | src/server.ts:33 | After one deletion no two sessions share a socket. |
| `CloudBitServer.Server.Message` | src/server.ts:41-50 | Neither a malformed message nor a parsed one changes the registry, because the switch is empty and parse errors are caught. |
| `CloudBitServer.Server.GetCloudBitByDeviceId` | src/server.ts:64-70 | `filter(...)[0]` is the first session in iteration order with that id, or none when no session has it. |
| `CloudBitServer.Server.GetCloudBitBySocket` | src/server.ts:72-78 | `filter(...)[0]` is the first session in iteration order whose `socketEquals` holds, or none. |
| `CloudBitServer.Server.LookupOwnSocket` | src/server.ts:72-78 | In a valid registry every registered session is found by its own socket. |
| `CloudBitServer.Server.LookupOwnId` | src/server.ts:64-70 | When ids are unique, a registered session is found by its own id. |
| `CloudBitServer.NumberedIdsAreUnique` | src/server.ts:29 | While every id equals its position, which holds until the first close, the ids are pairwise distinct. |
| `CloudBitServer.SizeIdsCollideAfterClose` | src/server.ts:29-35 | After connect, connect, close the first, connect, two distinct registered sessions share the id "1", and the lookup returns only the older one. |
| `CloudBitServer.HttpsListenPort` | src/server.ts:117 | `options.port` OR 3000, under int32 semantics, is always an int32. For a port from 0 to 2^31 - 1 it is the bitwise OR of that port with 3000. |
| `CloudBitServer.HttpsListenPortDefault` | src/server.ts:117 | An absent port or port 0 gives 3000. |
| `CloudBitServer.HttpsListenPortOfPort` | src/server.ts:117 | For a port from 0 to 2^31 - 1 the result is at least 3000 and at least the port. It equals the port iff the port has every bit of 3000. A TCP port stays below 65536. |
| `CloudBitServer.HttpsListenPort443` | src/server.ts:117 | Port 443 gives 3003. |
| `CloudBitServer.HttpsListenPort8080` | src/server.ts:117 | Port 8080 gives 8120. |
| `CloudBitServer.HttpsListenPortNegative` | src/server.ts:117 | Port -1 gives -1. |
| `CloudBitServer.HttpsListenPortNegativeStaysNegative` | src/server.ts:117 | Every negative int32 port gives a negative result that is at least the port, so it is never raised to 3000. |
| `CloudBitServer.HttpsListenPortWraps` | src/server.ts:117 | Every port from 2^31 to 2^32 - 1, 2^31 included, wraps to a negative int32 and gives a negative result. |
| `Decimal.NatToString` | src/server.ts:29 | `length.toString()` is a non-empty string of decimal digits with no leading zero, and it is one character exactly for 0..9. |
| `Decimal.DigitsValueOfNatToString` | src/server.ts:29 | Reading the digits back gives the number. |
| `Decimal.NatToStringInjective` | src/server.ts:29 | Two sizes give the same id iff they are equal. |
| `Bitwise.ToInt32` | src/server.ts:117 | The operand conversion lands in the int32 range and agrees with its input modulo 2^32. |
| `Bitwise.Int32Or` | src/server.ts:117 | OR of an int32 with a non-negative int32 constant is again an int32. For a non-negative operand it is the bitwise OR of the two. For a negative operand it is negative and at least the operand. |
| `Bitwise.Int32OrNegative` | src/server.ts:117 | For a negative operand the result is the OR of its 32-bit two's-complement pattern with the constant, read back as signed. |
| `Bitwise.BitOrComplement` | src/server.ts:117 | Within k bits, `a` OR `c` plus the complement of `a` AND NOT `c` is all ones: the identity that relates the negative case to two's complement. |
| `Bitwise.BitOrStep` | src/server.ts:117 | An OR is twice the OR of the upper bits plus the OR of the lowest bits, zero operands included. |
| `Bitwise.BitOrAtLeastBoth` | src/server.ts:117 | An OR is at least each of its operands. |
| `Bitwise.BitOrBelow` | src/server.ts:117 | The OR of two k-bit numbers is a k-bit number. |
| `Bitwise.BitOrFixedIff` | src/server.ts:117 | `a` OR `b` equals `a` iff `a` AND `b` equals `b`. |
| `Search.FirstIndex` | src/server.ts:66 | The index of the first element in order that satisfies the selector. None exactly when no element satisfies it. |
| `Search.First` | src/server.ts:66 | The first matching element, which belongs to the sequence, satisfies the selector and sits at the first matching index. None exactly when nothing matches. |
| `Search.FilterHeadIsFirst` | src/server.ts:66 | `filter(p)[0]` equals the first match in iteration order, and it is undefined exactly when nothing matches. |
| `Search.WithoutRemovesOne` | src/server.ts:33 | `Set.delete` of the element at position i removes that one position and keeps the rest in order. |
| `Search.DropKeepsDistinct` | src/server.ts:33 | After one deletion the registry is one shorter and still duplicate-free. |
| `Wrappers.Settle` | index.ts:20-25 | A pending promise takes the settlement. A settled promise keeps its first settlement. |
| `Wrappers.FirstSettlementWins` | index.ts:20-25 | Settling twice keeps the first settlement. |
| `LegacyServer.CloudBit.constructor` | dist/index.js:36-42 | A new session has input value 0, the given id and socket, and no listeners. |
| `LegacyServer.CloudBit.GetInputValue` | dist/index.js:47 | Returns the stored input value. |
| `LegacyServer.CloudBit.SetInput` | dist/index.js:54-56 | Stores the value and emits nothing. |
| `LegacyServer.CloudBit.SetOutput` | dist/index.js:62-70 | Emits and sends the value unclamped. Resolves iff `readyState == 1`, and otherwise rejects with 'Socket is not open.' and sends nothing. |
| `LegacyServer.CloudBit.On` | dist/index.js:78-83 | Returns iff the name is one of 'input', 'output', 'heartbeat' and then appends one listener. Otherwise throws 'Invalid event name.' and registers nothing. |
| `LegacyServer.CloudBit.Once` | dist/index.js:89-94 | The same guard, for a once-listener. |
| `LegacyServer.Dispatch` | dist/index.js:119-131 | A message sets the input iff it parsed, its `type` is 'input' and its `value` is numeric, and the value set is that number. Anything else, including unparsable data, does nothing. |
| `LegacyServer.Server.constructor` | dist/index.js:105-107 | The registry starts empty. |
| `Transport.Socket.Close` | dist/index.js:111-113 | `socket.close(code)` on an open socket records the code and moves it to CLOSING. On a socket already closing or closed it changes nothing. No data frame is sent. |
| `LegacyServer.Server.Connection` | dist/index.js:108-115 | A missing `device_id` or one already held is closed with 4002, so an open socket moves to CLOSING, and the registry is unchanged. Otherwise exactly one fresh session with that id is appended and the socket's state is untouched. All registered ids stay distinct. |
| `LegacyServer.Server.Message` | dist/index.js:119-132 | The session's input becomes the dispatched value, or stays as it was, and nothing is emitted. |
| `LegacyServer.Server.GetCloudBitByDeviceId` | dist/index.js:140-148 | The `forEach` loop returns the first session in iteration order with that id, or none. |
| `LegacyServer.DuplicateIdRejected` | dist/index.js:109-115 | Of two connections with one id, only the first becomes a session and its socket stays open. The other socket is closed with 4002 and is CLOSING. |
| `EventSession.Tag` | index.ts:3-9 | Each event has a non-empty tag string. |
| `EventSession.TagsDistinct` | index.ts:3-9 | 'INPUT', 'OUTPUT', 'Heartbeat', 'HeartbeatAck' and 'Hello' are pairwise distinct. |
| `EventSession.SendOutcome` | index.ts:20-25 | A non-OUTPUT event settles as 'Cannot send a e event.' whatever the socket state. OUTPUT resolves iff `readyState == 1`, and otherwise rejects with 'Socket is not open.'. |
| `EventSession.CloudBit.SendEvent` | index.ts:19-27 | Settles as `SendOutcome`, always emits the event, and sends the data iff the socket is open, even for a rejected event. |
| `EventSession.CloudBit.constructor` | index.ts:13-18 | Creation issues one `sendEvent(OUTPUT, '')`, which emits it and sends it when the socket is open. |
| `EventSession.WrongEventStillSent` | index.ts:19-26 | `sendEvent(Hello, 'hi')` on an open socket rejects, yet 'hi' is sent. |
| `Entry.CreateServer` | src/index.ts:15-25 | HTTPS iff options are present with truthy key and cert, listening on the port OR 3000. Absent options give HTTP on 3000. Other options give HTTP on the numeric port, or on 3000 when there is none. Exactly one kind is always returned. |
| `Entry.HttpsWhateverThePort` | src/index.ts:18-19 | With key and cert the port never changes the kind, and an absent port listens on 3000. |
| `Entry.HttpsOn443ListensOn3003` | src/index.ts:18-19 | HTTPS options with port 443 listen on 3003. |
| `Entry.KeyWithoutCertIsHttp` | src/index.ts:20-21 | A key without a certificate gives HTTP on the requested port. |

## Left out

- `Transport.Socket.Close` follows the `ws` library's `close` for an open, closing or closed socket. The abort of a socket that is still CONNECTING is not modelled, since the server only receives sockets that are open.
- Sockets, the `ws`, `http` and `https` servers, `listen` and `console.log` are I/O. A socket is an object with a `readyState`, a log of the frames sent on it and the code it was closed with. The transport changes `readyState` from outside.
- `JSON.parse` and `JSON.stringify` are not modelled as text. Inbound data is already parsed (`Inbound`), and a frame is the object that would be stringified.
- `isNaN` coercion is not modelled: only a JSON number counts as numeric. Numbers are integers, so floating point, `NaN` ports and fractional ports are not modelled either.
- `Math.random` is not modelled. The HELLO jitter is the `jitter` parameter of `CloudBitServer.Server.Connection`, constrained to 0..100.
- Event-emitter fan-out and the listener callbacks are not modelled. An emission is an entry in the `emitted` log, and a registration is a `Listener(name, once)` entry.
- `CloudBitServer.Server.Close`: the `'close'` once-listener stays in the session's `listeners` after it fires. Removing it could not change the outcome, because deleting an absent session is a no-op.
- Promise scheduling is not modelled. The executors run synchronously, so each call returns its first settlement. The promise the `index.ts` constructor creates is never awaited. On a socket that is not open it rejects, and since Node 15 an unhandled rejection ends the process by default. The model does not capture that termination.
- The `try`/`catch` around the lookups in `src/server.ts:65-69` and `72-77` is not modelled, because nothing in `filter(...)[0]` on a `Set` can throw.
- The older server's greeting `{ type: 'Hello', heartbeat_interval: 30000 }` (`dist/index.js:116-118`) is not modelled. It is sent from an `'open'` listener on the server-side socket, and that socket is already open when the connection is handed over.
- The `Server.on('connection')` subscription (`src/server.ts:54-57`) is not modelled, because nothing ever emits on its event stream. The `index.ts` `on`, which forwards to the emitter without checks, is not modelled either.
- TLS key and certificate handling is not modelled. Only whether `key` and `cert` are truthy matters.
- `dist/index.d.ts`, `src/udp.ts` and `src/websocket.ts` are not part of this model: they hold declarations and empty stubs only.
