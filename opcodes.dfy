/** The `WebSocketOpcodes` enum of the server's wire protocol. */
module Opcodes {
  import opened Wrappers

  datatype Opcode = Input | Output | Hello | Heartbeat | HeartbeatAck

  /** The numeric value each opcode has on the wire. */
  function Code(op: Opcode): (n: int)
    ensures 1 <= n <= 5
  {
    match op
    case Input => 0x1
    case Output => 0x2
    case Hello => 0x3
    case Heartbeat => 0x4
    case HeartbeatAck => 0x5
  }

  /** The opcode a wire number denotes, if any. */
  function FromCode(n: int): (r: Option<Opcode>)
    ensures r.Some? <==> 1 <= n <= 5
    ensures r.Some? ==> Code(r.value) == n
  {
    if n == 1 then Some(Input)
    else if n == 2 then Some(Output)
    else if n == 3 then Some(Hello)
    else if n == 4 then Some(Heartbeat)
    else if n == 5 then Some(HeartbeatAck)
    else None
  }

  /** The five opcodes have pairwise distinct values, and decoding a value recovers its opcode. */
  lemma CodesDistinct(a: Opcode, b: Opcode)
    ensures Code(a) == Code(b) <==> a == b
    ensures FromCode(Code(a)) == Some(a)
  {
  }
}
