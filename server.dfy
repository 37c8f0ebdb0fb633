/** The current server: the registry of connected CloudBits, the connection handler that numbers
    them, the lookups, and the port the HTTPS variant listens on. */
module CloudBitServer {
  import opened Wrappers
  import opened Transport
  import opened Search
  import opened Decimal
  import opened Bitwise
  import opened Opcodes
  import opened CloudBitSession

  /** The base of the heartbeat interval announced in HELLO, in milliseconds. */
  const BaseHeartbeatInterval: int := 30000

  /** The constant `options.port` is OR-ed with. */
  const DefaultPort: nat := 3000

  /** The selector of `getCloudBitByDeviceId`. */
  function HasId(deviceId: string): CloudBit -> bool
  {
    (c: CloudBit) => c.deviceId == deviceId
  }

  /** The selector of `getCloudBitBySocket`. */
  function Owns(socket: object?): CloudBit -> bool
  {
    (c: CloudBit) => c.SocketEquals(socket)
  }

  /** Every session's id is the decimal string of its position: what the handler produces as
      long as no session has closed. */
  ghost predicate NumberedBySize(s: seq<CloudBit>)
  {
    forall i :: 0 <= i < |s| ==> s[i].deviceId == NatToString(i)
  }

  ghost predicate UniqueIds(s: seq<CloudBit>)
  {
    forall i, j :: 0 <= i < j < |s| ==> s[i].deviceId != s[j].deviceId
  }

  ghost predicate UniqueSockets(s: seq<CloudBit>)
  {
    forall i, j :: 0 <= i < j < |s| ==> s[i].socket != s[j].socket
  }

  class Server {
    var cloudbits: seq<CloudBit>

    /** The registry is a `Set`: no session occurs twice; and every WebSocket connection gets its
        own session, so no two sessions share a socket. */
    ghost predicate Valid()
      reads this
    {
      Distinct(cloudbits) && UniqueSockets(cloudbits)
    }

    constructor ()
      ensures Valid() && cloudbits == []
    {
      cloudbits := [];
    }

    /** The `'connection'` handler. `jitter` stands for `Math.round(Math.random() * 100)`; the
        socket is a new connection's, so no session holds it yet. */
    method Connection(socket: Socket, jitter: int) returns (cb: CloudBit)
      requires Valid()
      requires forall i :: 0 <= i < |cloudbits| ==> cloudbits[i].socket != socket
      requires 0 <= jitter <= 100
      modifies this, socket
      ensures Valid() && fresh(cb)
      ensures cloudbits == old(cloudbits) + [cb]
      ensures cb.deviceId == NatToString(|old(cloudbits)|) && cb.socket == socket
      ensures cb.inputValue == 0 && cb.emitted == [] && cb.listeners == [Listener("close", true)]
      ensures socket.sent == old(socket.sent) + [HelloFrame(Code(Hello), BaseHeartbeatInterval + jitter, cb.deviceId)]
      ensures socket.readyState == old(socket.readyState) && socket.closeCode == old(socket.closeCode)
      ensures NumberedBySize(old(cloudbits)) ==> NumberedBySize(cloudbits)
    {
      var deviceId := NatToString(|cloudbits|);
      var hbInterval := BaseHeartbeatInterval + jitter;
      cb := new CloudBit(deviceId, socket);
      cb.Once("close");
      assert cb !in cloudbits;
      cloudbits := cloudbits + [cb];
      socket.Send(HelloFrame(Code(Hello), hbInterval, deviceId));
    }

    /** A `'close'` event delivered to session `cb`: its listener deletes it from the registry. */
    method Close(cb: CloudBit)
      requires Valid()
      modifies this
      ensures Valid()
      ensures cloudbits == Without(old(cloudbits), cb)
      ensures forall i :: 0 <= i < |old(cloudbits)| && old(cloudbits)[i] == cb ==>
                cloudbits == old(cloudbits)[..i] + old(cloudbits)[i + 1..]
      ensures cb !in old(cloudbits) ==> cloudbits == old(cloudbits)
      ensures cb !in cloudbits
    {
      ghost var before := cloudbits;
      cloudbits := Without(cloudbits, cb);
      forall i | 0 <= i < |before| && before[i] == cb
        ensures cloudbits == before[..i] + before[i + 1..]
      {
        WithoutRemovesOne(before, i);
      }
      if i :| 0 <= i < |before| && before[i] == cb {
        DropKeepsDistinct(before, i);
        DropKeepsUniqueSockets(before, i);
      }
    }

    /** The `'message'` handler: whatever `JSON.parse` made of the data, the `switch` on its
        opcode has no cases and a parse error is caught, so nothing changes. */
    method Message(data: Inbound)
      ensures cloudbits == old(cloudbits)
    {
      match data
      case Malformed =>
      case Parsed(opcode, _, _) =>
    }

    /** `filter(cb => cb.deviceId == deviceId)[0]`. */
    function GetCloudBitByDeviceId(deviceId: string): (r: Option<CloudBit>)
      reads this
      ensures r == First(cloudbits, HasId(deviceId))
    {
      FilterHeadIsFirst(cloudbits, HasId(deviceId));
      Head(Filter(cloudbits, HasId(deviceId)))
    }

    /** `filter(cb => cb.socketEquals(socket))[0]`. */
    function GetCloudBitBySocket(socket: Socket): (r: Option<CloudBit>)
      reads this
      ensures r == First(cloudbits, Owns(socket))
    {
      FilterHeadIsFirst(cloudbits, Owns(socket));
      Head(Filter(cloudbits, Owns(socket)))
    }

    /** A registered session is found by its own socket. */
    lemma LookupOwnSocket(cb: CloudBit)
      requires Valid() && cb in cloudbits
      ensures GetCloudBitBySocket(cb.socket) == Some(cb)
    {
      var i :| 0 <= i < |cloudbits| && cloudbits[i] == cb;
      FirstOfUniqueMatch(cloudbits, Owns(cb.socket), i);
    }

    /** A registered session is found by its id when no other session holds that id. */
    lemma LookupOwnId(cb: CloudBit)
      requires cb in cloudbits && UniqueIds(cloudbits)
      ensures GetCloudBitByDeviceId(cb.deviceId) == Some(cb)
    {
      var i :| 0 <= i < |cloudbits| && cloudbits[i] == cb;
      FirstOfUniqueMatch(cloudbits, HasId(cb.deviceId), i);
    }
  }

  /** Deleting one session keeps the remaining sockets pairwise distinct. */
  lemma DropKeepsUniqueSockets(s: seq<CloudBit>, i: nat)
    requires UniqueSockets(s) && i < |s|
    ensures UniqueSockets(s[..i] + s[i + 1..])
  {
    var r := s[..i] + s[i + 1..];
    forall a, b | 0 <= a < b < |r|
      ensures r[a].socket != r[b].socket
    {
      var a' := if a < i then a else a + 1;
      var b' := if b < i then b else b + 1;
      assert r[a] == s[a'] && r[b] == s[b'];
    }
  }

  /** As long as no session has closed, size-based ids are unique. */
  lemma NumberedIdsAreUnique(s: seq<CloudBit>)
    requires NumberedBySize(s)
    ensures UniqueIds(s)
  {
    forall i, j | 0 <= i < j < |s|
      ensures s[i].deviceId != s[j].deviceId
    {
      NatToStringInjective(i, j);
    }
  }

  /** After a close, the size-based id of the next device can be one still in use: connect three
      devices, close the first, and the third gets the id "1" of the second. */
  method SizeIdsCollideAfterClose() returns (server: Server, second: CloudBit, third: CloudBit)
    ensures second != third
    ensures second.deviceId == third.deviceId == "1"
    ensures server.cloudbits == [second, third]
    ensures server.GetCloudBitByDeviceId("1") == Some(second)
  {
    server := new Server();
    var s1 := new Socket(Open);
    var s2 := new Socket(Open);
    var s3 := new Socket(Open);
    var first := server.Connection(s1, 0);
    second := server.Connection(s2, 0);
    server.Close(first);
    third := server.Connection(s3, 0);
    assert HasId("1")(second);
  }

  /** `options.port | 3000`: the port the HTTPS server listens on. An absent port converts to 0. */
  function HttpsListenPort(port: Option<int>): (r: int)
    ensures IsInt32(r)
    ensures port.Some? && 0 <= port.value < TwoTo31 ==> r == BitOr(port.value, DefaultPort)
  {
    match port
    case None => Int32Or(0, DefaultPort)
    case Some(p) =>
      if 0 <= p < TwoTo31 then ToInt32OfInt32(p); Int32Or(p, DefaultPort)
      else Int32Or(ToInt32(p), DefaultPort)
  }

  /** The expression is a bitwise OR, not a default: 3000 only for an absent or zero port. */
  lemma HttpsListenPortDefault()
    ensures HttpsListenPort(None) == 3000
    ensures HttpsListenPort(Some(0)) == 3000
  {
  }

  /** For a port from 0 to 2^31 - 1 the result is at least 3000 and at least the port, equals the port
      exactly when the port has every bit of 3000, and a TCP port stays a TCP port. */
  lemma HttpsListenPortOfPort(p: int)
    requires 0 <= p < TwoTo31
    ensures HttpsListenPort(Some(p)) >= DefaultPort && HttpsListenPort(Some(p)) >= p
    ensures HttpsListenPort(Some(p)) == p <==> BitAnd(p, DefaultPort) == DefaultPort
    ensures p < 0x1_0000 ==> HttpsListenPort(Some(p)) < 0x1_0000
  {
    BitOrAtLeastBoth(p, DefaultPort);
    BitOrFixedIff(p, DefaultPort);
    if p < 0x1_0000 {
      Pow2Values();
      BitOrBelow(p, DefaultPort, 16);
    }
  }

  /** Requested ports that lack bits of 3000 are silently changed: 443 becomes 3003. */
  lemma HttpsListenPort443()
    ensures HttpsListenPort(Some(443)) == 3003
  {
    assert BitOr(0, 5) == 5;
    assert BitOr(1, 11) == 11;
    assert BitOr(3, 23) == 23;
    assert BitOr(6, 46) == 46;
    assert BitOr(13, 93) == 93;
    assert BitOr(27, 187) == 187;
    assert BitOr(55, 375) == 375;
    assert BitOr(110, 750) == 750;
    assert BitOr(221, 1500) == 1501;
    assert BitOr(443, 3000) == 3003;
  }

  /** 8080 becomes 8120. */
  lemma HttpsListenPort8080()
    ensures HttpsListenPort(Some(8080)) == 8120
  {
    assert BitOr(1, 0) == 1;
    assert BitOr(3, 1) == 3;
    assert BitOr(7, 2) == 7;
    assert BitOr(15, 5) == 15;
    assert BitOr(31, 11) == 31;
    assert BitOr(63, 23) == 63;
    assert BitOr(126, 46) == 126;
    assert BitOr(252, 93) == 253;
    assert BitOr(505, 187) == 507;
    assert BitOr(1010, 375) == 1015;
    assert BitOr(2020, 750) == 2030;
    assert BitOr(4040, 1500) == 4060;
    assert BitOr(8080, 3000) == 8120;
  }

  /** A negative port is not raised to 3000: the OR of -1 with anything is -1. */
  lemma HttpsListenPortNegative()
    ensures HttpsListenPort(Some(-1)) == -1
  {
    assert ToInt32(-1) == -1;
    assert AndNot(0, DefaultPort) == 0;
  }

  /** No negative int32 port is raised to 3000: setting bits keeps the sign bit, so the result
      stays negative and at least the port. */
  lemma HttpsListenPortNegativeStaysNegative(p: int)
    requires -TwoTo31 <= p < 0
    ensures p <= HttpsListenPort(Some(p)) < 0
  {
    ToInt32OfInt32(p);
  }

  /** A port from 2^31 to 2^32 - 1 wraps to a negative int32 before the OR, so the result is
      negative: 2^31 itself becomes -2^31 OR 3000. */
  lemma HttpsListenPortWraps(p: int)
    requires TwoTo31 <= p < TwoTo32
    ensures HttpsListenPort(Some(p)) < 0
  {
    assert (p + TwoTo31) % TwoTo32 == p + TwoTo31 - TwoTo32;
    assert ToInt32(p) == p - TwoTo32;
  }
}
