/** The peer messages and their payload bytes, p2p/rpc.go and torrent_server/server.go:116-161. */
module Messages {
  import opened Bytes

  datatype Message =
    | KeepAlive
    | Interested
    | NotInterested
    | RequestPiece(index: nat)
    | SendPiece(index: nat, data: Bytes)
    | Have(index: nat)
    | Bitfield(bits: Bytes)
    | Unchoke
    | Choke
    | Ignored(payload: Bytes)

  const UINT32 := 0x1_0000_0000

  // binary.BigEndian.PutUint32 of uint32(n), which keeps the low 32 bits, and its inverse.
  function Put32(n: nat): (b: Bytes)
    ensures |b| == 4
  {
    BigEndian(n, 4)
  }

  function Get32(b: Bytes): nat
    requires |b| >= 4
  {
    BigEndianValue(b[..4])
  }

  // The payload a node sends for a message.
  function Payload(m: Message): Bytes {
    match m
    case KeepAlive => []
    case Interested => [0x01]
    case NotInterested => [0x02]
    case RequestPiece(i) => [0x03] + Put32(i)
    case SendPiece(i, data) => [0x04] + Put32(i) + data
    case Have(i) => [0x05] + Put32(i)
    case Bitfield(bits) => [0x06] + bits
    case Unchoke => [0x07]
    case Choke => [0x08]
    case Ignored(payload) => payload
  }

  // The message the event loop takes a payload for. Unknown types and payloads too short for
  // their type are only logged.
  function Parse(payload: Bytes): Message {
    if payload == [] then KeepAlive
    else
      var body := payload[1..];
      match payload[0]
      case 0x01 => Interested
      case 0x02 => NotInterested
      case 0x03 => if |body| < 4 then Ignored(payload) else RequestPiece(Get32(body))
      case 0x04 => if |body| < 4 then Ignored(payload) else SendPiece(Get32(body), body[4..])
      case 0x05 => if |body| < 4 then Ignored(payload) else Have(Get32(body))
      case 0x06 => Bitfield(body)
      case 0x07 => Unchoke
      case 0x08 => Choke
      case _ => Ignored(payload)
  }

  // The message's piece index, if it has one, fits a uint32.
  predicate Fits(m: Message) {
    (m.RequestPiece? || m.SendPiece? || m.Have?) ==> m.index < UINT32
  }

  lemma Uint32RoundTrip(n: nat, tail: Bytes)
    requires n < UINT32
    ensures Get32(Put32(n) + tail) == n
  {
    assert Pow256(2) == 0x1_0000 && Pow256(4) == UINT32;
    BigEndianRoundTrip(n, 4);
    assert (Put32(n) + tail)[..4] == Put32(n);
  }

  lemma Get32Bound(b: Bytes)
    requires |b| >= 4
    ensures Get32(b) < UINT32
  {
    assert Pow256(2) == 0x1_0000 && Pow256(4) == UINT32;
    BigEndianBound(b[..4]);
  }

  /** Four bytes stand for the number whose first byte counts most. */
  lemma Get32Weights(b: Bytes)
    requires |b| >= 4
    ensures Get32(b)
         == FromByte(b[0]) * 0x100_0000 + FromByte(b[1]) * 0x1_0000 + FromByte(b[2]) * 0x100 + FromByte(b[3])
  {
    assert b[..4][..3] == b[..3] && b[..3][..2] == b[..2] && b[..2][..1] == b[..1] && b[..1][..0] == [];
    assert BigEndianValue(b[..1]) == FromByte(b[0]);
    assert BigEndianValue(b[..2]) == FromByte(b[0]) * 0x100 + FromByte(b[1]);
    assert BigEndianValue(b[..3]) == FromByte(b[0]) * 0x1_0000 + FromByte(b[1]) * 0x100 + FromByte(b[2]);
  }

  /** The type bytes of p2p/rpc.go, sent and understood alike. */
  lemma TypeBytes(i: nat, data: Bytes)
    requires i < UINT32
    ensures Payload(KeepAlive) == [] && Parse([]) == KeepAlive
    ensures Payload(Interested) == [1] && Parse([1]) == Interested
    ensures Payload(NotInterested) == [2] && Parse([2]) == NotInterested
    ensures Payload(RequestPiece(i)) == [3] + Put32(i) && Parse([3] + Put32(i)) == RequestPiece(i)
    ensures Payload(SendPiece(i, data)) == [4] + Put32(i) + data && Parse([4] + Put32(i) + data) == SendPiece(i, data)
    ensures Payload(Have(i)) == [5] + Put32(i) && Parse([5] + Put32(i)) == Have(i)
    ensures Payload(Bitfield(data)) == [6] + data && Parse([6] + data) == Bitfield(data)
    ensures Payload(Unchoke) == [7] && Parse([7]) == Unchoke
    ensures Payload(Choke) == [8] && Parse([8]) == Choke
  {
    ReadBack(RequestPiece(i));
    ReadBack(SendPiece(i, data));
    ReadBack(Have(i));
    ReadBack(Bitfield(data));
  }

  /** Other payloads are understood as nothing: an unknown type byte, or an index cut short. */
  lemma IgnoredIff(payload: Bytes)
    ensures Parse(payload).Ignored? <==>
      payload != [] && ((payload[0] in {3, 4, 5} && |payload| < 5) || payload[0] == 0 || payload[0] > 8)
  {
  }

  // Whatever the bytes, an index read from them is a uint32.
  lemma ParsedFits(payload: Bytes)
    ensures Fits(Parse(payload))
  {
    if |payload| >= 5 {
      Get32Bound(payload[1..]);
    }
  }

  lemma ReadBack(m: Message)
    requires m.Ignored? ==> Parse(m.payload).Ignored?
    requires Fits(m)
    ensures Parse(Payload(m)) == m
  {
    match m
    case RequestPiece(i) => Uint32RoundTrip(i, []); assert Payload(m)[1..] == Put32(i) + [];
    case Have(i) => Uint32RoundTrip(i, []); assert Payload(m)[1..] == Put32(i) + [];
    case SendPiece(i, data) =>
      Uint32RoundTrip(i, data);
      assert Payload(m)[1..] == Put32(i) + data && (Put32(i) + data)[4..] == data;
    case Bitfield(bits) => assert Payload(m)[1..] == bits;
    case _ =>
  }

  /** A message survives the wire exactly when its piece index fits the four bytes it is given. */
  lemma PayloadRoundTrip(m: Message)
    requires m.Ignored? ==> Parse(m.payload).Ignored?
    ensures Parse(Payload(m)) == m <==> Fits(m)
  {
    if Fits(m) {
      ReadBack(m);
    } else {
      ParsedFits(Payload(m));
    }
  }
}
