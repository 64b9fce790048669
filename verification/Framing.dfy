/** Length-prefixed frames over a byte stream, p2p/tcp_transport.go:36-84 and p2p/encoding.go. */
module Framing {
  import opened Bytes
  import opened Messages

  const MAX_MESSAGE_LENGTH := 16 * 1024 * 1024
  const OUTBOX_CAPACITY := 2048

  function Frame(payload: Bytes): Bytes {
    Put32(|payload|) + payload
  }

  function Frames(payloads: seq<Bytes>): Bytes {
    if payloads == [] then [] else Frame(payloads[0]) + Frames(payloads[1..])
  }

  /** One read: a payload and the bytes after it, io.EOF, or any other error. */
  datatype Read = Got(payload: Bytes, rest: Bytes) | Eof | Broken

  function ReadFrame(s: Bytes): Read {
    if s == [] then Eof
    else if |s| < 4 then Broken
    else
      var length := Get32(s);
      if length == 0 then Got([], s[4..])
      else if length > MAX_MESSAGE_LENGTH then Broken
      else if |s| == 4 then Eof
      else if |s| < 4 + length then Broken
      else Got(s[4..4 + length], s[4 + length..])
  }

  /** The payloads a connection delivers, and the error that ends it. */
  datatype Delivery = Delivery(payloads: seq<Bytes>, end: Read)

  function ReadAll(s: Bytes): Delivery {
    match ReadFrame(s)
    case Got(payload, rest) =>
      var later := ReadAll(rest);
      Delivery([payload] + later.payloads, later.end)
    case end => Delivery([], end)
  }

  predicate Readable(payload: Bytes) {
    |payload| <= MAX_MESSAGE_LENGTH
  }

  lemma ReadFramed(payload: Bytes, rest: Bytes)
    requires |payload| < UINT32
    ensures ReadFrame(Frame(payload) + rest) == if Readable(payload) then Got(payload, rest) else Broken
  {
    var s := Frame(payload) + rest;
    assert s == Put32(|payload|) + (payload + rest);
    Uint32RoundTrip(|payload|, payload + rest);
    assert s[4..] == payload + rest;
    if Readable(payload) && payload != [] {
      assert s[4..4 + |payload|] == payload && s[4 + |payload|..] == rest;
    }
  }

  // A frame cut short is an error, and io.EOF only between or right after the length bytes.
  lemma ReadCut(payload: Bytes, cut: nat)
    requires |payload| < UINT32 && cut < |Frame(payload)|
    ensures ReadFrame(Frame(payload)[..cut])
         == if cut == 0 || (cut == 4 && Readable(payload)) then Eof else Broken
  {
    if cut >= 4 {
      var s := Frame(payload)[..cut];
      assert s == Put32(|payload|) + payload[..cut - 4];
      Uint32RoundTrip(|payload|, payload[..cut - 4]);
    }
  }

  // The payloads before the first one that is too long or whose frame does not lie within the first `cut` bytes.
  function Arriving(payloads: seq<Bytes>, cut: nat): (k: nat)
    ensures k <= |payloads|
  {
    if payloads == [] || !Readable(payloads[0]) || cut < |Frame(payloads[0])| then 0
    else 1 + Arriving(payloads[1..], cut - |Frame(payloads[0])|)
  }

  lemma {:induction false} ArrivingFit(payloads: seq<Bytes>, cut: nat)
    ensures var k := Arriving(payloads, cut);
            && |Frames(payloads[..k])| <= cut
            && (forall p :: p in payloads[..k] ==> Readable(p))
            && (k < |payloads| ==> !Readable(payloads[k]) || cut < |Frames(payloads[..k + 1])|)
  {
    var k := Arriving(payloads, cut);
    if payloads != [] {
      assert payloads[..1] == [payloads[0]] && Frames(payloads[..1]) == Frame(payloads[0]) + Frames([]);
      if k > 0 {
        ArrivingFit(payloads[1..], cut - |Frame(payloads[0])|);
        assert payloads[..k][1..] == payloads[1..][..k - 1];
        if k < |payloads| {
          assert payloads[..k + 1][1..] == payloads[1..][..k];
        }
      }
    }
  }

  /**
   Cut anywhere, the stream of a list of payloads delivers exactly those before the first one that
   is too long or not within the cut, in order, and then ends in an error.
   */
  lemma {:induction false} CutStreamDelivers(payloads: seq<Bytes>, cut: nat)
    requires forall p :: p in payloads ==> |p| < UINT32
    requires cut <= |Frames(payloads)|
    ensures ReadAll(Frames(payloads)[..cut]).payloads == payloads[..Arriving(payloads, cut)]
    ensures !ReadAll(Frames(payloads)[..cut]).end.Got?
  {
    if payloads != [] {
      var first, later := payloads[0], payloads[1..];
      var size := |Frame(first)|;
      if cut < size {
        ReadCut(first, cut);
        assert Frames(payloads)[..cut] == Frame(first)[..cut];
      } else {
        CutFrames(first, later, cut);
        if Readable(first) {
          CutStreamDelivers(later, cut - size);
          ReadFirst(first, Frames(later)[..cut - size]);
          CutCons(payloads, cut);
        } else {
          ReadFramed(first, Frames(later)[..cut - size]);
        }
      }
    }
  }

  lemma CutFrames(first: Bytes, later: seq<Bytes>, cut: nat)
    requires |Frame(first)| <= cut <= |Frame(first) + Frames(later)|
    ensures (Frame(first) + Frames(later))[..cut] == Frame(first) + Frames(later)[..cut - |Frame(first)|]
  {
  }

  lemma CutCons(payloads: seq<Bytes>, cut: nat)
    requires payloads != [] && Readable(payloads[0]) && |Frame(payloads[0])| <= cut <= |Frames(payloads)|
    ensures payloads[..Arriving(payloads, cut)]
         == [payloads[0]] + payloads[1..][..Arriving(payloads[1..], cut - |Frame(payloads[0])|)]
  {
  }

  lemma ReadFirst(first: Bytes, rest: Bytes)
    requires Readable(first)
    ensures ReadAll(Frame(first) + rest) == Delivery([first] + ReadAll(rest).payloads, ReadAll(rest).end)
  {
    ReadFramed(first, rest);
  }

  // Whatever the stream, nothing over the maximum length is delivered.
  lemma {:induction false} DeliveredReadable(s: Bytes)
    ensures forall p :: p in ReadAll(s).payloads ==> Readable(p)
    decreases |s|
  {
    var read := ReadFrame(s);
    if read.Got? {
      DeliveredReadable(read.rest);
    }
  }

  /**
   An uncut stream delivers its whole list, and then io.EOF, exactly when no payload is too long,
   also when one is so long that its length wraps around in the four bytes of its prefix.
   */
  lemma {:induction false} StreamDeliversIff(payloads: seq<Bytes>)
    ensures ReadAll(Frames(payloads)) == Delivery(payloads, Eof) <==> forall p :: p in payloads ==> Readable(p)
  {
    DeliveredReadable(Frames(payloads));
    if forall p :: p in payloads ==> Readable(p) {
      ReadableStream(payloads);
    }
  }

  lemma {:induction false} ReadableStream(payloads: seq<Bytes>)
    requires forall p :: p in payloads ==> Readable(p)
    ensures ReadAll(Frames(payloads)) == Delivery(payloads, Eof)
  {
    if payloads != [] {
      ReadFirst(payloads[0], Frames(payloads[1..]));
      ReadableStream(payloads[1..]);
      assert payloads == [payloads[0]] + payloads[1..];
    }
  }

  function Payloads(ms: seq<Message>): seq<Bytes> {
    seq(|ms|, i requires 0 <= i < |ms| => Payload(ms[i]))
  }

  function Parsed(payloads: seq<Bytes>): seq<Message> {
    seq(|payloads|, i requires 0 <= i < |payloads| => Parse(payloads[i]))
  }

  /**
   A connection is a FIFO channel of messages: however its writer is cut off, the reader sees a
   prefix of what was sent, in order and unaltered; and if nothing is cut off, all of it exactly
   when no message is over the maximum length.
   */
  lemma {:induction false} ConnectionIsFifo(ms: seq<Message>, cut: nat)
    requires forall m :: m in ms ==> !m.Ignored? && Fits(m) && |Payload(m)| < UINT32
    requires cut <= |Frames(Payloads(ms))|
    ensures Parsed(ReadAll(Frames(Payloads(ms))[..cut]).payloads) <= ms
    ensures cut == |Frames(Payloads(ms))| ==>
      (Parsed(ReadAll(Frames(Payloads(ms))[..cut]).payloads) == ms <==> forall m :: m in ms ==> Readable(Payload(m)))
  {
    var payloads := Payloads(ms);
    PayloadsOf(ms);
    CutStreamDelivers(payloads, cut);
    forall i | 0 <= i < |ms|
      ensures Parse(payloads[i]) == ms[i]
    {
      ReadBack(ms[i]);
    }
    assert Parsed(payloads) == ms;
    if cut == |Frames(payloads)| {
      assert Frames(payloads)[..cut] == Frames(payloads);
      StreamDeliversIff(payloads);
      DeliveredReadable(Frames(payloads));
    }
  }

  lemma PayloadsOf(ms: seq<Message>)
    ensures forall p :: p in Payloads(ms) <==> exists m :: m in ms && p == Payload(m)
  {
    forall m | m in ms
      ensures Payload(m) in Payloads(ms)
    {
      var i :| 0 <= i < |ms| && ms[i] == m;
      assert Payloads(ms)[i] == Payload(m);
    }
  }

  lemma {:induction false} FramesAppend(payloads: seq<Bytes>, last: Bytes)
    ensures Frames(payloads + [last]) == Frames(payloads) + Frame(last)
  {
    if payloads != [] {
      FramesAppend(payloads[1..], last);
      assert (payloads + [last])[1..] == payloads[1..] + [last];
    } else {
      assert (payloads + [last])[1..] == [];
    }
  }

  function Concat(bufs: seq<Bytes>): Bytes {
    if bufs == [] then [] else bufs[0] + Concat(bufs[1..])
  }

  lemma {:induction false} ConcatAppend(bufs: seq<Bytes>, last: Bytes)
    ensures Concat(bufs + [last]) == Concat(bufs) + last
  {
    if bufs != [] {
      ConcatAppend(bufs[1..], last);
      assert (bufs + [last])[1..] == bufs[1..] + [last];
    } else {
      assert (bufs + [last])[1..] == [];
    }
  }

  lemma QueueGrows(wire: Bytes, outbox: seq<Bytes>, sent: seq<Bytes>, data: Bytes)
    ensures Frames(sent) <= Frames(sent + [data])
    ensures wire + Concat(outbox) == Frames(sent)
        ==> wire + Concat(outbox + [Frame(data)]) == Frames(sent + [data])
  {
    ConcatAppend(outbox, Frame(data));
    FramesAppend(sent, data);
    assert wire + (Concat(outbox) + Frame(data)) == wire + Concat(outbox) + Frame(data);
  }

  /**
   A peer as the swarm uses it: every message its Send accepted, how many of them its writer has
   not taken yet, and whether it is closed.
   */
  datatype Peer = Peer(sent: seq<Message>, queued: nat, closed: bool) {
    predicate Accepts(n: nat) {
      !closed && queued + n <= OUTBOX_CAPACITY
    }

    function Send(m: Message): Peer {
      if Accepts(1) then Peer(sent + [m], queued + 1, closed) else this
    }

    function Close(): Peer {
      this.(closed := true)
    }

    // The writer has taken n messages off the queue.
    function Drain(n: nat): Peer
      requires n <= queued
    {
      this.(queued := queued - n)
    }
  }

  // A full queue has room again for as many messages as the writer takes.
  lemma DrainMakesRoom(p: Peer, n: nat)
    requires n <= p.queued <= OUTBOX_CAPACITY && !p.closed
    ensures p.Drain(n).Accepts(n) && p.Drain(n).sent == p.sent
  {
  }

  /** A connected peer: `outbox` is its channel, `wire` what its connection was given so far. */
  class TCPPeer<Id> {
    const id: Id
    var outbox: seq<Bytes>
    var closed: bool
    var wire: Bytes
    var writeFailed: bool
    ghost var sent: seq<Bytes>

    // The connection carries the frames of what Send accepted, in order, up to a write error.
    ghost predicate Valid()
      reads this
    {
      if writeFailed then wire <= Frames(sent) else wire + Concat(outbox) == Frames(sent)
    }

    constructor (id: Id)
      ensures Valid() && this.id == id && !closed && outbox == [] && sent == []
    {
      this.id := id;
      outbox, closed, wire, writeFailed, sent := [], false, [], false, [];
    }

    ghost function View(): Peer
      reads this
    {
      Peer(Parsed(sent), |outbox|, closed)
    }

    static method Encode(data: Bytes) returns (buf: array<byte>)
      ensures fresh(buf) && buf[..] == Frame(data)
    {
      buf := new byte[4 + |data|](_ => 0);
      var prefix := Put32(|data|);
      for i := 0 to 4
        invariant buf[..i] == prefix[..i]
      {
        buf[i] := prefix[i];
      }
      for i := 0 to |data|
        invariant buf[..4 + i] == prefix + data[..i]
      {
        buf[4 + i] := data[i];
      }
      assert buf[..] == buf[..4 + |data|];
    }

    method Send(data: Bytes) returns (ok: bool)
      modifies this`outbox, this`sent
      ensures old(Valid()) ==> Valid()
      ensures ok == old(View().Accepts(1))
      ensures ok <==> !old(closed) && |old(outbox)| < 2048
      ensures View() == old(View()).Send(Parse(data))
      ensures outbox == if ok then old(outbox) + [Frame(data)] else old(outbox)
      ensures sent == if ok then old(sent) + [data] else old(sent)
    {
      if closed {
        return false;
      }
      var buf := Encode(data);
      if |outbox| >= OUTBOX_CAPACITY {
        return false;
      }
      QueueGrows(wire, outbox, sent, data);
      outbox, sent := outbox + [buf[..]], sent + [data];
      assert Parsed(sent) == Parsed(old(sent)) + [Parse(data)];
      return true;
    }

    // Gives one buffer to the connection in chunks of any size; an error ends the writer for good.
    method Write(buf: Bytes)
      requires !writeFailed
      modifies this`wire, this`writeFailed
      ensures if writeFailed then old(wire) <= wire <= old(wire) + buf else wire == old(wire) + buf
    {
      var tot := 0;
      while tot < |buf|
        invariant tot <= |buf| && !writeFailed
        invariant wire == old(wire) + buf[..tot]
      {
        var n: nat :| 0 < n <= |buf| - tot;
        var failed := *;
        if failed {
          writeFailed := true;
          return;
        }
        wire := wire + buf[tot..tot + n];
        tot := tot + n;
      }
    }

    // Takes one buffer off the queue and writes it.
    method WriteNext()
      requires Valid() && !writeFailed && outbox != []
      modifies this`outbox, this`wire, this`writeFailed
      ensures Valid() && outbox == old(outbox)[1..]
    {
      var buf := outbox[0];
      ghost var start := wire;
      assert Frames(sent) == start + buf + Concat(outbox[1..]);
      outbox := outbox[1..];
      Write(buf);
    }

    method WriteLoop()
      requires Valid() && !writeFailed
      modifies this`outbox, this`wire, this`writeFailed
      ensures Valid() && (writeFailed || (outbox == [] && wire == Frames(sent)))
      ensures |outbox| <= old(|outbox|) && View() == old(View()).Drain(old(|outbox|) - |outbox|)
    {
      while outbox != [] && !writeFailed
        invariant Valid() && |outbox| <= old(|outbox|)
        decreases |outbox|
      {
        WriteNext();
      }
      assert !writeFailed ==> wire + Concat([]) == wire;
    }

    method Close()
      modifies this`closed
      ensures closed
    {
      closed := true;
    }
  }

  /** The frame reader of one connection; `input` is what is left of its stream. */
  class BinaryDecoder {
    var input: Bytes

    constructor (input: Bytes)
      ensures this.input == input
    {
      this.input := input;
    }

    method ReadFull(n: nat) returns (read: Read)
      requires n > 0
      modifies this
      ensures read == if |old(input)| >= n then Got(old(input)[..n], old(input)[n..])
                      else if old(input) == [] then Eof else Broken
      ensures read.Got? ==> input == read.rest
    {
      if |input| >= n {
        read := Got(input[..n], input[n..]);
        input := input[n..];
      } else {
        read := if input == [] then Eof else Broken;
        input := [];
      }
    }

    method Decode() returns (read: Read)
      modifies this
      ensures read == ReadFrame(old(input))
      ensures read.Got? ==> input == read.rest
    {
      var header := ReadFull(4);
      if !header.Got? {
        return header;
      }
      assert header.payload[..4] == old(input)[..4];
      var length := Get32(header.payload);
      if length == 0 {
        return Got([], input);
      }
      if length > MAX_MESSAGE_LENGTH {
        return Broken;
      }
      read := ReadFull(length);
    }

    // The read loop of handleConn, p2p/tcp_transport.go:215-231, with room in the rpc channel.
    method ReadLoop() returns (payloads: seq<Bytes>, end: Read)
      modifies this
      ensures Delivery(payloads, end) == ReadAll(old(input))
    {
      payloads := [];
      end := Decode();
      while end.Got?
        invariant end.Got? ==> end.rest == input
        invariant end.Got? ==>
          ReadAll(old(input)) == Delivery(payloads + [end.payload] + ReadAll(input).payloads, ReadAll(input).end)
        invariant !end.Got? ==> ReadAll(old(input)) == Delivery(payloads, end)
        decreases end.Got?, if end.Got? then |input| else 0
      {
        payloads := payloads + [end.payload];
        end := Decode();
      }
    }
  }
}
