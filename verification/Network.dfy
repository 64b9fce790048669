/**
 Any number of nodes exchanging pieces over FIFO connections. Each node runs its own steps; the
 only thing that ties two nodes together is that what one has received from the other is a
 prefix of what the other has sent it.
 */
module Network {
  import opened Bytes
  import opened Bitfields
  import opened Messages
  import opened PieceStore
  import opened Unchoking
  import opened Nodes
  import opened NodeInvariant
  import opened NodeSteps

  /** The nodes by id. They agree on the number of pieces, not necessarily on the hashes. */
  type Net = map<PeerId, Node>
  type Configs = map<PeerId, Config>

  function OutTo(net: Net, x: PeerId, y: PeerId): seq<Message>
    requires x in net
  {
    Log(net[x].outbox, y)
  }

  function InFrom(net: Net, y: PeerId, x: PeerId): seq<Message>
    requires y in net
  {
    Log(net[y].inbox, x)
  }

  // Connections are FIFO: y has received the first so many of the messages x sent it.
  ghost predicate Fifo(net: Net) {
    forall x, y :: x in net && y in net && x != y ==> InFrom(net, y, x) <= OutTo(net, x, y)
  }

  ghost predicate SameTorrent(cfgs: Configs, numPieces: nat) {
    forall x :: x in cfgs ==> cfgs[x].numPieces == numPieces
  }

  ghost predicate NetOk(cfgs: Configs, net: Net) {
    && net.Keys <= cfgs.Keys
    && Fifo(net)
    && forall x {:trigger net[x]} :: x in net ==> NodeOk(cfgs[x], net[x])
  }

  ghost predicate Initial(cfgs: Configs, net: Net) {
    && net.Keys <= cfgs.Keys
    && forall x :: x in net ==> net[x] == Fresh(net[x].pieces) && PiecesOk(cfgs[x], net[x].pieces)
  }

  // Node x takes step e; a message it takes is the oldest one under way to it.
  ghost predicate CanStep(cfgs: Configs, net: Net, x: PeerId, e: Event) {
    && x in net && x in cfgs && Enabled(cfgs[x], net[x], e)
    && (e.Join? ==> e.id in net && e.id != x)
    && (e.Deliver? ==>
          && e.from in net && e.from != x
          && |InFrom(net, x, e.from)| < |OutTo(net, e.from, x)|
          && e.m == OutTo(net, e.from, x)[|InFrom(net, x, e.from)|])
  }

  function NetStep(cfgs: Configs, net: Net, x: PeerId, e: Event): Net
    requires x in net && x in cfgs
  {
    net[x := Step(cfgs[x], net[x], e)]
  }

  /** A run: the nets it passes through, and the node and event of each step. */
  datatype Run = Run(states: seq<Net>, movers: seq<PeerId>, events: seq<Event>)

  ghost predicate IsRun(cfgs: Configs, run: Run) {
    && |run.states| == |run.movers| + 1 == |run.events| + 1
    && Initial(cfgs, run.states[0])
    && forall k {:trigger run.events[k]} :: 0 <= k < |run.events| ==>
         && CanStep(cfgs, run.states[k], run.movers[k], run.events[k])
         && run.states[k + 1] == NetStep(cfgs, run.states[k], run.movers[k], run.events[k])
  }

  // ----- a step only extends histories -----

  lemma RequestExtends(nd: Node, from: PeerId, i: nat, y: PeerId)
    ensures Log(nd.outbox, y) <= Log(OnRequest(nd, from, i).outbox, y)
    ensures OnRequest(nd, from, i).inbox == nd.inbox
  {
  }

  lemma BitfieldExtends(nd: Node, from: PeerId, bits: Bytes, order: seq<nat>, y: PeerId)
    ensures Log(nd.outbox, y) <= Log(OnBitfield(nd, from, bits, order).outbox, y)
    ensures OnBitfield(nd, from, bits, order).inbox == nd.inbox
  {
  }

  lemma UnchokeExtends(nd: Node, from: PeerId, y: PeerId)
    ensures Log(nd.outbox, y) <= Log(OnUnchoke(nd, from).outbox, y)
    ensures OnUnchoke(nd, from).inbox == nd.inbox
  {
    var unchoked := OnChoking(nd, from, false);
    SendPendingExtends(unchoked, from, y);
    assert unchoked.outbox == nd.outbox && unchoked.inbox == nd.inbox;
  }

  lemma SendPendingExtends(nd: Node, from: PeerId, y: PeerId)
    ensures Log(nd.outbox, y) <= Log(SendPending(nd, from).outbox, y)
    ensures SendPending(nd, from).inbox == nd.inbox
  {
    if from in nd.pending {
      var sent := Sent(nd, from, Requests(nd.pending[from]));
      assert Log(nd.outbox, y) <= Log(sent.outbox, y);
    }
  }

  lemma HandleExtends(cfg: Config, nd: Node, from: PeerId, m: Message, order: seq<nat>, y: PeerId)
    ensures Log(nd.outbox, y) <= Log(Handle(cfg, nd, from, m, order).outbox, y)
    ensures Handle(cfg, nd, from, m, order).inbox == nd.inbox
  {
    match m
    case RequestPiece(i) => RequestExtends(nd, from, i, y);
    case Bitfield(bits) => BitfieldExtends(nd, from, bits, order, y);
    case Unchoke => UnchokeExtends(nd, from, y);
    case SendPiece(i, data) => assert OnPiece(cfg, nd, from, i, data).outbox == nd.outbox;
    case _ =>
  }

  lemma ProgressExtends(cfg: Config, nd: Node, to: PeerId, y: PeerId)
    ensures Log(nd.outbox, y) <= Log(Progress(cfg, nd, to).outbox, y)
    ensures Progress(cfg, nd, to).inbox == nd.inbox
  {
  }

  lemma StepExtends(cfg: Config, nd: Node, e: Event, y: PeerId)
    ensures Log(nd.outbox, y) <= Log(Step(cfg, nd, e).outbox, y)
    ensures Log(Step(cfg, nd, e).inbox, y)
         == Log(nd.inbox, y) + (if e.Deliver? && e.from == y then [e.m] else [])
  {
    match e
    case Deliver(from, m, order) => HandleExtends(cfg, Received(nd, from, m), from, m, order, y);
    case Join(_, _) => assert Log(nd.inbox, y) + [] == Log(nd.inbox, y);
    case Tick(_, _, _) => assert Log(nd.inbox, y) + [] == Log(nd.inbox, y);
    case Continue(to) =>
      ProgressExtends(cfg, nd, to, y);
      assert Log(nd.inbox, y) + [] == Log(nd.inbox, y);
  }

  lemma StepKeepsFifo(cfgs: Configs, net: Net, mover: PeerId, e: Event)
    requires Fifo(net) && CanStep(cfgs, net, mover, e)
    ensures Fifo(NetStep(cfgs, net, mover, e))
  {
    var net' := NetStep(cfgs, net, mover, e);
    forall x, y | x in net' && y in net' && x != y
      ensures InFrom(net', y, x) <= OutTo(net', x, y)
    {
      assert InFrom(net, y, x) <= OutTo(net, x, y);
      if x == mover {
        StepExtends(cfgs[mover], net[mover], e, y);
      } else if y == mover {
        StepExtends(cfgs[mover], net[mover], e, x);
      }
    }
  }

  lemma NetStepKeeps(cfgs: Configs, net: Net, mover: PeerId, e: Event)
    requires NetOk(cfgs, net) && CanStep(cfgs, net, mover, e)
    ensures NetOk(cfgs, NetStep(cfgs, net, mover, e))
  {
    StepKeepsFifo(cfgs, net, mover, e);
    StepKeeps(cfgs[mover], net[mover], e);
  }

  /** Every state of every run keeps each node's invariant and FIFO order. */
  lemma {:induction false} RunKeeps(cfgs: Configs, run: Run, k: nat)
    requires IsRun(cfgs, run) && k < |run.states|
    ensures NetOk(cfgs, run.states[k])
  {
    var net := run.states[k];
    if k == 0 {
      forall x | x in net
        ensures NodeOk(cfgs[x], net[x])
      {
        FreshIsOk(cfgs[x], net[x].pieces);
      }
    } else {
      RunKeeps(cfgs, run, k - 1);
      NetStepKeeps(cfgs, run.states[k - 1], run.movers[k - 1], run.events[k - 1]);
    }
  }

  // ----- what is told is held -----

  lemma ToldByPrefix(s: seq<Message>, t: seq<Message>, i: nat)
    requires t <= s && Told(t, i)
    ensures Told(s, i)
  {
    var k :| 0 <= k < |t| && Tells(t[k], i);
    assert Tells(s[k], i);
  }

  // Of the pieces a node has told of it holds the trusted ones, and no others.
  lemma ToldIsHeld(cfg: Config, nd: Node, y: PeerId, i: nat)
    requires NodeOk(cfg, nd) && y in nd.outbox
    requires Told(nd.outbox[y], i)
    ensures i in nd.pieces <==> Trusted(cfg, i)
    ensures i in nd.pieces ==> i < cfg.numPieces
  {
    assert LinkOk(cfg, nd, y);
    var s := nd.outbox[y];
    var k :| 0 <= k < |s| && Tells(s[k], i);
    assert Honest(cfg, nd.pieces, s[k]);
  }

  lemma {:induction false} RecordedIsTold(t: seq<Message>, numPieces: nat, i: nat)
    requires Record(t, numPieces).Some? && HasBit(Record(t, numPieces).value, i)
    ensures Told(t, i)
  {
    var front, last := t[..|t| - 1], t[|t| - 1];
    assert t == front + [last];
    if Tells(last, i) {
      ToldByLast(front, last, i);
    } else {
      if last.Have? {
        var bits := if Record(front, numPieces).Some? then Record(front, numPieces).value else Zeros(numPieces);
        SetBitHasBit(bits, last.index, i);
      }
      RecordedIsTold(front, numPieces, i);
      ToldLater(front, [last]);
    }
  }

  // A node's record of a peer, its pending requests to it and its requests name told pieces only.
  lemma AsksOnlyForTold(cfg: Config, nd: Node, x: PeerId, i: nat)
    requires NodeOk(cfg, nd)
    requires (x in nd.records && HasBit(nd.records[x], i))
          || (x in nd.pending && i in nd.pending[x])
          || RequestPiece(i) in Log(nd.outbox, x)
    ensures Told(Log(nd.inbox, x), i)
  {
    assert LinkOk(cfg, nd, x);
    var t := Log(nd.inbox, x);
    if x in nd.records && HasBit(nd.records[x], i) {
      RecordedIsTold(t, cfg.numPieces, i);
    } else if RequestPiece(i) in nd.outbox[x] {
      var k :| 0 <= k < |nd.outbox[x]| && nd.outbox[x][k] == RequestPiece(i);
    }
  }

  /**
   Whatever y has been told by x, or is still to be told by messages under way, x holds, exactly
   when x checks hashes or the index is in range: the messages, y's record, the pieces y waits to
   ask x for, and the requests on their way to x.
   */
  lemma TruthfulKnowledge(cfgs: Configs, net: Net, x: PeerId, y: PeerId, i: nat)
    requires NetOk(cfgs, net) && x in net && y in net && x != y
    requires Told(OutTo(net, x, y), i)
          || (x in net[y].records && HasBit(net[y].records[x], i))
          || (x in net[y].pending && i in net[y].pending[x])
          || RequestPiece(i) in OutTo(net, y, x)
    ensures i in net[x].pieces <==> Trusted(cfgs[x], i)
  {
    var s, t := OutTo(net, x, y), InFrom(net, y, x);
    assert NodeOk(cfgs[x], net[x]) && NodeOk(cfgs[y], net[y]);
    if !Told(s, i) {
      AsksOnlyForTold(cfgs[y], net[y], x, i);
      ToldByPrefix(s, t, i);
    }
    ToldIsHeld(cfgs[x], net[x], y, i);
  }

  // Pieces a node waits to ask for or has asked for are in the range of its own torrent.
  lemma AsksInRange(cfg: Config, nd: Node, x: PeerId, i: nat)
    requires NodeOk(cfg, nd)
    requires (x in nd.pending && i in nd.pending[x]) || RequestPiece(i) in Log(nd.outbox, x)
    ensures i < cfg.numPieces
  {
    assert LinkOk(cfg, nd, x);
    if RequestPiece(i) in Log(nd.outbox, x) {
      var k :| 0 <= k < |nd.outbox[x]| && nd.outbox[x][k] == RequestPiece(i);
      assert Honest(cfg, nd.pieces, nd.outbox[x][k]);
    }
  }

  /**
   A request that reaches an unchoking node is always served: "piece not found" cannot happen,
   with or without hashes, when the asking node's torrent has no more pieces.
   */
  lemma RequestsAreServed(cfgs: Configs, net: Net, x: PeerId, e: Event)
    requires NetOk(cfgs, net) && CanStep(cfgs, net, x, e)
    requires e.Deliver? && e.m.RequestPiece? && !net[x].table.states[e.from].amChoking
    requires cfgs[x].hashes.Some? || cfgs[e.from].numPieces <= cfgs[x].numPieces
    ensures e.m.index in net[x].pieces
    ensures OutTo(NetStep(cfgs, net, x, e), x, e.from)
         == OutTo(net, x, e.from) + [SendPiece(e.m.index, net[x].pieces[e.m.index])]
  {
    assert NodeOk(cfgs[x], net[x]) && NodeOk(cfgs[e.from], net[e.from]);
    AsksInRange(cfgs[e.from], net[e.from], x, e.m.index);
    TruthfulKnowledge(cfgs, net, x, e.from, e.m.index);
  }

  // ----- quiescent agreement -----

  // The record made of an honest history has the announcer's own size and, of the trusted
  // indices, exactly those the history tells.
  lemma {:induction false} RecordIsTold(cfg: Config, pieces: Pieces, s: seq<Message>)
    requires TruthfulTo(cfg, pieces, s) && PiecesOk(cfg, pieces)
    ensures Record(s, cfg.numPieces).Some? && |Record(s, cfg.numPieces).value| == Size(cfg.numPieces)
    ensures forall i: nat :: Trusted(cfg, i) ==> (HasBit(Record(s, cfg.numPieces).value, i) <==> Told(s, i))
  {
    var front, last := s[..|s| - 1], s[|s| - 1];
    assert s == front + [last];
    assert Honest(cfg, pieces, last);
    if front != [] {
      FrontTruthful(cfg, pieces, s);
      RecordIsTold(cfg, pieces, front);
    }
    if last.Have? {
      SetBitHasBit(Record(front, cfg.numPieces).value, last.index, 0);
    }
    forall i: nat | Trusted(cfg, i)
      ensures HasBit(Record(s, cfg.numPieces).value, i) <==> Told(s, i)
    {
      ToldAppend(front, last, i);
      if last.Bitfield? {
        BitfieldTellsAll(cfg, pieces, s, i);
      } else if last.Have? {
        HaveTellsOne(cfg, pieces, Record(front, cfg.numPieces).value, last.index, i);
      }
    }
  }

  lemma FrontTruthful(cfg: Config, pieces: Pieces, s: seq<Message>)
    requires TruthfulTo(cfg, pieces, s) && |s| > 1
    ensures TruthfulTo(cfg, pieces, s[..|s| - 1])
  {
  }

  // A bitfield repeats all that was told before it.
  lemma BitfieldTellsAll(cfg: Config, pieces: Pieces, s: seq<Message>, i: nat)
    requires TruthfulTo(cfg, pieces, s) && PiecesOk(cfg, pieces) && s[|s| - 1].Bitfield? && Trusted(cfg, i)
    ensures HasBit(s[|s| - 1].bits, i) <==> Told(s, i)
  {
    if Told(s, i) {
      var k :| 0 <= k < |s| && Tells(s[k], i);
      assert Honest(cfg, pieces, s[k]);
    }
    if HasBit(s[|s| - 1].bits, i) {
      assert Tells(s[|s| - 1], i);
    }
  }

  // A Have adds the one bit it names, which is in the record's range if it is trusted.
  lemma HaveTellsOne(cfg: Config, pieces: Pieces, before: Bytes, index: nat, i: nat)
    requires PiecesOk(cfg, pieces) && Honest(cfg, pieces, Have(index)) && Trusted(cfg, i)
    requires |before| == Size(cfg.numPieces)
    ensures HasBit(SetBit(before, index), i) <==> HasBit(before, i) || i == index
  {
    SetBitHasBit(before, index, i);
  }

  // The last word on index i was a Have: no bitfield came after it.
  ghost predicate LateHave(s: seq<Message>, i: nat) {
    exists k :: 0 <= k < |s| && s[k] == Have(i) && forall l :: k < l < |s| ==> !s[l].Bitfield?
  }

  lemma LateHaveAppend(s: seq<Message>, m: Message, i: nat)
    ensures LateHave(s + [m], i) <==> m == Have(i) || (!m.Bitfield? && LateHave(s, i))
  {
    var t := s + [m];
    if LateHave(t, i) {
      var k :| 0 <= k < |t| && t[k] == Have(i) && forall l :: k < l < |t| ==> !t[l].Bitfield?;
      if k < |s| {
        assert !t[|s|].Bitfield?;
        assert s[k] == Have(i) && forall l :: k < l < |s| ==> s[l] == t[l];
      }
    }
    if m == Have(i) {
      assert t[|s|] == Have(i);
    } else if !m.Bitfield? && LateHave(s, i) {
      var k :| 0 <= k < |s| && s[k] == Have(i) && forall l :: k < l < |s| ==> !s[l].Bitfield?;
      assert t[k] == Have(i);
    }
  }

  // A bit past the last piece is on record exactly when a Have that no bitfield follows set it.
  lemma {:induction false} PaddingIsLateHave(cfg: Config, pieces: Pieces, s: seq<Message>, i: nat)
    requires TruthfulTo(cfg, pieces, s) && PiecesOk(cfg, pieces)
    requires cfg.numPieces <= i < 8 * Size(cfg.numPieces)
    ensures Record(s, cfg.numPieces).Some?
    ensures HasBit(Record(s, cfg.numPieces).value, i) <==> LateHave(s, i)
  {
    var front, last := s[..|s| - 1], s[|s| - 1];
    assert s == front + [last];
    assert Honest(cfg, pieces, last);
    LateHaveAppend(front, last, i);
    if front != [] {
      FrontTruthful(cfg, pieces, s);
      PaddingIsLateHave(cfg, pieces, front, i);
      RecordIsTold(cfg, pieces, front);
      if last.Have? {
        SetBitHasBit(Record(front, cfg.numPieces).value, last.index, i);
      }
    }
  }

  /**
   Once x's handler is idle and y has received all x sent it, the bitfield y has on record for x
   has x's size and exactly the bits of the pieces x holds. It is x's own byte for byte exactly
   when no Have past the last piece came after x's last bitfield, so always when x checks hashes
   or its pieces fill the last byte.
   */
  lemma QuiescentAgreement(cfgs: Configs, net: Net, x: PeerId, y: PeerId)
    requires NetOk(cfgs, net) && x in net && y in net && x != y
    requires SameTorrent(cfgs, cfgs[x].numPieces) && Settled(net, x, y)
    ensures x in net[y].records && |net[y].records[x]| == Size(cfgs[x].numPieces)
    ensures forall i: nat :: i < cfgs[x].numPieces ==> (HasBit(net[y].records[x], i) <==> i in net[x].pieces)
    ensures net[y].records[x] == BitfieldOf(net[x].pieces.Keys, cfgs[x].numPieces)
       <==> forall i :: cfgs[x].numPieces <= i < 8 * Size(cfgs[x].numPieces) ==> !LateHave(OutTo(net, x, y), i)
    ensures cfgs[x].hashes.Some? || cfgs[x].numPieces % 8 == 0 ==>
      net[y].records[x] == BitfieldOf(net[x].pieces.Keys, cfgs[x].numPieces)
  {
    var cfg, s := cfgs[x], OutTo(net, x, y);
    assert NodeOk(cfg, net[x]) && NodeOk(cfgs[y], net[y]);
    assert LinkOk(cfg, net[x], y) && LinkOk(cfgs[y], net[y], x);
    forall i: nat | i < cfg.numPieces
      ensures Told(s, i) <==> i in net[x].pieces
    {
      if Told(s, i) {
        ToldIsHeld(cfg, net[x], y, i);
      }
    }
    RecordAgrees(cfg, net[x].pieces, s);
  }

  // The record made of a history that tells of exactly the pieces held.
  lemma RecordAgrees(cfg: Config, pieces: Pieces, s: seq<Message>)
    requires TruthfulTo(cfg, pieces, s) && PiecesOk(cfg, pieces)
    requires forall i: nat :: i < cfg.numPieces ==> (Told(s, i) <==> i in pieces)
    ensures Record(s, cfg.numPieces).Some?
    ensures var record := Record(s, cfg.numPieces).value;
            && |record| == Size(cfg.numPieces)
            && (forall i: nat :: i < cfg.numPieces ==> (HasBit(record, i) <==> i in pieces))
            && (record == BitfieldOf(pieces.Keys, cfg.numPieces)
                <==> forall i :: cfg.numPieces <= i < 8 * Size(cfg.numPieces) ==> !LateHave(s, i))
            && (cfg.hashes.Some? || cfg.numPieces % 8 == 0 ==> record == BitfieldOf(pieces.Keys, cfg.numPieces))
  {
    RecordIsTold(cfg, pieces, s);
    var record := Record(s, cfg.numPieces).value;
    forall i: nat | i < cfg.numPieces
      ensures HasBit(record, i) <==> i in pieces
    {
      assert Trusted(cfg, i);
    }
    PaddingAgrees(cfg, pieces, s);
    RecordBytes(cfg, pieces, s, record);
  }

  lemma RecordBytes(cfg: Config, pieces: Pieces, s: seq<Message>, record: Bytes)
    requires |record| == Size(cfg.numPieces)
    requires forall i: nat :: i < cfg.numPieces ==> (HasBit(record, i) <==> i in pieces)
    requires forall i :: cfg.numPieces <= i < 8 * Size(cfg.numPieces) ==>
      (HasBit(record, i) <==> LateHave(s, i)) && (cfg.hashes.Some? ==> !LateHave(s, i))
    ensures record == BitfieldOf(pieces.Keys, cfg.numPieces)
       <==> forall i :: cfg.numPieces <= i < 8 * Size(cfg.numPieces) ==> !LateHave(s, i)
    ensures cfg.hashes.Some? || cfg.numPieces % 8 == 0 ==> record == BitfieldOf(pieces.Keys, cfg.numPieces)
  {
    BytesAgreeIff(record, pieces.Keys, cfg.numPieces);
  }

  lemma PaddingAgrees(cfg: Config, pieces: Pieces, s: seq<Message>)
    requires TruthfulTo(cfg, pieces, s) && PiecesOk(cfg, pieces) && Record(s, cfg.numPieces).Some?
    ensures forall i :: cfg.numPieces <= i < 8 * Size(cfg.numPieces) ==>
      (HasBit(Record(s, cfg.numPieces).value, i) <==> LateHave(s, i)) && (cfg.hashes.Some? ==> !LateHave(s, i))
  {
    forall i | cfg.numPieces <= i < 8 * Size(cfg.numPieces)
      ensures HasBit(Record(s, cfg.numPieces).value, i) <==> LateHave(s, i)
      ensures cfg.hashes.Some? ==> !LateHave(s, i)
    {
      PaddingIsLateHave(cfg, pieces, s, i);
      if LateHave(s, i) {
        LateHaveIsUntrusted(cfg, pieces, s, i);
      }
    }
  }

  lemma LateHaveIsUntrusted(cfg: Config, pieces: Pieces, s: seq<Message>, i: nat)
    requires TruthfulTo(cfg, pieces, s) && PiecesOk(cfg, pieces) && LateHave(s, i) && i >= cfg.numPieces
    ensures cfg.hashes.None?
  {
    var k :| 0 <= k < |s| && s[k] == Have(i);
    assert Honest(cfg, pieces, s[k]);
  }

  // Bytes that agree with the bitfield on the pieces are the bitfield if no bit past them is set.
  lemma BytesAgreeIff(bits: Bytes, held: set<int>, numPieces: nat)
    requires |bits| == Size(numPieces)
    requires forall i: nat :: i < numPieces ==> (HasBit(bits, i) <==> i in held)
    ensures bits == BitfieldOf(held, numPieces)
       <==> forall i :: numPieces <= i < 8 * Size(numPieces) ==> !HasBit(bits, i)
  {
    BitfieldOfBits(held, numPieces);
    if forall i :: numPieces <= i < 8 * Size(numPieces) ==> !HasBit(bits, i) {
      forall i: nat
        ensures HasBit(bits, i) <==> i < numPieces && i in held
      {
        assert HasBit(bits, i) ==> i < 8 * Size(numPieces);
      }
      BitfieldOfUnique(bits, held, numPieces);
    }
  }

  lemma {:induction false} TruthfulPrefix(cfg: Config, pieces: Pieces, s: seq<Message>, t: seq<Message>)
    requires TruthfulTo(cfg, pieces, s) && t <= s && t != []
    ensures TruthfulTo(cfg, pieces, t)
  {
    forall k | 0 <= k < |t|
      ensures Honest(cfg, pieces, t[k])
    {
      assert t[k] == s[k];
    }
  }

  // y has piece i on record for x.
  predicate OnRecord(net: Net, y: PeerId, x: PeerId, i: nat) {
    y in net && x in net[y].records && HasBit(net[y].records[x], i)
  }

  /** Until then the record only grows: no step takes a trusted bit away from it. */
  lemma RecordsOnlyGrow(cfgs: Configs, net: Net, mover: PeerId, e: Event, x: PeerId, y: PeerId, i: nat)
    requires NetOk(cfgs, net) && CanStep(cfgs, net, mover, e) && SameTorrent(cfgs, cfgs[mover].numPieces)
    requires x in net && y in net && x != y
    requires Trusted(cfgs[x], i) && OnRecord(net, y, x, i)
    ensures OnRecord(NetStep(cfgs, net, mover, e), y, x, i)
  {
    var net' := NetStep(cfgs, net, mover, e);
    NetStepKeeps(cfgs, net, mover, e);
    assert NodeOk(cfgs[y], net[y]) && NodeOk(cfgs[y], net'[y]) && NodeOk(cfgs[x], net'[x]);
    var s, t, t' := OutTo(net', x, y), InFrom(net, y, x), InFrom(net', y, x);
    AsksOnlyForTold(cfgs[y], net[y], x, i);
    StepExtends(cfgs[mover], net[mover], e, x);
    assert t <= t';
    ToldByPrefix(t', t, i);
    assert t' <= s;
    assert x in net'[y].outbox && y in net'[x].outbox;
    assert LinkOk(cfgs[x], net'[x], y) && LinkOk(cfgs[y], net'[y], x);
    TruthfulPrefix(cfgs[x], net'[x].pieces, s, t');
    RecordIsTold(cfgs[x], net'[x].pieces, t');
  }

  // ----- the mirrors -----

  /** Once drained, y knows whether x is choking it, and x's announcements to y alternate. */
  lemma ChokeMirror(cfgs: Configs, net: Net, x: PeerId, y: PeerId)
    requires NetOk(cfgs, net)
    requires x in net && y in net && x != y && y in net[x].outbox && x in net[y].outbox
    requires InFrom(net, y, x) == OutTo(net, x, y)
    ensures y in net[x].table.states && x in net[y].table.states
    ensures net[y].table.states[x].peerChoking == net[x].table.states[y].amChoking
    ensures Alternates(OutTo(net, x, y))
  {
    assert NodeOk(cfgs[x], net[x]) && NodeOk(cfgs[y], net[y]);
    assert LinkOk(cfgs[x], net[x], y) && LinkOk(cfgs[y], net[y], x);
  }

  lemma {:induction false} InterestLasts(cfg: Config, pieces: Pieces, s: seq<Message>)
    requires forall k :: 0 <= k < |s| ==> Honest(cfg, pieces, s[k])
    requires Interested in s
    ensures InterestFlag(s)
  {
    var front, last := s[..|s| - 1], s[|s| - 1];
    assert s == front + [last];
    assert Honest(cfg, pieces, last);
    if last != Interested {
      forall k | 0 <= k < |front|
        ensures Honest(cfg, pieces, front[k])
      {
        assert front[k] == s[k];
      }
      InterestLasts(cfg, pieces, front);
    }
  }

  /**
   A node that waits for x to unchoke it is one that x, once drained, counts as interested: no
   waiting node is left out of x's unchoke rounds.
   */
  lemma WaitingNodesCompete(cfgs: Configs, net: Net, x: PeerId, y: PeerId)
    requires NetOk(cfgs, net)
    requires x in net && y in net && x != y && y in net[x].outbox
    requires x in net[y].pending && InFrom(net, x, y) == OutTo(net, y, x)
    ensures y in InterestedPeers(net[x].table.states)
  {
    assert NodeOk(cfgs[x], net[x]) && NodeOk(cfgs[y], net[y]);
    assert LinkOk(cfgs[x], net[x], y) && LinkOk(cfgs[y], net[y], x);
    InterestLasts(cfgs[y], net[y].pieces, OutTo(net, y, x));
  }

  // ----- over whole runs -----

  lemma NetStepKeys(cfgs: Configs, net: Net, mover: PeerId, e: Event)
    requires CanStep(cfgs, net, mover, e)
    ensures NetStep(cfgs, net, mover, e).Keys == net.Keys
  {
  }

  lemma {:induction false} RunKeepsNodes(cfgs: Configs, run: Run, k: nat)
    requires IsRun(cfgs, run) && k < |run.states|
    ensures run.states[k].Keys == run.states[0].Keys
  {
    if k > 0 {
      RunKeepsNodes(cfgs, run, k - 1);
      NetStepKeys(cfgs, run.states[k - 1], run.movers[k - 1], run.events[k - 1]);
    }
  }

  /**
   In every run of any number of nodes: a trusted piece that y has once recorded for x stays on
   record and is held by x at every later state; and whenever x is idle and all it sent y has
   arrived, y's record of x says of each piece whether x holds it, y knows whether x chokes it, and
   if x checks hashes the record is x's bitfield byte for byte.
   */
  lemma {:induction false} RunAgreement(cfgs: Configs, run: Run, j: nat, k: nat, x: PeerId, y: PeerId)
    requires IsRun(cfgs, run) && j <= k < |run.states|
    requires x in run.states[0] && y in run.states[0] && x != y
    requires SameTorrent(cfgs, cfgs[x].numPieces)
    ensures x in run.states[k] && y in run.states[k]
    ensures forall i: nat :: Trusted(cfgs[x], i) && OnRecord(run.states[j], y, x, i) ==>
      OnRecord(run.states[k], y, x, i) && i in run.states[k][x].pieces
    ensures Settled(run.states[k], x, y) ==> Agrees(cfgs[x], run.states[k], x, y)
  {
    RunKeepsNodes(cfgs, run, k);
    RunKeeps(cfgs, run, k);
    if Settled(run.states[k], x, y) {
      QuiescentAgreement(cfgs, run.states[k], x, y);
      ChokeMirror(cfgs, run.states[k], x, y);
    }
    forall i: nat | Trusted(cfgs[x], i) && OnRecord(run.states[j], y, x, i)
      ensures OnRecord(run.states[k], y, x, i) && i in run.states[k][x].pieces
    {
      RecordsGrowOverRun(cfgs, run, j, k, x, y, i);
      TruthfulKnowledge(cfgs, run.states[k], x, y, i);
    }
  }

  // x and y know each other, x's handler is idle, and y has received everything x sent it.
  ghost predicate Settled(net: Net, x: PeerId, y: PeerId)
    requires x in net && y in net
  {
    && y in net[x].outbox && x in net[y].outbox
    && net[x].task.Idle? && InFrom(net, y, x) == OutTo(net, x, y)
  }

  // What y has on record for x is the truth.
  ghost predicate Agrees(cfg: Config, net: Net, x: PeerId, y: PeerId)
    requires x in net && y in net
  {
    && x in net[y].records && y in net[x].table.states && x in net[y].table.states
    && (forall i: nat :: i < cfg.numPieces ==> (HasBit(net[y].records[x], i) <==> i in net[x].pieces))
    && (cfg.hashes.Some? ==> net[y].records[x] == BitfieldOf(net[x].pieces.Keys, cfg.numPieces))
    && net[y].table.states[x].peerChoking == net[x].table.states[y].amChoking
  }

  /** No trusted piece leaves a record between two states of a run. */
  lemma {:induction false} RecordsGrowOverRun(cfgs: Configs, run: Run, j: nat, k: nat, x: PeerId, y: PeerId, i: nat)
    requires IsRun(cfgs, run) && j <= k < |run.states|
    requires x in run.states[0] && y in run.states[0] && x != y
    requires SameTorrent(cfgs, cfgs[x].numPieces)
    requires Trusted(cfgs[x], i) && OnRecord(run.states[j], y, x, i)
    ensures OnRecord(run.states[k], y, x, i)
  {
    if j < k {
      RecordsGrowOverRun(cfgs, run, j, k - 1, x, y, i);
      RunKeepsNodes(cfgs, run, k - 1);
      NextKeepsRecord(cfgs, run, k - 1, x, y, i);
    }
  }

  lemma NextKeepsRecord(cfgs: Configs, run: Run, k: nat, x: PeerId, y: PeerId, i: nat)
    requires IsRun(cfgs, run) && k < |run.events|
    requires x in run.states[k] && y in run.states[k] && x != y && x in cfgs
    requires SameTorrent(cfgs, cfgs[x].numPieces)
    requires Trusted(cfgs[x], i) && OnRecord(run.states[k], y, x, i)
    ensures OnRecord(run.states[k + 1], y, x, i)
  {
    RunKeeps(cfgs, run, k);
    RecordsOnlyGrow(cfgs, run.states[k], run.movers[k], run.events[k], x, y, i);
  }
}
