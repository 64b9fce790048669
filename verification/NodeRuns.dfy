/** What holds in every run of one node, whatever messages its peers send and however they join. */
module NodeRuns {
  import opened Bytes
  import opened Messages
  import opened PieceStore
  import opened Framing
  import opened Unchoking
  import opened Nodes
  import opened NodeInvariant
  import opened NodeSteps

  // The state after taking the events in turn, from a node that starts with `pieces` and no peers.
  function After(cfg: Config, pieces: Pieces, events: seq<Event>): Node {
    if events == [] then Fresh(pieces)
    else Step(cfg, After(cfg, pieces, events[..|events| - 1]), events[|events| - 1])
  }

  ghost predicate CanRun(cfg: Config, pieces: Pieces, events: seq<Event>) {
    events != [] ==>
      && CanRun(cfg, pieces, events[..|events| - 1])
      && Enabled(cfg, After(cfg, pieces, events[..|events| - 1]), events[|events| - 1])
  }

  lemma {:induction false} CanRunPrefix(cfg: Config, pieces: Pieces, events: seq<Event>, k: nat)
    requires CanRun(cfg, pieces, events) && k <= |events|
    ensures CanRun(cfg, pieces, events[..k])
  {
    if k < |events| {
      CanRunPrefix(cfg, pieces, events[..|events| - 1], k);
      assert events[..|events| - 1][..k] == events[..k];
    } else {
      assert events[..k] == events;
    }
  }

  /** Every run of a node, against any peers, keeps the node invariant. */
  lemma {:induction false} NodeRunKeeps(cfg: Config, pieces: Pieces, events: seq<Event>)
    requires PiecesOk(cfg, pieces) && CanRun(cfg, pieces, events)
    ensures NodeOk(cfg, After(cfg, pieces, events))
  {
    if events == [] {
      FreshIsOk(cfg, pieces);
    } else {
      var front := events[..|events| - 1];
      NodeRunKeeps(cfg, pieces, front);
      StepKeeps(cfg, After(cfg, pieces, front), events[|events| - 1]);
    }
  }

  /**
   No announcement is lost, however joins interleave with the handling of a piece: the first
   message to a peer is a bitfield, and once the handler is idle each held piece has been
   announced to each peer, by that bitfield or a later message.
   */
  lemma {:induction false} NoLostAnnouncement(cfg: Config, pieces: Pieces, events: seq<Event>, y: PeerId)
    requires PiecesOk(cfg, pieces) && CanRun(cfg, pieces, events)
    requires y in After(cfg, pieces, events).outbox
    ensures var nd := After(cfg, pieces, events);
            && nd.outbox[y] != [] && nd.outbox[y][0].Bitfield?
            && (nd.task.Idle? ==> forall i: nat :: i in nd.pieces ==> Told(nd.outbox[y], i))
  {
    NodeRunKeeps(cfg, pieces, events);
    assert LinkOk(cfg, After(cfg, pieces, events), y);
  }

  lemma {:induction false} AlternatesAt(s: seq<Message>, k: nat)
    requires Alternates(s) && k < |s|
    ensures s[k].Unchoke? ==> ChokeFlag(s[..k])
    ensures s[k].Choke? || s[k].SendPiece? ==> !ChokeFlag(s[..k])
  {
    if k < |s| - 1 {
      AlternatesAt(s[..|s| - 1], k);
      assert s[..|s| - 1][..k] == s[..k];
    }
  }

  /**
   Uploads: at most four peers are unchoked at any time, Unchoke and Choke alternate in what each
   peer is sent, and every piece ever sent went out between an Unchoke and the next Choke.
   */
  lemma {:induction false} UploadsAreBounded(cfg: Config, pieces: Pieces, events: seq<Event>, y: PeerId, k: nat)
    requires PiecesOk(cfg, pieces) && CanRun(cfg, pieces, events)
    requires y in After(cfg, pieces, events).outbox && k < |After(cfg, pieces, events).outbox[y]|
    ensures var nd := After(cfg, pieces, events);
            var s := nd.outbox[y];
            && |UnchokedPeers(nd.table.states)| <= MAX_UNCHOKED_PEERS
            && (s[k].Unchoke? ==> ChokeFlag(s[..k]))
            && (s[k].Choke? || s[k].SendPiece? ==> !ChokeFlag(s[..k]))
            && (y in UnchokedPeers(nd.table.states) <==> !ChokeFlag(s))
  {
    NodeRunKeeps(cfg, pieces, events);
    assert LinkOk(cfg, After(cfg, pieces, events), y);
    AlternatesAt(After(cfg, pieces, events).outbox[y], k);
  }

  /**
   The piece a node goes on to announce is one it holds exactly when it checks hashes or the
   index is one it can store: without hashes, data for an index past the end passes the check, is
   refused by the store, and is announced all the same.
   */
  lemma AnnouncedIsHeldIff(cfg: Config, nd: Node, from: PeerId, i: nat, data: Bytes)
    requires PiecesOk(cfg, nd.pieces) && Verifies(cfg, i, data)
    ensures OnPiece(cfg, nd, from, i, data).task == AnnounceHave(i)
    ensures i in OnPiece(cfg, nd, from, i, data).pieces <==> cfg.hashes.Some? || i < cfg.numPieces
  {
  }

  // ----- where pieces come from -----

  // Some event of the run brought this data for piece i.
  ghost predicate Delivered(events: seq<Event>, i: int, data: Bytes) {
    exists k :: 0 <= k < |events| && Brings(events[k], i, data)
  }

  predicate Brings(e: Event, i: int, data: Bytes) {
    e.Deliver? && e.m.SendPiece? && e.m.index == i && e.m.data == data
  }

  lemma DeliveredLater(events: seq<Event>, i: int, data: Bytes)
    requires events != [] && Delivered(events[..|events| - 1], i, data)
    ensures Delivered(events, i, data)
  {
    var k :| 0 <= k < |events| - 1 && Brings(events[..|events| - 1][k], i, data);
    assert events[k] == events[..|events| - 1][k];
  }

  lemma PieceStores(cfg: Config, nd: Node, from: PeerId, i: nat, data: Bytes)
    ensures var pieces := OnPiece(cfg, nd, from, i, data).pieces;
            pieces == nd.pieces || pieces == nd.pieces[i := data]
  {
  }

  // The pieces after a step are those before it and what it brought.
  lemma StepStores(cfg: Config, nd: Node, e: Event, i: int)
    requires i in Step(cfg, nd, e).pieces
    ensures (i in nd.pieces && nd.pieces[i] == Step(cfg, nd, e).pieces[i]) || Brings(e, i, Step(cfg, nd, e).pieces[i])
  {
    match e
    case Deliver(from, m, order) =>
      if m.SendPiece? {
        PieceStores(cfg, Received(nd, from, m), from, m.index, m.data);
      } else {
        AnswersKeys(cfg, nd, from, m, order);
      }
    case Join(id, now) => assert OnJoin(cfg, nd, id, now).pieces == nd.pieces;
    case Tick(_, _, after) => assert OnRound(nd, after).pieces == nd.pieces;
    case Continue(to) => assert Progress(cfg, nd, to).pieces == nd.pieces;
  }

  /** Every piece a node holds after a run it started with, or some event of the run delivered. */
  lemma {:induction false} StoredWasDelivered(cfg: Config, pieces: Pieces, events: seq<Event>, i: int)
    requires i in After(cfg, pieces, events).pieces
    ensures var data := After(cfg, pieces, events).pieces[i];
            (i in pieces && pieces[i] == data) || Delivered(events, i, data)
  {
    if events != [] {
      var front, e := events[..|events| - 1], events[|events| - 1];
      var before, data := After(cfg, pieces, front), After(cfg, pieces, events).pieces[i];
      StepStores(cfg, before, e, i);
      if i in before.pieces && before.pieces[i] == data {
        StoredWasDelivered(cfg, pieces, front, i);
        if Delivered(front, i, data) {
          DeliveredLater(events, i, data);
        }
      } else {
        assert Brings(events[|events| - 1], i, data);
      }
    }
  }

  // ----- what is sent fits the wire -----

  // Every message a node sends is one the receiver parses back, if its torrent's indices fit four bytes.
  lemma SentFits(cfg: Config, nd: Node, y: PeerId)
    requires NodeOk(cfg, nd) && cfg.numPieces <= UINT32 && y in nd.outbox
    ensures forall m :: m in nd.outbox[y] ==> !m.Ignored? && Fits(m)
  {
    assert LinkOk(cfg, nd, y);
    forall m | m in nd.outbox[y]
      ensures !m.Ignored? && Fits(m)
    {
      var k :| 0 <= k < |nd.outbox[y]| && nd.outbox[y][k] == m;
      assert Honest(cfg, nd.pieces, nd.outbox[y][k]);
    }
  }

  /**
   After any run, whatever prefix of the bytes a node has framed for a peer arrives there parses to
   a prefix of the messages the node sent it, which is what makes a connection a FIFO channel.
   */
  lemma {:induction false} SentArrivesInOrder(cfg: Config, pieces: Pieces, events: seq<Event>, y: PeerId, cut: nat)
    requires PiecesOk(cfg, pieces) && CanRun(cfg, pieces, events) && cfg.numPieces <= UINT32
    requires y in After(cfg, pieces, events).outbox
    requires forall m :: m in After(cfg, pieces, events).outbox[y] ==> |Payload(m)| < UINT32
    requires cut <= |Frames(Payloads(After(cfg, pieces, events).outbox[y]))|
    ensures var s := After(cfg, pieces, events).outbox[y];
            Parsed(ReadAll(Frames(Payloads(s))[..cut]).payloads) <= s
  {
    NodeRunKeeps(cfg, pieces, events);
    SentFits(cfg, After(cfg, pieces, events), y);
    ConnectionIsFifo(After(cfg, pieces, events).outbox[y], cut);
  }
}
