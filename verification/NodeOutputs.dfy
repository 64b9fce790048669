/** What each step of a node sends, message by message, and that what a peer offers is asked for. */
module NodeOutputs {
  import opened Bytes
  import opened Messages
  import opened PieceStore
  import opened Unchoking
  import opened Nodes
  import opened NodeInvariant
  import opened NodeSteps
  import opened NodeRuns

  // Some piece the bitfield offers is missing.
  ghost predicate OffersMissing(cfg: Config, nd: Node, bits: Bytes) {
    exists i: nat :: IsMissing(bits, nd.pieces.Keys, cfg.numPieces, i)
  }

  // The later history is the earlier one and a request for each of these pieces, in order.
  ghost predicate AsksInOrder(before: seq<Message>, after: seq<Message>, wanted: seq<nat>) {
    && |after| == |before| + |wanted| && before <= after
    && forall k :: 0 <= k < |wanted| ==> after[|before| + k] == RequestPiece(wanted[k])
  }

  // ----- deliveries -----

  lemma RequestAnswered(cfg: Config, nd: Node, from: PeerId, i: nat, order: seq<nat>)
    requires from in nd.outbox && from in nd.table.states
    ensures var s := nd.outbox[from];
            Step(cfg, nd, Deliver(from, RequestPiece(i), order)).outbox
            == nd.outbox[from := s + (if !nd.table.states[from].amChoking && i in nd.pieces
                                      then [SendPiece(i, nd.pieces[i])] else [])]
  {
    assert nd.outbox[from] + [] == nd.outbox[from];
  }

  /** A bitfield goes on record. If it offers a missing piece we say we are interested, and all it offers that is
      missing is left pending; if not, nothing is sent and what was pending stays. */
  lemma BitfieldAnswered(cfg: Config, nd: Node, from: PeerId, bits: Bytes, order: seq<nat>)
    requires Enabled(cfg, nd, Deliver(from, Bitfield(bits), order))
    ensures var nd' := Step(cfg, nd, Deliver(from, Bitfield(bits), order));
            && from in nd'.records && nd'.records[from] == bits
            && (OffersMissing(cfg, nd, bits) ==>
                  && nd'.outbox == nd.outbox[from := nd.outbox[from] + [Interested]]
                  && from in nd'.pending
                  && forall i: nat :: i in nd'.pending[from] <==> IsMissing(bits, nd.pieces.Keys, cfg.numPieces, i))
            && (!OffersMissing(cfg, nd, bits) ==> nd'.outbox == nd.outbox && nd'.pending == nd.pending)
  {
    if order == [] {
      assert !OffersMissing(cfg, nd, bits);
    } else {
      assert order[0] in order;
      assert IsMissing(bits, nd.pieces.Keys, cfg.numPieces, order[0]);
    }
  }

  /** An Unchoke has everything that was pending for its sender asked for, one request each and in order, and leaves
      nothing pending for it. */
  lemma UnchokeAsksInOrder(cfg: Config, nd: Node, from: PeerId, order: seq<nat>)
    requires from in nd.outbox && from in nd.table.states
    ensures var nd' := Step(cfg, nd, Deliver(from, Unchoke, order));
            && from !in nd'.pending && nd'.outbox.Keys == nd.outbox.Keys
            && AsksInOrder(nd.outbox[from], nd'.outbox[from], if from in nd.pending then nd.pending[from] else [])
            && forall y :: y in nd.outbox && y != from ==> nd'.outbox[y] == nd.outbox[y]
  {
    var nd' := Step(cfg, nd, Deliver(from, Unchoke, order));
    HandlerAnswers(cfg, nd, from, Unchoke, order);
    if from in nd.pending {
      RequestsAre(nd.outbox[from], nd.pending[from]);
    } else {
      assert nd.outbox[from] + [] == nd.outbox[from];
    }
    UnchokeTouches(cfg, nd, from, order);
  }

  lemma RequestsAre(s: seq<Message>, wanted: seq<nat>)
    ensures AsksInOrder(s, s + Requests(wanted), wanted)
  {
  }

  lemma UnchokeTouches(cfg: Config, nd: Node, from: PeerId, order: seq<nat>)
    requires from in nd.table.states
    ensures var nd' := Step(cfg, nd, Deliver(from, Unchoke, order));
            && nd'.outbox.Keys == nd.outbox.Keys && from !in nd'.pending
            && forall y :: y in nd.outbox && y != from ==> nd'.outbox[y] == nd.outbox[y]
  {
  }

  // Messages that only tell us something are not answered, and a piece is announced later.
  lemma NotAnswered(cfg: Config, nd: Node, from: PeerId, m: Message, order: seq<nat>)
    requires !m.RequestPiece? && !m.Bitfield? && !m.Unchoke?
    ensures Step(cfg, nd, Deliver(from, m, order)).outbox == nd.outbox
  {
  }

  // ----- rounds and broadcasts -----

  /** A round tells each peer whose choke flag it changed which way, and nobody anything else. */
  lemma RoundSends(cfg: Config, nd: Node, clock: PeerId -> real, top: set<PeerId>, after: Table, y: PeerId)
    requires y in nd.outbox && y in nd.table.states && y in after.states
    ensures var nd' := Step(cfg, nd, Tick(clock, top, after));
            && nd'.outbox.Keys == nd.outbox.Keys
            && nd'.outbox[y] == (if nd.table.states[y].amChoking == after.states[y].amChoking then nd.outbox[y]
                                 else if after.states[y].amChoking then nd.outbox[y] + [Choke]
                                 else nd.outbox[y] + [Unchoke])
  {
    assert nd.outbox[y] + [] == nd.outbox[y];
  }

  /** A broadcast sends its message to the peer it turns to and to no other; every other part of it sends nothing. */
  lemma BroadcastSends(cfg: Config, nd: Node, to: PeerId)
    requires Enabled(cfg, nd, Continue(to))
    ensures var nd', task := Step(cfg, nd, Continue(to)), nd.task;
            if to in nd.outbox && task.SendingHave? && to in task.todo
            then nd'.outbox == nd.outbox[to := nd.outbox[to] + [Have(task.index)]]
            else if to in nd.outbox && task.SendingBitfield? && to in task.todo
            then nd'.outbox == nd.outbox[to := nd.outbox[to] + [Bitfield(task.bits)]]
            else nd'.outbox == nd.outbox
  {
    SentNothing(nd, to);
  }

  // ----- what is offered is asked for -----

  // The event gives y a new list of pieces to ask it for.
  predicate SetsPending(e: Event, y: PeerId) {
    e.Deliver? && e.from == y && e.m.Bitfield? && e.order != []
  }

  predicate Unchokes(e: Event, y: PeerId) {
    e.Deliver? && e.from == y && e.m.Unchoke?
  }

  lemma PendingStays(cfg: Config, nd: Node, e: Event, y: PeerId)
    requires !SetsPending(e, y) && !Unchokes(e, y)
    ensures Lookup(Step(cfg, nd, e).pending, y) == Lookup(nd.pending, y)
  {
    match e
    case Deliver(from, m, order) => DeliveryKeepsPending(cfg, Received(nd, from, m), from, m, order, y);
    case Join(id, now) => assert OnJoin(cfg, nd, id, now).pending == nd.pending;
    case Tick(_, _, after) => assert OnRound(nd, after).pending == nd.pending;
    case Continue(to) => assert Progress(cfg, nd, to).pending == nd.pending;
  }

  lemma DeliveryKeepsPending(cfg: Config, nd: Node, from: PeerId, m: Message, order: seq<nat>, y: PeerId)
    requires y == from ==> !m.Unchoke? && (m.Bitfield? ==> order == [])
    ensures Lookup(Handle(cfg, nd, from, m, order).pending, y) == Lookup(nd.pending, y)
  {
    match m
    case Bitfield(bits) => assert y != from || OnBitfield(nd, from, bits, order).pending == nd.pending;
    case Unchoke => UnchokeKeepsOthers(nd, from, y);
    case RequestPiece(i) => assert OnRequest(nd, from, i).pending == nd.pending;
    case SendPiece(i, data) => assert OnPiece(cfg, nd, from, i, data).pending == nd.pending;
    case _ =>
  }

  lemma UnchokeKeepsOthers(nd: Node, from: PeerId, y: PeerId)
    requires y != from
    ensures Lookup(OnUnchoke(nd, from).pending, y) == Lookup(nd.pending, y)
  {
  }

  lemma PendingSet(cfg: Config, nd: Node, e: Event, y: PeerId)
    requires Enabled(cfg, nd, e) && SetsPending(e, y)
    ensures var wanted := Lookup(Step(cfg, nd, e).pending, y);
            && wanted.Some?
            && forall i: nat :: i in wanted.value <==> IsMissing(e.m.bits, nd.pieces.Keys, cfg.numPieces, i)
  {
    assert e.order[0] in e.order;
    assert IsMissing(e.m.bits, nd.pieces.Keys, cfg.numPieces, e.order[0]);
    BitfieldAnswered(cfg, nd, y, e.m.bits, e.order);
  }

  // After a bitfield that left something pending, that stays until an Unchoke or another such bitfield.
  lemma {:induction false} PendingLasts(cfg: Config, pieces: Pieces, events: seq<Event>, j: nat, y: PeerId)
    requires j < |events| && CanRun(cfg, pieces, events) && SetsPending(events[j], y)
    requires forall k :: j < k < |events| ==> !SetsPending(events[k], y) && !Unchokes(events[k], y)
    ensures var held := After(cfg, pieces, events[..j]).pieces.Keys;
            var wanted := Lookup(After(cfg, pieces, events).pending, y);
            && wanted.Some?
            && forall i: nat :: i in wanted.value <==> IsMissing(events[j].m.bits, held, cfg.numPieces, i)
  {
    var last := |events| - 1;
    if j == last {
      PendingSet(cfg, After(cfg, pieces, events[..j]), events[j], y);
    } else {
      var front := events[..last];
      assert front[..j] == events[..j];
      PendingLasts(cfg, pieces, front, j, y);
      PendingStays(cfg, After(cfg, pieces, front), events[last], y);
    }
  }

  /**
   What a peer offers is asked for: when an Unchoke from y follows a bitfield that offered something
   missing, and no other such bitfield or Unchoke from y came in between, every piece that bitfield
   offered and the node lacked then has a request in what is sent to y once the Unchoke is handled.
   */
  lemma OfferedIsAsked(cfg: Config, pieces: Pieces, events: seq<Event>, j: nat, y: PeerId, i: nat)
    requires PiecesOk(cfg, pieces) && CanRun(cfg, pieces, events)
    requires j < |events| - 1 && SetsPending(events[j], y)
    requires Unchokes(events[|events| - 1], y)
    requires forall k :: j < k < |events| - 1 ==> !SetsPending(events[k], y) && !Unchokes(events[k], y)
    requires IsMissing(events[j].m.bits, After(cfg, pieces, events[..j]).pieces.Keys, cfg.numPieces, i)
    ensures RequestPiece(i) in Log(After(cfg, pieces, events).outbox, y)
  {
    var front, e := events[..|events| - 1], events[|events| - 1];
    var nd := After(cfg, pieces, front);
    assert front[..j] == events[..j];
    NodeRunKeeps(cfg, pieces, front);
    PendingLasts(cfg, pieces, front, j, y);
    UnchokeAsksInOrder(cfg, nd, y, e.order);
    AskedIfPending(nd.outbox[y], Step(cfg, nd, e).outbox[y], nd.pending[y], i);
  }

  lemma AskedIfPending(before: seq<Message>, after: seq<Message>, wanted: seq<nat>, i: nat)
    requires AsksInOrder(before, after, wanted) && i in wanted
    ensures RequestPiece(i) in after
  {
    var k :| 0 <= k < |wanted| && wanted[k] == i;
    assert after[|before| + k] == RequestPiece(i);
  }
}
