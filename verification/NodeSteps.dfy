/** Every step of a node keeps the node invariant, so every run does. */
module NodeSteps {
  import opened Bytes
  import opened Bitfields
  import opened Messages
  import opened PieceStore
  import opened Rarity
  import opened Unchoking
  import opened Nodes
  import opened NodeInvariant

  // ----- delivering a message -----

  // Where a handler answers its sender: plain honest messages, and flags and records that follow
  // the message received.
  lemma LinkAnswered(cfg: Config, nd: Node, nd': Node, from: PeerId, m: Message, ms: seq<Message>)
    requires from in nd.outbox && from in nd.table.states && LinkOk(cfg, nd, from)
    requires from in nd'.outbox && nd'.outbox[from] == nd.outbox[from] + ms
    requires Log(nd'.inbox, from) == Log(nd.inbox, from) + [m]
    requires nd'.pieces == nd.pieces && nd'.task == nd.task == Idle
    requires forall a :: a in ms ==>
      Plain(a) && Honest(cfg, nd.pieces, a) && (a.SendPiece? ==> !nd.table.states[from].amChoking)
    requires forall a :: a in ms && a.RequestPiece? ==> Told(Log(nd.inbox, from) + [m], a.index)
    requires from in nd'.table.states && nd'.table.states[from].amChoking == nd.table.states[from].amChoking
    requires Tracks(cfg.numPieces, Log(nd.inbox, from) + [m], nd'.table.states[from], Lookup(nd'.records, from))
    requires from in nd'.pending ==>
      && AllTold(cfg.numPieces, Log(nd.inbox, from) + [m], nd'.pending[from])
      && Interested in nd'.outbox[from]
    ensures LinkOk(cfg, nd', from)
  {
    var s, t := nd.outbox[from], Log(nd.inbox, from);
    PlainAppend(cfg, nd.pieces, s, ms);
    ToldLater(s, ms);
    ToldLater(t, [m]);
    forall k | 0 <= k < |s + ms| && (s + ms)[k].RequestPiece?
      ensures Told(t + [m], (s + ms)[k].index)
    {
      if k < |s| {
        assert Told(t, s[k].index);
      } else {
        assert ms[k - |s|] in ms;
      }
    }
  }

  // Only the sender's link and the sender's entries change.
  ghost predicate TouchesOnly(nd: Node, nd': Node, from: PeerId) {
    && nd'.outbox.Keys == nd.outbox.Keys
    && nd'.table.states.Keys == nd.table.states.Keys
    && nd'.inbox.Keys <= nd.inbox.Keys + {from}
    && nd'.records.Keys <= nd.records.Keys + {from}
    && nd'.pending.Keys <= nd.pending.Keys + {from}
    && forall y :: y in nd.outbox && y in nd.table.states && y != from ==> SameLink(nd, nd', y)
  }

  lemma TablesAnswered(cfg: Config, nd: Node, nd': Node, from: PeerId)
    requires TablesOk(cfg, nd) && from in nd.outbox && TouchesOnly(nd, nd', from)
    requires nd'.pieces == nd.pieces && nd'.task == nd.task == Idle
    requires nd'.table.states[from].amChoking == nd.table.states[from].amChoking
    ensures TablesOk(cfg, nd')
  {
    SameChokingSameSlots(nd.table.states, nd'.table.states);
  }

  lemma NodeAnswered(cfg: Config, nd: Node, nd': Node, from: PeerId)
    requires NodeOk(cfg, nd) && from in nd.outbox && TouchesOnly(nd, nd', from)
    requires nd'.pieces == nd.pieces && nd'.task == nd.task == Idle
    requires nd'.table.states[from].amChoking == nd.table.states[from].amChoking
    requires LinkOk(cfg, nd', from)
    ensures NodeOk(cfg, nd')
  {
    TablesAnswered(cfg, nd, nd', from);
    forall y | y in nd'.outbox
      ensures LinkOk(cfg, nd', y)
    {
      if y != from {
        assert LinkOk(cfg, nd, y);
        LinkFrame(cfg, nd, nd', y);
      }
    }
  }

  // The handlers that only answer, all but the one for a received piece, leave other links alone.
  lemma OtherLinkSame(cfg: Config, nd: Node, from: PeerId, m: Message, order: seq<nat>, y: PeerId)
    requires from in nd.table.states && y in nd.outbox && y in nd.table.states && y != from
    requires !m.SendPiece?
    ensures SameLink(nd, Handle(cfg, Received(nd, from, m), from, m, order), y)
  {
    var rc := Received(nd, from, m);
    assert SameLink(nd, rc, y);
    match m
    case RequestPiece(i) => assert SameLink(rc, OnRequest(rc, from, i), y);
    case Bitfield(bits) => assert SameLink(rc, OnBitfield(rc, from, bits, order), y);
    case Unchoke => assert SameLink(rc, OnUnchoke(rc, from), y);
    case _ =>
  }

  lemma AnswersTouchOnly(cfg: Config, nd: Node, from: PeerId, m: Message, order: seq<nat>)
    requires nd.table.states.Keys == nd.outbox.Keys && from in nd.outbox
    requires !m.SendPiece?
    ensures var nd' := Handle(cfg, Received(nd, from, m), from, m, order);
            && TouchesOnly(nd, nd', from)
            && nd'.pieces == nd.pieces && nd'.task == nd.task
            && nd'.table.states[from].amChoking == nd.table.states[from].amChoking
            && Log(nd'.inbox, from) == Log(nd.inbox, from) + [m]
  {
    AnswersKeys(cfg, nd, from, m, order);
    forall y | y in nd.outbox && y in nd.table.states && y != from
      ensures SameLink(nd, Handle(cfg, Received(nd, from, m), from, m, order), y)
    {
      OtherLinkSame(cfg, nd, from, m, order, y);
    }
  }

  ghost predicate KeepsTables(nd: Node, nd': Node, from: PeerId) {
    && nd'.outbox.Keys == nd.outbox.Keys
    && nd'.table.states.Keys == nd.table.states.Keys
    && nd'.inbox == nd.inbox
    && nd'.records.Keys <= nd.records.Keys + {from}
    && nd'.pending.Keys <= nd.pending.Keys + {from}
    && nd'.pieces == nd.pieces && nd'.task == nd.task
    && (from in nd.table.states && from in nd'.table.states ==>
          nd'.table.states[from].amChoking == nd.table.states[from].amChoking)
  }

  lemma RequestKeepsTables(nd: Node, from: PeerId, i: nat)
    ensures KeepsTables(nd, OnRequest(nd, from, i), from)
  {
  }

  lemma BitfieldKeepsTables(nd: Node, from: PeerId, bits: Bytes, order: seq<nat>)
    ensures KeepsTables(nd, OnBitfield(nd, from, bits, order), from)
  {
  }

  lemma UnchokeKeepsTables(nd: Node, from: PeerId)
    ensures KeepsTables(nd, OnUnchoke(nd, from), from)
  {
  }

  lemma FlagsKeepTables(cfg: Config, nd: Node, from: PeerId, m: Message)
    requires !m.SendPiece? && !m.RequestPiece? && !m.Bitfield? && !m.Unchoke?
    ensures KeepsTables(nd, Handle(cfg, nd, from, m, []), from)
  {
  }

  lemma AnswersKeys(cfg: Config, nd: Node, from: PeerId, m: Message, order: seq<nat>)
    requires !m.SendPiece?
    ensures KeepsTables(Received(nd, from, m), Handle(cfg, Received(nd, from, m), from, m, order), from)
  {
    var rc := Received(nd, from, m);
    match m
    case RequestPiece(i) => RequestKeepsTables(rc, from, i);
    case Bitfield(bits) => BitfieldKeepsTables(rc, from, bits, order);
    case Unchoke => UnchokeKeepsTables(rc, from);
    case _ => FlagsKeepTables(cfg, rc, from, m);
  }

  // The sender's flags and record follow the message.
  lemma HandlerTracks(cfg: Config, nd: Node, from: PeerId, m: Message, order: seq<nat>)
    requires from in nd.outbox && from in nd.table.states
    requires !m.SendPiece?
    requires Tracks(cfg.numPieces, Log(nd.inbox, from), nd.table.states[from], Lookup(nd.records, from))
    ensures var nd' := Handle(cfg, Received(nd, from, m), from, m, order);
            && from in nd'.table.states
            && Tracks(cfg.numPieces, Log(nd.inbox, from) + [m], nd'.table.states[from], Lookup(nd'.records, from))
  {
    var nd' := Handle(cfg, Received(nd, from, m), from, m, order);
    HandlerNotes(cfg, nd, from, m, order);
    TracksNext(cfg.numPieces, Log(nd.inbox, from), m, nd.table.states[from], nd'.table.states[from],
               Lookup(nd.records, from));
  }

  lemma HandlerNotes(cfg: Config, nd: Node, from: PeerId, m: Message, order: seq<nat>)
    requires from in nd.outbox && from in nd.table.states && !m.SendPiece?
    ensures var nd' := Handle(cfg, Received(nd, from, m), from, m, order);
            && from in nd'.table.states
            && Lookup(nd'.records, from) == Noted(Lookup(nd.records, from), m, cfg.numPieces)
            && (var before, after := nd.table.states[from], nd'.table.states[from];
                && after.peerChoking == (if m.Choke? then true else if m.Unchoke? then false else before.peerChoking)
                && after.peerInterested
                   == (if m.Interested? then true else if m.NotInterested? then false else before.peerInterested))
  {
  }

  // What the sender is answered, and what is left pending for it.
  function Answer(nd: Node, from: PeerId, m: Message, order: seq<nat>): seq<Message> {
    match m
    case RequestPiece(i) =>
      if from in UnchokedPeers(nd.table.states) && i in nd.pieces then [SendPiece(i, nd.pieces[i])] else []
    case Bitfield(_) => if order == [] then [] else [Interested]
    case Unchoke => if from in nd.pending then Requests(nd.pending[from]) else []
    case _ => []
  }

  lemma HandlerAnswers(cfg: Config, nd: Node, from: PeerId, m: Message, order: seq<nat>)
    requires from in nd.outbox && from in nd.table.states
    requires !m.SendPiece?
    ensures var nd' := Handle(cfg, Received(nd, from, m), from, m, order);
            && from in nd'.outbox && nd'.outbox[from] == nd.outbox[from] + Answer(nd, from, m, order)
            && Lookup(nd'.pending, from)
               == if m.Unchoke? then None
                  else if m.Bitfield? && order != [] then Some(order)
                  else Lookup(nd.pending, from)
  {
  }

  lemma AnswerIsHonest(cfg: Config, nd: Node, from: PeerId, m: Message, order: seq<nat>)
    requires from in nd.table.states
    requires AsksForTold(cfg.numPieces, Log(nd.outbox, from), Log(nd.inbox, from), Lookup(nd.pending, from))
    ensures forall a :: a in Answer(nd, from, m, order) ==>
      && Plain(a) && Honest(cfg, nd.pieces, a)
      && (a.SendPiece? ==> !nd.table.states[from].amChoking)
      && (a.RequestPiece? ==> Told(Log(nd.inbox, from) + [m], a.index))
  {
    ToldLater(Log(nd.inbox, from), [m]);
    var ms := Answer(nd, from, m, order);
    forall a | a in ms && m.Unchoke?
      ensures a.RequestPiece? && a.index < cfg.numPieces && Told(Log(nd.inbox, from) + [m], a.index)
    {
      var k :| 0 <= k < |ms| && ms[k] == a;
      assert nd.pending[from][k] in nd.pending[from];
    }
  }

  lemma PendingIsTold(cfg: Config, nd: Node, from: PeerId, m: Message, order: seq<nat>)
    requires from in nd.outbox
    requires AsksForTold(cfg.numPieces, nd.outbox[from], Log(nd.inbox, from), Lookup(nd.pending, from))
    requires m.Bitfield? ==> IsRarestOrder(nd.records[from := m.bits], m.bits, nd.pieces.Keys, cfg.numPieces, order)
    ensures from in nd.pending ==>
      AllTold(cfg.numPieces, Log(nd.inbox, from) + [m], nd.pending[from]) && Interested in nd.outbox[from]
    ensures m.Bitfield? ==> AllTold(cfg.numPieces, Log(nd.inbox, from) + [m], order)
  {
    ToldLater(Log(nd.inbox, from), [m]);
    if m.Bitfield? {
      forall i | i in order
        ensures i < cfg.numPieces && Told(Log(nd.inbox, from) + [m], i)
      {
        assert IsMissing(m.bits, nd.pieces.Keys, cfg.numPieces, i);
        ToldByLast(Log(nd.inbox, from), m, i);
      }
    }
  }

  lemma LinkDelivered(cfg: Config, nd: Node, from: PeerId, m: Message, order: seq<nat>)
    requires from in nd.outbox && from in nd.table.states && LinkOk(cfg, nd, from) && nd.task.Idle?
    requires !m.SendPiece? && nd.table.states.Keys == nd.outbox.Keys
    requires m.Bitfield? ==> IsRarestOrder(nd.records[from := m.bits], m.bits, nd.pieces.Keys, cfg.numPieces, order)
    ensures LinkOk(cfg, Handle(cfg, Received(nd, from, m), from, m, order), from)
  {
    AnswersTouchOnly(cfg, nd, from, m, order);
    HandlerTracks(cfg, nd, from, m, order);
    HandlerAnswers(cfg, nd, from, m, order);
    AnswerIsHonest(cfg, nd, from, m, order);
    PendingIsTold(cfg, nd, from, m, order);
    LinkAnswered(cfg, nd, Handle(cfg, Received(nd, from, m), from, m, order), from, m, Answer(nd, from, m, order));
  }

  lemma AnswerKeeps(cfg: Config, nd: Node, from: PeerId, m: Message, order: seq<nat>)
    requires NodeOk(cfg, nd) && !m.SendPiece?
    requires Enabled(cfg, nd, Deliver(from, m, order))
    ensures NodeOk(cfg, Handle(cfg, Received(nd, from, m), from, m, order))
  {
    assert LinkOk(cfg, nd, from);
    LinkDelivered(cfg, nd, from, m, order);
    AnswersTouchOnly(cfg, nd, from, m, order);
    NodeAnswered(cfg, nd, Handle(cfg, Received(nd, from, m), from, m, order), from);
  }

  // ----- a received piece -----

  lemma AddedOk(cfg: Config, pieces: Pieces, i: nat, data: Bytes)
    requires PiecesOk(cfg, pieces) && Verifies(cfg, i, data) && i < UINT32
    ensures PiecesOk(cfg, Added(cfg.numPieces, pieces, i, data))
    ensures i in Added(cfg.numPieces, pieces, i, data) || Unstorable(cfg, i)
  {
  }

  lemma PieceTables(cfg: Config, nd: Node, from: PeerId, i: nat, data: Bytes)
    requires TablesOk(cfg, nd) && nd.task.Idle? && from in nd.outbox && Verifies(cfg, i, data) && i < UINT32
    ensures TablesOk(cfg, OnPiece(cfg, Received(nd, from, SendPiece(i, data)), from, i, data))
  {
    var counted := nd.table.states[from].(down := nd.table.states[from].down.Add(|data|));
    AddedOk(cfg, nd.pieces, i, data);
    SameChokingSameSlots(nd.table.states, nd.table.states[from := counted]);
  }

  // What handling a piece makes of one link: nothing but a longer inbox from its sender.
  lemma PieceLink(cfg: Config, nd: Node, from: PeerId, i: nat, data: Bytes, y: PeerId)
    requires nd.table.states.Keys == nd.outbox.Keys && from in nd.outbox && y in nd.outbox
    ensures var nd' := OnPiece(cfg, Received(nd, from, SendPiece(i, data)), from, i, data);
            && nd'.outbox == nd.outbox && nd'.records == nd.records && nd'.pending == nd.pending
            && y in nd'.table.states && SameFlags(nd.table.states[y], nd'.table.states[y])
            && Log(nd'.inbox, y) == Log(nd.inbox, y) + (if y == from then [SendPiece(i, data)] else [])
            && (if Verifies(cfg, i, data)
                then nd'.pieces == Added(cfg.numPieces, nd.pieces, i, data) && nd'.task == AnnounceHave(i)
                else nd'.pieces == nd.pieces && nd'.task == nd.task)
  {
  }

  lemma LinkWithPiece(cfg: Config, nd: Node, from: PeerId, i: nat, data: Bytes, y: PeerId)
    requires nd.table.states.Keys == nd.outbox.Keys && from in nd.outbox && y in nd.outbox && nd.task.Idle?
    requires LinkOk(cfg, nd, y)
    ensures var nd' := OnPiece(cfg, Received(nd, from, SendPiece(i, data)), from, i, data);
            && y in nd'.outbox && y in nd'.table.states && LinkOk(cfg, nd', y)
  {
    var m := SendPiece(i, data);
    var nd' := OnPiece(cfg, Received(nd, from, m), from, i, data);
    PieceLink(cfg, nd, from, i, data, y);
    var s, t := nd.outbox[y], Log(nd.inbox, y);
    TruthfulGrow(cfg, nd.pieces, nd'.pieces, s);
    if y == from {
      TracksNext(cfg.numPieces, t, m, nd.table.states[y], nd'.table.states[y], Lookup(nd.records, y));
      AsksLater(cfg.numPieces, s, t, m, Lookup(nd.pending, y));
    } else {
      assert t + [] == t;
    }
  }

  lemma PieceKeeps(cfg: Config, nd: Node, from: PeerId, i: nat, data: Bytes)
    requires NodeOk(cfg, nd) && nd.task.Idle? && from in nd.outbox && i < UINT32
    ensures NodeOk(cfg, OnPiece(cfg, Received(nd, from, SendPiece(i, data)), from, i, data))
  {
    var nd' := OnPiece(cfg, Received(nd, from, SendPiece(i, data)), from, i, data);
    if Verifies(cfg, i, data) {
      PieceTables(cfg, nd, from, i, data);
    }
    PieceLink(cfg, nd, from, i, data, from);
    forall y | y in nd'.outbox
      ensures LinkOk(cfg, nd', y)
    {
      assert LinkOk(cfg, nd, y);
      LinkWithPiece(cfg, nd, from, i, data, y);
    }
  }

  // ----- a join -----

  lemma JoinKeeps(cfg: Config, nd: Node, id: PeerId, now: real)
    requires NodeOk(cfg, nd)
    ensures NodeOk(cfg, OnJoin(cfg, nd, id, now))
  {
    var nd' := OnJoin(cfg, nd, id, now);
    if id !in nd.outbox {
      JoinTakesNoSlot(nd.table.states, id, now);
      assert TablesOk(cfg, nd');
      forall y | y in nd'.outbox
        ensures LinkOk(cfg, nd', y)
      {
        if y == id {
          NewLink(cfg, nd, id, now);
        } else {
          assert LinkOk(cfg, nd, y);
          LinkFrame(cfg, nd, nd', y);
        }
      }
    }
  }

  lemma NewLink(cfg: Config, nd: Node, id: PeerId, now: real)
    requires PiecesOk(cfg, nd.pieces)
    requires id !in nd.outbox && id !in nd.inbox && id !in nd.records && id !in nd.pending
    ensures LinkOk(cfg, OnJoin(cfg, nd, id, now), id)
  {
    var nd' := OnJoin(cfg, nd, id, now);
    var bits := BitfieldOf(nd.pieces.Keys, cfg.numPieces);
    var s := nd'.outbox[id];
    BitfieldOfBits(nd.pieces.Keys, cfg.numPieces);
    forall i: nat | i in nd.pieces
      ensures Told(s, i)
    {
      ToldByLast([], Bitfield(bits), i);
      assert [] + s == s;
    }
    assert s[..0] == [];
  }

  // ----- an unchoke round -----

  lemma RoundFlags(before: Table, clock: PeerId -> real, top: set<PeerId>, after: Table, y: PeerId)
    requires Round(before, clock, top, after) && y in before.states
    ensures after.states.Keys == before.states.Keys
    ensures after.states[y].peerChoking == before.states[y].peerChoking
    ensures after.states[y].peerInterested == before.states[y].peerInterested
  {
  }

  lemma LinkNotified(cfg: Config, nd: Node, after: Table, y: PeerId)
    requires y in nd.outbox && y in nd.table.states && y in after.states && LinkOk(cfg, nd, y)
    requires after.states[y].peerChoking == nd.table.states[y].peerChoking
    requires after.states[y].peerInterested == nd.table.states[y].peerInterested
    ensures y in OnRound(nd, after).outbox && LinkOk(cfg, OnRound(nd, after), y)
  {
    var s := nd.outbox[y];
    var ms := Notice(nd.table.states[y].amChoking, after.states[y].amChoking);
    assert OnRound(nd, after).outbox[y] == s + ms;
    if ms == [] {
      assert s + ms == s;
    } else {
      TruthfulAppend(cfg, nd.pieces, s, ms[0]);
      AlternatesAppend(s, ms[0]);
      LastMessage(s, ms[0], cfg.numPieces);
      ToldLater(s, ms);
    }
  }

  lemma RoundTables(cfg: Config, nd: Node, clock: PeerId -> real, top: set<PeerId>, after: Table)
    requires TablesOk(cfg, nd) && Round(nd.table, clock, top, after)
    ensures TablesOk(cfg, OnRound(nd, after))
  {
    RoundUnchokes(nd.table, clock, top, after);
    assert OnRound(nd, after).outbox.Keys == nd.outbox.Keys;
  }

  lemma RoundKeeps(cfg: Config, nd: Node, clock: PeerId -> real, top: set<PeerId>, after: Table)
    requires NodeOk(cfg, nd)
    requires Round(nd.table, clock, top, after)
    ensures NodeOk(cfg, OnRound(nd, after))
  {
    RoundTables(cfg, nd, clock, top, after);
    forall y | y in nd.outbox
      ensures LinkOk(cfg, OnRound(nd, after), y)
    {
      assert LinkOk(cfg, nd, y);
      RoundFlags(nd.table, clock, top, after, y);
      LinkNotified(cfg, nd, after, y);
    }
  }

  // ----- the rest of handlePiece -----

  // One announcement sent: the receiver's link gains it, and no other link is owed more.
  lemma LinkAnnounced(cfg: Config, nd: Node, m: Message, to: PeerId, next: Task, y: PeerId)
    requires to in nd.outbox && y in nd.outbox && y in nd.table.states && LinkOk(cfg, nd, y)
    requires m.Have? || (m.Bitfield? && m.bits == BitfieldOf(nd.pieces.Keys, cfg.numPieces))
    requires Honest(cfg, nd.pieces, m)
    requires forall z, i: nat :: Owes(nd.task, z, i) ==> Owes(next, z, i) || (z == to && Tells(m, i))
    ensures LinkOk(cfg, Sent(nd, to, [m]).(task := next), y)
  {
    var nd' := Sent(nd, to, [m]).(task := next);
    if y == to {
      var s := nd.outbox[y];
      TruthfulAppend(cfg, nd.pieces, s, m);
      AlternatesAppend(s, m);
      LastMessage(s, m, cfg.numPieces);
      ToldLater(s, [m]);
      forall i: nat | i in nd.pieces
        ensures Told(s + [m], i) || Owes(next, y, i)
      {
        if Owes(nd.task, y, i) && !Owes(next, y, i) {
          ToldByLast(s, m, i);
        }
      }
    } else {
      assert nd'.outbox[y] == nd.outbox[y];
    }
  }

  lemma AnnouncedKeeps(cfg: Config, nd: Node, m: Message, to: PeerId, next: Task)
    requires NodeOk(cfg, nd) && to in nd.outbox && TaskOk(cfg, nd.(task := next))
    requires m.Have? || (m.Bitfield? && m.bits == BitfieldOf(nd.pieces.Keys, cfg.numPieces))
    requires Honest(cfg, nd.pieces, m)
    requires forall z, i: nat :: Owes(nd.task, z, i) ==> Owes(next, z, i) || (z == to && Tells(m, i))
    ensures NodeOk(cfg, Sent(nd, to, [m]).(task := next))
  {
    var nd' := Sent(nd, to, [m]).(task := next);
    assert TablesOk(cfg, nd');
    forall y | y in nd'.outbox
      ensures LinkOk(cfg, nd', y)
    {
      assert LinkOk(cfg, nd, y);
      LinkAnnounced(cfg, nd, m, to, next, y);
    }
  }

  lemma TaskMovesOn(cfg: Config, nd: Node, next: Task)
    requires NodeOk(cfg, nd) && TaskOk(cfg, nd.(task := next))
    requires forall y, i: nat :: y in nd.outbox && Owes(nd.task, y, i) ==> Owes(next, y, i)
    ensures NodeOk(cfg, nd.(task := next))
  {
    var nd' := nd.(task := next);
    assert TablesOk(cfg, nd');
    forall y | y in nd'.outbox
      ensures LinkOk(cfg, nd', y)
    {
      assert LinkOk(cfg, nd, y);
      assert forall i: nat :: Owes(nd.task, y, i) ==> Owes(next, y, i);
    }
  }

  lemma SendHaveKeeps(cfg: Config, nd: Node, to: PeerId)
    requires NodeOk(cfg, nd) && nd.task.SendingHave? && to in nd.task.todo
    ensures NodeOk(cfg, Progress(cfg, nd, to))
  {
    var i, todo := nd.task.index, nd.task.todo;
    AnnouncedKeeps(cfg, nd, Have(i), to, SendingHave(i, todo - {to}));
  }

  lemma SendBitfieldKeeps(cfg: Config, nd: Node, to: PeerId)
    requires NodeOk(cfg, nd) && nd.task.SendingBitfield? && to in nd.task.todo
    ensures NodeOk(cfg, Progress(cfg, nd, to))
  {
    var bits, todo := nd.task.bits, nd.task.todo;
    BitfieldOfBits(nd.pieces.Keys, cfg.numPieces);
    AnnouncedKeeps(cfg, nd, Bitfield(bits), to, SendingBitfield(bits, todo - {to}));
  }

  lemma SentNothing(nd: Node, to: PeerId)
    ensures Sent(nd, to, []) == nd
  {
    if to in nd.outbox {
      assert nd.outbox[to] + [] == nd.outbox[to];
    }
    assert Sent(nd, to, []).outbox == nd.outbox;
  }

  lemma ProgressKeeps(cfg: Config, nd: Node, to: PeerId)
    requires NodeOk(cfg, nd) && Enabled(cfg, nd, Continue(to))
    ensures NodeOk(cfg, Progress(cfg, nd, to))
  {
    if nd.task.SendingHave? && nd.task.todo != {} {
      SendHaveKeeps(cfg, nd, to);
    } else if nd.task.SendingBitfield? && nd.task.todo != {} {
      SendBitfieldKeeps(cfg, nd, to);
    } else {
      SentNothing(nd, to);
      TaskMovesOn(cfg, nd, NextTask(cfg, nd, to));
    }
  }

  // ----- runs -----

  /** Every step a node can take keeps the invariant, whatever a peer may send it. */
  lemma StepKeeps(cfg: Config, nd: Node, e: Event)
    requires NodeOk(cfg, nd) && Enabled(cfg, nd, e)
    ensures NodeOk(cfg, Step(cfg, nd, e))
  {
    match e
    case Deliver(from, m, order) =>
      if m.SendPiece? {
        PieceKeeps(cfg, nd, from, m.index, m.data);
      } else {
        AnswerKeeps(cfg, nd, from, m, order);
      }
    case Join(id, now) => JoinKeeps(cfg, nd, id, now);
    case Tick(clock, top, after) => RoundKeeps(cfg, nd, clock, top, after);
    case Continue(to) => ProgressKeeps(cfg, nd, to);
  }

  lemma FreshIsOk(cfg: Config, pieces: Pieces)
    requires PiecesOk(cfg, pieces)
    ensures NodeOk(cfg, Fresh(pieces))
  {
    assert UnchokedPeers(map[]) == {};
  }
}
