/** Runs of one node that lead where one may not expect: the inputs behind the conditions of the run theorems. */
module NodeExamples {
  import opened Bytes
  import opened Bitfields
  import opened Messages
  import opened PieceStore
  import opened PeerStates
  import opened Unchoking
  import opened Nodes
  import opened NodeInvariant
  import opened NodeRuns

  lemma RunNext(cfg: Config, pieces: Pieces, events: seq<Event>, e: Event)
    ensures After(cfg, pieces, events + [e]) == Step(cfg, After(cfg, pieces, events), e)
    ensures CanRun(cfg, pieces, events + [e]) <==>
      CanRun(cfg, pieces, events) && Enabled(cfg, After(cfg, pieces, events), e)
  {
    assert (events + [e])[..|events|] == events;
  }

  // A run has led a node with one peer to this history of that peer's outbox and this task.
  ghost predicate Reached(cfg: Config, pieces: Pieces, events: seq<Event>, id: PeerId, log: seq<Message>, task: Task) {
    var nd := After(cfg, pieces, events);
    && CanRun(cfg, pieces, events)
    && nd.outbox == map[id := log] && nd.task == task && nd.pieces == pieces
  }

  function TaskAfter(cfg: Config, pieces: Pieces, id: PeerId, task: Task): Task {
    NextTask(cfg, Fresh(pieces).(outbox := map[id := []], task := task), id)
  }

  lemma ReachContinue(cfg: Config, pieces: Pieces, events: seq<Event>, id: PeerId, log: seq<Message>, task: Task,
                      next: Task)
    returns (more: seq<Event>)
    requires Reached(cfg, pieces, events, id, log, task)
    requires !task.Idle? && (task.SendingHave? || task.SendingBitfield? ==> task.todo <= {id})
    requires next == TaskAfter(cfg, pieces, id, task)
    ensures Reached(cfg, pieces, more, id, log + Announcement(task), next)
  {
    more := events + [Continue(id)];
    RunNext(cfg, pieces, events, Continue(id));
    var nd := After(cfg, pieces, events);
    assert Sent(nd, id, Announcement(task)).outbox == map[id := log + Announcement(task)];
    assert nd.outbox.Keys == {id};
  }

  lemma ReachAlone(cfg: Config, pieces: Pieces, id: PeerId, now: real) returns (events: seq<Event>)
    ensures Reached(cfg, pieces, events, id, [Bitfield(BitfieldOf(pieces.Keys, cfg.numPieces))], Idle)
  {
    RunNext(cfg, pieces, [], Join(id, now));
    events := [] + [Join(id, now)];
  }

  // Data past the end of the torrent passes a check without hashes, and is not stored.
  lemma ReachPhantom(cfg: Config, pieces: Pieces, events: seq<Event>, id: PeerId, log: seq<Message>, i: nat)
    returns (more: seq<Event>)
    requires Reached(cfg, pieces, events, id, log, Idle) && cfg.hashes.None? && cfg.numPieces <= i < UINT32
    ensures Reached(cfg, pieces, more, id, log, AnnounceHave(i))
  {
    var e := Deliver(id, SendPiece(i, []), []);
    more := events + [e];
    RunNext(cfg, pieces, events, e);
  }

  // The announcement of a piece, up to the check for completeness.
  lemma ReachHaveSent(cfg: Config, pieces: Pieces, events: seq<Event>, id: PeerId, log: seq<Message>, i: nat)
    returns (more: seq<Event>)
    requires Reached(cfg, pieces, events, id, log, AnnounceHave(i))
    ensures Reached(cfg, pieces, more, id, log + [Have(i)], Checking)
  {
    assert log + [] == log && {id} - {id} == {};
    more := ReachContinue(cfg, pieces, events, id, log, AnnounceHave(i), SendingHave(i, {id}));
    more := ReachContinue(cfg, pieces, more, id, log, SendingHave(i, {id}), SendingHave(i, {}));
    var sent := log + [Have(i)];
    assert sent + [] == sent;
    more := ReachContinue(cfg, pieces, more, id, sent, SendingHave(i, {}), Checking);
  }

  // The bitfield that follows while pieces are missing.
  lemma ReachBitfieldSent(cfg: Config, pieces: Pieces, events: seq<Event>, id: PeerId, log: seq<Message>)
    returns (more: seq<Event>)
    requires Reached(cfg, pieces, events, id, log, Checking) && |pieces| != cfg.numPieces
    ensures Reached(cfg, pieces, more, id, log + [Bitfield(BitfieldOf(pieces.Keys, cfg.numPieces))], Idle)
  {
    var bits := BitfieldOf(pieces.Keys, cfg.numPieces);
    assert log + [] == log && {id} - {id} == {};
    more := ReachContinue(cfg, pieces, events, id, log, Checking, AnnounceBitfield(bits));
    more := ReachContinue(cfg, pieces, more, id, log, AnnounceBitfield(bits), SendingBitfield(bits, {id}));
    more := ReachContinue(cfg, pieces, more, id, log, SendingBitfield(bits, {id}), SendingBitfield(bits, {}));
    var sent := log + [Bitfield(bits)];
    assert sent + [] == sent;
    more := ReachContinue(cfg, pieces, more, id, sent, SendingBitfield(bits, {}), Idle);
  }

  // A node without hashes for a torrent of one piece, whose one peer sends it a second piece.
  lemma PhantomHave(sha1: Bytes -> Digest, pieces: Pieces, id: PeerId, now: real) returns (events: seq<Event>)
    ensures var log := [Bitfield(BitfieldOf(pieces.Keys, 1)), Have(1)];
            Reached(Config(1, None, sha1), pieces, events, id, log, Checking)
  {
    var cfg, log := Config(1, None, sha1), [Bitfield(BitfieldOf(pieces.Keys, 1))];
    events := ReachAlone(cfg, pieces, id, now);
    events := ReachPhantom(cfg, pieces, events, id, log, 1);
    events := ReachHaveSent(cfg, pieces, events, id, log, 1);
    assert log + [Have(1)] == [log[0], Have(1)];
  }

  /**
   A run of a complete node without hashes that ends idle, having told its peer of a piece it does
   not hold: the record the peer makes of it is not the node's bitfield.
   */
  lemma UntruthfulHaveExample(sha1: Bytes -> Digest, id: PeerId, now: real) returns (events: seq<Event>)
    ensures var cfg := Config(1, None, sha1);
            var nd := After(cfg, map[0 := []], events);
            && CanRun(cfg, map[0 := []], events)
            && nd.task.Idle? && id in nd.outbox && Have(1) in nd.outbox[id] && 1 !in nd.pieces
            && Record(nd.outbox[id], 1) != Some(BitfieldOf(nd.pieces.Keys, 1))
  {
    var cfg, pieces := Config(1, None, sha1), map[0 := []];
    var log := [Bitfield(BitfieldOf(pieces.Keys, 1)), Have(1)];
    events := PhantomHave(sha1, pieces, id, now);
    events := ReachContinue(cfg, pieces, events, id, log, Checking, Idle);
    assert log + [] == log && log[1] == Have(1);
    PhantomRecord(pieces.Keys);
  }

  // The bit that the phantom Have puts on record.
  lemma PhantomRecord(held: set<int>)
    requires 1 !in held
    ensures var s := [Bitfield(BitfieldOf(held, 1)), Have(1)];
            && Record(s, 1).Some? && HasBit(Record(s, 1).value, 1) && !HasBit(BitfieldOf(held, 1), 1)
  {
    var first := Bitfield(BitfieldOf(held, 1));
    BitfieldOfBits(held, 1);
    SetBitHasBit(BitfieldOf(held, 1), 1, 1);
    assert [first, Have(1)][..1] == [first];
  }

  lemma BitfieldAfterHave(sha1: Bytes -> Digest, id: PeerId, now: real) returns (events: seq<Event>)
    ensures var first := Bitfield(BitfieldOf({}, 1));
            Reached(Config(1, None, sha1), map[], events, id, [first, Have(1), first], Idle)
  {
    var cfg, pieces: Pieces := Config(1, None, sha1), map[];
    var first := Bitfield(BitfieldOf({}, 1));
    assert pieces.Keys == {};
    events := PhantomHave(sha1, pieces, id, now);
    events := ReachBitfieldSent(cfg, pieces, events, id, [first, Have(1)]);
    assert [first, Have(1)] + [first] == [first, Have(1), first];
  }

  /** A run of an incomplete node without hashes whose peer's record loses a bit again. */
  lemma RecordShrinksExample(sha1: Bytes -> Digest, id: PeerId, now: real) returns (events: seq<Event>)
    ensures var cfg := Config(1, None, sha1);
            var nd := After(cfg, map[], events);
            && CanRun(cfg, map[], events)
            && nd.task.Idle? && id in nd.outbox && |nd.outbox[id]| == 3
            && Record(nd.outbox[id][..2], 1).Some? && HasBit(Record(nd.outbox[id][..2], 1).value, 1)
            && Record(nd.outbox[id], 1).Some? && !HasBit(Record(nd.outbox[id], 1).value, 1)
  {
    var first := Bitfield(BitfieldOf({}, 1));
    events := BitfieldAfterHave(sha1, id, now);
    PhantomRecord({});
    assert [first, Have(1), first][..2] == [first, Have(1)];
  }

  // ----- an uninterested peer that stays unchoked -----

  // A run has led a node to this table, with its loop between handlers.
  ghost predicate TableReached(cfg: Config, events: seq<Event>, table: Table) {
    var nd := After(cfg, map[], events);
    && CanRun(cfg, map[], events)
    && nd.table == table && nd.outbox.Keys == table.states.Keys && nd.task.Idle?
  }

  lemma ReachJoin(cfg: Config, events: seq<Event>, table: Table, id: PeerId, now: real) returns (more: seq<Event>)
    requires TableReached(cfg, events, table) && id !in table.states
    ensures TableReached(cfg, more, table.(states := table.states[id := NewView(now)]))
  {
    more := events + [Join(id, now)];
    RunNext(cfg, map[], events, Join(id, now));
  }

  lemma ReachInterest(cfg: Config, events: seq<Event>, table: Table, id: PeerId, interested: bool)
    returns (more: seq<Event>)
    requires TableReached(cfg, events, table) && id in table.states
    ensures TableReached(cfg, more,
      table.(states := table.states[id := table.states[id].(peerInterested := interested)]))
  {
    var e := Deliver(id, if interested then Interested else NotInterested, []);
    more := events + [e];
    RunNext(cfg, map[], events, e);
  }

  lemma ReachRound(cfg: Config, events: seq<Event>, table: Table, clock: PeerId -> real, top: set<PeerId>, after: Table)
    returns (more: seq<Event>)
    requires TableReached(cfg, events, table) && Round(table, clock, top, after)
    ensures TableReached(cfg, more, after)
  {
    more := events + [Tick(clock, top, after)];
    RunNext(cfg, map[], events, Tick(clock, top, after));
  }

  lemma ReachInterested(cfg: Config, events: seq<Event>, table: Table, id: PeerId) returns (more: seq<Event>)
    requires TableReached(cfg, events, table) && id !in table.states
    ensures TableReached(cfg, more, table.(states := table.states[id := Known(true, true)]))
  {
    more := ReachJoin(cfg, events, table, id, 0.0);
    var joined := table.(states := table.states[id := NewView(0.0)]);
    more := ReachInterest(cfg, more, joined, id, true);
    assert joined.states[id := Known(true, true)] == table.states[id := Known(true, true)];
  }

  lemma ReachFourInterested(cfg: Config) returns (events: seq<Event>)
    ensures TableReached(cfg, events, Table(FourPeers(Known(true, true), Known(true, true)), ZERO_ID, 0))
  {
    var v := Known(true, true);
    events := [];
    events := ReachInterested(cfg, events, Table(map[], ZERO_ID, 0), 1);
    events := ReachInterested(cfg, events, Table(map[1 := v], ZERO_ID, 0), 2);
    events := ReachInterested(cfg, events, Table(map[1 := v, 2 := v], ZERO_ID, 0), 3);
    events := ReachInterested(cfg, events, Table(map[1 := v, 2 := v, 3 := v], ZERO_ID, 0), 4);
    assert map[1 := v, 2 := v, 3 := v][4 := v] == FourPeers(v, v);
  }

  lemma ReachFourUnchoked(cfg: Config) returns (events: seq<Event>)
    ensures TableReached(cfg, events, Table(FourPeers(Known(false, true), Known(false, true)), 4, 1))
  {
    var interested := Table(FourPeers(Known(true, true), Known(true, true)), ZERO_ID, 0);
    var unchoked := Table(FourPeers(Known(false, true), Known(false, true)), 4, 1);
    events := ReachFourInterested(cfg);
    FirstRound();
    events := ReachRound(cfg, events, interested, Midnight, {1, 2, 3}, unchoked);
  }

  lemma ReachFallen(cfg: Config) returns (events: seq<Event>)
    ensures TableReached(cfg, events, Table(FourPeers(Known(false, true), Known(false, false)), 4, 1))
  {
    var unchoked := Table(FourPeers(Known(false, true), Known(false, true)), 4, 1);
    events := ReachFourUnchoked(cfg);
    events := ReachInterest(cfg, events, unchoked, 4, false);
    assert unchoked.states[4 := Known(false, false)] == FourPeers(Known(false, true), Known(false, false));
  }

  /** A run of any node that ends in a round after which a peer that is not interested is unchoked. */
  lemma UninterestedUnchokedExample(cfg: Config) returns (events: seq<Event>, tick: Event)
    ensures CanRun(cfg, map[], events + [tick]) && tick.Tick?
    ensures var states := After(cfg, map[], events + [tick]).table.states;
            4 in UnchokedPeers(states) && 4 !in InterestedPeers(states)
  {
    events := ReachFallen(cfg);
    SecondRound();
    var states := FourPeers(Known(false, true), Known(false, false));
    tick := Tick(Midnight, {1, 2, 3}, Table(states, 4, 2));
    RunNext(cfg, map[], events, tick);
  }
}
