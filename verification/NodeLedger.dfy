/** What a node's counters say of its history: bytes up and down are the pieces sent and accepted, windows are closed by
    rounds only, and rounds are counted. */
module NodeLedgers {
  import opened Bytes
  import opened Messages
  import opened PieceStore
  import opened PeerStates
  import opened Unchoking
  import opened Nodes
  import opened NodeInvariant
  import opened NodeSteps
  import opened NodeRuns

  // The data of the pieces sent.
  function BytesSent(s: seq<Message>): nat {
    if s == [] then 0
    else
      var last := s[|s| - 1];
      BytesSent(s[..|s| - 1]) + (if last.SendPiece? then |last.data| else 0)
  }

  // The data of the pieces received that verified.
  function BytesAccepted(cfg: Config, t: seq<Message>): nat {
    if t == [] then 0
    else
      var last := t[|t| - 1];
      BytesAccepted(cfg, t[..|t| - 1])
        + (if last.SendPiece? && Verifies(cfg, last.index, last.data) then |last.data| else 0)
  }

  lemma BytesPush(cfg: Config, s: seq<Message>, m: Message)
    ensures BytesSent(s + [m]) == BytesSent(s) + (if m.SendPiece? then |m.data| else 0)
    ensures BytesAccepted(cfg, s + [m])
         == BytesAccepted(cfg, s) + (if m.SendPiece? && Verifies(cfg, m.index, m.data) then |m.data| else 0)
  {
    assert (s + [m])[..|s|] == s;
  }

  lemma {:induction false} NoDataSent(cfg: Config, s: seq<Message>, ms: seq<Message>)
    requires forall m :: m in ms ==> !m.SendPiece?
    ensures BytesSent(s + ms) == BytesSent(s)
  {
    if ms == [] {
      assert s + ms == s;
    } else {
      var front, last := ms[..|ms| - 1], ms[|ms| - 1];
      NoDataSent(cfg, s, front);
      BytesPush(cfg, s + front, last);
      assert s + ms == s + front + [last];
    }
  }

  ghost predicate EntryOk(cfg: Config, nd: Node, y: PeerId)
    requires y in nd.table.states
  {
    && nd.table.states[y].up.total == BytesSent(Log(nd.outbox, y))
    && nd.table.states[y].down.total == BytesAccepted(cfg, Log(nd.inbox, y))
  }

  ghost predicate LedgerOk(cfg: Config, nd: Node) {
    forall y {:trigger EntryOk(cfg, nd, y)} :: y in nd.table.states ==> EntryOk(cfg, nd, y)
  }

  // The rates, snapshots and window of a peer, which only a round changes.
  predicate SameWindow(v: PeerView, w: PeerView) {
    && w.up.snapshot == v.up.snapshot && w.up.rate == v.up.rate
    && w.down.snapshot == v.down.snapshot && w.down.rate == v.down.rate
    && w.lastStatTime == v.lastStatTime && w.amInterested == v.amInterested
  }

  // ----- messages other than pieces -----

  // The bytes a message makes a node send its sender.
  function Served(nd: Node, from: PeerId, m: Message): nat {
    if m.RequestPiece? && from in UnchokedPeers(nd.table.states) && m.index in nd.pieces then |nd.pieces[m.index]|
    else 0
  }

  // The peer's counters with this much more sent, in the same window.
  predicate Counts(nd: Node, nd': Node, y: PeerId, sent: nat)
    requires y in nd.table.states
  {
    && y in nd'.table.states
    && nd'.table.states[y].up.total == nd.table.states[y].up.total + sent
    && nd'.table.states[y].down.total == nd.table.states[y].down.total
    && SameWindow(nd.table.states[y], nd'.table.states[y])
  }

  lemma RequestCounts(nd: Node, from: PeerId, i: nat, y: PeerId)
    requires from in nd.outbox && y in nd.table.states
    ensures Counts(nd, OnRequest(nd, from, i), y, if y == from then Served(nd, from, RequestPiece(i)) else 0)
  {
  }

  lemma UnchokeCounts(nd: Node, from: PeerId, y: PeerId)
    requires y in nd.table.states
    ensures Counts(nd, OnUnchoke(nd, from), y, 0)
  {
    SendPendingCounts(OnChoking(nd, from, false), from);
  }

  lemma AnswerCounts(cfg: Config, nd: Node, from: PeerId, m: Message, order: seq<nat>, y: PeerId)
    requires !m.SendPiece? && from in nd.outbox && y in nd.table.states
    ensures Counts(nd, Handle(cfg, Received(nd, from, m), from, m, order), y,
                   if y == from then Served(nd, from, m) else 0)
  {
    var rc := Received(nd, from, m);
    match m
    case RequestPiece(i) => RequestCounts(rc, from, i, y);
    case Bitfield(bits) => assert OnBitfield(rc, from, bits, order).table == rc.table;
    case Unchoke => UnchokeCounts(rc, from, y);
    case _ =>
  }

  lemma SendPendingCounts(nd: Node, from: PeerId)
    ensures SendPending(nd, from).table == nd.table
  {
  }

  lemma AnswerSends(cfg: Config, nd: Node, from: PeerId, m: Message, order: seq<nat>)
    requires !m.SendPiece? && from in nd.outbox && from in nd.table.states
    ensures var nd' := Handle(cfg, Received(nd, from, m), from, m, order);
            && from in nd'.outbox
            && BytesSent(nd'.outbox[from]) == BytesSent(nd.outbox[from]) + Served(nd, from, m)
  {
    var s, ms := nd.outbox[from], Answer(nd, from, m, order);
    HandlerAnswers(cfg, nd, from, m, order);
    if ms != [] && m.RequestPiece? {
      BytesPush(cfg, s, ms[0]);
    } else {
      NoDataSent(cfg, s, ms);
    }
  }

  lemma SenderEntry(cfg: Config, nd: Node, from: PeerId, m: Message, order: seq<nat>)
    requires !m.SendPiece? && from in nd.outbox && from in nd.table.states && EntryOk(cfg, nd, from)
    ensures var nd' := Handle(cfg, Received(nd, from, m), from, m, order);
            from in nd'.table.states && EntryOk(cfg, nd', from)
  {
    AnswerCounts(cfg, nd, from, m, order, from);
    AnswerSends(cfg, nd, from, m, order);
    AnswerInbox(cfg, nd, from, m, order);
    BytesPush(cfg, Log(nd.inbox, from), m);
  }

  lemma AnswerInbox(cfg: Config, nd: Node, from: PeerId, m: Message, order: seq<nat>)
    requires !m.SendPiece?
    ensures Log(Handle(cfg, Received(nd, from, m), from, m, order).inbox, from) == Log(nd.inbox, from) + [m]
  {
    AnswersKeys(cfg, nd, from, m, order);
  }

  lemma OtherEntry(cfg: Config, nd: Node, from: PeerId, m: Message, order: seq<nat>, y: PeerId)
    requires !m.SendPiece? && from in nd.table.states && from in nd.outbox && y != from
    requires y in nd.outbox && y in nd.table.states && EntryOk(cfg, nd, y)
    ensures var nd' := Handle(cfg, Received(nd, from, m), from, m, order);
            y in nd'.table.states && EntryOk(cfg, nd', y)
  {
    AnswerCounts(cfg, nd, from, m, order, y);
    OtherLinkSame(cfg, nd, from, m, order, y);
  }

  lemma AnswerEntry(cfg: Config, nd: Node, from: PeerId, m: Message, order: seq<nat>, y: PeerId)
    requires nd.table.states.Keys == nd.outbox.Keys
    requires !m.SendPiece? && from in nd.outbox && y in nd.outbox && EntryOk(cfg, nd, y)
    ensures var nd' := Handle(cfg, Received(nd, from, m), from, m, order);
            y in nd'.table.states && EntryOk(cfg, nd', y)
  {
    if y == from {
      SenderEntry(cfg, nd, from, m, order);
    } else {
      OtherEntry(cfg, nd, from, m, order, y);
    }
  }

  // ----- a received piece -----

  lemma PieceCounts(cfg: Config, nd: Node, from: PeerId, i: nat, data: Bytes, y: PeerId)
    requires y in nd.table.states
    ensures var nd' := OnPiece(cfg, Received(nd, from, SendPiece(i, data)), from, i, data);
            && y in nd'.table.states && nd'.table.states[y].up == nd.table.states[y].up
            && nd'.table.states[y].down.total
               == nd.table.states[y].down.total + (if y == from && Verifies(cfg, i, data) then |data| else 0)
            && SameWindow(nd.table.states[y], nd'.table.states[y])
  {
  }

  lemma PieceLogs(cfg: Config, nd: Node, from: PeerId, i: nat, data: Bytes, y: PeerId)
    ensures var nd' := OnPiece(cfg, Received(nd, from, SendPiece(i, data)), from, i, data);
            && nd'.outbox == nd.outbox
            && Log(nd'.inbox, y) == (if y == from then Log(nd.inbox, y) + [SendPiece(i, data)] else Log(nd.inbox, y))
  {
  }

  lemma PieceEntry(cfg: Config, nd: Node, from: PeerId, i: nat, data: Bytes, y: PeerId)
    requires from in nd.outbox && y in nd.table.states && EntryOk(cfg, nd, y)
    ensures var nd' := OnPiece(cfg, Received(nd, from, SendPiece(i, data)), from, i, data);
            y in nd'.table.states && EntryOk(cfg, nd', y)
  {
    PieceCounts(cfg, nd, from, i, data, y);
    PieceLogs(cfg, nd, from, i, data, y);
    BytesPush(cfg, Log(nd.inbox, y), SendPiece(i, data));
  }

  // ----- joins, rounds and broadcasts -----

  /** A peer that joins counts from nothing, choked both ways, and its window starts then. */
  lemma JoinStarts(cfg: Config, nd: Node, id: PeerId, now: real)
    requires id !in nd.outbox
    ensures var nd' := Step(cfg, nd, Join(id, now));
            && nd'.table.states.Keys == nd.table.states.Keys + {id}
            && (var v := nd'.table.states[id];
                && v.up.total == v.up.snapshot == v.down.total == v.down.snapshot == 0
                && v.up.rate == v.down.rate == 0.0 && v.lastStatTime == now
                && v.amChoking && v.peerChoking && !v.amInterested && !v.peerInterested)
  {
  }

  lemma JoinEntry(cfg: Config, nd: Node, id: PeerId, now: real, y: PeerId)
    requires TablesOk(cfg, nd) && (y in nd.table.states ==> EntryOk(cfg, nd, y))
    requires y in OnJoin(cfg, nd, id, now).table.states
    ensures EntryOk(cfg, OnJoin(cfg, nd, id, now), y)
  {
    var nd' := OnJoin(cfg, nd, id, now);
    if id !in nd.outbox && y == id {
      assert nd'.outbox[id][..0] == [];
    } else {
      assert Log(nd'.outbox, y) == Log(nd.outbox, y);
    }
  }

  lemma RoundEntry(cfg: Config, nd: Node, clock: PeerId -> real, top: set<PeerId>, after: Table, y: PeerId)
    requires y in nd.table.states && y in nd.outbox && Round(nd.table, clock, top, after) && EntryOk(cfg, nd, y)
    ensures y in after.states && EntryOk(cfg, OnRound(nd, after), y)
  {
    RoundMeters(nd.table, clock, top, after, y);
    NoticeEntry(cfg, nd, after, y);
  }

  lemma NoticeEntry(cfg: Config, nd: Node, after: Table, y: PeerId)
    requires y in nd.table.states && y in after.states && y in nd.outbox && EntryOk(cfg, nd, y)
    requires after.states[y].up.total == nd.table.states[y].up.total
    requires after.states[y].down.total == nd.table.states[y].down.total
    ensures EntryOk(cfg, OnRound(nd, after), y)
  {
    NoDataSent(cfg, nd.outbox[y], Notice(nd.table.states[y].amChoking, after.states[y].amChoking));
  }

  lemma ProgressEntry(cfg: Config, nd: Node, to: PeerId, y: PeerId)
    requires y in nd.table.states && EntryOk(cfg, nd, y)
    ensures EntryOk(cfg, Progress(cfg, nd, to), y)
  {
    NoDataSent(cfg, Log(nd.outbox, y), Announcement(nd.task));
    assert Log(nd.outbox, y) + [] == Log(nd.outbox, y);
  }

  // ----- over runs -----

  lemma StepEntry(cfg: Config, nd: Node, e: Event, y: PeerId)
    requires NodeOk(cfg, nd) && Enabled(cfg, nd, e) && LedgerOk(cfg, nd)
    requires y in Step(cfg, nd, e).table.states
    ensures EntryOk(cfg, Step(cfg, nd, e), y)
  {
    assert y in nd.table.states ==> EntryOk(cfg, nd, y);
    match e
    case Deliver(from, m, order) =>
      if m.SendPiece? {
        PieceLink(cfg, nd, from, m.index, m.data, from);
        PieceStates(cfg, nd, from, m.index, m.data);
        PieceEntry(cfg, nd, from, m.index, m.data, y);
      } else {
        AnswersKeys(cfg, nd, from, m, order);
        AnswerEntry(cfg, nd, from, m, order, y);
      }
    case Join(id, now) => JoinEntry(cfg, nd, id, now, y);
    case Tick(clock, top, after) => RoundEntry(cfg, nd, clock, top, after, y);
    case Continue(to) => ProgressEntry(cfg, nd, to, y);
  }

  lemma PieceStates(cfg: Config, nd: Node, from: PeerId, i: nat, data: Bytes)
    requires from in nd.table.states
    ensures OnPiece(cfg, Received(nd, from, SendPiece(i, data)), from, i, data).table.states.Keys
         == nd.table.states.Keys
  {
  }

  lemma {:induction false} RunKeepsLedger(cfg: Config, pieces: Pieces, events: seq<Event>)
    requires PiecesOk(cfg, pieces) && CanRun(cfg, pieces, events)
    ensures LedgerOk(cfg, After(cfg, pieces, events))
  {
    if events != [] {
      var front, e := events[..|events| - 1], events[|events| - 1];
      RunKeepsLedger(cfg, pieces, front);
      NodeRunKeeps(cfg, pieces, front);
      var nd := After(cfg, pieces, front);
      forall y | y in Step(cfg, nd, e).table.states
        ensures EntryOk(cfg, Step(cfg, nd, e), y)
      {
        StepEntry(cfg, nd, e, y);
      }
    }
  }

  /**
   After any run a peer's upload total is the data of the pieces sent to it, and its download total
   the data of the pieces from it that verified.
   */
  lemma {:induction false} TotalsAreHistory(cfg: Config, pieces: Pieces, events: seq<Event>, y: PeerId)
    requires PiecesOk(cfg, pieces) && CanRun(cfg, pieces, events)
    requires y in After(cfg, pieces, events).outbox
    ensures var nd := After(cfg, pieces, events);
            && y in nd.table.states
            && nd.table.states[y].up.total == BytesSent(nd.outbox[y])
            && nd.table.states[y].down.total == BytesAccepted(cfg, Log(nd.inbox, y))
  {
    NodeRunKeeps(cfg, pieces, events);
    RunKeepsLedger(cfg, pieces, events);
    assert EntryOk(cfg, After(cfg, pieces, events), y);
  }

  /** Nothing but a round closes a peer's window or changes a rate. */
  lemma OnlyRoundsClose(cfg: Config, nd: Node, e: Event, y: PeerId)
    requires TablesOk(cfg, nd) && Enabled(cfg, nd, e) && !e.Tick? && y in nd.table.states
    ensures y in Step(cfg, nd, e).table.states
    ensures SameWindow(nd.table.states[y], Step(cfg, nd, e).table.states[y])
    ensures Step(cfg, nd, e).table.round == nd.table.round
    ensures Step(cfg, nd, e).table.optimistic == nd.table.optimistic
  {
    match e
    case Deliver(from, m, order) =>
      DeliveryKeepsWindow(cfg, nd, from, m, order, y);
      DeliveryKeepsRound(cfg, Received(nd, from, m), from, m, order);
    case Join(id, now) =>
    case Continue(to) => assert Progress(cfg, nd, to).table == nd.table;
  }

  lemma DeliveryKeepsWindow(cfg: Config, nd: Node, from: PeerId, m: Message, order: seq<nat>, y: PeerId)
    requires from in nd.outbox && y in nd.table.states
    ensures var nd' := Handle(cfg, Received(nd, from, m), from, m, order);
            y in nd'.table.states && SameWindow(nd.table.states[y], nd'.table.states[y])
  {
    if m.SendPiece? {
      PieceCounts(cfg, nd, from, m.index, m.data, y);
    } else {
      AnswerCounts(cfg, nd, from, m, order, y);
    }
  }

  lemma DeliveryKeepsRound(cfg: Config, nd: Node, from: PeerId, m: Message, order: seq<nat>)
    ensures var nd' := Handle(cfg, nd, from, m, order);
            nd'.table.round == nd.table.round && nd'.table.optimistic == nd.table.optimistic
  {
    match m
    case Unchoke => SendPendingCounts(OnChoking(nd, from, false), from);
    case RequestPiece(i) => assert OnRequest(nd, from, i).table.round == nd.table.round;
    case SendPiece(i, data) => assert OnPiece(cfg, nd, from, i, data).table.round == nd.table.round;
    case _ =>
  }

  // How many rounds a run has had.
  function Rounds(events: seq<Event>): nat {
    if events == [] then 0
    else Rounds(events[..|events| - 1]) + (if events[|events| - 1].Tick? then 1 else 0)
  }

  lemma StepCountsRound(cfg: Config, nd: Node, e: Event)
    requires Enabled(cfg, nd, e)
    ensures Step(cfg, nd, e).table.round == nd.table.round + (if e.Tick? then 1 else 0)
  {
    match e
    case Deliver(from, m, order) => DeliveryKeepsRound(cfg, Received(nd, from, m), from, m, order);
    case Join(id, now) =>
    case Tick(clock, top, after) => assert OnRound(nd, after).table == after;
    case Continue(to) => assert Progress(cfg, nd, to).table == nd.table;
  }

  /** A node's round number is how many rounds it has run, so every third one picks anew. */
  lemma {:induction false} RoundsAreCounted(cfg: Config, pieces: Pieces, events: seq<Event>)
    requires CanRun(cfg, pieces, events)
    ensures After(cfg, pieces, events).table.round == Rounds(events)
  {
    if events != [] {
      var front := events[..|events| - 1];
      RoundsAreCounted(cfg, pieces, front);
      StepCountsRound(cfg, After(cfg, pieces, front), events[|events| - 1]);
    }
  }
}
