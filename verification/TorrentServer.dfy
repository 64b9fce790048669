/**
 The message handlers of a running node, torrent_server/handler.go and server.go:101-204, as
 methods over the swarm. Each does to the node exactly what the step machine's step does.
 */
module TorrentServers {
  import opened Bytes
  import opened Bitfields
  import opened Framing
  import opened Messages
  import opened PieceStore
  import opened Rarity
  import opened Unchoking
  import opened Swarms
  import opened Nodes
  import opened NodeInvariant
  import opened NodeSteps
  import opened NodeRuns

  // ----- handlePiece without interruption -----

  // What a task still sends peer `id`.
  function Remaining(cfg: Config, pieces: Pieces, task: Task, id: PeerId): seq<Message> {
    var last := if |pieces| == cfg.numPieces then [] else [Bitfield(BitfieldOf(pieces.Keys, cfg.numPieces))];
    match task
    case Idle => []
    case AnnounceHave(i) => [Have(i)] + last
    case SendingHave(i, todo) => (if id in todo then [Have(i)] else []) + last
    case Checking => last
    case AnnounceBitfield(bits) => [Bitfield(bits)]
    case SendingBitfield(bits, todo) => if id in todo then [Bitfield(bits)] else []
  }

  // The node once its task has run to the end with no joins in between.
  function Finish(cfg: Config, nd: Node): Node {
    nd.(task := Idle,
        outbox := map id | id in nd.outbox :: nd.outbox[id] + Remaining(cfg, nd.pieces, nd.task, id))
  }

  lemma RemainingShrinks(cfg: Config, nd: Node, to: PeerId, id: PeerId)
    requires Enabled(cfg, nd, Continue(to)) && id in nd.outbox
    ensures (if id == to then Announcement(nd.task) else []) + Remaining(cfg, nd.pieces, NextTask(cfg, nd, to), id)
         == Remaining(cfg, nd.pieces, nd.task, id)
  {
  }

  lemma FinishAt(cfg: Config, nd: Node, to: PeerId, id: PeerId)
    requires Enabled(cfg, nd, Continue(to)) && id in nd.outbox
    ensures Log(Progress(cfg, nd, to).outbox, id) + Remaining(cfg, nd.pieces, NextTask(cfg, nd, to), id)
         == nd.outbox[id] + Remaining(cfg, nd.pieces, nd.task, id)
  {
    RemainingShrinks(cfg, nd, to, id);
    var rest := Remaining(cfg, nd.pieces, NextTask(cfg, nd, to), id);
    assert nd.outbox[id] + Announcement(nd.task) + rest == nd.outbox[id] + (Announcement(nd.task) + rest);
    assert [] + rest == rest;
  }

  /** Whatever order the peers are served in, the steps of a task lead to the same end. */
  lemma ProgressTowardsFinish(cfg: Config, nd: Node, to: PeerId)
    requires Enabled(cfg, nd, Continue(to))
    ensures Finish(cfg, Progress(cfg, nd, to)) == Finish(cfg, nd)
  {
    forall id | id in nd.outbox
      ensures Finish(cfg, Progress(cfg, nd, to)).outbox[id] == Finish(cfg, nd).outbox[id]
    {
      FinishAt(cfg, nd, to, id);
    }
    assert Finish(cfg, Progress(cfg, nd, to)).outbox == Finish(cfg, nd).outbox;
  }

  lemma IdleIsFinished(cfg: Config, nd: Node)
    requires nd.task.Idle?
    ensures Finish(cfg, nd) == nd
  {
    forall id | id in nd.outbox
      ensures Finish(cfg, nd).outbox[id] == nd.outbox[id]
    {
      assert nd.outbox[id] + [] == nd.outbox[id];
    }
    assert Finish(cfg, nd).outbox == nd.outbox;
  }

  /** However the steps of a task are ordered, a node that becomes idle again is at its finish. */
  lemma {:induction false} UninterruptedTaskFinishes(cfg: Config, nd: Node, tos: seq<PeerId>)
    requires ContinuesTo(cfg, nd, tos).Some? && ContinuesTo(cfg, nd, tos).value.task.Idle?
    ensures ContinuesTo(cfg, nd, tos).value == Finish(cfg, nd)
    decreases |tos|
  {
    if tos == [] {
      IdleIsFinished(cfg, nd);
    } else {
      ProgressTowardsFinish(cfg, nd, tos[0]);
      UninterruptedTaskFinishes(cfg, Progress(cfg, nd, tos[0]), tos[1..]);
    }
  }

  // The node after a run of Continue steps only, each of them enabled.
  ghost function ContinuesTo(cfg: Config, nd: Node, tos: seq<PeerId>): Option<Node>
    decreases |tos|
  {
    if tos == [] then Some(nd)
    else if Enabled(cfg, nd, Continue(tos[0])) then ContinuesTo(cfg, Progress(cfg, nd, tos[0]), tos[1..])
    else None
  }

  // How many steps a task can still take among n peers.
  function StepsLeft(task: Task, n: nat): nat {
    match task
    case Idle => 0
    case AnnounceHave(_) => 5 + 2 * n
    case SendingHave(_, todo) => 4 + n + |todo|
    case Checking => 3 + n
    case AnnounceBitfield(_) => 2 + n
    case SendingBitfield(_, todo) => 1 + |todo|
  }

  lemma NextIsCloser(cfg: Config, nd: Node, to: PeerId)
    requires !nd.task.Idle?
    requires nd.task.SendingHave? || nd.task.SendingBitfield? ==> nd.task.todo == {} || to in nd.task.todo
    ensures StepsLeft(NextTask(cfg, nd, to), |nd.outbox.Keys|) < StepsLeft(nd.task, |nd.outbox.Keys|)
  {
    match nd.task
    case SendingHave(_, todo) => OneLess(todo, to);
    case SendingBitfield(_, todo) => OneLess(todo, to);
    case Checking =>
      var next := NextTask(cfg, nd, to);
      assert next.Idle? || next.AnnounceBitfield?;
    case _ =>
  }

  lemma OneLess(todo: set<PeerId>, to: PeerId)
    ensures to in todo ==> |todo - {to}| == |todo| - 1
  {
  }

  /** A task always has steps that lead to its finish. */
  lemma {:induction false} TaskCanFinish(cfg: Config, nd: Node) returns (tos: seq<PeerId>)
    ensures ContinuesTo(cfg, nd, tos) == Some(Finish(cfg, nd))
    decreases StepsLeft(nd.task, |nd.outbox.Keys|)
  {
    if nd.task.Idle? {
      tos := [];
      IdleIsFinished(cfg, nd);
    } else {
      var to := ZERO_ID;
      if (nd.task.SendingHave? || nd.task.SendingBitfield?) && nd.task.todo != {} {
        to :| to in nd.task.todo;
      }
      NextIsCloser(cfg, nd, to);
      ProgressTowardsFinish(cfg, nd, to);
      var next := Progress(cfg, nd, to);
      assert next.task == NextTask(cfg, nd, to) && next.outbox.Keys == nd.outbox.Keys;
      var later := TaskCanFinish(cfg, next);
      tos := [to] + later;
      assert tos[0] == to && tos[1..] == later;
    }
  }

  lemma {:induction false} ContinuesKeep(cfg: Config, nd: Node, tos: seq<PeerId>)
    requires NodeOk(cfg, nd) && ContinuesTo(cfg, nd, tos).Some?
    ensures NodeOk(cfg, ContinuesTo(cfg, nd, tos).value)
    decreases |tos|
  {
    if tos != [] {
      ProgressKeeps(cfg, nd, tos[0]);
      ContinuesKeep(cfg, Progress(cfg, nd, tos[0]), tos[1..]);
    }
  }

  /** A message handled to the end keeps the node invariant: it is one step of the machine and those of its task. */
  lemma HandledKeeps(cfg: Config, nd: Node, from: PeerId, m: Message, order: seq<nat>)
    requires NodeOk(cfg, nd) && Enabled(cfg, nd, Deliver(from, m, order))
    ensures NodeOk(cfg, Finish(cfg, Handle(cfg, Received(nd, from, m), from, m, order)))
  {
    var handled := Handle(cfg, Received(nd, from, m), from, m, order);
    StepKeeps(cfg, nd, Deliver(from, m, order));
    var tos := TaskCanFinish(cfg, handled);
    ContinuesKeep(cfg, handled, tos);
  }

  // ----- the server -----

  ghost function Outboxes(peers: map<PeerId, Peer>): History {
    map id | id in peers :: peers[id].sent
  }

  lemma OutboxesSend(peers: map<PeerId, Peer>, id: PeerId, m: Message)
    requires id in peers ==> peers[id].Accepts(1)
    ensures id in peers ==>
      Outboxes(peers[id := peers[id].Send(m)]) == Outboxes(peers)[id := Outboxes(peers)[id] + [m]]
  {
  }

  lemma OutboxesJoin(peers: map<PeerId, Peer>, id: PeerId, p: Peer)
    ensures Outboxes(peers[id := p]) == Outboxes(peers)[id := p.sent]
  {
  }

  lemma SendsNothing(nd: Node, to: PeerId)
    ensures Sent(nd, to, Requests([])) == nd
  {
    if to in nd.outbox {
      assert nd.outbox[to] + Requests([]) == nd.outbox[to];
    }
    assert Sent(nd, to, Requests([])).outbox == nd.outbox;
  }

  lemma SendsOneMore(nd: Node, to: PeerId, ms: seq<Message>, m: Message)
    ensures Sent(Sent(nd, to, ms), to, [m]) == Sent(nd, to, ms + [m])
  {
    if to in nd.outbox {
      assert nd.outbox[to] + (ms + [m]) == nd.outbox[to] + ms + [m];
    }
  }

  // Both broadcasts done, the node is where handling the piece ends.
  lemma BroadcastsFinish(cfg: Config, nd: Node, from: PeerId, i: nat, data: Bytes,
                         before: map<PeerId, Peer>, after: map<PeerId, Peer>)
    requires Verifies(cfg, i, data) && nd.outbox == Outboxes(before)
    requires before.Keys == after.Keys
    requires var pieces := Added(cfg.numPieces, nd.pieces, i, data);
             forall id :: id in before ==>
               after[id].sent == before[id].sent + Remaining(cfg, pieces, AnnounceHave(i), id)
    ensures Outboxes(after) == Finish(cfg, OnPiece(cfg, nd, from, i, data)).outbox
  {
  }

  /**
   A verified piece is announced to every peer, and while pieces are missing each is then sent our
   bitfield as it has become: the bits of all pieces held with the new one.
   */
  lemma PieceAnnounced(cfg: Config, nd: Node, from: PeerId, i: nat, data: Bytes, y: PeerId)
    requires Verifies(cfg, i, data) && y in nd.outbox
    ensures var nd' := Finish(cfg, OnPiece(cfg, nd, from, i, data));
            && y in nd'.outbox && |nd.outbox[y]| < |nd'.outbox[y]|
            && nd'.outbox[y][..|nd.outbox[y]|] == nd.outbox[y]
            && nd'.outbox[y][|nd.outbox[y]|] == Have(i)
            && (|nd'.pieces| == cfg.numPieces ==> |nd'.outbox[y]| == |nd.outbox[y]| + 1)
            && (|nd'.pieces| != cfg.numPieces ==>
                  && |nd'.outbox[y]| == |nd.outbox[y]| + 2
                  && var last := nd'.outbox[y][|nd.outbox[y]| + 1];
                     && last.Bitfield? && |last.bits| == Size(cfg.numPieces)
                     && forall j: nat :: HasBit(last.bits, j) <==> j < cfg.numPieces && j in nd'.pieces)
  {
    BitfieldOfBits(OnPiece(cfg, nd, from, i, data).pieces.Keys, cfg.numPieces);
  }

  function TurnedTo(choking: bool): Message {
    if choking then Choke else Unchoke
  }

  ghost function ActedOn(actions: seq<UnchokeAction>): set<PeerId> {
    set a | a in actions :: a.peer
  }

  lemma ActedOnNext(actions: seq<UnchokeAction>, k: nat)
    requires k < |actions|
    requires forall i, j :: 0 <= i < j < |actions| ==> actions[i].peer != actions[j].peer
    ensures ActedOn(actions[..k + 1]) == ActedOn(actions[..k]) + {actions[k].peer}
    ensures actions[k].peer !in ActedOn(actions[..k])
  {
    assert actions[..k + 1] == actions[..k] + [actions[k]];
  }

  lemma ActedOnChanged(before: States, after: States, actions: seq<UnchokeAction>, id: PeerId)
    requires AreActions(before, after, actions) && id in before && id in after
    ensures id in ActedOn(actions) <==> before[id].amChoking != after[id].amChoking
  {
    if before[id].amChoking != after[id].amChoking {
      assert UnchokeAction(id, !after[id].amChoking) in actions;
    }
  }

  lemma ActionIsNotice(p: Peer, before: bool, after: bool)
    requires p.Accepts(1)
    ensures AfterActions(p, after, before != after).sent == p.sent + Notice(before, after)
  {
    assert p.sent + [] == p.sent;
  }

  // A message for each action is the notice of each flag the round changed.
  lemma ActionsAreNotices(nd: Node, clock: PeerId -> real, after: Table, actions: seq<UnchokeAction>,
                          before: map<PeerId, Peer>, sent: map<PeerId, Peer>)
    requires AreActions(AllUpdated(nd.table.states, clock), after.states, actions)
    requires nd.outbox == Outboxes(before) && before.Keys == sent.Keys
    requires before.Keys <= after.states.Keys && before.Keys <= nd.table.states.Keys
    requires forall id :: id in before ==> before[id].Accepts(1)
    requires forall id :: id in before ==>
      sent[id] == AfterActions(before[id], after.states[id].amChoking, id in ActedOn(actions))
    ensures Outboxes(sent) == OnRound(nd, after).outbox
  {
    forall id | id in before
      ensures sent[id].sent == OnRound(nd, after).outbox[id]
    {
      ActedOnChanged(AllUpdated(nd.table.states, clock), after.states, actions, id);
      ActionIsNotice(before[id], nd.table.states[id].amChoking, after.states[id].amChoking);
    }
    assert Outboxes(sent).Keys == OnRound(nd, after).outbox.Keys;
  }

  function AfterActions(p: Peer, choking: bool, acted: bool): Peer {
    if acted then p.Send(TurnedTo(choking)) else p
  }

  class TorrentServer {
    const swarm: Swarm
    var pendingRequests: map<PeerId, seq<nat>>
    ghost var inbox: History

    ghost function Cfg(): Config
      reads swarm.pieces
    {
      swarm.pieces.Cfg()
    }

    ghost function View(): Node
      reads this, swarm, swarm.pieces
    {
      Node(swarm.pieces.pieces, swarm.View(), swarm.peerBitfields, pendingRequests, Outboxes(swarm.peers), inbox, Idle)
    }

    ghost predicate Valid()
      reads swarm, swarm.pieces
    {
      swarm.Valid() && swarm.pieces.numPieces <= UINT32
    }

    // Every peer has room for n more messages.
    ghost predicate Room(n: nat)
      reads swarm
    {
      forall id :: id in swarm.peers ==> swarm.peers[id].Accepts(n)
    }

    constructor (swarm: Swarm)
      requires swarm.Valid() && swarm.peers == map[] && swarm.View() == Table(map[], ZERO_ID, 0)
      requires swarm.peerBitfields == map[] && swarm.pieces.numPieces <= UINT32
      ensures Valid() && this.swarm == swarm && View() == Fresh(swarm.pieces.pieces)
      ensures PiecesOk(Cfg(), swarm.pieces.pieces) ==> NodeOk(Cfg(), View())
    {
      this.swarm := swarm;
      pendingRequests, inbox := map[], map[];
      new;
      assert Outboxes(swarm.peers) == map[];
      if PiecesOk(Cfg(), swarm.pieces.pieces) {
        FreshIsOk(Cfg(), swarm.pieces.pieces);
      }
    }

    // Whatever the server has sent, the receiver parses back.
    lemma SentParsesBack(y: PeerId)
      requires Valid() && NodeOk(Cfg(), View()) && y in swarm.peers
      ensures forall m :: m in swarm.peers[y].sent ==> Fits(m) && Parse(Payload(m)) == m
    {
      SentFits(Cfg(), View(), y);
      forall m | m in swarm.peers[y].sent
        ensures Parse(Payload(m)) == m
      {
        ReadBack(m);
      }
    }

    // The write loop of a peer makes room; nothing the step machine sees changes.
    method Drain(id: PeerId, n: nat)
      requires Valid() && id in swarm.peers && n <= swarm.peers[id].queued
      modifies swarm`peers
      ensures Valid() && View() == old(View())
      ensures swarm.peers == old(swarm.peers)[id := old(swarm.peers)[id].Drain(n)]
    {
      swarm.Drain(id, n);
      assert Outboxes(swarm.peers) == old(Outboxes(swarm.peers));
    }

    // Looks a peer up and sends it one message.
    method SendTo(id: PeerId, m: Message) returns (sent: bool)
      requires Valid() && (id in swarm.peers ==> swarm.peers[id].Accepts(1))
      modifies swarm`peers
      ensures Valid()
      ensures sent <==> id in old(swarm.peers)
      ensures View() == Sent(old(View()), id, [m])
      ensures sent ==> swarm.peers == old(swarm.peers)[id := old(swarm.peers)[id].Send(m)]
    {
      OutboxesSend(swarm.peers, id, m);
      sent := swarm.SendTo(id, m);
    }

    method HandleBitfieldAnnouncement(from: PeerId, bits: Bytes) returns (ghost order: seq<nat>)
      requires Valid() && Room(1)
      modifies this`pendingRequests, swarm`peerBitfields, swarm`peers
      ensures Valid()
      ensures IsRarestOrder(old(View()).records[from := bits], bits, old(View()).pieces.Keys, Cfg().numPieces, order)
      ensures View() == OnBitfield(old(View()), from, bits, order)
    {
      swarm.UpdatePeerBitfield(from, bits);
      var rarestPieces := swarm.GetRarestMissingPieces(bits);
      order := rarestPieces;
      if |rarestPieces| > 0 {
        var sent := SendTo(from, Interested);
        if sent {
          pendingRequests := pendingRequests[from := rarestPieces];
        }
      }
    }

    method HandlePieceRequest(from: PeerId, index: nat)
      requires Valid() && Room(1)
      modifies swarm`peerStates, swarm`peers
      ensures Valid()
      ensures View() == OnRequest(old(View()), from, index)
    {
      var choking := swarm.IsChoking(from);
      if choking {
        return;
      }
      var data := swarm.pieces.GetPiece(index);
      if data.None? {
        return;
      }
      var sent := SendTo(from, SendPiece(index, data.value));
      if sent {
        swarm.RecordUpload(from, |data.value|);
        SameChokingSameSlots(old(swarm.peerStates), swarm.peerStates);
      }
    }

    method SendPendingRequests(from: PeerId)
      requires Valid()
      requires from in swarm.peers && from in pendingRequests ==> swarm.peers[from].Accepts(|pendingRequests[from]|)
      modifies this`pendingRequests, swarm`peers
      ensures Valid()
      ensures View() == SendPending(old(View()), from)
    {
      if from !in pendingRequests {
        return;
      }
      var pieces := pendingRequests[from];
      pendingRequests := pendingRequests - {from};
      if from !in swarm.peers {
        return;
      }
      SendRequests(from, pieces);
    }

    // One request for each piece, in order.
    method SendRequests(from: PeerId, pieces: seq<nat>)
      requires Valid() && from in swarm.peers && swarm.peers[from].Accepts(|pieces|)
      modifies swarm`peers
      ensures Valid() && View() == Sent(old(View()), from, Requests(pieces))
    {
      ghost var start := View();
      SendsNothing(start, from);
      for k := 0 to |pieces|
        invariant Valid() && from in swarm.peers && swarm.peers[from].Accepts(|pieces| - k)
        invariant View() == Sent(start, from, Requests(pieces[..k]))
      {
        var sent := SendTo(from, RequestPiece(pieces[k]));
        SendsOneMore(start, from, Requests(pieces[..k]), RequestPiece(pieces[k]));
        assert Requests(pieces[..k + 1]) == Requests(pieces[..k]) + [RequestPiece(pieces[k])];
      }
      assert pieces[..|pieces|] == pieces;
    }

    // Sends one message to each peer of a snapshot, in its order.
    method Broadcast(m: Message)
      requires Valid() && Room(1)
      modifies swarm`peers
      ensures Valid()
      ensures swarm.peers == map id | id in old(swarm.peers) :: old(swarm.peers)[id].Send(m)
    {
      var peers := swarm.peers;
      var snapshot := swarm.Peers();
      for k := 0 to |snapshot|
        invariant Valid() && swarm.peers.Keys == peers.Keys
        invariant forall id :: id in peers ==>
          swarm.peers[id] == if id in snapshot[..k] then peers[id].Send(m) else peers[id]
      {
        assert snapshot[k] !in snapshot[..k];
        var sent := swarm.SendTo(snapshot[k], m);
        assert snapshot[..k + 1] == snapshot[..k] + [snapshot[k]];
      }
      assert snapshot[..|snapshot|] == snapshot;
    }

    // `body` is a SendPiece payload after its type byte: four bytes of index, then the data.
    method HandlePiece(from: PeerId, body: Bytes)
      requires Valid() && Room(2)
      modifies swarm`peerStates, swarm`peers, swarm.pieces`pieces
      ensures Valid()
      ensures View() == Finish(Cfg(), Handle(Cfg(), old(View()), from, Parse([0x04] + body), []))
    {
      assert ([0x04] + body)[1..] == body;
      IdleIsFinished(Cfg(), View());
      if |body| < 4 {
        return;
      }
      var index := Get32(body);
      var pieceData := body[4..];
      var ok := swarm.pieces.VerifyPiece(index, pieceData);
      if ok {
        AcceptPiece(from, index, pieceData);
      }
    }

    method AcceptPiece(from: PeerId, index: nat, data: Bytes)
      requires Valid() && Room(2) && Verifies(Cfg(), index, data)
      modifies swarm`peerStates, swarm`peers, swarm.pieces`pieces
      ensures Valid()
      ensures View() == Finish(Cfg(), OnPiece(Cfg(), old(View()), from, index, data))
    {
      StorePiece(from, index, data);
      AnnouncePiece(index);
      BroadcastsFinish(Cfg(), old(View()), from, index, data, old(swarm.peers), swarm.peers);
    }

    // Announces a piece to all peers and, while pieces are missing, sends them the new bitfield.
    method AnnouncePiece(index: nat)
      requires Valid() && Room(2)
      modifies swarm`peers
      ensures Valid() && swarm.peers.Keys == old(swarm.peers.Keys)
      ensures forall id :: id in swarm.peers ==>
        swarm.peers[id].sent
        == old(swarm.peers)[id].sent + Remaining(Cfg(), swarm.pieces.pieces, AnnounceHave(index), id)
    {
      ghost var before := swarm.peers;
      Broadcast(Have(index));
      var all := swarm.pieces.AllPiecesReceived();
      if !all {
        var bits := swarm.pieces.Bitfield();
        Broadcast(Bitfield(bits));
        forall id | id in before
          ensures swarm.peers[id].sent == before[id].sent + ([Have(index)] + [Bitfield(bits)])
        {
          assert swarm.peers[id].sent == before[id].sent + [Have(index)] + [Bitfield(bits)];
        }
      }
    }

    method StorePiece(from: PeerId, index: nat, data: Bytes)
      requires Valid()
      modifies swarm`peerStates, swarm.pieces`pieces
      ensures Valid()
      ensures Verifies(Cfg(), index, data) ==>
        View().(task := AnnounceHave(index)) == OnPiece(Cfg(), old(View()), from, index, data)
    {
      swarm.RecordDownload(from, |data|);
      SameChokingSameSlots(old(swarm.peerStates), swarm.peerStates);
      var added := swarm.pieces.AddPiece(index, data);
    }

    method ReconstructData() returns (data: Option<Bytes>)
      ensures data == Assembled(swarm.pieces.pieces, swarm.pieces.numPieces)
    {
      var whole := [];
      for i := 0 to swarm.pieces.numPieces
        invariant Assembled(swarm.pieces.pieces, i) == Some(whole)
      {
        var piece := swarm.pieces.GetPiece(i);
        if piece.None? {
          MissingNotAssembled(swarm.pieces.pieces, i, swarm.pieces.numPieces);
          return None;
        }
        whole := whole + piece.value;
      }
      return Some(whole);
    }

    method OnPeer(id: PeerId, p: Peer, now: real) returns (ok: bool)
      requires Valid() && p.sent == [] && p.Accepts(1)
      modifies swarm`peers, swarm`peerStates
      ensures Valid() && ok == (id !in old(swarm.peers))
      ensures View() == OnJoin(Cfg(), old(View()), id, now)
      ensures old(NodeOk(Cfg(), View())) ==> NodeOk(Cfg(), View())
    {
      ghost var before := View();
      ok := Register(id, p, now);
      if NodeOk(Cfg(), before) {
        JoinKeeps(Cfg(), before, id, now);
      }
    }

    method Register(id: PeerId, p: Peer, now: real) returns (ok: bool)
      requires Valid() && p.sent == [] && p.Accepts(1)
      modifies swarm`peers, swarm`peerStates
      ensures Valid() && ok == (id !in old(swarm.peers))
      ensures View() == OnJoin(Cfg(), old(View()), id, now)
    {
      ok := swarm.OnPeer(id, p, now);
      ghost var m := Bitfield(BitfieldOf(swarm.pieces.pieces.Keys, swarm.pieces.numPieces));
      assert p.Send(m).sent == [m];
      OutboxesJoin(old(swarm.peers), id, p.Send(m));
    }

    method RunUnchokeRound(clock: PeerId -> real) returns (ghost top: set<PeerId>)
      requires Valid() && Room(1)
      modifies swarm`peerStates, swarm`optimisticPeer, swarm`unchokeRound, swarm`peers
      ensures Valid()
      ensures Round(old(View()).table, clock, top, View().table)
      ensures View() == OnRound(old(View()), View().table)
      ensures old(NodeOk(Cfg(), View())) ==> NodeOk(Cfg(), View())
    {
      ghost var before := View();
      top := NotifyRound(clock);
      if NodeOk(Cfg(), before) {
        RoundKeeps(Cfg(), before, clock, top, View().table);
      }
    }

    method NotifyRound(clock: PeerId -> real) returns (ghost top: set<PeerId>)
      requires Valid() && Room(1)
      modifies swarm`peerStates, swarm`optimisticPeer, swarm`unchokeRound, swarm`peers
      ensures Valid()
      ensures Round(old(View()).table, clock, top, View().table)
      ensures View() == OnRound(old(View()), View().table)
    {
      var actions;
      actions, top := swarm.RunUnchokeAlgorithm(clock);
      RoundUnchokes(old(View()).table, clock, top, View().table);
      ghost var before := swarm.peers;
      SendActions(actions);
      ActionsAreNotices(old(View()), clock, View().table, actions, before, swarm.peers);
    }

    method SendActions(actions: seq<UnchokeAction>)
      requires Valid()
      requires forall i, j :: 0 <= i < j < |actions| ==> actions[i].peer != actions[j].peer
      requires forall a :: a in actions ==>
        a.peer in swarm.peerStates && a.unchoke == !swarm.peerStates[a.peer].amChoking
      modifies swarm`peers
      ensures Valid() && swarm.peers.Keys == old(swarm.peers.Keys)
      ensures forall id :: id in swarm.peers ==>
        swarm.peers[id] == AfterActions(old(swarm.peers)[id], swarm.peerStates[id].amChoking, id in ActedOn(actions))
    {
      ghost var before := swarm.peers;
      for k := 0 to |actions|
        invariant Valid() && swarm.peers.Keys == before.Keys
        invariant forall id :: id in before ==>
          swarm.peers[id] == AfterActions(before[id], swarm.peerStates[id].amChoking, id in ActedOn(actions[..k]))
      {
        var msg := if actions[k].unchoke then Unchoke else Choke;
        ActedOnNext(actions, k);
        assert actions[k] in actions;
        var sent := swarm.SendTo(actions[k].peer, msg);
      }
      assert actions[..|actions|] == actions;
    }

    // One turn of the event loop: a payload from a registered peer.
    method HandleRPC(from: PeerId, payload: Bytes) returns (ghost order: seq<nat>)
      requires Valid() && Room(2)
      requires from in swarm.peers && from in pendingRequests ==> swarm.peers[from].Accepts(|pendingRequests[from]|)
      modifies this, swarm`peerStates, swarm`peers, swarm`peerBitfields, swarm.pieces`pieces
      ensures Valid()
      ensures var m := Parse(payload);
              && OrderOk(old(View()), from, m, Cfg().numPieces, order)
              && View() == Finish(Cfg(), Handle(Cfg(), Received(old(View()), from, m), from, m, order))
      ensures old(NodeOk(Cfg(), View()) && from in swarm.peers) ==> NodeOk(Cfg(), View())
    {
      ghost var before := View();
      inbox := inbox[from := Log(inbox, from) + [Parse(payload)]];
      order := Dispatch(from, payload);
      if NodeOk(Cfg(), before) && from in before.outbox {
        ParsedFits(payload);
        HandledKeeps(Cfg(), before, from, Parse(payload), order);
      }
    }

    // The switch on the first payload byte.
    method Dispatch(from: PeerId, payload: Bytes) returns (ghost order: seq<nat>)
      requires Valid() && Room(2)
      requires from in swarm.peers && from in pendingRequests ==> swarm.peers[from].Accepts(|pendingRequests[from]|)
      modifies this`pendingRequests, swarm`peerStates, swarm`peers, swarm`peerBitfields, swarm.pieces`pieces
      ensures Valid()
      ensures OrderOk(old(View()), from, Parse(payload), Cfg().numPieces, order)
      ensures View() == Finish(Cfg(), Handle(Cfg(), old(View()), from, Parse(payload), order))
    {
      order := [];
      if |payload| == 0 {
        IdleIsFinished(Cfg(), View());
        return;
      }
      var msgType, body := payload[0], payload[1..];
      assert payload == [msgType] + body;
      if msgType == 0x04 {
        HandlePiece(from, body);
      } else {
        order := HandleOther(from, msgType, body);
        IdleIsFinished(Cfg(), View());
      }
    }

    // The arms other than the one for a piece.
    method HandleOther(from: PeerId, msgType: byte, body: Bytes) returns (ghost order: seq<nat>)
      requires Valid() && Room(2) && msgType != 0x04
      requires from in swarm.peers && from in pendingRequests ==> swarm.peers[from].Accepts(|pendingRequests[from]|)
      modifies this`pendingRequests, swarm`peerStates, swarm`peers, swarm`peerBitfields
      ensures Valid()
      ensures OrderOk(old(View()), from, Parse([msgType] + body), Cfg().numPieces, order)
      ensures View() == Handle(Cfg(), old(View()), from, Parse([msgType] + body), order)
    {
      order := [];
      assert ([msgType] + body)[1..] == body;
      match msgType
      case 0x01 => SetInterested(from, true);
      case 0x02 => SetInterested(from, false);
      case 0x03 =>
        if |body| >= 4 {
          HandlePieceRequest(from, Get32(body));
        }
      case 0x05 =>
        if |body| >= 4 {
          swarm.SetPeerHasPiece(from, Get32(body));
        }
      case 0x06 => order := HandleBitfieldAnnouncement(from, body);
      case 0x07 =>
        HandleUnchoke(from);
      case 0x08 => SetChoking(from, true);
      case _ =>
    }

    method HandleUnchoke(from: PeerId)
      requires Valid()
      requires from in swarm.peers && from in pendingRequests ==> swarm.peers[from].Accepts(|pendingRequests[from]|)
      modifies this`pendingRequests, swarm`peerStates, swarm`peers
      ensures Valid() && View() == OnUnchoke(old(View()), from)
    {
      SetChoking(from, false);
      SendPendingRequests(from);
    }

    method SetInterested(from: PeerId, interested: bool)
      requires Valid()
      modifies swarm`peerStates
      ensures Valid() && View() == OnInterest(old(View()), from, interested)
    {
      swarm.SetPeerInterested(from, interested);
      SameChokingSameSlots(old(swarm.peerStates), swarm.peerStates);
    }

    method SetChoking(from: PeerId, choking: bool)
      requires Valid()
      modifies swarm`peerStates
      ensures Valid() && View() == OnChoking(old(View()), from, choking)
    {
      swarm.SetPeerChoking(from, choking);
      SameChokingSameSlots(old(swarm.peerStates), swarm.peerStates);
    }
  }
}
