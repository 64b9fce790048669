/**
 One node of the piece exchange, as the steps its event loop and its connection goroutines take:
 torrent_server/handler.go, torrent_server/server.go:101-204 and p2p/swarm.go:72-97.

 A handler that only answers its sender is one step. Handling a received piece announces to a
 snapshot of the peers taken after the piece was added, so it is split: the piece is added, the
 snapshot is taken, each send is a step of its own, and a peer may join anywhere in between.
 */
module Nodes {
  import opened Bytes
  import opened Bitfields
  import opened Messages
  import opened PieceStore
  import opened PeerStates
  import opened Rarity
  import opened Unchoking

  // All messages ever exchanged with each peer, oldest first.
  type History = map<PeerId, seq<Message>>

  /** Where the event loop stands in handlePiece. */
  datatype Task =
    | Idle
    | AnnounceHave(index: nat)
    | SendingHave(index: nat, todo: set<PeerId>)
    | Checking
    | AnnounceBitfield(bits: Bytes)
    | SendingBitfield(bits: Bytes, todo: set<PeerId>)

  /** `outbox` has an entry for each peer of the swarm; what was sent to it and received from it. */
  datatype Node = Node(
    pieces: Pieces, table: Table, records: Records, pending: map<PeerId, seq<nat>>,
    outbox: History, inbox: History, task: Task)

  function Log(h: History, id: PeerId): seq<Message> {
    if id in h then h[id] else []
  }

  // Sends to a peer the swarm does not know go nowhere.
  function Sent(nd: Node, to: PeerId, ms: seq<Message>): (nd': Node)
    ensures nd'.outbox.Keys == nd.outbox.Keys
    ensures Log(nd'.outbox, to) == Log(nd.outbox, to) + (if to in nd.outbox then ms else [])
    ensures forall y :: y != to ==> Log(nd'.outbox, y) == Log(nd.outbox, y)
    ensures nd' == nd.(outbox := nd'.outbox)
  {
    if to in nd.outbox then nd.(outbox := nd.outbox[to := nd.outbox[to] + ms]) else nd
  }

  function WithState(nd: Node, id: PeerId, v: PeerView): (nd': Node)
    ensures nd'.table.states.Keys == nd.table.states.Keys + {id}
    ensures nd' == nd.(table := nd'.table)
  {
    nd.(table := nd.table.(states := nd.table.states[id := v]))
  }

  function Fresh(pieces: Pieces): Node {
    Node(pieces, Table(map[], ZERO_ID, 0), map[], map[], map[], map[], Idle)
  }

  // ----- handlers -----

  function OnInterest(nd: Node, from: PeerId, interested: bool): Node {
    if from in nd.table.states
    then WithState(nd, from, nd.table.states[from].(peerInterested := interested))
    else nd
  }

  function OnChoking(nd: Node, from: PeerId, choking: bool): Node {
    if from in nd.table.states
    then WithState(nd, from, nd.table.states[from].(peerChoking := choking))
    else nd
  }

  function OnRequest(nd: Node, from: PeerId, i: nat): Node {
    if from !in UnchokedPeers(nd.table.states) || i !in nd.pieces || from !in nd.outbox then nd
    else
      var v := nd.table.states[from];
      WithState(Sent(nd, from, [SendPiece(i, nd.pieces[i])]), from, v.(up := v.up.Add(|nd.pieces[i]|)))
  }

  function OnPiece(cfg: Config, nd: Node, from: PeerId, i: nat, data: Bytes): Node {
    if !Verifies(cfg, i, data) then nd
    else
      var counted :=
        if from in nd.table.states
        then WithState(nd, from, nd.table.states[from].(down := nd.table.states[from].down.Add(|data|)))
        else nd;
      counted.(pieces := Added(cfg.numPieces, nd.pieces, i, data), task := AnnounceHave(i))
  }

  function OnHave(cfg: Config, nd: Node, from: PeerId, i: nat): Node {
    nd.(records := nd.records[from := WithPiece(nd.records, from, cfg.numPieces, i)])
  }

  // `order` is the rarest-first order chosen for the bitfield.
  function OnBitfield(nd: Node, from: PeerId, bits: Bytes, order: seq<nat>): Node {
    var recorded := nd.(records := nd.records[from := bits]);
    if order == [] || from !in nd.outbox then recorded
    else Sent(recorded, from, [Interested]).(pending := nd.pending[from := order])
  }

  function Requests(order: seq<nat>): seq<Message> {
    seq(|order|, i requires 0 <= i < |order| => RequestPiece(order[i]))
  }

  // Asks for what was waiting for this peer's Unchoke, and forgets it.
  function SendPending(nd: Node, from: PeerId): Node {
    if from !in nd.pending then nd
    else Sent(nd, from, Requests(nd.pending[from])).(pending := nd.pending - {from})
  }

  function OnUnchoke(nd: Node, from: PeerId): Node {
    SendPending(OnChoking(nd, from, false), from)
  }

  function Handle(cfg: Config, nd: Node, from: PeerId, m: Message, order: seq<nat>): Node {
    match m
    case Interested => OnInterest(nd, from, true)
    case NotInterested => OnInterest(nd, from, false)
    case RequestPiece(i) => OnRequest(nd, from, i)
    case SendPiece(i, data) => OnPiece(cfg, nd, from, i, data)
    case Have(i) => OnHave(cfg, nd, from, i)
    case Bitfield(bits) => OnBitfield(nd, from, bits, order)
    case Choke => OnChoking(nd, from, true)
    case Unchoke => OnUnchoke(nd, from)
    case KeepAlive => nd
    case Ignored(_) => nd
  }

  function Received(nd: Node, from: PeerId, m: Message): Node {
    nd.(inbox := nd.inbox[from := Log(nd.inbox, from) + [m]])
  }

  // A new connection is told our bitfield as it is registered; one to a known peer is refused.
  function OnJoin(cfg: Config, nd: Node, id: PeerId, now: real): Node {
    if id in nd.outbox then nd
    else
      var registered := WithState(nd, id, NewView(now));
      registered.(outbox := nd.outbox[id := [Bitfield(BitfieldOf(nd.pieces.Keys, cfg.numPieces))]])
  }

  // What an unchoke round sends a peer whose AmChoking flag goes from `before` to `after`.
  function Notice(before: bool, after: bool): seq<Message> {
    if before == after then [] else if after then [Choke] else [Unchoke]
  }

  function OnRound(nd: Node, after: Table): Node {
    nd.(table := after,
        outbox := map id | id in nd.outbox ::
          nd.outbox[id] + (if id in nd.table.states && id in after.states
                           then Notice(nd.table.states[id].amChoking, after.states[id].amChoking) else []))
  }

  // The next part of handlePiece; `to` is the peer a send goes to.
  function NextTask(cfg: Config, nd: Node, to: PeerId): Task {
    match nd.task
    case Idle => Idle
    case AnnounceHave(i) => SendingHave(i, nd.outbox.Keys)
    case SendingHave(i, todo) => if todo == {} then Checking else SendingHave(i, todo - {to})
    case Checking =>
      if |nd.pieces| == cfg.numPieces then Idle
      else AnnounceBitfield(BitfieldOf(nd.pieces.Keys, cfg.numPieces))
    case AnnounceBitfield(bits) => SendingBitfield(bits, nd.outbox.Keys)
    case SendingBitfield(bits, todo) => if todo == {} then Idle else SendingBitfield(bits, todo - {to})
  }

  function Announcement(task: Task): seq<Message> {
    match task
    case SendingHave(i, todo) => if todo == {} then [] else [Have(i)]
    case SendingBitfield(bits, todo) => if todo == {} then [] else [Bitfield(bits)]
    case _ => []
  }

  function Progress(cfg: Config, nd: Node, to: PeerId): Node {
    Sent(nd, to, Announcement(nd.task)).(task := NextTask(cfg, nd, to))
  }

  // ----- steps -----

  datatype Event =
    | Deliver(from: PeerId, m: Message, order: seq<nat>)
    | Join(id: PeerId, now: real)
    | Tick(clock: PeerId -> real, top: set<PeerId>, after: Table)
    | Continue(to: PeerId)

  // The order chosen for a bitfield is a rarest-first order with that bitfield on record.
  ghost predicate OrderOk(nd: Node, from: PeerId, m: Message, numPieces: nat, order: seq<nat>) {
    m.Bitfield? ==> IsRarestOrder(nd.records[from := m.bits], m.bits, nd.pieces.Keys, numPieces, order)
  }

  // The loop takes a message or a tick only between handlers. A connection's messages are read
  // only once OnPeer has registered it, and an index read from four bytes fits them.
  ghost predicate Enabled(cfg: Config, nd: Node, e: Event) {
    match e
    case Deliver(from, m, order) =>
      nd.task.Idle? && from in nd.outbox && Fits(m) && OrderOk(nd, from, m, cfg.numPieces, order)
    case Join(_, _) => true
    case Tick(clock, top, after) => nd.task.Idle? && Round(nd.table, clock, top, after)
    case Continue(to) =>
      && !nd.task.Idle?
      && (nd.task.SendingHave? || nd.task.SendingBitfield? ==> nd.task.todo == {} || to in nd.task.todo)
  }

  function Step(cfg: Config, nd: Node, e: Event): Node {
    match e
    case Deliver(from, m, order) => Handle(cfg, Received(nd, from, m), from, m, order)
    case Join(id, now) => OnJoin(cfg, nd, id, now)
    case Tick(_, _, after) => OnRound(nd, after)
    case Continue(to) => Progress(cfg, nd, to)
  }
}
