/**
 What every run of a node keeps, whatever messages its peers send: its outboxes are honest about
 the pieces it holds and cover them, and its records say exactly what it was told.
 */
module NodeInvariant {
  import opened Bytes
  import opened Bitfields
  import opened Messages
  import opened PieceStore
  import opened PeerStates
  import opened Unchoking
  import opened Nodes

  // ----- what a history of messages says -----

  predicate Tells(m: Message, i: nat) {
    (m.Have? && m.index == i) || (m.Bitfield? && HasBit(m.bits, i))
  }

  ghost predicate Told(s: seq<Message>, i: nat) {
    exists k :: 0 <= k < |s| && Tells(s[k], i)
  }

  // The bitfield a receiver of these messages has on record.
  function Record(s: seq<Message>, numPieces: nat): Option<Bytes> {
    if s == [] then None
    else
      var before := Record(s[..|s| - 1], numPieces);
      match s[|s| - 1]
      case Bitfield(bits) => Some(bits)
      case Have(i) => Some(SetBit(if before.Some? then before.value else Zeros(numPieces), i))
      case _ => before
  }

  // Whether the sender of these messages is choking the receiver.
  function ChokeFlag(s: seq<Message>): bool {
    if s == [] then true
    else
      match s[|s| - 1]
      case Choke => true
      case Unchoke => false
      case _ => ChokeFlag(s[..|s| - 1])
  }

  function InterestFlag(s: seq<Message>): bool {
    if s == [] then false
    else
      match s[|s| - 1]
      case Interested => true
      case NotInterested => false
      case _ => InterestFlag(s[..|s| - 1])
  }

  // ----- what holds of the messages sent to one peer -----

  // The only index a Have may name that is not held: one that a node without piece hashes was
  // sent data for and could not store.
  predicate Unstorable(cfg: Config, i: nat) {
    cfg.hashes.None? && cfg.numPieces <= i < UINT32
  }

  // An index that a node announces only when it holds the piece.
  predicate Trusted(cfg: Config, i: nat) {
    cfg.hashes.Some? || i < cfg.numPieces
  }

  ghost predicate Honest(cfg: Config, pieces: Pieces, m: Message) {
    match m
    case Have(i) => i in pieces || Unstorable(cfg, i)
    case Bitfield(bits) => |bits| == Size(cfg.numPieces) && BitsHeld(bits, pieces)
    case RequestPiece(i) => i < cfg.numPieces
    case SendPiece(i, data) => i in pieces && pieces[i] == data
    case KeepAlive => false
    case NotInterested => false
    case Ignored(_) => false
    case _ => true
  }

  ghost predicate BitsHeld(bits: Bytes, pieces: Pieces) {
    forall i: nat :: HasBit(bits, i) ==> i in pieces
  }

  // No bitfield takes back a piece told of before it.
  ghost predicate Growing(numPieces: nat, s: seq<Message>) {
    forall a, b, i: nat :: 0 <= a < b < |s| && s[b].Bitfield? && Tells(s[a], i) && i < numPieces
      ==> HasBit(s[b].bits, i)
  }

  ghost predicate TruthfulTo(cfg: Config, pieces: Pieces, s: seq<Message>) {
    && s != [] && s[0].Bitfield?
    && (forall k :: 0 <= k < |s| ==> Honest(cfg, pieces, s[k]))
    && Growing(cfg.numPieces, s)
  }

  // handlePiece is still to tell y about piece i.
  predicate Owes(task: Task, y: PeerId, i: int) {
    || (task.AnnounceHave? && task.index == i)
    || (task.SendingHave? && task.index == i && y in task.todo)
  }

  ghost predicate Covers(pieces: Pieces, task: Task, y: PeerId, s: seq<Message>) {
    forall i: nat :: i in pieces ==> Told(s, i) || Owes(task, y, i)
  }

  // Choke and Unchoke alternate, starting with Unchoke, and pieces go out only while unchoked.
  predicate Alternates(s: seq<Message>) {
    s == [] ||
    (var front, last := s[..|s| - 1], s[|s| - 1];
     && Alternates(front)
     && (last.Unchoke? ==> ChokeFlag(front))
     && (last.Choke? || last.SendPiece? ==> !ChokeFlag(front)))
  }

  // ----- what holds of the messages received from one peer -----

  ghost predicate Tracks(numPieces: nat, t: seq<Message>, v: PeerView, record: Option<Bytes>) {
    && record == Record(t, numPieces)
    && v.peerChoking == ChokeFlag(t)
    && v.peerInterested == InterestFlag(t)
  }

  ghost predicate AllTold(numPieces: nat, t: seq<Message>, wanted: seq<nat>) {
    forall i :: i in wanted ==> i < numPieces && Told(t, i)
  }

  // Pieces asked for, or waiting to be, are ones the peer told us of; and a node that waits has
  // said it is interested.
  ghost predicate AsksForTold(numPieces: nat, s: seq<Message>, t: seq<Message>, wanted: Option<seq<nat>>) {
    && (forall k :: 0 <= k < |s| && s[k].RequestPiece? ==> Told(t, s[k].index))
    && (wanted.Some? ==> AllTold(numPieces, t, wanted.value) && Interested in s)
  }

  function Lookup<V>(m: map<PeerId, V>, id: PeerId): Option<V> {
    if id in m then Some(m[id]) else None
  }

  ghost predicate LinkOk(cfg: Config, nd: Node, y: PeerId)
    requires y in nd.outbox && y in nd.table.states
  {
    var s, t, v := nd.outbox[y], Log(nd.inbox, y), nd.table.states[y];
    && TruthfulTo(cfg, nd.pieces, s)
    && Covers(nd.pieces, nd.task, y, s)
    && Alternates(s) && v.amChoking == ChokeFlag(s)
    && Tracks(cfg.numPieces, t, v, Lookup(nd.records, y))
    && AsksForTold(cfg.numPieces, s, t, Lookup(nd.pending, y))
  }

  ghost predicate TaskOk(cfg: Config, nd: Node) {
    match nd.task
    case AnnounceHave(i) => i in nd.pieces || Unstorable(cfg, i)
    case SendingHave(i, todo) => (i in nd.pieces || Unstorable(cfg, i)) && todo <= nd.outbox.Keys
    case AnnounceBitfield(bits) => bits == BitfieldOf(nd.pieces.Keys, cfg.numPieces)
    case SendingBitfield(bits, todo) =>
      bits == BitfieldOf(nd.pieces.Keys, cfg.numPieces) && todo <= nd.outbox.Keys
    case _ => true
  }

  ghost predicate TablesOk(cfg: Config, nd: Node) {
    && PiecesOk(cfg, nd.pieces)
    && nd.table.states.Keys == nd.outbox.Keys
    && nd.inbox.Keys <= nd.outbox.Keys
    && nd.records.Keys <= nd.outbox.Keys
    && nd.pending.Keys <= nd.outbox.Keys
    && |UnchokedPeers(nd.table.states)| <= MAX_UNCHOKED_PEERS
    && TaskOk(cfg, nd)
  }

  ghost predicate LinksOk(cfg: Config, nd: Node)
    requires nd.table.states.Keys == nd.outbox.Keys
  {
    forall y {:trigger LinkOk(cfg, nd, y)} :: y in nd.outbox ==> LinkOk(cfg, nd, y)
  }

  ghost predicate NodeOk(cfg: Config, nd: Node) {
    TablesOk(cfg, nd) && LinksOk(cfg, nd)
  }

  // ----- histories grow at the end -----

  lemma LastMessage(s: seq<Message>, m: Message, numPieces: nat)
    ensures (s + [m])[..|s + [m]| - 1] == s
    ensures ChokeFlag(s + [m]) == (if m.Choke? then true else if m.Unchoke? then false else ChokeFlag(s))
    ensures InterestFlag(s + [m])
         == (if m.Interested? then true else if m.NotInterested? then false else InterestFlag(s))
    ensures Record(s + [m], numPieces) == Noted(Record(s, numPieces), m, numPieces)
  {
    assert (s + [m])[..|s + [m]| - 1] == s;
  }

  // A record once one more message is received.
  function Noted(record: Option<Bytes>, m: Message, numPieces: nat): Option<Bytes> {
    match m
    case Bitfield(bits) => Some(bits)
    case Have(i) => Some(SetBit(if record.Some? then record.value else Zeros(numPieces), i))
    case _ => record
  }

  lemma ToldLater(s: seq<Message>, ms: seq<Message>)
    ensures forall i :: Told(s, i) ==> Told(s + ms, i)
  {
    forall i | Told(s, i)
      ensures Told(s + ms, i)
    {
      var k :| 0 <= k < |s| && Tells(s[k], i);
      assert (s + ms)[k] == s[k];
    }
  }

  lemma ToldAppend(s: seq<Message>, m: Message, i: nat)
    ensures Told(s + [m], i) <==> Told(s, i) || Tells(m, i)
  {
    if Told(s + [m], i) {
      var k :| 0 <= k < |s + [m]| && Tells((s + [m])[k], i);
      assert k < |s| ==> (s + [m])[k] == s[k];
    }
    if Told(s, i) {
      ToldLater(s, [m]);
    }
    if Tells(m, i) {
      ToldByLast(s, m, i);
    }
  }

  lemma ToldByLast(s: seq<Message>, m: Message, i: nat)
    requires Tells(m, i)
    ensures Told(s + [m], i)
  {
    assert (s + [m])[|s|] == m;
  }

  // A message may join an honest history if it is honest itself, and a bitfield if it is current.
  lemma TruthfulAppend(cfg: Config, pieces: Pieces, s: seq<Message>, m: Message)
    requires TruthfulTo(cfg, pieces, s) && Honest(cfg, pieces, m)
    requires m.Bitfield? ==> m.bits == BitfieldOf(pieces.Keys, cfg.numPieces)
    ensures TruthfulTo(cfg, pieces, s + [m])
  {
    var s' := s + [m];
    forall a, b, i: nat | 0 <= a < b < |s'| && s'[b].Bitfield? && Tells(s'[a], i) && i < cfg.numPieces
      ensures HasBit(s'[b].bits, i)
    {
      if b == |s| {
        assert Honest(cfg, pieces, s[a]);
        BitfieldOfBits(pieces.Keys, cfg.numPieces);
      }
    }
  }

  // What is honest stays honest as pieces are added.
  lemma TruthfulGrow(cfg: Config, pieces: Pieces, more: Pieces, s: seq<Message>)
    requires TruthfulTo(cfg, pieces, s)
    requires forall i :: i in pieces ==> i in more && more[i] == pieces[i]
    ensures TruthfulTo(cfg, more, s)
  {
    forall k | 0 <= k < |s|
      ensures Honest(cfg, more, s[k])
    {
      assert Honest(cfg, pieces, s[k]);
    }
  }

  lemma AlternatesAppend(s: seq<Message>, m: Message)
    requires Alternates(s)
    requires m.Unchoke? ==> ChokeFlag(s)
    requires m.Choke? || m.SendPiece? ==> !ChokeFlag(s)
    ensures Alternates(s + [m])
  {
    assert (s + [m])[..|s + [m]| - 1] == s;
  }

  // Messages other than bitfields, chokes and unchokes.
  predicate Plain(m: Message) {
    !m.Bitfield? && !m.Choke? && !m.Unchoke?
  }

  lemma {:induction false} PlainAppend(cfg: Config, pieces: Pieces, s: seq<Message>, ms: seq<Message>)
    requires TruthfulTo(cfg, pieces, s) && Alternates(s)
    requires forall m :: m in ms ==> Plain(m) && Honest(cfg, pieces, m) && (m.SendPiece? ==> !ChokeFlag(s))
    ensures TruthfulTo(cfg, pieces, s + ms) && Alternates(s + ms) && ChokeFlag(s + ms) == ChokeFlag(s)
  {
    if ms == [] {
      assert s + ms == s;
    } else {
      var front, last := ms[..|ms| - 1], ms[|ms| - 1];
      PlainAppend(cfg, pieces, s, front);
      TruthfulAppend(cfg, pieces, s + front, last);
      AlternatesAppend(s + front, last);
      LastMessage(s + front, last, cfg.numPieces);
      assert s + ms == s + front + [last];
    }
  }

  // A receiver's record and flags follow each message.
  lemma TracksNext(numPieces: nat, t: seq<Message>, m: Message, before: PeerView, after: PeerView,
                   record: Option<Bytes>)
    requires Tracks(numPieces, t, before, record)
    requires after.peerChoking == (if m.Choke? then true else if m.Unchoke? then false else before.peerChoking)
    requires after.peerInterested
          == (if m.Interested? then true else if m.NotInterested? then false else before.peerInterested)
    ensures Tracks(numPieces, t + [m], after, Noted(record, m, numPieces))
  {
    LastMessage(t, m, numPieces);
  }

  lemma AsksLater(numPieces: nat, s: seq<Message>, t: seq<Message>, m: Message, wanted: Option<seq<nat>>)
    requires AsksForTold(numPieces, s, t, wanted)
    ensures AsksForTold(numPieces, s, t + [m], wanted)
  {
    ToldLater(t, [m]);
  }

  // ----- steps that leave a link alone -----

  predicate SameFlags(a: PeerView, b: PeerView) {
    a.amChoking == b.amChoking && a.peerChoking == b.peerChoking && a.peerInterested == b.peerInterested
  }

  predicate SameLink(nd: Node, nd': Node, y: PeerId) {
    && y in nd.outbox && y in nd'.outbox && nd'.outbox[y] == nd.outbox[y]
    && y in nd.table.states && y in nd'.table.states && SameFlags(nd.table.states[y], nd'.table.states[y])
    && Log(nd'.inbox, y) == Log(nd.inbox, y)
    && Lookup(nd'.records, y) == Lookup(nd.records, y)
    && Lookup(nd'.pending, y) == Lookup(nd.pending, y)
  }

  lemma LinkFrame(cfg: Config, nd: Node, nd': Node, y: PeerId)
    requires SameLink(nd, nd', y) && LinkOk(cfg, nd, y)
    requires nd'.pieces == nd.pieces
    requires forall i :: Owes(nd.task, y, i) ==> Owes(nd'.task, y, i)
    ensures LinkOk(cfg, nd', y)
  {
  }
}
