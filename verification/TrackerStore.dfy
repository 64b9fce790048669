/** What the tracker's memory holds, tracker/memory_storage.go: two maps that are updated independently, and what their
    joint contents say about the operations that led to them. */
module TrackerStores {

  // A torrent's info hash; the source keys its maps by the hash in hexadecimal.
  type InfoHash = h: seq<bv8> | |h| == 20 witness seq(20, _ => 0)

  datatype Peer = Peer(id: string, ip: string, port: int, uploaded: int, downloaded: int, left: int, lastSeen: int)

  datatype Store = Store(peers: map<string, Peer>, torrents: map<InfoHash, set<string>>, completed: map<InfoHash, nat>)

  datatype Op =
    | Added(torrent: InfoHash, peer: Peer)
    | Removed(torrent: InfoHash, id: string)
    | Expired(cutoff: int)
    | Seen(id: string, now: int)
    | Completed(torrent: InfoHash)

  const EMPTY := Store(map[], map[], map[])

  function Members(s: Store, h: InfoHash): set<string> {
    if h in s.torrents then s.torrents[h] else {}
  }

  /** The peers a torrent shows: its members that have a record. */
  function Listed(s: Store, h: InfoHash): set<string> {
    set id | id in Members(s, h) && id in s.peers
  }

  function Downloads(s: Store, h: InfoHash): nat {
    if h in s.completed then s.completed[h] else 0
  }

  /** The peers last seen before the cutoff. */
  function Stale(peers: map<string, Peer>, cutoff: int): set<string> {
    set id | id in peers && peers[id].lastSeen < cutoff
  }

  function Step(s: Store, op: Op): Store {
    match op
    case Added(h, p) => s.(peers := s.peers[p.id := p], torrents := s.torrents[h := Members(s, h) + {p.id}])
    case Removed(h, id) =>
      s.(peers := s.peers - {id},
         torrents := if h in s.torrents then s.torrents[h := s.torrents[h] - {id}] else s.torrents)
    case Expired(cutoff) =>
      var gone := Stale(s.peers, cutoff);
      s.(peers := s.peers - gone, torrents := map h | h in s.torrents :: s.torrents[h] - gone)
    case Seen(id, now) =>
      if id in s.peers then s.(peers := s.peers[id := s.peers[id].(lastSeen := now)]) else s
    case Completed(h) => s.(completed := s.completed[h := Downloads(s, h) + 1])
  }

  /** The store after a history of operations. */
  function Run(ops: seq<Op>): Store {
    if ops == [] then EMPTY else Step(Run(ops[..|ops| - 1]), ops[|ops| - 1])
  }

  // ----- the meaning of a history -----

  /** The j-th operation finds the peer's record and drops it for its age. */
  predicate Expires(ops: seq<Op>, j: nat, id: string)
    requires j < |ops|
  {
    ops[j].Expired? && id in Stale(Run(ops[..j]).peers, ops[j].cutoff)
  }

  /** One torrent, or all of them. */
  datatype Scope = In(torrent: InfoHash) | Anywhere {
    predicate Covers(h: InfoHash) {
      Anywhere? || torrent == h
    }
  }

  /** The j-th operation is about the peer in the scope. */
  predicate Touches(ops: seq<Op>, j: nat, id: string, scope: Scope)
    requires j < |ops|
  {
    match ops[j]
    case Added(h, p) => p.id == id && scope.Covers(h)
    case Removed(h, i) => i == id && scope.Covers(h)
    case _ => Expires(ops, j, id)
  }

  ghost predicate UntouchedFrom(ops: seq<Op>, from: nat, id: string, scope: Scope) {
    forall j :: from <= j < |ops| ==> !Touches(ops, j, id, scope)
  }

  /** The i-th operation adds the peer in the scope, and none after it touches it there. */
  ghost predicate LastAdd(ops: seq<Op>, i: nat, id: string, scope: Scope) {
    i < |ops| && ops[i].Added? && Touches(ops, i, id, scope) && UntouchedFrom(ops, i + 1, id, scope)
  }

  ghost predicate LastTouchAdds(ops: seq<Op>, id: string, scope: Scope) {
    exists i :: LastAdd(ops, i, id, scope)
  }

  lemma TouchesPrefix(ops: seq<Op>, op: Op, j: nat, id: string, scope: Scope)
    requires j < |ops|
    ensures Touches(ops + [op], j, id, scope) == Touches(ops, j, id, scope)
  {
    assert (ops + [op])[..j] == ops[..j];
  }

  /** One more operation decides the matter if it touches the peer, and leaves it as it was otherwise. */
  lemma LastTouchStep(ops: seq<Op>, op: Op, id: string, scope: Scope)
    ensures var all := ops + [op];
      LastTouchAdds(all, id, scope) <==>
        if Touches(all, |ops|, id, scope) then op.Added? else LastTouchAdds(ops, id, scope)
  {
    var all := ops + [op];
    forall j | 0 <= j < |ops|
      ensures Touches(all, j, id, scope) == Touches(ops, j, id, scope)
    {
      TouchesPrefix(ops, op, j, id, scope);
    }
    if Touches(all, |ops|, id, scope) {
      if op.Added? {
        assert LastAdd(all, |ops|, id, scope);
      }
    } else if LastTouchAdds(all, id, scope) {
      var i :| LastAdd(all, i, id, scope);
      assert LastAdd(ops, i, id, scope);
    } else if LastTouchAdds(ops, id, scope) {
      var i :| LastAdd(ops, i, id, scope);
      assert LastAdd(all, i, id, scope);
    }
  }

  lemma RunStep(ops: seq<Op>, op: Op)
    ensures Run(ops + [op]) == Step(Run(ops), op)
    ensures forall id :: Expires(ops + [op], |ops|, id) <==> op.Expired? && id in Stale(Run(ops).peers, op.cutoff)
  {
    assert (ops + [op])[..|ops|] == ops;
  }

  /** A peer has a record exactly when the last operation about it, in any torrent, added it. */
  lemma {:induction false} RecordedIff(ops: seq<Op>, id: string)
    ensures id in Run(ops).peers <==> LastTouchAdds(ops, id, Anywhere)
  {
    if ops != [] {
      var init, op := ops[..|ops| - 1], ops[|ops| - 1];
      assert ops == init + [op];
      RecordedIff(init, id);
      RunStep(init, op);
      LastTouchStep(init, op, id, Anywhere);
    }
  }

  /** A peer is a member of a torrent exactly when the last operation about it there added it. */
  lemma {:induction false} MemberIff(ops: seq<Op>, id: string, h: InfoHash)
    ensures id in Members(Run(ops), h) <==> LastTouchAdds(ops, id, In(h))
  {
    if ops != [] {
      var init, op := ops[..|ops| - 1], ops[|ops| - 1];
      assert ops == init + [op];
      MemberIff(init, id, h);
      RunStep(init, op);
      LastTouchStep(init, op, id, In(h));
    }
  }

  /** After any history, a torrent lists a peer exactly when the last operation about the peer in that torrent was an
      add, and the last one about it in any torrent was an add. */
  lemma ListedIff(ops: seq<Op>, id: string, h: InfoHash)
    ensures id in Listed(Run(ops), h) <==> LastTouchAdds(ops, id, In(h)) && LastTouchAdds(ops, id, Anywhere)
  {
    RecordedIff(ops, id);
    MemberIff(ops, id, h);
  }

  // ----- the record that is kept -----

  /** The operation sets the time the peer was last seen. */
  predicate Refreshes(op: Op, id: string) {
    match op
    case Added(_, p) => p.id == id
    case Seen(i, _) => i == id
    case _ => false
  }

  function RefreshTime(op: Op): int
    requires op.Added? || op.Seen?
  {
    match op
    case Added(_, p) => p.lastSeen
    case Seen(_, now) => now
  }

  /** A recorded peer is as its last add gave it, in whatever torrent, but for the time it was last seen, which is that
      of the last add or sighting. */
  lemma {:induction false} RecordIsLatest(ops: seq<Op>, id: string) returns (i: nat, k: nat)
    requires id in Run(ops).peers
    ensures LastAdd(ops, i, id, Anywhere)
    ensures i <= k < |ops| && Refreshes(ops[k], id) && forall j :: k < j < |ops| ==> !Refreshes(ops[j], id)
    ensures Run(ops).peers[id] == ops[i].peer.(lastSeen := RefreshTime(ops[k]))
  {
    var last := |ops| - 1;
    var init, op := ops[..last], ops[last];
    assert ops == init + [op];
    RunStep(init, op);
    if op.Added? && op.peer.id == id {
      i, k := last, last;
    } else {
      i, k := RecordIsLatest(init, id);
      LastAddStays(init, op, i, id);
      if Refreshes(op, id) {
        k := last;
      }
    }
  }

  lemma LastAddStays(ops: seq<Op>, op: Op, i: nat, id: string)
    requires LastAdd(ops, i, id, Anywhere) && !Touches(ops + [op], |ops|, id, Anywhere)
    ensures LastAdd(ops + [op], i, id, Anywhere)
  {
    forall j | 0 <= j < |ops|
      ensures Touches(ops + [op], j, id, Anywhere) == Touches(ops, j, id, Anywhere)
    {
      TouchesPrefix(ops, op, j, id, Anywhere);
    }
  }

  // The peer's last refresh was before the cutoff.
  ghost predicate LastRefreshBefore(ops: seq<Op>, id: string, cutoff: int) {
    exists k :: 0 <= k < |ops| && Refreshes(ops[k], id) && RefreshTime(ops[k]) < cutoff
      && forall j :: k < j < |ops| ==> !Refreshes(ops[j], id)
  }

  /** Which cleanup drops a peer is a matter of the history before it: the last operation about the peer was an add,
      and the last add or sighting of it was before the cutoff. */
  lemma ExpiresIff(ops: seq<Op>, j: nat, id: string)
    requires j < |ops|
    ensures Expires(ops, j, id) <==>
      ops[j].Expired? && LastTouchAdds(ops[..j], id, Anywhere) && LastRefreshBefore(ops[..j], id, ops[j].cutoff)
  {
    var before := ops[..j];
    RecordedIff(before, id);
    if id in Run(before).peers {
      var i, k := RecordIsLatest(before, id);
      assert Run(before).peers[id].lastSeen == RefreshTime(before[k]);
      if ops[j].Expired? && LastRefreshBefore(before, id, ops[j].cutoff) {
        var l :| 0 <= l < |before| && Refreshes(before[l], id) && RefreshTime(before[l]) < ops[j].cutoff
          && forall m :: l < m < |before| ==> !Refreshes(before[m], id);
        assert !(k < l) && !(l < k);
      }
    }
  }

  // ----- completed downloads -----

  function CompletionsAt(ops: seq<Op>, h: InfoHash): set<nat> {
    set i: nat | i < |ops| && ops[i] == Completed(h)
  }

  /** After any history the count of a torrent is the number of its completed downloads; no other operation, for this
      torrent or another, changes it. */
  lemma {:induction false} DownloadsAreCompletions(ops: seq<Op>, h: InfoHash)
    ensures Downloads(Run(ops), h) == |CompletionsAt(ops, h)|
  {
    if ops == [] {
      assert CompletionsAt(ops, h) == {};
    } else {
      var last := |ops| - 1;
      DownloadsAreCompletions(ops[..last], h);
      CompletionsPush(ops[..last], ops[last], h);
      assert ops == ops[..last] + [ops[last]];
    }
  }

  lemma CompletionsPush(ops: seq<Op>, op: Op, h: InfoHash)
    ensures |CompletionsAt(ops + [op], h)| == |CompletionsAt(ops, h)| + (if op == Completed(h) then 1 else 0)
  {
    var more: set<nat> := if op == Completed(h) then {|ops|} else {};
    assert CompletionsAt(ops + [op], h) == CompletionsAt(ops, h) + more;
  }

  // ----- what a reader of one operation would not expect -----

  /** Leaving one torrent takes a peer out of every list. */
  lemma RemovalUnlistsEverywhere(s: Store, id: string, h: InfoHash, g: InfoHash)
    ensures Listed(Step(s, Removed(h, id)), g) == Listed(s, g) - {id}
  {
  }

  /** Its memberships elsewhere stay behind, and come back with its next add in any torrent: afterwards another torrent
      lists the peer exactly when it was a member there before it left. */
  lemma ReturnRestoresMemberships(s: Store, p: Peer, h: InfoHash, g: InfoHash)
    requires g != h
    ensures p.id in Listed(Step(Step(s, Removed(h, p.id)), Added(h, p)), g) <==> p.id in Members(s, g)
  {
  }

  /** Expiry, in contrast, leaves nothing behind: a peer that expired and comes back is listed where it comes back and
      nowhere else. */
  lemma ExpiryForgets(s: Store, cutoff: int, p: Peer, h: InfoHash, g: InfoHash)
    requires p.id in Stale(s.peers, cutoff)
    ensures p.id in Listed(Step(Step(s, Expired(cutoff)), Added(h, p)), g) <==> g == h
  {
  }
}
