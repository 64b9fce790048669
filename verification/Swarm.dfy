/** The swarm of one node, p2p/swarm.go: its peers, their flags and bitfields, and the choices it makes. */
module Swarms {
  import opened Bytes
  import opened Bitfields
  import opened Collections
  import opened Framing
  import opened Messages
  import opened PieceStore
  import opened PeerStates
  import opened Rarity
  import opened Sorting
  import opened Unchoking

  datatype PeerRanking = PeerRanking(id: PeerId, rate: real)

  datatype PieceRarity = PieceRarity(index: nat, count: nat)

  // A ranking lists each interested peer once, with its download rate.
  ghost predicate IsRanking(states: States, ranking: seq<PeerRanking>) {
    && NoDuplicates(ranking)
    && (forall r :: r in ranking <==> r.id in InterestedPeers(states) && r.rate == states[r.id].down.rate)
  }

  function FirstIds(ranking: seq<PeerRanking>, k: nat): set<PeerId>
    requires k <= |ranking|
  {
    set i | 0 <= i < k :: ranking[i].id
  }

  lemma {:induction false} FirstIdsSize(states: States, ranking: seq<PeerRanking>, k: nat)
    requires IsRanking(states, ranking) && k <= |ranking|
    ensures |FirstIds(ranking, k)| == k
  {
    if k > 0 {
      FirstIdsSize(states, ranking, k - 1);
      assert FirstIds(ranking, k) == FirstIds(ranking, k - 1) + {ranking[k - 1].id};
      forall i | 0 <= i < k - 1
        ensures ranking[i].id != ranking[k - 1].id
      {
        assert ranking[i] in ranking && ranking[k - 1] in ranking;
      }
    }
  }

  lemma RankingCoversInterested(states: States, ranking: seq<PeerRanking>)
    requires IsRanking(states, ranking)
    ensures FirstIds(ranking, |ranking|) == InterestedPeers(states)
    ensures |ranking| == |InterestedPeers(states)|
  {
    forall id | id in InterestedPeers(states)
      ensures id in FirstIds(ranking, |ranking|)
    {
      assert PeerRanking(id, states[id].down.rate) in ranking;
    }
    FirstIdsSize(states, ranking, |ranking|);
    forall id | id in FirstIds(ranking, |ranking|)
      ensures id in InterestedPeers(states)
    {
      var i :| 0 <= i < |ranking| && ranking[i].id == id;
      assert ranking[i] in ranking;
    }
  }

  // The first three of a ranking sorted by falling rate are a top.
  lemma SortedRankingTop(states: States, ranking: seq<PeerRanking>, k: nat)
    requires IsRanking(states, ranking)
    requires forall i, j :: 0 <= i < j < |ranking| ==> ranking[j].rate <= ranking[i].rate
    requires k == Min(MAX_UNCHOKED_PEERS - 1, |ranking|)
    ensures IsTop(states, FirstIds(ranking, k))
  {
    RankingCoversInterested(states, ranking);
    FirstIdsSize(states, ranking, k);
    forall a, b | a in FirstIds(ranking, k) && b in InterestedPeers(states) - FirstIds(ranking, k)
      ensures states[b].down.rate <= states[a].down.rate
    {
      var i :| 0 <= i < k && ranking[i].id == a;
      assert b in FirstIds(ranking, |ranking|);
      var j :| 0 <= j < |ranking| && ranking[j].id == b;
      assert ranking[i] in ranking && ranking[j] in ranking;
    }
  }

  // How many of the peers in `done` advertise piece i.
  function CountedIn(records: Records, i: int, done: set<PeerId>): nat {
    |Advertisers(records, i) * done|
  }

  lemma OneMoreAdvertiser(records: Records, i: nat, id: PeerId, done: set<PeerId>)
    requires id in records && id !in done
    ensures CountedIn(records, i, done + {id})
         == CountedIn(records, i, done) + (if HasBit(records[id], i) then 1 else 0)
  {
    var all := Advertisers(records, i);
    if HasBit(records[id], i) {
      assert all * (done + {id}) == all * done + {id};
    } else {
      assert all * (done + {id}) == all * done;
    }
  }

  // Candidates sorted by count list their indices rarest first.
  lemma IndicesInOrder(records: Records, bits: Bytes, held: set<int>, numPieces: nat, sorted: seq<PieceRarity>,
                       order: seq<nat>)
    requires NoDuplicates(sorted) && |order| == |sorted|
    requires forall i :: 0 <= i < |sorted| ==> order[i] == sorted[i].index
    requires forall c :: c in sorted <==>
      IsMissing(bits, held, numPieces, c.index) && c.count == Availability(records, c.index)
    requires forall i, j :: 0 <= i < j < |sorted| ==> sorted[i].count <= sorted[j].count
    ensures IsRarestOrder(records, bits, held, numPieces, order)
  {
    forall i | 0 <= i < |sorted|
      ensures IsMissing(bits, held, numPieces, order[i]) && sorted[i].count == Availability(records, order[i])
    {
      assert sorted[i] in sorted;
    }
    forall i: nat | IsMissing(bits, held, numPieces, i)
      ensures i in order
    {
      var c := PieceRarity(i, Availability(records, i));
      assert c in sorted;
      var k :| 0 <= k < |sorted| && sorted[k] == c;
      assert order[k] == i;
    }
  }

  class Swarm {
    var peers: map<PeerId, Peer>
    var peerStates: States
    var peerBitfields: Records
    const pieces: PieceManager
    var optimisticPeer: PeerId
    var unchokeRound: nat

    ghost function View(): Table
      reads this
    {
      Table(peerStates, optimisticPeer, unchokeRound)
    }

    ghost predicate Valid()
      reads this, pieces
    {
      && pieces.Valid()
      && peers.Keys <= peerStates.Keys
      && |UnchokedPeers(peerStates)| <= MAX_UNCHOKED_PEERS
    }

    constructor (pieces: PieceManager)
      requires pieces.Valid()
      ensures Valid() && this.pieces == pieces
      ensures peers == map[] && View() == Table(map[], ZERO_ID, 0) && peerBitfields == map[]
    {
      this.pieces := pieces;
      peers, peerStates, peerBitfields := map[], map[], map[];
      optimisticPeer, unchokeRound := ZERO_ID, 0;
      new;
      assert UnchokedPeers(peerStates) == {};
    }

    method AddPeer(id: PeerId, p: Peer, now: real) returns (ok: bool)
      requires Valid()
      modifies this`peers, this`peerStates
      ensures Valid()
      ensures ok <==> id !in old(peers)
      ensures peers == if ok then old(peers)[id := p] else old(peers)
      ensures peerStates == if ok then old(peerStates)[id := NewView(now)] else old(peerStates)
    {
      if id in peers {
        return false;
      }
      JoinTakesNoSlot(peerStates, id, now);
      peers := peers[id := p];
      peerStates := peerStates[id := NewView(now)];
      return true;
    }

    method RemovePeer(id: PeerId)
      requires Valid()
      modifies this`peers, this`peerStates, this`peerBitfields
      ensures Valid()
      ensures var gone := if id in old(peers) then {id} else {};
              && peers == old(peers) - gone
              && peerStates == old(peerStates) - gone
              && peerBitfields == old(peerBitfields) - gone
    {
      if id in peers {
        LeaveTakesNoSlot(peerStates, id);
        peers := peers[id := peers[id].Close()];
        peers := peers - {id};
        peerStates := peerStates - {id};
        peerBitfields := peerBitfields - {id};
      }
    }

    // Registers a peer and sends it our bitfield; one we cannot send to is dropped again.
    method OnPeer(id: PeerId, p: Peer, now: real) returns (ok: bool)
      requires Valid()
      modifies this`peers, this`peerStates
      ensures Valid()
      ensures ok <==> id !in old(peers) && p.Accepts(1)
      ensures peers == if ok then old(peers)[id := p.Send(Bitfield(BitfieldOf(pieces.pieces.Keys, pieces.numPieces)))]
                       else old(peers)
      ensures peerStates == if ok then old(peerStates)[id := NewView(now)]
                            else if id in peers then old(peerStates)
                            else old(peerStates) - {id}
    {
      if id in peers {
        return false;
      }
      JoinTakesNoSlot(peerStates, id, now);
      LeaveTakesNoSlot(peerStates, id);
      peers := peers[id := p];
      peerStates := peerStates[id := NewView(now)];
      var bits := pieces.Bitfield();
      ok := SendTo(id, Bitfield(bits));
      if !ok {
        peers := peers[id := peers[id].Close()];
        peers := peers - {id};
        peerStates := peerStates - {id};
        assert peerStates == old(peerStates) - {id};
      }
    }

    // Looks a peer up and sends it one message; false when it is unknown or does not accept it.
    method SendTo(id: PeerId, m: Message) returns (ok: bool)
      modifies this`peers
      ensures ok <==> id in old(peers) && old(peers)[id].Accepts(1)
      ensures peers == if ok then old(peers)[id := old(peers)[id].Send(m)] else old(peers)
    {
      ok := id in peers && peers[id].Accepts(1);
      if ok {
        peers := peers[id := peers[id].Send(m)];
      }
    }

    // The write loop of a peer takes n of its messages off the queue.
    method Drain(id: PeerId, n: nat)
      requires id in peers && n <= peers[id].queued
      modifies this`peers
      ensures peers == old(peers)[id := old(peers)[id].Drain(n)]
    {
      peers := peers[id := peers[id].Drain(n)];
    }

    // A snapshot of the peers, in no particular order.
    method Peers() returns (snapshot: seq<PeerId>)
      ensures NoDuplicates(snapshot)
      ensures forall id :: id in snapshot <==> id in peers
    {
      snapshot := [];
      var todo := peers.Keys;
      while todo != {}
        invariant todo <= peers.Keys
        invariant NoDuplicates(snapshot)
        invariant forall id :: id in snapshot <==> id in peers.Keys - todo
      {
        var id :| id in todo;
        assert id !in snapshot;
        snapshot := snapshot + [id];
        todo := todo - {id};
      }
    }

    // Closes and forgets every peer. Their states stay behind.
    method Close()
      requires Valid()
      modifies this`peers
      ensures Valid() && peers == map[]
    {
      while peers.Keys != {}
        invariant peers.Keys <= peerStates.Keys
        decreases peers.Keys
      {
        var id :| id in peers.Keys;
        peers := peers[id := peers[id].Close()];
        assert (peers - {id}).Keys == peers.Keys - {id};
        peers := peers - {id};
      }
    }

    method SetPeerInterested(id: PeerId, interested: bool)
      modifies this`peerStates
      ensures peerStates == if id in old(peerStates)
                            then old(peerStates)[id := old(peerStates)[id].(peerInterested := interested)]
                            else old(peerStates)
    {
      if id in peerStates {
        peerStates := peerStates[id := peerStates[id].(peerInterested := interested)];
      }
    }

    method SetPeerChoking(id: PeerId, choking: bool)
      modifies this`peerStates
      ensures peerStates == if id in old(peerStates)
                            then old(peerStates)[id := old(peerStates)[id].(peerChoking := choking)]
                            else old(peerStates)
    {
      if id in peerStates {
        peerStates := peerStates[id := peerStates[id].(peerChoking := choking)];
      }
    }

    method RecordUpload(id: PeerId, n: nat)
      modifies this`peerStates
      ensures peerStates == if id in old(peerStates)
                            then old(peerStates)[id := old(peerStates)[id].(up := old(peerStates)[id].up.Add(n))]
                            else old(peerStates)
    {
      if id in peerStates {
        peerStates := peerStates[id := peerStates[id].(up := peerStates[id].up.Add(n))];
      }
    }

    method RecordDownload(id: PeerId, n: nat)
      modifies this`peerStates
      ensures peerStates == if id in old(peerStates)
                            then old(peerStates)[id := old(peerStates)[id].(down := old(peerStates)[id].down.Add(n))]
                            else old(peerStates)
    {
      if id in peerStates {
        peerStates := peerStates[id := peerStates[id].(down := peerStates[id].down.Add(n))];
      }
    }

    method IsChoking(id: PeerId) returns (choking: bool)
      ensures choking <==> id !in UnchokedPeers(peerStates)
    {
      choking := if id in peerStates then peerStates[id].amChoking else true;
    }

    method UpdatePeerBitfield(id: PeerId, bits: Bytes)
      modifies this`peerBitfields
      ensures peerBitfields == old(peerBitfields)[id := bits]
    {
      var copied := bits;
      peerBitfields := peerBitfields[id := copied];
    }

    method SetPeerHasPiece(id: PeerId, index: nat)
      modifies this`peerBitfields
      ensures peerBitfields == old(peerBitfields)[id := WithPiece(old(peerBitfields), id, pieces.numPieces, index)]
    {
      if id !in peerBitfields {
        peerBitfields := peerBitfields[id := Zeros(pieces.numPieces)];
      }
      var bits := peerBitfields[id];
      if index / 8 < |bits| {
        peerBitfields := peerBitfields[id := bits[index / 8 := bits[index / 8] | Mask(index)]];
      }
    }

    method UpdateAllRates(clock: PeerId -> real)
      modifies this`peerStates
      ensures peerStates == AllUpdated(old(peerStates), clock)
      ensures forall id :: id in peerStates ==>
        id in old(peerStates) && ViewAfter(old(peerStates)[id], peerStates[id], clock(id))
    {
      var before := peerStates;
      var todo := before.Keys;
      while todo != {}
        invariant todo <= before.Keys && peerStates.Keys == before.Keys
        invariant forall id :: id in before ==>
          peerStates[id] == if id in todo then before[id] else RatesUpdated(before[id], clock(id))
      {
        var id :| id in todo;
        peerStates := peerStates[id := RatesUpdated(peerStates[id], clock(id))];
        todo := todo - {id};
      }
      forall id | id in before
        ensures ViewAfter(before[id], peerStates[id], clock(id))
      {
        UpdateIsCommit(before[id], clock(id));
      }
    }

    method RankInterested() returns (ranking: array<PeerRanking>)
      ensures fresh(ranking) && IsRanking(peerStates, ranking[..])
      ensures forall i, j :: 0 <= i < j < ranking.Length ==> ranking[j].rate <= ranking[i].rate
    {
      var interested: seq<PeerRanking> := [];
      var todo := peerStates.Keys;
      while todo != {}
        invariant todo <= peerStates.Keys
        invariant NoDuplicates(interested)
        invariant forall r :: r in interested <==>
          r.id in InterestedPeers(peerStates) - todo && r.rate == peerStates[r.id].down.rate
      {
        var id :| id in todo;
        if peerStates[id].peerInterested {
          interested := interested + [PeerRanking(id, peerStates[id].down.rate)];
        }
        todo := todo - {id};
      }
      ranking := new PeerRanking[|interested|](i requires 0 <= i < |interested| => interested[i]);
      assert ranking[..] == interested;
      var key := (r: PeerRanking) => -r.rate;
      SortSlice(ranking, key);
      PermutationKeepsElements(interested, ranking[..]);
      assert forall i :: 0 <= i < ranking.Length ==> key(ranking[..][i]) == -ranking[i].rate;
    }

    method PickTop() returns (top: set<PeerId>)
      ensures IsTop(peerStates, top)
    {
      var ranking := RankInterested();
      top := {};
      var count := 0;
      while count < ranking.Length && count < MAX_UNCHOKED_PEERS - 1
        invariant count <= ranking.Length && count <= MAX_UNCHOKED_PEERS - 1
        invariant top == FirstIds(ranking[..], count)
      {
        top := top + {ranking[count].id};
        count := count + 1;
      }
      SortedRankingTop(peerStates, ranking[..], count);
    }

    method PickOptimistic(top: set<PeerId>)
      modifies this`optimisticPeer
      ensures PicksOptimistic(peerStates, top, unchokeRound, old(optimisticPeer), optimisticPeer)
    {
      if unchokeRound % OPTIMISTIC_UNCHOKE_INTERVAL == 0 || optimisticPeer == ZERO_ID {
        var chokedInterested: seq<PeerId> := [];
        var todo := peerStates.Keys;
        while todo != {}
          invariant todo <= peerStates.Keys
          invariant forall id :: id in chokedInterested <==> id in InterestedPeers(peerStates) - top - todo
        {
          var id :| id in todo;
          if peerStates[id].peerInterested && id !in top {
            chokedInterested := chokedInterested + [id];
          }
          todo := todo - {id};
        }
        assert |chokedInterested| == 0 ==> InterestedPeers(peerStates) - top == {} by {
          assert forall id :: id in InterestedPeers(peerStates) - top ==> id in chokedInterested;
        }
        if |chokedInterested| > 0 {
          var n: nat :| n < |chokedInterested|;
          assert chokedInterested[n] in chokedInterested;
          optimisticPeer := chokedInterested[n];
        }
      }
    }

    method Rechoke(toUnchoke: set<PeerId>) returns (actions: seq<UnchokeAction>)
      modifies this`peerStates
      ensures peerStates == Rechoked(old(peerStates), toUnchoke)
      ensures AreActions(old(peerStates), peerStates, actions)
    {
      actions := [];
      var before := peerStates;
      var todo := before.Keys;
      while todo != {}
        invariant todo <= before.Keys && peerStates.Keys == before.Keys
        invariant forall id :: id in before ==>
          peerStates[id] == if id in todo then before[id] else before[id].(amChoking := id !in toUnchoke)
        invariant AreActions(before, peerStates, actions)
      {
        var id :| id in todo;
        var shouldUnchoke := id in toUnchoke;
        var currentlyChoking := peerStates[id].amChoking;
        if shouldUnchoke && currentlyChoking {
          peerStates := peerStates[id := peerStates[id].(amChoking := false)];
          actions := actions + [UnchokeAction(id, true)];
        } else if !shouldUnchoke && !currentlyChoking {
          peerStates := peerStates[id := peerStates[id].(amChoking := true)];
          actions := actions + [UnchokeAction(id, false)];
        }
        todo := todo - {id};
      }
    }

    // The round itself, under the swarm's lock.
    method DecideRound(clock: PeerId -> real) returns (actions: seq<UnchokeAction>, ghost top: set<PeerId>)
      modifies this`peerStates, this`optimisticPeer, this`unchokeRound
      ensures Round(old(View()), clock, top, View())
      ensures AreActions(AllUpdated(old(peerStates), clock), peerStates, actions)
    {
      unchokeRound := unchokeRound + 1;
      UpdateAllRates(clock);
      ghost var states := peerStates;
      var toUnchoke := PickTop();
      top := toUnchoke;
      PickOptimistic(toUnchoke);
      if optimisticPeer != ZERO_ID && optimisticPeer in peerStates {
        toUnchoke := toUnchoke + {optimisticPeer};
      }
      assert toUnchoke == Chosen(states, top, optimisticPeer);
      actions := Rechoke(toUnchoke);
    }

    method RunUnchokeAlgorithm(clock: PeerId -> real) returns (actions: seq<UnchokeAction>, ghost top: set<PeerId>)
      requires Valid()
      modifies this`peerStates, this`optimisticPeer, this`unchokeRound
      ensures Valid()
      ensures Round(old(View()), clock, top, View())
      ensures AreActions(AllUpdated(old(peerStates), clock), peerStates, actions)
    {
      actions, top := DecideRound(clock);
      RoundUnchokes(old(View()), clock, top, View());
    }

    method CountAvailability() returns (availability: array<nat>)
      ensures fresh(availability) && availability.Length == pieces.numPieces
      ensures forall i :: 0 <= i < availability.Length ==> availability[i] == Availability(peerBitfields, i)
    {
      availability := new nat[pieces.numPieces](_ => 0);
      assert forall i :: 0 <= i < availability.Length ==> Advertisers(peerBitfields, i) * {} == {};
      var todo := peerBitfields.Keys;
      while todo != {}
        invariant todo <= peerBitfields.Keys
        invariant forall i :: 0 <= i < availability.Length ==>
          availability[i] == CountedIn(peerBitfields, i, peerBitfields.Keys - todo)
      {
        var id :| id in todo;
        ghost var done := peerBitfields.Keys - todo;
        AddAdvertiser(availability, id, done);
        todo := todo - {id};
        assert peerBitfields.Keys - todo == done + {id};
      }
      forall i | 0 <= i < availability.Length
        ensures availability[i] == Availability(peerBitfields, i)
      {
        assert Advertisers(peerBitfields, i) * peerBitfields.Keys == Advertisers(peerBitfields, i);
      }
    }

    method AddAdvertiser(availability: array<nat>, id: PeerId, ghost done: set<PeerId>)
      requires id in peerBitfields && id !in done && availability.Length == pieces.numPieces
      requires forall i :: 0 <= i < availability.Length ==> availability[i] == CountedIn(peerBitfields, i, done)
      modifies availability
      ensures forall i :: 0 <= i < availability.Length ==>
        availability[i] == CountedIn(peerBitfields, i, done + {id})
    {
      var bits := peerBitfields[id];
      for i := 0 to pieces.numPieces
        invariant forall k :: 0 <= k < availability.Length ==>
          availability[k] == old(availability[k]) + (if k < i && HasBit(bits, k) then 1 else 0)
      {
        if i / 8 < |bits| && bits[i / 8] & Mask(i) != 0 {
          availability[i] := availability[i] + 1;
        }
      }
      forall i | 0 <= i < availability.Length
        ensures availability[i] == CountedIn(peerBitfields, i, done + {id})
      {
        OneMoreAdvertiser(peerBitfields, i, id, done);
      }
    }

    method Candidates(bits: Bytes, availability: array<nat>) returns (candidates: seq<PieceRarity>)
      requires availability.Length == pieces.numPieces
      ensures NoDuplicates(candidates)
      ensures forall c :: c in candidates <==>
        IsMissing(bits, pieces.pieces.Keys, pieces.numPieces, c.index) && c.count == availability[c.index]
    {
      candidates := [];
      for i := 0 to pieces.numPieces
        invariant NoDuplicates(candidates)
        invariant forall c :: c in candidates <==>
          c.index < i && IsMissing(bits, pieces.pieces.Keys, pieces.numPieces, c.index)
          && c.count == availability[c.index]
      {
        if i in pieces.pieces {
          continue;
        }
        if i / 8 >= |bits| {
          continue;
        }
        var peerHas := bits[i / 8] & Mask(i) != 0;
        assert peerHas == IsMissing(bits, pieces.pieces.Keys, pieces.numPieces, i);
        if peerHas {
          candidates := candidates + [PieceRarity(i, availability[i])];
        }
      }
    }

    method GetRarestMissingPieces(bits: Bytes) returns (result: seq<nat>)
      ensures IsRarestOrder(peerBitfields, bits, pieces.pieces.Keys, pieces.numPieces, result)
    {
      var availability := CountAvailability();
      var candidates := Candidates(bits, availability);
      var sorted := new PieceRarity[|candidates|](i requires 0 <= i < |candidates| => candidates[i]);
      assert sorted[..] == candidates;
      var key := (c: PieceRarity) => c.count as real;
      SortSlice(sorted, key);
      PermutationKeepsElements(candidates, sorted[..]);
      assert forall i, j :: 0 <= i < j < sorted.Length ==> key(sorted[..][i]) <= key(sorted[..][j]);
      result := seq(sorted.Length, i requires 0 <= i < sorted.Length reads sorted => sorted[i].index);
      IndicesInOrder(peerBitfields, bits, pieces.pieces.Keys, pieces.numPieces, sorted[..], result);
    }
  }
}
