/** The tracker's memory storage and announce handler as they run, tracker/memory_storage.go and
    tracker/server.go:84-126. */
module TrackerServers {
  import opened Bytes
  import opened Collections
  import opened TrackerStores

  // Thirty minutes, in nanoseconds.
  const PEER_TTL := 30 * 60 * 1_000_000_000

  datatype TorrentInfo = TorrentInfo(infoHash: InfoHash, seeders: seq<string>, leechers: seq<string>, completed: nat)

  function Min(a: int, b: int): int {
    if a <= b then a else b
  }

  function Max(a: int, b: int): int {
    if a >= b then a else b
  }

  /** The records of the ids in `taken`, each once. */
  ghost predicate Collected(peers: map<string, Peer>, taken: set<string>, found: seq<Peer>) {
    && taken <= peers.Keys && |taken| == |found|
    && (forall id :: id in taken ==> peers[id] in found)
    && (forall p :: p in found ==> p.id in taken && p == peers[p.id])
    && (forall i, j :: 0 <= i < j < |found| ==> found[i].id != found[j].id)
  }

  lemma CollectOne(peers: map<string, Peer>, taken: set<string>, found: seq<Peer>, id: string)
    requires Collected(peers, taken, found)
    requires id in peers && peers[id].id == id && id !in taken
    ensures Collected(peers, taken + {id}, found + [peers[id]])
  {
    assert forall i :: 0 <= i < |found| ==> found[i] in found;
  }

  /** The ids in `done`, each once, split by whether their peers have something left to download. */
  ghost predicate SplitByLeft(peers: map<string, Peer>, done: set<string>, seeders: seq<string>, leechers: seq<string>)
  {
    && done <= peers.Keys && |seeders| + |leechers| == |done|
    && NoDuplicates(seeders) && NoDuplicates(leechers)
    && (forall id :: id in seeders <==> id in done && peers[id].left == 0)
    && (forall id :: id in leechers <==> id in done && peers[id].left != 0)
  }

  lemma SplitSeeder(peers: map<string, Peer>, done: set<string>, seeders: seq<string>, leechers: seq<string>,
                    id: string)
    requires SplitByLeft(peers, done, seeders, leechers)
    requires id in peers && id !in done && peers[id].left == 0
    ensures SplitByLeft(peers, done + {id}, seeders + [id], leechers)
  {
    assert id !in seeders;
  }

  lemma SplitLeecher(peers: map<string, Peer>, done: set<string>, seeders: seq<string>, leechers: seq<string>,
                     id: string)
    requires SplitByLeft(peers, done, seeders, leechers)
    requires id in peers && id !in done && peers[id].left != 0
    ensures SplitByLeft(peers, done + {id}, seeders, leechers + [id])
  {
    assert id !in leechers;
  }

  function Swept(torrents: map<InfoHash, set<string>>, gone: set<string>): map<InfoHash, set<string>> {
    map h | h in torrents :: torrents[h] - gone
  }

  /** Midway through a cleanup: the stale peers that are no longer pending have been dropped everywhere. */
  ghost predicate Sweeping(before: Store, cutoff: int, pending: set<string>, now: Store) {
    var gone := Stale(before.peers, cutoff) - pending;
    && pending <= before.peers.Keys
    && now == Store(before.peers - gone, Swept(before.torrents, gone), before.completed)
  }

  lemma SweepStarts(s: Store, cutoff: int)
    ensures Sweeping(s, cutoff, s.peers.Keys, s)
  {
    assert Stale(s.peers, cutoff) - s.peers.Keys == {};
    forall h | h in s.torrents
      ensures s.torrents[h] - {} == s.torrents[h]
    {
    }
    assert s.peers - {} == s.peers && Swept(s.torrents, {}) == s.torrents;
  }

  lemma SweepStep(before: Store, cutoff: int, pending: set<string>, now: Store, id: string)
    requires Sweeping(before, cutoff, pending, now) && id in pending
    ensures id in now.peers
    ensures Sweeping(before, cutoff, pending - {id},
      if now.peers[id].lastSeen < cutoff then Store(now.peers - {id}, Swept(now.torrents, {id}), now.completed)
      else now)
  {
    var stale := Stale(before.peers, cutoff);
    var gone := stale - pending;
    if now.peers[id].lastSeen < cutoff {
      assert stale - (pending - {id}) == gone + {id};
      assert before.peers - gone - {id} == before.peers - (gone + {id});
      SweptTwice(before.torrents, gone, id);
    } else {
      assert stale - (pending - {id}) == gone;
    }
  }

  lemma SweptTwice(torrents: map<InfoHash, set<string>>, gone: set<string>, id: string)
    ensures Swept(Swept(torrents, gone), {id}) == Swept(torrents, gone + {id})
  {
    forall h | h in torrents
      ensures torrents[h] - gone - {id} == torrents[h] - (gone + {id})
    {
    }
  }

  class MemoryStorage {
    var peers: map<string, Peer>
    var torrents: map<InfoHash, set<string>>
    var completed: map<InfoHash, nat>

    function View(): Store
      reads this
    {
      Store(peers, torrents, completed)
    }

    /** Every record is kept under its own id. */
    ghost predicate Valid()
      reads this
    {
      forall id :: id in peers ==> peers[id].id == id
    }

    constructor ()
      ensures Valid() && View() == EMPTY
    {
      peers, torrents, completed := map[], map[], map[];
    }

    method AddPeer(infoHash: InfoHash, peer: Peer)
      requires Valid()
      modifies this
      ensures Valid() && View() == Step(old(View()), Added(infoHash, peer))
    {
      peers := peers[peer.id := peer];
      if infoHash !in torrents {
        torrents := torrents[infoHash := {}];
      }
      torrents := torrents[infoHash := torrents[infoHash] + {peer.id}];
    }

    method RemovePeer(infoHash: InfoHash, peerID: string)
      requires Valid()
      modifies this
      ensures Valid() && View() == Step(old(View()), Removed(infoHash, peerID))
    {
      peers := peers - {peerID};
      if infoHash in torrents {
        torrents := torrents[infoHash := torrents[infoHash] - {peerID}];
      }
    }

    method GetPeer(peerID: string) returns (peer: Option<Peer>)
      requires Valid()
      ensures peer.Some? <==> peerID in peers
      ensures peer.Some? ==> peer.value == peers[peerID] && peer.value.id == peerID
    {
      if peerID !in peers {
        return None;
      }
      peer := Some(peers[peerID]);
    }

    /** Some listed peers, each once, as many as there are up to `maxPeers`; which ones is left to the map's order. */
    method GetPeers(infoHash: InfoHash, maxPeers: int) returns (found: seq<Peer>)
      requires Valid()
      ensures |found| == Min(Max(maxPeers, 0), |Listed(View(), infoHash)|)
      ensures forall p :: p in found ==> p.id in Listed(View(), infoHash) && p == peers[p.id]
      ensures forall i, j :: 0 <= i < j < |found| ==> found[i].id != found[j].id
      ensures maxPeers >= |Listed(View(), infoHash)| ==>
        forall id :: id in Listed(View(), infoHash) ==> peers[id] in found
    {
      found := [];
      ghost var listed := Listed(View(), infoHash);
      if infoHash !in torrents {
        assert listed == {};
        return;
      }
      ghost var taken: set<string> := {};
      var pending := torrents[infoHash];
      while pending != {}
        invariant taken <= listed && listed - taken <= pending <= torrents[infoHash] && taken !! pending
        invariant |found| <= Max(maxPeers, 0) && Collected(peers, taken, found)
        decreases |pending|
      {
        if |found| >= maxPeers {
          break;
        }
        var peerID :| peerID in pending;
        pending := pending - {peerID};
        if peerID in peers {
          CollectOne(peers, taken, found, peerID);
          found := found + [peers[peerID]];
          taken := taken + {peerID};
        }
      }
      SubsetSize(taken, listed);
      assert pending == {} ==> taken == listed;
    }

    /** The listed peers, split by what they have left to download. */
    method GetTorrentStats(infoHash: InfoHash) returns (info: TorrentInfo)
      requires Valid()
      ensures info.infoHash == infoHash && info.completed == Downloads(View(), infoHash)
      ensures NoDuplicates(info.seeders) && NoDuplicates(info.leechers)
      ensures forall id :: id in info.seeders <==> id in Listed(View(), infoHash) && peers[id].left == 0
      ensures forall id :: id in info.leechers <==> id in Listed(View(), infoHash) && peers[id].left != 0
      ensures |info.seeders| + |info.leechers| == |Listed(View(), infoHash)|
    {
      var seeders: seq<string>, leechers: seq<string> := [], [];
      ghost var listed := Listed(View(), infoHash);
      ghost var done: set<string> := {};
      if infoHash in torrents {
        var pending := torrents[infoHash];
        while pending != {}
          invariant done <= listed && listed - done <= pending <= torrents[infoHash] && done !! pending
          invariant SplitByLeft(peers, done, seeders, leechers)
          decreases |pending|
        {
          var peerID :| peerID in pending;
          pending := pending - {peerID};
          if peerID in peers {
            if peers[peerID].left == 0 {
              SplitSeeder(peers, done, seeders, leechers, peerID);
              seeders := seeders + [peerID];
            } else {
              SplitLeecher(peers, done, seeders, leechers, peerID);
              leechers := leechers + [peerID];
            }
            done := done + {peerID};
          }
        }
      }
      assert done == listed;
      info := TorrentInfo(infoHash, seeders, leechers, if infoHash in completed then completed[infoHash] else 0);
    }

    method IncrementCompleted(infoHash: InfoHash)
      requires Valid()
      modifies this
      ensures Valid() && View() == Step(old(View()), Completed(infoHash))
    {
      completed := completed[infoHash := (if infoHash in completed then completed[infoHash] else 0) + 1];
    }

    method UpdatePeerLastSeen(peerID: string, now: int)
      requires Valid()
      modifies this
      ensures Valid() && View() == Step(old(View()), Seen(peerID, now))
    {
      if peerID in peers {
        peers := peers[peerID := peers[peerID].(lastSeen := now)];
      }
    }

    /** Drops the peers last seen over thirty minutes ago, from their torrents too. */
    method CleanupExpiredPeers(now: int)
      requires Valid()
      modifies this
      ensures Valid() && View() == Step(old(View()), Expired(now - PEER_TTL))
    {
      var cutoff := now - PEER_TTL;
      ghost var before := View();
      var pending := peers.Keys;
      SweepStarts(before, cutoff);
      while pending != {}
        invariant Sweeping(before, cutoff, pending, View())
        decreases |pending|
      {
        var peerID :| peerID in pending;
        SweepStep(before, cutoff, pending, View(), peerID);
        pending := pending - {peerID};
        if peers[peerID].lastSeen < cutoff {
          DropPeer(peerID);
        }
      }
      assert Stale(before.peers, cutoff) - {} == Stale(before.peers, cutoff);
    }

    method DropPeer(peerID: string)
      modifies this
      ensures View() == Store(old(peers) - {peerID}, Swept(old(torrents), {peerID}), old(completed))
    {
      peers := peers - {peerID};
      RemoveEverywhere(peerID);
    }

    /** The inner loop over the torrents. */
    method RemoveEverywhere(peerID: string)
      modifies this`torrents
      ensures torrents == Swept(old(torrents), {peerID})
    {
      var pending := torrents.Keys;
      while pending != {}
        invariant torrents.Keys == old(torrents).Keys && pending <= torrents.Keys
        invariant forall h :: h in torrents ==>
          torrents[h] == if h in pending then old(torrents)[h] else old(torrents)[h] - {peerID}
        decreases |pending|
      {
        var h :| h in pending;
        pending := pending - {h};
        torrents := torrents[h := torrents[h] - {peerID}];
      }
    }
  }

  /** An announce: what the request's parameters parse to. */
  datatype Announce = Announce(infoHash: InfoHash, peer: Peer, event: string, numWant: int)

  /** The operations an announce performs on the store. */
  function Operations(a: Announce): seq<Op> {
    if a.event == "stopped" then [Removed(a.infoHash, a.peer.id)]
    else if a.event == "completed" then [Added(a.infoHash, a.peer.(left := 0)), Completed(a.infoHash)]
    else [Added(a.infoHash, a.peer)]
  }

  function Steps(s: Store, ops: seq<Op>): Store
    decreases |ops|
  {
    if ops == [] then s else Steps(Step(s, ops[0]), ops[1..])
  }

  lemma StepsApart(s: Store, a: Op, b: Op)
    ensures Steps(s, [a]) == Step(s, a)
    ensures Steps(s, [a, b]) == Step(Step(s, a), b)
  {
    assert Steps(s, [a]) == Steps(Step(s, a), []);
    assert [a, b][1..] == [b];
    assert Steps(Step(s, a), [b]) == Steps(Step(Step(s, a), b), []);
  }

  lemma {:induction false} StepsExtend(history: seq<Op>, ops: seq<Op>)
    ensures Steps(Run(history), ops) == Run(history + ops)
    decreases |ops|
  {
    if ops == [] {
      assert history + ops == history;
    } else {
      RunStep(history, ops[0]);
      StepsExtend(history + [ops[0]], ops[1..]);
      assert history + [ops[0]] + ops[1..] == history + ops;
    }
  }

  /** An announce extends the history of a tracker's store by its own operations, and after it a torrent lists a peer
      exactly when the last operation about the peer, in that torrent and in any, was an add. */
  lemma AnnounceExtendsHistory(history: seq<Op>, a: Announce, id: string, h: InfoHash)
    ensures Steps(Run(history), Operations(a)) == Run(history + Operations(a))
    ensures var ops := history + Operations(a);
      id in Listed(Steps(Run(history), Operations(a)), h) <==>
        LastTouchAdds(ops, id, In(h)) && LastTouchAdds(ops, id, Anywhere)
  {
    StepsExtend(history, Operations(a));
    ListedIff(history + Operations(a), id, h);
  }

  /** An announce puts its peer on the torrent's list unless it says stopped, and moves nobody else on or off a list;
      its peer is then recorded as announced, with nothing left if it says completed, and only then a download is
      counted. */
  lemma AnnounceEffect(s: Store, a: Announce, id: string, h: InfoHash)
    ensures id == a.peer.id && h == a.infoHash ==>
      (id in Listed(Steps(s, Operations(a)), h) <==> a.event != "stopped")
    ensures id != a.peer.id ==> (id in Listed(Steps(s, Operations(a)), h) <==> id in Listed(s, h))
    ensures a.event != "stopped" ==> a.peer.id in Steps(s, Operations(a)).peers
    ensures a.event != "stopped" ==>
      Steps(s, Operations(a)).peers[a.peer.id] == if a.event == "completed" then a.peer.(left := 0) else a.peer
    ensures Downloads(Steps(s, Operations(a)), h) ==
      Downloads(s, h) + (if a.event == "completed" && h == a.infoHash then 1 else 0)
  {
    StepsApart(s, Operations(a)[0], Completed(a.infoHash));
  }

  /** How many peers an announce asks for; zero or nothing stands for fifty. */
  function Wanted(a: Announce): nat {
    if a.numWant == 0 then 50 else Max(a.numWant, 0)
  }

  class Tracker {
    const store: MemoryStorage

    constructor (store: MemoryStorage)
      ensures this.store == store
    {
      this.store := store;
    }

    /** The store changes as the event says. The answer never holds the peer itself; it holds all the others when there
        is room for all, and as many as wanted, or one less, when there is not. */
    method HandleAnnounce(a: Announce) returns (answer: seq<Peer>)
      requires store.Valid()
      modifies store
      ensures store.Valid() && store.View() == Steps(old(store.View()), Operations(a))
      ensures a.event == "stopped" ==> answer == []
      ensures forall p :: p in answer ==>
        p.id != a.peer.id && p.id in Listed(store.View(), a.infoHash) && p == store.peers[p.id]
      ensures forall i, j :: 0 <= i < j < |answer| ==> answer[i].id != answer[j].id
      ensures var listed := Listed(store.View(), a.infoHash);
        a.event != "stopped" && |listed| <= Wanted(a) ==>
          forall id :: id in listed && id != a.peer.id ==> store.peers[id] in answer
      ensures a.event != "stopped" && a.numWant == 0 && |Listed(store.View(), a.infoHash)| <= 50 ==>
        forall id :: id in Listed(store.View(), a.infoHash) && id != a.peer.id ==> store.peers[id] in answer
      ensures a.event != "stopped" && a.numWant > 0 && |Listed(store.View(), a.infoHash)| <= a.numWant ==>
        forall id :: id in Listed(store.View(), a.infoHash) && id != a.peer.id ==> store.peers[id] in answer
      ensures a.numWant < 0 ==> answer == []
      ensures a.event != "stopped" && Wanted(a) < |Listed(store.View(), a.infoHash)| ==>
        Wanted(a) - 1 <= |answer| <= Wanted(a)
    {
      var numWant := a.numWant;
      if numWant == 0 {
        numWant := 50;
      }
      var peer := a.peer;
      ghost var before := store.View();
      if a.event == "stopped" {
        store.RemovePeer(a.infoHash, peer.id);
        StepsApart(before, Operations(a)[0], Operations(a)[0]);
        return [];
      } else if a.event == "completed" {
        peer := peer.(left := 0);
        store.AddPeer(a.infoHash, peer);
        store.IncrementCompleted(a.infoHash);
        StepsApart(before, Operations(a)[0], Completed(a.infoHash));
      } else {
        store.AddPeer(a.infoHash, peer);
        StepsApart(before, Operations(a)[0], Operations(a)[0]);
      }
      var found := store.GetPeers(a.infoHash, numWant);
      answer := Others(found, a.peer.id);
    }

    /** The loop that leaves the announcing peer out. */
    method Others(found: seq<Peer>, id: string) returns (others: seq<Peer>)
      requires forall i, j :: 0 <= i < j < |found| ==> found[i].id != found[j].id
      ensures forall p :: p in others <==> p in found && p.id != id
      ensures forall i, j :: 0 <= i < j < |others| ==> others[i].id != others[j].id
      ensures |found| - 1 <= |others| <= |found|
    {
      others := [];
      ghost var skipped := false;
      for i := 0 to |found|
        invariant |others| == if skipped then i - 1 else i
        invariant skipped ==> exists k :: 0 <= k < i && found[k].id == id
        invariant forall p :: p in others <==> p in found[..i] && p.id != id
        invariant forall j, k :: 0 <= j < k < |others| ==> others[j].id != others[k].id
      {
        assert found[..i + 1] == found[..i] + [found[i]];
        if found[i].id != id {
          assert forall j :: 0 <= j < |others| ==> others[j] in others;
          assert forall p :: p in found[..i] ==> p.id != found[i].id;
          others := others + [found[i]];
        } else {
          skipped := true;
        }
      }
      assert found[..|found|] == found;
    }
  }
}
