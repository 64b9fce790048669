/**
 What one unchoke round may decide, p2p/swarm.go:206-276, as a relation between the peer
 tables before and after it. The optimistic pick and the order among equal rates are free.
 */
module Unchoking {
  import opened PeerStates
  import opened Collections

  // A [20]byte peer id, as the number its bytes spell.
  newtype PeerId = x: int | 0 <= x < 0x1_0000000000_0000000000_0000000000_0000000000

  const ZERO_ID: PeerId := 0
  const MAX_UNCHOKED_PEERS := 4
  const OPTIMISTIC_UNCHOKE_INTERVAL := 3

  type States = map<PeerId, PeerView>

  datatype UnchokeAction = UnchokeAction(peer: PeerId, unchoke: bool)

  /** The part of a swarm an unchoke round reads and writes. */
  datatype Table = Table(states: States, optimistic: PeerId, round: nat)

  function InterestedPeers(states: States): set<PeerId> {
    set id | id in states && states[id].peerInterested
  }

  function UnchokedPeers(states: States): set<PeerId> {
    set id | id in states && !states[id].amChoking
  }

  // Every peer's rates, updated at the time its own clock reading gives.
  function AllUpdated(states: States, clock: PeerId -> real): States {
    map id | id in states :: RatesUpdated(states[id], clock(id))
  }

  function Min(a: int, b: int): int {
    if a <= b then a else b
  }

  // Three interested peers, or all of them, whose download rates no other interested peer exceeds.
  ghost predicate IsTop(states: States, top: set<PeerId>) {
    && top <= InterestedPeers(states)
    && |top| == Min(MAX_UNCHOKED_PEERS - 1, |InterestedPeers(states)|)
    && forall a, b :: a in top && b in InterestedPeers(states) - top ==> states[b].down.rate <= states[a].down.rate
  }

  predicate Rerolls(round: nat, optimistic: PeerId) {
    round % OPTIMISTIC_UNCHOKE_INTERVAL == 0 || optimistic == ZERO_ID
  }

  // The optimistic peer stays unless a reroll has a choked interested peer to pick.
  ghost predicate PicksOptimistic(states: States, top: set<PeerId>, round: nat, before: PeerId, after: PeerId) {
    if Rerolls(round, before) && InterestedPeers(states) - top != {}
    then after in InterestedPeers(states) - top
    else after == before
  }

  function Chosen(states: States, top: set<PeerId>, optimistic: PeerId): set<PeerId> {
    top + (if optimistic != ZERO_ID && optimistic in states then {optimistic} else {})
  }

  function Rechoked(states: States, chosen: set<PeerId>): States {
    map id | id in states :: states[id].(amChoking := id !in chosen)
  }

  // `after` is what one round may make of `before`.
  ghost predicate Round(before: Table, clock: PeerId -> real, top: set<PeerId>, after: Table) {
    var states := AllUpdated(before.states, clock);
    && IsTop(states, top)
    && after.round == before.round + 1
    && PicksOptimistic(states, top, after.round, before.optimistic, after.optimistic)
    && after.states == Rechoked(states, Chosen(states, top, after.optimistic))
  }

  // One action for each peer whose flag the round changed, and no other.
  ghost predicate AreActions(before: States, after: States, actions: seq<UnchokeAction>) {
    && (forall i, j :: 0 <= i < j < |actions| ==> actions[i].peer != actions[j].peer)
    && (forall a :: a in actions <==>
          && a.peer in before && a.peer in after
          && before[a.peer].amChoking != after[a.peer].amChoking
          && a.unchoke == !after[a.peer].amChoking)
  }

  // Neither a newly joined peer nor a departing one takes an unchoke slot.
  lemma JoinTakesNoSlot(states: States, id: PeerId, now: real)
    ensures |UnchokedPeers(states[id := NewView(now)])| <= |UnchokedPeers(states)|
  {
    SubsetSize(UnchokedPeers(states[id := NewView(now)]), UnchokedPeers(states));
  }

  lemma LeaveTakesNoSlot(states: States, id: PeerId)
    ensures |UnchokedPeers(states - {id})| <= |UnchokedPeers(states)|
  {
    SubsetSize(UnchokedPeers(states - {id}), UnchokedPeers(states));
  }

  // Flags other than AmChoking do not matter to the slots.
  lemma SameChokingSameSlots(before: States, after: States)
    requires before.Keys == after.Keys
    requires forall id :: id in before ==> before[id].amChoking == after[id].amChoking
    ensures UnchokedPeers(before) == UnchokedPeers(after)
  {
  }

  lemma InterestedUpdated(states: States, clock: PeerId -> real)
    ensures InterestedPeers(AllUpdated(states, clock)) == InterestedPeers(states)
  {
  }

  lemma RechokedSets(states: States, chosen: set<PeerId>)
    requires chosen <= states.Keys
    ensures UnchokedPeers(Rechoked(states, chosen)) == chosen
    ensures InterestedPeers(Rechoked(states, chosen)) == InterestedPeers(states)
  {
  }

  lemma ChosenSize(states: States, top: set<PeerId>, optimistic: PeerId)
    requires top <= states.Keys
    ensures Chosen(states, top, optimistic) <= states.Keys
    ensures |Chosen(states, top, optimistic)|
         == |top| + (if optimistic != ZERO_ID && optimistic in states && optimistic !in top then 1 else 0)
  {
    if optimistic in top {
      assert Chosen(states, top, optimistic) == top;
    }
  }

  /**
   The unchoked peers after a round are the top ones plus the optimistic one if it is known, so
   at most four, and exactly as many as the optimistic pick adds to the top.
   */
  lemma RoundUnchokes(before: Table, clock: PeerId -> real, top: set<PeerId>, after: Table)
    requires Round(before, clock, top, after)
    ensures top <= InterestedPeers(before.states) == InterestedPeers(after.states)
    ensures UnchokedPeers(after.states) == Chosen(before.states, top, after.optimistic)
    ensures forall id :: id in UnchokedPeers(after.states) <==>
      id in top || (id == after.optimistic && id != ZERO_ID && id in before.states)
    ensures |UnchokedPeers(after.states)| == Min(MAX_UNCHOKED_PEERS - 1, |InterestedPeers(before.states)|)
              + (if after.optimistic != ZERO_ID && after.optimistic in before.states && after.optimistic !in top
                 then 1 else 0)
    ensures |UnchokedPeers(after.states)| <= MAX_UNCHOKED_PEERS
  {
    var states := AllUpdated(before.states, clock);
    InterestedUpdated(before.states, clock);
    ChosenSize(states, top, after.optimistic);
    RechokedSets(states, Chosen(states, top, after.optimistic));
    assert Chosen(states, top, after.optimistic) == Chosen(before.states, top, after.optimistic);
  }

  /**
   A round closes every peer's window that is at least a second old: both counters' snapshots catch
   up with their totals, and the new rate times the window is what was gained in it. Other windows
   and all totals stay.
   */
  lemma RoundMeters(before: Table, clock: PeerId -> real, top: set<PeerId>, after: Table, id: PeerId)
    requires Round(before, clock, top, after) && id in before.states
    ensures id in after.states
    ensures ViewAfter(before.states[id], after.states[id].(amChoking := before.states[id].amChoking), clock(id))
  {
    UpdateIsCommit(before.states[id], clock(id));
  }

  lemma RoundRate(before: Table, clock: PeerId -> real, top: set<PeerId>, after: Table, id: PeerId)
    requires Round(before, clock, top, after) && id in before.states
    ensures id in after.states && after.states[id].down.rate == RateAt(before.states[id], clock(id))
  {
    RoundMeters(before, clock, top, after, id);
    ViewRate(before.states[id], after.states[id].(amChoking := before.states[id].amChoking), clock(id));
  }

  lemma ViewRate(v: PeerView, w: PeerView, now: real)
    requires ViewAfter(v, w, now)
    ensures w.down.rate == RateAt(v, now)
  {
    WindowRateIsRate(v.down, w.down, now - v.lastStatTime);
  }

  /** A reroll with a fourth interested peer fills all four slots, unless an id is all zeros. */
  lemma RerollFillsSlots(before: Table, clock: PeerId -> real, top: set<PeerId>, after: Table)
    requires Round(before, clock, top, after)
    requires Rerolls(after.round, before.optimistic)
    requires |InterestedPeers(before.states)| >= MAX_UNCHOKED_PEERS
    requires ZERO_ID !in before.states
    ensures |UnchokedPeers(after.states)| == MAX_UNCHOKED_PEERS
  {
    RoundUnchokes(before, clock, top, after);
    InterestedUpdated(before.states, clock);
    SubsetSize(InterestedPeers(before.states), top + (InterestedPeers(before.states) - top));
    assert InterestedPeers(before.states) - top == {} ==> InterestedPeers(before.states) == top;
  }

  /**
   Unchoked peers need not be interested: an optimistic peer that loses interest stays unchoked
   until a reroll that finds another candidate. All unchoked peers are interested after a round
   exactly when the optimistic peer is unset, unknown or interested before it, or the round rerolls
   with at least four interested peers.
   */
  lemma UnchokedAreInterestedIff(before: Table, clock: PeerId -> real, top: set<PeerId>, after: Table)
    requires Round(before, clock, top, after)
    ensures UnchokedPeers(after.states) <= InterestedPeers(after.states)
       <==> before.optimistic == ZERO_ID || before.optimistic !in before.states
            || before.states[before.optimistic].peerInterested
            || ((before.round + 1) % OPTIMISTIC_UNCHOKE_INTERVAL == 0
                && |InterestedPeers(before.states)| >= MAX_UNCHOKED_PEERS)
  {
    RoundUnchokes(before, clock, top, after);
    InterestedUpdated(before.states, clock);
    SubsetSize(top, InterestedPeers(before.states));
    if after.optimistic != ZERO_ID && after.optimistic in before.states {
      assert after.optimistic in UnchokedPeers(after.states);
    }
  }

  // ----- an uninterested peer that keeps its slot -----

  // Four known peers, the first three alike.
  function FourPeers(three: PeerView, fourth: PeerView): States {
    map[1 := three, 2 := three, 3 := three, 4 := fourth]
  }

  function Known(choked: bool, interested: bool): PeerView {
    NewView(0.0).(amChoking := choked, peerInterested := interested)
  }

  function Midnight(id: PeerId): real {
    0.0
  }

  lemma FourInterested(choked: bool, interested: bool)
    ensures var states := FourPeers(Known(choked, true), Known(choked, interested));
            && InterestedPeers(states) == (if interested then {1, 2, 3, 4} else {1, 2, 3})
            && AllUpdated(states, Midnight) == states
            && IsTop(states, {1, 2, 3})
  {
    var states := FourPeers(Known(choked, true), Known(choked, interested));
    assert InterestedPeers(states) == if interested then {1, 2, 3, 4} else {1, 2, 3};
    assert AllUpdated(states, Midnight) == states;
  }

  lemma FourChosen(choked: bool, interested: bool)
    ensures var states := FourPeers(Known(choked, true), Known(choked, interested));
            && Chosen(states, {1, 2, 3}, 4) == {1, 2, 3, 4}
            && Rechoked(states, {1, 2, 3, 4}) == FourPeers(Known(false, true), Known(false, interested))
  {
  }

  // The first round unchokes all four, the fourth as the optimistic one.
  lemma FirstRound()
    ensures Round(Table(FourPeers(Known(true, true), Known(true, true)), ZERO_ID, 0), Midnight, {1, 2, 3},
                  Table(FourPeers(Known(false, true), Known(false, true)), 4, 1))
  {
    FourInterested(true, true);
    var states := FourPeers(Known(true, true), Known(true, true));
    assert 4 in InterestedPeers(states) - {1, 2, 3};
    FourChosen(true, true);
  }

  // The second leaves it unchoked although it has lost interest since.
  lemma SecondRound()
    ensures var states := FourPeers(Known(false, true), Known(false, false));
            && Round(Table(states, 4, 1), Midnight, {1, 2, 3}, Table(states, 4, 2))
            && 4 in UnchokedPeers(states) && 4 !in InterestedPeers(states)
  {
    FourInterested(false, false);
    FourChosen(false, false);
  }

  /**
   An interested peer that stays choked is outranked by every unchoked one but the optimistic
   peer: it has sent us no more bytes per second in the window that the round closes. At least three
   slots are in use.
   */
  lemma ChokedAreOutranked(before: Table, clock: PeerId -> real, top: set<PeerId>, after: Table, choked: PeerId,
                           kept: PeerId)
    requires Round(before, clock, top, after)
    requires choked in InterestedPeers(before.states) - UnchokedPeers(after.states)
    requires kept in UnchokedPeers(after.states) && kept != after.optimistic
    ensures after.states[choked].down.rate <= after.states[kept].down.rate
    ensures RateAt(before.states[choked], clock(choked)) <= RateAt(before.states[kept], clock(kept))
    ensures |UnchokedPeers(after.states)| >= MAX_UNCHOKED_PEERS - 1
  {
    RoundUnchokes(before, clock, top, after);
    InterestedUpdated(before.states, clock);
    SubsetSize(top, InterestedPeers(before.states));
    var states := AllUpdated(before.states, clock);
    assert states[choked].down.rate <= states[kept].down.rate;
    RoundRate(before, clock, top, after, choked);
    RoundRate(before, clock, top, after, kept);
  }

  // The rate at which a peer has sent to us, once its window is closed at the given time.
  function RateAt(v: PeerView, now: real): real {
    WindowRate(v.down, now - v.lastStatTime)
  }

  /** Over windows of the same length, at least a second, no choked peer has sent us more bytes than a kept one. */
  lemma BusierIsKept(before: Table, clock: PeerId -> real, top: set<PeerId>, after: Table, choked: PeerId, kept: PeerId)
    requires Round(before, clock, top, after)
    requires choked in InterestedPeers(before.states) - UnchokedPeers(after.states)
    requires kept in UnchokedPeers(after.states) && kept != after.optimistic && kept in before.states
    requires clock(choked) - before.states[choked].lastStatTime == clock(kept) - before.states[kept].lastStatTime >= 1.0
    ensures before.states[choked].down.total - before.states[choked].down.snapshot
         <= before.states[kept].down.total - before.states[kept].down.snapshot
  {
    ChokedAreOutranked(before, clock, top, after, choked, kept);
    SameWindowBytes(before.states[choked], before.states[kept], clock(choked), clock(kept));
  }

  lemma SameWindowBytes(v: PeerView, w: PeerView, vNow: real, wNow: real)
    requires vNow - v.lastStatTime == wNow - w.lastStatTime >= 1.0
    requires RateAt(v, vNow) <= RateAt(w, wNow)
    ensures v.down.total - v.down.snapshot <= w.down.total - w.down.snapshot
  {
    MoreBytes(v.down, w.down, vNow - v.lastStatTime);
  }

  lemma MoreBytes(v: Meter, w: Meter, elapsed: real)
    requires elapsed >= 1.0 && WindowRate(v, elapsed) <= WindowRate(w, elapsed)
    ensures v.total - v.snapshot <= w.total - w.snapshot
  {
    SameWindow((v.total - v.snapshot) as real, (w.total - w.snapshot) as real, elapsed);
  }

  lemma SameWindow(a: real, b: real, elapsed: real)
    requires elapsed >= 1.0 && a / elapsed <= b / elapsed
    ensures a <= b
  {
    QuotientTimes(a, elapsed);
    QuotientTimes(b, elapsed);
    var p, q := a / elapsed, b / elapsed;
    assert (q - p) * elapsed >= 0.0;
  }
}
