/** Per-peer flags and byte counters, p2p/peer_state.go. Rates and times are reals. */
module PeerStates {

  /** One byte counter: its total, its value at the last rate update, and the rate computed then. */
  datatype Meter = Meter(total: int, snapshot: int, rate: real) {
    function Add(n: int): Meter {
      this.(total := total + n)
    }

    function Commit(elapsed: real): Meter
      requires elapsed != 0.0
    {
      Meter(total, total, (total - snapshot) as real / elapsed)
    }
  }

  datatype PeerView = PeerView(
    amChoking: bool, amInterested: bool, peerChoking: bool, peerInterested: bool,
    up: Meter, down: Meter, lastStatTime: real)

  function NewView(now: real): PeerView {
    PeerView(true, false, true, false, Meter(0, 0, 0.0), Meter(0, 0, 0.0), now)
  }

  // The state once UpdateRates has run at time `now`.
  function RatesUpdated(v: PeerView, now: real): PeerView {
    var elapsed := now - v.lastStatTime;
    if elapsed < 1.0 then v
    else v.(up := v.up.Commit(elapsed), down := v.down.Commit(elapsed), lastStatTime := now)
  }

  /** What happens to one direction of a connection: bytes moved, or a rate update. */
  datatype MeterEvent = Moved(n: nat) | Update(now: real)

  /** A meter with the time of its last rate update. */
  datatype Clocked = Clocked(meter: Meter, time: real)

  function Apply(c: Clocked, e: MeterEvent): Clocked {
    match e
    case Moved(n) => Clocked(c.meter.Add(n), c.time)
    case Update(now) => if now - c.time < 1.0 then c else Clocked(c.meter.Commit(now - c.time), now)
  }

  function Run(c: Clocked, events: seq<MeterEvent>): Clocked {
    if events == [] then c else Apply(Run(c, events[..|events| - 1]), events[|events| - 1])
  }

  lemma QuotientTimes(x: real, y: real)
    requires y >= 1.0
    ensures x / y * y == x
  {
  }

  // Rate times length of the window that `e` commits, 0.0 when it commits none.
  function MovedInWindow(c: Clocked, e: MeterEvent): (moved: real)
    ensures moved == (Apply(c, e).meter.snapshot - c.meter.snapshot) as real
  {
    var after := Apply(c, e);
    if e.Update? && e.now - c.time >= 1.0 then
      QuotientTimes((c.meter.total - c.meter.snapshot) as real, e.now - c.time);
      after.meter.rate * (after.time - c.time)
    else 0.0
  }

  function MovedInWindows(c: Clocked, events: seq<MeterEvent>): real {
    if events == [] then 0.0
    else
      var front, last := events[..|events| - 1], events[|events| - 1];
      MovedInWindows(c, front) + MovedInWindow(Run(c, front), last)
  }

  /**
   The committed rates account for every byte of the snapshot: over any execution the sum of
   rate times window length is what the snapshot gained.
   */
  lemma {:induction false} RatesTelescope(c: Clocked, events: seq<MeterEvent>)
    ensures MovedInWindows(c, events) == (Run(c, events).meter.snapshot - c.meter.snapshot) as real
  {
    if events != [] {
      RatesTelescope(c, events[..|events| - 1]);
    }
  }

  /** Whatever is counted and whenever rates are updated, the snapshot never overtakes the total. */
  lemma {:induction false} SnapshotBehind(c: Clocked, events: seq<MeterEvent>)
    requires c.meter.snapshot <= c.meter.total
    ensures c.meter.snapshot <= Run(c, events).meter.snapshot <= Run(c, events).meter.total
  {
    if events != [] {
      SnapshotBehind(c, events[..|events| - 1]);
    }
  }

  // The bytes moved in an execution.
  function MovedBytes(events: seq<MeterEvent>): nat {
    if events == [] then 0
    else
      var last := events[|events| - 1];
      MovedBytes(events[..|events| - 1]) + (if last.Moved? then last.n else 0)
  }

  /** The total counts exactly the bytes moved. */
  lemma {:induction false} TotalCounts(c: Clocked, events: seq<MeterEvent>)
    ensures Run(c, events).meter.total == c.meter.total + MovedBytes(events)
  {
    if events != [] {
      TotalCounts(c, events[..|events| - 1]);
    }
  }

  /** A commit brings the snapshot up to the total: with it, the rates account for every byte ever moved. */
  lemma CommitCatchesUp(c: Clocked, events: seq<MeterEvent>, now: real)
    requires now - Run(c, events).time >= 1.0
    ensures var all := events + [Update(now)];
            && Run(c, all).meter.snapshot == Run(c, all).meter.total && Run(c, all).time == now
            && MovedInWindows(c, all) == (c.meter.total + MovedBytes(events) - c.meter.snapshot) as real
  {
    var all := events + [Update(now)];
    assert all[..|all| - 1] == events;
    RatesTelescope(c, all);
    TotalCounts(c, events);
  }

  /** What a rate update does to one counter, said of the window that has passed since the last one. */
  ghost predicate MeterAfter(before: Meter, after: Meter, elapsed: real) {
    && after.total == before.total
    && (if elapsed >= 1.0
        then after.snapshot == before.total && after.rate * elapsed == (before.total - before.snapshot) as real
        else after.snapshot == before.snapshot && after.rate == before.rate)
  }

  /** Both counters and the time after a rate update at `now`; the flags stay. */
  ghost predicate ViewAfter(before: PeerView, after: PeerView, now: real) {
    var elapsed := now - before.lastStatTime;
    && MeterAfter(before.up, after.up, elapsed) && MeterAfter(before.down, after.down, elapsed)
    && after.lastStatTime == (if elapsed >= 1.0 then now else before.lastStatTime)
    && after.amInterested == before.amInterested && after.peerInterested == before.peerInterested
    && after.amChoking == before.amChoking && after.peerChoking == before.peerChoking
  }

  lemma UpdateIsCommit(v: PeerView, now: real)
    ensures ViewAfter(v, RatesUpdated(v, now), now)
  {
    var elapsed := now - v.lastStatTime;
    if elapsed >= 1.0 {
      QuotientTimes((v.up.total - v.up.snapshot) as real, elapsed);
      QuotientTimes((v.down.total - v.down.snapshot) as real, elapsed);
    }
  }

  // The rate a counter has once its window is closed: the bytes gained per second of it, or the
  // old rate when less than a second has passed.
  function WindowRate(m: Meter, elapsed: real): real {
    if elapsed >= 1.0 then (m.total - m.snapshot) as real / elapsed else m.rate
  }

  lemma WindowRateIsRate(before: Meter, after: Meter, elapsed: real)
    requires MeterAfter(before, after, elapsed)
    ensures after.rate == WindowRate(before, elapsed)
  {
  }

  /** A new peer counts from nothing, and its first window starts when it joins. */
  lemma NewViewStarts(now: real)
    ensures var v := NewView(now);
            && v.up == v.down && v.up.total == v.up.snapshot == 0 && v.up.rate == 0.0 && v.lastStatTime == now
            && v.amChoking && v.peerChoking && !v.amInterested && !v.peerInterested
  {
  }

  class PeerState {
    var AmChoking: bool
    var AmInterested: bool
    var PeerChoking: bool
    var PeerInterested: bool
    var Uploaded: int
    var Downloaded: int
    var uploadRate: real
    var downloadRate: real
    var lastStatTime: real
    var lastUploaded: int
    var lastDownloaded: int

    ghost function View(): PeerView
      reads this
    {
      PeerView(AmChoking, AmInterested, PeerChoking, PeerInterested,
               Meter(Uploaded, lastUploaded, uploadRate), Meter(Downloaded, lastDownloaded, downloadRate),
               lastStatTime)
    }

    constructor (now: real)
      ensures View() == NewView(now)
    {
      AmChoking, AmInterested, PeerChoking, PeerInterested := true, false, true, false;
      Uploaded, Downloaded, uploadRate, downloadRate := 0, 0, 0.0, 0.0;
      lastStatTime, lastUploaded, lastDownloaded := now, 0, 0;
    }

    method SetAmChoking(v: bool)
      modifies this
      ensures View() == old(View()).(amChoking := v)
    {
      AmChoking := v;
    }

    method SetPeerChoking(v: bool)
      modifies this
      ensures View() == old(View()).(peerChoking := v)
    {
      PeerChoking := v;
    }

    method SetPeerInterested(v: bool)
      modifies this
      ensures View() == old(View()).(peerInterested := v)
    {
      PeerInterested := v;
    }

    method AddUploaded(n: int)
      modifies this
      ensures View() == old(View()).(up := old(View()).up.Add(n))
    {
      Uploaded := Uploaded + n;
    }

    method AddDownloaded(n: int)
      modifies this
      ensures View() == old(View()).(down := old(View()).down.Add(n))
    {
      Downloaded := Downloaded + n;
    }

    method UpdateRates(now: real)
      modifies this
      ensures View() == RatesUpdated(old(View()), now)
      ensures ViewAfter(old(View()), View(), now)
      ensures Clocked(View().up, lastStatTime) == Apply(old(Clocked(View().up, lastStatTime)), Update(now))
      ensures Clocked(View().down, lastStatTime) == Apply(old(Clocked(View().down, lastStatTime)), Update(now))
    {
      UpdateIsCommit(View(), now);
      var elapsed := now - lastStatTime;
      if elapsed < 1.0 {
        return;
      }
      uploadRate := (Uploaded - lastUploaded) as real / elapsed;
      downloadRate := (Downloaded - lastDownloaded) as real / elapsed;
      lastUploaded := Uploaded;
      lastDownloaded := Downloaded;
      lastStatTime := now;
    }
  }
}
