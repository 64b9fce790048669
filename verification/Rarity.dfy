/** Rarest-first order of the pieces a peer can supply, p2p/swarm.go:323-374. */
module Rarity {
  import opened Bytes
  import opened Bitfields
  import opened Collections
  import opened PieceStore
  import opened Unchoking

  type Records = map<PeerId, Bytes>

  // The record of a peer once it has announced piece `index`.
  function WithPiece(records: Records, id: PeerId, numPieces: nat, index: nat): Bytes {
    SetBit(if id in records then records[id] else Zeros(numPieces), index)
  }

  // The records once a peer has announced these pieces one after the other.
  function WithPieces(records: Records, id: PeerId, numPieces: nat, announced: seq<nat>): Records {
    if announced == [] then records
    else
      var last := |announced| - 1;
      var before := WithPieces(records, id, numPieces, announced[..last]);
      before[id := WithPiece(before, id, numPieces, announced[last])]
  }

  lemma {:induction false} AnnouncedRecord(records: Records, id: PeerId, numPieces: nat, announced: seq<nat>)
    requires id !in records && announced != []
    ensures WithPieces(records, id, numPieces, announced) == records[id := SetAll(Zeros(numPieces), announced)]
  {
    var front := announced[..|announced| - 1];
    if front != [] {
      AnnouncedRecord(records, id, numPieces, front);
    }
  }

  /**
   A peer without a record that announces exactly its pieces, in any order and with repeats, ends
   with its own bitfield on record, and nobody else's record changes.
   */
  lemma AnnouncementsRebuildRecord(records: Records, id: PeerId, numPieces: nat, held: set<int>, announced: seq<nat>)
    requires id !in records && announced != []
    requires forall i :: i in announced <==> 0 <= i < numPieces && i in held
    ensures WithPieces(records, id, numPieces, announced) == records[id := BitfieldOf(held, numPieces)]
  {
    AnnouncedRecord(records, id, numPieces, announced);
    AnnouncementsRebuildBitfield(held, numPieces, announced);
  }

  // How many recorded bitfields advertise piece i.
  function Availability(records: Records, i: int): nat {
    |Advertisers(records, i)|
  }

  function Advertisers(records: Records, i: int): set<PeerId> {
    set id | id in records && i >= 0 && HasBit(records[id], i)
  }

  // The missing pieces a bitfield offers, each once, no piece before a rarer one.
  ghost predicate IsRarestOrder(records: Records, bits: Bytes, held: set<int>, numPieces: nat, order: seq<nat>) {
    && NoDuplicates(order)
    && (forall i: int :: i in order <==> IsMissing(bits, held, numPieces, i))
    && (forall i, j :: 0 <= i < j < |order| ==>
          Availability(records, order[i]) <= Availability(records, order[j]))
  }

  /** The rarest-first order permutes what MissingPieces lists for the same bitfield. */
  lemma RarestOrderPermutesMissing(records: Records, bits: Bytes, held: set<int>, numPieces: nat, order: seq<nat>,
                                   missing: seq<int>)
    requires IsRarestOrder(records, bits, held, numPieces, order)
    requires Ascending(missing)
    requires forall i :: i in missing <==> IsMissing(bits, held, numPieces, i)
    ensures multiset(order) == multiset(missing)
  {
    assert NoDuplicates(missing) by {
      assert forall i, j :: 0 <= i < j < |missing| ==> missing[i] < missing[j];
    }
    forall i
      ensures i in order <==> i in missing
    {
    }
    SameElementsSameMultiset(order, missing);
  }

  /** When the bitfield is itself on record, each piece in the order is advertised at least once. */
  lemma RecordedPiecesAreAvailable(records: Records, from: PeerId, bits: Bytes, held: set<int>, numPieces: nat,
                                   order: seq<nat>, i: nat)
    requires from in records && records[from] == bits
    requires IsRarestOrder(records, bits, held, numPieces, order)
    requires i in order
    ensures Availability(records, i) >= 1
  {
    assert from in Advertisers(records, i);
  }
}
