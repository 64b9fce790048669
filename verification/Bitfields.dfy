/**
 Piece bitfields: bit i of a bitfield is the bit of weight 2^(7 - i % 8) in byte i / 8.
 */
module Bitfields {
  import opened Bytes

  function Mask(i: nat): byte {
    1 << (7 - i % 8)
  }

  predicate HasBit(bits: Bytes, i: nat) {
    i / 8 < |bits| && bits[i / 8] & Mask(i) != 0
  }

  // A bit past the end of the array is dropped.
  function SetBit(bits: Bytes, i: nat): Bytes {
    if i / 8 < |bits| then bits[i / 8 := bits[i / 8] | Mask(i)] else bits
  }

  function Size(numPieces: nat): nat {
    (numPieces + 7) / 8
  }

  function Zeros(numPieces: nat): (bits: Bytes)
    ensures |bits| == Size(numPieces)
  {
    seq(Size(numPieces), _ => 0)
  }

  lemma MaskValue(i: nat)
    ensures Mask(i) == match i % 8
                       case 0 => 128 case 1 => 64 case 2 => 32 case 3 => 16
                       case 4 => 8 case 5 => 4 case 6 => 2 case _ => 1
  {
  }

  lemma SetBitHasBit(bits: Bytes, i: nat, j: nat)
    ensures |SetBit(bits, i)| == |bits|
    ensures HasBit(SetBit(bits, i), j) <==> HasBit(bits, j) || (i == j && i / 8 < |bits|)
  {
    MaskValue(i);
    MaskValue(j);
  }

  lemma ZerosHasBit(numPieces: nat, j: nat)
    ensures !HasBit(Zeros(numPieces), j)
  {
  }

  lemma ByteExtensionality(a: byte, b: byte)
    requires forall k: nat :: k < 8 ==> (a & Mask(k) != 0) == (b & Mask(k) != 0)
    ensures a == b
  {
    assert a & 128 != 0 <==> b & 128 != 0 by { MaskValue(0); assert a & Mask(0) != 0 <==> b & Mask(0) != 0; }
    assert a & 64 != 0 <==> b & 64 != 0 by { MaskValue(1); assert a & Mask(1) != 0 <==> b & Mask(1) != 0; }
    assert a & 32 != 0 <==> b & 32 != 0 by { MaskValue(2); assert a & Mask(2) != 0 <==> b & Mask(2) != 0; }
    assert a & 16 != 0 <==> b & 16 != 0 by { MaskValue(3); assert a & Mask(3) != 0 <==> b & Mask(3) != 0; }
    assert a & 8 != 0 <==> b & 8 != 0 by { MaskValue(4); assert a & Mask(4) != 0 <==> b & Mask(4) != 0; }
    assert a & 4 != 0 <==> b & 4 != 0 by { MaskValue(5); assert a & Mask(5) != 0 <==> b & Mask(5) != 0; }
    assert a & 2 != 0 <==> b & 2 != 0 by { MaskValue(6); assert a & Mask(6) != 0 <==> b & Mask(6) != 0; }
    assert a & 1 != 0 <==> b & 1 != 0 by { MaskValue(7); assert a & Mask(7) != 0 <==> b & Mask(7) != 0; }
  }

  // Two bitfields of one length that agree on every bit are the same bytes.
  lemma Extensionality(a: Bytes, b: Bytes)
    requires |a| == |b|
    requires forall i: nat :: HasBit(a, i) <==> HasBit(b, i)
    ensures a == b
  {
    forall j: nat | j < |a|
      ensures a[j] == b[j]
    {
      forall k: nat | k < 8
        ensures (a[j] & Mask(k) != 0) == (b[j] & Mask(k) != 0)
      {
        assert HasBit(a, 8 * j + k) <==> HasBit(b, 8 * j + k);
        assert (8 * j + k) / 8 == j && (8 * j + k) % 8 == k;
      }
      ByteExtensionality(a[j], b[j]);
    }
  }

  // The bitfield of the pieces below `k` among those held.
  function FillTo(held: set<int>, numPieces: nat, k: nat): Bytes {
    if k == 0 then Zeros(numPieces)
    else if k - 1 in held then SetBit(FillTo(held, numPieces, k - 1), k - 1)
    else FillTo(held, numPieces, k - 1)
  }

  function BitfieldOf(held: set<int>, numPieces: nat): Bytes {
    FillTo(held, numPieces, numPieces)
  }

  lemma {:induction false} FillToBits(held: set<int>, numPieces: nat, k: nat, j: nat)
    requires k <= numPieces
    ensures |FillTo(held, numPieces, k)| == Size(numPieces)
    ensures HasBit(FillTo(held, numPieces, k), j) <==> j < k && j in held
  {
    if k > 0 {
      FillToBits(held, numPieces, k - 1, j);
      SetBitHasBit(FillTo(held, numPieces, k - 1), k - 1, j);
    }
  }

  lemma BitfieldOfBits(held: set<int>, numPieces: nat)
    ensures |BitfieldOf(held, numPieces)| == Size(numPieces)
    ensures forall j: nat :: HasBit(BitfieldOf(held, numPieces), j) <==> j < numPieces && j in held
  {
    FillToBits(held, numPieces, numPieces, 0);
    forall j: nat
      ensures HasBit(BitfieldOf(held, numPieces), j) <==> j < numPieces && j in held
    {
      FillToBits(held, numPieces, numPieces, j);
    }
  }

  // A bitfield of the right size whose bits are exactly the held pieces is the bitfield of them.
  lemma BitfieldOfUnique(bits: Bytes, held: set<int>, numPieces: nat)
    requires |bits| == Size(numPieces)
    requires forall j: nat :: HasBit(bits, j) <==> j < numPieces && j in held
    ensures bits == BitfieldOf(held, numPieces)
  {
    BitfieldOfBits(held, numPieces);
    Extensionality(bits, BitfieldOf(held, numPieces));
  }

  /** A bitfield has the fewest bytes that hold a bit for each piece. */
  lemma SizeIsLeast(numPieces: nat)
    ensures numPieces <= 8 * Size(numPieces) < numPieces + 8
  {
  }

  // The bits of a sequence of announced indices set one after the other.
  function SetAll(bits: Bytes, announced: seq<nat>): Bytes {
    if announced == [] then bits
    else SetBit(SetAll(bits, announced[..|announced| - 1]), announced[|announced| - 1])
  }

  lemma {:induction false} SetAllHasBit(bits: Bytes, announced: seq<nat>, j: nat)
    ensures |SetAll(bits, announced)| == |bits|
    ensures HasBit(SetAll(bits, announced), j) <==> HasBit(bits, j) || (j in announced && j / 8 < |bits|)
  {
    if announced != [] {
      var front, last := announced[..|announced| - 1], announced[|announced| - 1];
      assert announced == front + [last];
      SetAllHasBit(bits, front, j);
      SetBitHasBit(SetAll(bits, front), last, j);
    }
  }

  /**
   Announcing each held piece, in any order and with repeats, to a peer that has no
   record yet rebuilds the announcer's own bitfield byte for byte.
   */
  lemma AnnouncementsRebuildBitfield(held: set<int>, numPieces: nat, announced: seq<nat>)
    requires forall i :: i in announced <==> 0 <= i < numPieces && i in held
    ensures SetAll(Zeros(numPieces), announced) == BitfieldOf(held, numPieces)
  {
    var bits := SetAll(Zeros(numPieces), announced);
    SetAllHasBit(Zeros(numPieces), announced, 0);
    forall j: nat
      ensures HasBit(bits, j) <==> j < numPieces && j in held
    {
      SetAllHasBit(Zeros(numPieces), announced, j);
      ZerosHasBit(numPieces, j);
    }
    BitfieldOfUnique(bits, held, numPieces);
  }
}
