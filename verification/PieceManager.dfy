/** The piece store of one node, p2p/piece_manager.go. */
module PieceStore {
  import opened Bytes
  import opened Bitfields
  import opened Collections

  // What sha1.Sum returns; the function itself is a parameter of the model.
  type Digest = d: Bytes | |d| == 20 witness seq(20, _ => 0)

  type Pieces = map<int, Bytes>

  /** What a piece store is built with. `hashes` is None for Go's nil slice. */
  datatype Config = Config(numPieces: nat, hashes: Option<Bytes>, sha1: Bytes -> Digest)

  // The digests of the pieces stand one after the other.
  predicate IsDigestAt(hashes: Bytes, index: nat, digest: Digest) {
    20 * index + 20 <= |hashes| && hashes[20 * index..20 * index + 20] == digest
  }

  // The digest the torrent lists for piece `index`, where it lists one.
  function ListedDigest(cfg: Config, index: int): Option<Bytes> {
    if cfg.hashes.Some? && 0 <= index < cfg.numPieces && 20 * index + 20 <= |cfg.hashes.value|
    then Some(cfg.hashes.value[20 * index..20 * index + 20])
    else None
  }

  predicate Verifies(cfg: Config, index: int, data: Bytes) {
    cfg.hashes.None? || ListedDigest(cfg, index) == Some(cfg.sha1(data))
  }

  // What every store keeps: indices are in range, and data that had to verify did.
  ghost predicate PiecesOk(cfg: Config, pieces: Pieces) {
    forall i :: i in pieces ==> 0 <= i < cfg.numPieces && Verifies(cfg, i, pieces[i])
  }

  // The store after an AddPiece, which changes nothing when it reports an error.
  function Added(numPieces: nat, pieces: Pieces, index: int, data: Bytes): Pieces {
    if 0 <= index < numPieces && index !in pieces then pieces[index := data] else pieces
  }

  // The first n pieces put together, None if one is missing.
  function Assembled(pieces: Pieces, n: nat): Option<Bytes> {
    if n == 0 then Some([])
    else
      var front := Assembled(pieces, n - 1);
      if front.Some? && n - 1 in pieces then Some(front.value + pieces[n - 1]) else None
  }

  lemma {:induction false} MissingNotAssembled(pieces: Pieces, i: nat, n: nat)
    requires i < n && i !in pieces
    ensures Assembled(pieces, n) == None
  {
    if i < n - 1 {
      MissingNotAssembled(pieces, i, n - 1);
    }
  }

  ghost predicate Ascending(s: seq<int>) {
    forall i, j :: 0 <= i < j < |s| ==> s[i] < s[j]
  }

  lemma AscendingAppend(s: seq<int>, x: int)
    requires Ascending(s) && forall i :: i in s ==> i < x
    ensures Ascending(s + [x])
  {
    assert forall k :: 0 <= k < |s| ==> s[k] in s;
  }

  // `i` is advertised by `bits` and not held.
  predicate IsMissing(bits: Bytes, held: set<int>, numPieces: nat, i: int) {
    0 <= i < numPieces && HasBit(bits, i) && i !in held
  }

  predicate InRange(i: int, n: nat) {
    0 <= i < n
  }

  ghost function Range(n: nat): set<int> {
    set i: int | 0 <= i < n && InRange(i, n)
  }

  lemma {:induction false} RangeSize(n: nat)
    ensures |Range(n)| == n
  {
    if n > 0 {
      RangeSize(n - 1);
      forall i | i in Range(n)
        ensures i in Range(n - 1) + {n - 1}
      {
        assert i < n - 1 ==> InRange(i, n - 1);
      }
      assert InRange(n - 1, n) && Range(n) == Range(n - 1) + {n - 1};
    }
  }

  // Counting the stored pieces decides whether each one is there.
  lemma CountDecidesComplete(keys: set<int>, n: nat)
    requires keys <= Range(n)
    ensures |keys| <= n
    ensures |keys| == n <==> keys == Range(n)
  {
    RangeSize(n);
    SubsetSize(keys, Range(n));
  }

  /** One node's missing pieces against another's bitfield are the other's pieces less its own. */
  lemma MissingFromBitfield(mine: set<int>, theirs: set<int>, numPieces: nat, missing: seq<int>)
    requires theirs <= Range(numPieces)
    requires Ascending(missing)
    requires forall i :: i in missing <==> IsMissing(BitfieldOf(theirs, numPieces), mine, numPieces, i)
    ensures (set i | i in missing) == theirs - mine
    ensures |missing| == |theirs - mine|
  {
    BitfieldOfBits(theirs, numPieces);
    forall i | i in theirs - mine
      ensures i in missing
    {
      assert InRange(i, numPieces) && IsMissing(BitfieldOf(theirs, numPieces), mine, numPieces, i);
    }
    assert (set i | i in missing) == theirs - mine;
    AscendingCount(missing);
  }

  lemma {:induction false} AscendingCount(s: seq<int>)
    requires Ascending(s)
    ensures |set i | i in s| == |s|
  {
    if s != [] {
      var front, last := s[..|s| - 1], s[|s| - 1];
      assert s == front + [last];
      AscendingCount(front);
      OneMoreElement(front, last);
    }
  }

  lemma OneMoreElement(front: seq<int>, last: int)
    requires Ascending(front + [last])
    ensures |set i | i in front + [last]| == |set i | i in front| + 1
  {
    assert (set i | i in front + [last]) == (set i | i in front) + {last};
    forall k | 0 <= k < |front|
      ensures front[k] != last
    {
      assert (front + [last])[k] < (front + [last])[|front|];
    }
  }

  class PieceManager {
    const numPieces: nat
    const sha1: Bytes -> Digest
    var pieces: Pieces
    var pieceHashes: Option<Bytes>

    ghost function Cfg(): Config
      reads this
    {
      Config(numPieces, pieceHashes, sha1)
    }

    ghost predicate Valid()
      reads this
    {
      pieces.Keys <= Range(numPieces)
    }

    constructor (numPieces: nat, pieceHashes: Option<Bytes>, sha1: Bytes -> Digest)
      ensures Valid() && Cfg() == Config(numPieces, pieceHashes, sha1) && pieces == map[]
    {
      this.numPieces := numPieces;
      this.sha1 := sha1;
      this.pieces := map[];
      this.pieceHashes := pieceHashes;
    }

    method SetPieceHashes(hashes: Bytes)
      modifies this`pieceHashes
      ensures pieceHashes == Some(hashes)
    {
      pieceHashes := Some(hashes);
    }

    method VerifyPiece(index: int, data: Bytes) returns (ok: bool)
      ensures ok == Verifies(Cfg(), index, data)
      ensures pieceHashes.None? ==> ok
      ensures pieceHashes.Some? ==>
        ok == (0 <= index < numPieces && IsDigestAt(pieceHashes.value, index, sha1(data)))
    {
      if pieceHashes.None? {
        return true;
      }
      if index < 0 || index >= numPieces {
        return false;
      }
      var hashStart := index * 20;
      var hashEnd := hashStart + 20;
      if hashEnd > |pieceHashes.value| {
        return false;
      }
      return pieceHashes.value[hashStart..hashEnd] == sha1(data);
    }

    method GetPiece(index: int) returns (data: Option<Bytes>)
      ensures data.Some? <==> index in pieces
      ensures data.Some? ==> data.value == pieces[index]
    {
      data := if index in pieces then Some(pieces[index]) else None;
    }

    method AddPiece(index: int, data: Bytes) returns (ok: bool)
      requires Valid()
      modifies this`pieces
      ensures Valid()
      ensures ok <==> 0 <= index < numPieces && index !in old(pieces)
      ensures pieces == Added(numPieces, old(pieces), index, data)
      ensures pieces == if ok then old(pieces)[index := data] else old(pieces)
    {
      if index < 0 || index >= numPieces {
        return false;
      }
      if index in pieces {
        return false;
      }
      pieces := pieces[index := data];
      return true;
    }

    method Bitfield() returns (bits: Bytes)
      ensures bits == BitfieldOf(pieces.Keys, numPieces)
    {
      var buffer := new byte[Size(numPieces)](_ => 0);
      assert buffer[..] == Zeros(numPieces);
      for i := 0 to numPieces
        invariant buffer[..] == FillTo(pieces.Keys, numPieces, i)
      {
        if i in pieces {
          FillToBits(pieces.Keys, numPieces, i, i);
          buffer[i / 8] := buffer[i / 8] | Mask(i);
        }
      }
      bits := buffer[..];
    }

    method MissingPieces(bits: Bytes) returns (missing: seq<int>)
      ensures Ascending(missing)
      ensures forall i :: i in missing <==> IsMissing(bits, pieces.Keys, numPieces, i)
    {
      missing := [];
      for i := 0 to numPieces
        invariant Ascending(missing)
        invariant forall j :: j in missing <==> j < i && IsMissing(bits, pieces.Keys, numPieces, j)
      {
        if i / 8 >= |bits| {
          break;
        }
        var peerHas := bits[i / 8] & Mask(i) != 0;
        assert peerHas == HasBit(bits, i);
        if peerHas && i !in pieces {
          assert IsMissing(bits, pieces.Keys, numPieces, i);
          AscendingAppend(missing, i);
          missing := missing + [i];
        }
      }
    }

    method ReceivedCount() returns (count: nat)
      ensures count == |pieces|
    {
      count := |pieces|;
    }

    method AllPiecesReceived() returns (all: bool)
      requires Valid()
      ensures all <==> |pieces| == numPieces
      ensures all <==> forall i :: 0 <= i < numPieces ==> i in pieces
    {
      CountDecidesComplete(pieces.Keys, numPieces);
      all := |pieces| == numPieces;
      assert all ==> forall i :: 0 <= i < numPieces ==> InRange(i, numPieces) && i in Range(numPieces);
    }
  }
}
