/**
 From seeded bytes to downloaded bytes: splitting and hashing in cmd/seed.go:46-69, and what a
 download checked against those hashes can put together. SHA-1 is a parameter.
 */
module Seeding {
  import opened Bytes
  import opened PieceStore
  import opened Nodes
  import opened NodeRuns

  function Start(data: Bytes, size: nat, i: nat): nat {
    if i * size <= |data| then i * size else |data|
  }

  function PieceAt(data: Bytes, size: nat, i: nat): Bytes
    requires Start(data, size, i) <= Start(data, size, i + 1)
  {
    data[Start(data, size, i)..Start(data, size, i + 1)]
  }

  lemma StartsAscend(data: Bytes, size: nat, i: nat)
    ensures Start(data, size, i) <= Start(data, size, i + 1)
  {
    assert (i + 1) * size == i * size + size;
  }

  function Piece(data: Bytes, size: nat, i: nat): Bytes {
    StartsAscend(data, size, i);
    PieceAt(data, size, i)
  }

  function NumPieces(data: Bytes, size: nat): nat
    requires size > 0
  {
    (|data| + size - 1) / size
  }

  // The digests of the first k pieces, one after the other.
  function Digests(data: Bytes, size: nat, sha1: Bytes -> Digest, k: nat): (hashes: Bytes)
    ensures |hashes| == 20 * k
  {
    if k == 0 then [] else Digests(data, size, sha1, k - 1) + sha1(Piece(data, size, k - 1))
  }

  function SeedConfig(data: Bytes, size: nat, sha1: Bytes -> Digest): Config
    requires size > 0
  {
    var n := NumPieces(data, size);
    Config(n, Some(Digests(data, size, sha1, n)), sha1)
  }

  lemma {:induction false} DigestAt(data: Bytes, size: nat, sha1: Bytes -> Digest, k: nat, i: nat)
    requires i < k
    ensures Digests(data, size, sha1, k)[20 * i..20 * i + 20] == sha1(Piece(data, size, i))
  {
    if i < k - 1 {
      DigestAt(data, size, sha1, k - 1, i);
      assert Digests(data, size, sha1, k)[20 * i..20 * i + 20]
          == Digests(data, size, sha1, k - 1)[20 * i..20 * i + 20];
    }
  }

  // The pieces reach the end of the data.
  lemma PiecesReachEnd(data: Bytes, size: nat)
    requires size > 0
    ensures Start(data, size, NumPieces(data, size)) == |data|
  {
    var n, r := NumPieces(data, size), (|data| + size - 1) % size;
    assert |data| + size - 1 == n * size + r && r < size;
    assert n * size >= |data|;
    assert Start(data, size, n) == if n * size <= |data| then n * size else |data|;
  }

  lemma PieceExtends(data: Bytes, size: nat, i: nat)
    ensures data[..Start(data, size, i)] + Piece(data, size, i) == data[..Start(data, size, i + 1)]
  {
    StartsAscend(data, size, i);
  }

  predicate HoldsPiece(data: Bytes, size: nat, pieces: Pieces, i: nat) {
    i in pieces && pieces[i] == Piece(data, size, i)
  }

  lemma {:induction false} PiecesAssemble(data: Bytes, size: nat, pieces: Pieces, k: nat)
    requires forall i: nat {:trigger HoldsPiece(data, size, pieces, i)} :: i < k ==> HoldsPiece(data, size, pieces, i)
    ensures Assembled(pieces, k) == Some(data[..Start(data, size, k)])
  {
    if k > 0 {
      PiecesAssemble(data, size, pieces, k - 1);
      PieceExtends(data, size, k - 1);
      assert HoldsPiece(data, size, pieces, k - 1);
      AssembledNext(pieces, k, data[..Start(data, size, k - 1)], Piece(data, size, k - 1));
    }
  }

  lemma AssembledNext(pieces: Pieces, k: nat, front: Bytes, last: Bytes)
    requires k > 0 && Assembled(pieces, k - 1) == Some(front) && k - 1 in pieces && pieces[k - 1] == last
    ensures Assembled(pieces, k) == Some(front + last)
  {
  }

  // ----- seeding -----

  method HashPieces(data: Bytes, size: nat, sha1: Bytes -> Digest) returns (hashes: array<byte>)
    requires size > 0
    ensures fresh(hashes) && hashes[..] == Digests(data, size, sha1, NumPieces(data, size))
  {
    var numPieces := (|data| + size - 1) / size;
    hashes := new byte[numPieces * 20](_ => 0);
    for i := 0 to numPieces
      invariant hashes[..20 * i] == Digests(data, size, sha1, i)
    {
      var start := i * size;
      var end := start + size;
      if end > |data| {
        end := |data|;
      }
      PieceBounds(data, size, i);
      CopyDigest(hashes, i, sha1(data[start..end]));
    }
    assert hashes[..] == hashes[..20 * numPieces];
  }

  // copy(hashes[i*20:(i+1)*20], hash[:])
  method CopyDigest(hashes: array<byte>, i: nat, hash: Digest)
    requires 20 * i + 20 <= hashes.Length
    modifies hashes
    ensures hashes[..20 * (i + 1)] == old(hashes[..20 * i]) + hash
  {
    forall j | 0 <= j < 20 {
      hashes[20 * i + j] := hash[j];
    }
    assert hashes[20 * i..20 * (i + 1)] == hash;
    assert hashes[..20 * (i + 1)] == hashes[..20 * i] + hashes[20 * i..20 * (i + 1)];
  }

  lemma PieceBounds(data: Bytes, size: nat, i: nat)
    requires size > 0 && i < NumPieces(data, size)
    ensures i * size <= |data|
    ensures Piece(data, size, i)
         == data[i * size..if i * size + size > |data| then |data| else i * size + size]
  {
    var n := NumPieces(data, size);
    assert n * size <= |data| + size - 1;
    assert (i + 1) * size == i * size + size;
    assert (i + 1) * size <= n * size;
  }

  // The store a seeder starts from: every piece of its file, and the digests of all of them.
  method RunSeed(data: Bytes, size: nat, sha1: Bytes -> Digest) returns (pm: PieceManager)
    requires size > 0
    ensures fresh(pm) && pm.Valid() && pm.Cfg() == SeedConfig(data, size, sha1)
    ensures pm.pieces.Keys == Range(NumPieces(data, size))
    ensures forall i: nat :: i in pm.pieces ==> pm.pieces[i] == Piece(data, size, i)
  {
    var hashes := HashPieces(data, size, sha1);
    var numPieces := (|data| + size - 1) / size;
    pm := new PieceManager(numPieces, Some(hashes[..]), sha1);
    for i := 0 to numPieces
      invariant pm.Valid() && pm.Cfg() == SeedConfig(data, size, sha1)
      invariant pm.pieces.Keys == Range(i)
      invariant forall j: nat :: j in pm.pieces ==> pm.pieces[j] == Piece(data, size, j)
    {
      var start := i * size;
      var end := start + size;
      if end > |data| {
        end := |data|;
      }
      PieceBounds(data, size, i);
      var ok := pm.AddPiece(i, data[start..end]);
      RangeNext(i);
    }
  }

  lemma RangeNext(n: nat)
    ensures Range(n + 1) == Range(n) + {n} && n !in Range(n)
  {
    forall i | i in Range(n + 1)
      ensures i in Range(n) + {n}
    {
      assert i < n ==> InRange(i, n);
    }
    forall i | i in Range(n) + {n}
      ensures i in Range(n + 1)
    {
      assert InRange(i, n + 1);
    }
  }

  // ----- end to end -----

  // Other data with the digest of the seeded piece i.
  predicate Collides(data: Bytes, size: nat, sha1: Bytes -> Digest, i: nat, d: Bytes) {
    sha1(d) == sha1(Piece(data, size, i)) && d != Piece(data, size, i)
  }

  // No event of the run brings such data.
  ghost predicate NoCollisionDelivered(data: Bytes, size: nat, sha1: Bytes -> Digest, events: seq<Event>) {
    forall i: nat, d: Bytes :: Delivered(events, i, d) ==> !Collides(data, size, sha1, i, d)
  }

  /** Data verifies against the seeder's hashes exactly when it is the seeded piece or collides with it. */
  lemma VerifiedIsSeeded(data: Bytes, size: nat, sha1: Bytes -> Digest, i: int, d: Bytes)
    requires size > 0
    ensures Verifies(SeedConfig(data, size, sha1), i, d)
       <==> 0 <= i < NumPieces(data, size) && (d == Piece(data, size, i) || Collides(data, size, sha1, i, d))
  {
    if 0 <= i < NumPieces(data, size) {
      DigestAt(data, size, sha1, NumPieces(data, size), i);
    }
  }

  // A store of seeded pieces only can be put together exactly when it holds as many as there are.
  lemma SeededAssemble(data: Bytes, size: nat, pieces: Pieces)
    requires size > 0
    requires forall i :: i in pieces ==> 0 <= i < NumPieces(data, size) && pieces[i] == Piece(data, size, i)
    ensures Assembled(pieces, NumPieces(data, size))
         == if |pieces| == NumPieces(data, size) then Some(data) else None
  {
    var n := NumPieces(data, size);
    CountDecidesHeld(pieces, n);
    if |pieces| == n {
      PiecesAssemble(data, size, pieces, n);
      PiecesReachEnd(data, size);
      assert data[..|data|] == data;
    } else {
      var i: nat :| i < n && i !in pieces;
      MissingNotAssembled(pieces, i, n);
    }
  }

  lemma CountDecidesHeld(pieces: Pieces, n: nat)
    requires forall i :: i in pieces ==> 0 <= i < n
    ensures |pieces| == n <==> forall i: nat :: i < n ==> i in pieces
  {
    assert pieces.Keys <= Range(n) by {
      assert forall i :: i in pieces ==> InRange(i, n);
    }
    CountDecidesComplete(pieces.Keys, n);
    assert forall i: nat :: i < n ==> InRange(i, n) && i in Range(n);
  }

  /**
   A download that starts empty with the seeder's piece count and hashes holds, after any run
   against any peers that deliver no collision, only seeded pieces; and once it counts all pieces
   received, and only then, it can put the file together, and what it puts together is the seeded
   data.
   */
  lemma EndToEndIntegrity(data: Bytes, size: nat, sha1: Bytes -> Digest, events: seq<Event>)
    requires size > 0 && NoCollisionDelivered(data, size, sha1, events)
    requires CanRun(SeedConfig(data, size, sha1), map[], events)
    ensures var cfg := SeedConfig(data, size, sha1);
            var pieces := After(cfg, map[], events).pieces;
            && (forall i :: i in pieces ==> 0 <= i < cfg.numPieces && pieces[i] == Piece(data, size, i))
            && Assembled(pieces, cfg.numPieces) == if |pieces| == cfg.numPieces then Some(data) else None
  {
    var pieces := After(SeedConfig(data, size, sha1), map[], events).pieces;
    forall i | i in pieces
      ensures 0 <= i < NumPieces(data, size) && pieces[i] == Piece(data, size, i)
    {
      StoredIsSeeded(data, size, sha1, events, i);
    }
    SeededAssemble(data, size, pieces);
  }

  lemma StoredIsSeeded(data: Bytes, size: nat, sha1: Bytes -> Digest, events: seq<Event>, i: int)
    requires size > 0 && NoCollisionDelivered(data, size, sha1, events)
    requires CanRun(SeedConfig(data, size, sha1), map[], events)
    requires i in After(SeedConfig(data, size, sha1), map[], events).pieces
    ensures 0 <= i < NumPieces(data, size)
    ensures After(SeedConfig(data, size, sha1), map[], events).pieces[i] == Piece(data, size, i)
  {
    var cfg := SeedConfig(data, size, sha1);
    var d := After(cfg, map[], events).pieces[i];
    RunKeepsPieces(cfg, events);
    VerifiedIsSeeded(data, size, sha1, i, d);
    StoredWasDelivered(cfg, map[], events, i);
  }

  lemma {:induction false} RunKeepsPieces(cfg: Config, events: seq<Event>)
    requires CanRun(cfg, map[], events)
    ensures PiecesOk(cfg, After(cfg, map[], events).pieces)
  {
    NodeRunKeeps(cfg, map[], events);
  }
}
