/** Bytes, and the conversions between bytes and the integers the wire format carries. */
module Bytes {
  type byte = bv8
  type Bytes = seq<byte>

  datatype Option<+T> = None | Some(value: T)

  // The low `k` binary digits of `n`, as Go's `byte(n)` keeps the low eight.
  function LowBits(n: nat, k: nat): byte {
    if k == 0 then 0 else (LowBits(n / 2, k - 1) << 1) | Bit(n)
  }

  function Bit(n: nat): byte {
    if n % 2 == 1 then 1 else 0
  }

  // The integer whose binary digits are the low `k` bits of `b`, as Go's `int(b)` for k == 8.
  function BitsValue(b: byte, k: nat): nat {
    if k == 0 then 0 else 2 * BitsValue(b >> 1, k - 1) + (if b & 1 == 1 then 1 else 0)
  }

  function Pow2(k: nat): nat {
    if k == 0 then 1 else 2 * Pow2(k - 1)
  }

  function ToByte(n: nat): byte {
    LowBits(n, 8)
  }

  function FromByte(b: byte): nat {
    BitsValue(b, 8)
  }

  function Cap(k: nat): byte {
    if k == 0 then 1 else Cap(k - 1) << 1
  }

  lemma CapBound(k: nat)
    requires k < 7
    ensures Cap(k) <= 64
  {
    assert Cap(0) == 1;
    assert Cap(1) == 2;
    assert Cap(2) == 4;
    assert Cap(3) == 8;
    assert Cap(4) == 16;
    assert Cap(5) == 32;
    assert Cap(6) == 64;
  }

  lemma ShiftBound(y: byte, c: byte, z: byte)
    requires y < z <= 64 && c <= 1
    ensures (y << 1) | c < z << 1 <= 128
  {
  }

  lemma ShiftBack(y: byte, c: byte)
    requires y < 128 && c <= 1
    ensures ((y << 1) | c) >> 1 == y && ((y << 1) | c) & 1 == c
  {
  }

  lemma {:induction false} LowBitsBound(n: nat, k: nat)
    requires k <= 7
    ensures LowBits(n, k) < Cap(k) <= 128
  {
    if k > 0 {
      LowBitsBound(n / 2, k - 1);
      CapBound(k - 1);
      ShiftBound(LowBits(n / 2, k - 1), Bit(n), Cap(k - 1));
    }
  }

  lemma {:induction false} LowBitsValue(n: nat, k: nat)
    requires k <= 8 && n < Pow2(k)
    ensures BitsValue(LowBits(n, k), k) == n
  {
    if k > 0 {
      LowBitsValue(n / 2, k - 1);
      LowBitsBound(n / 2, k - 1);
      ShiftBack(LowBits(n / 2, k - 1), Bit(n));
    }
  }

  lemma {:induction false} BitsValueBound(b: byte, k: nat)
    ensures BitsValue(b, k) < Pow2(k)
  {
    if k > 0 {
      BitsValueBound(b >> 1, k - 1);
    }
  }

  lemma {:induction false} LowBitsTruncate(n: nat, m: nat, q: nat, k: nat)
    requires n == m + q * Pow2(k)
    ensures LowBits(n, k) == LowBits(m, k)
  {
    if k > 0 {
      var h := q * Pow2(k - 1);
      assert q * Pow2(k) == 2 * h;
      assert n / 2 == m / 2 + h && n % 2 == m % 2;
      LowBitsTruncate(n / 2, m / 2, q, k - 1);
    }
  }

  // A conversion to byte and back keeps the low eight bits.
  lemma ByteRoundTrip(n: nat)
    ensures FromByte(ToByte(n)) == n % 0x100
  {
    assert Pow2(4) == 16;
    assert Pow2(6) == 64;
    assert Pow2(8) == 0x100;
    LowBitsTruncate(n, n % 0x100, n / 0x100, 8);
    LowBitsValue(n % 0x100, 8);
  }

  lemma FromByteBound(b: byte)
    ensures FromByte(b) < 0x100
  {
    assert Pow2(4) == 16;
    assert Pow2(6) == 64;
    BitsValueBound(b, 8);
  }

  lemma CarryStops(b: byte)
    requires b < 0xff
    ensures b & 1 != 1 ==> (b + 1) & 1 == 1 && (b + 1) >> 1 == b >> 1
    ensures b & 1 == 1 ==> (b + 1) & 1 != 1 && (b + 1) >> 1 == (b >> 1) + 1 && b >> 1 < 0x7f
  {
  }

  lemma {:induction false} BitsValueNext(b: byte, k: nat)
    requires b < 0xff && k <= 8 && (k < 8 ==> b < Cap(k) - 1 && Cap(k) <= 128)
    ensures BitsValue(b + 1, k) == BitsValue(b, k) + 1
  {
    CarryStops(b);
    if k > 0 && b & 1 == 1 {
      CapHalves(b, k);
      BitsValueNext(b >> 1, k - 1);
    }
  }

  lemma CapHalves(b: byte, k: nat)
    requires 0 < k <= 8 && b < 0xff && b & 1 == 1 && (k < 8 ==> b < Cap(k) - 1 && Cap(k) <= 128)
    ensures b >> 1 < Cap(k - 1) - 1 && Cap(k - 1) <= 128
  {
    assert Cap(0) == 1 && Cap(1) == 2 && Cap(2) == 4 && Cap(3) == 8;
    assert Cap(4) == 16 && Cap(5) == 32 && Cap(6) == 64 && Cap(7) == 128;
  }

  /** The conversion counts: zero is 0 and each byte is one more than the byte before it. */
  lemma FromByteCounts(b: byte)
    ensures FromByte(0) == 0
    ensures b < 0xff ==> FromByte(b + 1) == FromByte(b) + 1
  {
    ZeroBits(8);
    if b < 0xff {
      BitsValueNext(b, 8);
    }
  }

  lemma {:induction false} ZeroBits(k: nat)
    ensures BitsValue(0, k) == 0
  {
    if k > 0 {
      ZeroBits(k - 1);
    }
  }

  // The low `k` bytes of `n`, most significant first.
  function BigEndian(n: nat, k: nat): (b: Bytes)
    ensures |b| == k
  {
    if k == 0 then [] else BigEndian(n / 0x100, k - 1) + [ToByte(n)]
  }

  function BigEndianValue(b: Bytes): nat {
    if b == [] then 0
    else BigEndianValue(b[..|b| - 1]) * 0x100 + FromByte(b[|b| - 1])
  }

  function Pow256(k: nat): nat {
    if k == 0 then 1 else 0x100 * Pow256(k - 1)
  }

  lemma {:induction false} BigEndianRoundTrip(n: nat, k: nat)
    requires n < Pow256(k)
    ensures BigEndianValue(BigEndian(n, k)) == n
  {
    if k > 0 {
      BigEndianRoundTrip(n / 0x100, k - 1);
      ByteRoundTrip(n);
      assert BigEndian(n, k)[..k - 1] == BigEndian(n / 0x100, k - 1);
    }
  }

  lemma {:induction false} BigEndianBound(b: Bytes)
    ensures BigEndianValue(b) < Pow256(|b|)
  {
    if b != [] {
      BigEndianBound(b[..|b| - 1]);
      FromByteBound(b[|b| - 1]);
    }
  }
}
