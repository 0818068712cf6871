/** Bytes and bits as numpy's `packbits` and `unpackbits` see them with
    `bitorder="little"`: element 8k + j of a bit vector is bit j (counting
    from the least significant bit) of byte k, and a last partial byte is
    padded with zero bits. */
module Bits {

  /** numpy uint8 */
  type byte = x: int | 0 <= x < 256

  function Pow2(n: nat): (r: nat)
    ensures r >= 1
  {
    if n == 0 then 1 else 2 * Pow2(n - 1)
  }

  lemma {:induction false} Pow2Monotone(m: nat, n: nat)
    requires m <= n
    ensures Pow2(m) <= Pow2(n)
  {
    if m < n {
      Pow2Monotone(m, n - 1);
    }
  }

  /** Bit j of x, bit 0 being the least significant. */
  function Bit(x: nat, j: nat): bool
  {
    if j == 0 then x % 2 == 1 else Bit(x / 2, j - 1)
  }

  /** The number whose bit j is bs[j]. */
  function BitsToNat(bs: seq<bool>): (r: nat)
    ensures r < Pow2(|bs|)
  {
    if bs == [] then 0 else (if bs[0] then 1 else 0) + 2 * BitsToNat(bs[1..])
  }

  lemma {:induction false} BitOfZero(j: nat)
    ensures !Bit(0, j)
  {
    if j > 0 {
      BitOfZero(j - 1);
    }
  }

  /** Reading bit j back out of BitsToNat(bs) gives bs[j], and every bit
      above the vector is zero. */
  lemma {:induction false} BitOfBitsToNat(bs: seq<bool>, j: nat)
    ensures Bit(BitsToNat(bs), j) == (j < |bs| && bs[j])
  {
    if bs == [] {
      BitOfZero(j);
    } else if j > 0 {
      var n := BitsToNat(bs);
      assert n / 2 == BitsToNat(bs[1..]);
      BitOfBitsToNat(bs[1..], j - 1);
    }
  }

  lemma {:induction false} MulAtLeast(k: int, d: int)
    requires k >= 1 && d >= 1
    ensures k * d >= d
  {
    if k > 1 {
      MulAtLeast(k - 1, d);
      assert k * d == (k - 1) * d + d;
    }
  }

  /** Quotient and remainder are unique. */
  lemma ModOfSplit(x: nat, d: nat, a: nat, m: nat)
    requires 0 <= m < d && x == a * d + m
    ensures x % d == m && x / d == a
  {
    var q, r := x / d, x % d;
    assert q * d + r == a * d + m;
    assert (a - q) * d == r - m;
    if a > q {
      MulAtLeast(a - q, d);
    } else if a < q {
      MulAtLeast(q - a, d);
    }
  }

  lemma SmallMod(x: nat, d: nat)
    requires x < d
    ensures x % d == x
  {
    ModOfSplit(x, d, 0, x);
  }

  lemma ModTwoStep(x: nat, p: nat)
    requires p >= 1
    ensures x % (2 * p) == x % 2 + 2 * ((x / 2) % p)
  {
    var q, r := x / 2, x % 2;
    var a, b := q / p, q % p;
    assert q == a * p + b;
    assert x == a * (2 * p) + (2 * b + r);
    ModOfSplit(x, 2 * p, a, 2 * b + r);
  }

  /** The low n bits of x, least significant first. */
  function LowBits(x: nat, n: nat): (bs: seq<bool>)
    ensures |bs| == n
  {
    if n == 0 then [] else [x % 2 == 1] + LowBits(x / 2, n - 1)
  }

  lemma {:induction false} LowBitsAt(x: nat, n: nat, j: nat)
    requires j < n
    ensures LowBits(x, n)[j] == Bit(x, j)
  {
    if j > 0 {
      LowBitsAt(x / 2, n - 1, j - 1);
    }
  }

  /** The low n bits of x, read back as a number, are x modulo 2^n. */
  lemma {:induction false} LowBitsValue(x: nat, n: nat)
    ensures BitsToNat(LowBits(x, n)) == x % Pow2(n)
  {
    if n > 0 {
      LowBitsValue(x / 2, n - 1);
      ModTwoStep(x, Pow2(n - 1));
    }
  }

  /** One byte from at most eight bits. */
  function PackByte(bs: seq<bool>): (b: byte)
    requires |bs| <= 8
  {
    Pow2Monotone(|bs|, 8);
    BitsToNat(bs)
  }

  /** `np.packbits(bits, bitorder="little")`. */
  function PackBits(bits: seq<bool>): (r: seq<byte>)
    ensures |r| == (|bits| + 7) / 8
    ensures |bits| <= 8 * |r|
    decreases |bits|
  {
    if |bits| == 0 then []
    else if |bits| <= 8 then [PackByte(bits)]
    else [PackByte(bits[..8])] + PackBits(bits[8..])
  }

  /** Bit p of a little-endian packed byte array. */
  function BitAt(bytes: seq<byte>, p: nat): bool
    requires p < 8 * |bytes|
  {
    Bit(bytes[p / 8], p % 8)
  }

  /** Every bit lands where little-endian packing puts it, and the padding
      bits of the last byte are zero. */
  lemma {:induction false} PackBitsAt(bits: seq<bool>, p: nat)
    requires p < 8 * |PackBits(bits)|
    ensures BitAt(PackBits(bits), p) == (p < |bits| && bits[p])
  {
    if |bits| <= 8 {
      BitOfBitsToNat(bits, p);
    } else if p < 8 {
      BitOfBitsToNat(bits[..8], p);
    } else {
      PackBitsAt(bits[8..], p - 8);
      assert (p - 8) / 8 == p / 8 - 1 && (p - 8) % 8 == p % 8;
    }
  }

  /** `np.unpackbits(x, bitorder="little")` of one byte. */
  function UnpackBits(x: byte): (bs: seq<bool>)
    ensures |bs| == 8
  {
    seq(8, j requires 0 <= j => Bit(x, j))
  }

  /** Unpacking a byte loses nothing: packing its eight bits gives it back. */
  lemma PackUnpackByte(x: byte)
    ensures PackByte(UnpackBits(x)) == x
  {
    forall j | 0 <= j < 8
      ensures UnpackBits(x)[j] == LowBits(x, 8)[j]
    {
      LowBitsAt(x, 8, j);
    }
    assert UnpackBits(x) == LowBits(x, 8);
    LowBitsValue(x, 8);
    assert Pow2(8) == 256;
    SmallMod(x, 256);
  }

  /** Number of set bits. */
  function CountTrue(bs: seq<bool>): nat
  {
    if bs == [] then 0 else (if bs[0] then 1 else 0) + CountTrue(bs[1..])
  }

  lemma {:induction false} CountTrueAppend(a: seq<bool>, b: seq<bool>)
    ensures CountTrue(a + b) == CountTrue(a) + CountTrue(b)
  {
    if a == [] {
      assert a + b == b;
    } else {
      assert (a + b)[1..] == a[1..] + b;
      CountTrueAppend(a[1..], b);
    }
  }

  lemma {:induction false} CountTrueNone(n: nat)
    ensures CountTrue(seq(n, _ => false)) == 0
  {
    if n > 0 {
      assert seq(n, _ => false)[1..] == seq(n - 1, _ => false);
      CountTrueNone(n - 1);
    }
  }

  /** `np.unpackbits(bytes, bitorder="little")`. */
  function UnpackAll(bytes: seq<byte>): (bs: seq<bool>)
    ensures |bs| == 8 * |bytes|
  {
    if bytes == [] then [] else UnpackBits(bytes[0]) + UnpackAll(bytes[1..])
  }

  lemma {:induction false} UnpackAllAt(bytes: seq<byte>, p: nat)
    requires p < 8 * |bytes|
    ensures UnpackAll(bytes)[p] == BitAt(bytes, p)
  {
    if p >= 8 {
      UnpackAllAt(bytes[1..], p - 8);
      assert (p - 8) / 8 == p / 8 - 1 && (p - 8) % 8 == p % 8;
    }
  }

  /** Unpacking undoes packing, up to the zero bits padding the last byte. */
  lemma UnpackPackBits(bits: seq<bool>)
    ensures UnpackAll(PackBits(bits)) == bits + seq(8 * |PackBits(bits)| - |bits|, _ => false)
  {
    var packed := PackBits(bits);
    var padded := bits + seq(8 * |packed| - |bits|, _ => false);
    forall p | 0 <= p < 8 * |packed|
      ensures UnpackAll(packed)[p] == padded[p]
    {
      UnpackAllAt(packed, p);
      PackBitsAt(bits, p);
    }
  }

  /** Every packed bit is unpacked at its own position. */
  lemma UnpackPackAt(bits: seq<bool>, p: nat)
    requires p < |bits|
    ensures p < |UnpackAll(PackBits(bits))|
    ensures UnpackAll(PackBits(bits))[p] == bits[p]
  {
    UnpackAllAt(PackBits(bits), p);
    PackBitsAt(bits, p);
  }

  /** Population count of a byte array. */
  function PopCount(bytes: seq<byte>): nat
  {
    CountTrue(UnpackAll(bytes))
  }

  /** Packing keeps the number of set bits. */
  lemma PopCountPackBits(bits: seq<bool>)
    ensures PopCount(PackBits(bits)) == CountTrue(bits)
  {
    var zeros := seq(8 * |PackBits(bits)| - |bits|, _ => false);
    UnpackPackBits(bits);
    CountTrueAppend(bits, zeros);
    CountTrueNone(|zeros|);
  }
}
