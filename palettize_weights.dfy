/** The UNIQUE mode of the palettization pass: choose the smallest index
    width that holds every distinct weight, build the look-up table and the
    per-weight indices, validate them, and pack the indices n bits at a
    time, little-endian, into bytes. */
module PalettizeWeights {
  import opened Base
  import opened Graph
  import opened Bits
  import opened CompressionPass

  // ---------------------------------------------------------------------
  // np.unique
  // ---------------------------------------------------------------------

  predicate StrictlyIncreasing(s: seq<int>)
  {
    forall i, j :: 0 <= i < j < |s| ==> s[i] < s[j]
  }

  function InsertSorted(s: seq<int>, x: int): (r: seq<int>)
    requires StrictlyIncreasing(s)
    ensures StrictlyIncreasing(r)
    ensures forall y :: y in r <==> y in s || y == x
  {
    if s == [] then [x]
    else if x < s[0] then [x] + s
    else if x == s[0] then s
    else
      var t := InsertSorted(s[1..], x);
      forall k | 0 <= k < |t|
        ensures s[0] < t[k]
      {
        assert t[k] in t;
        if t[k] != x {
          var m :| 0 <= m < |s[1..]| && s[1..][m] == t[k];
          assert s[m + 1] == t[k];
        }
      }
      [s[0]] + t
  }

  /** `np.unique(val)`: the distinct values, in increasing order. */
  function Unique(val: seq<int>): (r: seq<int>)
    ensures StrictlyIncreasing(r)
    ensures forall x :: x in r <==> x in val
    ensures |r| <= |val|
  {
    if val == [] then []
    else
      var rest := Unique(val[1..]);
      var r := InsertSorted(rest, val[0]);
      assert |r| <= |rest| + 1 by {
        InsertSortedLength(rest, val[0]);
      }
      r
  }

  lemma {:induction false} InsertSortedLength(s: seq<int>, x: int)
    requires StrictlyIncreasing(s)
    ensures |InsertSorted(s, x)| <= |s| + 1
  {
    if s != [] && x > s[0] {
      InsertSortedLength(s[1..], x);
    }
  }

  lemma NonEmptyTransfers(a: seq<int>, b: seq<int>)
    requires forall x :: x in a ==> x in b
    ensures |a| > 0 ==> |b| > 0
  {
    if |a| > 0 {
      var y := a[0];
      assert y in a;
      assert y in b;
    }
  }

  lemma HeadsEqual(a: seq<int>, b: seq<int>)
    requires StrictlyIncreasing(a) && StrictlyIncreasing(b) && a != [] && b != []
    requires forall x :: x in a <==> x in b
    ensures a[0] == b[0]
  {
    assert a[0] in a && b[0] in b;
    var k :| 0 <= k < |b| && b[k] == a[0];
    var m :| 0 <= m < |a| && a[m] == b[0];
    assert b[0] <= b[k] && a[0] <= a[m];
  }

  /** Past a common least element, the rest of the members agree. */
  lemma TailMembers(a: seq<int>, b: seq<int>, x: int)
    requires StrictlyIncreasing(a) && StrictlyIncreasing(b) && a != [] && b != []
    requires forall y :: y in a <==> y in b
    requires a[0] == b[0] && x in a[1..]
    ensures x in b[1..]
  {
    var i :| 0 <= i < |a[1..]| && a[1..][i] == x;
    assert a[0] < a[i + 1];
    assert x in a;
    var k :| 0 <= k < |b| && b[k] == x;
    assert b[1..][k - 1] == x;
  }

  /** A strictly increasing sequence is determined by its elements, so
      `Unique` is the only possible answer for np.unique. */
  lemma {:induction false} SortedDistinctIsUnique(a: seq<int>, b: seq<int>)
    requires StrictlyIncreasing(a) && StrictlyIncreasing(b)
    requires forall x :: x in a <==> x in b
    ensures a == b
  {
    if a == [] || b == [] {
      NonEmptyTransfers(a, b);
      NonEmptyTransfers(b, a);
    } else {
      HeadsEqual(a, b);
      forall x
        ensures x in a[1..] <==> x in b[1..]
      {
        if x in a[1..] {
          TailMembers(a, b, x);
        }
        if x in b[1..] {
          TailMembers(b, a, x);
        }
      }
      SortedDistinctIsUnique(a[1..], b[1..]);
      assert a == [a[0]] + a[1..] && b == [b[0]] + b[1..];
    }
  }

  /** Position of x in s: the first one. */
  function IndexOf(s: seq<int>, x: int): (r: nat)
    requires x in s
    ensures r < |s| && s[r] == x
    ensures forall k :: 0 <= k < r ==> s[k] != x
  {
    if s[0] == x then 0 else 1 + IndexOf(s[1..], x)
  }

  /** In a strictly increasing sequence a value has one position only. */
  lemma IndexOfSorted(s: seq<int>, k: nat)
    requires StrictlyIncreasing(s) && k < |s|
    ensures IndexOf(s, s[k]) == k
  {
  }

  // ---------------------------------------------------------------------
  // get_nbits_for_unique_mode
  // ---------------------------------------------------------------------

  /** The index widths UNIQUE mode tries, in order. */
  const UniqueModeNBits: seq<nat> := [1, 2, 4, 6, 8]

  /** The position of the first candidate width whose 2^nbits table holds
      `count` values; |cands| when none does. */
  function FirstFit(count: nat, cands: seq<nat>): (r: nat)
    ensures r <= |cands|
    ensures forall k :: 0 <= k < r ==> count > Pow2(cands[k])
    ensures r < |cands| ==> count <= Pow2(cands[r])
  {
    if cands == [] then 0
    else if count <= Pow2(cands[0]) then 0
    else 1 + FirstFit(count, cands[1..])
  }

  lemma Pow2Table()
    ensures Pow2(1) == 2 && Pow2(2) == 4 && Pow2(4) == 16 && Pow2(6) == 64 && Pow2(8) == 256
  {
    assert Pow2(2) == 4;
    assert Pow2(4) == 16;
    assert Pow2(6) == 64;
  }

  /** `get_nbits_for_unique_mode`: the smallest width among 1, 2, 4, 6 and 8
      whose table holds every distinct weight; `None` when even 8 bits do
      not. */
  function NBitsForUniqueMode(val: seq<int>): (r: Option<nat>)
    ensures r.None? <==> |Unique(val)| > 256
    ensures r.Some? ==> r.value in UniqueModeNBits && |Unique(val)| <= Pow2(r.value)
    ensures r.Some? ==> 1 <= r.value <= 8
    ensures r.Some? ==> forall c :: c in UniqueModeNBits && c < r.value ==> |Unique(val)| > Pow2(c)
  {
    var n := |Unique(val)|;
    Pow2Table();
    if n <= Pow2(1) then Some(1)
    else if n <= Pow2(2) then Some(2)
    else if n <= Pow2(4) then Some(4)
    else if n <= Pow2(6) then Some(6)
    else if n <= Pow2(8) then Some(8)
    else None
  }

  /** The width chosen is the one the candidate loop returns: the first of
      1, 2, 4, 6, 8 that fits, or nothing. */
  lemma NBitsIsFirstFit(val: seq<int>)
    ensures var k := FirstFit(|Unique(val)|, UniqueModeNBits);
            NBitsForUniqueMode(val) == if k < |UniqueModeNBits| then Some(UniqueModeNBits[k]) else None
  {
    Pow2Table();
    UniqueModeFirstFit(|Unique(val)|);
  }

  lemma UniqueModeFirstFit(n: nat)
    ensures FirstFit(n, UniqueModeNBits)
         == if n <= 2 then 0 else if n <= 4 then 1 else if n <= 16 then 2
            else if n <= 64 then 3 else if n <= 256 then 4 else 5
  {
    var c := UniqueModeNBits;
    assert c[0] == 1 && c[1] == 2 && c[2] == 4 && c[3] == 6 && c[4] == 8;
    Pow2Table();
  }

  // ---------------------------------------------------------------------
  // compress_unique
  // ---------------------------------------------------------------------

  /** The value the accumulation loop has given a weight x after the first
      i table entries: the sum of (k + 1) over every k < i with lut[k] == x. */
  function Tag(lut: seq<int>, i: nat, x: int): int
    requires i <= |lut|
  {
    if i == 0 then 0 else Tag(lut, i - 1, x) + (if x == lut[i - 1] then i else 0)
  }

  /** Over distinct table entries the accumulated tag is one more than the
      position of x, or 0 when x is not among the entries seen. */
  lemma {:induction false} TagOfDistinct(u: seq<int>, i: nat, x: int)
    requires StrictlyIncreasing(u) && i <= |u|
    ensures Tag(u, i, x) == if x in u[..i] then IndexOf(u, x) + 1 else 0
  {
    if i > 0 {
      TagOfDistinct(u, i - 1, x);
      assert u[..i] == u[..i - 1] + [u[i - 1]];
      if x == u[i - 1] {
        IndexOfSorted(u, i - 1);
      }
    }
  }

  datatype LutAndIndices = LutAndIndices(lut: seq<int>, indices: seq<byte>)

  /** The table layout of UNIQUE mode: 2^nbits entries, the distinct values
      first, zeros after. */
  predicate LutLayout(lut: seq<int>, u: seq<int>, nbits: nat)
  {
    && |lut| == Pow2(nbits)
    && |u| <= |lut|
    && lut[..|u|] == u
    && (forall k :: |u| <= k < |lut| ==> lut[k] == 0)
  }

  /** `lut = [0] * (1 << nbits); lut[:len(u)] = u`. */
  method BuildTable(u: seq<int>, nbits: nat) returns (lut: seq<int>)
    requires |u| <= Pow2(nbits)
    ensures LutLayout(lut, u, nbits)
  {
    var size := Pow2(nbits);
    var table := new int[size](_ => 0);
    for j := 0 to |u|
      invariant forall k :: 0 <= k < size ==> table[k] == if k < j then u[k] else 0
    {
      table[j] := u[j];
    }
    lut := table[..];
    assert lut[..|u|] == u;
  }

  /** The accumulation loop `indices += (i + 1) * (val == k)` over the first
      |u| table entries, followed by `indices = indices - 1`. */
  method AccumulateIndices(val: seq<int>, u: seq<int>) returns (idx: seq<int>)
    requires StrictlyIncreasing(u)
    requires forall x :: x in val ==> x in u
    ensures |idx| == |val|
    // every weight matched exactly one table entry: no index is -1
    ensures forall p :: 0 <= p < |val| ==> idx[p] == IndexOf(u, val[p]) && idx[p] != -1
  {
    var acc := new int[|val|](_ => 0);
    for i := 0 to |u|
      invariant forall p :: 0 <= p < |val| ==> acc[p] == Tag(u, i, val[p])
    {
      for p := 0 to |val|
        invariant forall q :: 0 <= q < p ==> acc[q] == Tag(u, i + 1, val[q])
        invariant forall q :: p <= q < |val| ==> acc[q] == Tag(u, i, val[q])
      {
        acc[p] := acc[p] + (i + 1) * (if val[p] == u[i] then 1 else 0);
      }
    }
    for p := 0 to |val|
      invariant forall q :: 0 <= q < p ==> acc[q] == Tag(u, |u|, val[q]) - 1
      invariant forall q :: p <= q < |val| ==> acc[q] == Tag(u, |u|, val[q])
    {
      acc[p] := acc[p] - 1;
    }
    idx := acc[..];
    forall p | 0 <= p < |val|
      ensures idx[p] == IndexOf(u, val[p])
    {
      assert val[p] in val;
      TagOfDistinct(u, |u|, val[p]);
      assert u[..|u|] == u;
    }
  }

  /** `compress_unique`.  The cast to uint8 keeps each index modulo 256. */
  method CompressUnique(val: seq<int>, nbits: nat) returns (r: Result<LutAndIndices>)
    ensures r.Err? <==> |Unique(val)| > Pow2(nbits)
    ensures r.Err? ==> r.error == ValueError(TooManyUniqueValues)
    ensures r.Ok? ==> LutLayout(r.value.lut, Unique(val), nbits)
    ensures r.Ok? ==> |r.value.indices| == |val|
    ensures r.Ok? ==> forall p :: 0 <= p < |val| ==>
                        r.value.indices[p] == IndexOf(Unique(val), val[p]) % 256
    // lossless whenever the table fits uint8 indices
    ensures r.Ok? && nbits <= 8 ==>
              forall p :: 0 <= p < |val| ==>
                r.value.indices[p] < |r.value.lut| && r.value.lut[r.value.indices[p]] == val[p]
  {
    var u := Unique(val);
    if |u| > Pow2(nbits) {
      return Err(ValueError(TooManyUniqueValues));
    }
    var lut := BuildTable(u, nbits);
    var idx := AccumulateIndices(val, u);
    var indices := seq(|val|, p requires 0 <= p < |val| => (idx[p] % 256) as byte);
    if nbits <= 8 {
      Pow2Monotone(nbits, 8);
      Pow2Table();
      assert forall p :: 0 <= p < |val| ==> indices[p] == idx[p];
    }
    return Ok(LutAndIndices(lut, indices));
  }

  // ---------------------------------------------------------------------
  // pack_indices_into_bytes_array
  // ---------------------------------------------------------------------

  function Min(a: nat, b: nat): nat
  {
    if a < b then a else b
  }

  /** `np.unpackbits(index, bitorder="little")[:nbits]`: the slice stops at
      the byte's eight bits. */
  function IndexBits(x: byte, nbits: nat): (bs: seq<bool>)
    ensures |bs| == Min(nbits, 8)
    ensures forall j :: 0 <= j < |bs| ==> bs[j] == Bit(x, j)
  {
    UnpackBits(x)[..Min(nbits, 8)]
  }

  /** The low-bit slices of all indices, one after the other: every
      index contributes min(nbits, 8) bits. */
  function FlattenIndexBits(indices: seq<byte>, nbits: nat): (r: seq<bool>)
    ensures |r| == |indices| * Min(nbits, 8)
  {
    if indices == [] then []
    else
      MulStep(|indices|, Min(nbits, 8));
      IndexBits(indices[0], nbits) + FlattenIndexBits(indices[1..], nbits)
  }

  /** `pack_indices_into_bytes_array`: one bit per index bit, rounded up
      to whole bytes. */
  function PackIndicesIntoBytesArray(indices: seq<byte>, nbits: nat): (r: seq<byte>)
    ensures |r| == (|indices| * Min(nbits, 8) + 7) / 8
    ensures |indices| * Min(nbits, 8) <= 8 * |r|
  {
    PackBits(FlattenIndexBits(indices, nbits))
  }

  lemma {:induction false} FlattenIndexBitsAt(indices: seq<byte>, nbits: nat, i: nat, j: nat)
    requires i < |indices| && j < Min(nbits, 8)
    ensures i * Min(nbits, 8) + j < |FlattenIndexBits(indices, nbits)|
    ensures FlattenIndexBits(indices, nbits)[i * Min(nbits, 8) + j] == Bit(indices[i], j)
  {
    var w := Min(nbits, 8);
    if i > 0 {
      FlattenIndexBitsAt(indices[1..], nbits, i - 1, j);
      MulStep(i, w);
    }
  }

  /** Bit j of index i sits at bit position i * nbits + j of the packed
      array (nbits capped at 8), and every bit past the last index is zero. */
  lemma PackedIndexBitAt(indices: seq<byte>, nbits: nat, i: nat, j: nat)
    requires i < |indices| && j < Min(nbits, 8)
    ensures i * Min(nbits, 8) + j < 8 * |PackIndicesIntoBytesArray(indices, nbits)|
    ensures BitAt(PackIndicesIntoBytesArray(indices, nbits), i * Min(nbits, 8) + j) == Bit(indices[i], j)
  {
    FlattenIndexBitsAt(indices, nbits, i, j);
    PackBitsAt(FlattenIndexBits(indices, nbits), i * Min(nbits, 8) + j);
  }

  lemma PackedIndexPadding(indices: seq<byte>, nbits: nat, p: nat)
    requires |indices| * Min(nbits, 8) <= p < 8 * |PackIndicesIntoBytesArray(indices, nbits)|
    ensures !BitAt(PackIndicesIntoBytesArray(indices, nbits), p)
  {
    PackBitsAt(FlattenIndexBits(indices, nbits), p);
  }

  /** How a reader of the packed array recovers index i: the nbits bits
      starting at i * nbits, least significant first. */
  function UnpackIndex(packed: seq<byte>, nbits: nat, i: nat): nat
    requires i * nbits + nbits <= 8 * |packed|
  {
    BitsToNat(UnpackAll(packed)[i * nbits..i * nbits + nbits])
  }

  lemma MulNonNegative(i: nat, n: nat)
    ensures i * n >= 0
  {
  }

  lemma MulStep(i: nat, n: nat)
    requires i > 0
    ensures i * n == (i - 1) * n + n
  {
  }

  /** The packed bits of index i, read back, are its low nbits bits. */
  lemma PackedSlice(indices: seq<byte>, nbits: nat, i: nat)
    requires nbits <= 8 && i < |indices|
    ensures i * nbits + nbits <= 8 * |PackIndicesIntoBytesArray(indices, nbits)|
    ensures UnpackAll(PackIndicesIntoBytesArray(indices, nbits))[i * nbits..i * nbits + nbits]
            == LowBits(indices[i], nbits)
  {
    var packed := PackIndicesIntoBytesArray(indices, nbits);
    var s := i * nbits;
    MulNonNegative(i, nbits);
    if nbits == 0 {
      assert s == 0;
    } else {
      PackedBitOfIndex(indices, nbits, i, nbits - 1);
    }
    var slice := UnpackAll(packed)[s..s + nbits];
    forall j | 0 <= j < nbits
      ensures slice[j] == LowBits(indices[i], nbits)[j]
    {
      PackedBitOfIndex(indices, nbits, i, j);
    }
  }

  lemma PackedBitOfIndex(indices: seq<byte>, nbits: nat, i: nat, j: nat)
    requires j < nbits <= 8 && i < |indices|
    ensures i * nbits + j < 8 * |PackIndicesIntoBytesArray(indices, nbits)|
    ensures UnpackAll(PackIndicesIntoBytesArray(indices, nbits))[i * nbits + j] == LowBits(indices[i], nbits)[j]
  {
    var flat := FlattenIndexBits(indices, nbits);
    assert Min(nbits, 8) == nbits;
    FlattenIndexBitsAt(indices, nbits, i, j);
    UnpackPackAt(flat, i * nbits + j);
    LowBitsAt(indices[i], nbits, j);
  }

  /** Packing keeps the low nbits bits of every index, and only those. */
  lemma PackIndicesRoundTrip(indices: seq<byte>, nbits: nat, i: nat)
    requires nbits <= 8 && i < |indices|
    ensures i * nbits + nbits <= 8 * |PackIndicesIntoBytesArray(indices, nbits)|
    ensures UnpackIndex(PackIndicesIntoBytesArray(indices, nbits), nbits, i) == indices[i] % Pow2(nbits)
  {
    PackedSlice(indices, nbits, i);
    LowBitsValue(indices[i], nbits);
  }

  /** Indices that fit in nbits bits come back unchanged. */
  lemma PackIndicesLossless(indices: seq<byte>, nbits: nat)
    requires nbits <= 8
    requires forall i :: 0 <= i < |indices| ==> indices[i] < Pow2(nbits)
    ensures forall i :: 0 <= i < |indices| ==>
              && i * nbits + nbits <= 8 * |PackIndicesIntoBytesArray(indices, nbits)|
              && UnpackIndex(PackIndicesIntoBytesArray(indices, nbits), nbits, i) == indices[i]
  {
    forall i | 0 <= i < |indices|
      ensures i * nbits + nbits <= 8 * |PackIndicesIntoBytesArray(indices, nbits)|
      ensures UnpackIndex(PackIndicesIntoBytesArray(indices, nbits), nbits, i) == indices[i]
    {
      PackIndicesRoundTrip(indices, nbits, i);
      SmallMod(indices[i] as nat, Pow2(nbits));
    }
  }

  // ---------------------------------------------------------------------
  // check_lut_parameters_are_valid
  // ---------------------------------------------------------------------

  /** What the validator can observe of the LUT and of the indices. */
  datatype ArrayValue = NotAnArray | ArrayOf(shape: seq<nat>, dtype: DType)

  /** `check_lut_parameters_are_valid`: the first failing check raises. */
  function CheckLutParametersAreValid(val: Tensor, lut: ArrayValue, indices: ArrayValue): (r: Outcome)
    ensures (lut.NotAnArray? || indices.NotAnArray?) ==> r == Fail(ValueError(NotNumpyArrays))
    ensures lut.ArrayOf? && indices.ArrayOf? && Product(indices.shape) != Product(val.shape) ==>
              r == Fail(ValueError(IndicesSizeMismatch))
    ensures lut.ArrayOf? && indices.ArrayOf? && Product(indices.shape) == Product(val.shape) &&
            (|indices.shape| != 1 || indices.dtype != UInt8) ==>
              r == Fail(ValueError(IndicesNotUInt8Vector))
    ensures r == Pass <==> && lut.ArrayOf? && indices.ArrayOf?
                           && Product(indices.shape) == Product(val.shape)
                           && |indices.shape| == 1 && indices.dtype == UInt8
                           && lut.dtype == val.dtype
    ensures r.Fail? ==> r.error.ValueError?
  {
    if lut.NotAnArray? || indices.NotAnArray? then Fail(ValueError(NotNumpyArrays))
    else if Product(indices.shape) != Product(val.shape) then Fail(ValueError(IndicesSizeMismatch))
    else if |indices.shape| != 1 || indices.dtype != UInt8 then Fail(ValueError(IndicesNotUInt8Vector))
    else if lut.dtype != val.dtype then Fail(ValueError(LutDtypeMismatch))
    else Pass
  }

  // ---------------------------------------------------------------------
  // compress, UNIQUE mode
  // ---------------------------------------------------------------------

  /** `int(np.log2(n))` for n >= 1. */
  function Log2Floor(n: nat): (r: nat)
    requires n >= 1
    ensures Pow2(r) <= n < Pow2(r + 1)
  {
    if n == 1 then 0 else 1 + Log2Floor(n / 2)
  }

  lemma {:induction false} Log2Pow2(k: nat)
    ensures Log2Floor(Pow2(k)) == k
  {
    if k > 0 {
      Log2Pow2(k - 1);
    }
  }

  /** `LutParams`: the table, the weight's shape and the packed indices. */
  datatype LutParams = LutParams(lut: seq<int>, shape: seq<nat>, indices: seq<byte>)

  /** A reader that takes the index width from the table length alone maps
      packed index i back to data[i], for every i. */
  predicate Decodes(p: LutParams, data: seq<int>)
  {
    && |p.lut| >= 1
    && var nbits := Log2Floor(|p.lut|);
       forall i :: 0 <= i < |data| ==>
         && i * nbits + nbits <= 8 * |p.indices|
         && UnpackIndex(p.indices, nbits, i) < |p.lut|
         && p.lut[UnpackIndex(p.indices, nbits, i)] == data[i]
  }

  /** Packing the indices of a 2^nbits table, nbits at most 8, keeps every
      lookup. */
  lemma CompressedDecodes(data: seq<int>, lut: seq<int>, indices: seq<byte>, nbits: nat, shape: seq<nat>)
    requires nbits <= 8 && |lut| == Pow2(nbits) && |indices| == |data|
    requires forall p :: 0 <= p < |data| ==> indices[p] < |lut| && lut[indices[p]] == data[p]
    ensures Decodes(LutParams(lut, shape, PackIndicesIntoBytesArray(indices, nbits)), data)
  {
    Log2Pow2(nbits);
    PackIndicesLossless(indices, nbits);
  }

  /** `palettize_weights.compress` with `mode="UNIQUE"`.  The result is
      lossless: a reader that takes the index width from the table length
      alone maps every packed index back to its weight. */
  method PalettizeUnique(val: Tensor) returns (r: Option<LutParams>)
    requires WellFormed(val)
    ensures r.None? <==> |Unique(val.data)| > 256
    ensures r.Some? ==> r.value.shape == val.shape
    ensures r.Some? ==> |r.value.lut| >= 2 && LutLayout(r.value.lut, Unique(val.data), Log2Floor(|r.value.lut|))
    ensures r.Some? ==>
              var nbits := Log2Floor(|r.value.lut|);
              && NBitsForUniqueMode(val.data) == Some(nbits)
              && |r.value.indices| == (|val.data| * nbits + 7) / 8
    ensures r.Some? ==> Decodes(r.value, val.data)
  {
    var nb := NBitsForUniqueMode(val.data);
    if nb.None? {
      return None;
    }
    var nbits := nb.value;
    var c := CompressUnique(val.data, nbits);
    var lut, indices := c.value.lut, c.value.indices;
    ProductOfVector(|indices|);
    var check := CheckLutParametersAreValid(val, ArrayOf([|lut|], val.dtype), ArrayOf([|indices|], UInt8));
    assert check == Pass;
    Log2Pow2(nbits);
    var width := Log2Floor(|lut|);
    assert width == nbits;
    var packed := PackIndicesIntoBytesArray(indices, width);
    CompressedDecodes(val.data, lut, indices, nbits, val.shape);
    r := Some(LutParams(lut, val.shape, packed));
  }
}
