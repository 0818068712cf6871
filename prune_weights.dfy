/** The integer parts of the pruning pass: the sparse encoding of a pruned
    weight (nonzero values plus a little-endian bit mask) and the channel
    padding that block pruning and n:m pruning apply before reshaping. */
module PruneWeights {
  import opened Base
  import opened Bits
  import opened CompressionPass

  /** `SparseParams`: the nonzero values in flatten order, the packed
      nonzero mask and the original shape. */
  datatype SparseParams = SparseParams(nonzeroData: seq<int>, mask: seq<byte>, shape: seq<nat>)

  /** `flattened_val[np.where(flattened_val != 0)]`. */
  function NonZeros(s: seq<int>): (r: seq<int>)
    ensures |r| <= |s|
    ensures forall x :: x in r ==> x != 0 && x in s
  {
    if s == [] then []
    else (if s[0] != 0 then [s[0]] else []) + NonZeros(s[1..])
  }

  /** `np.where(flattened_val != 0, 1, 0)`, as booleans. */
  function NonZeroFlags(s: seq<int>): (r: seq<bool>)
    ensures |r| == |s|
    ensures forall i :: 0 <= i < |s| ==> r[i] == (s[i] != 0)
  {
    seq(|s|, i requires 0 <= i < |s| => s[i] != 0)
  }

  /** `_pack_val_to_sparse_param`. */
  function PackValToSparseParam(val: Tensor): (r: SparseParams)
    ensures r.shape == val.shape
    ensures |r.mask| == (|val.data| + 7) / 8
    // mask bit i is set exactly for the nonzero weights; padding bits are clear
    ensures forall p :: 0 <= p < 8 * |r.mask| ==>
              BitAt(r.mask, p) == (p < |val.data| && val.data[p] != 0)
    ensures forall x :: x in r.nonzeroData ==> x != 0
  {
    var flags := NonZeroFlags(val.data);
    var r := SparseParams(NonZeros(val.data), PackBits(flags), val.shape);
    forall p | 0 <= p < 8 * |r.mask|
      ensures BitAt(r.mask, p) == (p < |val.data| && val.data[p] != 0)
    {
      PackBitsAt(flags, p);
    }
    r
  }

  lemma {:induction false} CountNonZeroFlags(s: seq<int>)
    ensures CountTrue(NonZeroFlags(s)) == |NonZeros(s)|
  {
    if s != [] {
      assert NonZeroFlags(s)[1..] == NonZeroFlags(s[1..]);
      CountNonZeroFlags(s[1..]);
    }
  }

  /** The mask has exactly one set bit per stored nonzero value. */
  lemma SparseMaskPopCount(val: Tensor)
    ensures PopCount(PackValToSparseParam(val).mask) == |PackValToSparseParam(val).nonzeroData|
  {
    PopCountPackBits(NonZeroFlags(val.data));
    CountNonZeroFlags(val.data);
  }

  /** Rebuild a dense vector from a mask and the nonzero values: a set flag
      takes the next stored value, a clear flag is a zero. */
  function Densify(flags: seq<bool>, values: seq<int>): (r: seq<int>)
    requires CountTrue(flags) == |values|
    ensures |r| == |flags|
  {
    if flags == [] then []
    else if flags[0] then [values[0]] + Densify(flags[1..], values[1..])
    else [0] + Densify(flags[1..], values)
  }

  lemma {:induction false} DensifyNonZeros(s: seq<int>)
    ensures CountTrue(NonZeroFlags(s)) == |NonZeros(s)|
    ensures Densify(NonZeroFlags(s), NonZeros(s)) == s
  {
    CountNonZeroFlags(s);
    if s != [] {
      var flags, nz := NonZeroFlags(s), NonZeros(s);
      assert flags[1..] == NonZeroFlags(s[1..]);
      DensifyNonZeros(s[1..]);
      if s[0] != 0 {
        assert nz[1..] == NonZeros(s[1..]);
      } else {
        assert nz == NonZeros(s[1..]);
      }
      assert s == [s[0]] + s[1..];
    }
  }

  /** The sparse encoding loses nothing: unpacking the mask, dropping its
      padding bits and filling the set positions with the stored values, in
      order, gives back the flattened weight. */
  lemma SparseRoundTrip(val: Tensor)
    ensures var r := PackValToSparseParam(val);
            && |val.data| <= |UnpackAll(r.mask)|
            && CountTrue(UnpackAll(r.mask)[..|val.data|]) == |r.nonzeroData|
            && Densify(UnpackAll(r.mask)[..|val.data|], r.nonzeroData) == val.data
  {
    var flags := NonZeroFlags(val.data);
    UnpackPackBits(flags);
    assert UnpackAll(PackBits(flags))[..|val.data|] == flags;
    DensifyNonZeros(val.data);
  }

  // ---------------------------------------------------------------------
  // Channel padding
  // ---------------------------------------------------------------------

  /** Python's `channel % m` for a non-negative divisor. */
  function PyMod(channel: nat, m: nat): (r: Result<nat>)
    ensures r.Err? <==> m == 0
    ensures r.Err? ==> r.error == ZeroDivisionError
    ensures r.Ok? ==> r.value == channel % m < m
  {
    if m == 0 then Err(ZeroDivisionError) else Ok(channel % m)
  }

  /** The padded channel count of block pruning: pad by
      `block_size - channel % block_size` when the channel count is not a
      multiple of the block size. */
  function BlockPaddedChannel(channel: nat, blockSize: nat): (r: Result<nat>)
    ensures r.Err? <==> blockSize == 0
    ensures r.Err? ==> r.error == ZeroDivisionError
    ensures r.Ok? ==> r.value % blockSize == 0 && channel <= r.value < channel + blockSize
    // the least multiple of the block size that holds every channel
    ensures r.Ok? ==> forall x :: channel <= x < r.value ==> x % blockSize != 0
  {
    var rem := PyMod(channel, blockSize);
    if rem.Err? then Err(rem.error)
    else if rem.value != 0 then
      var padded := channel + (blockSize - rem.value);
      LeastMultiple(channel, blockSize);
      Ok(padded)
    else Ok(channel)
  }

  lemma LeastMultiple(channel: nat, m: nat)
    requires m > 0
    ensures (channel + (m - channel % m)) % m == 0
    ensures channel % m != 0 ==>
              forall x :: channel <= x < channel + (m - channel % m) ==> x % m != 0
  {
    var q := channel / m;
    var next := channel + (m - channel % m);
    assert next == (q + 1) * m;
    ModOfSplit(next, m, q + 1, 0);
    if channel % m != 0 {
      forall x | channel <= x < next
        ensures x % m != 0
      {
        ModOfSplit(x, m, q, x - q * m);
      }
    }
  }

  /** The padded last-dimension width of n:m pruning.  `None` is the
      source's skip when `m > channel / 2` (true division). */
  function NmPaddedChannel(channel: nat, m: nat): (r: Result<Option<nat>>)
    ensures 2 * m > channel ==> r == Ok(None)
    ensures 2 * m <= channel && m == 0 ==> r == Err(ZeroDivisionError)
    ensures r.Ok? && r.value.Some? ==>
              && r.value.value % m == 0
              && channel <= r.value.value < channel + m
              && (forall x :: channel <= x < r.value.value ==> x % m != 0)
              // after padding there are at least two groups of m
              && 2 * m <= r.value.value
  {
    if 2 * m > channel then Ok(None)
    else
      var padded := BlockPaddedChannel(channel, m);
      if padded.Err? then Err(padded.error) else Ok(Some(padded.value))
  }
}
