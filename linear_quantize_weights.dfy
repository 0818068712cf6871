/** The integer parts of the linear quantization pass: which axis a const
    is quantized along, the quantized range of each (dtype, mode) pair,
    the zero point of the symmetric mode, and the clamp-then-cast that keeps
    quantized values inside that range. */
module LinearQuantizeWeights {
  import opened Base
  import opened Graph
  import PassHelper

  /** `_get_axis`: 1 when the const's only consumer is a `conv_transpose`,
      0 otherwise. */
  function GetAxis(op: Op): (r: Result<nat>)
    ensures r == Err(IndexError) <==> |op.outputs| == 0
    ensures |op.outputs| > 0 ==> r.Ok? && r.value <= 1
    ensures |op.outputs| > 0 ==>
              (r == Ok(1) <==> && |op.outputs[0].childOps| == 1
                               && op.outputs[0].childOps[0].opType == "conv_transpose")
  {
    if |op.outputs| == 0 then Err(IndexError)
    else
      var v := op.outputs[0];
      if |v.childOps| == 1 && v.childOps[0].opType == "conv_transpose" then Ok(1) else Ok(0)
  }

  /** For a single-output const, the axis rule is the child-op-type test of
      the pass helpers. */
  lemma GetAxisIsChildOpTypeTest(op: Op)
    requires |op.outputs| == 1
    ensures GetAxis(op) == Ok(if PassHelper.CheckChildOpType(op, "conv_transpose") then 1 else 0)
  {
  }

  /** Smallest and largest value of an 8-bit integer dtype. */
  function DTypeMin(dtype: DType): int
    requires dtype == Int8 || dtype == UInt8
  {
    if dtype == Int8 then -128 else 0
  }

  function DTypeMax(dtype: DType): int
    requires dtype == Int8 || dtype == UInt8
  {
    if dtype == Int8 then 127 else 255
  }

  /** The zero point the symmetric mode fixes: 0 for int8, 127 for uint8. */
  function SymmetricZeroPoint(dtype: DType): (r: int)
    requires dtype == Int8 || dtype == UInt8
    // 127 levels fit on each side of it, and 128 do not on both
    ensures DTypeMin(dtype) <= r - 127 && r + 127 <= DTypeMax(dtype)
    ensures r - 128 < DTypeMin(dtype) || DTypeMax(dtype) < r + 128
  {
    if dtype == Int8 then 0 else 127
  }

  /** The `mode_dtype_to_range` table; any other key raises KeyError. */
  function ModeDtypeToRange(dtype: DType, mode: string): (r: Result<(int, int)>)
    ensures r.Ok? <==> (dtype == Int8 || dtype == UInt8) && (mode == "LINEAR" || mode == "LINEAR_SYMMETRIC")
    ensures r.Err? ==> r.error == KeyError
    // every range fits its dtype
    ensures r.Ok? ==> DTypeMin(dtype) <= r.value.0 < r.value.1 <= DTypeMax(dtype)
    // LINEAR uses the whole dtype
    ensures r.Ok? && mode == "LINEAR" ==> r.value == (DTypeMin(dtype), DTypeMax(dtype))
    // LINEAR_SYMMETRIC drops one end to get 255 levels centred on the zero point
    ensures r.Ok? && mode == "LINEAR_SYMMETRIC" ==>
              && r.value.1 - r.value.0 == 254
              && r.value.0 + r.value.1 == 2 * SymmetricZeroPoint(dtype)
  {
    if dtype == Int8 && mode == "LINEAR" then Ok((-128, 127))
    else if dtype == Int8 && mode == "LINEAR_SYMMETRIC" then Ok((-127, 127))
    else if dtype == UInt8 && mode == "LINEAR" then Ok((0, 255))
    else if dtype == UInt8 && mode == "LINEAR_SYMMETRIC" then Ok((0, 254))
    else Err(KeyError)
  }

  /** `astype(np.int8)` / `astype(np.uint8)` of an integer: wrap-around
      modulo 256 into the dtype's range. */
  function CastTo(x: int, dtype: DType): (r: int)
    requires dtype == Int8 || dtype == UInt8
    ensures DTypeMin(dtype) <= r <= DTypeMax(dtype)
    ensures (r - x) % 256 == 0
  {
    if dtype == UInt8 then x % 256 else (x + 128) % 256 - 128
  }

  lemma CastInRange(x: int, dtype: DType)
    requires dtype == Int8 || dtype == UInt8
    requires DTypeMin(dtype) <= x <= DTypeMax(dtype)
    ensures CastTo(x, dtype) == x
  {
  }

  /** `np.maximum(np.minimum(x, high), low)`. */
  function Clamp(x: int, low: int, high: int): (r: int)
    ensures low <= r
    ensures low <= high ==> r <= high
    ensures low <= x <= high ==> r == x
    ensures x < low ==> r == low
    ensures low <= high < x ==> r == high
    // the lower bound wins when the bounds cross
    ensures high < low ==> r == low
  {
    var y := if x < high then x else high;
    if y > low then y else low
  }

  /** One element of `_ensure_numerical_range_and_cast`. */
  function ClampCast(x: int, low: int, high: int, dtype: DType): (r: int)
    requires dtype == Int8 || dtype == UInt8
    ensures DTypeMin(dtype) <= r <= DTypeMax(dtype)
    ensures DTypeMin(dtype) <= low <= high <= DTypeMax(dtype) ==>
              && low <= r <= high
              && (low <= x <= high ==> r == x)
              && (x < low ==> r == low)
              && (x > high ==> r == high)
  {
    var c := Clamp(x, low, high);
    if DTypeMin(dtype) <= low <= high <= DTypeMax(dtype) then
      CastInRange(c, dtype);
      CastTo(c, dtype)
    else CastTo(c, dtype)
  }

  /** `_ensure_numerical_range_and_cast` on integer-valued data. */
  function EnsureNumericalRangeAndCast(val: seq<int>, low: int, high: int, dtype: DType): (r: seq<int>)
    requires dtype == Int8 || dtype == UInt8
    ensures |r| == |val|
    ensures forall i :: 0 <= i < |r| ==> DTypeMin(dtype) <= r[i] <= DTypeMax(dtype)
    // with a range that fits the dtype the cast changes nothing:
    ensures DTypeMin(dtype) <= low <= high <= DTypeMax(dtype) ==>
              forall i :: 0 <= i < |r| ==>
                && low <= r[i] <= high
                && (low <= val[i] <= high ==> r[i] == val[i])
                && (val[i] < low ==> r[i] == low)
                && (val[i] > high ==> r[i] == high)
  {
    seq(|val|, i requires 0 <= i < |val| => ClampCast(val[i], low, high, dtype))
  }

  /** Clamping twice is clamping once. */
  lemma EnsureRangeIdempotent(val: seq<int>, low: int, high: int, dtype: DType)
    requires dtype == Int8 || dtype == UInt8
    requires DTypeMin(dtype) <= low <= high <= DTypeMax(dtype)
    ensures var once := EnsureNumericalRangeAndCast(val, low, high, dtype);
            EnsureNumericalRangeAndCast(once, low, high, dtype) == once
  {
  }

  /** The clamp keeps the order of the values. */
  lemma EnsureRangeMonotone(val: seq<int>, low: int, high: int, dtype: DType, i: nat, j: nat)
    requires dtype == Int8 || dtype == UInt8
    requires DTypeMin(dtype) <= low <= high <= DTypeMax(dtype)
    requires i < |val| && j < |val| && val[i] <= val[j]
    ensures EnsureNumericalRangeAndCast(val, low, high, dtype)[i]
            <= EnsureNumericalRangeAndCast(val, low, high, dtype)[j]
  {
  }

  /** Every entry of the range table can be used for the clamp: quantized
      values land in the table's range and in-range values pass unchanged. */
  lemma RangeTableClamps(val: seq<int>, dtype: DType, mode: string)
    requires ModeDtypeToRange(dtype, mode).Ok?
    ensures var (low, high) := ModeDtypeToRange(dtype, mode).value;
            var r := EnsureNumericalRangeAndCast(val, low, high, dtype);
            forall i :: 0 <= i < |val| ==>
              && low <= r[i] <= high
              && (low <= val[i] <= high ==> r[i] == val[i])
  {
  }
}
