# coremltools graph-pass helpers and weight-compression encoders, in Dafny

This project models two pieces of coremltools' MIL optimizer and proves
properties of the models.

**Shared pass helpers** (`coremltools/converters/mil/mil/passes/helper.py`):

- the `block_context_manager` scope guard. It picks the target Block,
  rejects anything else, and runs the routine inside one `with block:`
  scope. The exit of that scope runs the nonreplaceable-var propagation.
- the topology predicates `_check_child_op_type` and
  `_check_no_output_connection`;
- the scalar predicates `_check_var_scalar_value_in_interval` and
  `_check_var_scalar_value`;
- the structural-equality check `_are_ops_identical`, used by
  common-subexpression elimination.

**Integer and bit-level parts of the weight-compression passes**
(`coremltools/optimize/coreml/_quantization_passes.py`):

- `need_compress_const`;
- the select-then-transform traversal of `apply_block`;
- sparse packing (`_pack_val_to_sparse_param`);
- the channel padding of block and n:m pruning;
- UNIQUE-mode palettization: `get_nbits_for_unique_mode`,
  `compress_unique`, `pack_indices_into_bytes_array`,
  `check_lut_parameters_are_valid` and the `compress` path that chains them;
- `_get_axis`, the `mode_dtype_to_range` table and the symmetric zero
  points;
- the clamp `_ensure_numerical_range_and_cast`.

How the model represents the source:

- The graph is a set of datatypes (`Graph.Var`, `Graph.Op`,
  `Graph.BlockBody`). Python object identity, which the source tests with
  `==` on Vars and Operations, is an `id` field.
- The scope state of a block is the class `Graph.Block`. Its fields are
  the block outputs, the number of open scopes, a propagation counter and
  a history of scope events.
- A block has two views, because the source uses it in two ways.
  `Graph.Block` is the state that `with block:` changes: open scopes,
  outputs, propagations. `Graph.BlockBody` is the list of operations
  that `apply_block` walks. Likewise `Graph.ScopeEvent` is the history
  of one block, so it names no block. `CompressionPass.PassEvent` is the
  trace of a whole traversal over many blocks, so each scope event
  names its block. In that trace, the enter and exit around one block
  stand for one call of the `block_context_manager` guard on it.
- A Python exception is an `Err` of `Base.Result`, or a `Fail` of
  `Base.Outcome`, carrying the exception class. For a `ValueError` it also
  says which check raised it.
- numpy's `packbits`/`unpackbits` with `bitorder="little"` are `Bits.PackBits`
  and `Bits.UnpackAll`: bit j of byte k is element 8k + j.

Modules and files:

| file | module | contents |
|---|---|---|
| `base.dfy` | `Base` | Option, Result, Outcome, error classes |
| `graph.dfy` | `Graph` | graph datatypes and the `Block` scope state |
| `pass_helper.dfy` | `PassHelper` | the helper.py functions |
| `bits.dfy` | `Bits` | little-endian bit packing, `Pow2`, bit arithmetic |
| `compression_pass.dfy` | `CompressionPass` | tensors, `need_compress_const`, `apply_block` |
| `prune_weights.dfy` | `PruneWeights` | sparse packing, channel padding |
| `palettize_weights.dfy` | `PalettizeWeights` | UNIQUE-mode palettization |
| `linear_quantize_weights.dfy` | `LinearQuantizeWeights` | axis, ranges, clamp |

## Model

Source paths below are relative to the repository root. `helper.py` is
`coremltools/converters/mil/mil/passes/helper.py`; `_quantization_passes.py`
is `coremltools/optimize/coreml/_quantization_passes.py`.

| member | source | states |
|---|---|---|
| PassHelper.SelectBlock | coremltools/converters/mil/mil/passes/helper.py:47-58 | The target is `args[1]` when `args[0]` is a graph pass and `args[0]` otherwise. Empty arguments, or a lone graph pass, raise IndexError. A target that is not a Block raises ValueError. Ok exactly when the target is a Block. |
| PassHelper.BlockContextManager | coremltools/converters/mil/mil/passes/helper.py:43-61 | A selection error is returned and no block is touched. Otherwise the routine's outcome is returned unchanged, exceptions included. The block's history gains exactly enter, the body at depth+1, exit. Depth is restored. The outputs are what the routine left. Propagation runs once for the guard's own exit, whether the routine returned or raised, on top of those of the scopes the routine opened itself. |
| Graph.Block.Enter | coremltools/converters/mil/mil/passes/helper.py:59-60 | Opening the scope raises the depth by one and records the entry. Nothing else changes. |
| Graph.Block.RunBody | coremltools/converters/mil/mil/passes/helper.py:59-60 | The routine runs with the scope open and leaves the depth as it found it. It may replace the block's outputs. Each scope of the block it opens and closes itself runs propagation once. The history records the body at the current depth. |
| Graph.Block.Exit | coremltools/converters/mil/mil/passes/helper.py:43-45 | Closing the scope lowers the depth by one and runs propagation once. Outputs are unchanged. |
| PassHelper.CheckChildOpType | coremltools/converters/mil/mil/passes/helper.py:64-77 | True iff all three hold: exactly one output, exactly one consumer of it, and that consumer's op type is the argument. So it is false for 0 or ≥2 outputs or consumers. |
| PassHelper.NoneExposed | coremltools/converters/mil/mil/passes/helper.py:88-92 | The early-return loop is true iff no output of any listed op is a block output. |
| PassHelper.CheckNoOutputConnection | coremltools/converters/mil/mil/passes/helper.py:80-92 | False iff some op other than the last has an output among the block outputs. |
| PassHelper.LastOpNeverInspected | coremltools/converters/mil/mil/passes/helper.py:88-92 | Replacing the last op never changes the answer. An empty or one-op list always passes. |
| PassHelper.CheckVarScalarValueInInterval | coremltools/converters/mil/mil/passes/helper.py:95-116 | False, never an error, for: no payload, a Python scalar, a string, a list, any other object, or an array of size ≠ 1. Otherwise true iff lo ≤ v ≤ hi, inclusive at both ends. |
| PassHelper.CheckVarScalarValue | coremltools/converters/mil/mil/passes/helper.py:119-142 | TypeError iff the payload is a string, which passes the `np.isscalar` check and then fails the subtraction. False for no payload, a list or tuple, another object, or an array of size ≠ 1. Otherwise true iff \|v − val\| < tol, strictly. A Python scalar is accepted. |
| PassHelper.CheckVarScalarValueTotal | coremltools/converters/mil/mil/passes/helper.py:119-124 | The docstring's promise: false, never an exception, for every payload that is not a number close to val; the same answers as the code on numbers. |
| PassHelper.ScalarValueFixAgrees | coremltools/converters/mil/mil/passes/helper.py:119-142 | Wherever the code returns, it returns the same answer as the total version. It raises only on a string payload. |
| PassHelper.StringPayloadRaises | coremltools/converters/mil/mil/passes/helper.py:127-140 | A string constant such as "valid" makes the code raise TypeError; the total version answers false. |
| PassHelper.ScalarPredicatesAgree | coremltools/converters/mil/mil/passes/helper.py:95-142 | On every payload but a Python scalar, closeness within tol implies the closed tol-interval. The closed interval of any smaller radius implies closeness. A Python scalar passes the closeness test but fails the interval test. |
| PassHelper.AsArray | coremltools/converters/mil/mil/passes/helper.py:151-152 | `np.array` makes a scalar into a 0-d array holding it and a list or tuple of numbers into the 1-d array of its items. A string or other object is kept as it is. |
| PassHelper.AsArrayIdempotent | coremltools/converters/mil/mil/passes/helper.py:151-152 | Converting an array again changes nothing. |
| PassHelper.ValuesIdentical | coremltools/converters/mil/mil/passes/helper.py:150-153 | Two numeric values are identical iff their arrays have equal shapes and equal elements, with no broadcasting. A number never equals a string or another object. A string equals only the same string. |
| PassHelper.VarsIdentical | coremltools/converters/mil/mil/passes/helper.py:155-166 | Two non-constant Vars are identical iff they are the same object. A constant never equals a non-constant. Two constants are identical iff their dtypes are equal and their values are identical. |
| PassHelper.ListsIdentical | coremltools/converters/mil/mil/passes/helper.py:182-188 | Two equally long Var lists match iff every positional pair is input-identical. |
| PassHelper.SlotsIdentical | coremltools/converters/mil/mil/passes/helper.py:179-190 | Two single Vars match iff they are identical. Two lists match iff they are equally long and identical position by position. A single Var never matches a list. |
| PassHelper.AreOpsIdentical | coremltools/converters/mil/mil/passes/helper.py:144-194 | The same op gives true before any other test. Different op types give false. Different input-slot name sets give false. The nested-block assertion fails iff every slot has matched and either op has blocks. Otherwise the result is true iff every slot matches. |
| PassHelper.SameSizeSubsetIsEqual | coremltools/converters/mil/mil/passes/helper.py:170-176 | Equal `len(inputs)` plus every key of op1 present in op2 means the two key sets are equal. |
| PassHelper.VarsIdenticalSymmetric | coremltools/converters/mil/mil/passes/helper.py:155-166 | The Var comparison does not depend on argument order. |
| PassHelper.AreOpsIdenticalSymmetric | coremltools/converters/mil/mil/passes/helper.py:144-194 | `_are_ops_identical(a, b)` equals `_are_ops_identical(b, a)`, assertion failures included. |
| PassHelper.ConstantRepresentations | coremltools/converters/mil/mil/passes/helper.py:150-153 | A numpy scalar, a Python scalar and a 0-d array of the same number compare equal. A one-element 1-d array differs in shape and does not. A one-element list equals that 1-d array, not the scalar. |
| PassHelper.NonConstantNeedsSameObject | coremltools/converters/mil/mil/passes/helper.py:156-158 | Two non-constant Vars are identical iff they are the same object. |
| Bits.PackBits | coremltools/optimize/coreml/_quantization_passes.py:185 | Packing n flags gives ceil(n/8) bytes, enough bits for every flag. |
| Bits.UnpackBits | coremltools/optimize/coreml/_quantization_passes.py:476 | One byte unpacks to eight flags. |
| Bits.PackUnpackByte | coremltools/optimize/coreml/_quantization_passes.py:476 | Packing the eight unpacked flags of a byte gives the byte back, least significant bit first. |
| Bits.UnpackAll | coremltools/optimize/coreml/_quantization_passes.py:476-477 | `unpackbits` gives exactly eight flags per byte. |
| Bits.PackBitsAt | coremltools/optimize/coreml/_quantization_passes.py:185 | Little-endian `np.packbits` puts element p at bit p mod 8 of byte p div 8. The padding bits of the last byte are zero. |
| Bits.UnpackPackBits | coremltools/optimize/coreml/_quantization_passes.py:476-477 | `unpackbits(packbits(b))` is b followed only by zero padding. |
| Bits.UnpackPackAt | coremltools/optimize/coreml/_quantization_passes.py:476-477 | Every packed bit comes back at its own position after `unpackbits`. |
| Bits.PopCountPackBits | coremltools/optimize/coreml/_quantization_passes.py:185 | Packing keeps the number of set bits. |
| Bits.LowBitsValue | coremltools/optimize/coreml/_quantization_passes.py:476 | The low n bits of x, read back, are x mod 2^n. |
| CompressionPass.PayloadSize | coremltools/optimize/coreml/_quantization_passes.py:136 | `val.size` exists only for an ndarray or a numpy scalar. Anything else raises AttributeError. |
| CompressionPass.NeedCompressConst | coremltools/optimize/coreml/_quantization_passes.py:116-136 | Checks in this order: (1) an op without outputs raises IndexError; (2) deprecated with a threshold raises ValueError; (3) deprecated without one returns the weight-file rule; (4) a `constexpr*` consumer gives false before the threshold is checked; (5) a missing threshold raises ValueError. On the new API the result is true iff the weight-file rule holds and size > threshold. AttributeError arises only after the weight-file rule accepted. |
| CompressionPass.SelectedOps | coremltools/optimize/coreml/_quantization_passes.py:84-94 | An op is collected iff it is in the list and is valid, and the selector, if any, accepts it. |
| CompressionPass.SelectedOpsStep | coremltools/optimize/coreml/_quantization_passes.py:84-94 | Looking at one more op extends the collected list by exactly that op when it is selected, and by nothing otherwise. |
| CompressionPass.TransformEvents | coremltools/optimize/coreml/_quantization_passes.py:96-101 | One transform per collected op, in collection order. |
| CompressionPass.ApplyBlock | coremltools/optimize/coreml/_quantization_passes.py:81-101 | The loops produce exactly the specified trace. First comes the recursion into every op's nested blocks, in op order. Only then are the collected ops transformed. Everything happens inside the block's own scope. |
| CompressionPass.VisitOps | coremltools/optimize/coreml/_quantization_passes.py:84-94 | The first loop produces the nested-block traversals of every op, in op order. It collects exactly the selected ops, in order. |
| CompressionPass.TransformCollected | coremltools/optimize/coreml/_quantization_passes.py:96-101 | The second loop emits one transform per collected op, in the order collected. |
| CompressionPass.ApplyNested | coremltools/optimize/coreml/_quantization_passes.py:85-86 | The nested blocks of one op are traversed in order. |
| CompressionPass.BlockTraceWellScoped | coremltools/optimize/coreml/_quantization_passes.py:81-101 | In the whole traversal, nested blocks included, every scope opened is closed and none is closed before it is opened. Every transform happens while a scope is open. |
| CompressionPass.OpsTraceWellScoped | coremltools/optimize/coreml/_quantization_passes.py:84-86 | The recursion into the nested blocks of any prefix of the ops is well scoped. |
| CompressionPass.BlocksTraceWellScoped | coremltools/optimize/coreml/_quantization_passes.py:85-86 | The recursion into any prefix of one op's nested blocks is well scoped. |
| PruneWeights.NonZeros | coremltools/optimize/coreml/_quantization_passes.py:184 | Only nonzero weights are kept, and no more values than there are weights. |
| PruneWeights.NonZeroFlags | coremltools/optimize/coreml/_quantization_passes.py:185 | Flag i is set iff weight i is nonzero. |
| PruneWeights.PackValToSparseParam | coremltools/optimize/coreml/_quantization_passes.py:181-187 | The shape is kept. The mask is ceil(n/8) bytes. Mask bit i is set iff weight i is nonzero, and the padding bits are clear. Every stored value is nonzero. |
| PruneWeights.SparseMaskPopCount | coremltools/optimize/coreml/_quantization_passes.py:184-185 | The mask's popcount equals the number of stored nonzero values. |
| PruneWeights.DensifyNonZeros | coremltools/optimize/coreml/_quantization_passes.py:184-185 | Filling the set flags with the nonzero values in order rebuilds the vector. |
| PruneWeights.SparseRoundTrip | coremltools/optimize/coreml/_quantization_passes.py:181-187 | Unpack the mask, drop its padding, and fill its set positions with `nonzero_data`. The result is the flattened weight. |
| PruneWeights.PyMod | coremltools/optimize/coreml/_quantization_passes.py:226 | `channel % m` raises ZeroDivisionError for m = 0. Otherwise it is the remainder, below m. |
| PruneWeights.BlockPaddedChannel | coremltools/optimize/coreml/_quantization_passes.py:225-231 | A block size of 0 raises ZeroDivisionError. Otherwise the padded count is divisible by the block size, so the assertion holds. It lies in [channel, channel + block_size) and is the least multiple of the block size not below channel. |
| PruneWeights.LeastMultiple | coremltools/optimize/coreml/_quantization_passes.py:226-231 | Padding by `m - channel % m` reaches a multiple of m, and no smaller count at or above channel is one. |
| PruneWeights.NmPaddedChannel | coremltools/optimize/coreml/_quantization_passes.py:298-308 | m > channel/2 skips. Otherwise m = 0 raises ZeroDivisionError. Otherwise the padded width is the least multiple of m at or above channel, so the assertion holds, and it holds at least two groups of m. |
| PalettizeWeights.InsertSorted | coremltools/optimize/coreml/_quantization_passes.py:455 | Inserting into a strictly increasing list keeps it strictly increasing and adds exactly that element. |
| PalettizeWeights.Unique | coremltools/optimize/coreml/_quantization_passes.py:455 | `np.unique` is strictly increasing, has exactly the values of the input, and is no longer than it. |
| PalettizeWeights.SortedDistinctIsUnique | coremltools/optimize/coreml/_quantization_passes.py:455 | Two strictly increasing lists with the same elements are equal. So the characterisation of `np.unique` above determines it. |
| PalettizeWeights.IndexOf | coremltools/optimize/coreml/_quantization_passes.py:463-466 | For a value in the table, this is its first position: it holds the value, and no earlier entry does. |
| PalettizeWeights.IndexOfSorted | coremltools/optimize/coreml/_quantization_passes.py:463-466 | In the sorted distinct table every entry is found at its own position. |
| PalettizeWeights.FirstFit | coremltools/optimize/coreml/_quantization_passes.py:446-448 | The loop stops at the first candidate whose 2^nbits table holds the count. Every earlier candidate is too small. The position is past the end iff no candidate fits. |
| PalettizeWeights.NBitsForUniqueMode | coremltools/optimize/coreml/_quantization_passes.py:443-451 | The result is None iff there are more than 256 unique values. Otherwise it is the smallest of 1, 2, 4, 6, 8 with unique count ≤ 2^nbits. |
| PalettizeWeights.UniqueModeFirstFit | coremltools/optimize/coreml/_quantization_passes.py:446-448 | Over the candidates 1, 2, 4, 6, 8, the loop stops at a position fixed by the count thresholds 2, 4, 16, 64 and 256. |
| PalettizeWeights.NBitsIsFirstFit | coremltools/optimize/coreml/_quantization_passes.py:443-451 | The chosen width is the candidate at which the loop stops. It is None when the loop runs past all five candidates. |
| PalettizeWeights.TagOfDistinct | coremltools/optimize/coreml/_quantization_passes.py:464-465 | Over distinct table entries the accumulated sum is one more than the value's table position, or 0 when the value is absent. |
| PalettizeWeights.BuildTable | coremltools/optimize/coreml/_quantization_passes.py:461-462 | The table has 2^nbits entries: the unique values first, zeros after. |
| PalettizeWeights.AccumulateIndices | coremltools/optimize/coreml/_quantization_passes.py:463-469 | After the accumulate-then-subtract loops every index is the table position of its weight. None is −1, so the assertion holds. |
| PalettizeWeights.CompressUnique | coremltools/optimize/coreml/_quantization_passes.py:453-473 | ValueError iff unique count > 2^nbits. Otherwise the table has the layout above and the indices are the positions mod 256. When nbits ≤ 8, `lut[indices[i]] == val[i]` for every i. |
| PalettizeWeights.IndexBits | coremltools/optimize/coreml/_quantization_passes.py:476 | The slice keeps min(nbits, 8) bits, and bit j is bit j of the index. |
| PalettizeWeights.FlattenIndexBits | coremltools/optimize/coreml/_quantization_passes.py:476 | The flattened bit matrix has len · min(nbits, 8) bits. |
| PalettizeWeights.PackIndicesIntoBytesArray | coremltools/optimize/coreml/_quantization_passes.py:475-477 | The packed array has ceil(len · min(nbits, 8) / 8) bytes, enough for every index bit. |
| PalettizeWeights.FlattenIndexBitsAt | coremltools/optimize/coreml/_quantization_passes.py:476 | Bit j of index i is element i·w + j of the flattened bits, where w = min(nbits, 8). |
| PalettizeWeights.PackedIndexBitAt | coremltools/optimize/coreml/_quantization_passes.py:475-477 | Bit j of index i lands at packed bit position i·nbits + j, nbits capped at 8. |
| PalettizeWeights.PackedIndexPadding | coremltools/optimize/coreml/_quantization_passes.py:477 | Every packed bit past the last index is zero. |
| PalettizeWeights.PackedSlice | coremltools/optimize/coreml/_quantization_passes.py:475-477 | Unpacking the packed array gives back the low nbits bits of index i at offset i·nbits. |
| PalettizeWeights.PackedBitOfIndex | coremltools/optimize/coreml/_quantization_passes.py:475-477 | For nbits ≤ 8, unpacked bit i·nbits + j is bit j of index i. |
| PalettizeWeights.PackIndicesRoundTrip | coremltools/optimize/coreml/_quantization_passes.py:475-477 | Reading index i back from the packed bytes gives indices[i] mod 2^nbits. Only the low nbits survive. |
| PalettizeWeights.PackIndicesLossless | coremltools/optimize/coreml/_quantization_passes.py:475-477 | Indices below 2^nbits, nbits ≤ 8, come back unchanged from the packed array. |
| PalettizeWeights.CompressedDecodes | coremltools/optimize/coreml/_quantization_passes.py:461-477 | A 2^nbits table, its uint8 lookups of the weights, and the packed indices together decode to the weights. The index width is recovered from the table length. |
| PalettizeWeights.CheckLutParametersAreValid | coremltools/optimize/coreml/_quantization_passes.py:479-499 | The first failing check raises its ValueError, in this order: not arrays, index count ≠ weight size, indices not a rank-1 uint8 vector. The validator passes iff all four checks hold. |
| PalettizeWeights.Log2Floor | coremltools/optimize/coreml/_quantization_passes.py:521 | `int(np.log2(n))` of a positive count n is the k with 2^k ≤ n < 2^(k+1). |
| PalettizeWeights.Log2Pow2 | coremltools/optimize/coreml/_quantization_passes.py:521 | `int(np.log2(len(lut)))` recovers nbits from a 2^nbits table. |
| PalettizeWeights.PalettizeUnique | coremltools/optimize/coreml/_quantization_passes.py:500-522 | None iff more than 256 unique values. Otherwise the shape is kept and the table has the UNIQUE layout with 2^nbits ≥ 2 entries, nbits being the width chosen above. The LUT check passes. The encoding is lossless: a reader that takes nbits from the table length maps every packed index back to its weight. |
| LinearQuantizeWeights.GetAxis | coremltools/optimize/coreml/_quantization_passes.py:594-599 | An op without outputs raises IndexError. Otherwise the axis is 1 iff the output has exactly one consumer and it is a `conv_transpose`, and 0 otherwise. |
| LinearQuantizeWeights.GetAxisIsChildOpTypeTest | coremltools/optimize/coreml/_quantization_passes.py:594-599 | For a single-output const the axis rule is `_check_child_op_type(op, "conv_transpose")`. |
| LinearQuantizeWeights.SymmetricZeroPoint | coremltools/optimize/coreml/_quantization_passes.py:644-648 | 127 levels fit on each side of the symmetric zero point inside the dtype, and 128 do not fit on both sides. |
| LinearQuantizeWeights.ModeDtypeToRange | coremltools/optimize/coreml/_quantization_passes.py:613-618 | Defined exactly for int8/uint8 with LINEAR/LINEAR_SYMMETRIC, and KeyError otherwise. Every range fits its dtype. LINEAR is the full dtype. LINEAR_SYMMETRIC has 255 levels centred on the symmetric zero point of lines 644-648 (0 for int8, 127 for uint8). |
| LinearQuantizeWeights.CastTo | coremltools/optimize/coreml/_quantization_passes.py:611 | `astype` to an 8-bit type lands in the dtype's range and is congruent to its input mod 256. |
| LinearQuantizeWeights.CastInRange | coremltools/optimize/coreml/_quantization_passes.py:611 | The cast leaves in-range values unchanged. |
| LinearQuantizeWeights.Clamp | coremltools/optimize/coreml/_quantization_passes.py:609-610 | The result is at least low, and at most high when low ≤ high. Values in [low, high] are kept. Values below low become low, values above high become high. When the bounds cross, low wins, since the maximum is taken last. |
| LinearQuantizeWeights.EnsureNumericalRangeAndCast | coremltools/optimize/coreml/_quantization_passes.py:603-611 | Results always fit the dtype. With a range that fits the dtype, results lie in [low, high] and in-range values are unchanged. Values below low become low, values above high become high. |
| LinearQuantizeWeights.EnsureRangeIdempotent | coremltools/optimize/coreml/_quantization_passes.py:603-611 | Clamping twice is clamping once. |
| LinearQuantizeWeights.EnsureRangeMonotone | coremltools/optimize/coreml/_quantization_passes.py:603-611 | The clamp keeps the order of values. |
| LinearQuantizeWeights.RangeTableClamps | coremltools/optimize/coreml/_quantization_passes.py:603-618 | For every table entry the clamp keeps values in the entry's range and in-range values unchanged. |

## Left out

- The internals of `Block`, `Operation` and `Var` are not part of this model, and neither are `Block.__enter__`/`__exit__` or `_propagate_nonreplaceable_vars`. Propagation is a counter bumped once per scope exit.
- Whether `Block.__exit__` skips propagation on the exit of a nested scope is decided inside `Block`, which is not part of this model. The model gives each exit one propagation.
- The routine run by the scope guard is opaque. What it returns or raises, the block outputs it leaves, and the number of nested scopes of the same block it opens are parameters of `PassHelper.BlockContextManager` and `Graph.Block.RunBody`. The events of those nested scopes are summarised in the one `Body` event, not listed one by one.
- Payloads are tagged by kind: ndarray, numpy scalar, Python number, string, list or tuple of numbers, or any other object. numpy string scalars (`np.str_`), booleans, complex numbers and nested lists are not told apart from "any other object".
- `should_use_weight_file` is serializer code outside this model. `CompressionPass.NeedCompressConst` takes it as a function parameter.
- `is_valid_op`, `op_selector` and `transform_op` are parameters of `CompressionPass.ApplyBlock`, and `transform_op` is recorded as an event. Its graph surgery (`mb.*` builders, `replace_uses_of_var_after_op`, `remove_ops`) is not modelled.
- `decompress` in every pass is not modelled; `PruneWeights.Densify` and `PalettizeWeights.UnpackIndex` serve as independent readers instead.
- `apply` over `prog.functions` is not modelled: it calls `apply_block` once per function.
- The `tqdm` progress bar, `logger` warnings, `register_pass`, the `OptimizationConfig` plumbing and `_check_config_type` are not modelled.
- Floating-point numerics are not modelled: UNIFORM and KMEANS palettization, the scale and zero-point arithmetic of linear quantization, magnitude/percentile pruning, the threshold-sparsity ratio, and the argsort-based n:m mask. Payload values in helper.py are exact reals; weights in the compression encoders are integers.
- `compress_by_threshold` and `compress_by_magnitude` are modelled only through `_pack_val_to_sparse_param` and the padding arithmetic. The rank and dim assertions and the transposes and reshapes around them are not modelled.
- The `isinstance(val, (np.ndarray, np.generic))` entry check of `compress` is not modelled; `PalettizeWeights.PalettizeUnique` takes a tensor. The CUSTOM mode calls a user `lut_function` and is not modelled.
- PalettizeWeights.CompressUnique: the cast of an index ≥ 256 to uint8 is modelled as wrap-around modulo 256. numpy's float-to-uint8 cast of such a value is platform-dependent. The case arises only when compress_unique is called with nbits > 8, which the UNIQUE path never does.
- LinearQuantizeWeights.EnsureNumericalRangeAndCast: it is stated on integer-valued data only, because the rounding that produces the input is float arithmetic and outside this model.
- `coremltools/models/__init__.py` (imports only) and `coremltools/optimize/torch/_utils/python_utils.py` (float formatting) are not part of this model.
- Block sizes and `m` are taken as non-negative; Python's floored `%` on a negative divisor is not modelled.

## Findings

| source | as written | input that shows it | evidently intended | confidence | as-written member | corrected member |
|---|---|---|---|---|---|---|
| coremltools/converters/mil/mil/passes/helper.py:127-140 | a str or bytes payload passes the `np.isscalar` check, and `abs(x_val - val)` then raises TypeError | a Var whose constant payload is the string "valid" (a convolution's `pad_type`), compared with 1.0 | return False, as the docstring says for any value not equal to `val` | not executed; medium: only a caller that hands a string constant to the check reaches it | PassHelper.StringPayloadRaises | PassHelper.CheckVarScalarValueTotal |

`PassHelper.CheckVarScalarValue` models the code as written;
`PassHelper.ScalarValueFixAgrees` shows the two differ on strings only, and
`PassHelper.ScalarPredicatesAgree` is stated on the total version.

## Notes on the source's behaviour

The model follows the code in each case:

- The decorator's docstring (helper.py:43-45) says it reduces the number of `with block` calls. The code opens one `with block:` per decorated call; a routine that calls another decorated routine on the same block opens a nested scope, which `Graph.Block.RunBody` counts.
- `_are_values_identical` uses `np.array_equal`, which compares shape and elements without broadcasting. A `[3]` array and a scalar `3` are therefore not identical.
- `_check_var_scalar_value_in_interval` returns false for a plain Python int or float payload. Only an ndarray or a numpy scalar passes its type check. `_check_var_scalar_value` accepts Python scalars.
- `_are_ops_identical` checks for nested blocks only after every input slot has matched. Two ops with blocks whose inputs differ give false, not an assertion failure.
