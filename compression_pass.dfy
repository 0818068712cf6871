/** What the three weight-compression passes share: the const-eligibility
    rule and the select-then-transform traversal of a program's blocks. */
module CompressionPass {
  import opened Base
  import opened Graph

  /** A weight tensor: its shape, its values in flatten (row-major) order,
      and its dtype. */
  datatype Tensor = Tensor(shape: seq<nat>, data: seq<int>, dtype: DType)

  /** Number of elements of an array of this shape (1 for a 0-d array). */
  function Product(shape: seq<nat>): nat
  {
    if shape == [] then 1 else shape[0] * Product(shape[1..])
  }

  lemma ProductOfVector(n: nat)
    ensures Product([n]) == n
  {
    assert [n][1..] == [];
  }

  /** A numpy array holds exactly as many values as its shape says. */
  predicate WellFormed(t: Tensor)
  {
    |t.data| == Product(t.shape)
  }

  // ---------------------------------------------------------------------
  // need_compress_const
  // ---------------------------------------------------------------------

  /** `val.size`: defined for an ndarray and a numpy scalar only. */
  function PayloadSize(val: Option<Payload>): (r: Result<nat>)
    ensures r.Ok? <==> val.Some? && (val.value.NdArray? || val.value.NumpyScalar?)
    ensures r.Err? ==> r.error == AttributeError
  {
    if val.None? then Err(AttributeError)
    else
      match val.value
      case NdArray(_, elems) => Ok(|elems|)
      case NumpyScalar(_) => Ok(1)
      case _ => Err(AttributeError)
  }

  /** Some consumer of the const's output is a `constexpr*` op. */
  predicate FeedsConstexpr(v: Var)
  {
    exists c :: c in v.childOps && "constexpr" <= c.opType
  }

  /** `need_compress_const`.  `shouldUseWeightFile` stands for the
      serializer's rule of whether a value goes to the weight file. */
  function NeedCompressConst(op: Op, isDeprecated: bool, weightThreshold: Option<real>,
                             shouldUseWeightFile: Option<Payload> -> bool): (r: Result<bool>)
    ensures |op.outputs| == 0 ==> r == Err(IndexError)
    ensures |op.outputs| > 0 && isDeprecated ==>
              r == if weightThreshold.Some? then Err(ValueError(ThresholdWithDeprecated))
                   else Ok(shouldUseWeightFile(op.outputs[0].val))
    // a const feeding a constexpr op is refused before the threshold is looked at
    ensures |op.outputs| > 0 && !isDeprecated && FeedsConstexpr(op.outputs[0]) ==> r == Ok(false)
    ensures |op.outputs| > 0 && !isDeprecated && !FeedsConstexpr(op.outputs[0]) &&
            weightThreshold.None? ==>
              r == Err(ValueError(ThresholdMissing))
    ensures !isDeprecated ==>
              (r == Ok(true) <==> && |op.outputs| > 0
                                  && !FeedsConstexpr(op.outputs[0])
                                  && weightThreshold.Some?
                                  && shouldUseWeightFile(op.outputs[0].val)
                                  && PayloadSize(op.outputs[0].val).Ok?
                                  && PayloadSize(op.outputs[0].val).value as real > weightThreshold.value)
    ensures r.Err? && r.error == AttributeError ==>
              !isDeprecated && shouldUseWeightFile(op.outputs[0].val)
  {
    if |op.outputs| == 0 then Err(IndexError)
    else
      var val := op.outputs[0].val;
      if isDeprecated && weightThreshold.Some? then Err(ValueError(ThresholdWithDeprecated))
      else if isDeprecated then Ok(shouldUseWeightFile(val))
      else if FeedsConstexpr(op.outputs[0]) then Ok(false)
      else if weightThreshold.None? then Err(ValueError(ThresholdMissing))
      else if !shouldUseWeightFile(val) then Ok(false)
      else
        var size := PayloadSize(val);
        if size.Err? then Err(size.error)
        else Ok(size.value as real > weightThreshold.value)
  }

  // ---------------------------------------------------------------------
  // apply_block: select every eligible op first, then transform them
  // ---------------------------------------------------------------------

  /** The pass-specific parts the traversal consults: `is_valid_op` and the
      optional `op_selector`. */
  datatype PassConfig = PassConfig(isValidOp: Op -> bool, opSelector: Option<Op -> bool>)

  /** What the traversal does, in order: open a block's scope, hand an op
      to `transform_op`, close a block's scope. */
  datatype PassEvent = EnterScope(block: nat) | Transform(op: nat) | ExitScope(block: nat)

  /** An op is collected when it is valid and, if there is a selector,
      the selector accepts it; the selector is consulted only for valid ops. */
  predicate Selected(op: Op, pass: PassConfig)
  {
    pass.isValidOp(op) && (pass.opSelector.None? || pass.opSelector.value(op))
  }

  /** The selected ops of a list, in order. */
  function SelectedOps(ops: seq<Op>, pass: PassConfig): (r: seq<Op>)
    ensures forall op :: op in r <==> op in ops && Selected(op, pass)
    ensures |r| <= |ops|
  {
    if ops == [] then []
    else SelectedOps(ops[..|ops| - 1], pass) +
         (if Selected(ops[|ops| - 1], pass) then [ops[|ops| - 1]] else [])
  }

  /** Extending the list by one op extends the selection by that op when
      it is selected, and by nothing otherwise. */
  lemma SelectedOpsStep(ops: seq<Op>, i: nat, pass: PassConfig)
    requires i < |ops|
    ensures SelectedOps(ops[..i + 1], pass)
         == SelectedOps(ops[..i], pass) + (if Selected(ops[i], pass) then [ops[i]] else [])
  {
    assert ops[..i + 1][..i] == ops[..i];
  }

  /** One `transform_op` per op, in list order. */
  function TransformEvents(ops: seq<Op>): (r: seq<PassEvent>)
    ensures |r| == |ops|
    ensures forall i :: 0 <= i < |r| ==> r[i] == Transform(ops[i].id)
  {
    if ops == [] then [] else TransformEvents(ops[..|ops| - 1]) + [Transform(ops[|ops| - 1].id)]
  }

  /** The events of the traversal of one block. */
  function BlockTrace(b: BlockBody, pass: PassConfig): seq<PassEvent>
    decreases b, 2
  {
    [EnterScope(b.id)] + OpsTrace(b, |b.operations|, pass) +
    TransformEvents(SelectedOps(b.operations, pass)) + [ExitScope(b.id)]
  }

  /** The events of traversing the nested blocks of the first n ops of b. */
  function OpsTrace(b: BlockBody, n: nat, pass: PassConfig): seq<PassEvent>
    requires n <= |b.operations|
    decreases b, 1, n
  {
    if n == 0 then []
    else OpsTrace(b, n - 1, pass) + BlocksTrace(b.operations[n - 1], |b.operations[n - 1].blocks|, pass)
  }

  /** The events of traversing the first n nested blocks of op. */
  function BlocksTrace(op: Op, n: nat, pass: PassConfig): seq<PassEvent>
    requires n <= |op.blocks|
    decreases op, n
  {
    if n == 0 then []
    else BlocksTrace(op, n - 1, pass) + BlockTrace(op.blocks[n - 1], pass)
  }

  /** `apply_block`, as decorated with the scope guard: the whole traversal
      of a block runs inside its scope.  The first loop recurses into the
      nested blocks of every op and collects the selected ops; only then
      does the second loop transform them, in the order collected. */
  method ApplyBlock(b: BlockBody, pass: PassConfig) returns (trace: seq<PassEvent>)
    ensures trace == BlockTrace(b, pass)
    decreases b, 2
  {
    var visited, validConsts := VisitOps(b, pass);
    var transformed := TransformCollected(validConsts);
    trace := [EnterScope(b.id)] + visited + transformed + [ExitScope(b.id)];
  }

  /** The first loop of `apply_block`: recurse into the nested blocks of
      every op and collect the selected ops. */
  method VisitOps(b: BlockBody, pass: PassConfig) returns (visited: seq<PassEvent>, validConsts: seq<Op>)
    ensures visited == OpsTrace(b, |b.operations|, pass)
    ensures validConsts == SelectedOps(b.operations, pass)
    decreases b, 1
  {
    visited := [];
    validConsts := [];
    for i := 0 to |b.operations|
      invariant visited == OpsTrace(b, i, pass)
      invariant validConsts == SelectedOps(b.operations[..i], pass)
    {
      var op := b.operations[i];
      var sub := ApplyNested(op, pass);
      visited := visited + sub;
      SelectedOpsStep(b.operations, i, pass);
      if Selected(op, pass) {
        validConsts := validConsts + [op];
      }
    }
    assert b.operations[..|b.operations|] == b.operations;
  }

  /** The second loop of `apply_block`: `transform_op` on every collected
      op, in the order collected. */
  method TransformCollected(validConsts: seq<Op>) returns (transformed: seq<PassEvent>)
    ensures transformed == TransformEvents(validConsts)
  {
    transformed := [];
    for j := 0 to |validConsts|
      invariant transformed == TransformEvents(validConsts[..j])
    {
      transformed := transformed + [Transform(validConsts[j].id)];
      assert validConsts[..j + 1][..j] == validConsts[..j];
    }
    assert validConsts[..|validConsts|] == validConsts;
  }

  /** The recursion of `apply_block` into every nested block of one op. */
  method ApplyNested(op: Op, pass: PassConfig) returns (trace: seq<PassEvent>)
    ensures trace == BlocksTrace(op, |op.blocks|, pass)
    decreases op, 0
  {
    trace := [];
    for k := 0 to |op.blocks|
      invariant trace == BlocksTrace(op, k, pass)
    {
      var sub := ApplyBlock(op.blocks[k], pass);
      trace := trace + sub;
    }
  }

  // ---------------------------------------------------------------------
  // Every transform happens inside an open scope, and scopes nest
  // ---------------------------------------------------------------------

  function Delta(e: PassEvent): int
  {
    match e
    case EnterScope(_) => 1
    case Transform(_) => 0
    case ExitScope(_) => -1
  }

  /** Number of scopes open after the events of t. */
  function Depth(t: seq<PassEvent>): int
  {
    if t == [] then 0 else Depth(t[..|t| - 1]) + Delta(t[|t| - 1])
  }

  /** t closes every scope it opens, never closes one it did not open, and
      hands every op to `transform_op` while some scope is open. */
  predicate WellScoped(t: seq<PassEvent>)
  {
    && Depth(t) == 0
    && (forall k :: 0 <= k <= |t| ==> DepthAfter(t, k) >= 0)
    && (forall k :: 0 <= k < |t| && t[k].Transform? ==> DepthAfter(t, k) >= 1)
  }

  /** Number of scopes open after the first k events of t. */
  function DepthAfter(t: seq<PassEvent>, k: nat): int
    requires k <= |t|
  {
    Depth(t[..k])
  }

  lemma {:induction false} DepthAppend(a: seq<PassEvent>, b: seq<PassEvent>)
    ensures Depth(a + b) == Depth(a) + Depth(b)
    decreases |b|
  {
    if b == [] {
      assert a + b == a;
    } else {
      var b' := b[..|b| - 1];
      assert (a + b)[..|a + b| - 1] == a + b';
      DepthAppend(a, b');
    }
  }

  /** The depth after a prefix of a + b. */
  lemma {:induction false} PrefixDepth(a: seq<PassEvent>, b: seq<PassEvent>, k: nat)
    requires k <= |a| + |b|
    ensures k <= |a| ==> DepthAfter(a + b, k) == DepthAfter(a, k)
    ensures k > |a| ==> DepthAfter(a + b, k) == Depth(a) + DepthAfter(b, k - |a|)
  {
    if k <= |a| {
      assert (a + b)[..k] == a[..k];
    } else {
      assert (a + b)[..k] == a + b[..k - |a|];
      DepthAppend(a, b[..k - |a|]);
    }
  }

  lemma {:induction false} WellScopedAppend(a: seq<PassEvent>, b: seq<PassEvent>)
    requires WellScoped(a) && WellScoped(b)
    ensures WellScoped(a + b)
  {
    DepthAppend(a, b);
    forall k | 0 <= k <= |a + b|
      ensures DepthAfter(a + b, k) >= 0
    {
      PrefixDepth(a, b, k);
    }
    forall k | 0 <= k < |a + b| && (a + b)[k].Transform?
      ensures DepthAfter(a + b, k) >= 1
    {
      PrefixDepth(a, b, k);
    }
  }

  /** A run of transforms opens and closes nothing. */
  lemma {:induction false} TransformsDepth(ops: seq<Op>, k: nat)
    requires k <= |ops|
    ensures Depth(TransformEvents(ops)[..k]) == 0
    decreases k
  {
    var t := TransformEvents(ops);
    if k > 0 {
      assert t[..k][..k - 1] == t[..k - 1];
      TransformsDepth(ops, k - 1);
    }
  }

  /** The work inside a block's scope, its nested traversals followed by
      its transforms, never closes more scopes than it opens and closes all
      it opens. */
  lemma {:induction false} InnerBalanced(nested: seq<PassEvent>, ops: seq<Op>)
    requires WellScoped(nested)
    ensures Depth(nested + TransformEvents(ops)) == 0
    ensures forall k :: 0 <= k <= |nested + TransformEvents(ops)| ==>
              DepthAfter(nested + TransformEvents(ops), k) >= 0
  {
    var transforms := TransformEvents(ops);
    TransformsDepth(ops, |ops|);
    assert transforms[..|ops|] == transforms;
    DepthAppend(nested, transforms);
    forall k | 0 <= k <= |nested + transforms|
      ensures DepthAfter(nested + transforms, k) >= 0
    {
      PrefixDepth(nested, transforms, k);
      if k > |nested| {
        TransformsDepth(ops, k - |nested|);
      }
    }
  }

  /** Inside the block's own scope the depth is one more than inside the
      wrapped work. */
  lemma {:induction false} EnterPrefix(id: nat, inner: seq<PassEvent>, k: nat)
    requires 1 <= k <= |inner| + 1
    ensures DepthAfter([EnterScope(id)] + inner + [ExitScope(id)], k) == 1 + DepthAfter(inner, k - 1)
  {
    var enter := [EnterScope(id)];
    assert ([EnterScope(id)] + inner + [ExitScope(id)])[..k] == enter + inner[..k - 1];
    assert enter[..0] == [];
    DepthAppend(enter, inner[..k - 1]);
  }

  /** Opening a scope, running balanced work in which every transform is
      inside a scope of its own or is part of the block's transforms, and
      closing the scope, is well scoped. */
  lemma {:induction false} WrapBalanced(id: nat, inner: seq<PassEvent>)
    requires Depth(inner) == 0
    requires forall k :: 0 <= k <= |inner| ==> DepthAfter(inner, k) >= 0
    ensures WellScoped([EnterScope(id)] + inner + [ExitScope(id)])
  {
    var t := [EnterScope(id)] + inner + [ExitScope(id)];
    EnterPrefix(id, inner, |inner| + 1);
    assert inner[..|inner|] == inner;
    assert t[..|t| - 1] == t[..|inner| + 1];
    forall k | 0 <= k <= |t|
      ensures DepthAfter(t, k) >= 0
      ensures k < |t| && t[k].Transform? ==> DepthAfter(t, k) >= 1
    {
      if k == 0 {
        assert t[..k] == [];
      } else if k <= |inner| + 1 {
        EnterPrefix(id, inner, k);
      } else {
        assert t[..k] == t;
      }
    }
  }

  /** Opening a scope, running well-scoped work, transforming, and closing
      the scope is well scoped. */
  lemma {:induction false} WellScopedWrap(id: nat, nested: seq<PassEvent>, ops: seq<Op>)
    requires WellScoped(nested)
    ensures WellScoped([EnterScope(id)] + nested + TransformEvents(ops) + [ExitScope(id)])
  {
    var transforms := TransformEvents(ops);
    var inner := nested + transforms;
    assert [EnterScope(id)] + nested + transforms == [EnterScope(id)] + inner;
    InnerBalanced(nested, ops);
    WrapBalanced(id, inner);
  }

  /** The traversal of a block, nested blocks included, opens and closes
      scopes in matched pairs and transforms ops only inside a scope. */
  lemma {:induction false} BlockTraceWellScoped(b: BlockBody, pass: PassConfig)
    ensures WellScoped(BlockTrace(b, pass))
    decreases b, 2
  {
    OpsTraceWellScoped(b, |b.operations|, pass);
    WellScopedWrap(b.id, OpsTrace(b, |b.operations|, pass), SelectedOps(b.operations, pass));
  }

  lemma {:induction false} OpsTraceWellScoped(b: BlockBody, n: nat, pass: PassConfig)
    requires n <= |b.operations|
    ensures WellScoped(OpsTrace(b, n, pass))
    decreases b, 1, n
  {
    if n > 0 {
      OpsTraceWellScoped(b, n - 1, pass);
      BlocksTraceWellScoped(b.operations[n - 1], |b.operations[n - 1].blocks|, pass);
      WellScopedAppend(OpsTrace(b, n - 1, pass),
                       BlocksTrace(b.operations[n - 1], |b.operations[n - 1].blocks|, pass));
    }
  }

  lemma {:induction false} BlocksTraceWellScoped(op: Op, n: nat, pass: PassConfig)
    requires n <= |op.blocks|
    ensures WellScoped(BlocksTrace(op, n, pass))
    decreases op, n
  {
    if n > 0 {
      BlocksTraceWellScoped(op, n - 1, pass);
      BlockTraceWellScoped(op.blocks[n - 1], pass);
      WellScopedAppend(BlocksTrace(op, n - 1, pass), BlockTrace(op.blocks[n - 1], pass));
    }
  }
}
