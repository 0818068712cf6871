/** Shared helpers of the MIL graph passes: the `with block:` scope guard,
    topology predicates used to validate fusion patterns, total predicates
    on scalar constants, and the structural-equality check used for
    common-subexpression elimination. */
module PassHelper {
  import opened Base
  import opened Graph

  // ---------------------------------------------------------------------
  // Scope guard (block_context_manager)
  // ---------------------------------------------------------------------

  /** A positional argument of a routine decorated with the scope guard. */
  datatype Arg = GraphPassArg | BlockArg(block: Block) | OtherArg

  /** Picks the Block the guard scopes: the second argument when the first
      is a graph pass (a method call), the first otherwise.  Indexing past
      the arguments raises IndexError; a non-Block target, ValueError. */
  function SelectBlock(args: seq<Arg>): (r: Result<Block>)
    ensures |args| == 0 ==> r == Err(IndexError)
    ensures |args| == 1 && args[0].GraphPassArg? ==> r == Err(IndexError)
    ensures |args| >= 1 && !args[0].GraphPassArg? ==>
              (r.Ok? <==> args[0].BlockArg?) &&
              (r.Ok? ==> r.value == args[0].block) &&
              (r.Err? ==> r.error == ValueError(NotABlock))
    ensures |args| >= 2 && args[0].GraphPassArg? ==>
              (r.Ok? <==> args[1].BlockArg?) &&
              (r.Ok? ==> r.value == args[1].block) &&
              (r.Err? ==> r.error == ValueError(NotABlock))
  {
    if |args| == 0 then Err(IndexError)
    else
      var target := if args[0].GraphPassArg? then 1 else 0;
      if target >= |args| then Err(IndexError)
      else if args[target].BlockArg? then Ok(args[target].block)
      else Err(ValueError(NotABlock))
  }

  /** The wrapper the guard builds around a routine.  The routine itself is
      not visible here: `outcome` is what it returns, or the exception it
      raises, and `newOutputs` and `nested` are what it does to the block
      (see `Block.RunBody`).  On a valid target the routine runs once,
      inside exactly one enter/exit of the block's scope; the exit, and
      with it one propagation of the guard's own, happens whether the
      routine returned or raised, and the routine's outcome, exception
      included, is passed on unchanged. */
  method BlockContextManager<T>(args: seq<Arg>, outcome: Result<T>,
                                newOutputs: set<nat>, nested: nat) returns (r: Result<T>)
    modifies if SelectBlock(args).Ok? then {SelectBlock(args).value} else {}
    ensures SelectBlock(args).Err? ==> r == Err(SelectBlock(args).error)
    ensures SelectBlock(args).Ok? ==>
              var b := SelectBlock(args).value;
              && r == outcome
              && b.history == old(b.history) + [Entered, Body(old(b.depth) + 1, nested), Exited]
              && b.depth == old(b.depth)
              && b.propagations == old(b.propagations) + nested + 1
              && b.outputs == newOutputs
  {
    var target := SelectBlock(args);
    if target.Err? {
      return Err(target.error);
    }
    var block := target.value;
    block.Enter();
    block.RunBody(newOutputs, nested);
    // `with block:` exits on return and on exception alike
    block.Exit();
    r := outcome;
  }

  // ---------------------------------------------------------------------
  // Topology predicates
  // ---------------------------------------------------------------------

  /** `_check_child_op_type`: op has one output, that output has one
      consumer, and the consumer has the given op type. */
  function CheckChildOpType(op: Op, childOpType: string): (r: bool)
    ensures r <==> && |op.outputs| == 1
                   && |op.outputs[0].childOps| == 1
                   && op.outputs[0].childOps[0].opType == childOpType
  {
    if |op.outputs| != 1 then false
    else
      var childOps := op.outputs[0].childOps;
      if |childOps| != 1 then false
      else childOps[0].opType == childOpType
  }

  /** No op of `ops` has an output whose id is in `outs`. */
  function NoneExposed(outs: set<nat>, ops: seq<Op>): (r: bool)
    ensures r <==> forall i, k :: 0 <= i < |ops| && 0 <= k < |ops[i].outputs| ==>
                                 ops[i].outputs[k].id !in outs
  {
    if ops == [] then true
    else if exists k :: 0 <= k < |ops[0].outputs| && ops[0].outputs[k].id in outs then false
    else NoneExposed(outs, ops[1..])
  }

  /** `_check_no_output_connection`: no op of the pattern except the last
      has an output among the block's outputs. */
  function CheckNoOutputConnection(block: Block, ops: seq<Op>): (r: bool)
    reads block
    ensures !r <==> exists i, k :: 0 <= i < |ops| - 1 && 0 <= k < |ops[i].outputs| &&
                                 ops[i].outputs[k].id in block.outputs
  {
    var head := if |ops| == 0 then [] else ops[..|ops| - 1];   // ops[:-1]
    NoneExposed(block.outputs, head)
  }

  /** The last op of the pattern is never inspected, so an empty or
      one-op pattern always passes. */
  lemma LastOpNeverInspected(block: Block, ops: seq<Op>, last1: Op, last2: Op)
    ensures CheckNoOutputConnection(block, ops + [last1]) ==
            CheckNoOutputConnection(block, ops + [last2])
    ensures CheckNoOutputConnection(block, []) && CheckNoOutputConnection(block, [last1])
  {
    assert (ops + [last1])[..|ops|] == ops == (ops + [last2])[..|ops|];
  }

  // ---------------------------------------------------------------------
  // Scalar-constant predicates (total: never raise)
  // ---------------------------------------------------------------------

  /** `_check_var_scalar_value_in_interval`: the payload is an ndarray of
      size one or a numpy scalar, and its value lies in [lo, hi].  Every
      other payload, a plain Python number included, is rejected. */
  function CheckVarScalarValueInInterval(x: Var, lo: real, hi: real): (r: bool)
    ensures x.val.None? ==> !r
    ensures x.val.Some? && !(x.val.value.NdArray? || x.val.value.NumpyScalar?) ==> !r
    ensures x.val.Some? && x.val.value.NdArray? ==>
              (r <==> |x.val.value.elems| == 1 && lo <= x.val.value.elems[0] <= hi)
    ensures x.val.Some? && x.val.value.NumpyScalar? ==>
              (r <==> lo <= x.val.value.v <= hi)
  {
    if x.val.None? then false
    else
      match x.val.value
      case NdArray(_, elems) =>
        if |elems| != 1 then false
        else lo <= elems[0] && elems[0] <= hi
      case NumpyScalar(v) => lo <= v && v <= hi
      case _ => false
  }

  function Abs(x: real): real { if x < 0.0 then -x else x }

  /** `_check_var_scalar_value` as written: the payload is an ndarray of
      size one or a scalar (numpy or Python), and it is strictly closer
      than `tol` to `val`.  A str or bytes payload passes the
      `np.isscalar` type check, and the subtraction that follows raises
      TypeError. */
  function CheckVarScalarValue(x: Var, val: real, tol: real := 0.001): (r: Result<bool>)
    ensures r.Err? <==> x.val.Some? && x.val.value.PyString?
    ensures r.Err? ==> r.error == TypeError
    ensures x.val.None? ==> r == Ok(false)
    ensures x.val.Some? && (x.val.value.PySequence? || x.val.value.Other?) ==> r == Ok(false)
    ensures x.val.Some? && x.val.value.NdArray? ==>
              r.Ok? && (r.value <==> |x.val.value.elems| == 1 &&
                                     val - tol < x.val.value.elems[0] < val + tol)
    ensures x.val.Some? && (x.val.value.NumpyScalar? || x.val.value.PythonScalar?) ==>
              r.Ok? && (r.value <==> val - tol < x.val.value.v < val + tol)
  {
    if x.val.None? then Ok(false)
    else
      match x.val.value
      case NdArray(_, elems) =>
        if |elems| != 1 then Ok(false)
        else Ok(Abs(elems[0] - val) < tol)
      case NumpyScalar(v) => Ok(Abs(v - val) < tol)
      case PythonScalar(v) => Ok(Abs(v - val) < tol)
      case PyString(_) => Err(TypeError)   // abs(x_val - val) on a str
      case PySequence(_) => Ok(false)      // neither an ndarray nor a scalar
      case Other(_) => Ok(false)
  }

  /** `_check_var_scalar_value` as its docstring promises: false, never an
      exception, for every payload that is not a number close to `val`. */
  function CheckVarScalarValueTotal(x: Var, val: real, tol: real := 0.001): (r: bool)
    ensures x.val.None? ==> !r
    ensures x.val.Some? && !(x.val.value.NdArray? || x.val.value.NumpyScalar? ||
                             x.val.value.PythonScalar?)
            ==> !r
    ensures x.val.Some? && x.val.value.NdArray? ==>
              (r <==> |x.val.value.elems| == 1 &&
                      val - tol < x.val.value.elems[0] < val + tol)
    ensures x.val.Some? && (x.val.value.NumpyScalar? || x.val.value.PythonScalar?) ==>
              (r <==> val - tol < x.val.value.v < val + tol)
  {
    if x.val.None? then false
    else
      match x.val.value
      case NdArray(_, elems) =>
        if |elems| != 1 then false
        else Abs(elems[0] - val) < tol
      case NumpyScalar(v) => Abs(v - val) < tol
      case PythonScalar(v) => Abs(v - val) < tol
      case _ => false
  }

  /** The two versions differ on string payloads only: wherever the code
      as written returns, the total version returns the same answer. */
  lemma ScalarValueFixAgrees(x: Var, val: real, tol: real)
    ensures CheckVarScalarValue(x, val, tol).Ok? ==>
              CheckVarScalarValue(x, val, tol).value == CheckVarScalarValueTotal(x, val, tol)
    ensures !CheckVarScalarValue(x, val, tol).Ok? ==> x.val.Some? && x.val.value.PyString?
  {
  }

  /** A string constant, such as the `pad_type` "valid" of a convolution,
      makes the code as written raise instead of answering false. */
  lemma StringPayloadRaises()
    ensures CheckVarScalarValue(Var(0, Some(PyString("valid")), OtherDType("str"), []), 1.0)
            == Err(TypeError)
    ensures !CheckVarScalarValueTotal(Var(0, Some(PyString("valid")), OtherDType("str"), []), 1.0)
  {
  }

  /** How the two scalar predicates relate.  On an array or numpy-scalar
      payload, closeness within `tol` implies membership of the closed
      interval of radius `tol`, and membership of a closed interval of a
      smaller radius implies closeness.  A Python scalar payload is where
      they part: the interval check always rejects it. */
  lemma ScalarPredicatesAgree(x: Var, c: real, tol: real, radius: real)
    requires 0.0 <= radius < tol
    ensures x.val.Some? && !x.val.value.PythonScalar? ==>
              (CheckVarScalarValueTotal(x, c, tol) ==>
                 CheckVarScalarValueInInterval(x, c - tol, c + tol))
    ensures CheckVarScalarValueInInterval(x, c - radius, c + radius) ==>
              CheckVarScalarValueTotal(x, c, tol)
    ensures x.val == Some(PythonScalar(c)) ==>
              CheckVarScalarValueTotal(x, c, tol) &&
              !CheckVarScalarValueInInterval(x, c - tol, c + tol)
  {
  }

  // ---------------------------------------------------------------------
  // Structural equality (_are_ops_identical)
  // ---------------------------------------------------------------------

  /** `np.array(p)`: a scalar becomes a 0-d array and a list or tuple of
      numbers a 1-d array; an ndarray stays itself.  A string becomes a
      0-d string array, compared by its text, so it is kept as it is; any
      other object is kept as it is too. */
  function AsArray(p: Payload): (a: Payload)
    ensures a.NdArray? || a.PyString? || a.Other?
    ensures !p.NdArray? && !p.PyString? && !p.Other? ==> a.NdArray?
    ensures (p.NumpyScalar? || p.PythonScalar?) ==> a.shape == [] && a.elems == [p.v]
    ensures p.PySequence? ==> a.shape == [|p.items|] && a.elems == p.items
  {
    match p
    case NdArray(_, _) => p
    case NumpyScalar(v) => NdArray([], [v])
    case PythonScalar(v) => NdArray([], [v])
    case PySequence(items) => NdArray([|items|], items)
    case PyString(_) => p
    case Other(_) => p
  }

  /** Converting an array again changes nothing. */
  lemma AsArrayIdempotent(p: Payload)
    ensures AsArray(AsArray(p)) == AsArray(p)
  {
  }

  /** `np.array_equal(np.array(a), np.array(b))`: two numeric values are
      identical iff their arrays have the same shape and the same elements,
      with no broadcasting; a number never equals a string or another
      object, and two strings are identical iff they are the same text. */
  function ValuesIdentical(a: Payload, b: Payload): (r: bool)
    ensures AsArray(a).NdArray? && AsArray(b).NdArray? ==>
              (r <==> AsArray(a).shape == AsArray(b).shape &&
                      AsArray(a).elems == AsArray(b).elems)
    ensures AsArray(a).NdArray? != AsArray(b).NdArray? ==> !r
    ensures a.PyString? ==> (r <==> b == a)
  {
    AsArray(a) == AsArray(b)
  }

  /** Two Vars are input-identical when both are non-constant and the same
      object, or both constant with equal dtype and equal contents. */
  function VarsIdentical(v1: Var, v2: Var): (r: bool)
    ensures v1.val.None? && v2.val.None? ==> (r <==> v1.id == v2.id)
    ensures v1.val.None? != v2.val.None? ==> !r
    ensures v1.val.Some? && v2.val.Some? ==>
              (r <==> v1.dtype == v2.dtype && ValuesIdentical(v1.val.value, v2.val.value))
  {
    if v1.val.None? && v2.val.None? then v1.id == v2.id
    else if v1.val.Some? && v2.val.Some? then
      v1.dtype == v2.dtype && ValuesIdentical(v1.val.value, v2.val.value)
    else false
  }

  /** The element-by-element loop over two equally long Var lists. */
  function ListsIdentical(vs1: seq<Var>, vs2: seq<Var>): (r: bool)
    requires |vs1| == |vs2|
    ensures r <==> forall i :: 0 <= i < |vs1| ==> VarsIdentical(vs1[i], vs2[i])
  {
    if vs1 == [] then true
    else if !VarsIdentical(vs1[0], vs2[0]) then false
    else ListsIdentical(vs1[1..], vs2[1..])
  }

  /** Comparison of one input slot of op1 with the same slot of op2. */
  function SlotsIdentical(in1: Input, in2: Input): (r: bool)
    ensures in1.One? && in2.One? ==> (r <==> VarsIdentical(in1.v, in2.v))
    ensures in1.Many? && in2.Many? ==>
              (r <==> |in1.vs| == |in2.vs| &&
                      forall i :: 0 <= i < |in1.vs| ==> VarsIdentical(in1.vs[i], in2.vs[i]))
    ensures in1.One? != in2.One? ==> !r
  {
    match (in1, in2)
    case (One(v1), One(v2)) => VarsIdentical(v1, v2)
    case (Many(vs1), Many(vs2)) => |vs1| == |vs2| && ListsIdentical(vs1, vs2)
    case _ => false
  }

  /** The loop over op1's input slots finds no mismatch. */
  predicate AllSlotsMatch(in1: map<string, Input>, in2: map<string, Input>)
  {
    forall key :: key in in1 ==> key in in2 && SlotsIdentical(in1[key], in2[key])
  }

  /** `_are_ops_identical`.  The same op is identical to itself before any
      other test; the "no nested blocks" assertion is reached only once
      every input slot has matched. */
  function AreOpsIdentical(op1: Op, op2: Op): (r: Result<bool>)
    ensures op1.id == op2.id ==> r == Ok(true)
    ensures op1.id != op2.id && op1.opType != op2.opType ==> r == Ok(false)
    ensures op1.id != op2.id && op1.inputs.Keys != op2.inputs.Keys ==> r == Ok(false)
    ensures r.Err? ==> r.error == AssertionError
    ensures r.Err? <==> && op1.id != op2.id
                        && op1.opType == op2.opType
                        && op1.inputs.Keys == op2.inputs.Keys
                        && (forall key :: key in op1.inputs ==>
                              SlotsIdentical(op1.inputs[key], op2.inputs[key]))
                        && (|op1.blocks| != 0 || |op2.blocks| != 0)
    ensures r == Ok(true) <==> || op1.id == op2.id
                               || (&& op1.opType == op2.opType
                                   && op1.inputs.Keys == op2.inputs.Keys
                                   && (forall key :: key in op1.inputs ==>
                                         SlotsIdentical(op1.inputs[key], op2.inputs[key]))
                                   && |op1.blocks| == 0 && |op2.blocks| == 0)
  {
    if op1.id == op2.id then Ok(true)
    else if op1.opType != op2.opType then Ok(false)
    else if |op1.inputs| != |op2.inputs| then Ok(false)
    else if !AllSlotsMatch(op1.inputs, op2.inputs) then
      Ok(false)
    else
      SameSizeSubsetIsEqual(op1.inputs.Keys, op2.inputs.Keys);
      if |op1.blocks| != 0 || |op2.blocks| != 0 then Err(AssertionError)
      else Ok(true)
  }

  /** Key sets of equal size, one inside the other, are equal; this is why
      comparing `len(inputs)` and then looking up op1's keys in op2
      amounts to comparing the key sets. */
  lemma SameSizeSubsetIsEqual<K>(a: set<K>, b: set<K>)
    requires a <= b && |a| == |b|
    ensures a == b
  {
    var rest := b - a;
    assert b == a + rest && a * rest == {};
  }

  lemma VarsIdenticalSymmetric(v1: Var, v2: Var)
    ensures VarsIdentical(v1, v2) == VarsIdentical(v2, v1)
  {
  }

  /** The structural-equality check does not depend on argument order. */
  lemma AreOpsIdenticalSymmetric(op1: Op, op2: Op)
    ensures AreOpsIdentical(op1, op2) == AreOpsIdentical(op2, op1)
  {
    if op1.id != op2.id && op1.opType == op2.opType && op1.inputs.Keys == op2.inputs.Keys {
      forall key | key in op1.inputs
        ensures SlotsIdentical(op1.inputs[key], op2.inputs[key]) ==
                SlotsIdentical(op2.inputs[key], op1.inputs[key])
      {
        match (op1.inputs[key], op2.inputs[key])
        case (One(v1), One(v2)) => VarsIdenticalSymmetric(v1, v2);
        case (Many(vs1), Many(vs2)) =>
          if |vs1| == |vs2| {
            forall i | 0 <= i < |vs1| { VarsIdenticalSymmetric(vs1[i], vs2[i]); }
          }
        case _ =>
      }
    }
  }

  /** Constant comparison is robust to representation: a numpy scalar, a
      Python scalar and a 0-d ndarray holding the same number are
      identical, but a one-element 1-d array is not (its shape differs).
      A one-element list is that 1-d array, not the scalar. */
  lemma ConstantRepresentations(v: real)
    ensures ValuesIdentical(NumpyScalar(v), PythonScalar(v))
    ensures ValuesIdentical(NumpyScalar(v), NdArray([], [v]))
    ensures !ValuesIdentical(NumpyScalar(v), NdArray([1], [v]))
    ensures ValuesIdentical(PySequence([v]), NdArray([1], [v]))
    ensures !ValuesIdentical(PySequence([v]), PythonScalar(v))
  {
  }

  /** Non-constant inputs are identical only by reference: two distinct
      non-constant Vars never are, however alike they look. */
  lemma NonConstantNeedsSameObject(v1: Var, v2: Var)
    requires v1.val.None? && v2.val.None?
    ensures VarsIdentical(v1, v2) <==> v1.id == v2.id
  {
  }
}
