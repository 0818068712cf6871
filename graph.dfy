/** The parts of the MIL intermediate representation that the pass helpers
    and the compression passes read: values (`Var`), operations (`Op`),
    the structure of blocks (`BlockBody`), and the mutable scope state of a
    block (`Block`).  Object identity, which the source tests with `==` on
    `Var` and `Operation` objects, is modelled by the `id` fields. */
module Graph {
  import opened Base

  /** Element type tag of a value. */
  datatype DType = Fp16 | Fp32 | Int8 | UInt8 | Int32 | Int64 | Bool | OtherDType(name: string)

  /** The Python object held as a Var's constant payload, tagged by kind.
      For an ndarray, `elems` is its contents in flatten (row-major) order
      and `shape` its dimensions; its size is the number of elements.
      Element values are exact reals: no floating-point rounding. */
  datatype Payload =
    | NdArray(shape: seq<nat>, elems: seq<real>)
    | NumpyScalar(v: real)        // an np.generic such as np.float32(1.0)
    | PythonScalar(v: real)       // a plain Python int or float
    | PyString(s: string)         // a Python str or bytes object
    | PySequence(items: seq<real>) // a Python list or tuple of numbers
    | Other(tag: nat)             // any other object (a dict, a nested list, ...)

  /** A consumer of a Var, as seen from the Var: its identity and op type. */
  datatype ChildOp = ChildOp(id: nat, opType: string)

  /** A value: its identity, optional constant payload, dtype and consumers. */
  datatype Var = Var(id: nat, val: Option<Payload>, dtype: DType, childOps: seq<ChildOp>)

  /** An input slot binds either one Var or a list/tuple of Vars. */
  datatype Input = One(v: Var) | Many(vs: seq<Var>)

  /** An operation: identity, op type, named input slots, outputs and the
      nested blocks of a control-flow op. */
  datatype Op = Op(id: nat, opType: string, inputs: map<string, Input>,
                   outputs: seq<Var>, blocks: seq<BlockBody>)

  /** The structure of a block: its identity and its operations in order. */
  datatype BlockBody = BlockBody(id: nat, operations: seq<Op>)

  /** What happens to a block's scope, in order. */
  datatype ScopeEvent =
    | Entered              // `with block:` opened
    | Body(depth: nat, nested: nat)
      // the guarded routine ran at this scope depth, and itself opened
      // and closed `nested` scopes of the same block
    | Exited               // `with block:` closed, propagation ran

  /** The mutable state of a block that `with block:` touches.  How the
      nonreplaceable-var propagation works is not part of this model: it
      is counted in `propagations`, one per scope exit. */
  class Block {
    const id: nat
    var outputs: set<nat>        // ids of the block's output Vars
    var depth: nat               // number of `with block:` scopes now open
    var propagations: nat        // times propagation has run
    var history: seq<ScopeEvent>

    constructor (id: nat, outputs: set<nat>)
      ensures this.id == id && this.outputs == outputs
      ensures depth == 0 && propagations == 0 && history == []
    {
      this.id := id;
      this.outputs := outputs;
      depth := 0;
      propagations := 0;
      history := [];
    }

    /** `Block.__enter__`: open one more scope. */
    method Enter()
      modifies this
      ensures depth == old(depth) + 1
      ensures history == old(history) + [Entered]
      ensures outputs == old(outputs) && propagations == old(propagations)
    {
      depth := depth + 1;
      history := history + [Entered];
    }

    /** The guarded routine runs inside the open scope.  The routine is
        not visible here, so what it does to the block is given: the
        block's outputs when it is done (graph surgery such as
        `replace_uses_of_var_after_op` may replace them), and the number
        of scopes of this block it opened and closed itself by calling
        another guarded routine on it, each exit running propagation.
        It leaves as many scopes open as it found. */
    method RunBody(newOutputs: set<nat>, nested: nat)
      modifies this
      ensures history == old(history) + [Body(depth, nested)]
      ensures depth == old(depth)
      ensures outputs == newOutputs
      ensures propagations == old(propagations) + nested
    {
      outputs := newOutputs;
      propagations := propagations + nested;
      history := history + [Body(depth, nested)];
    }

    /** `Block.__exit__`: close the scope and run propagation once. */
    method Exit()
      requires depth > 0
      modifies this
      ensures depth == old(depth) - 1
      ensures propagations == old(propagations) + 1
      ensures history == old(history) + [Exited]
      ensures outputs == old(outputs)
    {
      depth := depth - 1;
      propagations := propagations + 1;
      history := history + [Exited];
    }
  }
}
