/** The expression keys of src/opt/gvn.c: equal keys mean equal values. */
module GvnKeys {
  import opened Opcodes
  import opened IntFold
  import opened Ir
  import opened SccpLattice

  datatype Key = Key(opcode: Opcode, ty: nat, opCount: nat, op0: Operand, op1: Operand, op2: Operand)

  /** operand_equal: operands of kind global fall through its switch and are never equal. */
  predicate OperandEqual(a: Operand, b: Operand) {
    a == b && !a.OpGlobal?
  }

  predicate KeyEqual(a: Key, b: Key) {
    && a.opcode == b.opcode && a.ty == b.ty && a.opCount == b.opCount
    && (a.opCount > 0 ==> OperandEqual(a.op0, b.op0))
    && (a.opCount > 1 ==> OperandEqual(a.op1, b.op1))
    && (a.opCount > 2 ==> OperandEqual(a.op2, b.op2))
  }

  /** Commutative operands are put in order: values by number, values before anything else. */
  predicate Swaps(op: Opcode, a: Operand, b: Operand) {
    IsCommutative(op) && b.OpValue? && (a.OpValue? ==> a.val > b.val)
  }

  /** make_gvn_key. */
  function MakeKey(f: Function, inst: Instruction): Key {
    KeyOf(ResultType(f, inst), inst)
  }

  function KeyOf(ty: nat, inst: Instruction): Key {
    var n := |inst.ops|;
    var op0 := if n > 0 then inst.ops[0] else OpNone;
    var op1 := if n > 1 then inst.ops[1] else OpNone;
    var op2 := if n > 2 then inst.ops[2] else OpNone;
    if n == 2 && Swaps(inst.opcode, op0, op1) then Key(inst.opcode, ty, n, op1, op0, op2)
    else Key(inst.opcode, ty, n, op0, op1, op2)
  }

  /** An integer operation the pass may share: its key holds all its operands. */
  predicate IsCandidate(f: Function, inst: Instruction) {
    inst.result.Some? && IsGvnCandidate(inst.opcode) && !inst.isVolatile
  }

  predicate KeyIsWhole(f: Function, inst: Instruction) {
    |inst.ops| <= 3 && !IsFloat(inst.opcode) && WellTyped(f, inst)
  }

  function SwapTwo(ops: seq<Operand>): seq<Operand>
    requires |ops| == 2
  {
    [ops[1], ops[0]]
  }

  /** Equal keys come from the same operands, up to the order of a commutative pair. */
  lemma EqualKeysOperands(f: Function, a: Instruction, b: Instruction)
    requires |a.ops| <= 3 && KeyEqual(MakeKey(f, a), MakeKey(f, b))
    ensures a.opcode == b.opcode && ResultType(f, a) == ResultType(f, b) && |a.ops| == |b.ops|
    ensures b.ops == a.ops || (|a.ops| == 2 && IsCommutative(a.opcode) && b.ops == SwapTwo(a.ops))
  {
    hide IsCommutative, ResultType;
  }

  lemma {:induction false} BitwiseCommutes(op: BitOp, x: int, y: int)
    ensures Bitwise(op, x, y) == Bitwise(op, y, x)
    decreases Size(x) + Size(y)
  {
    if !(x == 0 || x == -1) || !(y == 0 || y == -1) {
      BitwiseCommutes(op, x / 2, y / 2);
    }
  }

  lemma MulCommutes(x: int, y: int)
    ensures x * y == y * x
  {
  }

  lemma EvalCommutes(op: Opcode, a: int, b: int, w: nat)
    requires IsCommutative(op) && !IsFloat(op) && w > 0
    ensures IsIntBinary(op) ==> EvalBinary(op, a, b, w) == EvalBinary(op, b, a, w)
    ensures IsIntCmp(op) ==> EvalCmp(op, a, b, w) == EvalCmp(op, b, a, w)
    ensures IsIntBinary(op) || IsIntCmp(op)
  {
    var x, y := Sext(a, w), Sext(b, w);
    MulCommutes(x, y);
    BitwiseCommutes(BitAnd, x, y);
    BitwiseCommutes(BitOr, x, y);
    BitwiseCommutes(BitXor, x, y);
    assert x + y == y + x;
    hide Sext, Bitwise, Unsigned, Pow2, Shl, Shr, RotL, RotR, TruncDiv, TruncRem;
  }

  /** Swapped operands of one width are compared at the same width. */
  lemma SwappedCmpWidth(f: Function, a: Instruction, b: Instruction)
    requires WellTyped(f, a) && WellTyped(f, b) && IsIntCmp(a.opcode) && a.opcode == b.opcode
    requires ResultType(f, a) == ResultType(f, b) && |a.ops| == 2 && b.ops == SwapTwo(a.ops)
    ensures CmpWidth(f, a) == CmpWidth(f, b)
  {
    CmpIsOnlyCmp(a.opcode);
    hide BitWidth, Fits;
    assert OperandFits(f, a.ops[0], CmpWidth(f, a)) && OperandFits(f, a.ops[1], CmpWidth(f, a));
    assert OperandFits(f, b.ops[0], CmpWidth(f, b)) && OperandFits(f, b.ops[1], CmpWidth(f, b));
  }

  lemma CmpIsOnlyCmp(op: Opcode)
    requires IsIntCmp(op)
    ensures op != CONST && !IsIntUnary(op) && !IsIntBinary(op) && op != SELECT && op != PHI
  {
  }

  lemma BinaryIsOnlyBinary(op: Opcode)
    requires IsIntBinary(op)
    ensures op != CONST && !IsIntUnary(op)
  {
  }

  /** A shared operation does not look at the outside world. */
  lemma CandidateIgnoresTrace(o: Oracle, op: Opcode, ty: nat, cw: nat, tys: seq<nat>, args: seq<Arg>, t: seq<Event>,
                              t': seq<Event>)
    requires IsGvnCandidate(op) && cw > 0
    ensures Compute(o, op, ty, cw, tys, args, t) == Compute(o, op, ty, cw, tys, args, t')
  {
    hide EvalUnary, EvalBinary, EvalCmp, BitWidth;
  }

  lemma TwoInts(a: Arg, b: Arg)
    ensures Ints([a, b], 2) <==> a.IntArg? && b.IntArg?
  {
    var args := [a, b];
    assert args[0] == a && args[1] == b;
  }

  /** Swapping the operands of a commutative operation keeps its result. */
  lemma ComputeCommutes(o: Oracle, op: Opcode, ty: nat, cw: nat, tys: seq<nat>, tys': seq<nat>, a: Arg, b: Arg,
                        t: seq<Event>)
    requires IsCommutative(op) && !IsFloat(op) && cw > 0
    ensures Compute(o, op, ty, cw, tys, [a, b], t) == Compute(o, op, ty, cw, tys', [b, a], t)
  {
    if a.IntArg? && b.IntArg? {
      EvalCommutes(op, a.i, b.i, BitWidth(ty));
      EvalCommutes(op, a.i, b.i, cw);
    }
    EvalCommutes(op, 0, 0, 8);
    hide EvalUnary, EvalBinary, EvalCmp, BitWidth, IsCommutative, IsFloat, IsIntUnary, IsGvnCandidate, IsTerminator;
    if IsIntBinary(op) { BinaryIsOnlyBinary(op); } else { CmpIsOnlyCmp(op); }
    TwoInts(a, b);
    TwoInts(b, a);
  }

  /** Two operations with equal keys compute the same value in the same environment. */
  lemma EqualKeysComputeAlike(f: Function, o: Oracle, a: Instruction, b: Instruction, env: Env, t: seq<Event>,
                              t': seq<Event>)
    requires KeyIsWhole(f, a) && KeyIsWhole(f, b) && IsGvnCandidate(a.opcode) && KeyEqual(MakeKey(f, a), MakeKey(f, b))
    requires AllReadable(a.ops, env)
    ensures AllReadable(b.ops, env) && ComputeAt(f, o, a, env, t) == ComputeAt(f, o, b, env, t')
    ensures ResultWidth(f, a) == ResultWidth(f, b)
  {
    EqualKeysOperands(f, a, b);
    hide Compute, MakeKey, KeyEqual, BitWidth, IsCommutative, IsFloat, IsGvnCandidate, WellTyped, IsIntBinary, IsIntCmp;
    if b.ops == a.ops {
      CandidateIgnoresTrace(o, a.opcode, ResultType(f, a), CmpWidth(f, a), OperandTypes(f, a.ops), ArgsOf(a.ops, env),
                            t, t');
    } else {
      EvalCommutes(a.opcode, 0, 0, 8);
      var x, y := ArgOf(a.ops[0], env), ArgOf(a.ops[1], env);
      assert ArgsOf(a.ops, env) == [x, y];
      assert ArgsOf(b.ops, env) == [y, x];
      CandidateIgnoresTrace(o, a.opcode, ResultType(f, a), CmpWidth(f, a), OperandTypes(f, a.ops), [x, y], t, t');
      ComputeCommutes(o, a.opcode, ResultType(f, a), CmpWidth(f, a), OperandTypes(f, a.ops), OperandTypes(f, b.ops), x,
                      y, t');
      if IsIntCmp(a.opcode) {
        SwappedCmpWidth(f, a, b);
      } else {
        BinaryIgnoresCmpWidth(o, a.opcode, ResultType(f, a), CmpWidth(f, a), CmpWidth(f, b), OperandTypes(f, b.ops),
                              [y, x], t');
      }
    }
  }

  lemma BinaryIgnoresCmpWidth(o: Oracle, op: Opcode, ty: nat, cw: nat, cw': nat, tys: seq<nat>, args: seq<Arg>,
                              t: seq<Event>)
    requires IsIntBinary(op) && cw > 0 && cw' > 0
    ensures Compute(o, op, ty, cw, tys, args, t) == Compute(o, op, ty, cw', tys, args, t)
  {
    hide EvalUnary, EvalBinary, EvalCmp, BitWidth;
  }
}
