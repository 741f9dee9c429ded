/** The lattice of src/opt/sccp.c and the abstract evaluation of one instruction, with its monotonicity. */
module SccpLattice {
  import opened Opcodes
  import opened IntFold
  import opened Ir

  /** Top: no value seen yet. Constant: always this value. Bottom: anything. */
  datatype Lat = Top | Constant(c: int) | Bottom

  type Edges = seq<(nat, nat)>

  /** lat_meet. */
  function Meet(a: Lat, b: Lat): (m: Lat)
    ensures Below(m, a) && Below(m, b)
    ensures forall l :: Below(l, a) && Below(l, b) ==> Below(l, m)
  {
    if a == Top then b
    else if b == Top then a
    else if a == Bottom || b == Bottom then Bottom
    else if a.c == b.c then a
    else Bottom
  }

  /** a is lower than b, or equal. */
  predicate Below(a: Lat, b: Lat) {
    a == b || b == Top || a == Bottom
  }

  /** x is among the values l stands for. */
  predicate Denotes(l: Lat, x: int) {
    l == Bottom || l == Constant(x)
  }

  /** get_operand_lat. */
  function OperandLat(lat: seq<Lat>, op: Operand): Lat {
    match op
    case OpInt(i) => Constant(i)
    case OpValue(v) => if v < |lat| then lat[v] else Bottom
    case _ => Bottom
  }

  /** The PHI loop: the meet over the pairs whose edge into block b is executable. */
  function PhiMeet(ops: seq<Operand>, lat: seq<Lat>, edges: Edges, b: nat): Lat {
    if |ops| < 2 then Top
    else
      var rest := PhiMeet(ops[2..], lat, edges, b);
      if ops[1].OpBlock? && (ops[1].blk, b) in edges then Meet(OperandLat(lat, ops[0]), rest) else rest
  }

  function FromFold(r: Option<int>): Lat {
    if r.Some? then Constant(r.value) else Bottom
  }

  function EvalOne(op: Opcode, a: Lat, w: nat): Lat {
    if a == Bottom then Bottom
    else if a == Top then Top
    else FromFold(FoldUnary(op, a.c, w))
  }

  function EvalTwo(op: Opcode, a: Lat, b: Lat, w: nat, cmpWidth: nat): Lat {
    if a == Bottom || b == Bottom then Bottom
    else if a == Top || b == Top then Top
    else
      var r := FoldBinary(op, a.c, b.c, w);
      if r.Some? then Constant(r.value) else FromFold(FoldCmp(op, a.c, b.c, cmpWidth))
  }

  function EvalSelect(cond: Lat, t: Lat, e: Lat): Lat {
    match cond
    case Constant(c) => if c != 0 then t else e
    case Bottom => Meet(t, e)
    case Top => Top
  }

  /** eval_instruction. */
  function EvalInstruction(f: Function, inst: Instruction, lat: seq<Lat>, edges: Edges): Lat {
    if inst.opcode == CONST then
      if |inst.ops| == 1 && inst.ops[0].OpInt? then Constant(inst.ops[0].imm) else Bottom
    else if inst.result.None? || inst.result.value >= |f.vals| then Bottom
    else if inst.opcode == PHI then PhiMeet(inst.ops, lat, edges, inst.block)
    else if |inst.ops| == 1 then EvalOne(inst.opcode, OperandLat(lat, inst.ops[0]), ResultWidth(f, inst))
    else if |inst.ops| == 2 then
      EvalTwo(inst.opcode, OperandLat(lat, inst.ops[0]), OperandLat(lat, inst.ops[1]), ResultWidth(f, inst),
              CmpWidth(f, inst))
    else if inst.opcode == SELECT && |inst.ops| == 3 then
      EvalSelect(OperandLat(lat, inst.ops[0]), OperandLat(lat, inst.ops[1]), OperandLat(lat, inst.ops[2]))
    else Bottom
  }

  // ---------------------------------------------------------------- monotonicity

  ghost predicate LatBelow(lat': seq<Lat>, lat: seq<Lat>) {
    |lat'| == |lat| && forall v :: 0 <= v < |lat| ==> Below(lat'[v], lat[v])
  }

  ghost predicate EdgesWithin(e: Edges, e': Edges) {
    forall p :: p in e ==> p in e'
  }

  lemma OperandMonotone(lat': seq<Lat>, lat: seq<Lat>, op: Operand)
    requires LatBelow(lat', lat)
    ensures Below(OperandLat(lat', op), OperandLat(lat, op))
  {
  }

  lemma {:induction false} PhiMonotone(ops: seq<Operand>, lat': seq<Lat>, lat: seq<Lat>, e': Edges, e: Edges, b: nat)
    requires LatBelow(lat', lat) && EdgesWithin(e, e')
    ensures Below(PhiMeet(ops, lat', e', b), PhiMeet(ops, lat, e, b))
  {
    if |ops| >= 2 {
      PhiMonotone(ops[2..], lat', lat, e', e, b);
      OperandMonotone(lat', lat, ops[0]);
    }
  }

  /** Lower operands and more executable edges give a lower result, although SELECT inspects its condition. */
  lemma EvalMonotone(f: Function, inst: Instruction, lat': seq<Lat>, lat: seq<Lat>, e': Edges, e: Edges)
    requires LatBelow(lat', lat) && EdgesWithin(e, e')
    ensures Below(EvalInstruction(f, inst, lat', e'), EvalInstruction(f, inst, lat, e))
  {
    hide FoldUnary, FoldBinary, FoldCmp, PhiMeet;
    if inst.opcode == PHI {
      PhiMonotone(inst.ops, lat', lat, e', e, inst.block);
    }
    forall i | 0 <= i < |inst.ops| ensures Below(OperandLat(lat', inst.ops[i]), OperandLat(lat, inst.ops[i])) {
      OperandMonotone(lat', lat, inst.ops[i]);
    }
  }

  /** The evaluation reads the cells of the operands only. */
  lemma {:induction false} PhiFrame(ops: seq<Operand>, lat': seq<Lat>, lat: seq<Lat>, e': Edges, e: Edges, b: nat)
    requires forall i :: 0 <= i < |ops| ==> OperandLat(lat', ops[i]) == OperandLat(lat, ops[i])
    requires forall u: nat :: (u, b) in e' <==> (u, b) in e
    ensures PhiMeet(ops, lat', e', b) == PhiMeet(ops, lat, e, b)
  {
    if |ops| >= 2 { PhiFrame(ops[2..], lat', lat, e', e, b); }
  }

  lemma EvalFrame(f: Function, inst: Instruction, lat': seq<Lat>, lat: seq<Lat>, e': Edges, e: Edges)
    requires forall i :: 0 <= i < |inst.ops| ==> OperandLat(lat', inst.ops[i]) == OperandLat(lat, inst.ops[i])
    requires forall u: nat :: (u, inst.block) in e' <==> (u, inst.block) in e
    ensures EvalInstruction(f, inst, lat', e') == EvalInstruction(f, inst, lat, e)
  {
    hide FoldUnary, FoldBinary, FoldCmp, PhiMeet;
    PhiFrame(inst.ops, lat', lat, e', e, inst.block);
  }

  /** The meet lies below the operand of every pair whose edge is executable. */
  lemma {:induction false} PhiMeetBelow(ops: seq<Operand>, lat: seq<Lat>, edges: Edges, b: nat, p: nat)
    requires PhiOperand(ops, p).Some? && (p, b) in edges
    ensures Below(PhiMeet(ops, lat, edges, b), OperandLat(lat, PhiOperand(ops, p).value))
  {
    if ops[1] != OpBlock(p) { PhiMeetBelow(ops[2..], lat, edges, b, p); }
  }

  // ---------------------------------------------------------------- typed operands

  predicate OperandFits(f: Function, op: Operand, w: nat)
    requires w > 0
  {
    match op
    case OpValue(v) => ValueWidth(f, v) == w
    case OpInt(i) => Fits(i, w)
    case _ => true
  }

  /** Integer operands have the width at which the operation reads them; immediates are sign-extended. */
  predicate WellTyped(f: Function, inst: Instruction) {
    var w := ResultWidth(f, inst);
    if inst.opcode == CONST || IsIntUnary(inst.opcode) || IsIntBinary(inst.opcode) then
      forall i :: 0 <= i < |inst.ops| ==> OperandFits(f, inst.ops[i], w)
    else if IsIntCmp(inst.opcode) then
      forall i :: 0 <= i < |inst.ops| ==> OperandFits(f, inst.ops[i], CmpWidth(f, inst))
    else if inst.opcode == SELECT then
      forall i :: 1 <= i < |inst.ops| ==> OperandFits(f, inst.ops[i], w)
    else if inst.opcode == PHI then
      forall i :: 0 <= i < |inst.ops| ==> OperandFits(f, inst.ops[i], w)
    else true
  }

  /** A well-typed function without floating-point immediates. */
  ghost predicate IntegerFunction(f: Function) {
    forall i: nat :: i < |f.insts| ==>
      WellTyped(f, f.insts[i]) && forall k :: 0 <= k < |f.insts[i].ops| ==> !f.insts[i].ops[k].OpFloat?
  }

  /** The environment agrees with the lattice. */
  ghost predicate EnvSound(lat: seq<Lat>, env: Env) {
    forall v: nat :: v in env ==> v < |lat| && Denotes(lat[v], env[v])
  }

  lemma OperandSound(f: Function, lat: seq<Lat>, env: Env, op: Operand, w: nat)
    requires EnvSound(lat, env) && EnvFits(f, env) && Readable(op, env) && w > 0
    ensures ArgOf(op, env).IntArg? ==> Denotes(OperandLat(lat, op), ArgOf(op, env).i)
    ensures ArgOf(op, env).IntArg? && OperandFits(f, op, w) ==> Fits(ArgOf(op, env).i, w)
    ensures ArgOf(op, env).RefArg? ==> OperandLat(lat, op) == Bottom
  {
  }

  lemma FoldUnaryOnlyInts(op: Opcode, a: int, w: nat)
    ensures FoldUnary(op, a, w).Some? <==> IsIntUnary(op)
  {
    hide SignExtendWidth, Wrap64;
  }

  lemma FoldBinaryOnlyInts(op: Opcode, a: int, b: int, w: nat)
    ensures FoldBinary(op, a, b, w).Some? ==> IsIntBinary(op)
  {
    hide Bitwise, SignExtendWidth, Wrap64, U64, MaskToWidth, ShiftAmount, TruncDiv, TruncRem, Shl, Shr, Unsigned,
      RotateLeft64, RotateRight64;
  }

  lemma FoldCmpOnlyInts(op: Opcode, a: int, b: int, w: nat)
    ensures FoldCmp(op, a, b, w).Some? <==> IsIntCmp(op)
  {
    hide Bitwise, SignExtendWidth, U64, MaskToWidth, Unsigned, Flag;
  }

  lemma BinaryIsNotCmp(op: Opcode)
    requires IsIntBinary(op)
    ensures !IsIntCmp(op) && !IsIntUnary(op)
  {
  }

  /** A denoted operand of a unary operation: the abstract result denotes the concrete one. */
  lemma OneSound(op: Opcode, l: Lat, a: int, w: nat)
    requires IsWidth(w) && Denotes(l, a)
    ensures !IsIntUnary(op) ==> EvalOne(op, l, w) == Bottom
    ensures IsIntUnary(op) && Fits(a, w) && EvalUnary(op, a, w).Some? ==>
              Denotes(EvalOne(op, l, w), Sext(EvalUnary(op, a, w).value, w))
  {
    hide Fits, Sext, FoldUnary, EvalUnary, IsIntUnary;
    FoldUnaryOnlyInts(op, a, w);
    if IsIntUnary(op) && Fits(a, w) && EvalUnary(op, a, w).Some? {
      FitsWider(a, w);
      UnaryMeans(op, a, w);
      UnaryFits(op, a, w);
      SextFits(EvalUnary(op, a, w).value, w);
    }
  }

  lemma TwoSound(op: Opcode, l: Lat, m: Lat, a: int, b: int, w: nat, cw: nat)
    requires IsWidth(w) && IsWidth(cw) && Denotes(l, a) && Denotes(m, b)
    ensures !IsIntBinary(op) && !IsIntCmp(op) ==> EvalTwo(op, l, m, w, cw) == Bottom
    ensures IsIntBinary(op) && Fits(a, w) && Fits(b, w) && EvalBinary(op, a, b, w).Some? ==>
              Denotes(EvalTwo(op, l, m, w, cw), Sext(EvalBinary(op, a, b, w).value, w))
    ensures IsIntCmp(op) && Fits(a, cw) && Fits(b, cw) && EvalCmp(op, a, b, cw).Some? ==>
              Denotes(EvalTwo(op, l, m, w, cw), Sext(EvalCmp(op, a, b, cw).value, w))
  {
    hide Fits, Sext, FoldBinary, FoldCmp, EvalBinary, EvalCmp, IsIntBinary, IsIntCmp, IsIntUnary;
    FoldBinaryOnlyInts(op, a, b, w);
    FoldCmpOnlyInts(op, a, b, cw);
    if IsIntBinary(op) { BinaryIsNotCmp(op); }
    if IsIntBinary(op) && Fits(a, w) && Fits(b, w) && EvalBinary(op, a, b, w).Some? {
      FoldBinaryIsTwosComplement(op, a, b, w);
      BinaryFits(op, a, b, w);
      SextFits(EvalBinary(op, a, b, w).value, w);
    }
    if IsIntCmp(op) && Fits(a, cw) && Fits(b, cw) && EvalCmp(op, a, b, cw).Some? {
      FitsWider(a, cw);
      FitsWider(b, cw);
      FoldCmpIsTwosComplement(op, a, b, cw);
      CmpFits(op, a, b, w, cw);
      SextFits(EvalCmp(op, a, b, cw).value, w);
    }
  }

  /** One operation computes a value its abstract result stands for. */
  lemma ComputeSound(f: Function, o: Oracle, inst: Instruction, lat: seq<Lat>, edges: Edges, env: Env,
                     trace: seq<Event>)
    requires EnvSound(lat, env) && EnvFits(f, env) && AllReadable(inst.ops, env)
    requires WellTyped(f, inst) && inst.result.Some? && inst.result.value < |f.vals|
    requires inst.opcode != PHI && ComputeAt(f, o, inst, env, trace).Some?
    ensures Denotes(EvalInstruction(f, inst, lat, edges),
                    Sext(ComputeAt(f, o, inst, env, trace).value, ResultWidth(f, inst)))
  {
    hide Fits, Sext, EvalOne, EvalTwo, EvalUnary, EvalBinary, EvalCmp, CmpWidth, EnvFits, EnvSound, BitWidth;
    var op, w, cw, ops := inst.opcode, ResultWidth(f, inst), CmpWidth(f, inst), inst.ops;
    if op == CONST {
      if ops[0].OpInt? { SextFits(ops[0].imm, w); }
    } else if |ops| == 1 {
      var a := ArgOf(ops[0], env);
      OperandSound(f, lat, env, ops[0], w);
      if a.IntArg? { OneSound(op, OperandLat(lat, ops[0]), a.i, w); } else { OneBottom(op, w); }
    } else if |ops| == 2 {
      var a, b := ArgOf(ops[0], env), ArgOf(ops[1], env);
      var l, m := OperandLat(lat, ops[0]), OperandLat(lat, ops[1]);
      OperandSound(f, lat, env, ops[0], w);
      OperandSound(f, lat, env, ops[1], w);
      OperandSound(f, lat, env, ops[0], cw);
      OperandSound(f, lat, env, ops[1], cw);
      if a.IntArg? && b.IntArg? { TwoSound(op, l, m, a.i, b.i, w, cw); } else { TwoBottom(op, l, m, w, cw); }
    } else if op == SELECT && |ops| == 3 {
      SelectSound(f, lat, env, ops, w);
    }
  }

  lemma OneBottom(op: Opcode, w: nat)
    ensures EvalOne(op, Bottom, w) == Bottom
  {
  }

  lemma TwoBottom(op: Opcode, l: Lat, m: Lat, w: nat, cw: nat)
    requires l == Bottom || m == Bottom
    ensures EvalTwo(op, l, m, w, cw) == Bottom
  {
  }

  lemma SelectSound(f: Function, lat: seq<Lat>, env: Env, ops: seq<Operand>, w: nat)
    requires EnvSound(lat, env) && EnvFits(f, env) && AllReadable(ops, env) && |ops| == 3 && IsWidth(w)
    requires OperandFits(f, ops[1], w) && OperandFits(f, ops[2], w) && Ints(ArgsOf(ops, env), 3)
    ensures var args := ArgsOf(ops, env);
            Denotes(EvalSelect(OperandLat(lat, ops[0]), OperandLat(lat, ops[1]), OperandLat(lat, ops[2])),
                    Sext(if args[0].i != 0 then args[1].i else args[2].i, w))
  {
    hide Fits, Sext, EnvFits, EnvSound;
    forall i | 0 <= i < 3
      ensures Denotes(OperandLat(lat, ops[i]), ArgsOf(ops, env)[i].i)
      ensures OperandFits(f, ops[i], w) ==> Sext(ArgsOf(ops, env)[i].i, w) == ArgsOf(ops, env)[i].i
    {
      OperandSound(f, lat, env, ops[i], w);
      if OperandFits(f, ops[i], w) { SextFits(ArgsOf(ops, env)[i].i, w); }
    }
  }
}
