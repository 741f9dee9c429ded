/**
 * The SSA functions of include/nybit/ir.h, restricted to what the middle end needs, and their run semantics.
 *
 * A block's linked instruction list is the sequence `code` of instruction ids here; FunctionStore relates the two.
 * PHIs read the environment at block entry. Loads, calls and other operations on the outside world take their
 * results from an oracle that sees the trace of effects so far.
 */
module Ir {
  import opened Opcodes
  import opened IntFold
  import opened Cfg

  datatype Operand =
    | OpNone
    | OpValue(val: nat)
    | OpBlock(blk: nat)
    | OpInt(imm: int)
    | OpFloat(bits: nat)
    | OpFunction(fn: nat)
    | OpSymbol(sym: nat)
    | OpGlobal(global: nat)
    | OpType(ty: nat)

  datatype Instruction = Instruction(opcode: Opcode, isVolatile: bool, result: Option<nat>, ops: seq<Operand>,
                                     block: nat)

  datatype ValueKind = InstructionValue | ArgumentValue | ConstantValue

  datatype Value = Value(ty: nat, kind: ValueKind, def: Option<nat>)

  datatype Block = Block(code: seq<nat>, preds: seq<nat>, succs: seq<nat>)

  datatype Function = Function(entry: nat, blocks: seq<Block>, insts: seq<Instruction>, vals: seq<Value>)

  /** ny_opt_get_type_bit_width (src/opt/common.c). */
  function BitWidth(ty: nat): (w: nat)
    ensures IsWidth(w)
  {
    match ty
    case 1 => 8
    case 2 => 16
    case 3 => 32
    case 4 => 64
    case 9 => 64
    case 6 => 16
    case 7 => 32
    case 8 => 64
    case _ => 32
  }

  function ValueType(f: Function, v: nat): nat {
    if v < |f.vals| then f.vals[v].ty else 0
  }

  function ValueWidth(f: Function, v: nat): (w: nat)
    ensures IsWidth(w)
  {
    BitWidth(ValueType(f, v))
  }

  function ResultType(f: Function, inst: Instruction): nat {
    if inst.result.Some? then ValueType(f, inst.result.value) else 0
  }

  function ResultWidth(f: Function, inst: Instruction): (w: nat)
    ensures IsWidth(w)
  {
    BitWidth(ResultType(f, inst))
  }

  /** The width of a comparison: that of its first operand when it is a value, else that of the result. */
  function CmpWidth(f: Function, inst: Instruction): (w: nat)
    ensures IsWidth(w)
  {
    if |inst.ops| > 0 && inst.ops[0].OpValue? && inst.ops[0].val < |f.vals| then ValueWidth(f, inst.ops[0].val)
    else ResultWidth(f, inst)
  }

  function OperandType(f: Function, op: Operand): nat {
    if op.OpValue? then ValueType(f, op.val) else 0
  }

  function OperandTypes(f: Function, ops: seq<Operand>): (tys: seq<nat>)
    ensures |tys| == |ops| && forall i :: 0 <= i < |ops| ==> tys[i] == OperandType(f, ops[i])
  {
    seq(|ops|, i requires 0 <= i < |ops| => OperandType(f, ops[i]))
  }

  /** Types and widths depend on the value table only. */
  lemma SameWidths(f: Function, g: Function, inst: Instruction)
    requires g.vals == f.vals
    ensures OperandTypes(g, inst.ops) == OperandTypes(f, inst.ops)
    ensures ResultType(g, inst) == ResultType(f, inst) && CmpWidth(g, inst) == CmpWidth(f, inst)
    ensures ResultWidth(g, inst) == ResultWidth(f, inst)
  {
  }

  // ---------------------------------------------------------------- run semantics

  datatype Arg = IntArg(i: int) | RefArg(op: Operand)

  /** An operation the outside world sees, with its result type, its operands and their types. */
  datatype Event = Event(opcode: Opcode, ty: nat, tys: seq<nat>, args: seq<Arg>)

  /**
   * Results of operations this model leaves open: pure ones by types and operands, others also by the effects so far.
   */
  datatype Oracle = Oracle(pure: (Opcode, nat, seq<nat>, seq<Arg>) -> int,
                           world: (Opcode, nat, seq<nat>, seq<Arg>, seq<Event>) -> int)

  type Env = map<nat, int>

  predicate Readable(op: Operand, env: Env) {
    op.OpValue? ==> op.val in env
  }

  predicate AllReadable(ops: seq<Operand>, env: Env) {
    forall i :: 0 <= i < |ops| ==> Readable(ops[i], env)
  }

  function ArgOf(op: Operand, env: Env): Arg
    requires Readable(op, env)
  {
    match op
    case OpValue(v) => IntArg(env[v])
    case OpInt(i) => IntArg(i)
    case _ => RefArg(op)
  }

  function ArgsOf(ops: seq<Operand>, env: Env): (args: seq<Arg>)
    requires AllReadable(ops, env)
    ensures |args| == |ops| && forall i :: 0 <= i < |ops| ==> args[i] == ArgOf(ops[i], env)
  {
    seq(|ops|, i requires 0 <= i < |ops| => ArgOf(ops[i], env))
  }

  /** Operations whose result depends on the world but do not change it, unless they are volatile. */
  predicate ReadsWorld(op: Opcode) {
    && !IsEffect(op) && !IsTerminator(op) && !IsGvnCandidate(op)
    && op != NONE && op != CONST && op != PHI
  }

  /** Executing the instruction is seen from outside. */
  predicate IsObservable(inst: Instruction) {
    IsEffect(inst.opcode) || (inst.isVolatile && ReadsWorld(inst.opcode))
  }

  predicate Ints(args: seq<Arg>, n: nat) {
    |args| == n && forall i :: 0 <= i < n ==> args[i].IntArg?
  }

  /** The raw result of a non-PHI, non-terminator operation; None where it has no meaning or traps. */
  function Compute(o: Oracle, op: Opcode, ty: nat, cmpWidth: nat, tys: seq<nat>, args: seq<Arg>,
                   trace: seq<Event>): Option<int>
    requires cmpWidth > 0
  {
    var w := BitWidth(ty);
    if op == CONST then if Ints(args, 1) then Some(args[0].i) else None
    else if IsIntUnary(op) then if Ints(args, 1) then EvalUnary(op, args[0].i, w) else None
    else if IsIntBinary(op) then if Ints(args, 2) then EvalBinary(op, args[0].i, args[1].i, w) else None
    else if IsIntCmp(op) then if Ints(args, 2) then EvalCmp(op, args[0].i, args[1].i, cmpWidth) else None
    else if op == SELECT then if Ints(args, 3) then Some(if args[0].i != 0 then args[1].i else args[2].i) else None
    else if op == NONE || op == PHI || IsTerminator(op) then None
    else if IsGvnCandidate(op) then Some(o.pure(op, ty, tys, args))
    else Some(o.world(op, ty, tys, args, trace))
  }

  datatype State = State(blk: nat, pc: nat, from: Option<nat>, entryEnv: Env, env: Env, trace: seq<Event>)

  datatype Outcome =
    | Running(s: State)
    | Returned(value: Option<Arg>, trace: seq<Event>)
    | Trapped(trace: seq<Event>)
    | Stuck

  /** The environment after inst stores its result, read at the width of the result's type. */
  function Store(f: Function, inst: Instruction, env: Env, x: int): Env {
    if inst.result.Some? then env[inst.result.value := Sext(x, ResultWidth(f, inst))] else env
  }

  function ComputeAt(f: Function, o: Oracle, inst: Instruction, env: Env, trace: seq<Event>): Option<int>
    requires AllReadable(inst.ops, env)
  {
    Compute(o, inst.opcode, ResultType(f, inst), CmpWidth(f, inst), OperandTypes(f, inst.ops), ArgsOf(inst.ops, env),
            trace)
  }

  function TraceAfter(f: Function, inst: Instruction, env: Env, trace: seq<Event>): seq<Event>
    requires AllReadable(inst.ops, env)
  {
    if IsObservable(inst) then
      trace + [Event(inst.opcode, ResultType(f, inst), OperandTypes(f, inst.ops), ArgsOf(inst.ops, env))]
    else trace
  }

  function ExecPlain(f: Function, o: Oracle, inst: Instruction, s: State): Outcome {
    if !AllReadable(inst.ops, s.env) then Stuck
    else
      var x := ComputeAt(f, o, inst, s.env, s.trace);
      if x.None? then Stuck
      else Running(s.(pc := s.pc + 1, env := Store(f, inst, s.env, x.value),
                      trace := TraceAfter(f, inst, s.env, s.trace)))
  }

  /** The operand a PHI selects for predecessor p: the first pair labelled p. */
  function PhiOperand(ops: seq<Operand>, p: nat): Option<Operand> {
    if |ops| < 2 then None
    else if ops[1] == OpBlock(p) then Some(ops[0])
    else PhiOperand(ops[2..], p)
  }

  /** What a PHI selects is one of its operands. */
  lemma {:induction false} PhiOperandIn(ops: seq<Operand>, p: nat)
    requires PhiOperand(ops, p).Some?
    ensures PhiOperand(ops, p).value in ops
  {
    if ops[1] != OpBlock(p) {
      PhiOperandIn(ops[2..], p);
    }
  }

  function ExecPhi(f: Function, inst: Instruction, s: State): Outcome {
    if s.from.None? then Stuck
    else
      var op := PhiOperand(inst.ops, s.from.value);
      if op.None? || !Readable(op.value, s.entryEnv) then Stuck
      else
        var a := ArgOf(op.value, s.entryEnv);
        if a.RefArg? then Stuck
        else Running(s.(pc := s.pc + 1, env := Store(f, inst, s.env, a.i)))
  }

  function Enter(f: Function, s: State, t: nat): Outcome {
    if t < |f.blocks| then Running(State(t, 0, Some(s.blk), s.env, s.env, s.trace)) else Stuck
  }

  predicate IsBranch(inst: Instruction) {
    inst.opcode == BRANCH && |inst.ops| == 1 && inst.ops[0].OpBlock?
  }

  predicate IsBranchIf(inst: Instruction) {
    inst.opcode == BRANCH_IF && |inst.ops| == 3 && inst.ops[1].OpBlock? && inst.ops[2].OpBlock?
  }

  function ExecTerminator(f: Function, inst: Instruction, s: State): Outcome {
    if IsBranch(inst) then Enter(f, s, inst.ops[0].blk)
    else if IsBranchIf(inst) then
      if !Readable(inst.ops[0], s.env) || ArgOf(inst.ops[0], s.env).RefArg? then Stuck
      else Enter(f, s, if ArgOf(inst.ops[0], s.env).i != 0 then inst.ops[1].blk else inst.ops[2].blk)
    else if inst.opcode == RETURN && |inst.ops| == 0 then Returned(None, s.trace)
    else if inst.opcode == RETURN && |inst.ops| == 1 && Readable(inst.ops[0], s.env) then
      Returned(Some(ArgOf(inst.ops[0], s.env)), s.trace)
    else if inst.opcode == TRAP then Trapped(s.trace)
    else Stuck
  }

  /** The instruction a state is about to execute. */
  predicate HasInst(f: Function, b: nat, pc: nat) {
    b < |f.blocks| && pc < |f.blocks[b].code| && f.blocks[b].code[pc] < |f.insts|
  }

  function InstAt(f: Function, b: nat, pc: nat): Instruction
    requires HasInst(f, b, pc)
  {
    f.insts[f.blocks[b].code[pc]]
  }

  /** A terminator has a meaning only at the end of its block. */
  function Step(f: Function, o: Oracle, s: State): Outcome {
    if !HasInst(f, s.blk, s.pc) then Stuck
    else
      var inst := InstAt(f, s.blk, s.pc);
      if IsTerminator(inst.opcode) then
        if s.pc + 1 == |f.blocks[s.blk].code| then ExecTerminator(f, inst, s) else Stuck
      else if inst.opcode == PHI then ExecPhi(f, inst, s)
      else ExecPlain(f, o, inst, s)
  }

  function Init(f: Function, args: Env): State {
    State(f.entry, 0, None, args, args, [])
  }

  function Run(f: Function, o: Oracle, args: Env, k: nat): Outcome {
    if k == 0 then Running(Init(f, args))
    else
      match Run(f, o, args, k - 1)
      case Running(s) => Step(f, o, s)
      case done => done
  }

  lemma PhiStepIs(f: Function, o: Oracle, st: State)
    requires HasInst(f, st.blk, st.pc) && InstAt(f, st.blk, st.pc).opcode == PHI && Step(f, o, st) != Stuck
    ensures var inst := InstAt(f, st.blk, st.pc);
            && st.from.Some? && PhiOperand(inst.ops, st.from.value).Some?
            && var op := PhiOperand(inst.ops, st.from.value).value;
            && Readable(op, st.entryEnv) && ArgOf(op, st.entryEnv).IntArg?
            && Step(f, o, st) == Running(st.(pc := st.pc + 1, env := Store(f, inst, st.env, ArgOf(op, st.entryEnv).i)))
  {
    PhiIsNoTerminator();
    hide PhiOperand, Store, IsTerminator;
  }

  /** A PHI that selects a readable integer stores it. */
  lemma PhiStores(f: Function, o: Oracle, st: State, op: Operand)
    requires HasInst(f, st.blk, st.pc) && InstAt(f, st.blk, st.pc).opcode == PHI && st.from.Some?
    requires PhiOperand(InstAt(f, st.blk, st.pc).ops, st.from.value) == Some(op)
    requires Readable(op, st.entryEnv) && ArgOf(op, st.entryEnv).IntArg?
    ensures Step(f, o, st) ==
            Running(st.(pc := st.pc + 1, env := Store(f, InstAt(f, st.blk, st.pc), st.env, ArgOf(op, st.entryEnv).i)))
  {
    PhiIsNoTerminator();
    hide PhiOperand, Store, IsTerminator;
  }

  /** What a CONST does. */
  lemma ConstStep(g: Function, o: Oracle, st: State, c: int)
    requires HasInst(g, st.blk, st.pc)
    requires var inst := InstAt(g, st.blk, st.pc); inst.opcode == CONST && inst.ops == [OpInt(c)] && inst.result.Some?
    ensures var inst := InstAt(g, st.blk, st.pc);
            Step(g, o, st) == Running(st.(pc := st.pc + 1,
                                          env := st.env[inst.result.value := Sext(c, ResultWidth(g, inst))]))
  {
    hide Sext, ResultWidth, BitWidth;
    var inst := InstAt(g, st.blk, st.pc);
    assert AllReadable(inst.ops, st.env);
    assert ArgsOf(inst.ops, st.env) == [IntArg(c)];
  }

  lemma PhiIsNoTerminator()
    ensures !IsTerminator(PHI) && !IsTerminator(CONST) && !IsTerminator(NONE)
  {
  }

  lemma PlainStepIs(f: Function, o: Oracle, st: State)
    requires HasInst(f, st.blk, st.pc) && Step(f, o, st) != Stuck
    requires InstAt(f, st.blk, st.pc).opcode != PHI && !IsTerminator(InstAt(f, st.blk, st.pc).opcode)
    ensures var inst := InstAt(f, st.blk, st.pc);
            && AllReadable(inst.ops, st.env) && ComputeAt(f, o, inst, st.env, st.trace).Some?
            && Step(f, o, st) == Running(st.(pc := st.pc + 1,
                                             env := Store(f, inst, st.env,
                                                          ComputeAt(f, o, inst, st.env, st.trace).value),
                                             trace := TraceAfter(f, inst, st.env, st.trace)))
  {
    hide Store, IsTerminator, AllReadable, ComputeAt, TraceAfter;
  }

  /** The environment holds exactly the arguments, each a number of its type's width. */
  ghost predicate GoodArgs(f: Function, args: Env) {
    && (forall v: nat :: v in args <==> v < |f.vals| && f.vals[v].kind == ArgumentValue)
    && EnvFits(f, args)
  }

  ghost predicate EnvFits(f: Function, env: Env) {
    forall v :: v in env ==> Fits(env[v], ValueWidth(f, v))
  }

  lemma StoreFits(f: Function, inst: Instruction, env: Env, x: int)
    requires EnvFits(f, env)
    ensures EnvFits(f, Store(f, inst, env, x))
  {
    SextFitsWidth(x, ResultWidth(f, inst));
  }

  /** Every value a run computes is a number of its type's width. */
  lemma StepFits(f: Function, o: Oracle, s: State)
    requires EnvFits(f, s.env) && Step(f, o, s).Running?
    ensures EnvFits(f, Step(f, o, s).s.env)
    ensures Step(f, o, s).s.entryEnv == s.entryEnv || Step(f, o, s).s.entryEnv == s.env
  {
    hide EnvFits, ComputeAt, PhiOperand, AllReadable, Store, TraceAfter, IsBranch, IsBranchIf;
    var inst := InstAt(f, s.blk, s.pc);
    if inst.opcode == PHI {
      StoreFits(f, inst, s.env, ArgOf(PhiOperand(inst.ops, s.from.value).value, s.entryEnv).i);
    } else if !IsTerminator(inst.opcode) {
      StoreFits(f, inst, s.env, ComputeAt(f, o, inst, s.env, s.trace).value);
    }
  }

  lemma {:induction false} RunFits(f: Function, o: Oracle, args: Env, k: nat)
    requires GoodArgs(f, args) && Run(f, o, args, k).Running?
    ensures EnvFits(f, Run(f, o, args, k).s.env) && EnvFits(f, Run(f, o, args, k).s.entryEnv)
  {
    hide Step, EnvFits;
    if k > 0 {
      RunFits(f, o, args, k - 1);
      StepFits(f, o, Run(f, o, args, k - 1).s);
    }
  }

  // ---------------------------------------------------------------- well-formed functions

  /** Block lists hold instruction ids, each at one place, and instructions know their block. */
  ghost predicate CodeOk(f: Function) {
    && f.entry < |f.blocks|
    && (forall b, k :: 0 <= b < |f.blocks| && 0 <= k < |f.blocks[b].code| ==>
          f.blocks[b].code[k] < |f.insts| && f.insts[f.blocks[b].code[k]].block == b)
    && (forall b, j, k :: 0 <= b < |f.blocks| && 0 <= j < k < |f.blocks[b].code| ==>
          f.blocks[b].code[j] != f.blocks[b].code[k])
  }

  /** Instruction i is in the list of its block. */
  ghost predicate Listed(f: Function, i: nat) {
    i < |f.insts| && f.insts[i].block < |f.blocks| && i in f.blocks[f.insts[i].block].code
  }

  /** A listed instruction's result is an instruction value that points back to it. */
  ghost predicate ResultsOk(f: Function) {
    forall i: nat :: Listed(f, i) && f.insts[i].result.Some? ==>
      var r := f.insts[i].result.value;
      r < |f.vals| && f.vals[r].kind == InstructionValue && f.vals[r].def == Some(i)
  }

  /** An instruction value's definition, where it has one, is listed and produces it. */
  ghost predicate DefsOk(f: Function) {
    forall v: nat ::
      v < |f.vals| && f.vals[v].kind == InstructionValue && f.vals[v].def.Some? && f.vals[v].def.value < |f.insts| ==>
        Listed(f, f.vals[v].def.value) && f.insts[f.vals[v].def.value].result == Some(v)
  }

  function GraphOf(f: Function): (g: Graph)
    ensures |g.succs| == |f.blocks| && |g.preds| == |f.blocks| && g.entry == f.entry
    ensures forall b :: 0 <= b < |f.blocks| ==> g.succs[b] == f.blocks[b].succs && g.preds[b] == f.blocks[b].preds
  {
    Graph(f.entry, seq(|f.blocks|, b requires 0 <= b < |f.blocks| => f.blocks[b].succs),
          seq(|f.blocks|, b requires 0 <= b < |f.blocks| => f.blocks[b].preds))
  }

  function Targets(inst: Instruction): set<nat> {
    if IsBranch(inst) then {inst.ops[0].blk}
    else if IsBranchIf(inst) then {inst.ops[1].blk, inst.ops[2].blk}
    else {}
  }

  /** The last instruction of block b, when there is one. */
  predicate HasLast(f: Function, b: nat) {
    b < |f.blocks| && |f.blocks[b].code| > 0 && HasInst(f, b, |f.blocks[b].code| - 1)
  }

  function Last(f: Function, b: nat): Instruction
    requires HasLast(f, b)
  {
    InstAt(f, b, |f.blocks[b].code| - 1)
  }

  function BlockTargets(f: Function, b: nat): set<nat> {
    if HasLast(f, b) then Targets(Last(f, b)) else {}
  }

  /** Edge lists mirror each other and the terminators. */
  ghost predicate EdgesOk(f: Function) {
    && WellFormed(GraphOf(f))
    && (forall b: nat, t: nat :: b < |f.blocks| ==> (t in f.blocks[b].succs <==> t in BlockTargets(f, b)))
  }
}
