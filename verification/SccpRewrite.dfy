/**
 * The rewriting half of src/opt/sccp.c: constant cells become CONST, decided BRANCH_IFs become BRANCH and the
 * dead edge goes. Runs do not notice.
 */
module SccpRewrite {
  import opened Opcodes
  import opened IntFold
  import opened Ir
  import opened IrEdit
  import opened SccpLattice
  import opened SccpSteps
  import opened Sccp
  import opened SccpSound

  // ---------------------------------------------------------------- what the pass does

  predicate ConstCell(f: Function, s: Facts, i: nat) {
    i < |f.insts| &&
    var inst := f.insts[i];
    && inst.opcode != NONE && inst.opcode != CONST && inst.result.Some?
    && inst.block < |s.exec| && s.exec[inst.block]
    && inst.result.value < |s.lat| && s.lat[inst.result.value].Constant?
  }

  function AsConst(f: Function, s: Facts, i: nat): Instruction
    requires ConstCell(f, s, i)
  {
    f.insts[i].(opcode := CONST, ops := [OpInt(s.lat[f.insts[i].result.value].c)])
  }

  /** Block b ends in a BRANCH_IF whose condition is known. */
  predicate FoldsBranch(f: Function, s: Facts, b: nat) {
    && b < |s.exec| && s.exec[b] && HasLast(f, b) && IsBranchIf(Last(f, b))
    && OperandLat(s.lat, Last(f, b).ops[0]).Constant?
  }

  function TakenBlock(f: Function, s: Facts, b: nat): nat
    requires FoldsBranch(f, s, b)
  {
    var term := Last(f, b);
    if OperandLat(s.lat, term.ops[0]).c != 0 then term.ops[1].blk else term.ops[2].blk
  }

  function DeadBlock(f: Function, s: Facts, b: nat): nat
    requires FoldsBranch(f, s, b)
  {
    var term := Last(f, b);
    if OperandLat(s.lat, term.ops[0]).c != 0 then term.ops[2].blk else term.ops[1].blk
  }

  function AsBranch(f: Function, s: Facts, b: nat): Instruction
    requires FoldsBranch(f, s, b)
  {
    Last(f, b).(opcode := BRANCH, ops := [OpBlock(TakenBlock(f, s, b))])
  }

  function LastId(f: Function, b: nat): (i: nat)
    requires HasLast(f, b)
    ensures i < |f.insts| && f.insts[i] == Last(f, b)
  {
    f.blocks[b].code[|f.blocks[b].code| - 1]
  }

  /** The first loop: constant cells. */
  function ConstsUpTo(f: Function, s: Facts, k: nat): (g: Function)
    ensures |g.insts| == |f.insts|
  {
    f.(insts := seq(|f.insts|, i requires 0 <= i < |f.insts| =>
                      if i < k && ConstCell(f, s, i) then AsConst(f, s, i) else f.insts[i]))
  }

  /** One turn of the second loop. */
  function FoldBranch(g: Function, s: Facts, b: nat): (r: Function)
    ensures |r.blocks| == |g.blocks|
  {
    if !FoldsBranch(g, s, b) then g
    else
      var dead := DeadBlock(g, s, b);
      var g' := WithInst(g, LastId(g, b), AsBranch(g, s, b));
      if dead < |g.blocks| then RemovePhiIncoming(RemoveEdge(g', b, dead), dead, b) else g'
  }

  function FoldBranches(g: Function, s: Facts, k: nat): (r: Function)
    ensures |r.blocks| == |g.blocks|
  {
    if k == 0 then g else FoldBranch(FoldBranches(g, s, k - 1), s, k - 1)
  }

  function Rewritten(f: Function, s: Facts): Function {
    FoldBranches(ConstsUpTo(f, s, |f.insts|), s, |f.blocks|)
  }

  // ---------------------------------------------------------------- runs do not notice

  /** The same instruction does the same in both functions. */
  lemma SameInstSameStep(f: Function, g: Function, o: Oracle, st: State)
    requires g.vals == f.vals && |g.blocks| == |f.blocks| && HasInst(f, st.blk, st.pc) && HasInst(g, st.blk, st.pc)
    requires g.blocks[st.blk].code == f.blocks[st.blk].code && InstAt(g, st.blk, st.pc) == InstAt(f, st.blk, st.pc)
    ensures Step(g, o, st) == Step(f, o, st)
  {
    var inst := InstAt(f, st.blk, st.pc);
    SameWidths(f, g, inst);
    hide IsTerminator, Compute, PhiOperand, IsObservable, ResultType, CmpWidth, ResultWidth, AllReadable, IsBranch,
      IsBranchIf;
    if !IsTerminator(inst.opcode) && inst.opcode != PHI {
      assert ExecPlain(g, o, inst, st) == ExecPlain(f, o, inst, st);
    }
  }

  /** Only integer operations, SELECT and PHI can have a constant cell, and they read something. */
  lemma ConstOpcode(f: Function, s: Facts, inst: Instruction)
    requires inst.result.Some? && inst.result.value < |f.vals| && inst.opcode != CONST
    requires EvalInstruction(f, inst, s.lat, s.edges).Constant?
    ensures IsIntUnary(inst.opcode) || IsIntBinary(inst.opcode) || IsIntCmp(inst.opcode) || inst.opcode == SELECT
            || inst.opcode == PHI
    ensures |inst.ops| > 0
  {
    hide FoldUnary, FoldBinary, FoldCmp, IsIntUnary, IsIntBinary, IsIntCmp;
    if inst.opcode != PHI && |inst.ops| == 1 {
      var l := OperandLat(s.lat, inst.ops[0]);
      FoldUnaryOnlyInts(inst.opcode, if l.Constant? then l.c else 0, ResultWidth(f, inst));
    } else if inst.opcode != PHI && |inst.ops| == 2 {
      var l, m := OperandLat(s.lat, inst.ops[0]), OperandLat(s.lat, inst.ops[1]);
      if l.Constant? && m.Constant? {
        FoldBinaryOnlyInts(inst.opcode, l.c, m.c, ResultWidth(f, inst));
        FoldCmpOnlyInts(inst.opcode, l.c, m.c, CmpWidth(f, inst));
      }
    }
  }

  lemma ConstOpcodeIsPlain(inst: Instruction)
    requires IsIntUnary(inst.opcode) || IsIntBinary(inst.opcode) || IsIntCmp(inst.opcode) || inst.opcode == SELECT
             || inst.opcode == PHI
    ensures !IsTerminator(inst.opcode) && !IsObservable(inst)
    ensures !IsTerminator(CONST) && !IsObservable(inst.(opcode := CONST, ops := [])) && !IsEffect(CONST)
            && !ReadsWorld(CONST)
  {
  }

  lemma ConstPhiEffect(f: Function, o: Oracle, s: Facts, st: State)
    requires IsFixpoint(f, s) && IntegerFunction(f) && StateSound(f, s, st) && HasInst(f, st.blk, st.pc)
    requires ConstCell(f, s, f.blocks[st.blk].code[st.pc]) && Step(f, o, st) != Stuck
    requires InstAt(f, st.blk, st.pc).opcode == PHI
    ensures var r := InstAt(f, st.blk, st.pc).result.value;
            Step(f, o, st) == Running(st.(pc := st.pc + 1, env := st.env[r := s.lat[r].c]))
  {
    InstFacts(f, s, st.blk, st.pc);
    InstTyped(f, f.blocks[st.blk].code[st.pc]);
    PhiStepIs(f, o, st);
    hide Step, EvalInstruction, IntegerFunction, IsFixpoint, Justified, EnvSound, EnvFits, Sext, PhiOperand, WellTyped,
      ResultWidth;
    PhiValue(f, s, InstAt(f, st.blk, st.pc), st.entryEnv, st.from.value);
  }

  lemma ConstPlainEffect(f: Function, o: Oracle, s: Facts, st: State)
    requires IsFixpoint(f, s) && IntegerFunction(f) && StateSound(f, s, st) && HasInst(f, st.blk, st.pc)
    requires ConstCell(f, s, f.blocks[st.blk].code[st.pc]) && Step(f, o, st) != Stuck
    requires var inst := InstAt(f, st.blk, st.pc);
             inst.opcode != PHI && !IsTerminator(inst.opcode) && !IsObservable(inst)
    ensures var r := InstAt(f, st.blk, st.pc).result.value;
            Step(f, o, st) == Running(st.(pc := st.pc + 1, env := st.env[r := s.lat[r].c]))
  {
    var inst := InstAt(f, st.blk, st.pc);
    InstFacts(f, s, st.blk, st.pc);
    InstTyped(f, f.blocks[st.blk].code[st.pc]);
    PlainStepIs(f, o, st);
    hide Step, EvalInstruction, IntegerFunction, IsFixpoint, Justified, EnvSound, EnvFits, Sext, ComputeAt, WellTyped,
      IsObservable, IsTerminator, AllReadable, ResultWidth;
    ComputeSound(f, o, inst, s.lat, s.edges, st.env, st.trace);
  }

  /** What the replaced instruction did in a run: store its constant and nothing else. */
  lemma ConstEffect(f: Function, o: Oracle, s: Facts, st: State)
    requires IsFixpoint(f, s) && IntegerFunction(f) && StateSound(f, s, st) && HasInst(f, st.blk, st.pc)
    requires ConstCell(f, s, f.blocks[st.blk].code[st.pc]) && Step(f, o, st) != Stuck
    ensures var r := InstAt(f, st.blk, st.pc).result.value;
            Step(f, o, st) == Running(st.(pc := st.pc + 1, env := st.env[r := s.lat[r].c]))
  {
    var inst := InstAt(f, st.blk, st.pc);
    InstFacts(f, s, st.blk, st.pc);
    ConstOpcode(f, s, inst) by { hide EvalInstruction; }
    ConstOpcodeIsPlain(inst);
    hide Step, StateSound, IsFixpoint, IntegerFunction, IsTerminator, IsObservable, EvalInstruction;
    if inst.opcode == PHI { ConstPhiEffect(f, o, s, st); } else { ConstPlainEffect(f, o, s, st); }
  }

  /** A constant cell holds a number of its value's width, once a run has got there. */
  lemma ConstFits(f: Function, o: Oracle, s: Facts, st: State)
    requires IsFixpoint(f, s) && IntegerFunction(f) && StateSound(f, s, st) && HasInst(f, st.blk, st.pc)
    requires ConstCell(f, s, f.blocks[st.blk].code[st.pc]) && Step(f, o, st) != Stuck
    ensures var inst := InstAt(f, st.blk, st.pc);
            var c := s.lat[inst.result.value].c;
            Sext(c, ResultWidth(f, inst)) == c
  {
    ConstEffect(f, o, s, st);
    hide Step, IsFixpoint, IntegerFunction, Fits, Sext;
    StepFits(f, o, st);
    var r := InstAt(f, st.blk, st.pc).result.value;
    assert Step(f, o, st).s.env[r] == s.lat[r].c;
    SextFits(s.lat[r].c, ValueWidth(f, r)) by { ValueOf(f, Step(f, o, st).s.env, r); }
    SameResultWidth(f, InstAt(f, st.blk, st.pc));
  }

  lemma ValueOf(f: Function, env: Env, r: nat)
    requires EnvFits(f, env) && r in env
    ensures Fits(env[r], ValueWidth(f, r))
  {
  }

  lemma SameResultWidth(f: Function, inst: Instruction)
    requires inst.result.Some?
    ensures ResultWidth(f, inst) == ValueWidth(f, inst.result.value)
  {
  }

  lemma ConstSame(f: Function, g: Function, o: Oracle, s: Facts, st: State)
    requires IsFixpoint(f, s) && IntegerFunction(f) && StateSound(f, s, st) && HasInst(f, st.blk, st.pc)
    requires ConstCell(f, s, f.blocks[st.blk].code[st.pc]) && Step(f, o, st) != Stuck
    requires g.vals == f.vals && HasInst(g, st.blk, st.pc)
    requires InstAt(g, st.blk, st.pc) == AsConst(f, s, f.blocks[st.blk].code[st.pc])
    ensures Step(g, o, st) == Step(f, o, st)
  {
    ConstEffect(f, o, s, st);
    ConstFits(f, o, s, st);
    var inst := InstAt(g, st.blk, st.pc);
    hide Step, IsFixpoint, IntegerFunction, Sext, StateSound;
    SameWidths(f, g, InstAt(f, st.blk, st.pc));
    ConstStep(g, o, st, s.lat[inst.result.value].c);
  }

  lemma BranchSame(f: Function, g: Function, o: Oracle, s: Facts, st: State)
    requires StateSound(f, s, st) && HasInst(f, st.blk, st.pc) && Step(f, o, st) != Stuck
    requires FoldsBranch(f, s, st.blk) && InstAt(f, st.blk, st.pc) == Last(f, st.blk)
    requires |g.blocks| == |f.blocks| && HasInst(g, st.blk, st.pc) && g.blocks[st.blk].code == f.blocks[st.blk].code
    requires InstAt(g, st.blk, st.pc) == AsBranch(f, s, st.blk)
    ensures Step(g, o, st) == Step(f, o, st)
  {
    assert Step(f, o, st) == ExecTerminator(f, Last(f, st.blk), st);
    TakenJustified(f, s, st);
  }

  lemma PhiSame(f: Function, g: Function, o: Oracle, st: State)
    requires HasInst(f, st.blk, st.pc) && InstAt(f, st.blk, st.pc).opcode == PHI && Step(f, o, st) != Stuck
    requires g.vals == f.vals && HasInst(g, st.blk, st.pc)
    requires InstAt(g, st.blk, st.pc) == InstAt(f, st.blk, st.pc).(ops := InstAt(g, st.blk, st.pc).ops)
    requires st.from.Some? ==>
             PhiOperand(InstAt(g, st.blk, st.pc).ops, st.from.value) ==
               PhiOperand(InstAt(f, st.blk, st.pc).ops, st.from.value)
    ensures Step(g, o, st) == Step(f, o, st)
  {
    hide PhiOperand, ResultWidth;
    SameWidths(f, g, InstAt(g, st.blk, st.pc));
    ResultOnly(f, InstAt(f, st.blk, st.pc), InstAt(g, st.blk, st.pc));
  }

  lemma ResultOnly(f: Function, a: Instruction, b: Instruction)
    requires a.result == b.result
    ensures ResultWidth(f, a) == ResultWidth(f, b)
  {
  }

  /** The same code, instruction ids and values. */
  ghost predicate SameFrame(f: Function, g: Function) {
    && g.entry == f.entry && g.vals == f.vals && |g.insts| == |f.insts| && |g.blocks| == |f.blocks|
    && (forall b :: 0 <= b < |f.blocks| ==> g.blocks[b].code == f.blocks[b].code)
  }

  /** Instruction i of a function rewritten from f, seen from a state entered by the edge from: it does what it did. */
  ghost predicate ActsAlike(f: Function, s: Facts, i: nat, inst: Instruction, from: Option<nat>)
    requires i < |f.insts|
  {
    || inst == f.insts[i]
    || (ConstCell(f, s, i) && inst == AsConst(f, s, i))
    || (FoldsBranch(f, s, f.insts[i].block) && i == LastId(f, f.insts[i].block)
        && inst == AsBranch(f, s, f.insts[i].block))
    || (f.insts[i].opcode == PHI && inst == f.insts[i].(ops := inst.ops)
        && (from.Some? ==> PhiOperand(inst.ops, from.value) == PhiOperand(f.insts[i].ops, from.value)))
  }

  /** A state the solution describes takes the same step where the instruction acts alike. */
  lemma StepSame(f: Function, g: Function, o: Oracle, s: Facts, st: State)
    requires IsFixpoint(f, s) && IntegerFunction(f) && StateSound(f, s, st) && SameFrame(f, g)
    requires HasInst(f, st.blk, st.pc)
             && ActsAlike(f, s, f.blocks[st.blk].code[st.pc], g.insts[f.blocks[st.blk].code[st.pc]], st.from)
    requires Step(f, o, st) != Stuck
    ensures Step(g, o, st) == Step(f, o, st)
  {
    assert st.blk < |f.blocks| && s.exec[st.blk];
    InstFacts(f, s, st.blk, st.pc);
    var i := f.blocks[st.blk].code[st.pc];
    assert HasInst(g, st.blk, st.pc) && InstAt(g, st.blk, st.pc) == g.insts[i];
    if FoldsBranch(f, s, st.blk) && i == LastId(f, st.blk) && g.insts[i] == AsBranch(f, s, st.blk)
      && g.insts[i] != f.insts[i] {
      BranchSame(f, g, o, s, st);
    } else {
      hide Step, IsFixpoint, IntegerFunction, StateSound, SameFrame, FoldsBranch, ConstCell, Listed;
      SameCode(f, g, st.blk);
      if g.insts[i] == f.insts[i] {
        SameInstSameStep(f, g, o, st);
      } else if ConstCell(f, s, i) && g.insts[i] == AsConst(f, s, i) {
        ConstSame(f, g, o, s, st);
      } else {
        PhiSame(f, g, o, st);
      }
    }
  }

  lemma SameCode(f: Function, g: Function, b: nat)
    requires SameFrame(f, g) && b < |f.blocks|
    ensures g.vals == f.vals && |g.blocks| == |f.blocks| && g.blocks[b].code == f.blocks[b].code
  {
  }

  // ---------------------------------------------------------------- terminators stay

  lemma FixpointCode(f: Function, s: Facts)
    requires IsFixpoint(f, s)
    ensures CodeOk(f)
  {
  }

  /** A terminator never has a constant cell. */
  lemma LastConst(f: Function, s: Facts, b: nat)
    requires IsFixpoint(f, s) && HasLast(f, b)
    ensures ConstCell(f, s, LastId(f, b)) ==> !IsTerminator(Last(f, b).opcode)
  {
    if ConstCell(f, s, LastId(f, b)) {
      LastBlock(f, b);
      InstFacts(f, s, b, |f.blocks[b].code| - 1);
      hide EvalInstruction;
      ConstOpcode(f, s, Last(f, b));
      ConstOpcodeIsPlain(Last(f, b));
    }
  }
}
