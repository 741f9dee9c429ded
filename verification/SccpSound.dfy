/** A solution of the equations of src/opt/sccp.c describes every run: no state of a run contradicts it. */
module SccpSound {
  import opened Opcodes
  import opened IntFold
  import opened Ir
  import opened SccpLattice
  import opened SccpSteps
  import opened Sccp

  /** The final cells let control pass from p to t. */
  ghost predicate Justified(f: Function, s: Facts, p: nat, t: nat) {
    && p < |s.exec| && s.exec[p] && HasLast(f, p) &&
    var term := Last(f, p);
    if IsBranch(term) then t == term.ops[0].blk
    else if IsBranchIf(term) then
      match OperandLat(s.lat, term.ops[0])
      case Constant(c) => t == if c != 0 then term.ops[1].blk else term.ops[2].blk
      case Bottom => t == term.ops[1].blk || t == term.ops[2].blk
      case Top => false
    else false
  }

  /** A state of a run that the solution describes. */
  ghost predicate StateSound(f: Function, s: Facts, st: State) {
    && st.blk < |s.exec| && s.exec[st.blk]
    && EnvSound(s.lat, st.env) && EnvSound(s.lat, st.entryEnv)
    && EnvFits(f, st.env) && EnvFits(f, st.entryEnv)
    && (st.from.Some? ==> Justified(f, s, st.from.value, st.blk))
  }

  lemma JustifiedMarked(f: Function, s: Facts, p: nat, t: nat)
    requires IsFixpoint(f, s) && Justified(f, s, p, t)
    ensures (p, t) in s.edges && (t < |s.exec| ==> s.exec[t])
  {
    assert TermSettled(f, s, p);
    hide CodeOk, ResultsOk;
    assert (p, t) in s.edges;
    assert EdgeOk(f, s, (p, t));
  }

  lemma InstFacts(f: Function, s: Facts, b: nat, pc: nat)
    requires IsFixpoint(f, s) && b < |f.blocks| && s.exec[b] && HasInst(f, b, pc)
    ensures var i := f.blocks[b].code[pc];
            Listed(f, i) && f.insts[i].block == b && InstSettled(f, s, i)
    ensures var r := InstAt(f, b, pc).result; r.Some? ==> r.value < |f.vals|
  {
    hide EvalInstruction;
    var i := f.blocks[b].code[pc];
    assert i in f.blocks[b].code;
    assert Listed(f, i);
  }

  lemma StoreSound(f: Function, lat: seq<Lat>, inst: Instruction, env: Env, x: int)
    requires EnvSound(lat, env)
    requires inst.result.Some? ==>
             inst.result.value < |lat| && Denotes(lat[inst.result.value], Sext(x, ResultWidth(f, inst)))
    ensures EnvSound(lat, Store(f, inst, env, x))
  {
    hide Sext;
  }

  lemma PlainSound(f: Function, o: Oracle, s: Facts, st: State)
    requires IsFixpoint(f, s) && IntegerFunction(f) && StateSound(f, s, st)
    requires HasInst(f, st.blk, st.pc) && Step(f, o, st).Running?
    requires InstAt(f, st.blk, st.pc).opcode != PHI && !IsTerminator(InstAt(f, st.blk, st.pc).opcode)
    ensures StateSound(f, s, Step(f, o, st).s)
  {
    var inst := InstAt(f, st.blk, st.pc);
    InstFacts(f, s, st.blk, st.pc);
    var x := ComputeAt(f, o, inst, st.env, st.trace).value;
    hide Compute, EvalInstruction, IntegerFunction, CodeOk, ResultsOk, Justified, EnvSound, EnvFits, TraceAfter,
      ComputeAt;
    if inst.result.Some? {
      InstTyped(f, f.blocks[st.blk].code[st.pc]);
      ComputeSound(f, o, inst, s.lat, s.edges, st.env, st.trace);
    }
    StoreSound(f, s.lat, inst, st.env, x);
    StoreFits(f, inst, st.env, x);
  }

  lemma InstTyped(f: Function, i: nat)
    requires IntegerFunction(f) && i < |f.insts|
    ensures WellTyped(f, f.insts[i])
  {
  }

  /** The value a PHI selects along a justified edge. */
  lemma PhiValue(f: Function, s: Facts, inst: Instruction, env: Env, p: nat)
    requires IsFixpoint(f, s) && Justified(f, s, p, inst.block) && WellTyped(f, inst) && inst.opcode == PHI
    requires EnvSound(s.lat, env) && EnvFits(f, env) && inst.result.Some? && inst.result.value < |f.vals|
    requires PhiOperand(inst.ops, p).Some? && Readable(PhiOperand(inst.ops, p).value, env)
    requires ArgOf(PhiOperand(inst.ops, p).value, env).IntArg?
    ensures var x := ArgOf(PhiOperand(inst.ops, p).value, env).i;
            Sext(x, ResultWidth(f, inst)) == x && Denotes(EvalInstruction(f, inst, s.lat, s.edges), x)
  {
    var op := PhiOperand(inst.ops, p).value;
    JustifiedMarked(f, s, p, inst.block);
    PhiMeetBelow(inst.ops, s.lat, s.edges, inst.block, p);
    PhiOperandIn(inst.ops, p);
    hide EnvSound, EnvFits, Justified, IsFixpoint, PhiMeet, Sext, Fits;
    OperandSound(f, s.lat, env, op, ResultWidth(f, inst));
    SextFits(ArgOf(op, env).i, ResultWidth(f, inst));
  }

  lemma PhiSound(f: Function, o: Oracle, s: Facts, st: State)
    requires IsFixpoint(f, s) && IntegerFunction(f) && StateSound(f, s, st)
    requires HasInst(f, st.blk, st.pc) && Step(f, o, st).Running?
    requires InstAt(f, st.blk, st.pc).opcode == PHI
    ensures StateSound(f, s, Step(f, o, st).s)
  {
    var inst := InstAt(f, st.blk, st.pc);
    InstFacts(f, s, st.blk, st.pc);
    var x := ArgOf(PhiOperand(inst.ops, st.from.value).value, st.entryEnv).i;
    hide EvalInstruction, IntegerFunction, IsFixpoint, Justified, EnvSound, EnvFits, Sext, PhiOperand;
    if inst.result.Some? {
      InstTyped(f, f.blocks[st.blk].code[st.pc]);
      PhiValue(f, s, inst, st.entryEnv, st.from.value);
    }
    assert IsFixpoint(f, s) ==> |s.lat| == |f.vals| by { LatLength(f, s); }
    StoreSound(f, s.lat, inst, st.env, x);
    StoreFits(f, inst, st.env, x);
  }

  lemma LatLength(f: Function, s: Facts)
    ensures IsFixpoint(f, s) ==> |s.lat| == |f.vals| && |s.exec| == |f.blocks|
  {
  }

  /** The edge a terminator takes is one the cells allow. */
  lemma TakenJustified(f: Function, s: Facts, st: State)
    requires EnvSound(s.lat, st.env) && EnvFits(f, st.env) && st.blk < |s.exec| && s.exec[st.blk] && HasLast(f, st.blk)
    requires ExecTerminator(f, Last(f, st.blk), st).Running?
    ensures Justified(f, s, st.blk, ExecTerminator(f, Last(f, st.blk), st).s.blk)
  {
    var inst := Last(f, st.blk);
    hide EnvSound, EnvFits, HasLast, Last;
    if IsBranchIf(inst) && !IsBranch(inst) {
      OperandSound(f, s.lat, st.env, inst.ops[0], 32);
    }
  }

  lemma BranchSound(f: Function, o: Oracle, s: Facts, st: State)
    requires IsFixpoint(f, s) && StateSound(f, s, st)
    requires HasInst(f, st.blk, st.pc) && Step(f, o, st).Running?
    requires IsTerminator(InstAt(f, st.blk, st.pc).opcode)
    ensures StateSound(f, s, Step(f, o, st).s)
  {
    hide IsFixpoint, EnvFits, EnvSound, Justified, IsTerminator, IsBranch, IsBranchIf;
    var inst := InstAt(f, st.blk, st.pc);
    var st' := Step(f, o, st).s;
    assert inst == Last(f, st.blk);
    LatLength(f, s);
    TakenJustified(f, s, st);
    JustifiedMarked(f, s, st.blk, st'.blk);
  }

  /** One step from a described state leads to a described state. */
  lemma StepSound(f: Function, o: Oracle, s: Facts, st: State)
    requires IsFixpoint(f, s) && IntegerFunction(f) && StateSound(f, s, st)
    requires Step(f, o, st).Running?
    ensures StateSound(f, s, Step(f, o, st).s)
  {
    assert HasInst(f, st.blk, st.pc);
    var inst := InstAt(f, st.blk, st.pc);
    hide Step, IsFixpoint, IntegerFunction, StateSound, IsTerminator;
    if IsTerminator(inst.opcode) {
      BranchSound(f, o, s, st);
    } else if inst.opcode == PHI {
      PhiSound(f, o, s, st);
    } else {
      PlainSound(f, o, s, st);
    }
  }

  lemma InitSound(f: Function, s: Facts, args: Env)
    requires IsFixpoint(f, s) && GoodArgs(f, args)
    ensures StateSound(f, s, Init(f, args))
  {
    hide ResultsOk;
  }

  /** Every state of every run lies within the solution: its block is executable and its values fit their cells. */
  lemma {:induction false} RunSound(f: Function, o: Oracle, s: Facts, args: Env, k: nat)
    requires IsFixpoint(f, s) && IntegerFunction(f) && GoodArgs(f, args)
    requires Run(f, o, args, k).Running?
    ensures StateSound(f, s, Run(f, o, args, k).s)
  {
    hide Step, IsFixpoint, IntegerFunction, StateSound, GoodArgs;
    if k == 0 {
      InitSound(f, s, args);
    } else {
      RunSound(f, o, s, args, k - 1);
      StepSound(f, o, s, Run(f, o, args, k - 1).s);
    }
  }

  /** In the terms of the pass: the visited block is executable, the edge taken is marked, values are denoted. */
  lemma RunWithinSolution(f: Function, o: Oracle, s: Facts, args: Env, k: nat)
    requires IsSolution(f, s) && IntegerFunction(f) && GoodArgs(f, args)
    requires Run(f, o, args, k).Running?
    ensures var st := Run(f, o, args, k).s;
            && st.blk < |s.exec| && s.exec[st.blk]
            && (st.from.Some? ==> (st.from.value, st.blk) in s.edges)
            && forall v: nat :: v in st.env ==> v < |s.lat| && Denotes(s.lat[v], st.env[v])
  {
    RunSound(f, o, s, args, k);
    var st := Run(f, o, args, k).s;
    if st.from.Some? { JustifiedMarked(f, s, st.from.value, st.blk); }
  }
}
