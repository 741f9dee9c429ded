/** One sharing step of src/opt/gvn.c: rename the uses, remove the instruction. It keeps runs and acceptance. */
module GvnRename {
  import opened Opcodes
  import opened IntFold
  import opened Cfg
  import opened Ir
  import opened IrEdit
  import opened SccpLattice
  import opened Validate
  import opened ValidateSound
  import opened RunEdits
  import opened GvnSound

  function RenamedOp(op: Operand, x: nat, y: nat): Operand {
    if op == OpValue(x) then OpValue(y) else op
  }

  /** ReplaceUses, spelled out. */
  ghost predicate IsRenaming(f: Function, x: nat, y: nat, g: Function) {
    && g.entry == f.entry && g.blocks == f.blocks && g.vals == f.vals && |g.insts| == |f.insts|
    && (forall m :: 0 <= m < |f.insts| ==>
         g.insts[m] == if f.insts[m].opcode == NONE then f.insts[m]
           else f.insts[m].(ops := Renamed(f.insts[m].ops, x, y)))
  }

  lemma ReplaceIsRenaming(f: Function, x: nat, y: nat)
    ensures IsRenaming(f, x, y, ReplaceUses(f, x, y))
  {
    hide Renamed;
  }

  // ---------------------------------------------------------------- uses of x lie below its definition

  lemma PlainUseBelow(f: Function, i: nat, b: nat, n: nat, blk: nat, pc: nat)
    requires Ready(f) && CandidateAt(f, i, b, n) && HasInst(f, blk, pc) && InstAt(f, blk, pc).opcode != PHI
    requires OpValue(f.insts[i].result.value) in InstAt(f, blk, pc).ops
    ensures After(f, b, n, blk, pc)
  {
    var x := f.insts[i].result.value;
    var ops := InstAt(f, blk, pc).ops;
    var k :| 0 <= k < |ops| && ops[k] == OpValue(x);
    assert Listed(f, i) && CodeOk(f) && ResultsOk(f);
    assert f.vals[x].kind == InstructionValue && f.vals[x].def == Some(i);
    hide Ready, Dominates, Reachable, IsGvnCandidate;
    ReadyAccepts(f);
    OperandPrecedes(f, blk, pc, k);
  }

  lemma ReadyAccepts(f: Function)
    requires Ready(f)
    ensures Accepts(f) && Consistent(f) && CodeOk(f) && ResultsOk(f)
  {
  }

  lemma PhiUseBelow(f: Function, i: nat, b: nat, n: nat, st: State)
    requires Ready(f) && CandidateAt(f, i, b, n) && HasInst(f, st.blk, st.pc) && InstAt(f, st.blk, st.pc).opcode == PHI
    requires st.from.Some?
             && PhiOperand(InstAt(f, st.blk, st.pc).ops, st.from.value) == Some(OpValue(f.insts[i].result.value))
    ensures st.from.value == b || Dominates(GraphOf(f), b, st.from.value)
  {
    hide Dominates, Reachable, IsGvnCandidate, PhiOperand, Accepts, CodeOk, Listed, EdgesOk, Consistent,
      IntegerFunction;
    var x := f.insts[i].result.value;
    var k := PhiIndex(InstAt(f, st.blk, st.pc).ops, st.from.value);
    ReadyMeans(f);
    ListedAt(f, b, n);
    assert f.vals[x].kind == InstructionValue && f.vals[x].def == Some(i) && f.insts[i].block == b;
    ReachedAccepted(f, st, k);
  }

  // ---------------------------------------------------------------- the same steps

  lemma ArgsRenamed(ops: seq<Operand>, env: Env, x: nat, y: nat)
    requires OpValue(x) in ops ==> Same(env, x, y)
    requires AllReadable(ops, env)
    ensures AllReadable(Renamed(ops, x, y), env) && ArgsOf(Renamed(ops, x, y), env) == ArgsOf(ops, env)
  {
    forall k | 0 <= k < |ops|
      ensures Readable(Renamed(ops, x, y)[k], env) && ArgOf(Renamed(ops, x, y)[k], env) == ArgOf(ops[k], env)
    {
      assert ops[k] in ops;
    }
  }

  lemma {:induction false} PhiRenamed(ops: seq<Operand>, x: nat, y: nat, p: nat)
    ensures PhiOperand(Renamed(ops, x, y), p) ==
            if PhiOperand(ops, p).Some? then Some(RenamedOp(PhiOperand(ops, p).value, x, y)) else None
    decreases |ops|
  {
    if |ops| >= 2 {
      assert Renamed(ops, x, y)[2..] == Renamed(ops[2..], x, y);
      PhiRenamed(ops[2..], x, y, p);
    }
  }

  lemma RenamedTypes(f: Function, g: Function, inst: Instruction, x: nat, y: nat)
    requires g.vals == f.vals && x < |f.vals| && y < |f.vals| && f.vals[x].ty == f.vals[y].ty
    ensures var inst' := inst.(ops := Renamed(inst.ops, x, y));
            && ResultType(g, inst') == ResultType(f, inst) && CmpWidth(g, inst') == CmpWidth(f, inst)
            && ResultWidth(g, inst') == ResultWidth(f, inst) && OperandTypes(g, inst'.ops) == OperandTypes(f, inst.ops)
  {
    hide BitWidth;
  }

  /** Sharing relates values of one type. */
  lemma SharedTypes(f: Function, j: nat, bj: nat, nj: nat, i: nat, b: nat, n: nat)
    requires Ready(f) && Shares(f, j, bj, nj, i, b, n)
    ensures var x, y := f.insts[i].result.value, f.insts[j].result.value;
            x != y && x < |f.vals| && y < |f.vals| && f.vals[x].ty == f.vals[y].ty
    ensures f.vals[f.insts[i].result.value].def == Some(i) && f.vals[f.insts[j].result.value].def == Some(j)
    ensures f.vals[f.insts[i].result.value].kind == InstructionValue
            && f.vals[f.insts[j].result.value].kind == InstructionValue
  {
    assert CodeOk(f) && ResultsOk(f);
    assert f.blocks[bj].code[nj] in f.blocks[bj].code && f.blocks[b].code[n] in f.blocks[b].code;
    assert Listed(f, i) && Listed(f, j);
    hide Accepts, Consistent, IntegerFunction, IsGvnCandidate, Precedes, CodeOk;
  }

  lemma PlainRenamed(f: Function, g: Function, o: Oracle, x: nat, y: nat, st: State)
    requires IsRenaming(f, x, y, g) && x < |f.vals| && y < |f.vals| && f.vals[x].ty == f.vals[y].ty
    requires HasInst(f, st.blk, st.pc) && Step(f, o, st) != Stuck && InstAt(f, st.blk, st.pc).opcode != NONE
    requires InstAt(f, st.blk, st.pc).opcode != PHI && !IsTerminator(InstAt(f, st.blk, st.pc).opcode)
    requires OpValue(x) in InstAt(f, st.blk, st.pc).ops ==> Same(st.env, x, y)
    ensures Step(g, o, st) == Step(f, o, st)
  {
    var inst := InstAt(f, st.blk, st.pc);
    var inst' := inst.(ops := Renamed(inst.ops, x, y));
    assert HasInst(g, st.blk, st.pc) && InstAt(g, st.blk, st.pc) == inst';
    PlainStepIs(f, o, st);
    ArgsRenamed(inst.ops, st.env, x, y);
    RenamedTypes(f, g, inst, x, y);
    assert IsObservable(inst) == IsObservable(inst');
    hide Step, IsRenaming, IsTerminator, Compute, AllReadable, ResultType, CmpWidth, ResultWidth, OperandTypes,
      Renamed, Same, IsObservable, Sext;
    assert ComputeAt(g, o, inst', st.env, st.trace) == ComputeAt(f, o, inst, st.env, st.trace);
    PlainRuns(g, o, st);
    PlainStepIs(g, o, st);
  }

  lemma PhiStepRenamed(f: Function, g: Function, o: Oracle, x: nat, y: nat, st: State)
    requires IsRenaming(f, x, y, g) && x < |f.vals| && y < |f.vals| && f.vals[x].ty == f.vals[y].ty
    requires HasInst(f, st.blk, st.pc) && Step(f, o, st) != Stuck && InstAt(f, st.blk, st.pc).opcode == PHI
    requires st.from.Some? && PhiOperand(InstAt(f, st.blk, st.pc).ops, st.from.value) == Some(OpValue(x)) ==>
             Same(st.entryEnv, x, y)
    ensures Step(g, o, st) == Step(f, o, st)
  {
    var inst := InstAt(f, st.blk, st.pc);
    var inst' := inst.(ops := Renamed(inst.ops, x, y));
    assert HasInst(g, st.blk, st.pc) && InstAt(g, st.blk, st.pc) == inst';
    PhiStepIs(f, o, st);
    PhiRenamed(inst.ops, x, y, st.from.value);
    RenamedTypes(f, g, inst, x, y);
    hide Step, IsRenaming, PhiOperand, ResultWidth, Renamed, Sext;
    PhiStores(g, o, st, RenamedOp(PhiOperand(inst.ops, st.from.value).value, x, y));
  }

  lemma TerminatorRenamed(f: Function, g: Function, o: Oracle, x: nat, y: nat, st: State)
    requires IsRenaming(f, x, y, g)
    requires HasInst(f, st.blk, st.pc) && Step(f, o, st) != Stuck && IsTerminator(InstAt(f, st.blk, st.pc).opcode)
    requires InstAt(f, st.blk, st.pc).opcode != NONE
    requires OpValue(x) in InstAt(f, st.blk, st.pc).ops ==> Same(st.env, x, y)
    ensures Step(g, o, st) == Step(f, o, st)
  {
    var inst := InstAt(f, st.blk, st.pc);
    var inst' := inst.(ops := Renamed(inst.ops, x, y));
    assert HasInst(g, st.blk, st.pc) && InstAt(g, st.blk, st.pc) == inst';
    assert Step(f, o, st) == ExecTerminator(f, inst, st);
    assert Step(g, o, st) == ExecTerminator(g, inst', st);
    assert |inst.ops| > 0 ==> inst.ops[0] in inst.ops;
    hide Step, IsTerminator, HasInst;
  }

  lemma StepRenamed(f: Function, g: Function, o: Oracle, j: nat, bj: nat, nj: nat, i: nat, b: nat, n: nat, st: State)
    requires Ready(f) && Shares(f, j, bj, nj, i, b, n)
             && IsRenaming(f, f.insts[i].result.value, f.insts[j].result.value, g)
    requires SameBelow(f, b, n, f.insts[i].result.value, f.insts[j].result.value, st)
    requires Step(f, o, st) != Stuck
    ensures Step(g, o, st) == Step(f, o, st)
  {
    var x, y := f.insts[i].result.value, f.insts[j].result.value;
    assert HasInst(f, st.blk, st.pc);
    var inst := InstAt(f, st.blk, st.pc);
    SharedTypes(f, j, bj, nj, i, b, n);
    assert CandidateAt(f, i, b, n);
    StuckOnNone(f, o, st);
    hide Step, Ready, Shares, CandidateAt, IsRenaming, IsTerminator, Dominates, Same, PhiOperand, After;
    if inst.opcode == PHI {
      if st.from.Some? && PhiOperand(inst.ops, st.from.value) == Some(OpValue(x)) { PhiUseBelow(f, i, b, n, st); }
      PhiStepRenamed(f, g, o, x, y, st);
    } else {
      if OpValue(x) in inst.ops { PlainUseBelow(f, i, b, n, st.blk, st.pc); }
      if IsTerminator(inst.opcode) { TerminatorRenamed(f, g, o, x, y, st); } else { PlainRenamed(f, g, o, x, y, st); }
    }
  }

  lemma StuckOnNone(f: Function, o: Oracle, st: State)
    requires Step(f, o, st) != Stuck
    ensures HasInst(f, st.blk, st.pc) && InstAt(f, st.blk, st.pc).opcode != NONE
  {
    if HasInst(f, st.blk, st.pc) && InstAt(f, st.blk, st.pc).opcode == NONE {
      PhiIsNoTerminator();
      PlainStepIs(f, o, st);
    }
  }

  /** Renaming the uses of the shared result changes no step of any run. */
  lemma {:induction false} RenameLockstep(f: Function, g: Function, o: Oracle, args: Env, k: nat,
                                          j: nat, bj: nat, nj: nat, i: nat, b: nat, n: nat, x: nat, y: nat)
    requires Ready(f) && GoodArgs(f, args) && Shares(f, j, bj, nj, i, b, n)
    requires f.insts[i].result == Some(x) && f.insts[j].result == Some(y) && IsRenaming(f, x, y, g)
    requires Run(f, o, args, k) != Stuck
    ensures Run(g, o, args, k) == Run(f, o, args, k)
  {
    hide Step, Ready, GoodArgs, Shares, SameBelow, IsRenaming;
    if k == 0 {
      RenamedEntry(f, x, y, g);
    } else {
      RenameLockstep(f, g, o, args, k - 1, j, bj, nj, i, b, n, x, y);
      var before := Run(f, o, args, k - 1);
      if before.Running? {
        RunShares(f, o, args, k - 1, j, bj, nj, i, b, n);
        StepRenamed(f, g, o, j, bj, nj, i, b, n, before.s);
      }
    }
  }

  lemma RenamedEntry(f: Function, x: nat, y: nat, g: Function)
    requires IsRenaming(f, x, y, g)
    ensures g.entry == f.entry
  {
  }

  lemma RenameKeepsEnds(f: Function, o: Oracle, args: Env, j: nat, bj: nat, nj: nat, i: nat, b: nat, n: nat)
    requires Ready(f) && GoodArgs(f, args) && Shares(f, j, bj, nj, i, b, n)
    ensures KeepsEnds(f, ReplaceUses(f, f.insts[i].result.value, f.insts[j].result.value), o, args)
  {
    var x, y := f.insts[i].result.value, f.insts[j].result.value;
    var g := ReplaceUses(f, x, y);
    ReplaceIsRenaming(f, x, y);
    hide Run, Ready, GoodArgs, Shares, ReplaceUses, KeepsEnds;
    forall k: nat | Run(f, o, args, k) != Stuck ensures Run(g, o, args, k) == Run(f, o, args, k) {
      RenameLockstep(f, g, o, args, k, j, bj, nj, i, b, n, x, y);
    }
    LockstepKeepsEnds(f, g, o, args);
  }
}
