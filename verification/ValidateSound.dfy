/** What acceptance by ny_validate_function guarantees: no run reads a value before computing it. */
module ValidateSound {
  import opened Opcodes
  import opened IntFold
  import opened Cfg
  import opened Ir
  import opened Validate

  /**
   * What the validator does not check and the builder keeps: value and instruction records agree, edge lists
   * agree with terminators, terminators have no result, and no value is of the constant kind.
   */
  ghost predicate Consistent(f: Function) {
    && ListsEnd(f) && DefsOk(f) && EdgesOk(f)
    && (forall i :: 0 <= i < |f.insts| && IsTerminator(f.insts[i].opcode) ==> f.insts[i].result.None?)
    && (forall v :: 0 <= v < |f.vals| ==> f.vals[v].kind != ConstantValue)
  }

  /** The results of the first n instructions of block b are known. */
  ghost predicate Computed(f: Function, b: nat, n: nat, env: Env) {
    forall k: nat :: k < n && HasInst(f, b, k) && InstAt(f, b, k).result.Some? ==> InstAt(f, b, k).result.value in env
  }

  ghost predicate BlockComputed(f: Function, a: nat, env: Env) {
    a < |f.blocks| ==> Computed(f, a, |f.blocks[a].code|, env)
  }

  ghost predicate Extends(env: Env, env': Env) {
    forall v :: v in env ==> v in env'
  }

  ghost predicate ArgsKnown(f: Function, env: Env) {
    forall v: nat :: v < |f.vals| && f.vals[v].kind == ArgumentValue ==> v in env
  }

  /** Every block that must have been passed has been executed in full. */
  ghost predicate StateKnows(f: Function, st: State) {
    && Reachable(GraphOf(f), st.blk) && ArgsKnown(f, st.entryEnv) && Extends(st.entryEnv, st.env)
    && Computed(f, st.blk, st.pc, st.env)
    && (st.from.None? ==> st.blk == f.entry)
    && (st.from.Some? ==> Reachable(GraphOf(f), st.from.value) && Edge(GraphOf(f), st.from.value, st.blk))
    && (st.from.Some? ==> forall a: nat :: Dominates(GraphOf(f), a, st.from.value) ==> BlockComputed(f, a, st.entryEnv))
  }

  lemma ComputedGrows(f: Function, b: nat, n: nat, env: Env, env': Env)
    requires Computed(f, b, n, env) && Extends(env, env')
    ensures Computed(f, b, n, env')
  {
  }

  lemma BlockGrows(f: Function, a: nat, env: Env, env': Env)
    requires BlockComputed(f, a, env) && Extends(env, env')
    ensures BlockComputed(f, a, env')
  {
  }

  /** Whatever dominates a block and is not the block itself dominates each reachable predecessor. */
  lemma DominatesBefore(g: Graph, a: nat, p: nat, b: nat)
    requires Dominates(g, a, b) && a != b && Edge(g, p, b)
    ensures Dominates(g, a, p)
  {
    forall q | PathTo(g, q, p) ensures a in q {
      ExtendPath(g, q, p, b);
      assert a in q + [b];
    }
  }

  lemma EntryAlone(g: Graph, a: nat)
    requires g.entry < |g.succs| && Dominates(g, a, g.entry)
    ensures a == g.entry
  {
    assert PathTo(g, [g.entry], g.entry);
    assert a in [g.entry];
  }

  lemma InitKnows(f: Function, args: Env)
    requires Consistent(f) && GoodArgs(f, args)
    ensures StateKnows(f, Init(f, args))
  {
    EntryReachable(GraphOf(f));
  }

  lemma StoreExtends(f: Function, inst: Instruction, env: Env, x: int)
    ensures Extends(env, Store(f, inst, env, x))
    ensures inst.result.Some? ==> inst.result.value in Store(f, inst, env, x)
  {
  }

  /** A step inside a block moves on by one and adds at most its result. */
  lemma StepWithin(f: Function, o: Oracle, st: State)
    requires Step(f, o, st).Running? && HasInst(f, st.blk, st.pc) && !IsTerminator(InstAt(f, st.blk, st.pc).opcode)
    ensures var st', inst := Step(f, o, st).s, InstAt(f, st.blk, st.pc);
            && st' == st.(pc := st.pc + 1, env := st'.env, trace := st'.trace)
            && Extends(st.env, st'.env) && (inst.result.Some? ==> inst.result.value in st'.env)
  {
    var inst := InstAt(f, st.blk, st.pc);
    if inst.opcode == PHI { PhiStepIs(f, o, st); } else { PlainStepIs(f, o, st); }
    hide Step, PhiOperand, ComputeAt, Store, TraceAfter, IsTerminator;
    StoreExtends(f, inst, st.env, if inst.opcode == PHI
                 then ArgOf(PhiOperand(inst.ops, st.from.value).value, st.entryEnv).i
                                  else ComputeAt(f, o, inst, st.env, st.trace).value);
  }

  /** Inside a block: one more result is known. */
  lemma WithinKnows(f: Function, o: Oracle, st: State)
    requires StateKnows(f, st) && Step(f, o, st).Running? && HasInst(f, st.blk, st.pc)
    requires !IsTerminator(InstAt(f, st.blk, st.pc).opcode)
    ensures StateKnows(f, Step(f, o, st).s)
  {
    StepWithin(f, o, st);
    hide Step, Reachable, Dominates, BlockComputed, ArgsKnown, IsTerminator;
    ComputedGrows(f, st.blk, st.pc, st.env, Step(f, o, st).s.env);
  }

  /** A terminator leads along an edge, after the whole block but itself. */
  lemma TakesEdge(f: Function, o: Oracle, st: State)
    requires EdgesOk(f) && Step(f, o, st).Running? && HasInst(f, st.blk, st.pc)
    requires IsTerminator(InstAt(f, st.blk, st.pc).opcode)
    ensures var st' := Step(f, o, st).s;
            && st.pc + 1 == |f.blocks[st.blk].code| && st' == State(st'.blk, 0, Some(st.blk), st.env, st.env, st.trace)
            && Edge(GraphOf(f), st.blk, st'.blk)
  {
    var st' := Step(f, o, st).s;
    assert InstAt(f, st.blk, st.pc) == Last(f, st.blk);
    assert st'.blk in BlockTargets(f, st.blk);
    hide WellFormed;
    assert st'.blk in f.blocks[st.blk].succs;
  }

  lemma BranchKnows(f: Function, o: Oracle, st: State)
    requires Consistent(f) && StateKnows(f, st) && Step(f, o, st).Running? && HasInst(f, st.blk, st.pc)
    requires IsTerminator(InstAt(f, st.blk, st.pc).opcode)
    ensures StateKnows(f, Step(f, o, st).s)
  {
    var st' := Step(f, o, st).s;
    var g := GraphOf(f);
    TakesEdge(f, o, st);
    ReachableEdge(g, st.blk, st'.blk);
    hide Step, Reachable, IsTerminator, EdgesOk, DefsOk, ListsEnd;
    assert Computed(f, st.blk, st.pc + 1, st.env);
    forall a: nat | Dominates(g, a, st.blk) ensures BlockComputed(f, a, st.env) {
      if a != st.blk {
        DominatedKnown(f, st, a);
        BlockGrows(f, a, st.entryEnv, st.env);
      }
    }
    hide Dominates, Computed;
  }

  /** A block that strictly dominates the current one has been executed in full. */
  lemma DominatedKnown(f: Function, st: State, a: nat)
    requires StateKnows(f, st) && f.entry < |f.blocks| && Dominates(GraphOf(f), a, st.blk) && a != st.blk
    ensures BlockComputed(f, a, st.entryEnv)
  {
    if st.from.None? {
      EntryAlone(GraphOf(f), a);
    } else {
      DominatesBefore(GraphOf(f), a, st.from.value, st.blk);
    }
  }

  lemma StepKnows(f: Function, o: Oracle, st: State)
    requires Consistent(f) && StateKnows(f, st) && Step(f, o, st).Running?
    ensures StateKnows(f, Step(f, o, st).s)
  {
    assert HasInst(f, st.blk, st.pc);
    hide Step, Consistent, StateKnows, IsTerminator;
    if IsTerminator(InstAt(f, st.blk, st.pc).opcode) { BranchKnows(f, o, st); } else { WithinKnows(f, o, st); }
  }

  lemma {:induction false} RunKnows(f: Function, o: Oracle, args: Env, k: nat)
    requires Consistent(f) && GoodArgs(f, args) && Run(f, o, args, k).Running?
    ensures StateKnows(f, Run(f, o, args, k).s)
  {
    hide Step, Consistent, StateKnows, GoodArgs;
    if k == 0 {
      InitKnows(f, args);
    } else {
      RunKnows(f, o, args, k - 1);
      StepKnows(f, o, Run(f, o, args, k - 1).s);
    }
  }

  // ---------------------------------------------------------------- the operands of the next instruction

  /** A listed definition's result is known where its whole block has been executed. */
  lemma DefKnown(f: Function, v: nat, env: Env)
    requires DefsOk(f) && v < |f.vals| && f.vals[v].kind == InstructionValue
    requires f.vals[v].def.Some? && f.vals[v].def.value < |f.insts|
    requires BlockComputed(f, f.insts[f.vals[v].def.value].block, env)
    ensures v in env
  {
    var d := f.vals[v].def.value;
    var a := f.insts[d].block;
    assert Listed(f, d);
    var k :| 0 <= k < |f.blocks[a].code| && f.blocks[a].code[k] == d;
    assert HasInst(f, a, k) && InstAt(f, a, k).result == Some(v);
  }

  /** The definition stands earlier in the block that is running. */
  lemma EarlierKnown(f: Function, b: nat, n: nat, v: nat, env: Env)
    requires DefsOk(f) && v < |f.vals| && f.vals[v].kind == InstructionValue
    requires f.vals[v].def.Some? && f.vals[v].def.value < |f.insts|
    requires b < |f.blocks| && n <= |f.blocks[b].code| && Computed(f, b, n, env)
    requires exists q :: 0 <= q < n && f.blocks[b].code[q] == f.vals[v].def.value
    ensures v in env
  {
    var q :| 0 <= q < n && f.blocks[b].code[q] == f.vals[v].def.value;
    assert HasInst(f, b, q) && InstAt(f, b, q).result == Some(v);
  }

  lemma OperandKnown(f: Function, st: State, k: nat)
    requires Consistent(f) && StateKnows(f, st) && HasInst(f, st.blk, st.pc)
    requires InstAt(f, st.blk, st.pc).opcode != PHI && k < |InstAt(f, st.blk, st.pc).ops|
    requires OperandAccepted(f, st.blk, st.pc, k)
    ensures Readable(InstAt(f, st.blk, st.pc).ops[k], st.env)
  {
    var op := InstAt(f, st.blk, st.pc).ops[k];
    if op.OpValue? {
      var v := op.val;
      if f.vals[v].kind == InstructionValue {
        var home := f.insts[f.vals[v].def.value].block;
        hide Reachable, Dominates, EdgesOk, ListsEnd;
        if home == st.blk {
          EarlierKnown(f, st.blk, st.pc, v, st.env);
        } else {
          EntryExists(f);
          DominatedKnown(f, st, home);
          DefKnown(f, v, st.entryEnv);
        }
      }
    }
  }

  lemma EntryExists(f: Function)
    requires EdgesOk(f)
    ensures f.entry < |f.blocks|
  {
  }

  /** The pair a PHI selects, as an index. */
  lemma {:induction false} PhiIndex(ops: seq<Operand>, p: nat) returns (k: nat)
    requires PhiOperand(ops, p).Some?
    ensures k + 1 < |ops| && ops[k] == PhiOperand(ops, p).value && ops[k + 1] == OpBlock(p)
  {
    if ops[1] == OpBlock(p) {
      k := 0;
    } else {
      var j := PhiIndex(ops[2..], p);
      k := j + 2;
    }
  }

  lemma PhiInputKnown(f: Function, st: State, k: nat)
    requires Consistent(f) && StateKnows(f, st) && HasInst(f, st.blk, st.pc) && st.from.Some?
    requires InstAt(f, st.blk, st.pc).opcode == PHI && k + 1 < |InstAt(f, st.blk, st.pc).ops|
    requires InstAt(f, st.blk, st.pc).ops[k + 1] == OpBlock(st.from.value)
    requires OperandAccepted(f, st.blk, st.pc, k)
    ensures Readable(InstAt(f, st.blk, st.pc).ops[k], st.entryEnv)
  {
    var op := InstAt(f, st.blk, st.pc).ops[k];
    if op.OpValue? {
      var v := op.val;
      if f.vals[v].kind == InstructionValue {
        var home := f.insts[f.vals[v].def.value].block;
        if home == st.from.value { SelfDominates(GraphOf(f), home); }
        hide Reachable, Dominates, EdgesOk, ListsEnd;
        assert BlockComputed(f, home, st.entryEnv);
        DefKnown(f, v, st.entryEnv);
      }
    }
  }

  lemma SelfDominates(g: Graph, b: nat)
    ensures Dominates(g, b, b)
  {
  }

  /** The values the instruction at a state reads have been computed earlier in the run. */
  ghost predicate ReadsKnown(f: Function, st: State) {
    HasInst(f, st.blk, st.pc) ==>
      var inst := InstAt(f, st.blk, st.pc);
      if inst.opcode != PHI then AllReadable(inst.ops, st.env)
      else st.from.Some? && PhiOperand(inst.ops, st.from.value).Some? ==>
             Readable(PhiOperand(inst.ops, st.from.value).value, st.entryEnv)
  }

  lemma ReachedAccepted(f: Function, st: State, k: nat)
    requires Accepts(f) && HasInst(f, st.blk, st.pc) && k < |InstAt(f, st.blk, st.pc).ops|
    ensures OperandAccepted(f, st.blk, st.pc, k)
  {
    hide OperandAccepted;
    assert BlockAccepted(f, st.blk);
    assert InstAccepted(f, st.blk, st.pc);
    assert OperandsAccepted(f, st.blk, st.pc, |InstAt(f, st.blk, st.pc).ops|);
  }

  /** In every run of an accepted function, every operand read was computed before. */
  lemma AcceptedRunsReadKnownValues(f: Function, o: Oracle, args: Env, k: nat)
    requires Accepts(f) && Consistent(f) && GoodArgs(f, args) && Run(f, o, args, k).Running?
    ensures ReadsKnown(f, Run(f, o, args, k).s)
  {
    RunKnows(f, o, args, k);
    var st := Run(f, o, args, k).s;
    hide Run, Consistent, StateKnows, Accepts, OperandAccepted;
    if HasInst(f, st.blk, st.pc) {
      var inst := InstAt(f, st.blk, st.pc);
      if inst.opcode != PHI {
        forall j | 0 <= j < |inst.ops| ensures Readable(inst.ops[j], st.env) {
          ReachedAccepted(f, st, j);
          OperandKnown(f, st, j);
        }
      } else if st.from.Some? && PhiOperand(inst.ops, st.from.value).Some? {
        var j := PhiIndex(inst.ops, st.from.value);
        ReachedAccepted(f, st, j);
        PhiInputKnown(f, st, j);
      }
    }
  }

  // ---------------------------------------------------------------- why records must agree

  /** Value 0 claims to be defined by an instruction that produces value 1. */
  ghost predicate Misattributed(f: Function) {
    && f.entry == 0 && f.blocks == [Block([0, 1], [], [])] && |f.insts| == 2 && |f.vals| == 2
    && f.insts[0] == Instruction(CONST, false, Some(1), [OpInt(7)], 0)
    && f.insts[1] == Instruction(RETURN, false, None, [OpValue(0)], 0)
    && f.vals[0] == Value(3, InstructionValue, Some(0)) && f.vals[1] == Value(3, InstructionValue, Some(0))
  }

  lemma MisattributedAccepted(f: Function)
    requires Misattributed(f)
    ensures Accepts(f)
  {
    assert f.blocks[0].code == [0, 1] && |f.blocks[0].preds| == 0;
    assert OperandAccepted(f, 0, 0, 0);
    assert f.blocks[0].code[0] == 0;
    assert DefAccepted(f, 0, 1, 0, Some(0));
    assert OperandAccepted(f, 0, 1, 0);
    hide OperandAccepted, DefAccepted;
    assert InstAccepted(f, 0, 0) && InstAccepted(f, 0, 1);
    hide InstAccepted;
    assert BlockAccepted(f, 0);
  }

  /** The validator trusts the definition a value names: where that is wrong, an accepted function reads nothing. */
  lemma AcceptanceTrustsDefinitions(f: Function, o: Oracle)
    requires Misattributed(f)
    ensures Accepts(f) && !DefsOk(f)
    ensures Run(f, o, map[], 1).Running? && !ReadsKnown(f, Run(f, o, map[], 1).s)
  {
    MisattributedAccepted(f);
    assert f.blocks[0].code == [0, 1];
    var init := Init(f, map[]);
    assert HasInst(f, 0, 0) && HasInst(f, 0, 1);
    ConstStep(f, o, init, 7);
    hide Step, Accepts, Sext, ResultWidth;
    assert Run(f, o, map[], 0) == Running(init);
    assert Run(f, o, map[], 1) == Step(f, o, init);
    var st := Run(f, o, map[], 1).s;
    assert st.pc == 1 && InstAt(f, 0, 1).ops[0] == OpValue(0) && 0 !in st.env;
  }
}
