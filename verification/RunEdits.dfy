/**
 * Removing an instruction whose result nobody reads. This is what src/opt/gvn.c and src/opt/dce.c have in
 * common: ny_function_remove_instruction (src/ir/function.c) changes no run that ends.
 */
module RunEdits {
  import opened Opcodes
  import opened IntFold
  import opened Cfg
  import opened Ir
  import opened IrEdit

  predicate Ends(r: Outcome) {
    r.Returned? || r.Trapped?
  }

  /** Every run of f that ends, ends in the same way in g. */
  ghost predicate KeepsEnds(f: Function, g: Function, o: Oracle, args: Env) {
    forall k: nat :: Ends(Run(f, o, args, k)) ==> ReachesEnd(g, o, args, Run(f, o, args, k))
  }

  ghost predicate ReachesEnd(g: Function, o: Oracle, args: Env, end: Outcome) {
    exists k: nat :: Run(g, o, args, k) == end
  }

  lemma KeepsEndsSame(f: Function, o: Oracle, args: Env)
    ensures KeepsEnds(f, f, o, args)
  {
    hide Run;
  }

  lemma KeepsEndsTrans(f: Function, g: Function, h: Function, o: Oracle, args: Env)
    requires KeepsEnds(f, g, o, args) && KeepsEnds(g, h, o, args)
    ensures KeepsEnds(f, h, o, args)
  {
    hide Run;
    forall k: nat | Ends(Run(f, o, args, k)) ensures ReachesEnd(h, o, args, Run(f, o, args, k)) {
      assert ReachesEnd(g, o, args, Run(f, o, args, k));
      var m: nat :| Run(g, o, args, m) == Run(f, o, args, k);
      assert ReachesEnd(h, o, args, Run(g, o, args, m));
    }
  }

  /** Lockstep is a special case. */
  lemma LockstepKeepsEnds(f: Function, g: Function, o: Oracle, args: Env)
    requires forall k: nat :: Run(f, o, args, k) != Stuck ==> Run(g, o, args, k) == Run(f, o, args, k)
    ensures KeepsEnds(f, g, o, args)
  {
    hide Run;
    forall k: nat | Ends(Run(f, o, args, k)) ensures ReachesEnd(g, o, args, Run(f, o, args, k)) {
      assert Run(g, o, args, k) == Run(f, o, args, k);
    }
  }

  // ---------------------------------------------------------------- the removed instruction

  /** Instruction i stands at position n of block b, is not seen from outside, and nobody else reads its result. */
  ghost predicate Removable(f: Function, i: nat, b: nat, n: nat) {
    && CodeOk(f) && HasInst(f, b, n) && f.blocks[b].code[n] == i
    && f.insts[i].opcode != NONE && !IsTerminator(f.insts[i].opcode) && !IsObservable(f.insts[i])
    && (f.insts[i].result.Some? ==> Unread(f, i, f.insts[i].result.value))
  }

  ghost predicate Unread(f: Function, i: nat, x: nat) {
    forall m: nat :: Listed(f, m) && m != i ==> OpValue(x) !in f.insts[m].ops
  }

  /** The removal, spelled out. */
  ghost predicate Removed(f: Function, i: nat, b: nat, n: nat, g: Function) {
    && b < |f.blocks| && n < |f.blocks[b].code| && i < |f.insts|
    && g.entry == f.entry && |g.blocks| == |f.blocks| && |g.insts| == |f.insts| && |g.vals| == |f.vals|
    && (forall c :: 0 <= c < |f.blocks| ==>
          g.blocks[c] == if c == b then f.blocks[b].(code := f.blocks[b].code[..n] + f.blocks[b].code[n + 1..])
            else f.blocks[c])
    && (forall m :: 0 <= m < |f.insts| ==>
          g.insts[m] == if m == i then f.insts[m].(opcode := NONE, ops := []) else f.insts[m])
    && (forall v :: 0 <= v < |f.vals| ==>
        g.vals[v] == if f.insts[i].result == Some(v) then f.vals[v].(def := None) else f.vals[v])
  }

  lemma RemoveIsRemoved(f: Function, i: nat, b: nat, n: nat)
    requires CodeOk(f) && HasInst(f, b, n) && f.blocks[b].code[n] == i && f.insts[i].opcode != NONE
    ensures Removed(f, i, b, n, RemoveInst(f, i))
  {
    assert f.insts[i].block == b;
    assert NoDuplicates(f.blocks[b].code);
    WithoutAt(f.blocks[b].code, n);
  }

  /** Where a position of f is found in g. */
  function Shift(b: nat, n: nat, blk: nat, pc: nat): nat {
    if blk == b && pc > n then pc - 1 else pc
  }

  lemma ShiftedInst(f: Function, i: nat, b: nat, n: nat, g: Function, blk: nat, pc: nat)
    requires CodeOk(f) && Removed(f, i, b, n, g) && f.blocks[b].code[n] == i && HasInst(f, blk, pc)
             && !(blk == b && pc == n)
    ensures var pc' := Shift(b, n, blk, pc);
            && HasInst(g, blk, pc') && g.blocks[blk].code[pc'] == f.blocks[blk].code[pc]
               && InstAt(g, blk, pc') == InstAt(f, blk, pc)
            && (pc + 1 == |f.blocks[blk].code| ==> pc' + 1 == |g.blocks[blk].code|)
    ensures f.blocks[blk].code[pc] != i && Listed(f, f.blocks[blk].code[pc])
  {
    var m := f.blocks[blk].code[pc];
    assert m in f.blocks[blk].code && f.insts[m].block == blk && f.insts[i].block == b;
    assert m != i;
  }

  /** Environments that agree except on the hidden value. */
  ghost predicate EnvBut(env: Env, env': Env, x: Option<nat>) {
    forall v :: Some(v) != x ==> (v in env <==> v in env') && (v in env ==> env[v] == env'[v])
  }

  ghost predicate Match(f: Function, i: nat, b: nat, n: nat, s: State, s': State)
    requires i < |f.insts|
  {
    && s'.blk == s.blk && s'.from == s.from && s'.trace == s.trace && s'.pc == Shift(b, n, s.blk, s.pc)
    && EnvBut(s.env, s'.env, f.insts[i].result) && EnvBut(s.entryEnv, s'.entryEnv, f.insts[i].result)
  }

  ghost predicate MatchOutcome(f: Function, i: nat, b: nat, n: nat, r: Outcome, r': Outcome)
    requires i < |f.insts|
  {
    match r
    case Running(s) => r'.Running? && Match(f, i, b, n, s, r'.s)
    case _ => r' == r
  }

  lemma OperandBut(op: Operand, env: Env, env': Env, x: Option<nat>)
    requires EnvBut(env, env', x) && (x.Some? ==> op != OpValue(x.value))
    ensures Readable(op, env) <==> Readable(op, env')
    ensures Readable(op, env) ==> ArgOf(op, env) == ArgOf(op, env')
  {
  }

  lemma ArgsBut(ops: seq<Operand>, env: Env, env': Env, x: Option<nat>)
    requires EnvBut(env, env', x) && (x.Some? ==> OpValue(x.value) !in ops)
    ensures AllReadable(ops, env) <==> AllReadable(ops, env')
    ensures AllReadable(ops, env) ==> ArgsOf(ops, env) == ArgsOf(ops, env')
  {
    hide EnvBut, Readable;
    forall k | 0 <= k < |ops|
      ensures Readable(ops[k], env) <==> Readable(ops[k], env')
      ensures Readable(ops[k], env) ==> ArgOf(ops[k], env) == ArgOf(ops[k], env')
    {
      OperandBut(ops[k], env, env', x);
    }
  }

  lemma SameTypes(f: Function, i: nat, b: nat, n: nat, g: Function, inst: Instruction)
    requires Removed(f, i, b, n, g)
    ensures ResultType(g, inst) == ResultType(f, inst) && CmpWidth(g, inst) == CmpWidth(f, inst)
    ensures ResultWidth(g, inst) == ResultWidth(f, inst) && OperandTypes(g, inst.ops) == OperandTypes(f, inst.ops)
  {
    forall v: nat ensures ValueType(g, v) == ValueType(f, v) {
    }
  }

  lemma StoreBut(f: Function, g: Function, inst: Instruction, env: Env, env': Env, x: Option<nat>, r: int)
    requires EnvBut(env, env', x) && ResultWidth(g, inst) == ResultWidth(f, inst)
    ensures EnvBut(Store(f, inst, env, r), Store(g, inst, env', r), x)
  {
    hide Sext, ResultWidth;
  }

  lemma UnreadBy(f: Function, i: nat, b: nat, n: nat, m: nat)
    requires Removable(f, i, b, n) && Listed(f, m) && m != i
    ensures f.insts[i].result.Some? ==> OpValue(f.insts[i].result.value) !in f.insts[m].ops
  {
    hide CodeOk, Listed, IsTerminator, IsObservable;
  }

  lemma RemovableMeans(f: Function, i: nat, b: nat, n: nat)
    requires Removable(f, i, b, n)
    ensures CodeOk(f) && HasInst(f, b, n) && f.blocks[b].code[n] == i && i < |f.insts|
    ensures !IsTerminator(f.insts[i].opcode) && !IsObservable(f.insts[i])
  {
    hide CodeOk, IsTerminator, IsObservable, Unread;
  }

  lemma RemovedBlocks(f: Function, i: nat, b: nat, n: nat, g: Function)
    requires Removed(f, i, b, n, g)
    ensures |g.blocks| == |f.blocks|
  {
  }

  /** A skipped instruction only stores the value nobody reads. */
  lemma SkipStep(f: Function, o: Oracle, i: nat, b: nat, n: nat, s: State, s': State)
    requires Removable(f, i, b, n) && Match(f, i, b, n, s, s')
    requires s.blk == b && s.pc == n && Step(f, o, s) != Stuck
    ensures Step(f, o, s).Running? && Match(f, i, b, n, Step(f, o, s).s, s')
  {
    hide CodeOk, Step, Sext, ResultWidth, IsTerminator, ComputeAt, IsObservable, Removable;
    RemovableMeans(f, i, b, n);
    var inst := f.insts[i];
    if inst.opcode == PHI { PhiStepIs(f, o, s); } else { PlainStepIs(f, o, s); }
  }

  lemma PhiSelect(f: Function, g: Function, o: Oracle, i: nat, b: nat, n: nat, s: State, s': State)
    requires Removable(f, i, b, n) && Removed(f, i, b, n, g) && Match(f, i, b, n, s, s') && !(s.blk == b && s.pc == n)
    requires HasInst(f, s.blk, s.pc) && InstAt(f, s.blk, s.pc).opcode == PHI && Step(f, o, s) != Stuck
    ensures MatchOutcome(f, i, b, n, Step(f, o, s), Step(g, o, s'))
  {
    hide Step, PhiOperand, CodeOk, IsTerminator, IsObservable, EnvBut, Store, ResultWidth, Removed, Removable, Listed;
    RemovableMeans(f, i, b, n);
    var inst := InstAt(f, s.blk, s.pc);
    ShiftedInst(f, i, b, n, g, s.blk, s.pc);
    SameTypes(f, i, b, n, g, inst);
    PhiStepIs(f, o, s);
    var op := PhiOperand(inst.ops, s.from.value).value;
    PhiOperandIn(inst.ops, s.from.value);
    UnreadBy(f, i, b, n, f.blocks[s.blk].code[s.pc]);
    OperandBut(op, s.entryEnv, s'.entryEnv, f.insts[i].result);
    PhiStores(g, o, s', op);
    StoreBut(f, g, inst, s.env, s'.env, f.insts[i].result, ArgOf(op, s.entryEnv).i);
  }

  /** A plain instruction that can read its operands and compute runs. */
  lemma PlainRuns(g: Function, o: Oracle, st: State)
    requires HasInst(g, st.blk, st.pc)
    requires InstAt(g, st.blk, st.pc).opcode != PHI && !IsTerminator(InstAt(g, st.blk, st.pc).opcode)
    requires AllReadable(InstAt(g, st.blk, st.pc).ops, st.env)
    requires ComputeAt(g, o, InstAt(g, st.blk, st.pc), st.env, st.trace).Some?
    ensures Step(g, o, st) != Stuck
  {
    hide IsTerminator, ComputeAt, AllReadable;
  }

  lemma PlainSame(f: Function, g: Function, o: Oracle, i: nat, b: nat, n: nat, s: State, s': State)
    requires Removable(f, i, b, n) && Removed(f, i, b, n, g) && Match(f, i, b, n, s, s') && !(s.blk == b && s.pc == n)
    requires HasInst(f, s.blk, s.pc) && Step(f, o, s) != Stuck
    requires InstAt(f, s.blk, s.pc).opcode != PHI && !IsTerminator(InstAt(f, s.blk, s.pc).opcode)
    ensures MatchOutcome(f, i, b, n, Step(f, o, s), Step(g, o, s'))
  {
    var inst := InstAt(f, s.blk, s.pc);
    ShiftedInst(f, i, b, n, g, s.blk, s.pc);
    SameTypes(f, i, b, n, g, inst);
    PlainStepIs(f, o, s);
    hide Step, CodeOk, IsTerminator, IsObservable, EnvBut, Store, ResultWidth, Removed, Compute, AllReadable,
      ResultType, CmpWidth, OperandTypes;
    ArgsBut(inst.ops, s.env, s'.env, f.insts[i].result);
    PlainRuns(g, o, s');
    PlainStepIs(g, o, s');
    StoreBut(f, g, inst, s.env, s'.env, f.insts[i].result, ComputeAt(f, o, inst, s.env, s.trace).value);
  }

  /** A terminator that reads the same leads to the same place. */
  lemma EndSame(f: Function, g: Function, inst: Instruction, s: State, s': State, x: Option<nat>)
    requires s'.blk == s.blk && s'.trace == s.trace && |g.blocks| == |f.blocks| && EnvBut(s.env, s'.env, x)
    requires |inst.ops| > 0 ==> (Readable(inst.ops[0], s.env) <==> Readable(inst.ops[0], s'.env))
                                && (Readable(inst.ops[0], s.env) ==>
                                    ArgOf(inst.ops[0], s.env) == ArgOf(inst.ops[0], s'.env))
    ensures match ExecTerminator(f, inst, s)
            case Running(t) =>
              var r' := ExecTerminator(g, inst, s');
              && r'.Running? && r'.s.blk == t.blk && r'.s.pc == t.pc == 0 && r'.s.from == t.from
                 && r'.s.trace == t.trace
              && EnvBut(t.env, r'.s.env, x) && EnvBut(t.entryEnv, r'.s.entryEnv, x)
            case done => ExecTerminator(g, inst, s') == done
  {
    hide EnvBut, ArgOf, Readable;
  }

  lemma TerminatorSame(f: Function, g: Function, o: Oracle, i: nat, b: nat, n: nat, s: State, s': State)
    requires Removable(f, i, b, n) && Removed(f, i, b, n, g) && Match(f, i, b, n, s, s') && !(s.blk == b && s.pc == n)
    requires HasInst(f, s.blk, s.pc) && Step(f, o, s) != Stuck && IsTerminator(InstAt(f, s.blk, s.pc).opcode)
    ensures MatchOutcome(f, i, b, n, Step(f, o, s), Step(g, o, s'))
  {
    hide CodeOk, IsTerminator, IsObservable, EnvBut, Removed, Removable, Listed, ExecTerminator;
    RemovableMeans(f, i, b, n);
    RemovedBlocks(f, i, b, n, g);
    var inst := InstAt(f, s.blk, s.pc);
    ShiftedInst(f, i, b, n, g, s.blk, s.pc);
    UnreadBy(f, i, b, n, f.blocks[s.blk].code[s.pc]);
    if |inst.ops| > 0 { OperandBut(inst.ops[0], s.env, s'.env, f.insts[i].result); }
    assert Step(f, o, s) == ExecTerminator(f, inst, s);
    assert Step(g, o, s') == ExecTerminator(g, inst, s');
    hide Step, HasInst;
    EndSame(f, g, inst, s, s', f.insts[i].result);
  }

  lemma StepMatches(f: Function, g: Function, o: Oracle, i: nat, b: nat, n: nat, s: State, s': State)
    requires Removable(f, i, b, n) && Removed(f, i, b, n, g) && Match(f, i, b, n, s, s') && !(s.blk == b && s.pc == n)
    requires Step(f, o, s) != Stuck
    ensures MatchOutcome(f, i, b, n, Step(f, o, s), Step(g, o, s'))
  {
    assert HasInst(f, s.blk, s.pc);
    hide Step, Removable, Removed, Match, IsTerminator, MatchOutcome;
    if IsTerminator(InstAt(f, s.blk, s.pc).opcode) {
      TerminatorSame(f, g, o, i, b, n, s, s');
    } else if InstAt(f, s.blk, s.pc).opcode == PHI {
      PhiSelect(f, g, o, i, b, n, s, s');
    } else {
      PlainSame(f, g, o, i, b, n, s, s');
    }
  }

  lemma StartMatches(f: Function, g: Function, i: nat, b: nat, n: nat, args: Env)
    requires Removed(f, i, b, n, g)
    ensures Match(f, i, b, n, Init(f, args), Init(g, args))
  {
  }

  /** A run of f, with the removed instruction's turns left out, is a run of g. */
  lemma {:induction false} RemoveFollows(f: Function, g: Function, o: Oracle, i: nat, b: nat, n: nat, args: Env, k: nat)
    returns (m: nat)
    requires Removable(f, i, b, n) && Removed(f, i, b, n, g) && Run(f, o, args, k) != Stuck
    ensures MatchOutcome(f, i, b, n, Run(f, o, args, k), Run(g, o, args, m))
  {
    hide Step, Removable, Removed, Match;
    if k == 0 {
      m := 0;
      StartMatches(f, g, i, b, n, args);
    } else {
      m := RemoveFollows(f, g, o, i, b, n, args, k - 1);
      var before := Run(f, o, args, k - 1);
      if before.Running? {
        var s, s' := before.s, Run(g, o, args, m).s;
        if s.blk == b && s.pc == n {
          SkipStep(f, o, i, b, n, s, s');
        } else {
          StepMatches(f, g, o, i, b, n, s, s');
          assert Run(g, o, args, m + 1) == Step(g, o, s');
          m := m + 1;
        }
      }
    }
  }

  /** Removing an unread, unseen instruction keeps how every run ends. */
  lemma RemoveKeepsEnds(f: Function, i: nat, b: nat, n: nat, o: Oracle, args: Env)
    requires Removable(f, i, b, n)
    ensures KeepsEnds(f, RemoveInst(f, i), o, args)
  {
    var g := RemoveInst(f, i);
    RemoveIsRemoved(f, i, b, n);
    hide Run, Removable, Removed, RemoveInst;
    forall k: nat | Ends(Run(f, o, args, k)) ensures ReachesEnd(g, o, args, Run(f, o, args, k)) {
      var m := RemoveFollows(f, g, o, i, b, n, args, k);
      assert Run(g, o, args, m) == Run(f, o, args, k);
    }
  }
}
