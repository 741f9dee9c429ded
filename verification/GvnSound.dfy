/**
 * Why sharing is right in src/opt/gvn.c: below an instruction its result holds the value of its expression, so a
 * dominating instruction with an equal key has the same value in the current iteration of every loop.
 */
module GvnSound {
  import opened Opcodes
  import opened IntFold
  import opened Cfg
  import opened Ir
  import opened SccpLattice
  import opened Validate
  import opened ValidateSound
  import opened GvnKeys

  /** An accepted integer function; keys of candidates hold all operands. */
  ghost predicate Ready(f: Function) {
    && Accepts(f) && Consistent(f) && CodeOk(f) && ResultsOk(f) && IntegerFunction(f)
    && (forall i: nat :: i < |f.insts| && IsCandidate(f, f.insts[i]) ==> KeyIsWhole(f, f.insts[i]))
  }

  /** Instruction i is a candidate at position n of block b. */
  ghost predicate CandidateAt(f: Function, i: nat, b: nat, n: nat) {
    HasInst(f, b, n) && f.blocks[b].code[n] == i && IsCandidate(f, f.insts[i])
  }

  /** Every way to this point has passed position n of block b since b was last entered. */
  ghost predicate After(f: Function, b: nat, n: nat, blk: nat, pc: nat) {
    if blk == b then pc > n else Dominates(GraphOf(f), b, blk)
  }

  /** Instruction d comes before position n of block b on every way there. */
  ghost predicate Precedes(f: Function, d: nat, b: nat, n: nat)
    requires b < |f.blocks| && n <= |f.blocks[b].code| && d < |f.insts|
  {
    if f.insts[d].block == b then exists q :: 0 <= q < n && f.blocks[b].code[q] == d
    else Strictly(f, f.insts[d].block, b)
  }

  lemma DominanceTransitive(g: Graph, a: nat, b: nat, c: nat)
    requires Dominates(g, a, b) && Dominates(g, b, c)
    ensures Dominates(g, a, c)
  {
    forall p | PathTo(g, p, c) ensures a in p {
      var k :| 0 <= k < |p| && p[k] == b;
      PathPrefix(g, p, c, k);
      assert a in p[..k + 1];
    }
  }

  /** Two different reachable blocks do not dominate each other. */
  lemma {:induction false} DominanceAntisymmetric(g: Graph, a: nat, b: nat, p: seq<nat>)
    requires Dominates(g, a, b) && Dominates(g, b, a) && PathTo(g, p, a)
    ensures a == b
    decreases |p|
  {
    if a != b {
      var k :| 0 <= k < |p| && p[k] == b;
      PathPrefix(g, p, a, k);
      var q := p[..k + 1];
      var j :| 0 <= j < |q| && q[j] == a;
      PathPrefix(g, q, b, j);
      DominanceAntisymmetric(g, a, b, q[..j + 1]);
    }
  }

  /** What precedes a point is not executed again after it before the point's block is entered anew. */
  lemma NotAfter(f: Function, d: nat, b: nat, n: nat, blk: nat, pc: nat)
    requires CodeOk(f) && b < |f.blocks| && n < |f.blocks[b].code| && d < |f.insts| && Precedes(f, d, b, n)
    requires After(f, b, n, blk, pc) || (blk == b && pc == n)
    requires HasInst(f, blk, pc) && Reachable(GraphOf(f), blk)
    ensures f.blocks[blk].code[pc] != d
  {
    var home := f.insts[d].block;
    if home != b && home == blk {
      var p :| PathTo(GraphOf(f), p, blk);
      DominanceAntisymmetric(GraphOf(f), blk, b, p);
    }
  }

  lemma NotAgain(f: Function, i: nat, b: nat, n: nat, blk: nat, pc: nat)
    requires CodeOk(f) && HasInst(f, b, n) && f.blocks[b].code[n] == i
    requires After(f, b, n, blk, pc) && HasInst(f, blk, pc)
    ensures f.blocks[blk].code[pc] != i
  {
    hide Dominates;
    assert f.insts[i].block == b && f.insts[f.blocks[blk].code[pc]].block == blk;
  }

  /** The definitions of a plain instruction's operands precede it. */
  lemma OperandPrecedes(f: Function, b: nat, n: nat, k: nat)
    requires Accepts(f) && HasInst(f, b, n) && InstAt(f, b, n).opcode != PHI && k < |InstAt(f, b, n).ops|
    ensures var op := InstAt(f, b, n).ops[k];
            op.OpValue? ==>
              && op.val < |f.vals|
              && (f.vals[op.val].kind == InstructionValue ==>
                   f.vals[op.val].def.Some? && f.vals[op.val].def.value < |f.insts|
                     && Precedes(f, f.vals[op.val].def.value, b, n))
  {
    hide Reachable, Dominates;
    assert BlockAccepted(f, b);
    assert InstAccepted(f, b, n);
    assert OperandAccepted(f, b, n, k);
  }

  lemma CandidateIsPlain(inst: Instruction)
    requires IsGvnCandidate(inst.opcode) && !inst.isVolatile
    ensures inst.opcode != PHI && !IsTerminator(inst.opcode) && !IsObservable(inst) && inst.opcode != NONE
            && inst.opcode != CONST
  {
  }

  /** An instruction executed below i, or i itself, does not change what i reads. */
  lemma ResultNotOperand(f: Function, i: nat, b: nat, n: nat, blk: nat, pc: nat)
    requires Ready(f) && CandidateAt(f, i, b, n)
    requires After(f, b, n, blk, pc) || (blk == b && pc == n)
    requires HasInst(f, blk, pc) && Reachable(GraphOf(f), blk) && InstAt(f, blk, pc).result.Some?
    ensures OpValue(InstAt(f, blk, pc).result.value) !in f.insts[i].ops
  {
    var m := f.blocks[blk].code[pc];
    var r := f.insts[m].result.value;
    CandidateIsPlain(f.insts[i]);
    assert Listed(f, m);
    assert f.vals[r].kind == InstructionValue && f.vals[r].def == Some(m);
    hide Accepts, IsGvnCandidate, Reachable, Dominates, IntegerFunction, Consistent;
    forall k | 0 <= k < |f.insts[i].ops| ensures f.insts[i].ops[k] != OpValue(r) {
      OperandPrecedes(f, b, n, k);
      if f.insts[i].ops[k] == OpValue(r) { NotAfter(f, m, b, n, blk, pc); }
    }
  }

  /** Different listed instructions store different values. */
  lemma ResultsApart(f: Function, i: nat, m: nat)
    requires CodeOk(f) && ResultsOk(f) && Listed(f, i) && Listed(f, m) && i != m && f.insts[i].result.Some?
    ensures f.insts[m].result != f.insts[i].result
  {
  }

  lemma ReadyMeans(f: Function)
    requires Ready(f)
    ensures CodeOk(f) && ResultsOk(f) && EdgesOk(f)
    ensures forall i: nat :: i < |f.insts| && IsCandidate(f, f.insts[i]) ==> KeyIsWhole(f, f.insts[i])
  {
    hide CodeOk, ResultsOk, EdgesOk, IsCandidate, KeyIsWhole, IntegerFunction;
  }

  /** What stands at a position is in its block's list. */
  lemma ListedAt(f: Function, b: nat, n: nat)
    requires CodeOk(f) && HasInst(f, b, n)
    ensures Listed(f, f.blocks[b].code[n]) && f.insts[f.blocks[b].code[n]].block == b
  {
  }

  // ---------------------------------------------------------------- a result holds its expression

  ghost predicate Holds(f: Function, o: Oracle, inst: Instruction, env: Env) {
    && inst.result.Some? && inst.result.value in env && AllReadable(inst.ops, env)
    && ComputeAt(f, o, inst, env, []).Some?
    && env[inst.result.value] == Sext(ComputeAt(f, o, inst, env, []).value, ResultWidth(f, inst))
  }

  ghost predicate HoldsBelow(f: Function, o: Oracle, i: nat, b: nat, n: nat, st: State)
    requires i < |f.insts|
  {
    After(f, b, n, st.blk, st.pc) ==> Holds(f, o, f.insts[i], st.env)
  }

  lemma ArgsAfter(ops: seq<Operand>, env: Env, r: nat, x: int)
    requires OpValue(r) !in ops && AllReadable(ops, env)
    ensures AllReadable(ops, env[r := x]) && ArgsOf(ops, env[r := x]) == ArgsOf(ops, env)
  {
    forall k | 0 <= k < |ops|
      ensures Readable(ops[k], env[r := x]) && ArgOf(ops[k], env[r := x]) == ArgOf(ops[k], env)
    {
      assert ops[k] in ops;
    }
  }

  lemma StoreKeepsHolds(f: Function, o: Oracle, inst: Instruction, env: Env, r: nat, x: int)
    requires Holds(f, o, inst, env) && inst.result != Some(r) && OpValue(r) !in inst.ops
    ensures Holds(f, o, inst, env[r := x])
  {
    ArgsAfter(inst.ops, env, r, x);
    hide Compute, Sext, ResultWidth, ResultType, CmpWidth, AllReadable;
  }

  lemma ExecutedHolds(f: Function, o: Oracle, inst: Instruction, env: Env, t: seq<Event>)
    requires inst.result.Some? && IsGvnCandidate(inst.opcode) && AllReadable(inst.ops, env)
    requires OpValue(inst.result.value) !in inst.ops && ComputeAt(f, o, inst, env, t).Some?
    ensures Holds(f, o, inst, Store(f, inst, env, ComputeAt(f, o, inst, env, t).value))
  {
    var x := Sext(ComputeAt(f, o, inst, env, t).value, ResultWidth(f, inst));
    ArgsAfter(inst.ops, env, inst.result.value, x);
    hide Compute, Sext, ResultWidth, ResultType, CmpWidth, AllReadable, IsGvnCandidate;
    CandidateIgnoresTrace(o, inst.opcode, ResultType(f, inst), CmpWidth(f, inst), OperandTypes(f, inst.ops),
                          ArgsOf(inst.ops, env), t, []);
  }

  /** What a step inside a block does to the environment. */
  lemma StepStores(f: Function, o: Oracle, st: State)
    requires Step(f, o, st).Running? && HasInst(f, st.blk, st.pc) && !IsTerminator(InstAt(f, st.blk, st.pc).opcode)
    ensures var inst, st' := InstAt(f, st.blk, st.pc), Step(f, o, st).s;
            && st' == st.(pc := st.pc + 1, env := st'.env, trace := st'.trace)
            && (inst.result.None? ==> st'.env == st.env)
            && (inst.result.Some? ==> inst.result.value in st'.env
                                      && st'.env == st.env[inst.result.value := st'.env[inst.result.value]])
  {
    var inst := InstAt(f, st.blk, st.pc);
    if inst.opcode == PHI { PhiStepIs(f, o, st); } else { PlainStepIs(f, o, st); }
    hide Step, PhiOperand, ComputeAt, TraceAfter, IsTerminator, Sext, ResultWidth;
  }

  lemma HoldsExecuted(f: Function, o: Oracle, i: nat, b: nat, n: nat, st: State)
    requires Ready(f) && CandidateAt(f, i, b, n) && Reachable(GraphOf(f), b)
    requires st.blk == b && st.pc == n && Step(f, o, st).Running?
    ensures Holds(f, o, f.insts[i], Step(f, o, st).s.env)
  {
    var inst := f.insts[i];
    CandidateIsPlain(inst);
    ResultNotOperand(f, i, b, n, b, n);
    PlainStepIs(f, o, st);
    hide Step, Ready, ComputeAt, Store, IsGvnCandidate, Holds, AllReadable, Reachable, TraceAfter;
    ExecutedHolds(f, o, inst, st.env, st.trace);
  }

  lemma HoldsStored(f: Function, o: Oracle, i: nat, env: Env)
    requires i < |f.insts| && Holds(f, o, f.insts[i], env)
    ensures f.insts[i].result.Some?
  {
  }

  lemma HoldsElsewhere(f: Function, o: Oracle, i: nat, b: nat, n: nat, st: State)
    requires Ready(f) && CandidateAt(f, i, b, n) && Reachable(GraphOf(f), st.blk) && After(f, b, n, st.blk, st.pc)
    requires Holds(f, o, f.insts[i], st.env) && Step(f, o, st).Running?
    requires HasInst(f, st.blk, st.pc) && !IsTerminator(InstAt(f, st.blk, st.pc).opcode)
    ensures Holds(f, o, f.insts[i], Step(f, o, st).s.env)
  {
    hide Step, Ready, Holds, Reachable, Dominates, CodeOk, ResultsOk, IsTerminator, Listed, IsCandidate, After;
    var inst, st' := InstAt(f, st.blk, st.pc), Step(f, o, st).s;
    StepStores(f, o, st);
    ReadyMeans(f);
    ListedAt(f, b, n);
    ListedAt(f, st.blk, st.pc);
    if inst.result.Some? {
      ResultNotOperand(f, i, b, n, st.blk, st.pc);
      NotAgain(f, i, b, n, st.blk, st.pc);
      HoldsStored(f, o, i, st.env);
      ResultsApart(f, i, f.blocks[st.blk].code[st.pc]);
      StoreKeepsHolds(f, o, f.insts[i], st.env, inst.result.value, st'.env[inst.result.value]);
    }
  }

  lemma HoldsWithin(f: Function, o: Oracle, i: nat, b: nat, n: nat, st: State)
    requires Ready(f) && CandidateAt(f, i, b, n) && Reachable(GraphOf(f), st.blk) && HoldsBelow(f, o, i, b, n, st)
    requires Step(f, o, st).Running? && HasInst(f, st.blk, st.pc) && !IsTerminator(InstAt(f, st.blk, st.pc).opcode)
    ensures HoldsBelow(f, o, i, b, n, Step(f, o, st).s)
  {
    hide Step, Ready, Holds, Reachable, Dominates, IsTerminator, IsCandidate;
    StepStores(f, o, st);
    var st' := Step(f, o, st).s;
    if After(f, b, n, st'.blk, st'.pc) {
      if st.blk == b && st.pc == n { HoldsExecuted(f, o, i, b, n, st); } else { HoldsElsewhere(f, o, i, b, n, st); }
    }
  }

  /** Below an instruction after taking an edge, below it before. */
  lemma AfterEdge(f: Function, i: nat, b: nat, n: nat, blk: nat, pc: nat, t: nat)
    requires CandidateAt(f, i, b, n) && Edge(GraphOf(f), blk, t) && After(f, b, n, t, 0)
    requires HasInst(f, blk, pc) && pc + 1 == |f.blocks[blk].code| && IsTerminator(InstAt(f, blk, pc).opcode)
    ensures After(f, b, n, blk, pc)
  {
    CandidateIsPlain(f.insts[i]);
    DominatesBefore(GraphOf(f), b, blk, t);
  }

  lemma HoldsStep(f: Function, o: Oracle, i: nat, b: nat, n: nat, st: State)
    requires Ready(f) && CandidateAt(f, i, b, n) && Reachable(GraphOf(f), st.blk) && HoldsBelow(f, o, i, b, n, st)
    requires Step(f, o, st).Running?
    ensures HoldsBelow(f, o, i, b, n, Step(f, o, st).s)
  {
    assert HasInst(f, st.blk, st.pc);
    if IsTerminator(InstAt(f, st.blk, st.pc).opcode) {
      assert EdgesOk(f);
      TakesEdge(f, o, st);
      var st' := Step(f, o, st).s;
      hide Step, Ready, EdgesOk, Holds, Reachable, IsTerminator, Dominates, IsCandidate;
      if After(f, b, n, st'.blk, 0) { AfterEdge(f, i, b, n, st.blk, st.pc, st'.blk); }
    } else {
      hide Step, Ready, Reachable, IsTerminator, HoldsBelow;
      HoldsWithin(f, o, i, b, n, st);
    }
  }

  lemma {:induction false} RunHolds(f: Function, o: Oracle, args: Env, k: nat, i: nat, b: nat, n: nat)
    requires Ready(f) && GoodArgs(f, args) && CandidateAt(f, i, b, n) && Run(f, o, args, k).Running?
    ensures HoldsBelow(f, o, i, b, n, Run(f, o, args, k).s)
  {
    hide Step, Ready, GoodArgs, HoldsBelow, CandidateAt, Reachable;
    if k == 0 {
      InitHolds(f, o, args, i, b, n);
    } else {
      var before := Run(f, o, args, k - 1);
      RunHolds(f, o, args, k - 1, i, b, n);
      RunReaches(f, o, args, k - 1);
      HoldsStep(f, o, i, b, n, before.s);
    }
  }

  lemma InitHolds(f: Function, o: Oracle, args: Env, i: nat, b: nat, n: nat)
    requires Ready(f) && CandidateAt(f, i, b, n)
    ensures HoldsBelow(f, o, i, b, n, Init(f, args))
  {
    NothingBeforeEntry(f, i, b, n);
  }

  lemma RunReaches(f: Function, o: Oracle, args: Env, k: nat)
    requires Ready(f) && GoodArgs(f, args) && Run(f, o, args, k).Running?
    ensures Reachable(GraphOf(f), Run(f, o, args, k).s.blk)
  {
    RunKnows(f, o, args, k);
    hide Run, Reachable;
  }

  lemma NothingBeforeEntry(f: Function, i: nat, b: nat, n: nat)
    requires Ready(f) && CandidateAt(f, i, b, n)
    ensures !After(f, b, n, f.entry, 0)
  {
    assert f.entry < |f.blocks|;
    if b != f.entry && Dominates(GraphOf(f), b, f.entry) { EntryAlone(GraphOf(f), b); }
  }

  // ---------------------------------------------------------------- two instructions with equal keys

  /** j can stand in for i: it precedes i and has an equal key. */
  ghost predicate Shares(f: Function, j: nat, bj: nat, nj: nat, i: nat, b: nat, n: nat) {
    && CandidateAt(f, j, bj, nj) && CandidateAt(f, i, b, n) && i != j && Precedes(f, j, b, n)
    && KeyEqual(MakeKey(f, f.insts[j]), MakeKey(f, f.insts[i]))
  }

  ghost predicate Same(env: Env, x: nat, y: nat) {
    x in env && y in env && env[x] == env[y]
  }

  ghost predicate SameBelow(f: Function, b: nat, n: nat, x: nat, y: nat, st: State) {
    && (After(f, b, n, st.blk, st.pc) ==> Same(st.env, x, y))
    && (st.from.Some? && (st.from.value == b || Dominates(GraphOf(f), b, st.from.value)) ==> Same(st.entryEnv, x, y))
  }

  /** A point after which i comes next lies below j. */
  lemma SharedAbove(f: Function, j: nat, bj: nat, nj: nat, i: nat, b: nat, n: nat)
    requires CodeOk(f) && Shares(f, j, bj, nj, i, b, n)
    ensures After(f, bj, nj, b, n)
  {
    hide KeyEqual, MakeKey, IsCandidate, Reachable;
    assert f.insts[j].block == bj;
  }

  lemma SharedFacts(f: Function, j: nat, bj: nat, nj: nat, i: nat, b: nat, n: nat)
    requires Ready(f) && Shares(f, j, bj, nj, i, b, n)
    ensures HasInst(f, b, n) && f.blocks[b].code[n] == i && i != j && i < |f.insts| && j < |f.insts|
    ensures Listed(f, i) && Listed(f, j)
    ensures KeyIsWhole(f, f.insts[j]) && KeyIsWhole(f, f.insts[i]) && IsGvnCandidate(f.insts[j].opcode)
    ensures KeyEqual(MakeKey(f, f.insts[j]), MakeKey(f, f.insts[i]))
    ensures f.insts[i].opcode != PHI && !IsTerminator(f.insts[i].opcode)
    ensures f.insts[i].result.Some? && f.insts[j].result.Some? && f.insts[i].result != f.insts[j].result
  {
    ReadyMeans(f);
    hide Ready, KeyEqual, MakeKey, IsGvnCandidate, KeyIsWhole, Precedes, CodeOk, ResultsOk, Listed, IsTerminator,
      IsObservable;
    CandidateIsPlain(f.insts[i]);
    ListedAt(f, b, n);
    ListedAt(f, bj, nj);
    ResultsApart(f, i, j);
  }

  /** Executing i stores what j's result already holds. */
  lemma ShareExecutes(f: Function, o: Oracle, j: nat, bj: nat, nj: nat, i: nat, b: nat, n: nat, st: State)
    requires Ready(f) && Shares(f, j, bj, nj, i, b, n) && HoldsBelow(f, o, j, bj, nj, st)
    requires st.blk == b && st.pc == n && Step(f, o, st).Running?
    ensures Same(Step(f, o, st).s.env, f.insts[i].result.value, f.insts[j].result.value)
  {
    hide Step, Ready, Shares, ComputeAt, KeyEqual, MakeKey, IsGvnCandidate, IsTerminator, KeyIsWhole, AllReadable,
      Sext, ResultWidth, TraceAfter, Listed, After, CodeOk, ResultsOk, EdgesOk;
    ReadyMeans(f);
    SharedFacts(f, j, bj, nj, i, b, n);
    var a, c := f.insts[j], f.insts[i];
    SharedAbove(f, j, bj, nj, i, b, n);
    PlainStepIs(f, o, st);
    EqualKeysComputeAlike(f, o, a, c, st.env, [], st.trace);
  }

  /** Nothing below i changes either value. */
  lemma ShareUntouched(f: Function, j: nat, bj: nat, nj: nat, i: nat, b: nat, n: nat, blk: nat, pc: nat)
    requires Ready(f) && Shares(f, j, bj, nj, i, b, n) && After(f, b, n, blk, pc)
    requires HasInst(f, blk, pc) && Reachable(GraphOf(f), blk) && InstAt(f, blk, pc).result.Some?
    ensures InstAt(f, blk, pc).result != f.insts[i].result && InstAt(f, blk, pc).result != f.insts[j].result
  {
    hide Ready, KeyEqual, MakeKey, Dominates, Reachable, Listed, After, CodeOk, ResultsOk, EdgesOk, IsGvnCandidate,
      KeyIsWhole, Precedes;
    var m := f.blocks[blk].code[pc];
    ReadyMeans(f);
    SharedFacts(f, j, bj, nj, i, b, n);
    ListedAt(f, blk, pc);
    NotAgain(f, i, b, n, blk, pc);
    NotAfter(f, j, b, n, blk, pc);
    ResultsApart(f, i, m);
    ResultsApart(f, j, m);
  }

  lemma ShareElsewhere(f: Function, o: Oracle, j: nat, bj: nat, nj: nat, i: nat, b: nat, n: nat, st: State)
    requires Ready(f) && Shares(f, j, bj, nj, i, b, n) && Reachable(GraphOf(f), st.blk) && After(f, b, n, st.blk, st.pc)
    requires Same(st.env, f.insts[i].result.value, f.insts[j].result.value)
    requires Step(f, o, st).Running? && HasInst(f, st.blk, st.pc) && !IsTerminator(InstAt(f, st.blk, st.pc).opcode)
    ensures Same(Step(f, o, st).s.env, f.insts[i].result.value, f.insts[j].result.value)
  {
    StepStores(f, o, st);
    var inst := InstAt(f, st.blk, st.pc);
    hide Step, Ready, KeyEqual, MakeKey, Dominates, Reachable, IsTerminator, IsGvnCandidate, Precedes;
    if inst.result.Some? { ShareUntouched(f, j, bj, nj, i, b, n, st.blk, st.pc); }
  }

  lemma ShareWithin(f: Function, o: Oracle, j: nat, bj: nat, nj: nat, i: nat, b: nat, n: nat, st: State)
    requires Ready(f) && Shares(f, j, bj, nj, i, b, n) && HoldsBelow(f, o, j, bj, nj, st)
             && Reachable(GraphOf(f), st.blk)
    requires SameBelow(f, b, n, f.insts[i].result.value, f.insts[j].result.value, st)
    requires Step(f, o, st).Running? && HasInst(f, st.blk, st.pc) && !IsTerminator(InstAt(f, st.blk, st.pc).opcode)
    ensures SameBelow(f, b, n, f.insts[i].result.value, f.insts[j].result.value, Step(f, o, st).s)
  {
    StepStores(f, o, st);
    var st' := Step(f, o, st).s;
    hide Step, Ready, Dominates, Reachable, IsTerminator, Same, HoldsBelow, Shares;
    if After(f, b, n, st'.blk, st'.pc) {
      if st.blk == b && st.pc == n {
        ShareExecutes(f, o, j, bj, nj, i, b, n, st);
      } else {
        ShareElsewhere(f, o, j, bj, nj, i, b, n, st);
      }
    }
  }

  lemma ShareEdge(f: Function, o: Oracle, i: nat, b: nat, n: nat, x: nat, y: nat, st: State)
    requires EdgesOk(f) && CandidateAt(f, i, b, n) && SameBelow(f, b, n, x, y, st) && Step(f, o, st).Running?
    requires HasInst(f, st.blk, st.pc) && IsTerminator(InstAt(f, st.blk, st.pc).opcode)
    ensures SameBelow(f, b, n, x, y, Step(f, o, st).s)
  {
    hide Step, EdgesOk, IsTerminator, Dominates, IsGvnCandidate, IsObservable, Same;
    TakesEdge(f, o, st);
    CandidateIsPlain(f.insts[i]);
    var st' := Step(f, o, st).s;
    if After(f, b, n, st'.blk, 0) { AfterEdge(f, i, b, n, st.blk, st.pc, st'.blk); }
  }

  lemma ShareStep(f: Function, o: Oracle, j: nat, bj: nat, nj: nat, i: nat, b: nat, n: nat, st: State)
    requires Ready(f) && Shares(f, j, bj, nj, i, b, n) && HoldsBelow(f, o, j, bj, nj, st)
             && Reachable(GraphOf(f), st.blk)
    requires SameBelow(f, b, n, f.insts[i].result.value, f.insts[j].result.value, st) && Step(f, o, st).Running?
    ensures SameBelow(f, b, n, f.insts[i].result.value, f.insts[j].result.value, Step(f, o, st).s)
  {
    assert HasInst(f, st.blk, st.pc) && EdgesOk(f) && CandidateAt(f, i, b, n);
    hide Step, Ready, Reachable, IsTerminator, HoldsBelow, Shares, SameBelow, EdgesOk, CandidateAt;
    if IsTerminator(InstAt(f, st.blk, st.pc).opcode) {
      ShareEdge(f, o, i, b, n, f.insts[i].result.value, f.insts[j].result.value, st);
    } else {
      ShareWithin(f, o, j, bj, nj, i, b, n, st);
    }
  }

  /** Below i, in every run, the two results are equal; so they are at PHIs entered from there. */
  lemma {:induction false} RunShares(f: Function, o: Oracle, args: Env, k: nat, j: nat, bj: nat, nj: nat, i: nat,
                                     b: nat, n: nat)
    requires Ready(f) && GoodArgs(f, args) && Shares(f, j, bj, nj, i, b, n) && Run(f, o, args, k).Running?
    ensures SameBelow(f, b, n, f.insts[i].result.value, f.insts[j].result.value, Run(f, o, args, k).s)
  {
    hide Step, Ready, GoodArgs, HoldsBelow, CandidateAt, Reachable, Shares, SameBelow;
    if k == 0 {
      InitShares(f, args, j, bj, nj, i, b, n);
    } else {
      var before := Run(f, o, args, k - 1);
      RunShares(f, o, args, k - 1, j, bj, nj, i, b, n);
      RunReaches(f, o, args, k - 1);
      SharesCandidate(f, j, bj, nj, i, b, n);
      RunHolds(f, o, args, k - 1, j, bj, nj);
      ShareStep(f, o, j, bj, nj, i, b, n, before.s);
    }
  }

  lemma InitShares(f: Function, args: Env, j: nat, bj: nat, nj: nat, i: nat, b: nat, n: nat)
    requires Ready(f) && Shares(f, j, bj, nj, i, b, n)
    ensures SameBelow(f, b, n, f.insts[i].result.value, f.insts[j].result.value, Init(f, args))
  {
    NothingBeforeEntry(f, i, b, n);
  }

  lemma SharesCandidate(f: Function, j: nat, bj: nat, nj: nat, i: nat, b: nat, n: nat)
    requires Shares(f, j, bj, nj, i, b, n)
    ensures CandidateAt(f, j, bj, nj)
  {
  }
}
