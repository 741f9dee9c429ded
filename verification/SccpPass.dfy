/** The rewriting loops of ny_opt_pass_sccp (src/opt/sccp.c) on the stored function. */
module SccpPass {
  import opened Opcodes
  import opened IntFold
  import opened Ir
  import opened IrEdit
  import opened FunctionStore
  import opened SccpLattice
  import opened SccpSteps
  import opened SccpTight
  import opened Sccp
  import opened SccpRewrite
  import opened SccpApplied
  import opened SccpTwins

  /** PHIs carry whole pairs. */
  ghost predicate PhisEven(f: Function) {
    forall i :: 0 <= i < |f.insts| && f.insts[i].opcode == PHI ==> |f.insts[i].ops| % 2 == 0
  }

  lemma PhisEvenAt(f: Function, b: nat)
    requires PhisEven(f)
    ensures EvenPhis(f, b)
  {
  }

  lemma {:induction false} DropPairsEven(ops: seq<Operand>, p: nat)
    requires |ops| % 2 == 0
    ensures |DropPairs(ops, p)| % 2 == 0
  {
    if |ops| >= 2 { DropPairsEven(ops[2..], p); }
  }

  lemma ForgetEven(g: Function, d: nat, b: nat)
    requires PhisEven(g)
    ensures PhisEven(RemovePhiIncoming(g, d, b))
  {
    hide DropPairs;
    var h := RemovePhiIncoming(g, d, b);
    forall i | 0 <= i < |h.insts| && h.insts[i].opcode == PHI ensures |h.insts[i].ops| % 2 == 0 {
      DropPairsEven(g.insts[i].ops, b);
    }
  }

  lemma FoldBranchEven(g: Function, s: Facts, b: nat)
    requires PhisEven(g)
    ensures PhisEven(FoldBranch(g, s, b))
  {
    hide RemovePhiIncoming, LeadingPhis, SwapRemove, FoldsBranch;
    if FoldsBranch(g, s, b) {
      FoldsInRange(g, s, b);
      var dead := DeadBlock(g, s, b);
      var g' := WithInst(g, LastId(g, b), AsBranch(g, s, b));
      assert PhisEven(g');
      if dead < |g.blocks| {
        assert PhisEven(RemoveEdge(g', b, dead));
        ForgetEven(RemoveEdge(g', b, dead), dead, b);
      }
    }
  }

  lemma FoldsInRange(g: Function, s: Facts, b: nat)
    requires FoldsBranch(g, s, b)
    ensures b < |g.blocks| && HasLast(g, b)
  {
  }

  /** The tail pointer of a block is its last instruction. */
  lemma TailIsLast(insts: seq<InstRec>, pool: seq<Operand>, blocks: seq<BlockRec>, code: seq<seq<nat>>, f: Function,
                   b: nat)
    requires ListsOk(insts, blocks, code) && b < |blocks|
    requires f.blocks == BlocksOf(blocks, code) && f.insts == InstsOf(insts, pool)
    ensures blocks[b].last.Some? <==> HasLast(f, b)
    ensures HasLast(f, b) ==> blocks[b].last == Some(LastId(f, b)) && insts[LastId(f, b)].opcode != NONE
  {
    assert ListOk(insts, blocks[b], code[b], b);
    if |code[b]| > 0 { assert LinkOk(insts, code[b], b, |code[b]| - 1); }
  }

  /** Reading the terminator of block b off the store. */
  method ReadBranchIf(store: Store, b: nat) returns (found: bool, i: nat, cond: Operand, t: nat, e: nat)
    requires store.Valid() && b < |store.blocks|
    ensures var f := store.Snapshot();
            found <==> HasLast(f, b) && IsBranchIf(Last(f, b))
    ensures var f := store.Snapshot();
            found ==> HasLast(f, b) && i == LastId(f, b) && Last(f, b).ops == [cond, OpBlock(t), OpBlock(e)]
                      && i < |store.insts| && store.insts[i].opCount > 0 && store.insts[i].opcode != NONE
  {
    ghost var f := store.Snapshot();
    TailIsLast(store.insts, store.pool, store.blocks, store.code, f, b);
    PoolLengths(store.insts, store.pool);
    found, i, cond, t, e := false, 0, OpNone, 0, 0;
    var last := store.blocks[b].last;
    hide ListsOk, PoolOk;
    if last.None? { return; }
    var r := store.insts[last.value];
    assert f.insts[last.value].ops == OperandsOf(store.pool, r);
    if r.opcode == BRANCH_IF && r.opCount == 3 {
      PoolCell(store.insts, store.pool, last.value, 0);
      PoolCell(store.insts, store.pool, last.value, 1);
      PoolCell(store.insts, store.pool, last.value, 2);
      hide OperandsOf;
      var op1, op2 := store.pool[r.opStart + 1], store.pool[r.opStart + 2];
      if op1.OpBlock? && op2.OpBlock? {
        found, i, cond, t, e := true, last.value, store.pool[r.opStart], op1.blk, op2.blk;
      }
    }
  }

  /** The edits that decide the branch of block b. */
  lemma DecideFacts(f: Function, s: Facts, b: nat, cond: Operand, t: nat, e: nat)
    requires HasLast(f, b) && IsBranchIf(Last(f, b)) && Last(f, b).ops == [cond, OpBlock(t), OpBlock(e)]
    requires b < |s.exec| && s.exec[b] && OperandLat(s.lat, cond).Constant? && PhisEven(f)
    ensures var c := OperandLat(s.lat, cond).c;
            var taken, dead := if c != 0 then t else e, if c != 0 then e else t;
            var f1 := WithInst(f, LastId(f, b), f.insts[LastId(f, b)].(opcode := BRANCH, ops := [OpBlock(taken)]));
            if dead < |f.blocks| then
              && EvenPhis(RemoveEdge(f1, b, dead), dead)
              && FoldBranch(f, s, b) == RemovePhiIncoming(RemoveEdge(f1, b, dead), dead, b)
            else FoldBranch(f, s, b) == f1
  {
    hide RemovePhiIncoming, LeadingPhis, SwapRemove, EvenPhis;
    var c := OperandLat(s.lat, cond).c;
    var taken, dead := if c != 0 then t else e, if c != 0 then e else t;
    assert FoldsBranch(f, s, b) && TakenBlock(f, s, b) == taken && DeadBlock(f, s, b) == dead;
    var f1 := WithInst(f, LastId(f, b), f.insts[LastId(f, b)].(opcode := BRANCH, ops := [OpBlock(taken)]));
    if dead < |f.blocks| {
      assert RemoveEdge(f1, b, dead).insts == f1.insts;
      PhisEvenAt(RemoveEdge(f1, b, dead), dead);
    }
  }

  lemma NothingToDecide(f: Function, s: Facts, b: nat)
    requires HasLast(f, b) && IsBranchIf(Last(f, b)) && b < |s.exec| && s.exec[b] ==>
               !OperandLat(s.lat, Last(f, b).ops[0]).Constant?
    ensures FoldBranch(f, s, b) == f
  {
  }

  /** One turn of the second loop: decides the branch of block b where its condition is a constant. */
  method DecideBranch(store: Store, s: Facts, b: nat)
    requires store.Valid() && b < |store.blocks| && PhisEven(store.Snapshot())
    modifies store
    ensures store.Valid() && store.Snapshot() == FoldBranch(old(store.Snapshot()), s, b)
    ensures |store.blocks| == |old(store.blocks)|
  {
    hide ListsOk, PoolOk, RemovePhiIncoming, InstsOf, BlocksOf, Last, HasLast, SwapRemove, FoldBranch, PhisEven,
      EvenPhis, RemoveEdge;
    ghost var f := store.Snapshot();
    if b >= |s.exec| || !s.exec[b] {
      NothingToDecide(f, s, b);
      return;
    }
    var found, i, cond, t, e := ReadBranchIf(store, b);
    if !found {
      NothingToDecide(f, s, b);
      return;
    }
    var c := OperandLat(s.lat, cond);
    if !c.Constant? {
      NothingToDecide(f, s, b);
      return;
    }
    DecideFacts(f, s, b, cond, t, e);
    var taken, dead := if c.c != 0 then t else e, if c.c != 0 then e else t;
    store.Specialize(i, BRANCH, OpBlock(taken));
    if dead < |store.blocks| {
      store.DropEdge(b, dead);
      store.DropPhiIncoming(dead, b);
    }
  }

  /** One turn of the first loop: instruction i becomes CONST where its cell is a constant. */
  method FoldConstant(store: Store, s: Facts, i: nat, ghost f: Function)
    requires store.Valid() && i < |store.insts| && IsFixpoint(f, s) && store.Snapshot() == ConstsUpTo(f, s, i)
    requires forall j :: 0 <= j < |f.insts| && f.insts[j].opcode != NONE ==> Listed(f, j)
    modifies store`insts, store`pool
    ensures store.Valid() && store.Snapshot() == ConstsUpTo(f, s, i + 1)
    ensures |store.insts| == |old(store.insts)|
  {
    NextConst(f, s, i);
    PoolLengths(store.insts, store.pool);
    var inst := store.insts[i];
    assert InstOf(inst, store.pool) == f.insts[i] by { assert store.Snapshot().insts[i] == InstOf(inst, store.pool); }
    if ConstCell(f, s, i) { ConstReads(f, s, i); }
    hide ListsOk, PoolOk, IsFixpoint, OperandsOf, Listed, InstsOf, BlocksOf, ConstsUpTo;
    if && inst.opcode != NONE && inst.opcode != CONST && inst.result.Some?
       && inst.block < |s.exec| && s.exec[inst.block]
       && inst.result.value < |s.lat| && s.lat[inst.result.value].Constant?
    {
      store.Specialize(i, CONST, OpInt(s.lat[inst.result.value].c));
    }
  }

  lemma NextConst(f: Function, s: Facts, i: nat)
    requires i < |f.insts|
    ensures var g := ConstsUpTo(f, s, i);
            && g.insts[i] == f.insts[i]
            && ConstsUpTo(f, s, i + 1) == if ConstCell(f, s, i) then WithInst(g, i, AsConst(f, s, i)) else g
  {
    var g := ConstsUpTo(f, s, i);
    hide ConstCell, AsConst;
    assert ConstsUpTo(f, s, i + 1).insts == if ConstCell(f, s, i) then g.insts[i := AsConst(f, s, i)] else g.insts;
  }

  lemma ConstReads(f: Function, s: Facts, i: nat)
    requires IsFixpoint(f, s) && ConstCell(f, s, i) && Listed(f, i)
    ensures |f.insts[i].ops| > 0
  {
    hide EvalInstruction;
    assert InstSettled(f, s, i);
    ConstOpcode(f, s, f.insts[i]);
  }

  lemma LiveIsListed(insts: seq<InstRec>, pool: seq<Operand>, blocks: seq<BlockRec>, code: seq<seq<nat>>, f: Function)
    requires ListsOk(insts, blocks, code)
    requires f.blocks == BlocksOf(blocks, code) && f.insts == InstsOf(insts, pool)
    ensures forall j :: 0 <= j < |f.insts| && f.insts[j].opcode != NONE ==> Listed(f, j)
  {
    hide ListOk;
  }

  lemma ConstsStart(f: Function, s: Facts)
    ensures ConstsUpTo(f, s, 0) == f
  {
    assert ConstsUpTo(f, s, 0).insts == f.insts;
  }

  lemma ConstsEven(f: Function, s: Facts, k: nat)
    requires PhisEven(f)
    ensures PhisEven(ConstsUpTo(f, s, k)) && |ConstsUpTo(f, s, k).blocks| == |f.blocks|
  {
  }

  method FoldConstants(store: Store, s: Facts)
    requires store.Valid() && IsFixpoint(store.Snapshot(), s)
    modifies store`insts, store`pool
    ensures store.Valid() && store.Snapshot() == ConstsUpTo(old(store.Snapshot()), s, |old(store.insts)|)
  {
    ghost var f := store.Snapshot();
    LiveIsListed(store.insts, store.pool, store.blocks, store.code, f);
    hide ListsOk, PoolOk, IsFixpoint, InstsOf, BlocksOf, Listed, ConstsUpTo;
    ConstsStart(f, s);
    var i := 0;
    while i < |store.insts|
      invariant 0 <= i <= |store.insts| == |old(store.insts)| && store.Valid()
                && store.Snapshot() == ConstsUpTo(f, s, i)
    {
      FoldConstant(store, s, i, f);
      i := i + 1;
    }
  }

  method DecideBranches(store: Store, s: Facts)
    requires store.Valid() && PhisEven(store.Snapshot())
    modifies store
    ensures store.Valid() && store.Snapshot() == FoldBranches(old(store.Snapshot()), s, |old(store.blocks)|)
  {
    hide ListsOk, PoolOk, FoldBranch, InstsOf, BlocksOf, PhisEven;
    ghost var g := store.Snapshot();
    var b := 0;
    while b < |store.blocks|
      invariant 0 <= b <= |store.blocks| == |old(store.blocks)| && store.Valid()
                && store.Snapshot() == FoldBranches(g, s, b)
      invariant PhisEven(store.Snapshot())
    {
      FoldBranchEven(store.Snapshot(), s, b);
      DecideBranch(store, s, b);
      b := b + 1;
    }
  }

  /** Both loops: the store ends as the rewritten function. */
  method Rewrite(store: Store, s: Facts)
    requires store.Valid() && IsFixpoint(store.Snapshot(), s) && PhisEven(store.Snapshot())
    modifies store
    ensures store.Valid() && store.Snapshot() == Rewritten(old(store.Snapshot()), s)
  {
    ghost var f := store.Snapshot();
    ConstsEven(f, s, |f.insts|);
    hide ListsOk, PoolOk, IsFixpoint, ConstsUpTo, FoldBranches, PhisEven;
    FoldConstants(store, s);
    DecideBranches(store, s);
  }

  /**
   * ny_opt_pass_sccp on the stored function f: the solver's answer is above every solution ref, the store ends as the
   * rewritten function, and where no folded twin costs a PHI an input every run that does not get stuck is unchanged.
   */
  method Propagate(store: Store, f: Function, users: seq<seq<nat>>, ghost ref: Facts) returns (s: Facts)
    requires store.Valid() && f == store.Snapshot() && CodeOk(f) && ResultsOk(f) && PhisEven(f) && UsersOk(f, users)
    modifies store
    ensures store.Valid() && store.Snapshot() == Rewritten(f, s) && Applied(f, s, store.Snapshot())
    ensures IsSolution(f, s) && (IsSolution(f, ref) ==> Above(s, ref)) && Precise(f, s)
    ensures IntegerFunction(f) && TwinsLoseNothing(f, s) ==>
              forall o: Oracle, args: Env, k: nat :: GoodArgs(f, args) && Run(f, o, args, k) != Stuck ==>
                Run(store.Snapshot(), o, args, k) == Run(f, o, args, k)
  {
    hide CodeOk, ResultsOk, PhisEven, UsersOk, Above, ListsOk, PoolOk, InstsOf, BlocksOf, IntegerFunction,
      TwinsLoseNothing, Rewritten, GoodArgs;
    hide IsFixpoint, BelowInitial, Precise, Applied;
    var solver := new Solver(f);
    solver.Solve(users, ref);
    s := Facts(solver.lat[..], solver.blockExec[..], solver.edges, solver.cfgWork, solver.ssaWork);
    Rewrite(store, s);
    RewriteApplies(f, s);
    if IntegerFunction(f) && TwinsLoseNothing(f, s) {
      forall o: Oracle, args: Env, k: nat | GoodArgs(f, args) && Run(f, o, args, k) != Stuck
        ensures Run(store.Snapshot(), o, args, k) == Run(f, o, args, k)
      {
        SccpPreservesRuns(f, o, s, args, k);
      }
    }
  }
}
