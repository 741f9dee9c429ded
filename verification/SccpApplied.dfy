/**
 * Everything the rewriting half of src/opt/sccp.c does and nothing else, said of the function it leaves and the facts,
 * without the pass's own tests and edits.
 */
module SccpApplied {
  import opened Opcodes
  import opened IntFold
  import opened Ir
  import opened IrEdit
  import opened SccpLattice
  import opened SccpSteps
  import opened SccpPrecise
  import opened Sccp
  import opened SccpRewrite
  import opened SccpShape

  /** The facts know the result of x, an instruction of an executable block, to be c. */
  predicate ResultKnown(s: Facts, x: Instruction, c: int) {
    && x.opcode != NONE && x.block < |s.exec| && s.exec[x.block]
    && x.result.Some? && x.result.value < |s.lat| && s.lat[x.result.value] == Constant(c)
  }

  /** Block b is executable and ends in a BRANCH_IF whose condition the facts know to be c. */
  predicate BranchKnown(f: Function, s: Facts, b: nat, c: int) {
    && b < |s.exec| && s.exec[b] && HasLast(f, b) && IsBranchIf(Last(f, b)) && Knows(s.lat, Last(f, b).ops[0], c)
  }

  /** The known branch at the end of p does not go to t by the condition's other value. */
  ghost predicate Abandons(f: Function, s: Facts, p: nat, t: nat) {
    exists c :: BranchKnown(f, s, p, c) && t == Last(f, p).ops[if c != 0 then 2 else 1].blk
  }

  /** Only PHIs stand in front of position n of block b, and one at it. */
  ghost predicate AtFront(g: Function, b: nat, n: nat) {
    forall m: nat :: m <= n ==> HasInst(g, b, m) && InstAt(g, b, m).opcode == PHI
  }

  /** What the instruction at position n of block b has become. */
  ghost predicate InstApplied(f: Function, s: Facts, g: Function, b: nat, n: nat)
    requires HasInst(f, b, n) && HasInst(g, b, n)
  {
    var x, y, last := InstAt(f, b, n), InstAt(g, b, n), n + 1 == |f.blocks[b].code|;
    && (forall c :: ResultKnown(s, x, c) ==> y == x.(opcode := CONST, ops := [OpInt(c)]))
    && (forall c :: last && BranchKnown(f, s, b, c) ==>
          y == x.(opcode := BRANCH, ops := [Last(f, b).ops[if c != 0 then 1 else 2]]))
    && ((forall c :: !ResultKnown(s, x, c) && !(last && BranchKnown(f, s, b, c))) ==>
          if AtFront(g, b, n)
          then y == x.(ops := y.ops)
               && forall p :: PhiOperand(y.ops, p) == if Abandons(f, s, p, b) then None else PhiOperand(x.ops, p)
          else y == x)
  }

  /** g is f with every known result and every known branch written in, and nothing else changed. */
  ghost predicate Applied(f: Function, s: Facts, g: Function) {
    && g.entry == f.entry && g.vals == f.vals && |g.insts| == |f.insts| && |g.blocks| == |f.blocks|
    && (forall b :: 0 <= b < |f.blocks| ==> g.blocks[b].code == f.blocks[b].code)
    && (forall b: nat, n: nat :: HasInst(f, b, n) ==>
          HasInst(g, b, n) && InstApplied(f, s, g, b, n))
    && (ListsSimple(f) ==> forall b: nat, t: nat :: b < |f.blocks| ==>
          && (t in g.blocks[b].succs <==> t in f.blocks[b].succs && !Abandons(f, s, b, t))
          && (t in g.blocks[b].preds <==> t in f.blocks[b].preds && !Abandons(f, s, t, b)))
  }

  // ---------------------------------------------------------------- the pass's tests in these terms

  lemma ConstCellMeans(f: Function, s: Facts, i: nat, c: int)
    requires i < |f.insts| && f.insts[i].opcode != CONST
    ensures ResultKnown(s, f.insts[i], c) <==>
              ConstCell(f, s, i) && AsConst(f, s, i) == f.insts[i].(opcode := CONST, ops := [OpInt(c)])
  {
  }

  lemma FoldsMeans(f: Function, s: Facts, b: nat, c: int)
    ensures BranchKnown(f, s, b, c) ==>
              FoldsBranch(f, s, b)
              && AsBranch(f, s, b) == Last(f, b).(opcode := BRANCH, ops := [Last(f, b).ops[if c != 0 then 1 else 2]])
              && DeadBlock(f, s, b) == Last(f, b).ops[if c != 0 then 2 else 1].blk
    ensures FoldsBranch(f, s, b) ==> BranchKnown(f, s, b, OperandLat(s.lat, Last(f, b).ops[0]).c)
  {
    if HasLast(f, b) && IsBranchIf(Last(f, b)) { OperandCell(s.lat, Last(f, b).ops[0]); }
    hide Knows, Unseen, Varies, OperandLat;
  }

  lemma DeadMeans(f: Function, s: Facts, p: nat, t: nat)
    ensures DeadEdge(f, s, p, t) <==> Abandons(f, s, p, t)
  {
    hide Knows, DeadBlock, AsBranch;
    if Abandons(f, s, p, t) {
      var c :| BranchKnown(f, s, p, c) && t == Last(f, p).ops[if c != 0 then 2 else 1].blk;
      FoldsMeans(f, s, p, c);
    }
    if DeadEdge(f, s, p, t) {
      var c := OperandLat(s.lat, Last(f, p).ops[0]).c;
      FoldsMeans(f, s, p, c);
    }
  }

  lemma DeadInRange(f: Function, s: Facts, p: nat, t: nat)
    requires DeadEdge(f, s, p, t)
    ensures p < |f.blocks|
  {
  }

  /** Dropping the pairs of abandoned edges. */
  lemma DroppedSelects(f: Function, s: Facts, ops: seq<Operand>, b: nat, p: nat)
    ensures PhiOperand(DropDead(f, s, ops, b, |f.blocks|), p) ==
            if Abandons(f, s, p, b) then None else PhiOperand(ops, p)
  {
    DeadMeans(f, s, p, b);
    if DeadEdge(f, s, p, b) {
      DeadInRange(f, s, p, b);
      DropDeadForgets(f, s, ops, b, |f.blocks|, p);
    } else {
      DropDeadSelects(f, s, ops, b, |f.blocks|, p);
    }
  }

  /** A CONST whose cell is known already holds it. */
  lemma ConstHolds(f: Function, s: Facts, i: nat, c: int)
    requires IsFixpoint(f, s) && Listed(f, i) && f.insts[i].opcode == CONST
    requires ResultKnown(s, f.insts[i], c)
    ensures f.insts[i] == f.insts[i].(opcode := CONST, ops := [OpInt(c)])
  {
    assert InstSettled(f, s, i);
  }

  /** PHIs without a constant cell, all of them up to n, are in the run. */
  lemma {:induction false} FrontIsLeading(g: Function, code: seq<nat>, n: nat)
    requires n < |code| && forall m :: 0 <= m <= n ==> code[m] < |g.insts| && g.insts[code[m]].opcode == PHI
    ensures n < LeadingPhis(g, code)
  {
    if n > 0 {
      assert forall m :: 0 <= m <= n - 1 ==> code[1..][m] == code[m + 1];
      FrontIsLeading(g, code[1..], n - 1);
    }
  }

  lemma InRunAt(f: Function, s: Facts, b: nat, n: nat)
    requires CodeOk(f) && HasInst(f, b, n)
    ensures InRun(f, s, f.blocks[b].code[n]) <==> n < LeadingPhis(Consts(f, s), f.blocks[b].code)
  {
    hide LeadingPhis, ConstCell;
    var code := f.blocks[b].code;
    var m := LeadingPhis(Consts(f, s), code);
    if InRun(f, s, code[n]) {
      var k :| 0 <= k < m && code[k] == code[n];
      assert k == n;
    }
    if n < m { assert code[..m][n] == code[n]; }
  }

  lemma FrontMeans(f: Function, s: Facts, g: Function, b: nat, n: nat)
    requires CodeOk(f) && InstsAfter(f, s, |f.blocks|, g) && HasInst(f, b, n)
    ensures AtFront(g, b, n) <==> InRun(f, s, f.blocks[b].code[n])
  {
    hide AfterInst, ConstCell;
    var code, h := f.blocks[b].code, Consts(f, s);
    InRunAt(f, s, b, n);
    forall m: nat | m < |code|
      ensures HasInst(g, b, m) && (InstAt(g, b, m).opcode == PHI <==> h.insts[code[m]].opcode == PHI)
    {
      assert g.insts[code[m]] == AfterInst(f, s, |f.blocks|, code[m]);
      OpcodeAfterInst(f, s, |f.blocks|, code[m]);
      ConstsPhi(f, s, code[m]);
    }
    if AtFront(g, b, n) {
      forall m | 0 <= m <= n ensures h.insts[code[m]].opcode == PHI {
        assert InstAt(g, b, m).opcode == PHI;
      }
      FrontIsLeading(h, code, n);
    }
  }

  lemma ConstsPhi(f: Function, s: Facts, i: nat)
    requires i < |f.insts|
    ensures Consts(f, s).insts[i].opcode == PHI <==> f.insts[i].opcode == PHI && !ConstCell(f, s, i)
  {
  }

  // ---------------------------------------------------------------- the whole

  lemma KnownCase(f: Function, s: Facts, i: nat, c: int)
    requires IsFixpoint(f, s) && Listed(f, i) && ResultKnown(s, f.insts[i], c)
    ensures AfterInst(f, s, |f.blocks|, i) == f.insts[i].(opcode := CONST, ops := [OpInt(c)])
  {
    hide IsFixpoint, InRun, DropDead;
    var x := f.insts[i];
    if x.opcode == CONST {
      ConstHolds(f, s, i, c);
      if InRun(f, s, i) { RunIsPhi(f, s, i); }
    } else {
      ConstCellMeans(f, s, i, c);
    }
  }

  lemma FoldsKnown(f: Function, s: Facts, b: nat)
    requires FoldsBranch(f, s, b)
    ensures HasLast(f, b) && exists c :: BranchKnown(f, s, b, c)
  {
    FoldsMeans(f, s, b, OperandLat(s.lat, Last(f, b).ops[0]).c);
  }

  lemma BranchCase(f: Function, s: Facts, b: nat, c: int)
    requires IsFixpoint(f, s) && BranchKnown(f, s, b, c) && b < |f.blocks|
    ensures AfterInst(f, s, |f.blocks|, LastId(f, b)) ==
            Last(f, b).(opcode := BRANCH, ops := [Last(f, b).ops[if c != 0 then 1 else 2]])
  {
    FoldsMeans(f, s, b, c);
    FixpointCode(f, s);
    LastBlock(f, b);
    LastConst(f, s, b);
    assert IsTerminator(Last(f, b).opcode);
    hide IsFixpoint, InRun, DropDead, ConstCell, AsConst, Knows, FoldsBranch, AsBranch, CodeOk;
  }

  lemma RestCase(f: Function, s: Facts, b: nat, n: nat)
    requires IsFixpoint(f, s) && HasInst(f, b, n)
    requires forall c :: !ResultKnown(s, InstAt(f, b, n), c)
                         && !(n + 1 == |f.blocks[b].code| && BranchKnown(f, s, b, c))
    ensures var x, i := InstAt(f, b, n), f.blocks[b].code[n];
            AfterInst(f, s, |f.blocks|, i) ==
            if InRun(f, s, i) then x.(ops := DropDead(f, s, x.ops, b, |f.blocks|)) else x
  {
    hide IsFixpoint, InRun, DropDead, ResultKnown, BranchKnown, ConstCell, AsConst, FoldsBranch, AsBranch;
    var i := f.blocks[b].code[n];
    var x := f.insts[i];
    FixpointCode(f, s);
    if ConstCell(f, s, i) { CellKnown(f, s, i); }
    if FoldsBranch(f, s, b) { FoldsKnown(f, s, b); }
  }

  /** g is what the pass makes of f. */
  lemma InstIsApplied(f: Function, s: Facts, g: Function, b: nat, n: nat)
    requires IsFixpoint(f, s) && InstsAfter(f, s, |f.blocks|, g) && HasInst(f, b, n)
    ensures HasInst(g, b, n) && InstApplied(f, s, g, b, n)
  {
    hide IsFixpoint, AfterInst, InRun, DropDead, ResultKnown, BranchKnown, AtFront, Abandons, CodeOk, PhiOperand;
    FixpointCode(f, s);
    var i := f.blocks[b].code[n];
    assert g.insts[i] == AfterInst(f, s, |f.blocks|, i);
    FrontMeans(f, s, g, b, n);
    ListedHere(f, b, n);
    forall c | ResultKnown(s, f.insts[i], c)
      ensures AfterInst(f, s, |f.blocks|, i) == f.insts[i].(opcode := CONST, ops := [OpInt(c)])
    {
      KnownCase(f, s, i, c);
    }
    forall c | n + 1 == |f.blocks[b].code| && BranchKnown(f, s, b, c)
      ensures HasLast(f, b) && |Last(f, b).ops| == 3
      ensures AfterInst(f, s, |f.blocks|, i) ==
              f.insts[i].(opcode := BRANCH, ops := [Last(f, b).ops[if c != 0 then 1 else 2]])
    {
      KnownLast(f, s, b, c);
      BranchCase(f, s, b, c);
    }
    if forall c :: !ResultKnown(s, f.insts[i], c) && !(n + 1 == |f.blocks[b].code| && BranchKnown(f, s, b, c)) {
      RestCase(f, s, b, n);
      forall p ensures PhiOperand(DropDead(f, s, f.insts[i].ops, b, |f.blocks|), p) ==
                       if Abandons(f, s, p, b) then None else PhiOperand(f.insts[i].ops, p)
      {
        DroppedSelects(f, s, f.insts[i].ops, b, p);
      }
    }
  }

  lemma CellKnown(f: Function, s: Facts, i: nat)
    requires ConstCell(f, s, i)
    ensures ResultKnown(s, f.insts[i], s.lat[f.insts[i].result.value].c)
  {
  }

  lemma KnownLast(f: Function, s: Facts, b: nat, c: int)
    requires BranchKnown(f, s, b, c)
    ensures HasLast(f, b) && |Last(f, b).ops| == 3
  {
  }

  lemma ListedHere(f: Function, b: nat, n: nat)
    requires CodeOk(f) && HasInst(f, b, n)
    ensures Listed(f, f.blocks[b].code[n]) && InstAt(f, b, n).block == b
  {
  }

  /** The rewrite does exactly what the facts call for. */
  lemma RewriteApplies(f: Function, s: Facts)
    requires IsFixpoint(f, s)
    ensures Applied(f, s, Rewritten(f, s))
  {
    hide IsFixpoint, Rewritten, InstApplied, AfterInst, ListsSimple, DeadEdge, Abandons;
    var g := Rewritten(f, s);
    RewrittenInsts(f, s);
    forall b: nat, n: nat | HasInst(f, b, n) ensures HasInst(g, b, n) && InstApplied(f, s, g, b, n) {
      InstIsApplied(f, s, g, b, n);
    }
    if ListsSimple(f) {
      RewrittenLists(f, s);
      forall b: nat, t: nat | b < |f.blocks|
        ensures t in g.blocks[b].succs <==> t in f.blocks[b].succs && !Abandons(f, s, b, t)
        ensures t in g.blocks[b].preds <==> t in f.blocks[b].preds && !Abandons(f, s, t, b)
      {
        assert ListsAt(f, s, |f.blocks|, g, b);
        DeadMeans(f, s, b, t);
        DeadMeans(f, s, t, b);
        if DeadEdge(f, s, t, b) { DeadInRange(f, s, t, b); }
      }
    }
  }
}
