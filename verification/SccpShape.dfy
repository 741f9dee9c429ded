/**
 * What the rewriting half of src/opt/sccp.c makes of each instruction and each edge list, in closed form. From it:
 * runs keep going exactly as long as no PHI loses an input it needs, and edge lists stay right exactly when no
 * folded branch has equal targets.
 */
module SccpShape {
  import opened Opcodes
  import opened IntFold
  import opened Cfg
  import opened Ir
  import opened IrEdit
  import opened SccpSteps
  import opened Sccp
  import opened SccpRewrite

  // ---------------------------------------------------------------- the closed form

  /** The edge that folding the branch of p removes. */
  predicate DeadEdge(f: Function, s: Facts, p: nat, t: nat) {
    FoldsBranch(f, s, p) && DeadBlock(f, s, p) == t
  }

  /** The operands of a PHI of block t without the pairs whose label is below k and whose edge is removed. */
  function DropDead(f: Function, s: Facts, ops: seq<Operand>, t: nat, k: nat): seq<Operand> {
    if |ops| < 2 then ops
    else if ops[1].OpBlock? && ops[1].blk < k && DeadEdge(f, s, ops[1].blk, t) then DropDead(f, s, ops[2..], t, k)
    else ops[..2] + DropDead(f, s, ops[2..], t, k)
  }

  function Consts(f: Function, s: Facts): Function {
    ConstsUpTo(f, s, |f.insts|)
  }

  /** i is one of the PHIs that still stand at the start of its block once constants are in. */
  predicate InRun(f: Function, s: Facts, i: nat)
    requires i < |f.insts|
  {
    var b := f.insts[i].block;
    b < |f.blocks| && i in f.blocks[b].code[..LeadingPhis(Consts(f, s), f.blocks[b].code)]
  }

  /** Instruction i after the branches of the blocks below k have been decided. */
  function AfterInst(f: Function, s: Facts, k: nat, i: nat): Instruction
    requires i < |f.insts|
  {
    var inst := f.insts[i];
    if ConstCell(f, s, i) then AsConst(f, s, i)
    else if inst.block < k && FoldsBranch(f, s, inst.block) && i == LastId(f, inst.block)
      then AsBranch(f, s, inst.block)
    else if InRun(f, s, i) then inst.(ops := DropDead(f, s, inst.ops, inst.block, k))
    else inst
  }

  ghost predicate SuccsAfter(f: Function, s: Facts, k: nat, c: nat, succs: seq<nat>)
    requires c < |f.blocks|
  {
    NoDuplicates(succs) && forall t :: t in succs <==> t in f.blocks[c].succs && !(c < k && DeadEdge(f, s, c, t))
  }

  ghost predicate PredsAfter(f: Function, s: Facts, k: nat, c: nat, preds: seq<nat>)
    requires c < |f.blocks|
  {
    NoDuplicates(preds) && forall p :: p in preds <==> p in f.blocks[c].preds && !(p < k && DeadEdge(f, s, p, c))
  }

  /** h is f with constants in and the branches of the blocks below k decided. */
  ghost predicate InstsAfter(f: Function, s: Facts, k: nat, h: Function) {
    && h.entry == f.entry && h.vals == f.vals && |h.insts| == |f.insts| && |h.blocks| == |f.blocks|
    && (forall c :: 0 <= c < |f.blocks| ==> h.blocks[c].code == f.blocks[c].code)
    && (forall i: nat {:trigger h.insts[i]} :: i < |f.insts| ==> h.insts[i] == AfterInst(f, s, k, i))
  }

  ghost predicate ListsAfter(f: Function, s: Facts, k: nat, h: Function) {
    |h.blocks| == |f.blocks| && forall c: nat :: c < |f.blocks| ==> ListsAt(f, s, k, h, c)
  }

  /** Edge lists name existing blocks, each once. */
  ghost predicate ListsSimple(f: Function) {
    forall b :: 0 <= b < |f.blocks| ==> ListSimple(f, f.blocks[b])
  }

  ghost predicate ListSimple(f: Function, blk: Block) {
    && NoDuplicates(blk.succs) && NoDuplicates(blk.preds)
    && (forall t :: t in blk.succs ==> t < |f.blocks|) && (forall p :: p in blk.preds ==> p < |f.blocks|)
  }

  // ---------------------------------------------------------------- dropping pairs

  lemma {:induction false} DropNothing(f: Function, s: Facts, ops: seq<Operand>, t: nat)
    ensures DropDead(f, s, ops, t, 0) == ops
  {
    if |ops| >= 2 {
      DropNothing(f, s, ops[2..], t);
      assert ops[..2] + ops[2..] == ops;
    }
  }

  lemma {:induction false} DropNext(f: Function, s: Facts, ops: seq<Operand>, t: nat, k: nat)
    ensures DropDead(f, s, ops, t, k + 1) ==
            if DeadEdge(f, s, k, t) then DropPairs(DropDead(f, s, ops, t, k), k) else DropDead(f, s, ops, t, k)
  {
    hide DeadEdge;
    if |ops| >= 2 {
      DropNext(f, s, ops[2..], t, k);
      var rest := DropDead(f, s, ops[2..], t, k);
      assert (ops[..2] + rest)[2..] == rest && (ops[..2] + rest)[..2] == ops[..2];
    }
  }

  lemma {:induction false} DropDeadSelects(f: Function, s: Facts, ops: seq<Operand>, t: nat, k: nat, p: nat)
    requires DeadEdge(f, s, p, t) ==> PhiOperand(ops, p) == None
    ensures PhiOperand(DropDead(f, s, ops, t, k), p) == PhiOperand(ops, p)
  {
    hide DeadEdge;
    if |ops| >= 2 {
      if ops[1] != OpBlock(p) { DropDeadSelects(f, s, ops[2..], t, k, p); }
      var rest := DropDead(f, s, ops[2..], t, k);
      assert (ops[..2] + rest)[2..] == rest;
    }
  }

  lemma {:induction false} DropDeadForgets(f: Function, s: Facts, ops: seq<Operand>, t: nat, k: nat, p: nat)
    requires DeadEdge(f, s, p, t) && p < k
    ensures PhiOperand(DropDead(f, s, ops, t, k), p) == None
  {
    hide DeadEdge;
    if |ops| >= 2 {
      DropDeadForgets(f, s, ops[2..], t, k, p);
      var rest := DropDead(f, s, ops[2..], t, k);
      assert (ops[..2] + rest)[2..] == rest;
    }
  }

  // ---------------------------------------------------------------- one fold

  lemma {:induction false} SameRun(g: Function, h: Function, code: seq<nat>)
    requires |h.insts| == |g.insts| && forall i :: 0 <= i < |g.insts| ==>
             (h.insts[i].opcode == PHI <==> g.insts[i].opcode == PHI)
    ensures LeadingPhis(h, code) == LeadingPhis(g, code)
  {
    if code != [] { SameRun(g, h, code[1..]); }
  }

  /** The edits of one fold, as they are made. */
  function Folded(g: Function, i: nat, x: Instruction, b: nat, d: nat): Function
    requires i < |g.insts| && b < |g.blocks|
  {
    if d < |g.blocks| then RemovePhiIncoming(RemoveEdge(WithInst(g, i, x), b, d), d, b) else WithInst(g, i, x)
  }

  lemma FoldIs(g: Function, s: Facts, b: nat)
    requires FoldsBranch(g, s, b)
    ensures b < |g.blocks| && HasLast(g, b) && g.insts[LastId(g, b)].opcode == BRANCH_IF
            && AsBranch(g, s, b).opcode == BRANCH
    ensures FoldBranch(g, s, b) == Folded(g, LastId(g, b), AsBranch(g, s, b), b, DeadBlock(g, s, b))
  {
    hide RemovePhiIncoming, RemoveEdge;
  }

  predicate InLeading(g: Function, d: nat, j: nat) {
    d < |g.blocks| && j in g.blocks[d].code[..LeadingPhis(g, g.blocks[d].code)]
  }

  lemma FoldedInsts(g: Function, i: nat, x: Instruction, b: nat, d: nat, j: nat)
    requires i < |g.insts| && b < |g.blocks| && g.insts[i].opcode == BRANCH_IF && x.opcode == BRANCH && j < |g.insts|
    ensures var h := Folded(g, i, x, b, d);
            && |h.insts| == |g.insts|
            && h.insts[j] == if j == i then x else if InLeading(g, d, j)
               then g.insts[j].(ops := DropPairs(g.insts[j].ops, b)) else g.insts[j]
  {
    hide DropPairs, SwapRemove, LeadingPhis;
    if d < |g.blocks| {
      var g'' := RemoveEdge(WithInst(g, i, x), b, d);
      var code := g.blocks[d].code;
      assert g''.blocks[d].code == code;
      SameRun(g, g'', code);
      assert forall k :: 0 <= k < LeadingPhis(g, code) ==> g.insts[code[k]].opcode == PHI;
      assert i !in code[..LeadingPhis(g, code)];
    }
  }

  lemma FoldedLists(g: Function, i: nat, x: Instruction, b: nat, d: nat, c: nat)
    requires i < |g.insts| && b < |g.blocks| && c < |g.blocks|
    ensures var h := Folded(g, i, x, b, d);
            && h.entry == g.entry && h.vals == g.vals && |h.insts| == |g.insts| && |h.blocks| == |g.blocks|
            && h.blocks[c].code == g.blocks[c].code
            && h.blocks[c].succs == (if c == b && d < |g.blocks| then SwapRemove(g.blocks[c].succs, d)
                                     else g.blocks[c].succs)
            && h.blocks[c].preds == (if c == d then SwapRemove(g.blocks[c].preds, b) else g.blocks[c].preds)
  {
    hide DropPairs, SwapRemove, LeadingPhis;
  }

  lemma NoFold(g: Function, s: Facts, b: nat)
    requires !FoldsBranch(g, s, b)
    ensures FoldBranch(g, s, b) == g
  {
  }

  // ---------------------------------------------------------------- all folds

  /** Deciding earlier branches does not change what block k's branch decides. */
  lemma FoldsAlike(f: Function, s: Facts, k: nat, h: Function)
    requires IsFixpoint(f, s) && InstsAfter(f, s, k, h) && k < |f.blocks|
    ensures FoldsBranch(h, s, k) <==> FoldsBranch(f, s, k)
    ensures FoldsBranch(f, s, k) ==>
            LastId(h, k) == LastId(f, k) && DeadBlock(h, s, k) == DeadBlock(f, s, k)
              && AsBranch(h, s, k) == AsBranch(f, s, k)
  {
    hide IsFixpoint, ConstCell, DropDead, InRun, AfterInst, CodeOk;
    if HasLast(f, k) {
      FixpointCode(f, s);
      LastConst(f, s, k);
      LastBlock(f, k);
      BranchUntouched(f, s, k, LastId(f, k));
      assert h.insts[LastId(f, k)] == AfterInst(f, s, k, LastId(f, k));
    }
  }

  lemma BranchUntouched(f: Function, s: Facts, k: nat, i: nat)
    requires i < |f.insts| && f.insts[i].block >= k && (ConstCell(f, s, i) ==> !IsTerminator(f.insts[i].opcode))
    ensures f.insts[i].opcode == BRANCH_IF || AfterInst(f, s, k, i).opcode == BRANCH_IF ==>
            AfterInst(f, s, k, i) == f.insts[i]
  {
    hide ConstCell, DropDead, InRun;
    if InRun(f, s, i) { RunIsPhi(f, s, i); }
  }

  /** What is in the run of PHIs is a PHI without a constant cell. */
  lemma RunIsPhi(f: Function, s: Facts, i: nat)
    requires i < |f.insts| && InRun(f, s, i)
    ensures f.insts[i].opcode == PHI && !ConstCell(f, s, i)
  {
    var b := f.insts[i].block;
    var run := f.blocks[b].code[..LeadingPhis(Consts(f, s), f.blocks[b].code)];
    var k :| 0 <= k < |run| && run[k] == i;
    assert Consts(f, s).insts[i].opcode == PHI;
  }

  lemma StartInsts(f: Function, s: Facts)
    ensures InstsAfter(f, s, 0, Consts(f, s))
  {
    hide ConstCell, InRun, DropDead;
    forall i: nat | i < |f.insts|
      ensures Consts(f, s).insts[i] == AfterInst(f, s, 0, i)
    {
      DropNothing(f, s, f.insts[i].ops, f.insts[i].block);
    }
  }

  lemma StartLists(f: Function, s: Facts)
    requires ListsSimple(f)
    ensures ListsAfter(f, s, 0, Consts(f, s))
  {
    forall c: nat | c < |f.blocks|
      ensures NoDuplicates(f.blocks[c].succs) && NoDuplicates(f.blocks[c].preds)
    {
      assert ListSimple(f, f.blocks[c]);
    }
  }

  /** In h the PHIs at the start of a block are those of the closed form. */
  lemma RunStays(f: Function, s: Facts, k: nat, h: Function, d: nat, i: nat)
    requires CodeOk(f) && InstsAfter(f, s, k, h) && i < |f.insts|
    ensures InLeading(h, d, i) <==> InRun(f, s, i) && f.insts[i].block == d
  {
    hide ConstCell, DropDead, FoldsBranch, AfterInst;
    var g := Consts(f, s);
    forall j: nat | j < |f.insts| ensures g.insts[j].opcode == PHI <==> h.insts[j].opcode == PHI {
      assert h.insts[j] == AfterInst(f, s, k, j);
      OpcodeAfterInst(f, s, k, j);
    }
    if d < |f.blocks| {
      var code := f.blocks[d].code;
      SameRun(g, h, code);
      if i in code[..LeadingPhis(g, code)] {
        var n :| 0 <= n < LeadingPhis(g, code) && code[n] == i;
        assert f.insts[code[n]].block == d;
      }
    }
  }

  lemma OpcodeAfterInst(f: Function, s: Facts, k: nat, i: nat)
    requires i < |f.insts|
    ensures AfterInst(f, s, k, i).opcode == PHI <==> f.insts[i].opcode == PHI && !ConstCell(f, s, i)
    ensures AfterInst(f, s, k, i).block == f.insts[i].block
  {
    hide ConstCell, DropDead, InRun, FoldsBranch, AsBranch, LastId, DeadBlock, Folded, FoldBranch;
    var b := f.insts[i].block;
    if FoldsBranch(f, s, b) {
      FoldIs(f, s, b);
      AsBranchIs(f, s, b);
    }
    if ConstCell(f, s, i) { ConstIs(f, s, i); }
  }

  lemma ConstIs(f: Function, s: Facts, i: nat)
    requires ConstCell(f, s, i)
    ensures AsConst(f, s, i).opcode == CONST && AsConst(f, s, i).block == f.insts[i].block
  {
  }

  lemma AsBranchIs(f: Function, s: Facts, b: nat)
    requires FoldsBranch(f, s, b)
    ensures var i := LastId(f, b);
            AsBranch(f, s, b) == f.insts[i].(opcode := BRANCH, ops := AsBranch(f, s, b).ops)
  {
  }

  /** One instruction through one fold. */
  lemma InstThrough(f: Function, s: Facts, k: nat, h: Function, i: nat)
    requires IsFixpoint(f, s) && InstsAfter(f, s, k, h) && k < |f.blocks| && i < |f.insts|
    ensures |FoldBranch(h, s, k).insts| == |f.insts| && FoldBranch(h, s, k).insts[i] == AfterInst(f, s, k + 1, i)
  {
    hide FoldBranch, IsFixpoint, ConstCell, DropDead, InRun, CodeOk, FoldsBranch, DeadBlock, AsBranch, AfterInst,
      Folded;
    FixpointCode(f, s);
    FoldsAlike(f, s, k, h);
    assert h.insts[i] == AfterInst(f, s, k, i);
    if FoldsBranch(f, s, k) {
      FoldIs(f, s, k);
      FoldIs(h, s, k);
      FoldedInsts(h, LastId(f, k), AsBranch(f, s, k), k, DeadBlock(f, s, k), i);
      RunStays(f, s, k, h, DeadBlock(f, s, k), i);
      LastFacts(f, s, k);
      AfterNext(f, s, k, i);
    } else {
      NoFold(h, s, k);
      AfterSame(f, s, k, i);
    }
  }

  lemma AfterNext(f: Function, s: Facts, k: nat, i: nat)
    requires FoldsBranch(f, s, k) && i < |f.insts| && HasLast(f, k) && f.insts[LastId(f, k)].block == k
             && !ConstCell(f, s, LastId(f, k))
    ensures AfterInst(f, s, k + 1, i) ==
            var was := AfterInst(f, s, k, i);
            if i == LastId(f, k) then AsBranch(f, s, k)
            else if InRun(f, s, i) && f.insts[i].block == DeadBlock(f, s, k) then was.(ops := DropPairs(was.ops, k))
            else was
  {
    hide ConstCell, DropDead, InRun, DropPairs, FoldsBranch, DeadBlock, AsBranch, AsConst;
    var inst := f.insts[i];
    DropNext(f, s, inst.ops, inst.block, k);
    if InRun(f, s, i) {
      RunIsPhi(f, s, i);
      NotLast(f, s, i);
    }
  }

  lemma AfterSame(f: Function, s: Facts, k: nat, i: nat)
    requires !FoldsBranch(f, s, k) && i < |f.insts|
    ensures AfterInst(f, s, k + 1, i) == AfterInst(f, s, k, i)
  {
    DropNext(f, s, f.insts[i].ops, f.insts[i].block, k);
    hide ConstCell, DropDead, InRun, FoldsBranch;
  }

  /** A PHI is nobody's folded branch. */
  lemma NotLast(f: Function, s: Facts, i: nat)
    requires i < |f.insts| && f.insts[i].opcode == PHI
    ensures !(FoldsBranch(f, s, f.insts[i].block) && i == LastId(f, f.insts[i].block))
  {
  }

  lemma LastFacts(f: Function, s: Facts, k: nat)
    requires IsFixpoint(f, s) && CodeOk(f) && FoldsBranch(f, s, k) && HasLast(f, k)
             && f.insts[LastId(f, k)].opcode == BRANCH_IF
    ensures f.insts[LastId(f, k)].block == k && !ConstCell(f, s, LastId(f, k))
  {
    hide FoldsBranch, ConstCell, IsFixpoint;
    LastBlock(f, k);
    LastConst(f, s, k);
  }

  lemma {:induction false} FoldsInsts(f: Function, s: Facts, k: nat)
    requires IsFixpoint(f, s) && k <= |f.blocks|
    ensures InstsAfter(f, s, k, FoldBranches(Consts(f, s), s, k))
  {
    hide IsFixpoint, FoldBranch, AfterInst;
    if k == 0 {
      StartInsts(f, s);
    } else {
      FoldsInsts(f, s, k - 1);
      var h := FoldBranches(Consts(f, s), s, k - 1);
      FoldSizes(h, s, k - 1);
      forall i: nat | i < |f.insts|
        ensures FoldBranch(h, s, k - 1).insts[i] == AfterInst(f, s, k, i)
      {
        InstThrough(f, s, k - 1, h, i);
      }
    }
  }

  lemma FoldSizes(g: Function, s: Facts, b: nat)
    ensures var h := FoldBranch(g, s, b);
            && h.entry == g.entry && h.vals == g.vals && |h.insts| == |g.insts| && |h.blocks| == |g.blocks|
            && (forall c :: 0 <= c < |g.blocks| ==> h.blocks[c].code == g.blocks[c].code)
  {
    hide FoldBranch, FoldsBranch, DeadBlock, AsBranch, Folded, SwapRemove;
    if FoldsBranch(g, s, b) {
      FoldIs(g, s, b);
      forall c: nat | c < |g.blocks| ensures FoldBranch(g, s, b).blocks[c].code == g.blocks[c].code {
        FoldedLists(g, LastId(g, b), AsBranch(g, s, b), b, DeadBlock(g, s, b), c);
      }
      FoldedLists(g, LastId(g, b), AsBranch(g, s, b), b, DeadBlock(g, s, b), b);
    } else {
      NoFold(g, s, b);
    }
  }

  /** One block's lists through one fold. */
  lemma ListsThrough(f: Function, s: Facts, k: nat, h: Function, c: nat)
    requires IsFixpoint(f, s) && ListsSimple(f) && InstsAfter(f, s, k, h) && ListsAfter(f, s, k, h) && k < |f.blocks|
             && c < |f.blocks|
    ensures ListsAt(f, s, k + 1, FoldBranch(h, s, k), c)
  {
    hide FoldBranch, IsFixpoint, ListSimple, SwapRemove, FoldsBranch, DeadBlock, AsBranch, AfterInst, Folded,
      SuccsAfter, PredsAfter, CodeOk;
    FoldsAlike(f, s, k, h);
    FoldSizes(h, s, k);
    assert ListsAt(f, s, k, h, c);
    if FoldsBranch(f, s, k) {
      FoldIs(f, s, k);
      FoldIs(h, s, k);
      FoldedLists(h, LastId(f, k), AsBranch(f, s, k), k, DeadBlock(f, s, k), c);
      assert ListSimple(f, f.blocks[c]);
      SuccsNext(f, s, k, c, h.blocks[c].succs);
      PredsNext(f, s, k, c, h.blocks[c].preds);
    } else {
      NoFold(h, s, k);
      NothingDead(f, s, k, c, h.blocks[c].succs, h.blocks[c].preds);
    }
  }

  ghost predicate ListsAt(f: Function, s: Facts, k: nat, h: Function, c: nat)
    requires c < |f.blocks|
  {
    c < |h.blocks| && SuccsAfter(f, s, k, c, h.blocks[c].succs) && PredsAfter(f, s, k, c, h.blocks[c].preds)
  }

  lemma SuccsNext(f: Function, s: Facts, k: nat, c: nat, succs: seq<nat>)
    requires c < |f.blocks| && FoldsBranch(f, s, k) && SuccsAfter(f, s, k, c, succs) && ListSimple(f, f.blocks[c])
    ensures SuccsAfter(f, s, k + 1, c, if c == k && DeadBlock(f, s, k) < |f.blocks|
                       then SwapRemove(succs, DeadBlock(f, s, k)) else succs)
  {
    SwapRemoved(succs, DeadBlock(f, s, k));
    hide FoldsBranch, DeadBlock, SwapRemove;
  }

  lemma PredsNext(f: Function, s: Facts, k: nat, c: nat, preds: seq<nat>)
    requires c < |f.blocks| && FoldsBranch(f, s, k) && PredsAfter(f, s, k, c, preds)
    ensures PredsAfter(f, s, k + 1, c, if c == DeadBlock(f, s, k) then SwapRemove(preds, k) else preds)
  {
    SwapRemoved(preds, k);
    hide FoldsBranch, DeadBlock, SwapRemove;
  }

  lemma NothingDead(f: Function, s: Facts, k: nat, c: nat, succs: seq<nat>, preds: seq<nat>)
    requires c < |f.blocks| && !FoldsBranch(f, s, k) && SuccsAfter(f, s, k, c, succs) && PredsAfter(f, s, k, c, preds)
    ensures SuccsAfter(f, s, k + 1, c, succs) && PredsAfter(f, s, k + 1, c, preds)
  {
    hide FoldsBranch, DeadBlock;
  }

  lemma SwapRemoved(s: seq<nat>, x: nat)
    requires NoDuplicates(s)
    ensures var r := SwapRemove(s, x); NoDuplicates(r) && forall y :: y in r <==> y in s && y != x
  {
    SwapRemoveMembers(s, x, 0);
  }

  lemma {:induction false} FoldsLists(f: Function, s: Facts, k: nat)
    requires IsFixpoint(f, s) && ListsSimple(f) && k <= |f.blocks|
    ensures ListsAfter(f, s, k, FoldBranches(Consts(f, s), s, k))
  {
    hide IsFixpoint, FoldBranch, ListsAt, ListsSimple, InstsAfter;
    if k == 0 {
      StartLists(f, s);
    } else {
      FoldsLists(f, s, k - 1);
      FoldsInsts(f, s, k - 1);
      var h := FoldBranches(Consts(f, s), s, k - 1);
      var h' := FoldBranch(h, s, k - 1);
      forall c: nat | c < |f.blocks| ensures ListsAt(f, s, k, h', c) { ListsThrough(f, s, k - 1, h, c); }
    }
  }

  /** The whole rewrite, instruction by instruction. */
  lemma RewrittenInsts(f: Function, s: Facts)
    requires IsFixpoint(f, s)
    ensures InstsAfter(f, s, |f.blocks|, Rewritten(f, s))
  {
    hide IsFixpoint, InstsAfter, FoldBranches;
    FoldsInsts(f, s, |f.blocks|);
  }

  lemma RewrittenLists(f: Function, s: Facts)
    requires IsFixpoint(f, s) && ListsSimple(f)
    ensures ListsAfter(f, s, |f.blocks|, Rewritten(f, s))
  {
    hide IsFixpoint, ListsAfter, FoldBranches, ListsSimple;
    FoldsLists(f, s, |f.blocks|);
  }
}
