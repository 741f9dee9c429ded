/**
 * Folding a BRANCH_IF whose two targets are the same block (src/opt/sccp.c) takes away the edge that stays taken.
 * This module says exactly which runs and which edge lists survive that.
 */
module SccpTwins {
  import opened Opcodes
  import opened IntFold
  import opened Cfg
  import opened Ir
  import opened SccpLattice
  import opened SccpSteps
  import opened Sccp
  import opened SccpSound
  import opened SccpRewrite
  import opened SccpShape

  /** The branch of p is folded, and both its ways lead to t. */
  predicate FoldedTwin(f: Function, s: Facts, p: nat, t: nat) {
    FoldsBranch(f, s, p) && TakenBlock(f, s, p) == t && DeadBlock(f, s, p) == t
  }

  ghost predicate NoFoldedTwins(f: Function, s: Facts) {
    forall p: nat, t: nat :: !FoldedTwin(f, s, p, t)
  }

  // ---------------------------------------------------------------- runs

  /** The run is about to execute a PHI that keeps its opcode and loses the input of the edge just taken. */
  ghost predicate LosesInput(f: Function, s: Facts, r: Outcome) {
    r.Running? &&
    var st := r.s;
    && st.from.Some? && FoldedTwin(f, s, st.from.value, st.blk) && HasInst(f, st.blk, st.pc)
    && var i := f.blocks[st.blk].code[st.pc];
    InRun(f, s, i) && PhiOperand(f.insts[i].ops, st.from.value).Some?
  }

  lemma RewrittenFrame(f: Function, s: Facts)
    requires IsFixpoint(f, s)
    ensures SameFrame(f, Rewritten(f, s))
    ensures forall i: nat :: i < |f.insts| ==> Rewritten(f, s).insts[i] == AfterInst(f, s, |f.blocks|, i)
  {
    hide Rewritten, AfterInst, IsFixpoint;
    RewrittenInsts(f, s);
  }

  /** In a state a solution describes, only a folded twin can cost a PHI the input of the edge taken. */
  lemma AfterActsAlike(f: Function, s: Facts, i: nat, from: Option<nat>)
    requires i < |f.insts| && CodeOk(f)
    requires from.Some? ==> Justified(f, s, from.value, f.insts[i].block)
    requires from.Some? && InRun(f, s, i) && FoldedTwin(f, s, from.value, f.insts[i].block) ==>
             PhiOperand(f.insts[i].ops, from.value) == None
    ensures ActsAlike(f, s, i, AfterInst(f, s, |f.blocks|, i), from)
  {
    var inst := f.insts[i];
    if InRun(f, s, i) { RunIsPhi(f, s, i); }
    if from.Some? && DeadEdge(f, s, from.value, inst.block) { DeadIsTwin(f, s, from.value, inst.block); }
    hide ConstCell, InRun, FoldsBranch, DropDead, Justified, PhiOperand, DeadEdge, FoldedTwin, CodeOk, AsBranch,
      AsConst;
    if from.Some? && (InRun(f, s, i) ==>
                      (DeadEdge(f, s, from.value, inst.block) ==> PhiOperand(inst.ops, from.value) == None)) {
      if InRun(f, s, i) { DropDeadSelects(f, s, inst.ops, inst.block, |f.blocks|, from.value); }
    }
  }

  /** An edge that is taken and removed is a twin. */
  lemma DeadIsTwin(f: Function, s: Facts, p: nat, t: nat)
    requires DeadEdge(f, s, p, t) && Justified(f, s, p, t)
    ensures FoldedTwin(f, s, p, t)
  {
    assert !IsBranch(Last(f, p));
  }

  lemma SoundFrom(f: Function, s: Facts, st: State)
    requires IsFixpoint(f, s) && StateSound(f, s, st)
    ensures CodeOk(f) && st.blk < |f.blocks|
    ensures st.from.Some? ==> Justified(f, s, st.from.value, st.blk)
  {
  }

  lemma BlockOf(f: Function, b: nat, pc: nat)
    requires CodeOk(f) && HasInst(f, b, pc)
    ensures f.insts[f.blocks[b].code[pc]].block == b
  {
  }

  lemma NoInstStuck(f: Function, o: Oracle, st: State)
    requires Step(f, o, st) != Stuck
    ensures HasInst(f, st.blk, st.pc)
  {
  }

  /** One step where no input is lost. */
  lemma StepKept(f: Function, o: Oracle, s: Facts, st: State)
    requires IsFixpoint(f, s) && IntegerFunction(f) && StateSound(f, s, st) && Step(f, o, st) != Stuck
    requires !LosesInput(f, s, Running(st))
    ensures Step(Rewritten(f, s), o, st) == Step(f, o, st)
  {
    NoInstStuck(f, o, st);
    hide Step, IsFixpoint, IntegerFunction, StateSound, Rewritten, ActsAlike, AfterInst, FoldedTwin, InRun, CodeOk;
    SoundFrom(f, s, st);
    RewrittenFrame(f, s);
    BlockOf(f, st.blk, st.pc);
    AfterActsAlike(f, s, f.blocks[st.blk].code[st.pc], st.from);
    StepSame(f, Rewritten(f, s), o, s, st);
  }

  /** One step where an input is lost. */
  lemma StepLost(f: Function, o: Oracle, s: Facts, st: State)
    requires IsFixpoint(f, s) && LosesInput(f, s, Running(st))
    ensures Step(Rewritten(f, s), o, st) == Stuck
  {
    hide Rewritten, AfterInst, IsFixpoint, FoldedTwin, InRun;
    var g := Rewritten(f, s);
    var i := f.blocks[st.blk].code[st.pc];
    FixpointCode(f, s);
    BlockOf(f, st.blk, st.pc);
    LostOps(f, s, i, st.blk, st.from.value);
    RewrittenFrame(f, s);
    assert g.blocks[st.blk].code == f.blocks[st.blk].code && InstAt(g, st.blk, st.pc) == AfterInst(f, s, |f.blocks|, i);
    hide PhiOperand;
    PhiIsNoTerminator();
  }

  lemma LostOps(f: Function, s: Facts, i: nat, t: nat, p: nat)
    requires i < |f.insts| && t < |f.blocks| && InRun(f, s, i) && f.insts[i].block == t && FoldedTwin(f, s, p, t)
    ensures var inst := AfterInst(f, s, |f.blocks|, i); inst.opcode == PHI && PhiOperand(inst.ops, p) == None
  {
    RunIsPhi(f, s, i);
    NotLast(f, s, i);
    FoldIs(f, s, p);
    assert DeadEdge(f, s, p, t);
    hide FoldsBranch, ConstCell, InRun, DeadEdge, FoldedTwin;
    DropDeadForgets(f, s, f.insts[i].ops, t, |f.blocks|, p);
  }

  /** The run so far has met no PHI that loses the input it needs. */
  ghost predicate NothingLost(f: Function, o: Oracle, s: Facts, args: Env, k: nat) {
    forall j: nat :: j < k ==> !LosesInput(f, s, Run(f, o, args, j))
  }

  lemma {:induction false} KeptOrStuck(f: Function, o: Oracle, s: Facts, args: Env, k: nat)
    requires IsFixpoint(f, s) && IntegerFunction(f) && GoodArgs(f, args) && Run(f, o, args, k) != Stuck
    ensures if NothingLost(f, o, s, args, k) then Run(Rewritten(f, s), o, args, k) == Run(f, o, args, k)
            else Run(Rewritten(f, s), o, args, k) == Stuck
  {
    hide Step, IsFixpoint, IntegerFunction, GoodArgs, LosesInput, StateSound, Rewritten, SameFrame;
    if k == 0 {
      SameEntry(f, s);
    } else {
      KeptOrStuck(f, o, s, args, k - 1);
      var before := Run(f, o, args, k - 1);
      if before.Running? && NothingLost(f, o, s, args, k - 1) {
        RunSound(f, o, s, args, k - 1);
        if LosesInput(f, s, before) { StepLost(f, o, s, before.s); } else { StepKept(f, o, s, before.s); }
      }
      if !before.Running? { EndedLosesNothing(f, s, before); }
    }
  }

  lemma EndedLosesNothing(f: Function, s: Facts, r: Outcome)
    requires !r.Running?
    ensures !LosesInput(f, s, r)
  {
  }

  lemma SameEntry(f: Function, s: Facts)
    requires IsFixpoint(f, s)
    ensures Rewritten(f, s).entry == f.entry && Rewritten(f, s).vals == f.vals
  {
    hide Rewritten, IsFixpoint;
    RewrittenFrame(f, s);
  }

  /** A run that does not get stuck is unchanged exactly when it never meets a PHI that loses the input it needs. */
  lemma RunUnchangedIff(f: Function, o: Oracle, s: Facts, args: Env, k: nat)
    requires IsSolution(f, s) && IntegerFunction(f) && GoodArgs(f, args) && Run(f, o, args, k) != Stuck
    ensures Run(Rewritten(f, s), o, args, k) == Run(f, o, args, k) <==> NothingLost(f, o, s, args, k)
  {
    hide IsFixpoint, IntegerFunction, GoodArgs, Rewritten, NothingLost;
    KeptOrStuck(f, o, s, args, k);
  }

  /** No folded twin leads to a PHI that stays a PHI and has an input for it. */
  ghost predicate TwinsLoseNothing(f: Function, s: Facts) {
    forall p: nat, i: nat :: i < |f.insts| && FoldedTwin(f, s, p, f.insts[i].block) && InRun(f, s, i) ==>
      PhiOperand(f.insts[i].ops, p) == None
  }

  /** The pass preserves meaning: every run that does not get stuck is unchanged. */
  lemma SccpPreservesRuns(f: Function, o: Oracle, s: Facts, args: Env, k: nat)
    requires IsSolution(f, s) && IntegerFunction(f) && TwinsLoseNothing(f, s) && GoodArgs(f, args)
    requires Run(f, o, args, k) != Stuck
    ensures GoodArgs(Rewritten(f, s), args) && Run(Rewritten(f, s), o, args, k) == Run(f, o, args, k)
  {
    SameEntry(f, s);
    hide IsFixpoint, IntegerFunction, GoodArgs, Rewritten, LosesInput, TwinsLoseNothing;
    SameArgs(f, Rewritten(f, s), args);
    forall j: nat | j < k ensures !LosesInput(f, s, Run(f, o, args, j)) { NeverLoses(f, s, Run(f, o, args, j)); }
    RunUnchangedIff(f, o, s, args, k);
  }

  lemma SameArgs(f: Function, g: Function, args: Env)
    requires GoodArgs(f, args) && g.vals == f.vals
    ensures GoodArgs(g, args)
  {
  }

  lemma NeverLoses(f: Function, s: Facts, r: Outcome)
    requires IsSolution(f, s) && TwinsLoseNothing(f, s)
    ensures !LosesInput(f, s, r)
  {
    FixpointCode(f, s);
    hide IsFixpoint, FoldedTwin, InRun, CodeOk;
    if r.Running? && HasInst(f, r.s.blk, r.s.pc) { BlockOf(f, r.s.blk, r.s.pc); }
  }

  // ---------------------------------------------------------------- edge lists

  /** The targets of block b after the pass. */
  lemma TargetsAfter(f: Function, s: Facts, b: nat)
    requires IsFixpoint(f, s) && b < |f.blocks|
    ensures BlockTargets(Rewritten(f, s), b) == if FoldsBranch(f, s, b) then {TakenBlock(f, s, b)}
            else BlockTargets(f, b)
    ensures FoldsBranch(f, s, b) ==> BlockTargets(f, b) == {TakenBlock(f, s, b), DeadBlock(f, s, b)}
  {
    hide Rewritten, IsFixpoint, AfterInst, CodeOk, InRun, ConstCell, Targets;
    LastRewritten(f, s, b);
    if HasLast(f, b) {
      FixpointCode(f, s);
      LastBlock(f, b);
      LastConst(f, s, b);
      LastAfter(f, s, b, LastId(f, b));
      if FoldsBranch(f, s, b) { BranchTargets(f, s, b); }
    }
  }

  /** The last instruction stays last. */
  lemma LastRewritten(f: Function, s: Facts, b: nat)
    requires IsFixpoint(f, s) && b < |f.blocks|
    ensures var g := Rewritten(f, s);
            && (HasLast(g, b) <==> HasLast(f, b))
            && (HasLast(f, b) ==> Last(g, b) == AfterInst(f, s, |f.blocks|, LastId(f, b)))
  {
    hide Rewritten, IsFixpoint, AfterInst;
    RewrittenFrame(f, s);
  }

  lemma BranchTargets(f: Function, s: Facts, b: nat)
    requires FoldsBranch(f, s, b)
    ensures Targets(AsBranch(f, s, b)) == {TakenBlock(f, s, b)}
    ensures Targets(Last(f, b)) == {TakenBlock(f, s, b), DeadBlock(f, s, b)}
  {
  }

  lemma LastAfter(f: Function, s: Facts, b: nat, i: nat)
    requires HasLast(f, b) && i == LastId(f, b) && f.insts[i].block == b
             && (ConstCell(f, s, i) ==> !IsTerminator(f.insts[i].opcode))
    ensures var inst := AfterInst(f, s, |f.blocks|, i);
            if FoldsBranch(f, s, b) then inst == AsBranch(f, s, b) else Targets(inst) == Targets(f.insts[i])
    ensures IsTerminator(AfterInst(f, s, |f.blocks|, i).opcode) <==> IsTerminator(f.insts[i].opcode)
  {
    hide DropDead, InRun;
    if InRun(f, s, i) { RunIsPhi(f, s, i); }
  }

  /** The lists of block b after the pass: the removed edges are gone from both ends. */
  lemma ListsRemain(f: Function, s: Facts, b: nat)
    requires IsFixpoint(f, s) && ListsSimple(f) && b < |f.blocks|
    ensures var g := Rewritten(f, s);
            && |g.blocks| == |f.blocks| && NoDuplicates(g.blocks[b].succs) && NoDuplicates(g.blocks[b].preds)
            && (forall t :: t in g.blocks[b].succs <==> t in f.blocks[b].succs && !DeadEdge(f, s, b, t))
            && (forall p :: p in g.blocks[b].preds <==> p in f.blocks[b].preds && !DeadEdge(f, s, p, b))
  {
    hide Rewritten, IsFixpoint, DeadEdge;
    assert ListSimple(f, f.blocks[b]);
    RewrittenLists(f, s);
    assert ListsAt(f, s, |f.blocks|, Rewritten(f, s), b);
  }

  lemma CodeStays(f: Function, s: Facts)
    requires IsFixpoint(f, s)
    ensures CodeOk(Rewritten(f, s))
  {
    hide IsFixpoint, Rewritten, AfterInst;
    FixpointCode(f, s);
    RewrittenFrame(f, s);
    var g := Rewritten(f, s);
    forall b, k | 0 <= b < |g.blocks| && 0 <= k < |g.blocks[b].code|
      ensures g.blocks[b].code[k] < |g.insts| && g.insts[g.blocks[b].code[k]].block == b
    {
      assert f.insts[f.blocks[b].code[k]].block == b;
      OpcodeAfterInst(f, s, |f.blocks|, f.blocks[b].code[k]);
    }
  }

  lemma ListsStaySimple(f: Function, s: Facts)
    requires IsFixpoint(f, s) && ListsSimple(f)
    ensures ListsSimple(Rewritten(f, s))
  {
    var g := Rewritten(f, s);
    hide IsFixpoint, Rewritten, DeadEdge;
    RewrittenFrame(f, s);
    forall b: nat | b < |g.blocks| ensures ListSimple(g, g.blocks[b]) {
      assert ListSimple(f, f.blocks[b]);
      ListsRemain(f, s, b);
    }
  }

  /** Successors and terminator of block b agree. */
  ghost predicate Agrees(g: Function, b: nat)
    requires b < |g.blocks|
  {
    forall t: nat :: t in g.blocks[b].succs <==> t in BlockTargets(g, b)
  }

  ghost predicate NoTwinAt(f: Function, s: Facts, b: nat) {
    forall t: nat :: !FoldedTwin(f, s, b, t)
  }

  /** They do after the pass exactly when b is no folded twin. */
  lemma BlockAgreesIff(f: Function, s: Facts, b: nat)
    requires IsFixpoint(f, s) && b < |f.blocks| && Agrees(f, b) && ListsSimple(f)
    ensures |Rewritten(f, s).blocks| == |f.blocks| && (Agrees(Rewritten(f, s), b) <==> NoTwinAt(f, s, b))
  {
    var g := Rewritten(f, s);
    ListsRemain(f, s, b);
    TargetsAfter(f, s, b);
    hide IsFixpoint, Rewritten, BlockTargets, ListsSimple, FoldsBranch;
    if FoldsBranch(f, s, b) {
      var t, d := TakenBlock(f, s, b), DeadBlock(f, s, b);
      hide TakenBlock, DeadBlock;
      if t == d {
        assert FoldedTwin(f, s, b, t) && t in BlockTargets(g, b) && t !in g.blocks[b].succs;
      }
    }
  }

  lemma MirrorsStay(f: Function, s: Facts)
    requires IsFixpoint(f, s) && EdgesOk(f) && ListsSimple(f)
    ensures WellFormed(GraphOf(Rewritten(f, s)))
  {
    var g := Rewritten(f, s);
    RewrittenFrame(f, s);
    ListsStaySimple(f, s);
    FixpointCode(f, s);
    hide IsFixpoint, Rewritten, DeadEdge, AfterInst;
    var h := GraphOf(g);
    forall v, k | 0 <= v < |h.preds| && 0 <= k < |h.preds[v]| ensures h.preds[v][k] < |h.succs| {
      assert ListSimple(g, g.blocks[v]);
      assert h.preds[v][k] in g.blocks[v].preds;
    }
    forall u, v | 0 <= u < |h.succs| && 0 <= v < |h.succs| ensures v in h.succs[u] <==> u in h.preds[v] {
      ListsRemain(f, s, u);
      ListsRemain(f, s, v);
      assert v in GraphOf(f).succs[u] <==> u in GraphOf(f).preds[v];
    }
  }

  lemma EdgesAre(f: Function)
    ensures EdgesOk(f) <==> WellFormed(GraphOf(f)) && forall b: nat :: b < |f.blocks| ==> Agrees(f, b)
  {
    hide WellFormed, BlockTargets;
    if WellFormed(GraphOf(f)) && forall b: nat :: b < |f.blocks| ==> Agrees(f, b) {
      forall b: nat, t: nat | b < |f.blocks|
        ensures t in f.blocks[b].succs <==> t in BlockTargets(f, b)
      {
        assert Agrees(f, b);
      }
    }
  }

  /** The pass leaves edge lists, predecessor lists and terminators in agreement exactly when it folds no twin. */
  lemma EdgesKeptIff(f: Function, s: Facts)
    requires IsSolution(f, s) && EdgesOk(f) && ListsSimple(f)
    ensures EdgesOk(Rewritten(f, s)) <==> NoFoldedTwins(f, s)
    ensures ListsSimple(Rewritten(f, s)) && CodeOk(Rewritten(f, s))
  {
    hide IsFixpoint, Rewritten, ListsSimple, Agrees, NoTwinAt, WellFormed, EdgesOk, CodeOk, BelowInitial, NoFoldedTwins;
    var g := Rewritten(f, s);
    CodeStays(f, s);
    ListsStaySimple(f, s);
    MirrorsStay(f, s);
    EdgesAre(f);
    EdgesAre(g);
    SameBlockCount(f, s);
    forall b: nat | b < |f.blocks| ensures Agrees(g, b) <==> NoTwinAt(f, s, b) { BlockAgreesIff(f, s, b); }
    TwinsAre(f, s);
  }

  lemma SameBlockCount(f: Function, s: Facts)
    requires IsFixpoint(f, s)
    ensures |Rewritten(f, s).blocks| == |f.blocks|
  {
    hide IsFixpoint, Rewritten, AfterInst;
    RewrittenFrame(f, s);
  }

  lemma TwinsAre(f: Function, s: Facts)
    ensures NoFoldedTwins(f, s) <==> forall b: nat :: b < |f.blocks| ==> NoTwinAt(f, s, b)
  {
    forall p: nat, t: nat | FoldedTwin(f, s, p, t) ensures p < |f.blocks| { TwinInRange(f, s, p, t); }
    hide FoldedTwin;
    if forall b: nat :: b < |f.blocks| ==> NoTwinAt(f, s, b) {
      forall p: nat, t: nat ensures !FoldedTwin(f, s, p, t) {
        if p < |f.blocks| { assert NoTwinAt(f, s, p); }
      }
    }
  }

  lemma TwinInRange(f: Function, s: Facts, p: nat, t: nat)
    requires FoldedTwin(f, s, p, t)
    ensures p < |f.blocks|
  {
  }
}
