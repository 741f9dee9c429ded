/**
 * Functions that show the conditions of SccpTwins and SccpAccept are needed: accepted or running before constant
 * propagation, refused or stuck after it, at solutions of the equations.
 */
module SccpWitness {
  import opened Opcodes
  import opened IntFold
  import opened Cfg
  import opened Ir
  import opened IrEdit
  import opened SccpLattice
  import opened SccpSteps
  import opened Sccp
  import opened SccpRewrite
  import opened SccpShape
  import opened SccpTwins
  import opened SccpAccept
  import opened Validate

  // ---------------------------------------------------------------- typing and acceptance of single instructions

  predicate NoFloats(inst: Instruction) {
    forall k :: 0 <= k < |inst.ops| ==> !inst.ops[k].OpFloat?
  }

  predicate ReadsArguments(f: Function, inst: Instruction) {
    forall k :: 0 <= k < |inst.ops| && inst.ops[k].OpValue? ==>
      inst.ops[k].val < |f.vals| && f.vals[inst.ops[k].val].kind == ArgumentValue
  }

  lemma NumberFits(x: nat)
    requires x < 8
    ensures Fits(x, 32) && Sext(x, 32) == x
  {
    Pow2Monotone(3, 31);
    assert Pow2(3) == 8;
    hide Pow2;
    SextFits(x, 32);
  }

  lemma PhiTyped(f: Function, r: nat, op: Operand)
    requires r < |f.vals| && f.vals[r].ty == 3 && (op.OpInt? ==> 0 <= op.imm < 8)
             && (op.OpValue? ==> op.val < |f.vals| && f.vals[op.val].ty == 3)
    requires op.OpInt? || op.OpValue?
    ensures WellTyped(f, Instruction(PHI, false, Some(r), [op, OpBlock(0)], 1))
  {
    var inst := Instruction(PHI, false, Some(r), [op, OpBlock(0)], 1);
    if op.OpInt? { NumberFits(op.imm); }
    assert ResultWidth(f, inst) == 32 && (op.OpValue? ==> ValueWidth(f, op.val) == 32);
    hide BitWidth, ResultWidth, ValueWidth, Fits;
  }

  lemma AddTyped(f: Function, r: nat, v: nat, b: nat)
    requires r < |f.vals| && f.vals[r].ty == 3 && v < |f.vals| && f.vals[v].ty == 3
    ensures WellTyped(f, Instruction(ADD, false, Some(r), [OpValue(v), OpValue(v)], b))
  {
    var inst := Instruction(ADD, false, Some(r), [OpValue(v), OpValue(v)], b);
    assert ResultWidth(f, inst) == 32 && ValueWidth(f, v) == 32;
    hide BitWidth, ResultWidth, ValueWidth, Fits;
  }

  lemma EndTyped(f: Function, inst: Instruction)
    requires inst.opcode in {BRANCH, BRANCH_IF, RETURN}
    ensures WellTyped(f, inst)
  {
    hide ResultWidth, CmpWidth;
  }

  /** An instruction that reads arguments, numbers and blocks only. */
  lemma PlainAccepted(f: Function, b: nat, n: nat)
    requires HasInst(f, b, n) && InstAt(f, b, n).opcode != NONE && InstAt(f, b, n).block == b
             && InstAt(f, b, n).opcode != PHI
    requires ReadsArguments(f, InstAt(f, b, n))
    ensures InstAccepted(f, b, n)
  {
    hide Strictly;
    var ops := InstAt(f, b, n).ops;
    forall k: nat | k < |ops| ensures OperandAccepted(f, b, n, k) { }
    hide OperandAccepted;
  }

  lemma PhiAccepted(f: Function, b: nat, n: nat)
    requires HasInst(f, b, n) && InstAt(f, b, n).block == b && InstAt(f, b, n).opcode == PHI
             && |InstAt(f, b, n).ops| == 2
    requires forall m: nat :: m < n ==> IsPhiAt(f, b, m)
    requires ReadsArguments(f, InstAt(f, b, n))
    ensures InstAccepted(f, b, n)
  {
    hide Strictly;
    var ops := InstAt(f, b, n).ops;
    forall k: nat | k < |ops| ensures OperandAccepted(f, b, n, k) { }
    hide OperandAccepted;
  }

  lemma EntryDominates(f: Function, b: nat)
    requires f.entry < |f.blocks| && b < |f.blocks| && b in f.blocks[f.entry].succs
    ensures Strictly(f, f.entry, b)
  {
    EntryReachable(GraphOf(f));
    ReachableEdge(GraphOf(f), f.entry, b);
  }

  // ---------------------------------------------------------------- a folded twin

  /** A BRANCH_IF on the constant 1 whose both ways lead to block 1, where a PHI takes argument 0 from block 0. */
  function TwinTargets(): Function {
    Function(0,
      [Block([0], [], [1]), Block([1, 2], [0], [])],
      [Instruction(BRANCH_IF, false, None, [OpInt(1), OpBlock(1), OpBlock(1)], 0),
       Instruction(PHI, false, Some(1), [OpValue(0), OpBlock(0)], 1),
       Instruction(RETURN, false, None, [OpValue(1)], 1)],
      [Value(3, ArgumentValue, None), Value(3, InstructionValue, Some(1))])
  }

  function TwinFacts(): Facts {
    Facts([Bottom, Bottom], [true, true], [(0, 1)], [], [])
  }

  lemma TwinCode(f: Function)
    requires f.entry == 0 && |f.blocks| == 2 && |f.insts| == 3 && f.blocks[0].code == [0] && f.blocks[1].code == [1, 2]
    requires f.insts[0].block == 0 && f.insts[1].block == 1 && f.insts[2].block == 1
    requires f.insts[0].result == None && f.insts[1].result == Some(1) && f.insts[2].result == None
    requires |f.vals| == 2 && f.vals[1] == Value(3, InstructionValue, Some(1))
    ensures CodeOk(f) && ResultsOk(f)
  {
  }

  lemma TwinShape(f: Function, s: Facts)
    requires f == TwinTargets() && s == TwinFacts()
    ensures ShapeOk(f, s)
  {
    TwinCode(f);
    assert BlockTargets(f, 0) == {1};
    hide TwinTargets, BlockTargets, CodeOk, ResultsOk;
    assert EdgeOk(f, s, (0, 1));
  }

  lemma TwinSettled()
    ensures forall i: nat :: i < 3 ==> InstSettled(TwinTargets(), TwinFacts(), i)
    ensures forall b: nat :: b < 2 ==> TermSettled(TwinTargets(), TwinFacts(), b)
  {
    hide EvalOne, EvalTwo, ResultWidth, CmpWidth, BitWidth, ValueWidth, Sext, Fits, Reachable, Dominates;
    var f, s := TwinTargets(), TwinFacts();
    var ops := f.insts[1].ops;
    assert PhiMeet(ops[2..], s.lat, s.edges, 1) == Top;
    assert (0, 1) in s.edges;
    assert PhiMeet(ops, s.lat, s.edges, 1) == Bottom;
    hide PhiMeet;
    assert EvalInstruction(f, f.insts[1], s.lat, s.edges) == Bottom;
  }

  lemma TwinTyped(f: Function)
    requires f == TwinTargets()
    ensures IntegerFunction(f)
  {
    hide WellTyped;
    PhiTyped(f, 1, OpValue(0));
    EndTyped(f, f.insts[0]);
    EndTyped(f, f.insts[2]);
    forall i: nat | i < |f.insts| ensures WellTyped(f, f.insts[i]) && NoFloats(f.insts[i]) { }
  }

  lemma TwinSolution()
    ensures IsSolution(TwinTargets(), TwinFacts()) && IntegerFunction(TwinTargets())
  {
    TwinShape(TwinTargets(), TwinFacts());
    TwinSettled();
    TwinTyped(TwinTargets());
    TwinBelow();
    hide ShapeOk, InstSettled, TermSettled, IntegerFunction, BelowInitial;
  }

  lemma TwinBelow()
    ensures BelowInitial(TwinTargets(), TwinFacts().lat)
  {
  }

  lemma TwinBranches(f: Function, o: Oracle)
    requires f.entry == 0 && |f.blocks| == 2 && |f.insts| == 3 && f.blocks[0].code == [0]
    requires f.insts[0] == Instruction(BRANCH_IF, false, None, [OpInt(1), OpBlock(1), OpBlock(1)], 0)
    ensures var args := map[0 := 5];
            Step(f, o, Init(f, args)) == Running(State(1, 0, Some(0), args, args, []))
  {
  }

  lemma TwinReturns(f: Function, o: Oracle)
    requires |f.blocks| == 2 && |f.insts| == 3 && f.blocks[1].code == [1, 2]
    requires f.insts[2] == Instruction(RETURN, false, None, [OpValue(1)], 1)
    ensures var args := map[0 := 5];
            Step(f, o, State(1, 1, Some(0), args, args[1 := 5], [])) == Returned(Some(IntArg(5)), [])
  {
  }

  lemma FirstPair(ops: seq<Operand>, p: nat)
    requires |ops| == 2 && ops[1] == OpBlock(p)
    ensures PhiOperand(ops, p) == Some(ops[0])
  {
  }

  lemma TwinPhiStep(f: Function, o: Oracle)
    requires |f.blocks| == 2 && |f.insts| == 3 && f.blocks[1].code == [1, 2]
    requires f.insts[1] == Instruction(PHI, false, Some(1), [OpValue(0), OpBlock(0)], 1)
             && ResultWidth(f, f.insts[1]) == 32
    ensures var args := map[0 := 5];
            Step(f, o, State(1, 0, Some(0), args, args, [])) == Running(State(1, 1, Some(0), args, args[1 := 5], []))
  {
    FirstPair(f.insts[1].ops, 0);
    NumberFits(5);
    hide Sext, PhiOperand, ResultWidth, Step;
    PhiStores(f, o, State(1, 0, Some(0), map[0 := 5], map[0 := 5], []), OpValue(0));
  }

  /** The run in the function as given. */
  lemma TwinRun(f: Function, o: Oracle)
    requires f == TwinTargets()
    ensures Run(f, o, map[0 := 5], 3) == Returned(Some(IntArg(5)), [])
  {
    var args := map[0 := 5];
    TwinBranches(f, o);
    TwinReturns(f, o);
    TwinPhiStep(f, o);
    var init := Init(f, args);
    hide TwinTargets, Step, Init;
    assert Run(f, o, args, 0) == Running(init);
    assert Run(f, o, args, 1) == Step(f, o, init);
    assert Run(f, o, args, 2) == Running(State(1, 1, Some(0), args, args[1 := 5], []));
  }

  lemma TwinLoses()
    ensures var f, s, args := TwinTargets(), TwinFacts(), map[0 := 5];
            && FoldedTwin(f, s, 0, 1) && InRun(f, s, 1)
            && LosesInput(f, s, Running(State(1, 0, Some(0), args, args, [])))
  {
    var f, s := TwinTargets(), TwinFacts();
    var g, code := Consts(f, s), f.blocks[1].code;
    assert g.insts[1].opcode == PHI && code[1..] == [2];
    assert LeadingPhis(g, code) >= 1;
    assert code[..LeadingPhis(g, code)][0] == 1;
    FirstPair(f.insts[1].ops, 0);
    hide LeadingPhis, PhiOperand;
  }

  /** With equal targets the pass can break a run: the taken edge's PHI input is dropped with the dead one's. */
  lemma TwinTargetsBreak(o: Oracle)
    ensures var f, s, args := TwinTargets(), TwinFacts(), map[0 := 5];
            && IsSolution(f, s) && IntegerFunction(f) && !NoFoldedTwins(f, s)
            && Run(f, o, args, 3) == Returned(Some(IntArg(5)), [])
            && Run(Rewritten(f, s), o, args, 2) == Stuck
  {
    var f, s, args := TwinTargets(), TwinFacts(), map[0 := 5];
    TwinSolution();
    TwinLoses();
    TwinArgs();
    TwinRun(f, o);
    TwinBranches(f, o);
    hide Rewritten, IsFixpoint, IntegerFunction, FoldedTwin, LosesInput, TwinTargets, TwinFacts, Step, GoodArgs, InRun;
    assert Run(f, o, args, 0) == Running(Init(f, args));
    assert LosesInput(f, s, Run(f, o, args, 1));
    assert Run(f, o, args, 2) != Stuck;
    KeptOrStuck(f, o, s, args, 2);
  }

  lemma TwinArgs()
    ensures GoodArgs(TwinTargets(), map[0 := 5])
  {
    NumberFits(5);
  }

  // ---------------------------------------------------------------- a constant PHI first

  /** Block 1 starts with a PHI of the constant 7 and one of argument 0, which it returns. */
  function LatePhi(): Function {
    Function(0,
      [Block([0], [], [1]), Block([1, 2, 3], [0], [])],
      [Instruction(BRANCH, false, None, [OpBlock(1)], 0),
       Instruction(PHI, false, Some(1), [OpInt(7), OpBlock(0)], 1),
       Instruction(PHI, false, Some(2), [OpValue(0), OpBlock(0)], 1),
       Instruction(RETURN, false, None, [OpValue(2)], 1)],
      [Value(3, ArgumentValue, None), Value(3, InstructionValue, Some(1)), Value(3, InstructionValue, Some(2))])
  }

  function LatePhiFacts(): Facts {
    Facts([Bottom, Constant(7), Bottom], [true, true], [(0, 1)], [], [])
  }

  lemma LatePhiCode(f: Function)
    requires f.entry == 0 && |f.blocks| == 2 && |f.insts| == 4 && f.blocks[0].code == [0]
             && f.blocks[1].code == [1, 2, 3]
    requires f.insts[0].block == 0 && f.insts[1].block == 1 && f.insts[2].block == 1 && f.insts[3].block == 1
    requires f.insts[0].result == None && f.insts[1].result == Some(1) && f.insts[2].result == Some(2)
             && f.insts[3].result == None
    requires |f.vals| == 3 && f.vals[1] == Value(3, InstructionValue, Some(1))
             && f.vals[2] == Value(3, InstructionValue, Some(2))
    ensures CodeOk(f) && ResultsOk(f)
  {
  }

  lemma LatePhiShape(f: Function, s: Facts)
    requires f == LatePhi() && s == LatePhiFacts()
    ensures ShapeOk(f, s) && BelowInitial(f, s.lat)
  {
    hide Reachable, Dominates, Fits, Sext;
    LatePhiCode(f);
    assert BlockTargets(f, 0) == {1};
    hide BlockTargets, CodeOk, ResultsOk;
    assert EdgeOk(f, s, (0, 1));
  }

  lemma PairMeet(a: Operand, lat: seq<Lat>, edges: Edges, p: nat, b: nat)
    requires (p, b) in edges
    ensures PhiMeet([a, OpBlock(p)], lat, edges, b) == OperandLat(lat, a)
  {
    var ops := [a, OpBlock(p)];
    assert ops[2..] == [];
    assert PhiMeet(ops[2..], lat, edges, b) == Top;
  }

  lemma LatePhiEnds()
    ensures forall b: nat :: b < 2 ==> TermSettled(LatePhi(), LatePhiFacts(), b)
  {
    assert LatePhiFacts().edges[0] == (0, 1);
  }

  lemma LatePhiSettled()
    ensures forall i: nat :: i < 4 ==> InstSettled(LatePhi(), LatePhiFacts(), i)
  {
    hide EvalOne, EvalTwo, ResultWidth, CmpWidth, BitWidth, ValueWidth, Sext, Fits, Reachable, Dominates;
    var f, s := LatePhi(), LatePhiFacts();
    assert s.edges[0] == (0, 1);
    PairMeet(OpInt(7), s.lat, s.edges, 0, 1);
    PairMeet(OpValue(0), s.lat, s.edges, 0, 1);
    hide PhiMeet;
    assert EvalInstruction(f, f.insts[1], s.lat, s.edges) == Constant(7);
    assert EvalInstruction(f, f.insts[2], s.lat, s.edges) == Bottom;
  }

  lemma LatePhiTyped(f: Function)
    requires f == LatePhi()
    ensures IntegerFunction(f)
  {
    hide WellTyped;
    PhiTyped(f, 1, OpInt(7));
    PhiTyped(f, 2, OpValue(0));
    EndTyped(f, f.insts[0]);
    EndTyped(f, f.insts[3]);
    forall i: nat | i < |f.insts| ensures WellTyped(f, f.insts[i]) && NoFloats(f.insts[i]) { }
  }

  /** A RETURN of the value defined at position q of the same block. */
  lemma ReturnAccepted(f: Function, b: nat, n: nat, q: nat)
    requires HasInst(f, b, n) && InstAt(f, b, n).opcode == RETURN && InstAt(f, b, n).block == b
             && |InstAt(f, b, n).ops| == 1
    requires q < n && HasInst(f, b, q) && InstAt(f, b, q).block == b
    requires var op := InstAt(f, b, n).ops[0];
             op.OpValue? && op.val < |f.vals| && f.vals[op.val].def == Some(f.blocks[b].code[q])
    ensures InstAccepted(f, b, n)
  {
    hide Strictly;
    assert OperandAccepted(f, b, n, 0);
    hide OperandAccepted;
  }

  lemma LatePhiFirst(f: Function)
    requires f == LatePhi()
    ensures BlockAccepted(f, 0)
  {
    hide InstAccepted;
    PlainAccepted(f, 0, 0);
  }

  lemma LatePhiSecond(f: Function)
    requires f == LatePhi()
    ensures BlockAccepted(f, 1)
  {
    hide InstAccepted;
    PhiAccepted(f, 1, 0);
    assert IsPhiAt(f, 1, 0);
    PhiAccepted(f, 1, 1);
    ReturnAccepted(f, 1, 2, 1);
  }

  lemma LatePhiAccepted(f: Function)
    requires f == LatePhi()
    ensures Accepts(f)
  {
    hide InstAccepted, BlockAccepted;
    LatePhiFirst(f);
    LatePhiSecond(f);
  }

  lemma LatePhiCells(f: Function, s: Facts)
    requires f == LatePhi() && s == LatePhiFacts()
    ensures IsPhiAt(f, 1, 0) && IsPhiAt(f, 1, 1)
    ensures ConstCell(f, s, f.blocks[1].code[0]) && !ConstCell(f, s, f.blocks[1].code[1])
    ensures |s.exec| == |f.blocks| == 2 && forall i: nat :: Listed(f, i) ==> i < 4
  {
  }

  lemma LatePhiSolution(f: Function, s: Facts)
    requires f == LatePhi() && s == LatePhiFacts()
    ensures IsSolution(f, s)
  {
    LatePhiShape(f, s);
    LatePhiSettled();
    LatePhiEnds();
    LatePhiCells(f, s);
    hide ShapeOk, InstSettled, TermSettled, BelowInitial, LatePhi, LatePhiFacts;
  }

  /** An accepted function whose first PHI is constant and whose second is not: after the pass it is refused. */
  lemma LatePhiIsRefused()
    ensures var f, s := LatePhi(), LatePhiFacts();
            IsSolution(f, s) && IntegerFunction(f) && Accepts(f) && !Accepts(Rewritten(f, s))
  {
    hide IntegerFunction, IsFixpoint, BelowInitial, Accepts, Rewritten, LatePhi, LatePhiFacts, IsPhiAt, ConstCell;
    var f, s := LatePhi(), LatePhiFacts();
    LatePhiSolution(f, s);
    LatePhiTyped(f);
    LatePhiAccepted(f);
    LatePhiCells(f, s);
    ConstantBeforePhiIsRefused(f, s, 1, 0, 1);
  }

  // ---------------------------------------------------------------- a block cut off

  /** Block 2, which the decided branch of block 0 never takes, reads a sum from block 0. */
  function CutOff(): Function {
    Function(0,
      [Block([0, 1], [], [1, 2]), Block([2], [0], []), Block([3, 4], [0], [])],
      [Instruction(ADD, false, Some(1), [OpValue(0), OpValue(0)], 0),
       Instruction(BRANCH_IF, false, None, [OpInt(1), OpBlock(1), OpBlock(2)], 0),
       Instruction(RETURN, false, None, [], 1),
       Instruction(ADD, false, Some(2), [OpValue(1), OpValue(1)], 2),
       Instruction(RETURN, false, None, [OpValue(2)], 2)],
      [Value(3, ArgumentValue, None), Value(3, InstructionValue, Some(0)), Value(3, InstructionValue, Some(3))])
  }

  function CutOffFacts(): Facts {
    Facts([Bottom, Bottom, Top], [true, true, false], [(0, 1)], [], [])
  }

  lemma CutOffCode(f: Function)
    requires f.entry == 0 && |f.blocks| == 3 && |f.insts| == 5
    requires f.blocks[0].code == [0, 1] && f.blocks[1].code == [2] && f.blocks[2].code == [3, 4]
    requires f.insts[0].block == 0 && f.insts[1].block == 0 && f.insts[2].block == 1 && f.insts[3].block == 2
             && f.insts[4].block == 2
    requires f.insts[0].result == Some(1) && f.insts[3].result == Some(2)
    requires f.insts[1].result == None && f.insts[2].result == None && f.insts[4].result == None
    requires |f.vals| == 3 && f.vals[1] == Value(3, InstructionValue, Some(0))
             && f.vals[2] == Value(3, InstructionValue, Some(3))
    ensures CodeOk(f) && ResultsOk(f)
  {
  }

  lemma CutOffShape(f: Function, s: Facts)
    requires f == CutOff() && s == CutOffFacts()
    ensures ShapeOk(f, s) && BelowInitial(f, s.lat)
  {
    hide Reachable, Dominates, Fits, Sext;
    CutOffCode(f);
    assert BlockTargets(f, 0) == {1, 2};
    hide BlockTargets, CodeOk, ResultsOk;
    assert EdgeOk(f, s, (0, 1));
  }

  lemma CutOffSettled()
    ensures var f, s := CutOff(), CutOffFacts();
            && (forall i: nat :: i < 3 ==> InstSettled(f, s, i)) && (forall b: nat :: b < 2 ==> TermSettled(f, s, b))
  {
    hide ResultWidth, CmpWidth, Sext, Fits;
    var f, s := CutOff(), CutOffFacts();
    assert s.edges[0] == (0, 1);
    assert EvalInstruction(f, f.insts[0], s.lat, s.edges) == Bottom;
  }

  lemma CutOffTyped(f: Function)
    requires f == CutOff()
    ensures IntegerFunction(f)
  {
    hide WellTyped;
    AddTyped(f, 1, 0, 0);
    AddTyped(f, 2, 1, 2);
    EndTyped(f, f.insts[1]);
    EndTyped(f, f.insts[2]);
    EndTyped(f, f.insts[4]);
    forall i: nat | i < |f.insts| ensures WellTyped(f, f.insts[i]) && NoFloats(f.insts[i]) { }
  }

  lemma AddAccepted(f: Function)
    requires f == CutOff()
    ensures InstAccepted(f, 2, 0)
  {
    EntryDominates(f, 2);
    hide Strictly;
    assert OperandAccepted(f, 2, 0, 0) && OperandAccepted(f, 2, 0, 1);
    hide OperandAccepted;
  }

  lemma CutOffSum(f: Function)
    requires f == CutOff()
    ensures InstAccepted(f, 0, 0)
  {
    hide InstAccepted;
    assert ReadsArguments(f, f.insts[0]);
    hide ReadsArguments;
    PlainAccepted(f, 0, 0);
  }

  lemma CutOffBranch(f: Function)
    requires f == CutOff()
    ensures InstAccepted(f, 0, 1)
  {
    hide InstAccepted;
    assert ReadsArguments(f, f.insts[1]);
    hide ReadsArguments;
    PlainAccepted(f, 0, 1);
  }

  lemma CutOffFirst(f: Function)
    requires f == CutOff()
    ensures BlockAccepted(f, 0)
  {
    hide InstAccepted;
    CutOffSum(f);
    CutOffBranch(f);
  }

  lemma CutOffSecond(f: Function)
    requires f == CutOff()
    ensures BlockAccepted(f, 1)
  {
    hide InstAccepted;
    PlainAccepted(f, 1, 0);
  }

  lemma CutOffThird(f: Function)
    requires f == CutOff()
    ensures BlockAccepted(f, 2)
  {
    hide InstAccepted;
    AddAccepted(f);
    ReturnAccepted(f, 2, 1, 0);
  }

  lemma CutOffAccepted(f: Function)
    requires f == CutOff()
    ensures Accepts(f)
  {
    hide InstAccepted, BlockAccepted;
    CutOffFirst(f);
    CutOffSecond(f);
    CutOffThird(f);
  }

  lemma CutOffEdges(f: Function, s: Facts, a: nat, b: nat)
    requires f == CutOff() && s == CutOffFacts() && Edge(GraphOf(f), a, b)
    ensures b == 2 ==> DeadEdge(f, s, a, b)
  {
  }

  /** No path that stays ends in block 2. */
  lemma CutOffPaths(f: Function, s: Facts, p: seq<nat>, b: nat)
    requires f == CutOff() && s == CutOffFacts() && KeptPath(f, s, p, b)
    ensures b != 2
  {
    hide DeadEdge;
    if |p| > 1 {
      var i := |p| - 2;
      assert Edge(GraphOf(f), p[i], p[i + 1]) && !DeadEdge(f, s, p[i], p[i + 1]);
      CutOffEdges(f, s, p[i], p[i + 1]);
    }
  }

  lemma CutOffBlock(f: Function, s: Facts)
    requires f == CutOff() && s == CutOffFacts()
    ensures !Remains(f, s, 2)
  {
    hide KeptPath, CutOff, CutOffFacts;
    forall p: seq<nat>, b: nat | KeptPath(f, s, p, b) ensures b != 2 { CutOffPaths(f, s, p, b); }
  }

  lemma CutOffRead(f: Function, s: Facts)
    requires f == CutOff() && s == CutOffFacts()
    ensures HasInst(f, 2, 0) && InstAt(f, 2, 0).opcode != PHI && Stays(f, s, f.blocks[2].code[0]) && !ReadsHome(f, 2, 0)
  {
    assert DefinedAway(f, OpValue(1), 2);
    assert InstAt(f, 2, 0).ops[0] == OpValue(1);
  }

  lemma CutOffSimple(f: Function)
    requires f == CutOff()
    ensures ListsSimple(f) && PhiLabels(f)
    ensures forall b: nat, n: nat :: !IsPhiAt(f, b, n)
  {
  }

  lemma CutOffSolution(f: Function, s: Facts)
    requires f == CutOff() && s == CutOffFacts()
    ensures IsSolution(f, s)
  {
    CutOffShape(f, s);
    CutOffSettled();
    CutOffExec(f, s);
    hide ShapeOk, InstSettled, TermSettled, BelowInitial, CutOff, CutOffFacts;
  }

  lemma CutOffExec(f: Function, s: Facts)
    requires f == CutOff() && s == CutOffFacts()
    ensures |s.exec| == |f.blocks| == 3 && !s.exec[2]
    ensures forall i: nat :: Listed(f, i) && s.exec[f.insts[i].block] ==> i < 3
  {
  }

  /** An accepted function with a branch that is decided: the block it cuts off is refused for what it reads. */
  lemma CutOffIsRefused()
    ensures var f, s := CutOff(), CutOffFacts();
            IsSolution(f, s) && IntegerFunction(f) && Accepts(f) && ConstantsAfterPhis(f, s)
              && !Accepts(Rewritten(f, s))
  {
    hide IntegerFunction, IsFixpoint, BelowInitial, Accepts, Rewritten, Remains, ListsSimple, PhiLabels, Stays,
      ReadsHome, CutOff, CutOffFacts, IsPhiAt, FarInputsRemain;
    var f, s := CutOff(), CutOffFacts();
    CutOffSolution(f, s);
    CutOffTyped(f);
    CutOffAccepted(f);
    CutOffBlock(f, s);
    CutOffRead(f, s);
    CutOffSimple(f);
    AcceptedAfterIff(f, s);
  }
}
