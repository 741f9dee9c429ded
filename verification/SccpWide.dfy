/**
 * Constant propagation of src/opt/sccp.c outside the hypothesis that immediates fit their width: a constant's cell
 * holds the immediate as it is written, and folding with it can give another value than the run.
 */
module SccpWide {
  import opened Opcodes
  import opened IntFold
  import opened Ir
  import opened SccpLattice
  import opened SccpSteps
  import opened Sccp
  import opened SccpRewrite
  import opened SccpShape
  import opened Validate
  import opened SccpWitness
  import opened RunEdits

  /** An 8-bit CONST 200, halved as a signed number and returned. */
  function WideConst(): Function {
    Function(0, [Block([0, 1, 2], [], [])],
      [Instruction(CONST, false, Some(0), [OpInt(200)], 0),
       Instruction(DIV_S, false, Some(1), [OpValue(0), OpInt(2)], 0),
       Instruction(RETURN, false, None, [OpValue(1)], 0)],
      [Value(1, InstructionValue, Some(0)), Value(1, InstructionValue, Some(1))])
  }

  function WideFacts(): Facts {
    Facts([Constant(200), Constant(100)], [true], [], [], [])
  }

  lemma WideCode(f: Function)
    requires f.entry == 0 && |f.blocks| == 1 && |f.insts| == 3 && f.blocks[0].code == [0, 1, 2] && |f.vals| == 2
    requires f.insts[0].block == f.insts[1].block == f.insts[2].block == 0
    requires f.insts[0].result == Some(0) && f.insts[1].result == Some(1) && f.insts[2].result == None
    requires f.vals[0] == Value(1, InstructionValue, Some(0)) && f.vals[1] == Value(1, InstructionValue, Some(1))
    ensures CodeOk(f) && ResultsOk(f) && Listed(f, 0) && Listed(f, 1)
  {
    assert f.blocks[0].code[0] == 0 && f.blocks[0].code[1] == 1;
  }

  /** What the equations make of the two cells. */
  lemma WideCells(f: Function, lat: seq<Lat>, edges: Edges)
    requires f == WideConst() && |lat| == 2
    ensures EvalInstruction(f, f.insts[0], lat, edges) == Constant(200)
    ensures lat[0] == Constant(200) ==> EvalInstruction(f, f.insts[1], lat, edges) == Constant(100)
  {
    FoldNeedsSignExtendedOperands();
    hide FoldBinary, EvalBinary, CmpWidth;
  }

  lemma WideSettled(f: Function, s: Facts)
    requires f == WideConst() && s == WideFacts()
    ensures forall i: nat :: i < 3 ==> InstSettled(f, s, i)
    ensures TermSettled(f, s, 0)
  {
    WideCells(f, s.lat, s.edges);
    hide EvalInstruction;
  }

  lemma WideShape(f: Function, s: Facts)
    requires f == WideConst() && s == WideFacts()
    ensures ShapeOk(f, s) && BelowInitial(f, s.lat)
  {
    WideCode(f);
    hide CodeOk, ResultsOk, Listed;
  }

  lemma WideSolution(f: Function, s: Facts)
    requires f == WideConst() && s == WideFacts()
    ensures IsSolution(f, s)
  {
    WideShape(f, s);
    WideSettled(f, s);
    hide ShapeOk, BelowInitial, InstSettled, TermSettled, CodeOk, ResultsOk;
  }

  lemma SettledAt(f: Function, s: Facts, i: nat)
    requires IsFixpoint(f, s) && Listed(f, i) && f.insts[i].block == f.entry && f.insts[i].result.Some?
    requires f.insts[i].result.value < |f.vals|
    ensures |s.lat| == |f.vals| && |s.exec| == |f.blocks| && f.entry < |f.blocks| && s.exec[f.entry]
    ensures s.lat[f.insts[i].result.value] == EvalInstruction(f, f.insts[i], s.lat, s.edges)
  {
    hide EvalInstruction, TermSettled, ResultsOk, EdgeOk;
    assert InstSettled(f, s, i);
  }

  /** Every solution has these cells. */
  lemma OnlyCells(f: Function, s: Facts)
    requires f == WideConst() && IsSolution(f, s)
    ensures s.lat == WideFacts().lat && |s.exec| == 1 && s.exec[0]
  {
    hide EvalInstruction, IsFixpoint, BelowInitial, CodeOk, ResultsOk, Listed;
    WideCode(f);
    SettledAt(f, s, 0);
    SettledAt(f, s, 1);
    WideCells(f, s.lat, s.edges);
  }

  lemma WideAccepted(f: Function)
    requires f == WideConst()
    ensures Accepts(f)
  {
    hide InstAccepted;
    WideFirst(f);
    WideSecond(f);
    WideThird(f);
    assert BlockAccepted(f, 0);
  }

  lemma WideSecond(f: Function)
    requires f == WideConst()
    ensures InstAccepted(f, 0, 1)
  {
    hide InstAccepted;
    ReadAccepted(f, 0, 1, 0);
  }

  lemma WideThird(f: Function)
    requires f == WideConst()
    ensures InstAccepted(f, 0, 2)
  {
    hide InstAccepted;
    ReadAccepted(f, 0, 2, 1);
  }

  lemma WideFirst(f: Function)
    requires f == WideConst()
    ensures InstAccepted(f, 0, 0)
  {
    hide InstAccepted;
    assert ReadsArguments(f, f.insts[0]);
    hide ReadsArguments;
    PlainAccepted(f, 0, 0);
  }

  /** An instruction whose first operand is the value defined at position q before it, the others being numbers. */
  lemma ReadAccepted(f: Function, b: nat, n: nat, q: nat)
    requires HasInst(f, b, n) && InstAt(f, b, n).opcode != NONE && InstAt(f, b, n).opcode != PHI
             && InstAt(f, b, n).block == b
    requires |InstAt(f, b, n).ops| > 0 && forall k :: 0 < k < |InstAt(f, b, n).ops| ==> InstAt(f, b, n).ops[k].OpInt?
    requires q < n && HasInst(f, b, q) && InstAt(f, b, q).block == b
    requires var op := InstAt(f, b, n).ops[0];
             op.OpValue? && op.val < |f.vals| && f.vals[op.val].def == Some(f.blocks[b].code[q])
    ensures InstAccepted(f, b, n)
  {
    hide Strictly;
    var ops := InstAt(f, b, n).ops;
    forall k: nat | k < |ops| ensures OperandAccepted(f, b, n, k) { }
    hide OperandAccepted;
  }

  // ---------------------------------------------------------------- the two runs

  lemma Readings()
    ensures Sext(200, 8) == -56 && Sext(-56, 8) == -56 && Sext(2, 8) == 2 && Sext(-28, 8) == -28 && Sext(100, 8) == 100
  {
    hide Sext, Pow2;
    SextAt8(200);
    SextAt8(-56);
    SextAt8(2);
    SextAt8(-28);
    SextAt8(100);
  }

  lemma HalfOfWide()
    ensures EvalBinary(DIV_S, -56, 2, 8) == Some(-28)
  {
    Readings();
    hide Pow2, Sext, Unsigned, Bitwise, Shl, Shr, RotL, RotR;
  }

  /** The first step of both: the value is -56. */
  lemma ConstRuns(g: Function, o: Oracle)
    requires g.entry == 0 && |g.blocks| == 1 && g.blocks[0].code == [0, 1, 2] && |g.insts| == 3
    requires g.insts[0] == WideConst().insts[0] && ResultWidth(g, g.insts[0]) == 8
    ensures Step(g, o, Init(g, map[])) == Running(State(0, 1, None, map[], map[0 := -56], []))
  {
    Readings();
    hide Sext, ResultWidth, Step;
    ConstStep(g, o, Init(g, map[]), 200);
  }

  lemma Returns(g: Function, o: Oracle, x: int)
    requires |g.blocks| == 1 && g.blocks[0].code == [0, 1, 2] && |g.insts| == 3
    requires g.insts[2] == Instruction(RETURN, false, None, [OpValue(1)], 0)
    ensures Step(g, o, State(0, 2, None, map[], map[0 := -56, 1 := x], [])) == Returned(Some(IntArg(x)), [])
  {
  }

  lemma DivideComputes(o: Oracle, cmpWidth: nat, tys: seq<nat>)
    requires cmpWidth > 0
    ensures Compute(o, DIV_S, 1, cmpWidth, tys, [IntArg(-56), IntArg(2)], []) == Some(-28)
  {
    HalfOfWide();
    hide EvalUnary, EvalBinary, EvalCmp;
  }

  lemma DivideArgs(env: Env)
    requires 0 in env && env[0] == -56
    ensures AllReadable([OpValue(0), OpInt(2)], env) && ArgsOf([OpValue(0), OpInt(2)], env) == [IntArg(-56), IntArg(2)]
  {
    var ops := [OpValue(0), OpInt(2)];
    assert ArgsOf(ops, env)[0] == IntArg(-56) && ArgsOf(ops, env)[1] == IntArg(2);
  }

  /** The division of the run. */
  lemma DivideRuns(f: Function, o: Oracle)
    requires |f.blocks| == 1 && f.blocks[0].code == [0, 1, 2] && |f.insts| == 3
    requires f.insts[1] == WideConst().insts[1] && ResultType(f, f.insts[1]) == 1
    ensures Step(f, o, State(0, 1, None, map[], map[0 := -56], [])) ==
            Running(State(0, 2, None, map[], map[0 := -56, 1 := -28], []))
  {
    var st := State(0, 1, None, map[], map[0 := -56], []);
    var inst := f.insts[1];
    DivideArgs(st.env);
    DivideComputes(o, CmpWidth(f, inst), OperandTypes(f, inst.ops));
    Readings();
    assert map[0 := -56][1 := -28] == map[0 := -56, 1 := -28];
    hide Step, Compute, Sext, CmpWidth, ResultType, OperandTypes, AllReadable;
    PlainRuns(f, o, st);
    PlainStepIs(f, o, st);
  }

  /** The constant that takes the division's place. */
  lemma FoldedRuns(g: Function, o: Oracle)
    requires |g.blocks| == 1 && g.blocks[0].code == [0, 1, 2] && |g.insts| == 3
    requires g.insts[1] == Instruction(CONST, false, Some(1), [OpInt(100)], 0) && ResultWidth(g, g.insts[1]) == 8
    ensures Step(g, o, State(0, 1, None, map[], map[0 := -56], [])) ==
            Running(State(0, 2, None, map[], map[0 := -56, 1 := 100], []))
  {
    Readings();
    hide Sext, ResultWidth, Step;
    ConstStep(g, o, State(0, 1, None, map[], map[0 := -56], []), 100);
    assert map[0 := -56][1 := 100] == map[0 := -56, 1 := 100];
  }

  lemma ThreeSteps(g: Function, o: Oracle, x: int)
    requires Step(g, o, Init(g, map[])) == Running(State(0, 1, None, map[], map[0 := -56], []))
    requires Step(g, o, State(0, 1, None, map[], map[0 := -56], [])) ==
             Running(State(0, 2, None, map[], map[0 := -56, 1 := x], []))
    requires Step(g, o, State(0, 2, None, map[], map[0 := -56, 1 := x], [])) == Returned(Some(IntArg(x)), [])
    ensures Run(g, o, map[], 3) == Returned(Some(IntArg(x)), [])
  {
    hide Step, Init;
    assert Run(g, o, map[], 0) == Running(Init(g, map[]));
    assert Run(g, o, map[], 1) == Running(State(0, 1, None, map[], map[0 := -56], []));
    assert Run(g, o, map[], 2) == Running(State(0, 2, None, map[], map[0 := -56, 1 := x], []));
  }

  lemma WideRun(f: Function, o: Oracle)
    requires f == WideConst()
    ensures Run(f, o, map[], 3) == Returned(Some(IntArg(-28)), [])
  {
    assert ResultWidth(f, f.insts[0]) == 8 && ResultType(f, f.insts[1]) == 1;
    hide Step, Run, Init, ResultWidth, ResultType;
    ConstRuns(f, o);
    DivideRuns(f, o);
    Returns(f, o, -28);
    ThreeSteps(f, o, -28);
  }

  /** The function after the pass. */
  lemma WideFolded(f: Function, s: Facts)
    requires f == WideConst() && IsSolution(f, s)
    ensures var g := Rewritten(f, s);
            && g.entry == 0 && |g.blocks| == 1 && g.blocks[0].code == [0, 1, 2] && |g.insts| == 3 && g.vals == f.vals
            && g.insts[0] == f.insts[0] && g.insts[1] == Instruction(CONST, false, Some(1), [OpInt(100)], 0)
            && g.insts[2] == f.insts[2]
  {
    hide Rewritten, IsFixpoint, BelowInitial, InRun, AfterInst;
    OnlyCells(f, s);
    RewrittenInsts(f, s);
    WideAfter(f, s);
  }

  lemma WideAfter(f: Function, s: Facts)
    requires f == WideConst() && s.lat == WideFacts().lat && |s.exec| == 1 && s.exec[0]
    ensures AfterInst(f, s, 1, 0) == f.insts[0] && AfterInst(f, s, 1, 2) == f.insts[2]
    ensures AfterInst(f, s, 1, 1) == Instruction(CONST, false, Some(1), [OpInt(100)], 0)
  {
    hide InRun;
    assert ConstCell(f, s, 1) && !ConstCell(f, s, 0) && !ConstCell(f, s, 2);
    assert !FoldsBranch(f, s, 0);
    PlainNotInRun(f, s, 0);
    PlainNotInRun(f, s, 2);
  }

  lemma PlainNotInRun(f: Function, s: Facts, i: nat)
    requires i < |f.insts| && f.insts[i].opcode != PHI && !ConstCell(f, s, i)
    ensures !InRun(f, s, i)
  {
    hide ConstCell;
    if InRun(f, s, i) { RunIsPhi(f, s, i); }
  }

  /**
   * An accepted function without floats whose immediate does not fit: at every solution, and there is one, the pass
   * makes it return 100 in place of -28.
   */
  lemma WideConstMisfolds(o: Oracle)
    ensures var f := WideConst();
            && Accepts(f) && !IntegerFunction(f) && GoodArgs(f, map[]) && IsSolution(f, WideFacts())
            && Run(f, o, map[], 3) == Returned(Some(IntArg(-28)), [])
            && forall s :: IsSolution(f, s) ==> Run(Rewritten(f, s), o, map[], 3) == Returned(Some(IntArg(100)), [])
  {
    var f := WideConst();
    WideAccepted(f);
    WideSolution(f, WideFacts());
    WideRun(f, o);
    WideIsUntyped(f);
    hide Run, IsSolution, Rewritten, Accepts, IntegerFunction, WideConst, GoodArgs;
    forall s | IsSolution(f, s) ensures Run(Rewritten(f, s), o, map[], 3) == Returned(Some(IntArg(100)), []) {
      FoldedRun(f, o, s);
    }
  }

  lemma WideIsUntyped(f: Function)
    requires f == WideConst()
    ensures !IntegerFunction(f) && GoodArgs(f, map[])
  {
    assert Pow2(7) == 128;
    assert !OperandFits(f, f.insts[0].ops[0], 8);
    assert !WellTyped(f, f.insts[0]);
  }

  lemma FoldedRun(f: Function, o: Oracle, s: Facts)
    requires f == WideConst() && IsSolution(f, s)
    ensures Run(Rewritten(f, s), o, map[], 3) == Returned(Some(IntArg(100)), [])
  {
    var g := Rewritten(f, s);
    WideFolded(f, s);
    assert ResultWidth(g, g.insts[0]) == 8 && ResultWidth(g, g.insts[1]) == 8;
    hide Rewritten, IsSolution, Step, Run, ResultWidth;
    ConstRuns(g, o);
    FoldedRuns(g, o);
    Returns(g, o, 100);
    ThreeSteps(g, o, 100);
  }
}
