/** Why value numbering (src/opt/gvn.c) asks for block ids that follow dominance: a function it leaves as it is. */
module GvnOrder {
  import opened Opcodes
  import opened IntFold
  import opened Cfg
  import opened Ir
  import opened SccpLattice
  import opened Validate
  import opened GvnKeys
  import opened GvnSound
  import opened Gvn
  import opened GvnComplete
  import SccpWitness

  /** Block 0 goes to block 2 and that to block 1; both negate the argument, and block 1 returns its own result. */
  function OutOfOrder(): Function {
    Function(0,
      [Block([0], [], [2]), Block([1, 2], [2], []), Block([3, 4], [0], [1])],
      [Instruction(BRANCH, false, None, [OpBlock(2)], 0),
       Instruction(NEG, false, Some(1), [OpValue(0)], 1),
       Instruction(RETURN, false, None, [OpValue(1)], 1),
       Instruction(NEG, false, Some(2), [OpValue(0)], 2),
       Instruction(BRANCH, false, None, [OpBlock(1)], 2)],
      [Value(3, ArgumentValue, None), Value(3, InstructionValue, Some(1)), Value(3, InstructionValue, Some(3))])
  }

  lemma OrderLists(f: Function)
    requires f == OutOfOrder()
    ensures f.entry == 0 && |f.blocks| == 3 && |f.insts| == 5 && |f.vals| == 3
    ensures f.blocks[0].code == [0] && f.blocks[1].code == [1, 2] && f.blocks[2].code == [3, 4]
    ensures f.insts[0].block == 0 && f.insts[1].block == 1 && f.insts[2].block == 1 && f.insts[3].block == 2
            && f.insts[4].block == 2
    ensures f.insts[0].result == None && f.insts[1].result == Some(1) && f.insts[2].result == None
            && f.insts[3].result == Some(2) && f.insts[4].result == None
    ensures f.vals == [Value(3, ArgumentValue, None), Value(3, InstructionValue, Some(1)),
                       Value(3, InstructionValue, Some(3))]
  {
  }

  lemma OrderCode(f: Function)
    requires f == OutOfOrder()
    ensures CodeOk(f)
  {
    OrderLists(f);
    hide OutOfOrder;
  }

  lemma OrderDefs(f: Function)
    requires f == OutOfOrder()
    ensures ResultsOk(f) && DefsOk(f)
  {
    OrderLists(f);
    hide OutOfOrder;
  }

  lemma OrderEdges(f: Function)
    requires f == OutOfOrder()
    ensures EdgesOk(f) && ListsEnd(f)
    ensures forall i :: 0 <= i < |f.insts| && IsTerminator(f.insts[i].opcode) ==> f.insts[i].result.None?
  {
    assert BlockTargets(f, 0) == {2};
    assert BlockTargets(f, 1) == {};
    assert BlockTargets(f, 2) == {1};
    hide BlockTargets;
  }

  lemma OrderFirst(f: Function)
    requires f == OutOfOrder()
    ensures BlockAccepted(f, 0)
  {
    hide InstAccepted;
    SccpWitness.PlainAccepted(f, 0, 0);
  }

  lemma OrderSecond(f: Function)
    requires f == OutOfOrder()
    ensures BlockAccepted(f, 1)
  {
    hide InstAccepted;
    SccpWitness.PlainAccepted(f, 1, 0);
    SccpWitness.ReturnAccepted(f, 1, 1, 0);
  }

  lemma OrderThird(f: Function)
    requires f == OutOfOrder()
    ensures BlockAccepted(f, 2)
  {
    hide InstAccepted;
    SccpWitness.PlainAccepted(f, 2, 0);
    SccpWitness.PlainAccepted(f, 2, 1);
  }

  lemma OrderAccepted(f: Function)
    requires f == OutOfOrder()
    ensures Accepts(f)
  {
    hide BlockAccepted;
    OrderFirst(f);
    OrderSecond(f);
    OrderThird(f);
  }

  lemma NegTyped(f: Function, inst: Instruction)
    requires inst.opcode == NEG && inst.ops == [OpValue(0)] && inst.result.Some?
    requires 0 < |f.vals| && f.vals[0].ty == 3 && ResultType(f, inst) == 3
    ensures KeyIsWhole(f, inst)
  {
    assert ResultWidth(f, inst) == 32 && ValueWidth(f, 0) == 32;
    hide BitWidth, ResultWidth, ValueWidth, Fits;
  }

  lemma OrderTyped(f: Function)
    requires f == OutOfOrder()
    ensures IntegerFunction(f)
    ensures forall i: nat :: i < |f.insts| && IsCandidate(f, f.insts[i]) ==> KeyIsWhole(f, f.insts[i])
  {
    hide WellTyped, IsFloat, ResultType, IsCandidate;
    OrderNegs(f);
    NegTyped(f, f.insts[1]);
    NegTyped(f, f.insts[3]);
    SccpWitness.EndTyped(f, f.insts[0]);
    SccpWitness.EndTyped(f, f.insts[2]);
    SccpWitness.EndTyped(f, f.insts[4]);
    forall i: nat | i < |f.insts| ensures WellTyped(f, f.insts[i]) && SccpWitness.NoFloats(f.insts[i]) {
    }
    OrderEnds(f);
  }

  lemma OrderNegs(f: Function)
    requires f == OutOfOrder()
    ensures ResultType(f, f.insts[1]) == 3 && ResultType(f, f.insts[3]) == 3
  {
  }

  lemma OrderEnds(f: Function)
    requires f == OutOfOrder()
    ensures !IsCandidate(f, f.insts[0]) && !IsCandidate(f, f.insts[2]) && !IsCandidate(f, f.insts[4])
  {
  }

  lemma OrderKinds(f: Function)
    requires f == OutOfOrder()
    ensures forall v :: 0 <= v < |f.vals| ==> f.vals[v].kind != ConstantValue
  {
  }

  lemma OrderReady(f: Function)
    requires f == OutOfOrder()
    ensures Ready(f) && CodeOk(f)
  {
    hide CodeOk, ResultsOk, DefsOk, EdgesOk, ListsEnd, Accepts, IntegerFunction, KeyIsWhole, IsCandidate, OutOfOrder,
      IsTerminator;
    OrderCode(f);
    OrderDefs(f);
    OrderEdges(f);
    OrderAccepted(f);
    OrderTyped(f);
    OrderKinds(f);
  }

  /** Block 1 is reached through block 2, and block 2 without block 1. */
  lemma OrderPaths(f: Function)
    requires f == OutOfOrder()
    ensures Strictly(f, 2, 1) && !Strictly(f, 1, 2)
  {
    var g := GraphOf(f);
    assert PathTo(g, [0, 2], 2);
    assert PathTo(g, [0, 2, 1], 1);
    forall p | PathTo(g, p, 1) ensures 2 in p {
      assert Edge(g, p[|p| - 2], p[|p| - 1]);
    }
  }

  lemma OrderCandidates(f: Function, d: nat, c: nat, q: nat)
    requires f == OutOfOrder()
    ensures CandidateAt(f, d, c, q) <==> (d == 1 && c == 1 && q == 0) || (d == 3 && c == 2 && q == 0)
  {
  }

  lemma OrderRepeats(f: Function)
    requires f == OutOfOrder()
    ensures Repeats(f, 3, 2, 0, 1, 1, 0) && NothingToShare(f)
  {
    OrderPaths(f);
    OrderNegs(f);
    hide Strictly, ResultType;
    assert SameExpression(f, f.insts[3], f.insts[1]);
    hide CandidateAt, OutOfOrder, SameExpression;
    OrderCandidates(f, 3, 2, 0);
    OrderCandidates(f, 1, 1, 0);
    forall d: nat, c: nat, q: nat, i: nat, b: nat, m: nat | Before(c, q, b, m)
      ensures !Repeats(f, d, c, q, i, b, m)
    {
      OrderCandidates(f, d, c, q);
      OrderCandidates(f, i, b, m);
    }
  }

  /** The negation in block 1 stands below the one in block 2, and the pass does not see it. */
  lemma IdsMatter()
    ensures var f := OutOfOrder();
            && Ready(f) && CodeOk(f) && !IdsFollowDominance(f)
            && Repeats(f, 3, 2, 0, 1, 1, 0) && ValueNumbered(f) == f
  {
    hide Ready, CodeOk, Strictly, Repeats, NothingToShare, OutOfOrder;
    var f := OutOfOrder();
    OrderReady(f);
    OrderPaths(f);
    OrderRepeats(f);
    IdleKeeps(f);
  }
}
