/**
 * What the facts of src/opt/sccp.c are, said of operands and edges one by one and not through the evaluation: which
 * cell each kind of instruction ends with, and which edges and blocks are marked.
 */
module SccpPrecise {
  import opened Opcodes
  import opened IntFold
  import opened Ir
  import opened SccpLattice

  // ---------------------------------------------------------------- operands

  /** The operand is known to be c. */
  predicate Knows(lat: seq<Lat>, op: Operand, c: int) {
    op == OpInt(c) || (op.OpValue? && op.val < |lat| && lat[op.val] == Constant(c))
  }

  /** Nothing has been seen of the operand yet. */
  predicate Unseen(lat: seq<Lat>, op: Operand) {
    op.OpValue? && op.val < |lat| && lat[op.val] == Top
  }

  /** The operand may be anything. */
  predicate Varies(lat: seq<Lat>, op: Operand) {
    match op
    case OpInt(_) => false
    case OpValue(v) => v < |lat| ==> lat[v] == Bottom
    case _ => true
  }

  /** What the operand's cell is. */
  predicate HasCell(lat: seq<Lat>, op: Operand, l: Lat) {
    match l
    case Top => Unseen(lat, op)
    case Constant(c) => Knows(lat, op, c)
    case Bottom => Varies(lat, op)
  }

  lemma OperandCell(lat: seq<Lat>, op: Operand)
    ensures HasCell(lat, op, OperandLat(lat, op))
    ensures OperandLat(lat, op) == Top <==> Unseen(lat, op)
    ensures OperandLat(lat, op) == Bottom <==> Varies(lat, op)
    ensures forall c :: OperandLat(lat, op) == Constant(c) <==> Knows(lat, op, c)
  {
  }

  // ---------------------------------------------------------------- PHIs

  /** Input j of a PHI of block b comes over an edge that is marked. */
  predicate IsMarked(ops: seq<Operand>, edges: Edges, b: nat, j: nat) {
    j % 2 == 0 && j + 1 < |ops| && ops[j + 1].OpBlock? && (ops[j + 1].blk, b) in edges
  }

  /** No input over a marked edge has been seen. */
  ghost predicate NoneSeen(ops: seq<Operand>, lat: seq<Lat>, edges: Edges, b: nat) {
    forall j: nat :: IsMarked(ops, edges, b, j) ==> Unseen(lat, ops[j])
  }

  /** The inputs over marked edges that have been seen are all c, and there is one. */
  ghost predicate AllSeenAre(ops: seq<Operand>, lat: seq<Lat>, edges: Edges, b: nat, c: int) {
    && (forall j: nat :: IsMarked(ops, edges, b, j) ==> Unseen(lat, ops[j]) || Knows(lat, ops[j], c))
    && (exists j: nat :: IsMarked(ops, edges, b, j) && Knows(lat, ops[j], c))
  }

  ghost predicate PhiExact(ops: seq<Operand>, lat: seq<Lat>, edges: Edges, b: nat, l: Lat) {
    match l
    case Top => NoneSeen(ops, lat, edges, b)
    case Constant(c) => AllSeenAre(ops, lat, edges, b, c)
    case Bottom => !NoneSeen(ops, lat, edges, b) && forall c :: !AllSeenAre(ops, lat, edges, b, c)
  }

  lemma MarkedLater(ops: seq<Operand>, edges: Edges, b: nat, j: nat)
    requires |ops| >= 2
    ensures IsMarked(ops[2..], edges, b, j) <==> IsMarked(ops, edges, b, j + 2)
  {
  }

  lemma {:induction false} PhiTopIff(ops: seq<Operand>, lat: seq<Lat>, edges: Edges, b: nat)
    ensures PhiMeet(ops, lat, edges, b) == Top <==> NoneSeen(ops, lat, edges, b)
  {
    if |ops| >= 2 {
      var rest := ops[2..];
      PhiTopIff(rest, lat, edges, b);
      OperandCell(lat, ops[0]);
      forall j: nat ensures IsMarked(rest, edges, b, j) <==> IsMarked(ops, edges, b, j + 2) {
        MarkedLater(ops, edges, b, j);
      }
      assert IsMarked(ops, edges, b, 0) <==> ops[1].OpBlock? && (ops[1].blk, b) in edges;
      hide IsMarked, Unseen, OperandLat;
      if NoneSeen(rest, lat, edges, b) && (IsMarked(ops, edges, b, 0) ==> Unseen(lat, ops[0])) {
        forall j: nat | IsMarked(ops, edges, b, j) ensures Unseen(lat, ops[j]) {
          MarkedEven(ops, edges, b, j);
          if j >= 2 { assert IsMarked(rest, edges, b, j - 2) && rest[j - 2] == ops[j]; }
        }
      }
      if NoneSeen(ops, lat, edges, b) {
        forall j: nat | IsMarked(rest, edges, b, j) ensures Unseen(lat, rest[j]) {
          MarkedEven(rest, edges, b, j);
          assert IsMarked(ops, edges, b, j + 2) && rest[j] == ops[j + 2];
        }
      }
    }
  }

  lemma MarkedEven(ops: seq<Operand>, edges: Edges, b: nat, j: nat)
    requires IsMarked(ops, edges, b, j)
    ensures j % 2 == 0 && j + 1 < |ops|
  {
  }

  /** The meet is below c exactly when no marked input is anything else. */
  lemma {:induction false} PhiAboveIff(ops: seq<Operand>, lat: seq<Lat>, edges: Edges, b: nat, c: int)
    ensures Below(Constant(c), PhiMeet(ops, lat, edges, b)) <==>
              forall j: nat :: IsMarked(ops, edges, b, j) ==> Unseen(lat, ops[j]) || Knows(lat, ops[j], c)
  {
    if |ops| >= 2 {
      var rest := ops[2..];
      PhiAboveIff(rest, lat, edges, b, c);
      OperandCell(lat, ops[0]);
      forall j: nat ensures IsMarked(rest, edges, b, j) <==> IsMarked(ops, edges, b, j + 2) {
        MarkedLater(ops, edges, b, j);
      }
      assert IsMarked(ops, edges, b, 0) <==> ops[1].OpBlock? && (ops[1].blk, b) in edges;
      assert Below(Constant(c), PhiMeet(ops, lat, edges, b)) <==>
               Below(Constant(c), PhiMeet(rest, lat, edges, b))
               && (IsMarked(ops, edges, b, 0) ==> Unseen(lat, ops[0]) || Knows(lat, ops[0], c));
      hide IsMarked, Unseen, Knows, OperandLat, PhiMeet;
      if Below(Constant(c), PhiMeet(ops, lat, edges, b)) {
        forall j: nat | IsMarked(ops, edges, b, j) ensures Unseen(lat, ops[j]) || Knows(lat, ops[j], c) {
          MarkedEven(ops, edges, b, j);
          if j >= 2 { assert IsMarked(rest, edges, b, j - 2) && rest[j - 2] == ops[j]; }
        }
      }
      if forall j: nat :: IsMarked(ops, edges, b, j) ==> Unseen(lat, ops[j]) || Knows(lat, ops[j], c) {
        forall j: nat | IsMarked(rest, edges, b, j) ensures Unseen(lat, rest[j]) || Knows(lat, rest[j], c) {
          MarkedEven(rest, edges, b, j);
          assert IsMarked(ops, edges, b, j + 2) && rest[j] == ops[j + 2];
        }
      }
    }
  }

  /** The meet over the executable edges, input by input. */
  lemma PhiMeetIsExact(ops: seq<Operand>, lat: seq<Lat>, edges: Edges, b: nat)
    ensures PhiExact(ops, lat, edges, b, PhiMeet(ops, lat, edges, b))
  {
    var l := PhiMeet(ops, lat, edges, b);
    PhiTopIff(ops, lat, edges, b);
    forall c ensures Below(Constant(c), l) <==>
              forall j: nat :: IsMarked(ops, edges, b, j) ==> Unseen(lat, ops[j]) || Knows(lat, ops[j], c)
    {
      PhiAboveIff(ops, lat, edges, b, c);
    }
    hide PhiMeet, IsMarked, Unseen, Knows;
    if l.Constant? {
      var j: nat :| IsMarked(ops, edges, b, j) && !Unseen(lat, ops[j]);
      assert Knows(lat, ops[j], l.c);
    }
  }

  // ---------------------------------------------------------------- other instructions

  /** The cell of an operation of two operands whose result for two numbers is r. */
  predicate TwoExact(lat: seq<Lat>, ops: seq<Operand>, a: int, b: int, r: Option<int>, l: Lat)
    requires |ops| == 2
  {
    && (Varies(lat, ops[0]) || Varies(lat, ops[1]) ==> l == Bottom)
    && (!Varies(lat, ops[0]) && !Varies(lat, ops[1]) && (Unseen(lat, ops[0]) || Unseen(lat, ops[1])) ==> l == Top)
    && (Knows(lat, ops[0], a) && Knows(lat, ops[1], b) ==> l == if r.Some? then Constant(r.value) else Bottom)
  }

  ghost predicate UnaryExact(op: Opcode, lat: seq<Lat>, ops: seq<Operand>, w: nat, l: Lat)
    requires w > 0 && |ops| == 1
  {
    && (Varies(lat, ops[0]) ==> l == Bottom)
    && (Unseen(lat, ops[0]) ==> l == Top)
    && forall a :: Fits(a, w) && Knows(lat, ops[0], a) ==>
         EvalUnary(op, a, w).Some? && l == Constant(EvalUnary(op, a, w).value)
  }

  ghost predicate BinaryExact(op: Opcode, lat: seq<Lat>, ops: seq<Operand>, w: nat, l: Lat)
    requires w > 0 && |ops| == 2
  {
    forall a, b :: Fits(a, w) && Fits(b, w) ==> TwoExact(lat, ops, a, b, EvalBinary(op, a, b, w), l)
  }

  ghost predicate CmpExact(op: Opcode, lat: seq<Lat>, ops: seq<Operand>, w: nat, l: Lat)
    requires w > 0 && |ops| == 2
  {
    forall a, b :: Fits(a, w) && Fits(b, w) ==> TwoExact(lat, ops, a, b, EvalCmp(op, a, b, w), l)
  }

  /** The meet of two operands. */
  ghost predicate EitherExact(lat: seq<Lat>, x: Operand, y: Operand, l: Lat) {
    && (l == Top <==> Unseen(lat, x) && Unseen(lat, y))
    && (forall c :: l == Constant(c) <==>
          && (Knows(lat, x, c) || Knows(lat, y, c))
          && (Unseen(lat, x) || Knows(lat, x, c)) && (Unseen(lat, y) || Knows(lat, y, c)))
  }

  ghost predicate SelectExact(lat: seq<Lat>, ops: seq<Operand>, l: Lat)
    requires |ops| == 3
  {
    && (Unseen(lat, ops[0]) ==> l == Top)
    && (forall c :: Knows(lat, ops[0], c) ==> HasCell(lat, if c != 0 then ops[1] else ops[2], l))
    && (Varies(lat, ops[0]) ==> EitherExact(lat, ops[1], ops[2], l))
  }

  /** What the cell of instruction inst is, by its operands' cells and the marked edges. */
  ghost predicate InstExact(f: Function, inst: Instruction, lat: seq<Lat>, edges: Edges, l: Lat) {
    var op, ops := inst.opcode, inst.ops;
    && (op == CONST && |ops| == 1 && ops[0].OpInt? ==> l == Constant(ops[0].imm))
    && (op == PHI ==> PhiExact(ops, lat, edges, inst.block, l))
    && (IsIntUnary(op) && |ops| == 1 ==> UnaryExact(op, lat, ops, ResultWidth(f, inst), l))
    && (IsIntBinary(op) && |ops| == 2 ==> BinaryExact(op, lat, ops, ResultWidth(f, inst), l))
    && (IsIntCmp(op) && |ops| == 2 ==> CmpExact(op, lat, ops, CmpWidth(f, inst), l))
    && (op == SELECT && |ops| == 3 ==> SelectExact(lat, ops, l))
  }

  lemma OneOperand(op: Opcode, lat: seq<Lat>, ops: seq<Operand>, w: nat)
    requires IsWidth(w) && |ops| == 1 && IsIntUnary(op)
    ensures UnaryExact(op, lat, ops, w, EvalOne(op, OperandLat(lat, ops[0]), w))
  {
    OperandCell(lat, ops[0]);
    hide Fits, FoldUnary, EvalUnary, OperandLat, Knows, Unseen, Varies;
    forall a | Fits(a, w) && Knows(lat, ops[0], a)
      ensures EvalUnary(op, a, w).Some?
      ensures EvalOne(op, OperandLat(lat, ops[0]), w) == Constant(EvalUnary(op, a, w).value)
    {
      FitsWider(a, w);
      UnaryMeans(op, a, w);
      UnaryIsSome(op, a, w);
    }
  }

  lemma UnaryIsSome(op: Opcode, a: int, w: nat)
    requires IsIntUnary(op) && w > 0
    ensures EvalUnary(op, a, w).Some?
  {
  }

  lemma TwoOperands(op: Opcode, lat: seq<Lat>, ops: seq<Operand>, w: nat, cw: nat, a: int, b: int, r: Option<int>)
    requires |ops| == 2
    requires r == var x := FoldBinary(op, a, b, w); if x.Some? then x else FoldCmp(op, a, b, cw)
    ensures TwoExact(lat, ops, a, b, r, EvalTwo(op, OperandLat(lat, ops[0]), OperandLat(lat, ops[1]), w, cw))
  {
    OperandCell(lat, ops[0]);
    OperandCell(lat, ops[1]);
    hide FoldBinary, FoldCmp, OperandLat, Knows, Unseen, Varies;
  }

  lemma NoCompare(op: Opcode, a: int, b: int, w: nat)
    requires IsIntBinary(op)
    ensures FoldCmp(op, a, b, w) == None
  {
  }

  lemma BinaryOperands(op: Opcode, lat: seq<Lat>, ops: seq<Operand>, w: nat, cw: nat)
    requires IsWidth(w) && |ops| == 2 && IsIntBinary(op)
    ensures BinaryExact(op, lat, ops, w, EvalTwo(op, OperandLat(lat, ops[0]), OperandLat(lat, ops[1]), w, cw))
  {
    hide Fits, FoldBinary, FoldCmp, EvalBinary, EvalTwo, TwoExact, OperandLat;
    forall a, b | Fits(a, w) && Fits(b, w)
      ensures TwoExact(lat, ops, a, b, EvalBinary(op, a, b, w),
                       EvalTwo(op, OperandLat(lat, ops[0]), OperandLat(lat, ops[1]), w, cw))
    {
      FoldBinaryIsTwosComplement(op, a, b, w);
      NoCompare(op, a, b, cw);
      TwoOperands(op, lat, ops, w, cw, a, b, EvalBinary(op, a, b, w));
    }
  }

  lemma NoBinary(op: Opcode, a: int, b: int, w: nat)
    requires IsIntCmp(op)
    ensures FoldBinary(op, a, b, w) == None
  {
  }

  lemma CmpOperands(op: Opcode, lat: seq<Lat>, ops: seq<Operand>, w: nat, cw: nat)
    requires IsWidth(w) && IsWidth(cw) && |ops| == 2 && IsIntCmp(op)
    ensures CmpExact(op, lat, ops, cw, EvalTwo(op, OperandLat(lat, ops[0]), OperandLat(lat, ops[1]), w, cw))
  {
    hide Fits, FoldBinary, FoldCmp, EvalCmp, EvalTwo, TwoExact, OperandLat;
    forall a, b | Fits(a, cw) && Fits(b, cw)
      ensures TwoExact(lat, ops, a, b, EvalCmp(op, a, b, cw),
                       EvalTwo(op, OperandLat(lat, ops[0]), OperandLat(lat, ops[1]), w, cw))
    {
      FitsWider(a, cw);
      FitsWider(b, cw);
      FoldCmpIsTwosComplement(op, a, b, cw);
      NoBinary(op, a, b, w);
      TwoOperands(op, lat, ops, w, cw, a, b, EvalCmp(op, a, b, cw));
    }
  }

  lemma SelectOperands(lat: seq<Lat>, ops: seq<Operand>)
    requires |ops| == 3
    ensures SelectExact(lat, ops,
                        EvalSelect(OperandLat(lat, ops[0]), OperandLat(lat, ops[1]), OperandLat(lat, ops[2])))
  {
    OperandCell(lat, ops[0]);
    OperandCell(lat, ops[1]);
    OperandCell(lat, ops[2]);
    hide OperandLat, Knows, Unseen, Varies;
  }

  lemma KindsApart(op: Opcode)
    ensures IsIntUnary(op) ==> op != CONST && op != PHI && op != SELECT
    ensures IsIntBinary(op) ==> op != CONST && op != PHI && op != SELECT
    ensures IsIntCmp(op) ==> op != CONST && op != PHI && op != SELECT
  {
  }

  /** The evaluation of every instruction is exact in this sense. */
  lemma EvalIsExact(f: Function, inst: Instruction, lat: seq<Lat>, edges: Edges)
    requires inst.result.Some? && inst.result.value < |f.vals|
    ensures InstExact(f, inst, lat, edges, EvalInstruction(f, inst, lat, edges))
  {
    hide IsIntUnary, IsIntBinary, IsIntCmp, EvalOne, EvalTwo, EvalSelect, PhiMeet, OperandLat, ResultWidth, CmpWidth,
      UnaryExact, BinaryExact, CmpExact, SelectExact, PhiExact;
    var op, ops, w, cw := inst.opcode, inst.ops, ResultWidth(f, inst), CmpWidth(f, inst);
    KindsApart(op);
    PhiMeetIsExact(ops, lat, edges, inst.block);
    if IsIntUnary(op) && |ops| == 1 { OneOperand(op, lat, ops, w); }
    if IsIntBinary(op) && |ops| == 2 { BinaryOperands(op, lat, ops, w, cw); }
    if IsIntCmp(op) && |ops| == 2 { CmpOperands(op, lat, ops, w, cw); }
    if |ops| == 3 { SelectOperands(lat, ops); }
  }
}
