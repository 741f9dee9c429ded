/**
 * Where src/opt/sccp.c and src/ir/validate.c meet: exactly when the validator still accepts what constant
 * propagation leaves of an accepted function.
 */
module SccpAccept {
  import opened Opcodes
  import opened Cfg
  import opened Ir
  import opened IrEdit
  import opened SccpLattice
  import opened SccpSteps
  import opened Sccp
  import opened SccpRewrite
  import opened SccpShape
  import opened SccpTwins
  import opened Validate

  // ---------------------------------------------------------------- the condition

  /** In no block a PHI with a constant cell stands before one without. */
  ghost predicate ConstantsAfterPhis(f: Function, s: Facts) {
    forall b: nat, n: nat, m: nat ::
      m < n && IsPhiAt(f, b, m) && IsPhiAt(f, b, n) && ConstCell(f, s, f.blocks[b].code[m]) ==>
        ConstCell(f, s, f.blocks[b].code[n])
  }

  /** A path from the entry to b that uses no edge the pass removes. */
  ghost predicate KeptPath(f: Function, s: Facts, p: seq<nat>, b: nat) {
    PathTo(GraphOf(f), p, b) && forall i :: 0 <= i < |p| - 1 ==> !DeadEdge(f, s, p[i], p[i + 1])
  }

  ghost predicate Remains(f: Function, s: Facts, b: nat) {
    exists p :: KeptPath(f, s, p, b)
  }

  /** The operand is the result of an instruction of another block than b. */
  predicate DefinedAway(f: Function, op: Operand, b: nat) {
    && op.OpValue? && op.val < |f.vals| && f.vals[op.val].kind == InstructionValue
    && var def := f.vals[op.val].def;
    def.Some? && def.value < |f.insts| && f.insts[def.value].block != b
  }

  /** Instruction i keeps its operands. */
  predicate Stays(f: Function, s: Facts, i: nat)
    requires i < |f.insts|
  {
    var b := f.insts[i].block;
    !ConstCell(f, s, i) && !(FoldsBranch(f, s, b) && i == LastId(f, b))
  }

  /** What stays in a block that is cut off reads nothing from other blocks. */
  ghost predicate CutOffReadsHome(f: Function, s: Facts) {
    forall b: nat, n: nat ::
      HasInst(f, b, n) && InstAt(f, b, n).opcode != PHI && Stays(f, s, f.blocks[b].code[n]) && !Remains(f, s, b) ==>
        ReadsHome(f, b, n)
  }

  ghost predicate ReadsHome(f: Function, b: nat, n: nat)
    requires HasInst(f, b, n)
  {
    forall op :: op in InstAt(f, b, n).ops ==> !DefinedAway(f, op, b)
  }

  /** A pair of a PHI of block b that stays, with its value from elsewhere than the predecessor p that labels it. */
  predicate FarInput(f: Function, s: Facts, b: nat, n: nat, k: nat, p: nat)
  {
    && IsPhiAt(f, b, n) && !ConstCell(f, s, f.blocks[b].code[n])
    && var ops := InstAt(f, b, n).ops;
    k % 2 == 0 && k + 1 < |ops| && ops[k + 1] == OpBlock(p) && !DeadEdge(f, s, p, b) && DefinedAway(f, ops[k], p)
  }

  ghost predicate FarInputsRemain(f: Function, s: Facts) {
    forall b: nat, n: nat, k: nat, p: nat :: FarInput(f, s, b, n, k, p) ==> Remains(f, s, p)
  }

  /** PHIs have no values where their labels belong. */
  ghost predicate PhiLabels(f: Function) {
    forall i: nat, k: nat :: i < |f.insts| && f.insts[i].opcode == PHI && k < |f.insts[i].ops| && k % 2 == 1 ==>
      !f.insts[i].ops[k].OpValue?
  }

  // ---------------------------------------------------------------- paths after the pass

  lemma KeptPathIs(f: Function, s: Facts, p: seq<nat>, b: nat)
    requires IsFixpoint(f, s) && ListsSimple(f)
    ensures PathTo(GraphOf(Rewritten(f, s)), p, b) <==> KeptPath(f, s, p, b)
  {
    var g := Rewritten(f, s);
    RewrittenFrame(f, s);
    hide IsFixpoint, Rewritten, AfterInst, DeadEdge, ListsSimple;
    forall i | 0 <= i < |p| - 1 && p[i] < |f.blocks| && p[i + 1] < |f.blocks|
      ensures Edge(GraphOf(g), p[i], p[i + 1]) <==> Edge(GraphOf(f), p[i], p[i + 1]) && !DeadEdge(f, s, p[i], p[i + 1])
    {
      ListsRemain(f, s, p[i]);
    }
  }

  lemma RemainsIs(f: Function, s: Facts, b: nat)
    requires IsFixpoint(f, s) && ListsSimple(f)
    ensures Reachable(GraphOf(Rewritten(f, s)), b) <==> Remains(f, s, b)
  {
    hide IsFixpoint, Rewritten, ListsSimple, PathTo, KeptPath;
    if Reachable(GraphOf(Rewritten(f, s)), b) {
      var p :| PathTo(GraphOf(Rewritten(f, s)), p, b);
      KeptPathIs(f, s, p, b);
    }
    if Remains(f, s, b) {
      var p :| KeptPath(f, s, p, b);
      KeptPathIs(f, s, p, b);
    }
  }

  /** Strict dominance survives exactly where the dominated block does. */
  lemma StrictlyAfter(f: Function, s: Facts, a: nat, b: nat)
    requires IsFixpoint(f, s) && ListsSimple(f) && Strictly(f, a, b)
    ensures Strictly(Rewritten(f, s), a, b) <==> Remains(f, s, b)
  {
    var g := Rewritten(f, s);
    hide IsFixpoint, Rewritten, ListsSimple, DeadEdge;
    RemainsIs(f, s, b);
    if Remains(f, s, b) {
      var p :| KeptPath(f, s, p, b);
      assert a in p;
      var i :| 0 <= i < |p| && p[i] == a;
      PathPrefix(GraphOf(f), p, b, i);
      assert KeptPath(f, s, p[..i + 1], a);
      RemainsIs(f, s, a);
      forall q | PathTo(GraphOf(g), q, b) ensures a in q { KeptPathIs(f, s, q, b); }
    }
  }

  // ---------------------------------------------------------------- operands after the pass

  lemma FixpointBlock(f: Function, s: Facts, b: nat, n: nat)
    requires IsFixpoint(f, s) && HasInst(f, b, n)
    ensures CodeOk(f) && f.insts[f.blocks[b].code[n]].block == b
  {
    FixpointCode(f, s);
  }

  lemma InstAfterIs(f: Function, s: Facts, b: nat, n: nat)
    requires IsFixpoint(f, s) && HasInst(f, b, n)
    ensures var g := Rewritten(f, s);
            && SameFrame(f, g) && HasInst(g, b, n) && g.blocks[b].code == f.blocks[b].code
            && InstAt(g, b, n) == AfterInst(f, s, |f.blocks|, f.blocks[b].code[n]) && InstAt(g, b, n).block == b
            && forall i: nat :: i < |f.insts| ==> g.insts[i].block == f.insts[i].block
  {
    var g := Rewritten(f, s);
    hide IsFixpoint, Rewritten, AfterInst;
    RewrittenFrame(f, s);
    FixpointBlock(f, s, b, n);
    forall i: nat | i < |f.insts| ensures g.insts[i].block == f.insts[i].block { OpcodeAfterInst(f, s, |f.blocks|, i); }
  }

  /** A definition is accepted after the pass as before, save that a block it has to dominate must remain. */
  lemma DefAfter(f: Function, s: Facts, g: Function, home: nat, b: nat)
    requires IsFixpoint(f, s) && ListsSimple(f) && g == Rewritten(f, s) && home != b && Strictly(f, home, b)
    ensures Strictly(g, home, b) <==> Remains(f, s, b)
  {
    StrictlyAfter(f, s, home, b);
  }

  lemma PlainOperandAfter(f: Function, s: Facts, b: nat, n: nat, k: nat)
    requires IsFixpoint(f, s) && ListsSimple(f) && HasInst(f, b, n) && k < |InstAt(f, b, n).ops|
             && OperandAccepted(f, b, n, k)
    requires InstAt(f, b, n).opcode != PHI && HasInst(Rewritten(f, s), b, n)
             && InstAt(Rewritten(f, s), b, n) == InstAt(f, b, n)
    ensures OperandAccepted(Rewritten(f, s), b, n, k)
            <==> (DefinedAway(f, InstAt(f, b, n).ops[k], b) ==> Remains(f, s, b))
  {
    hide IsFixpoint, Rewritten, AfterInst, Strictly, Remains, ListsSimple;
    InstAfterIs(f, s, b, n);
    var op := InstAt(f, b, n).ops[k];
    if DefinedAway(f, op, b) {
      DefAfter(f, s, Rewritten(f, s), f.insts[f.vals[op.val].def.value].block, b);
    }
  }

  /** What a PHI's pair needs after the pass. */
  ghost predicate PairRemains(f: Function, s: Facts, op: Operand, tag: Operand) {
    tag.OpBlock? && DefinedAway(f, op, tag.blk) ==> Remains(f, s, tag.blk)
  }

  lemma PhiOperandAfter(f: Function, s: Facts, b: nat, n: nat, j: nat, k: nat)
    requires IsFixpoint(f, s) && ListsSimple(f) && HasInst(f, b, n) && HasInst(Rewritten(f, s), b, n)
    requires InstAt(f, b, n).opcode == PHI && InstAt(Rewritten(f, s), b, n).opcode == PHI
    requires j + 1 < |InstAt(f, b, n).ops| && k + 1 < |InstAt(Rewritten(f, s), b, n).ops| && OperandAccepted(f, b, n, j)
    requires InstAt(Rewritten(f, s), b, n).ops[k..k + 2] == InstAt(f, b, n).ops[j..j + 2]
    ensures OperandAccepted(Rewritten(f, s), b, n, k)
            <==> PairRemains(f, s, InstAt(f, b, n).ops[j], InstAt(f, b, n).ops[j + 1])
  {
    hide IsFixpoint, Rewritten, AfterInst, Strictly, Remains, ListsSimple;
    InstAfterIs(f, s, b, n);
    var g := Rewritten(f, s);
    var op, tag := InstAt(f, b, n).ops[j], InstAt(f, b, n).ops[j + 1];
    assert InstAt(g, b, n).ops[k] == InstAt(g, b, n).ops[k..k + 2][0] == op;
    assert InstAt(g, b, n).ops[k + 1] == InstAt(g, b, n).ops[k..k + 2][1] == tag;
    if tag.OpBlock? && DefinedAway(f, op, tag.blk) {
      DefAfter(f, s, g, f.insts[f.vals[op.val].def.value].block, tag.blk);
    }
  }

  // ---------------------------------------------------------------- the pairs that stay

  predicate PairStays(f: Function, s: Facts, tag: Operand, t: nat, k: nat) {
    !(tag.OpBlock? && tag.blk < k && DeadEdge(f, s, tag.blk, t))
  }

  /** Every remaining pair comes from a pair that stays. */
  lemma {:induction false} PairFrom(f: Function, s: Facts, ops: seq<Operand>, t: nat, k: nat, m: nat) returns (j: nat)
    requires |ops| % 2 == 0 && m % 2 == 0 && m + 1 < |DropDead(f, s, ops, t, k)|
    ensures j % 2 == 0 && j + 1 < |ops| && ops[j..j + 2] == DropDead(f, s, ops, t, k)[m..m + 2]
            && PairStays(f, s, ops[j + 1], t, k)
  {
    hide DeadEdge;
    var rest := DropDead(f, s, ops[2..], t, k);
    if !PairStays(f, s, ops[1], t, k) {
      var i := PairFrom(f, s, ops[2..], t, k, m);
      j := i + 2;
      assert ops[2..][i..i + 2] == ops[j..j + 2] && ops[2..][i + 1] == ops[j + 1];
    } else if m == 0 {
      j := 0;
      assert (ops[..2] + rest)[0..2] == ops[0..2];
    } else {
      var i := PairFrom(f, s, ops[2..], t, k, m - 2);
      j := i + 2;
      assert ops[2..][i..i + 2] == ops[j..j + 2] && ops[2..][i + 1] == ops[j + 1];
      assert (ops[..2] + rest)[m..m + 2] == rest[m - 2..m];
    }
  }

  /** Every pair that stays is among the remaining ones. */
  lemma {:induction false} PairTo(f: Function, s: Facts, ops: seq<Operand>, t: nat, k: nat, j: nat) returns (m: nat)
    requires |ops| % 2 == 0 && j % 2 == 0 && j + 1 < |ops| && PairStays(f, s, ops[j + 1], t, k)
    ensures m % 2 == 0 && m + 1 < |DropDead(f, s, ops, t, k)| && DropDead(f, s, ops, t, k)[m..m + 2] == ops[j..j + 2]
  {
    hide DeadEdge;
    var rest := DropDead(f, s, ops[2..], t, k);
    if j == 0 {
      m := 0;
      assert (ops[..2] + rest)[0..2] == ops[0..2];
    } else {
      assert ops[2..][j - 1] == ops[j + 1];
      var i := PairTo(f, s, ops[2..], t, k, j - 2);
      assert ops[2..][j - 2..j] == ops[j..j + 2];
      if PairStays(f, s, ops[1], t, k) {
        m := i + 2;
        assert (ops[..2] + rest)[m..m + 2] == rest[i..i + 2];
      } else {
        m := i;
      }
    }
  }

  lemma {:induction false} DropDeadEven(f: Function, s: Facts, ops: seq<Operand>, t: nat, k: nat)
    requires |ops| % 2 == 0
    ensures |DropDead(f, s, ops, t, k)| % 2 == 0
  {
    hide DeadEdge;
    if |ops| >= 2 { DropDeadEven(f, s, ops[2..], t, k); }
  }

  lemma StaysIsFar(f: Function, s: Facts, tag: Operand, t: nat)
    ensures PairStays(f, s, tag, t, |f.blocks|) <==> !(tag.OpBlock? && DeadEdge(f, s, tag.blk, t))
  {
    if tag.OpBlock? && FoldsBranch(f, s, tag.blk) { FoldIs(f, s, tag.blk); }
  }

  /**
   * A PHI that stays in the run of PHIs is accepted after the pass exactly when its far inputs' predecessors remain.
   */
  lemma PhiAfterIff(f: Function, s: Facts, b: nat, n: nat)
    requires IsFixpoint(f, s) && ListsSimple(f) && PhiLabels(f) && HasInst(f, b, n) && InstAccepted(f, b, n)
    requires InRun(f, s, f.blocks[b].code[n]) && HasInst(Rewritten(f, s), b, n)
    ensures OperandsAccepted(Rewritten(f, s), b, n, |InstAt(Rewritten(f, s), b, n).ops|) <==>
              forall k: nat, p: nat :: FarInput(f, s, b, n, k, p) ==> Remains(f, s, p)
    ensures InstAt(Rewritten(f, s), b, n).opcode == PHI && |InstAt(Rewritten(f, s), b, n).ops| % 2 == 0
  {
    hide IsFixpoint, Rewritten, AfterInst, Strictly, Remains, ListsSimple, InRun, PhiLabels, OperandAccepted, DeadEdge,
      PairStays, DefinedAway, ConstCell;
    var g, i := Rewritten(f, s), f.blocks[b].code[n];
    var ops := InstAt(f, b, n).ops;
    InstAfterIs(f, s, b, n);
    FixpointBlock(f, s, b, n);
    RunIsPhi(f, s, i);
    AfterPhi(f, s, i);
    var ops' := InstAt(g, b, n).ops;
    assert ops' == DropDead(f, s, ops, b, |f.blocks|);
    DropDeadEven(f, s, ops, b, |f.blocks|);
    if OperandsAccepted(g, b, n, |ops'|) {
      forall k: nat, p: nat | FarInput(f, s, b, n, k, p) ensures Remains(f, s, p) { FarToOperand(f, s, b, n, k, p); }
    }
    if forall k: nat, p: nat :: FarInput(f, s, b, n, k, p) ==> Remains(f, s, p) {
      forall m: nat | m < |ops'| ensures OperandAccepted(g, b, n, m) { OperandFromFar(f, s, b, n, m); }
    }
  }

  lemma AfterPhi(f: Function, s: Facts, i: nat)
    requires i < |f.insts| && InRun(f, s, i)
    ensures AfterInst(f, s, |f.blocks|, i) ==
            f.insts[i].(ops := DropDead(f, s, f.insts[i].ops, f.insts[i].block, |f.blocks|))
  {
    RunIsPhi(f, s, i);
    NotLast(f, s, i);
    hide ConstCell, InRun, DropDead, FoldsBranch;
  }

  lemma FarToOperand(f: Function, s: Facts, b: nat, n: nat, k: nat, p: nat)
    requires IsFixpoint(f, s) && ListsSimple(f) && HasInst(f, b, n) && InstAccepted(f, b, n)
             && FarInput(f, s, b, n, k, p)
    requires HasInst(Rewritten(f, s), b, n)
    requires InstAt(Rewritten(f, s), b, n) ==
             InstAt(f, b, n).(ops := DropDead(f, s, InstAt(f, b, n).ops, b, |f.blocks|))
    requires OperandsAccepted(Rewritten(f, s), b, n, |InstAt(Rewritten(f, s), b, n).ops|)
    ensures Remains(f, s, p)
  {
    hide IsFixpoint, Rewritten, Remains, ListsSimple, OperandAccepted, DefinedAway, ConstCell, DropDead, DeadEdge,
      PairStays;
    var ops := InstAt(f, b, n).ops;
    StaysIsFar(f, s, ops[k + 1], b);
    var m := PairTo(f, s, ops, b, |f.blocks|, k);
    assert OperandAccepted(f, b, n, k);
    PhiOperandAfter(f, s, b, n, k, m);
    assert OperandAccepted(Rewritten(f, s), b, n, m);
  }

  lemma OperandFromFar(f: Function, s: Facts, b: nat, n: nat, m: nat)
    requires IsFixpoint(f, s) && ListsSimple(f) && PhiLabels(f) && HasInst(f, b, n) && InstAccepted(f, b, n)
    requires HasInst(Rewritten(f, s), b, n) && InstAt(f, b, n).opcode == PHI && !ConstCell(f, s, f.blocks[b].code[n])
    requires InstAt(Rewritten(f, s), b, n) ==
             InstAt(f, b, n).(ops := DropDead(f, s, InstAt(f, b, n).ops, b, |f.blocks|))
    requires m < |InstAt(Rewritten(f, s), b, n).ops|
    requires forall k: nat, p: nat :: FarInput(f, s, b, n, k, p) ==> Remains(f, s, p)
    ensures OperandAccepted(Rewritten(f, s), b, n, m)
  {
    var g := Rewritten(f, s);
    hide IsFixpoint, Rewritten, Remains, ListsSimple, DefinedAway, ConstCell, DropDead, DeadEdge, PairStays;
    var ops, ops' := InstAt(f, b, n).ops, InstAt(g, b, n).ops;
    DropDeadEven(f, s, ops, b, |f.blocks|);
    var e := m - m % 2;
    var j := PairFrom(f, s, ops, b, |f.blocks|, e);
    assert ops'[e] == ops'[e..e + 2][0] == ops[j] && ops'[e + 1] == ops'[e..e + 2][1] == ops[j + 1];
    if m == e {
      hide OperandAccepted;
      StaysIsFar(f, s, ops[j + 1], b);
      assert OperandAccepted(f, b, n, j);
      if ops[j + 1].OpBlock? && DefinedAway(f, ops[j], ops[j + 1].blk) {
        assert FarInput(f, s, b, n, j, ops[j + 1].blk);
      }
      PhiOperandAfter(f, s, b, n, j, m);
    } else {
      assert !ops[j + 1].OpValue?;
    }
  }

  // ---------------------------------------------------------------- instructions, blocks, functions

  /** A PHI with a constant cell before one without: the validator refuses the result. */
  lemma ConstantBeforePhiIsRefused(f: Function, s: Facts, b: nat, m: nat, n: nat)
    requires IsFixpoint(f, s) && m < n && IsPhiAt(f, b, m) && IsPhiAt(f, b, n)
    requires ConstCell(f, s, f.blocks[b].code[m]) && !ConstCell(f, s, f.blocks[b].code[n])
    ensures !Accepts(Rewritten(f, s))
  {
    hide Rewritten, ConstCell, OperandsAccepted, IsFixpoint, AfterInst;
    var g := Rewritten(f, s);
    InstAfterIs(f, s, b, m);
    InstAfterIs(f, s, b, n);
    OpcodeAfterInst(f, s, |f.blocks|, f.blocks[b].code[m]);
    OpcodeAfterInst(f, s, |f.blocks|, f.blocks[b].code[n]);
    assert !IsPhiAt(g, b, m);
    assert !InstAccepted(g, b, n);
    assert !BlockAccepted(g, b);
  }

  lemma {:induction false} LeadingAtLeast(g: Function, code: seq<nat>, n: nat)
    requires n < |code| && forall m :: 0 <= m <= n ==> code[m] < |g.insts| && g.insts[code[m]].opcode == PHI
    ensures LeadingPhis(g, code) > n
  {
    if n > 0 { LeadingAtLeast(g, code[1..], n - 1); }
  }

  /** A PHI that stays is still in the run at the start of its block. */
  lemma StayingPhiInRun(f: Function, s: Facts, b: nat, n: nat)
    requires IsFixpoint(f, s) && ConstantsAfterPhis(f, s) && IsPhiAt(f, b, n) && !ConstCell(f, s, f.blocks[b].code[n])
    requires forall m: nat :: m < n ==> IsPhiAt(f, b, m)
    ensures InRun(f, s, f.blocks[b].code[n])
  {
    hide IsFixpoint, ConstCell, LeadingPhis;
    FixpointBlock(f, s, b, n);
    var g, code := Consts(f, s), f.blocks[b].code;
    forall m | 0 <= m <= n ensures code[m] < |g.insts| && g.insts[code[m]].opcode == PHI {
      assert IsPhiAt(f, b, m);
      assert !ConstCell(f, s, code[m]);
    }
    LeadingAtLeast(g, code, n);
    assert code[..LeadingPhis(g, code)][n] == code[n];
  }

  /** What the instruction at position n of block b needs to be accepted after the pass. */
  ghost predicate NeedsMet(f: Function, s: Facts, b: nat, n: nat)
    requires HasInst(f, b, n)
  {
    && (InstAt(f, b, n).opcode != PHI && Stays(f, s, f.blocks[b].code[n]) && !Remains(f, s, b) ==> ReadsHome(f, b, n))
    && (forall k: nat, p: nat :: FarInput(f, s, b, n, k, p) ==> Remains(f, s, p))
  }

  lemma InstAfterIff(f: Function, s: Facts, b: nat, n: nat)
    requires IsFixpoint(f, s) && ListsSimple(f) && PhiLabels(f) && ConstantsAfterPhis(f, s)
    requires HasInst(f, b, n) && BlockAccepted(f, b)
    ensures HasInst(Rewritten(f, s), b, n) && (InstAccepted(Rewritten(f, s), b, n) <==> NeedsMet(f, s, b, n))
  {
    hide IsFixpoint, Rewritten, Remains, ListsSimple, PhiLabels, ConstantsAfterPhis, ConstCell, InRun,
      OperandsAccepted, AfterInst, FoldsBranch;
    InstAfterIs(f, s, b, n);
    FixpointBlock(f, s, b, n);
    assert InstAccepted(f, b, n);
    var i := f.blocks[b].code[n];
    if InstAt(f, b, n).opcode == PHI && !ConstCell(f, s, i) {
      StayingPhiInRun(f, s, b, n);
      PhiAfterIff(f, s, b, n);
      forall m: nat | m < n ensures IsPhiAt(Rewritten(f, s), b, m) { PhiBeforeStays(f, s, b, m, n); }
    } else if Stays(f, s, i) {
      PlainStays(f, s, b, n);
      PlainAfterIff(f, s, b, n);
    } else {
      ReplacedAccepted(f, s, b, n);
    }
  }

  lemma PhiBeforeStays(f: Function, s: Facts, b: nat, m: nat, n: nat)
    requires IsFixpoint(f, s) && ConstantsAfterPhis(f, s) && m < n && IsPhiAt(f, b, m) && IsPhiAt(f, b, n)
             && !ConstCell(f, s, f.blocks[b].code[n])
    ensures IsPhiAt(Rewritten(f, s), b, m)
  {
    hide IsFixpoint, Rewritten, ConstCell, AfterInst;
    InstAfterIs(f, s, b, m);
    OpcodeAfterInst(f, s, |f.blocks|, f.blocks[b].code[m]);
  }

  lemma PlainStays(f: Function, s: Facts, b: nat, n: nat)
    requires IsFixpoint(f, s) && HasInst(f, b, n) && Stays(f, s, f.blocks[b].code[n]) && InstAt(f, b, n).opcode != PHI
    ensures HasInst(Rewritten(f, s), b, n) && InstAt(Rewritten(f, s), b, n) == InstAt(f, b, n)
  {
    hide IsFixpoint, Rewritten, ConstCell, InRun, FoldsBranch;
    InstAfterIs(f, s, b, n);
    if InRun(f, s, f.blocks[b].code[n]) { RunIsPhi(f, s, f.blocks[b].code[n]); }
  }

  lemma PlainAfterIff(f: Function, s: Facts, b: nat, n: nat)
    requires IsFixpoint(f, s) && ListsSimple(f) && HasInst(f, b, n) && InstAccepted(f, b, n)
             && InstAt(f, b, n).opcode != PHI
    requires HasInst(Rewritten(f, s), b, n) && InstAt(Rewritten(f, s), b, n) == InstAt(f, b, n)
    ensures OperandsAccepted(Rewritten(f, s), b, n, |InstAt(f, b, n).ops|)
            <==> (!Remains(f, s, b) ==> ReadsHome(f, b, n))
  {
    hide IsFixpoint, Rewritten, Remains, ListsSimple, OperandAccepted, DefinedAway;
    var ops := InstAt(f, b, n).ops;
    forall k: nat | k < |ops|
      ensures OperandAccepted(Rewritten(f, s), b, n, k) <==> (DefinedAway(f, ops[k], b) ==> Remains(f, s, b))
    {
      assert OperandAccepted(f, b, n, k);
      PlainOperandAfter(f, s, b, n, k);
    }
  }

  /** Constants and decided branches read no values. */
  lemma ReplacedAccepted(f: Function, s: Facts, b: nat, n: nat)
    requires IsFixpoint(f, s) && HasInst(f, b, n) && !Stays(f, s, f.blocks[b].code[n])
    ensures HasInst(Rewritten(f, s), b, n) && InstAccepted(Rewritten(f, s), b, n)
    ensures forall k: nat, p: nat :: !FarInput(f, s, b, n, k, p)
  {
    hide IsFixpoint, Rewritten, Strictly, InRun, DefinedAway;
    InstAfterIs(f, s, b, n);
    FixpointBlock(f, s, b, n);
    var g, i := Rewritten(f, s), f.blocks[b].code[n];
    ReplacedOps(f, s, i);
    hide AfterInst, FoldsBranch, ConstCell;
    forall k: nat | k < |InstAt(g, b, n).ops| ensures OperandAccepted(g, b, n, k) { }
  }

  lemma ReplacedOps(f: Function, s: Facts, i: nat)
    requires i < |f.insts| && CodeOk(f) && (FoldsBranch(f, s, f.insts[i].block) ==> f.insts[i].block < |f.blocks|)
             && !Stays(f, s, i)
    ensures var inst := AfterInst(f, s, |f.blocks|, i);
            && inst.opcode != PHI && inst.opcode != NONE && |inst.ops| == 1 && !inst.ops[0].OpValue?
            && (f.insts[i].opcode == PHI ==> ConstCell(f, s, i))
  {
    hide InRun, CodeOk;
  }

  lemma FirstIsMember(b: seq<nat>)
    ensures |b| == 0 || b[0] in b
  {
  }

  lemma NoMembers(a: seq<nat>, b: seq<nat>)
    requires |a| == 0 && forall x :: x in b ==> x in a
    ensures |b| == 0
  {
    FirstIsMember(b);
  }

  /** A block that is accepted and whose instructions have what they need is accepted after the pass. */
  lemma BlockAfterIff(f: Function, s: Facts, b: nat)
    requires IsFixpoint(f, s) && ListsSimple(f) && PhiLabels(f) && ConstantsAfterPhis(f, s) && b < |f.blocks|
             && BlockAccepted(f, b)
    ensures |Rewritten(f, s).blocks| == |f.blocks|
    ensures BlockAccepted(Rewritten(f, s), b) <==> forall n: nat :: HasInst(f, b, n) ==> NeedsMet(f, s, b, n)
  {
    var g := Rewritten(f, s);
    RewrittenFrame(f, s);
    hide IsFixpoint, Rewritten, ListsSimple, PhiLabels, ConstantsAfterPhis, NeedsMet, InstAccepted, AfterInst, DeadEdge;
    if |f.blocks[b].code| == 0 {
      ListsRemain(f, s, b);
      NoMembers(f.blocks[b].preds, g.blocks[b].preds);
      NoMembers(f.blocks[b].succs, g.blocks[b].succs);
    } else {
      EndStays(f, s, b);
      forall n: nat | n < |f.blocks[b].code|
        ensures HasInst(f, b, n) && (InstAccepted(g, b, n) <==> NeedsMet(f, s, b, n))
      {
        InstInRange(f, b, n);
        InstAfterIff(f, s, b, n);
      }
    }
  }

  lemma InstInRange(f: Function, b: nat, n: nat)
    requires b < |f.blocks| && BlockAccepted(f, b) && n < |f.blocks[b].code|
    ensures HasInst(f, b, n)
  {
    assert InstAccepted(f, b, n);
  }

  lemma EndStays(f: Function, s: Facts, b: nat)
    requires IsFixpoint(f, s) && HasLast(f, b)
    ensures HasLast(Rewritten(f, s), b)
            && (IsTerminator(Last(Rewritten(f, s), b).opcode) <==> IsTerminator(Last(f, b).opcode))
  {
    hide IsFixpoint, Rewritten, ConstCell, AfterInst, IsTerminator;
    FixpointCode(f, s);
    LastBlock(f, b);
    LastConst(f, s, b);
    LastAfter(f, s, b, LastId(f, b));
    InstAfterIs(f, s, b, |f.blocks[b].code| - 1);
  }

  lemma EntryStaysBare(f: Function, s: Facts)
    requires IsFixpoint(f, s) && ListsSimple(f) && f.entry < |f.blocks| && |f.blocks[f.entry].preds| == 0
    ensures var g := Rewritten(f, s); g.entry == f.entry < |g.blocks| && |g.blocks[g.entry].preds| == 0
  {
    hide IsFixpoint, Rewritten, ListsSimple, AfterInst, DeadEdge;
    RewrittenFrame(f, s);
    ListsRemain(f, s, f.entry);
    NoMembers(f.blocks[f.entry].preds, Rewritten(f, s).blocks[f.entry].preds);
  }

  lemma NeedsAre(f: Function, s: Facts)
    ensures (forall b: nat, n: nat :: HasInst(f, b, n) ==> NeedsMet(f, s, b, n))
            <==> CutOffReadsHome(f, s) && FarInputsRemain(f, s)
  {
    hide Remains, ReadsHome, Stays, ConstCell;
    if forall b: nat, n: nat :: HasInst(f, b, n) ==> NeedsMet(f, s, b, n) {
      forall b: nat, n: nat, k: nat, p: nat | FarInput(f, s, b, n, k, p) ensures Remains(f, s, p) {
        assert HasInst(f, b, n) && NeedsMet(f, s, b, n);
      }
      forall b: nat, n: nat | HasInst(f, b, n) && InstAt(f, b, n).opcode != PHI && Stays(f, s, f.blocks[b].code[n])
        && !Remains(f, s, b)
        ensures ReadsHome(f, b, n)
      {
        assert NeedsMet(f, s, b, n);
      }
    }
  }

  /**
   * The validator accepts the rewritten function exactly when constant PHIs come after staying ones in no block,
   * blocks that are cut off read nothing from elsewhere, and far PHI inputs come over predecessors that remain.
   */
  lemma AcceptedAfterIff(f: Function, s: Facts)
    requires IsFixpoint(f, s) && Accepts(f) && ListsSimple(f) && PhiLabels(f)
    ensures Accepts(Rewritten(f, s)) <==> ConstantsAfterPhis(f, s) && CutOffReadsHome(f, s) && FarInputsRemain(f, s)
  {
    var g := Rewritten(f, s);
    FixpointCode(f, s);
    EntryInRange(f);
    hide IsFixpoint, Rewritten, ListsSimple, PhiLabels, BlockAccepted, ConstCell, CutOffReadsHome, FarInputsRemain,
      NeedsMet, CodeOk;
    NeedsAre(f, s);
    EntryStaysBare(f, s);
    if !ConstantsAfterPhis(f, s) {
      var b: nat, n: nat, m: nat :| m < n && IsPhiAt(f, b, m) && IsPhiAt(f, b, n)
          && ConstCell(f, s, f.blocks[b].code[m])
                                    && !ConstCell(f, s, f.blocks[b].code[n]);
      ConstantBeforePhiIsRefused(f, s, b, m, n);
    } else {
      forall b: nat | b < |f.blocks|
        ensures |g.blocks| == |f.blocks|
                && (BlockAccepted(g, b) <==> forall n: nat :: HasInst(f, b, n) ==> NeedsMet(f, s, b, n))
      {
        BlockAfterIff(f, s, b);
      }
      AllBlocks(f, s, g);
    }
  }

  lemma AllBlocks(f: Function, s: Facts, g: Function)
    requires f.entry < |f.blocks| && g.entry == f.entry && |g.blocks| == |f.blocks| && |g.blocks[g.entry].preds| == 0
    requires forall b: nat :: b < |f.blocks| ==>
             (BlockAccepted(g, b) <==> forall n: nat :: HasInst(f, b, n) ==> NeedsMet(f, s, b, n))
    ensures Accepts(g) <==> forall b: nat, n: nat :: HasInst(f, b, n) ==> NeedsMet(f, s, b, n)
  {
    hide BlockAccepted, NeedsMet;
    if Accepts(g) {
      forall b: nat, n: nat | HasInst(f, b, n) ensures NeedsMet(f, s, b, n) { assert BlockAccepted(g, b); }
    }
  }

  // ---------------------------------------------------------------- cut off and not executable

  /** The condition of no executable BRANCH_IF is still unseen. */
  ghost predicate BranchesSeen(f: Function, s: Facts) {
    forall b: nat :: b < |s.exec| && s.exec[b] && HasLast(f, b) && IsBranchIf(Last(f, b)) ==>
      OperandLat(s.lat, Last(f, b).ops[0]) != Top
  }

  /** Then a block that remains is executable: the non-executable blocks are among those cut off. */
  lemma {:induction false} RemainsIsExecutable(f: Function, s: Facts, p: seq<nat>, b: nat)
    requires IsFixpoint(f, s) && EdgesOk(f) && BranchesSeen(f, s) && KeptPath(f, s, p, b)
    ensures b < |s.exec| && s.exec[b]
    decreases |p|
  {
    hide IsFixpoint, EdgesOk, BranchesSeen, DeadEdge;
    ShapeFacts(f, s);
    if |p| > 1 {
      var q, a := p[..|p| - 1], p[|p| - 2];
      PathPrefix(GraphOf(f), p, b, |p| - 2);
      assert KeptPath(f, s, q, a);
      RemainsIsExecutable(f, s, q, a);
      assert p[|p| - 2 + 1] == b && Edge(GraphOf(f), a, b);
      KeptEdgeMarked(f, s, a, b);
    }
  }

  lemma ShapeFacts(f: Function, s: Facts)
    requires IsFixpoint(f, s)
    ensures |s.exec| == |f.blocks| && f.entry < |f.blocks| && s.exec[f.entry]
  {
  }

  lemma KeptEdgeMarked(f: Function, s: Facts, a: nat, b: nat)
    requires IsFixpoint(f, s) && EdgesOk(f) && BranchesSeen(f, s) && a < |f.blocks| && b < |f.blocks| && a < |s.exec|
             && s.exec[a]
    requires Edge(GraphOf(f), a, b) && !DeadEdge(f, s, a, b)
    ensures b < |s.exec| && s.exec[b]
  {
    assert b in BlockTargets(f, a);
    assert TermSettled(f, s, a);
    hide CodeOk, ResultsOk, EdgesOk, BelowInitial;
    assert (a, b) in s.edges;
    assert EdgeOk(f, s, (a, b));
  }
}
