/** One sharing step of src/opt/gvn.c leaves a function the validator accepts, with the same runs. */
module GvnStep {
  import opened Opcodes
  import opened IntFold
  import opened Cfg
  import opened Ir
  import opened IrEdit
  import opened SccpLattice
  import opened Validate
  import opened ValidateSound
  import opened GvnKeys
  import opened RunEdits
  import opened RemoveAccept
  import opened GvnSound
  import opened GvnRename

  // ---------------------------------------------------------------- renaming

  /** Renaming x to y where y's definition j precedes x's definition i. */
  ghost predicate Renames(f: Function, j: nat, bj: nat, nj: nat, i: nat, b: nat, n: nat, x: nat, y: nat, g: Function) {
    && Ready(f) && Shares(f, j, bj, nj, i, b, n) && f.insts[i].result == Some(x) && f.insts[j].result == Some(y)
    && IsRenaming(f, x, y, g) && x != y && x < |f.vals| && y < |f.vals| && f.vals[x].ty == f.vals[y].ty
    && f.vals[x].def == Some(i) && f.vals[y].def == Some(j)
    && f.vals[x].kind == InstructionValue && f.vals[y].kind == InstructionValue
    && f.insts[i].block == b && f.insts[j].block == bj
  }

  lemma RenamesHolds(f: Function, j: nat, bj: nat, nj: nat, i: nat, b: nat, n: nat)
    requires Ready(f) && Shares(f, j, bj, nj, i, b, n)
    ensures Renames(f, j, bj, nj, i, b, n, f.insts[i].result.value, f.insts[j].result.value,
                    ReplaceUses(f, f.insts[i].result.value, f.insts[j].result.value))
  {
    SharedTypes(f, j, bj, nj, i, b, n);
    ReplaceIsRenaming(f, f.insts[i].result.value, f.insts[j].result.value);
    assert CodeOk(f);
    hide Accepts, Consistent, ResultsOk, IntegerFunction, IsRenaming, KeyEqual, MakeKey, Precedes, ReplaceUses,
      IsGvnCandidate;
  }

  /** What precedes something that precedes a point precedes the point. */
  lemma PrecedesTransitive(f: Function, j: nat, bj: nat, nj: nat, i: nat, b: nat, n: nat, c: nat, m: nat)
    requires CodeOk(f) && HasInst(f, b, n) && f.blocks[b].code[n] == i && HasInst(f, bj, nj)
             && f.blocks[bj].code[nj] == j
    requires Precedes(f, j, b, n) && c < |f.blocks| && m <= |f.blocks[c].code| && Precedes(f, i, c, m)
    ensures Precedes(f, j, c, m)
  {
    assert f.insts[i].block == b && f.insts[j].block == bj;
    if b == c {
      var q :| 0 <= q < m && f.blocks[c].code[q] == i;
      assert q == n;
    } else {
      if bj != b { DominanceTransitive(GraphOf(f), bj, b, c); }
      if bj == c {
        var p :| PathTo(GraphOf(f), p, c);
        DominanceAntisymmetric(GraphOf(f), c, b, p);
      }
    }
  }

  lemma StrictlyTransitive(f: Function, a: nat, b: nat, c: nat)
    requires a == b || Strictly(f, a, b)
    requires b == c || Strictly(f, b, c)
    ensures a == c || Strictly(f, a, c)
  {
    if a != b && b != c { DominanceTransitive(GraphOf(f), a, b, c); }
  }

  /** For an operand: acceptance in terms of precedence. */
  lemma DefMoves(f: Function, j: nat, bj: nat, nj: nat, i: nat, b: nat, n: nat, x: nat, y: nat, g: Function, c: nat,
                 m: nat, k: nat)
    requires Renames(f, j, bj, nj, i, b, n, x, y, g) && HasInst(f, c, m) && k < |InstAt(f, c, m).ops|
    requires DefAccepted(f, c, m, k, Some(i))
    ensures DefAccepted(f, c, m, k, Some(j))
  {
    var inst := InstAt(f, c, m);
    assert CodeOk(f) && j < |f.insts| && Precedes(f, j, b, n) && HasInst(f, b, n) && HasInst(f, bj, nj);
    assert f.blocks[b].code[n] == i && f.blocks[bj].code[nj] == j;
    if inst.opcode == PHI {
      hide Ready, Shares, IsRenaming, CodeOk;
      if k + 1 < |inst.ops| && inst.ops[k + 1].OpBlock? {
        assert bj == b || Strictly(f, bj, b);
        StrictlyTransitive(f, bj, b, inst.ops[k + 1].blk);
      }
    } else {
      hide Ready, Shares, IsRenaming, CodeOk, Reachable, Dominates;
      PrecedesTransitive(f, j, bj, nj, i, b, n, c, m);
    }
  }

  /** The same operand record is accepted where only operand values were renamed. */
  lemma DefStays(f: Function, x: nat, y: nat, g: Function, c: nat, m: nat, k: nat, d: nat)
    requires IsRenaming(f, x, y, g) && HasInst(f, c, m) && HasInst(g, c, m) && InstAt(f, c, m).opcode != NONE
    requires k < |InstAt(f, c, m).ops| && |InstAt(g, c, m).ops| == |InstAt(f, c, m).ops|
    requires DefAccepted(f, c, m, k, Some(d))
    ensures DefAccepted(g, c, m, k, Some(d))
  {
    assert GraphOf(g).succs == GraphOf(f).succs && GraphOf(g).preds == GraphOf(f).preds;
    assert GraphOf(g) == GraphOf(f);
    var inst, inst' := InstAt(f, c, m), InstAt(g, c, m);
    assert inst'.opcode == inst.opcode;
    assert k + 1 < |inst.ops| ==> (inst.ops[k + 1].OpBlock? <==> inst'.ops[k + 1].OpBlock?)
                                  && (inst.ops[k + 1].OpBlock? ==> inst'.ops[k + 1] == inst.ops[k + 1]);
    assert g.insts[d].block == f.insts[d].block;
    hide Reachable, Dominates, IsRenaming;
  }

  lemma RenameKeepsOperand(f: Function, j: nat, bj: nat, nj: nat, i: nat, b: nat, n: nat, x: nat, y: nat, g: Function,
                           c: nat, m: nat, k: nat)
    requires Renames(f, j, bj, nj, i, b, n, x, y, g) && HasInst(f, c, m) && HasInst(g, c, m)
    requires InstAt(f, c, m).opcode != NONE && k < |InstAt(f, c, m).ops|
             && |InstAt(g, c, m).ops| == |InstAt(f, c, m).ops|
    requires InstAt(g, c, m).ops[k] == RenamedOp(InstAt(f, c, m).ops[k], x, y) && OperandAccepted(f, c, m, k)
    ensures OperandAccepted(g, c, m, k)
  {
    var op := InstAt(f, c, m).ops[k];
    assert g.vals == f.vals && IsRenaming(f, x, y, g);
    if op == OpValue(x) {
      DefMoves(f, j, bj, nj, i, b, n, x, y, g, c, m, k);
      DefStays(f, x, y, g, c, m, k, j);
    } else if op.OpValue? && f.vals[op.val].kind == InstructionValue {
      DefStays(f, x, y, g, c, m, k, f.vals[op.val].def.value);
    }
    hide Renames, DefAccepted, IsRenaming;
  }

  lemma RenamedInst(f: Function, x: nat, y: nat, g: Function, c: nat, m: nat)
    requires IsRenaming(f, x, y, g) && HasInst(f, c, m) && InstAt(f, c, m).opcode != NONE
    ensures HasInst(g, c, m) && InstAt(g, c, m) == InstAt(f, c, m).(ops := Renamed(InstAt(f, c, m).ops, x, y))
    ensures g.blocks == f.blocks
  {
  }

  lemma RenameKeepsOperands(f: Function, j: nat, bj: nat, nj: nat, i: nat, b: nat, n: nat, x: nat, y: nat, g: Function,
                            c: nat, m: nat)
    requires Renames(f, j, bj, nj, i, b, n, x, y, g) && HasInst(f, c, m) && HasInst(g, c, m)
    requires InstAt(f, c, m).opcode != NONE && InstAt(g, c, m).ops == Renamed(InstAt(f, c, m).ops, x, y)
    requires OperandsAccepted(f, c, m, |InstAt(f, c, m).ops|)
    ensures OperandsAccepted(g, c, m, |InstAt(g, c, m).ops|)
  {
    hide Renames, OperandAccepted;
    forall k | 0 <= k < |InstAt(f, c, m).ops| ensures OperandAccepted(g, c, m, k) {
      RenameKeepsOperand(f, j, bj, nj, i, b, n, x, y, g, c, m, k);
    }
  }

  lemma RenameKeepsInst(f: Function, j: nat, bj: nat, nj: nat, i: nat, b: nat, n: nat, x: nat, y: nat, g: Function,
                        c: nat, m: nat)
    requires Renames(f, j, bj, nj, i, b, n, x, y, g) && c < |f.blocks| && m < |f.blocks[c].code|
             && InstAccepted(f, c, m)
    requires forall w: nat :: w < m ==> (IsPhiAt(f, c, w) ==> IsPhiAt(g, c, w))
    requires c < |g.blocks| && m < |g.blocks[c].code|
    ensures InstAccepted(g, c, m)
  {
    assert IsRenaming(f, x, y, g);
    RenamedInst(f, x, y, g, c, m);
    hide Renames, IsRenaming, OperandsAccepted, IsPhiAt;
    RenameKeepsOperands(f, j, bj, nj, i, b, n, x, y, g, c, m);
  }

  lemma RenameKeepsPhis(f: Function, x: nat, y: nat, g: Function, c: nat, w: nat)
    requires IsRenaming(f, x, y, g)
    ensures IsPhiAt(f, c, w) ==> IsPhiAt(g, c, w)
  {
  }

  lemma RenameKeepsBlock(f: Function, j: nat, bj: nat, nj: nat, i: nat, b: nat, n: nat, x: nat, y: nat, g: Function,
                         c: nat)
    requires Renames(f, j, bj, nj, i, b, n, x, y, g) && c < |f.blocks| && BlockAccepted(f, c) && c < |g.blocks|
    ensures BlockAccepted(g, c)
  {
    assert IsRenaming(f, x, y, g) && g.blocks == f.blocks && g.entry == f.entry;
    if |f.blocks[c].code| > 0 {
      RenamedLast(f, x, y, g, c);
      hide Renames, InstAccepted, IsRenaming;
      forall m: nat | m < |f.blocks[c].code| ensures InstAccepted(g, c, m) {
        forall w: nat | w < m ensures IsPhiAt(f, c, w) ==> IsPhiAt(g, c, w) { RenameKeepsPhis(f, x, y, g, c, w); }
        RenameKeepsInst(f, j, bj, nj, i, b, n, x, y, g, c, m);
      }
    }
  }

  /** A block's terminator keeps its opcode and its targets. */
  lemma RenamedLast(f: Function, x: nat, y: nat, g: Function, c: nat)
    requires IsRenaming(f, x, y, g)
    ensures HasLast(g, c) <==> HasLast(f, c)
    ensures HasLast(f, c) ==> Last(g, c).opcode == Last(f, c).opcode && Targets(Last(g, c)) == Targets(Last(f, c))
  {
  }

  lemma RenamesFrame(f: Function, j: nat, bj: nat, nj: nat, i: nat, b: nat, n: nat, x: nat, y: nat, g: Function)
    requires Renames(f, j, bj, nj, i, b, n, x, y, g)
    ensures Accepts(f) && g.blocks == f.blocks && g.entry == f.entry
  {
    hide Accepts, Shares, CodeOk, ResultsOk, Consistent, IntegerFunction, IsCandidate, Renamed;
  }

  lemma RenameKeepsAccepted(f: Function, j: nat, bj: nat, nj: nat, i: nat, b: nat, n: nat, x: nat, y: nat, g: Function)
    requires Renames(f, j, bj, nj, i, b, n, x, y, g)
    ensures Accepts(g)
  {
    hide Renames, IsRenaming, BlockAccepted;
    RenamesFrame(f, j, bj, nj, i, b, n, x, y, g);
    forall c: nat | c < |g.blocks| && |f.blocks| > 0 ensures BlockAccepted(g, c) {
      RenameKeepsBlock(f, j, bj, nj, i, b, n, x, y, g, c);
    }
  }

  lemma RenameKeepsConsistent(f: Function, x: nat, y: nat, g: Function)
    requires IsRenaming(f, x, y, g) && Consistent(f) && CodeOk(f) && ResultsOk(f)
    ensures Consistent(g) && CodeOk(g) && ResultsOk(g)
  {
    forall m: nat ensures Listed(g, m) <==> Listed(f, m) {}
    assert CodeOk(g);
    forall c: nat ensures BlockTargets(g, c) == BlockTargets(f, c) { RenamedLast(f, x, y, g, c); }
    assert GraphOf(g).succs == GraphOf(f).succs && GraphOf(g).preds == GraphOf(f).preds;
    assert GraphOf(g) == GraphOf(f);
    hide CodeOk, WellFormed, BlockTargets, Listed, Renamed;
  }

  lemma RenameKeepsTyped(f: Function, x: nat, y: nat, g: Function, inst: Instruction)
    requires g.vals == f.vals && x < |f.vals| && y < |f.vals| && f.vals[x].ty == f.vals[y].ty && WellTyped(f, inst)
    ensures WellTyped(g, inst.(ops := Renamed(inst.ops, x, y)))
  {
    RenamedTypes(f, g, inst, x, y);
    hide Fits, BitWidth, IsIntCmp, IsIntBinary, IsIntUnary;
    assert ValueWidth(f, x) == ValueWidth(f, y);
    forall k, w: nat | 0 <= k < |inst.ops| && w > 0 && OperandFits(f, inst.ops[k], w)
      ensures OperandFits(g, RenamedOp(inst.ops[k], x, y), w)
    {
    }
  }

  lemma RenameKeepsIntegers(f: Function, x: nat, y: nat, g: Function)
    requires IsRenaming(f, x, y, g) && x < |f.vals| && y < |f.vals| && f.vals[x].ty == f.vals[y].ty
    requires IntegerFunction(f)
    requires forall i: nat :: i < |f.insts| && IsCandidate(f, f.insts[i]) ==> KeyIsWhole(f, f.insts[i])
    ensures IntegerFunction(g)
    ensures forall i: nat :: i < |g.insts| && IsCandidate(g, g.insts[i]) ==> KeyIsWhole(g, g.insts[i])
  {
    hide WellTyped, IsGvnCandidate, IsFloat;
    forall m: nat | m < |g.insts|
      ensures WellTyped(g, g.insts[m]) && forall k :: 0 <= k < |g.insts[m].ops| ==> !g.insts[m].ops[k].OpFloat?
    {
      assert WellTyped(f, f.insts[m]);
      if f.insts[m].opcode == NONE { SameTyped(f, g, f.insts[m]); } else { RenameKeepsTyped(f, x, y, g, f.insts[m]); }
    }
    forall m: nat | m < |g.insts| && IsCandidate(g, g.insts[m]) ensures KeyIsWhole(g, g.insts[m]) {
      assert IsCandidate(f, f.insts[m]);
    }
  }

  /** Typing depends on the value table only. */
  lemma SameTyped(f: Function, g: Function, inst: Instruction)
    requires |g.vals| == |f.vals| && forall v :: 0 <= v < |f.vals| ==> g.vals[v].ty == f.vals[v].ty
    ensures WellTyped(g, inst) <==> WellTyped(f, inst)
  {
    forall v: nat ensures ValueWidth(g, v) == ValueWidth(f, v) {}
    forall op: Operand, w: nat | w > 0 ensures OperandFits(g, op, w) <==> OperandFits(f, op, w) {}
    assert ResultWidth(g, inst) == ResultWidth(f, inst) && CmpWidth(g, inst) == CmpWidth(f, inst);
    hide ResultWidth, CmpWidth, OperandFits, IsIntCmp, IsIntBinary, IsIntUnary;
  }

  lemma RenameKeepsReady(f: Function, j: nat, bj: nat, nj: nat, i: nat, b: nat, n: nat, x: nat, y: nat, g: Function)
    requires Renames(f, j, bj, nj, i, b, n, x, y, g)
    ensures Ready(g)
  {
    RenameKeepsAccepted(f, j, bj, nj, i, b, n, x, y, g);
    hide Accepts, Consistent, CodeOk, ResultsOk, IntegerFunction, IsRenaming, Shares, KeyIsWhole, IsCandidate;
    RenameKeepsConsistent(f, x, y, g);
    RenameKeepsIntegers(f, x, y, g);
  }

  // ---------------------------------------------------------------- removing

  lemma RemoveKeepsReady(f: Function, i: nat, b: nat, n: nat)
    requires Ready(f) && Removable(f, i, b, n)
    ensures Ready(RemoveInst(f, i)) && Removed(f, i, b, n, RemoveInst(f, i))
  {
    hide Accepts, Consistent, CodeOk, ResultsOk, RemoveInst, Removable, WellTyped, IsGvnCandidate, IsFloat, KeyIsWhole;
    RemoveKeepsAccepted(f, i, b, n);
    RemoveKeepsIntegers(f, i, b, n, RemoveInst(f, i));
  }

  lemma RemoveKeepsIntegers(f: Function, i: nat, b: nat, n: nat, g: Function)
    requires Removed(f, i, b, n, g) && IntegerFunction(f)
    requires forall m: nat :: m < |f.insts| && IsCandidate(f, f.insts[m]) ==> KeyIsWhole(f, f.insts[m])
    ensures IntegerFunction(g)
    ensures forall m: nat :: m < |g.insts| && IsCandidate(g, g.insts[m]) ==> KeyIsWhole(g, g.insts[m])
  {
    hide WellTyped, IsGvnCandidate, IsFloat;
    forall m: nat | m < |g.insts|
      ensures WellTyped(g, g.insts[m]) && forall k :: 0 <= k < |g.insts[m].ops| ==> !g.insts[m].ops[k].OpFloat?
    {
      assert WellTyped(f, f.insts[m]);
      if m == i { EmptyTyped(g, g.insts[m]); } else { SameTyped(f, g, f.insts[m]); }
    }
    forall m: nat | m < |g.insts| && IsCandidate(g, g.insts[m]) ensures KeyIsWhole(g, g.insts[m]) {
      if m == i { NoneIsNoCandidate(); }
      assert IsCandidate(f, f.insts[m]);
    }
  }

  lemma EmptyTyped(g: Function, inst: Instruction)
    requires inst.opcode == NONE
    ensures WellTyped(g, inst)
  {
  }

  lemma NoneIsNoCandidate()
    ensures !IsGvnCandidate(NONE)
  {
  }

  /** After the renaming nobody reads x. */
  lemma RenamedUnread(f: Function, x: nat, y: nat, g: Function, i: nat)
    requires IsRenaming(f, x, y, g) && Accepts(f) && x != y
    ensures Unread(g, i, x)
  {
    forall m: nat | Listed(g, m) && m != i ensures OpValue(x) !in g.insts[m].ops {
      assert Listed(f, m);
      ListedLives(f, m);
    }
  }

  lemma RenamedRemovable(f: Function, j: nat, bj: nat, nj: nat, i: nat, b: nat, n: nat, x: nat, y: nat, g: Function)
    requires Renames(f, j, bj, nj, i, b, n, x, y, g) && Ready(g)
    ensures Removable(g, i, b, n)
  {
    assert CandidateAt(f, i, b, n) && IsRenaming(f, x, y, g) && Accepts(f) && CodeOk(g);
    CandidateIsPlain(f.insts[i]);
    assert g.insts[i] == f.insts[i].(ops := Renamed(f.insts[i].ops, x, y)) && g.blocks == f.blocks;
    assert IsObservable(g.insts[i]) == IsObservable(f.insts[i]);
    hide Ready, IsObservable, IsTerminator, IsGvnCandidate, IsRenaming, Renames, Accepts, Unread, CodeOk;
    RenamedUnread(f, x, y, g, i);
  }

  lemma ListedLives(f: Function, m: nat)
    requires Accepts(f) && Listed(f, m)
    ensures f.insts[m].opcode != NONE
  {
    var c := f.insts[m].block;
    var k :| 0 <= k < |f.blocks[c].code| && f.blocks[c].code[k] == m;
    assert BlockAccepted(f, c);
    assert InstAccepted(f, c, k);
  }

  /** The whole step: i's uses read j's result, and i is gone. */
  function ShareInst(f: Function, i: nat, x: nat, y: nat): Function {
    RemoveInst(ReplaceUses(f, x, y), i)
  }

  lemma ShareReady(f: Function, j: nat, bj: nat, nj: nat, i: nat, b: nat, n: nat)
    requires Ready(f) && Shares(f, j, bj, nj, i, b, n)
    ensures var g := ReplaceUses(f, f.insts[i].result.value, f.insts[j].result.value);
            Ready(g) && Removable(g, i, b, n) && Ready(RemoveInst(g, i)) && Removed(g, i, b, n, RemoveInst(g, i))
  {
    var x, y := f.insts[i].result.value, f.insts[j].result.value;
    var g := ReplaceUses(f, x, y);
    RenamesHolds(f, j, bj, nj, i, b, n);
    hide Ready, Shares, Removable, ReplaceUses, RemoveInst, Renames, Removed;
    RenameKeepsReady(f, j, bj, nj, i, b, n, x, y, g);
    RenamedRemovable(f, j, bj, nj, i, b, n, x, y, g);
    RemoveKeepsReady(g, i, b, n);
  }

  /** Sharing keeps the function accepted and how each of its runs ends. */
  lemma ShareKeeps(f: Function, o: Oracle, args: Env, j: nat, bj: nat, nj: nat, i: nat, b: nat, n: nat)
    requires Ready(f) && GoodArgs(f, args) && Shares(f, j, bj, nj, i, b, n)
    ensures var g := ShareInst(f, i, f.insts[i].result.value, f.insts[j].result.value);
            Ready(g) && GoodArgs(g, args) && KeepsEnds(f, g, o, args)
  {
    var x, y := f.insts[i].result.value, f.insts[j].result.value;
    var g := ReplaceUses(f, x, y);
    hide Ready, Removable, ReplaceUses, RemoveInst, KeepsEnds, Removed, GoodArgs, KeyEqual, MakeKey, Precedes,
      IsGvnCandidate;
    ShareReady(f, j, bj, nj, i, b, n);
    RenameKeepsEnds(f, o, args, j, bj, nj, i, b, n);
    RemoveKeepsEnds(g, i, b, n, o, args);
    KeepsEndsTrans(f, g, RemoveInst(g, i), o, args);
    ReplaceValues(f, x, y);
    RemovedKinds(g, i, b, n, RemoveInst(g, i));
    SameArgs(f, RemoveInst(g, i), args);
  }

  lemma RemovedKinds(f: Function, i: nat, b: nat, n: nat, g: Function)
    requires Removed(f, i, b, n, g)
    ensures |g.vals| == |f.vals|
    ensures forall v :: 0 <= v < |f.vals| ==> g.vals[v].kind == f.vals[v].kind && g.vals[v].ty == f.vals[v].ty
  {
  }

  lemma ReplaceValues(f: Function, x: nat, y: nat)
    ensures ReplaceUses(f, x, y).vals == f.vals
  {
  }

  /** Arguments suit any function whose values have the same kinds and types. */
  lemma SameArgs(f: Function, g: Function, args: Env)
    requires GoodArgs(f, args) && |g.vals| == |f.vals|
    requires forall v :: 0 <= v < |f.vals| ==> g.vals[v].kind == f.vals[v].kind && g.vals[v].ty == f.vals[v].ty
    ensures GoodArgs(g, args)
  {
    forall v: nat ensures ValueWidth(g, v) == ValueWidth(f, v) {}
    hide ValueWidth, Fits;
  }
}
