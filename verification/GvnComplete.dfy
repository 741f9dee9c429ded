/**
 * What value numbering (src/opt/gvn.c) leaves behind: where block ids follow dominance, no expression stands below an
 * equal one any more.
 */
module GvnComplete {
  import opened Opcodes
  import opened IntFold
  import opened FoldSamples
  import opened Cfg
  import opened Ir
  import opened IrEdit
  import opened SccpLattice
  import opened Validate
  import opened ValidateSound
  import opened GvnKeys
  import opened RunEdits
  import opened RemoveAccept
  import opened GvnSound
  import opened GvnStep
  import opened Gvn

  // ---------------------------------------------------------------- which expressions are the same

  /** One operation of one type on the same operands, or on a commutative pair of them turned around. */
  predicate SameExpression(f: Function, a: Instruction, b: Instruction) {
    && a.opcode == b.opcode && ResultType(f, a) == ResultType(f, b) && |a.ops| == |b.ops|
    && (forall k :: 0 <= k < |a.ops| ==> !a.ops[k].OpGlobal?)
    && (b.ops == a.ops || (IsCommutative(a.opcode) && |a.ops| == 2 && b.ops == [a.ops[1], a.ops[0]]
                           && (a.ops[0].OpValue? || a.ops[1].OpValue?)))
  }

  /** Keys are equal exactly for the same expression; two immediates are not turned around. */
  lemma KeyEqualIff(f: Function, a: Instruction, b: Instruction)
    requires |a.ops| <= 3
    ensures KeyEqual(MakeKey(f, a), MakeKey(f, b)) <==> SameExpression(f, a, b)
  {
    hide IsCommutative, ResultType;
    if KeyEqual(MakeKey(f, a), MakeKey(f, b)) { EqualKeysOperands(f, a, b); }
  }

  /** 1 and 3 rotated by each other. */
  lemma SmallRotations(a: nat, b: nat, w: nat)
    requires a == 1 && b == 3 && w == 8
    ensures RotL(a, b, w) == 8 && RotL(b, a, w) == 6
    ensures RotR(a, b, w) == 32 && RotR(b, a, w) == 129
  {
    hide RotL, RotR, Unsigned, Sext, Shl, Shr, Pow2;
    SmallShift(a, b);
    SmallShift(a, w - b);
    SmallShift(b, a);
    SmallShift(b, w - a);
    SmallRotL(a, b, w, 8, 0);
    SmallRotL(b, a, w, 6, 0);
    SmallRotR(a, b, w, 32, 0);
    SmallRotR(b, a, w, 384, 1);
    SmallNumber(8, w);
    SmallNumber(6, w);
    SmallNumber(32, w);
    SmallRest(384, w, 1);
  }

  lemma OthersDoNotCommute(op: Opcode, a: int, b: int, w: nat)
    requires (IsIntBinary(op) || IsIntCmp(op)) && !IsCommutative(op) && a == 1 && b == 3 && w == 8
    ensures IsIntBinary(op) ==> EvalBinary(op, a, b, w) != EvalBinary(op, b, a, w)
    ensures IsIntCmp(op) ==> EvalCmp(op, a, b, w) != EvalCmp(op, b, a, w)
  {
    hide Sext, Unsigned, Shl, Shr, RotL, RotR, TruncDiv, TruncRem, Bitwise, Pow2;
    SmallNumber(a, w);
    SmallNumber(b, w);
    SmallShift(a, 3);
    SmallShift(b, 1);
    SmallRotations(a, b, w);
    SmallQuotients(a, b);
    SmallNumber(-2, w);
    SmallNumber(0, w);
    SmallNumber(2, w);
    SmallNumber(6, w);
    SmallNumber(8, w);
    SmallNumber(32, w);
    SmallNumber(129, w);
  }

  lemma SmallQuotients(a: int, b: int)
    requires a == 1 && b == 3
    ensures TruncDiv(a, b) == 0 && TruncDiv(b, a) == 3 && TruncRem(a, b) == 1 && TruncRem(b, a) == 0
  {
  }

  /** Among the integer operations the commutative ones are those whose operands may be turned around. */
  lemma CommutesIff(op: Opcode)
    requires IsIntBinary(op) || IsIntCmp(op)
    ensures IsCommutative(op) <==> forall a, b, w: nat :: w > 0 ==>
              && (IsIntBinary(op) ==> EvalBinary(op, a, b, w) == EvalBinary(op, b, a, w))
              && (IsIntCmp(op) ==> EvalCmp(op, a, b, w) == EvalCmp(op, b, a, w))
  {
    hide EvalBinary, EvalCmp;
    if IsCommutative(op) {
      forall a, b, w: nat | w > 0
        ensures IsIntBinary(op) ==> EvalBinary(op, a, b, w) == EvalBinary(op, b, a, w)
        ensures IsIntCmp(op) ==> EvalCmp(op, a, b, w) == EvalCmp(op, b, a, w)
      {
        EvalCommutes(op, a, b, w);
      }
    } else {
      OthersDoNotCommute(op, 1, 3, 8);
    }
  }

  /** Every operation whose result its operands determine is shared, CONST and PHI apart. */
  lemma CandidateKinds(op: Opcode)
    ensures IsIntUnary(op) || IsIntBinary(op) || IsIntCmp(op) || op == SELECT ==> IsGvnCandidate(op)
  {
  }

  // ---------------------------------------------------------------- what is left

  /** A reachable block's strict dominators have smaller ids. */
  ghost predicate IdsFollowDominance(f: Function) {
    forall a: nat, b: nat :: Strictly(f, a, b) && a != b ==> a < b
  }

  /** Position q of block c stands earlier in its block than position m of block b, or in a block above it. */
  ghost predicate Above(f: Function, c: nat, q: nat, b: nat, m: nat) {
    if c == b then q < m else Strictly(f, c, b)
  }

  /** The walk passes position q of block c before position n of block b. */
  predicate Before(c: nat, q: nat, b: nat, n: nat) {
    c < b || (c == b && q < n)
  }

  /** Instructions d above i that compute the same expression, both candidates. */
  ghost predicate Repeats(f: Function, d: nat, c: nat, q: nat, i: nat, b: nat, m: nat) {
    && CandidateAt(f, d, c, q) && CandidateAt(f, i, b, m) && Above(f, c, q, b, m)
    && SameExpression(f, f.insts[d], f.insts[i])
  }

  ghost predicate NothingLeft(f: Function) {
    forall d: nat, c: nat, q: nat, i: nat, b: nat, m: nat :: !Repeats(f, d, c, q, i, b, m)
  }

  // ---------------------------------------------------------------- the invariant

  /** Every candidate passed has an entry with its key of now. */
  ghost predicate TableFull(f: Function, table: seq<Entry>, b: nat, n: nat) {
    forall d: nat, c: nat, q: nat :: CandidateAt(f, d, c, q) && Before(c, q, b, n) ==>
      Entry(MakeKey(f, f.insts[d]), f.insts[d].result.value, c) in table
  }

  /** Nothing passed repeats anything. */
  ghost predicate NothingSoFar(f: Function, b: nat, n: nat) {
    forall d: nat, c: nat, q: nat, i: nat, e: nat, m: nat :: Repeats(f, d, c, q, i, e, m) ==> !Before(e, m, b, n)
  }

  ghost predicate Complete(f: Function, table: seq<Entry>, b: nat, n: nat) {
    && CodeOk(f) && Ready(f) && TableOk(f, table, b, n)
    && IdsFollowDominance(f) && TableFull(f, table, b, n) && NothingSoFar(f, b, n)
  }

  lemma {:induction false} NoMatchAfter(g: Graph, table: seq<Entry>, key: Key, b: nat, k: nat, e: Entry)
    requires k <= |table| && FindMatch(g, table, key, b, k) == |table| && e in table[k..]
    ensures !Matches(g, e, key, b)
    decreases |table| - k
  {
    hide Matches;
    if e != table[k] {
      assert table[k..] == [table[k]] + table[k + 1..];
      NoMatchAfter(g, table, key, b, k + 1, e);
    }
  }

  /** What is above a block is available in it. */
  lemma AboveAvailable(f: Function, c: nat, q: nat, b: nat, m: nat)
    requires Above(f, c, q, b, m)
    ensures Available(GraphOf(f), c, b)
  {
  }

  lemma WholeKey(f: Function, i: nat, b: nat, n: nat)
    requires Ready(f) && CandidateAt(f, i, b, n)
    ensures |f.insts[i].ops| <= 3 && f.insts[i].result.Some?
  {
    hide Accepts, Consistent, CodeOk, ResultsOk, IntegerFunction, WellTyped, IsGvnCandidate;
    assert KeyIsWhole(f, f.insts[i]);
  }

  /** A candidate that matches nothing repeats nothing. */
  lemma UnmatchedIsNew(f: Function, table: seq<Entry>, b: nat, n: nat, d: nat, c: nat, q: nat, i: nat)
    requires Complete(f, table, b, n) && CandidateAt(f, i, b, n)
    requires FindMatch(GraphOf(f), table, MakeKey(f, f.insts[i]), b, 0) == |table|
    ensures !Repeats(f, d, c, q, i, b, n)
  {
    hide Ready, CodeOk, TableOk, NothingSoFar, SameExpression, MakeKey, KeyEqual, FindMatch, Strictly, Available;
    if Repeats(f, d, c, q, i, b, n) {
      WholeKey(f, d, c, q);
      KeyEqualIff(f, f.insts[d], f.insts[i]);
      AboveAvailable(f, c, q, b, n);
      var e := Entry(MakeKey(f, f.insts[d]), f.insts[d].result.value, c);
      assert table[0..] == table;
      NoMatchAfter(GraphOf(f), table, MakeKey(f, f.insts[i]), b, 0, e);
    }
  }

  /** Passing an instruction without a match. */
  lemma PassKeeps(f: Function, table: seq<Entry>, table': seq<Entry>, b: nat, n: nat)
    requires Complete(f, table, b, n) && HasInst(f, b, n) && TableOk(f, table', b, n + 1)
    requires forall e :: e in table ==> e in table'
    requires IsCandidate(f, InstAt(f, b, n)) ==>
               && Entry(MakeKey(f, InstAt(f, b, n)), InstAt(f, b, n).result.value, b) in table'
               && FindMatch(GraphOf(f), table, MakeKey(f, InstAt(f, b, n)), b, 0) == |table|
    ensures Complete(f, table', b, n + 1)
  {
    hide Ready, CodeOk, TableOk, SameExpression, MakeKey, FindMatch, Strictly, IsCandidate;
    forall d: nat, c: nat, q: nat, i: nat, e: nat, m: nat | Repeats(f, d, c, q, i, e, m) && Before(e, m, b, n + 1)
      ensures false
    {
      assert !Before(e, m, b, n);
      UnmatchedIsNew(f, table, b, n, d, c, q, i);
    }
  }

  // ---------------------------------------------------------------- sharing leaves what was passed alone

  /** Nothing passed reads the result of what the walk has come to. */
  lemma PassedReadsEarlier(f: Function, b: nat, n: nat, x: nat, d: nat, c: nat, q: nat)
    requires Ready(f) && IdsFollowDominance(f) && HasInst(f, b, n) && CandidateAt(f, d, c, q) && Before(c, q, b, n)
    requires x < |f.vals| && f.vals[x].kind == InstructionValue && f.vals[x].def == Some(f.blocks[b].code[n])
    ensures OpValue(x) !in f.insts[d].ops
  {
    hide Accepts, Consistent, ResultsOk, IntegerFunction, Strictly, KeyIsWhole, IsGvnCandidate;
    CandidateIsPlain(f.insts[d]);
    var i := f.blocks[b].code[n];
    assert f.insts[i].block == b;
    forall k | 0 <= k < |f.insts[d].ops| ensures f.insts[d].ops[k] != OpValue(x) {
      OperandPrecedes(f, c, q, k);
    }
  }

  lemma RenamedNothing(ops: seq<Operand>, x: nat, y: nat)
    requires OpValue(x) !in ops
    ensures Renamed(ops, x, y) == ops
  {
  }

  lemma SameKey(f: Function, g: Function, inst: Instruction)
    requires |g.vals| == |f.vals| && forall v :: 0 <= v < |f.vals| ==> g.vals[v].ty == f.vals[v].ty
    ensures MakeKey(g, inst) == MakeKey(f, inst) && ResultType(g, inst) == ResultType(f, inst)
  {
  }

  /** A candidate of g in front of the walk's place is the same candidate of f. */
  lemma PassedStays(f: Function, i: nat, b: nat, n: nat, x: nat, y: nat, g: Function, d: nat, c: nat, q: nat)
    requires SharedAt(f, i, b, n, x, y, g) && IdsFollowDominance(f) && Before(c, q, b, n) && CandidateAt(g, d, c, q)
    ensures CandidateAt(f, d, c, q) && g.insts[d] == f.insts[d] && MakeKey(g, g.insts[d]) == MakeKey(f, f.insts[d])
  {
    hide Ready, IdsFollowDominance, MakeKey, IsGvnCandidate;
    assert f.blocks[c].code[q] == d && HasInst(f, c, q);
    PlacesApart(f, i, b, n, d, c, q);
    assert f.insts[d].opcode != NONE by { PassedLives(f, d, c, q); }
    assert g.insts[d] == f.insts[d].(ops := Renamed(f.insts[d].ops, x, y));
    PassedReadsEarlier(f, b, n, x, d, c, q);
    RenamedNothing(f.insts[d].ops, x, y);
    SameKey(f, g, g.insts[d]);
  }

  lemma PlacesApart(f: Function, i: nat, b: nat, n: nat, d: nat, c: nat, q: nat)
    requires Ready(f) && HasInst(f, b, n) && f.blocks[b].code[n] == i && HasInst(f, c, q) && f.blocks[c].code[q] == d
    requires Before(c, q, b, n)
    ensures d != i
  {
    assert CodeOk(f);
    hide Ready;
  }

  lemma PassedLives(f: Function, d: nat, c: nat, q: nat)
    requires Ready(f) && HasInst(f, c, q) && f.blocks[c].code[q] == d
    ensures f.insts[d].opcode != NONE
  {
    hide OperandsAccepted, Consistent, IntegerFunction, KeyIsWhole;
    assert BlockAccepted(f, c);
    assert InstAccepted(f, c, q);
  }

  lemma GraphStays(f: Function, table: seq<Entry>, b: nat, n: nat)
    requires CodeOk(f) && HasInst(f, b, n)
    ensures GraphOf(Visit(f, table, b, n).f) == GraphOf(f)
  {
    var i, inst := f.blocks[b].code[n], InstAt(f, b, n);
    if IsCandidate(f, inst) {
      var m := FindMatch(GraphOf(f), table, MakeKey(f, inst), b, 0);
      if m < |table| {
        var x, y := inst.result.value, table[m].val;
        CandidateIsPlain(inst);
        ShareKeepsCode(f, b, n, x, y);
        GraphSame(ReplaceUses(f, x, y), i, b, n, ShareInst(f, i, x, y));
        assert GraphOf(ReplaceUses(f, x, y)) == GraphOf(f) by {
          assert GraphOf(ReplaceUses(f, x, y)).succs == GraphOf(f).succs;
          assert GraphOf(ReplaceUses(f, x, y)).preds == GraphOf(f).preds;
        }
      }
    }
  }

  lemma SameStrictly(f: Function, g: Function)
    requires GraphOf(g) == GraphOf(f)
    ensures forall a: nat, b: nat :: Strictly(g, a, b) == Strictly(f, a, b)
    ensures IdsFollowDominance(g) == IdsFollowDominance(f)
    ensures forall c: nat, q: nat, b: nat, m: nat :: Above(g, c, q, b, m) == Above(f, c, q, b, m)
  {
    hide Reachable, Dominates;
  }

  /** What is above something passed has been passed. */
  lemma AboveIsBefore(f: Function, c: nat, q: nat, e: nat, m: nat, b: nat, n: nat)
    requires IdsFollowDominance(f) && Above(f, c, q, e, m) && Before(e, m, b, n)
    ensures Before(c, q, b, n)
  {
    hide Strictly;
  }

  lemma ShareReadies(f: Function, e: Entry, i: nat, b: nat, n: nat)
    requires Ready(f) && CodeOk(f) && CandidateAt(f, i, b, n) && EntryOk(f, e, b, n) && f.insts[i].result.Some?
    requires Matches(GraphOf(f), e, MakeKey(f, f.insts[i]), b)
    ensures var g := ShareInst(f, i, f.insts[i].result.value, e.val);
            Ready(g) && CodeOk(g)
  {
    var d: nat, q: nat :| EntryAt(f, e, d, q, b, n);
    assert f.insts[d].result == Some(e.val);
    hide EntryAt, Matches, MakeKey, ReplaceUses, RemoveInst, Shares, CandidateAt, Accepts, Consistent, IntegerFunction,
      KeyIsWhole, IsCandidate, CodeOk, ResultsOk, Removable, Removed;
    MatchShares(f, e, d, q, i, b, n);
    ShareReady(f, d, e.blk, q, i, b, n);
  }

  /** Passed candidates keep their entries when the next instruction is shared away. */
  lemma ShareKeepsFull(f: Function, table: seq<Entry>, i: nat, b: nat, n: nat, x: nat, y: nat, g: Function)
    requires SharedAt(f, i, b, n, x, y, g) && IdsFollowDominance(f) && TableFull(f, table, b, n)
    ensures TableFull(g, table, b, n)
  {
    hide SharedAt, IdsFollowDominance, CandidateAt, MakeKey;
    forall d: nat, c: nat, q: nat | CandidateAt(g, d, c, q) && Before(c, q, b, n)
      ensures d < |g.insts| && g.insts[d].result.Some?
      ensures Entry(MakeKey(g, g.insts[d]), g.insts[d].result.value, c) in table
    {
      CandidateResult(g, d, c, q);
      PassedStays(f, i, b, n, x, y, g, d, c, q);
    }
  }

  lemma CandidateResult(f: Function, d: nat, c: nat, q: nat)
    requires CandidateAt(f, d, c, q)
    ensures d < |f.insts| && f.insts[d].result.Some?
  {
  }

  lemma PassedRepeats(f: Function, i: nat, b: nat, n: nat, x: nat, y: nat, g: Function, d: nat, c: nat, q: nat, j: nat,
                      e: nat, m: nat)
    requires SharedAt(f, i, b, n, x, y, g) && GraphOf(g) == GraphOf(f) && IdsFollowDominance(f)
    requires Repeats(g, d, c, q, j, e, m) && Before(e, m, b, n)
    ensures Repeats(f, d, c, q, j, e, m)
  {
    SameStrictly(f, g);
    assert CandidateAt(g, d, c, q) && CandidateAt(g, j, e, m);
    AboveIsBefore(f, c, q, e, m, b, n);
    PassedStays(f, i, b, n, x, y, g, d, c, q);
    PassedStays(f, i, b, n, x, y, g, j, e, m);
    SharedTypesStay(f, i, b, n, x, y, g, f.insts[d]);
    SharedTypesStay(f, i, b, n, x, y, g, f.insts[j]);
    hide SharedAt, IdsFollowDominance, CandidateAt, MakeKey, Above, ResultType, IsCommutative;
  }

  lemma SharedTypesStay(f: Function, i: nat, b: nat, n: nat, x: nat, y: nat, g: Function, inst: Instruction)
    requires SharedAt(f, i, b, n, x, y, g)
    ensures ResultType(g, inst) == ResultType(f, inst)
  {
    hide Ready, CandidateAt;
  }

  lemma ShareKeepsSoFar(f: Function, i: nat, b: nat, n: nat, x: nat, y: nat, g: Function)
    requires SharedAt(f, i, b, n, x, y, g) && GraphOf(g) == GraphOf(f) && IdsFollowDominance(f)
    requires NothingSoFar(f, b, n)
    ensures NothingSoFar(g, b, n)
  {
    hide SharedAt, IdsFollowDominance, Repeats;
    forall d: nat, c: nat, q: nat, j: nat, e: nat, w: nat | Repeats(g, d, c, q, j, e, w)
      ensures !Before(e, w, b, n)
    {
      if Before(e, w, b, n) { PassedRepeats(f, i, b, n, x, y, g, d, c, q, j, e, w); }
    }
  }

  lemma ShareKeepsComplete(f: Function, table: seq<Entry>, i: nat, b: nat, n: nat, e: Entry)
    requires Complete(f, table, b, n) && CandidateAt(f, i, b, n) && e in table && f.insts[i].result.Some?
    requires Matches(GraphOf(f), e, MakeKey(f, f.insts[i]), b)
    requires GraphOf(ShareInst(f, i, f.insts[i].result.value, e.val)) == GraphOf(f)
    ensures Complete(ShareInst(f, i, f.insts[i].result.value, e.val), table, b, n)
  {
    hide Ready, CodeOk, EntryOk, NothingSoFar, Matches, MakeKey, ShareInst, CandidateAt, IdsFollowDominance, SharedAt,
      TableFull;
    CandidateResult(f, i, b, n);
    var x, y := f.insts[i].result.value, e.val;
    var g := ShareInst(f, i, x, y);
    assert EntryOk(f, e, b, n);
    hide TableOk;
    ShareReadies(f, e, i, b, n);
    TableAfterShare(f, table, i, b, n, x, y);
    ShareIsShared(f, i, b, n, x, y);
    SameStrictly(f, g);
    ShareKeepsFull(f, table, i, b, n, x, y, g);
    ShareKeepsSoFar(f, i, b, n, x, y, g);
  }

  // ---------------------------------------------------------------- the whole walk

  lemma VisitComplete(f: Function, table: seq<Entry>, b: nat, n: nat)
    requires Complete(f, table, b, n) && HasInst(f, b, n)
    ensures var v := Visit(f, table, b, n); Complete(v.f, v.table, b, v.n) && GraphOf(v.f) == GraphOf(f)
  {
    var i, inst := f.blocks[b].code[n], InstAt(f, b, n);
    assert CodeOk(f) && TableOk(f, table, b, n);
    GraphStays(f, table, b, n);
    if IsCandidate(f, inst) {
      var key := MakeKey(f, inst);
      var m := FindMatch(GraphOf(f), table, key, b, 0);
      assert CandidateAt(f, i, b, n);
      hide Complete, MakeKey, FindMatch, IsCandidate, ShareInst, TableOk, CodeOk, CandidateAt, Matches;
      if m < |table| {
        ShareKeepsComplete(f, table, i, b, n, table[m]);
      } else {
        var e := Entry(key, inst.result.value, b);
        TableAdds(f, table, i, b, n);
        assert (table + [e])[|table|] == e;
        PassKeeps(f, table, table + [e], b, n);
      }
    } else {
      hide Complete, IsCandidate, TableOk, CodeOk;
      TableGrows(f, table, b, n, b, n + 1);
      PassKeeps(f, table, table, b, n);
    }
  }

  lemma {:induction false} BlockComplete(f: Function, table: seq<Entry>, b: nat, n: nat)
    requires Complete(f, table, b, n) && CodeOk(f) && b < |f.blocks| && n <= |f.blocks[b].code|
    ensures var r := GvnBlock(f, table, b, n); Complete(r.f, r.table, b, r.n) && GraphOf(r.f) == GraphOf(f)
    decreases |f.blocks[b].code| - n
  {
    hide Complete, Visit, CodeOk;
    if n < |f.blocks[b].code| {
      InCode(f, b, n);
      VisitKeepsCode(f, table, b, n);
      VisitComplete(f, table, b, n);
      var v := Visit(f, table, b, n);
      BlockComplete(v.f, v.table, b, v.n);
    }
  }

  lemma NextBlock(f: Function, table: seq<Entry>, b: nat)
    requires b < |f.blocks| && Complete(f, table, b, |f.blocks[b].code|)
    ensures Complete(f, table, b + 1, 0)
  {
    TableGrows(f, table, b, |f.blocks[b].code|, b + 1, 0);
    hide Ready, CodeOk, TableOk, IdsFollowDominance, SameExpression, MakeKey, Strictly, IsCandidate, Above;
    forall d: nat, c: nat, q: nat | CandidateAt(f, d, c, q) && Before(c, q, b + 1, 0)
      ensures Before(c, q, b, |f.blocks[b].code|)
    {
    }
  }

  lemma {:induction false} BlocksComplete(f: Function, table: seq<Entry>, b: nat)
    requires Complete(f, table, b, 0) && CodeOk(f) && b <= |f.blocks|
    ensures var g := GvnBlocks(f, table, b); NothingLeft(g) && Ready(g) && CodeOk(g) && IdsFollowDominance(g)
    decreases |f.blocks| - b
  {
    hide Complete, GvnBlock, CodeOk, NothingLeft, Ready, IdsFollowDominance;
    if b < |f.blocks| {
      BlockComplete(f, table, b, 0);
      var r := GvnBlock(f, table, b, 0);
      NextBlock(r.f, r.table, b);
      BlocksComplete(r.f, r.table, b + 1);
    } else {
      AllPassed(f, table, b);
    }
  }

  lemma AllPassed(f: Function, table: seq<Entry>, b: nat)
    requires Complete(f, table, b, 0) && b == |f.blocks|
    ensures NothingLeft(f) && Ready(f) && CodeOk(f) && IdsFollowDominance(f)
  {
    hide Ready, CodeOk, TableOk, IdsFollowDominance, TableFull, SameExpression, Above, IsCandidate;
  }

  lemma StartComplete(f: Function)
    requires Ready(f) && CodeOk(f) && IdsFollowDominance(f)
    ensures Complete(f, [], 0, 0)
  {
    hide Ready, CodeOk, IdsFollowDominance, CandidateAt, MakeKey, Repeats;
  }

  /** After value numbering no expression stands below an equal one. */
  lemma NumberingIsComplete(f: Function)
    requires Ready(f) && CodeOk(f) && IdsFollowDominance(f)
    ensures var g := ValueNumbered(f); NothingLeft(g) && Ready(g) && CodeOk(g) && IdsFollowDominance(g)
  {
    hide Ready, CodeOk, IdsFollowDominance, Complete;
    StartComplete(f);
    BlocksComplete(f, [], 0);
  }

  // ---------------------------------------------------------------- when there is nothing to do

  /** No expression repeats one that the walk has passed. */
  ghost predicate NothingToShare(f: Function) {
    forall d: nat, c: nat, q: nat, i: nat, b: nat, m: nat ::
      Before(c, q, b, m) ==> !Repeats(f, d, c, q, i, b, m)
  }

  lemma MatchRepeats(f: Function, e: Entry, d: nat, q: nat, i: nat, b: nat, n: nat)
    requires Ready(f) && EntryAt(f, e, d, q, b, n) && CandidateAt(f, i, b, n)
    requires Matches(GraphOf(f), e, MakeKey(f, f.insts[i]), b)
    ensures Before(e.blk, q, b, n) && Repeats(f, d, e.blk, q, i, b, n)
  {
    LiveKey(f, i, b, n);
    if Stale(f, e.key) { EqualKeysStale(f, e.key, MakeKey(f, f.insts[i])); }
    WholeKey(f, d, e.blk, q);
    KeyEqualIff(f, f.insts[d], f.insts[i]);
    hide Ready, KeyEqual, MakeKey, Stale, Reachable, Dominates, IsCandidate, SameExpression;
  }

  lemma IdleVisit(f: Function, table: seq<Entry>, b: nat, n: nat)
    requires Ready(f) && CodeOk(f) && NothingToShare(f) && TableOk(f, table, b, n) && HasInst(f, b, n)
    ensures var v := Visit(f, table, b, n); v.f == f && v.n == n + 1 && TableOk(f, v.table, b, n + 1)
  {
    var i, inst := f.blocks[b].code[n], InstAt(f, b, n);
    if IsCandidate(f, inst) {
      var m := FindMatch(GraphOf(f), table, MakeKey(f, inst), b, 0);
      assert CandidateAt(f, i, b, n);
      if m < |table| {
        assert EntryOk(f, table[m], b, n);
        var d: nat, q: nat :| EntryAt(f, table[m], d, q, b, n);
        hide Ready, Repeats, EntryAt, Matches, MakeKey, CandidateAt;
        MatchRepeats(f, table[m], d, q, i, b, n);
        assert false;
      }
      hide Ready, TableOk, MakeKey;
      TableAdds(f, table, i, b, n);
    } else {
      TableGrows(f, table, b, n, b, n + 1);
    }
  }

  lemma {:induction false} IdleBlock(f: Function, table: seq<Entry>, b: nat, n: nat)
    requires Ready(f) && CodeOk(f) && NothingToShare(f) && TableOk(f, table, b, n)
    requires b < |f.blocks| && n <= |f.blocks[b].code|
    ensures var r := GvnBlock(f, table, b, n); r.f == f && TableOk(f, r.table, b, |f.blocks[b].code|)
    decreases |f.blocks[b].code| - n
  {
    hide Ready, NothingToShare, TableOk, Visit, CodeOk;
    if n < |f.blocks[b].code| {
      InCode(f, b, n);
      VisitKeepsCode(f, table, b, n);
      IdleVisit(f, table, b, n);
      IdleBlock(f, Visit(f, table, b, n).table, b, n + 1);
    }
  }

  lemma {:induction false} IdleBlocks(f: Function, table: seq<Entry>, b: nat)
    requires Ready(f) && CodeOk(f) && NothingToShare(f) && TableOk(f, table, b, 0) && b <= |f.blocks|
    ensures GvnBlocks(f, table, b) == f
    decreases |f.blocks| - b
  {
    hide Ready, NothingToShare, TableOk, GvnBlock, CodeOk;
    if b < |f.blocks| {
      IdleBlock(f, table, b, 0);
      var r := GvnBlock(f, table, b, 0);
      TableGrows(f, r.table, b, |f.blocks[b].code|, b + 1, 0);
      IdleBlocks(f, r.table, b + 1);
    }
  }

  /** A function is left alone when nothing repeats what the walk has passed. */
  lemma IdleKeeps(f: Function)
    requires Ready(f) && CodeOk(f) && NothingToShare(f)
    ensures ValueNumbered(f) == f
  {
    hide Ready, NothingToShare, CodeOk;
    IdleBlocks(f, [], 0);
  }

  /** Where ids follow dominance the pass changes a function exactly when an expression stands below an equal one. */
  lemma UnchangedIff(f: Function)
    requires Ready(f) && CodeOk(f) && IdsFollowDominance(f)
    ensures ValueNumbered(f) == f <==> NothingLeft(f)
  {
    hide Ready, CodeOk, IdsFollowDominance, Repeats, Before;
    NumberingIsComplete(f);
    if NothingLeft(f) { IdleKeeps(f); }
  }

  /** Running the pass a second time changes nothing. */
  lemma NumberingIsIdempotent(f: Function)
    requires Ready(f) && CodeOk(f) && IdsFollowDominance(f)
    ensures CodeOk(ValueNumbered(f)) && ValueNumbered(ValueNumbered(f)) == ValueNumbered(f)
  {
    hide Ready, CodeOk, IdsFollowDominance, NothingLeft;
    NumberingIsComplete(f);
    UnchangedIff(ValueNumbered(f));
  }
}
