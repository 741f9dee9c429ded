/** The SSA validator of src/ir/validate.c: what it accepts, and what acceptance means for runs. */
module Validate {
  import opened Opcodes
  import opened IntFold
  import opened Cfg
  import opened Dominators
  import opened Ir

  /** One entry of the diagnostic list, by what it is about. */
  datatype Diagnostic =
    | InvalidEntry | EntryHasPreds | EmptyBlock(b: nat) | OutOfBounds(i: nat) | DeadLinked(i: nat) | WrongBlock(i: nat)
    | LatePhi(i: nat) | OddPhi(i: nat) | NoSuchValue(i: nat, k: nat) | NoDefinition(i: nat, k: nat)
    | UsedEarly(i: nat, k: nat) | NotDominated(i: nat, k: nat) | PhiNotDominated(i: nat, k: nat) | NoTerminator(b: nat)

  // ---------------------------------------------------------------- acceptance, in terms of paths

  /** Every path that reaches b has been through a, and both are reachable. */
  ghost predicate Strictly(f: Function, a: nat, b: nat) {
    Reachable(GraphOf(f), a) && Reachable(GraphOf(f), b) && Dominates(GraphOf(f), a, b)
  }

  /** Operand k of the instruction at position n of block b may be read there. */
  ghost predicate OperandAccepted(f: Function, b: nat, n: nat, k: nat)
    requires b < |f.blocks| && n < |f.blocks[b].code| && f.blocks[b].code[n] < |f.insts|
    requires k < |f.insts[f.blocks[b].code[n]].ops|
  {
    var inst := f.insts[f.blocks[b].code[n]];
    inst.ops[k].OpValue? ==>
      && inst.ops[k].val < |f.vals|
      && (f.vals[inst.ops[k].val].kind == InstructionValue ==> DefAccepted(f, b, n, k, f.vals[inst.ops[k].val].def))
  }

  ghost predicate DefAccepted(f: Function, b: nat, n: nat, k: nat, def: Option<nat>)
    requires b < |f.blocks| && n < |f.blocks[b].code| && f.blocks[b].code[n] < |f.insts|
    requires k < |f.insts[f.blocks[b].code[n]].ops|
  {
    && def.Some? && def.value < |f.insts|
    && var inst := f.insts[f.blocks[b].code[n]];
    var home := f.insts[def.value].block;
    if inst.opcode == PHI then
      k + 1 < |inst.ops| && inst.ops[k + 1].OpBlock? ==>
        home == inst.ops[k + 1].blk || Strictly(f, home, inst.ops[k + 1].blk)
    else if home == b then exists q :: 0 <= q < n && f.blocks[b].code[q] == def.value
    else Strictly(f, home, b)
  }

  ghost predicate OperandsAccepted(f: Function, b: nat, n: nat, k: nat)
    requires b < |f.blocks| && n < |f.blocks[b].code| && f.blocks[b].code[n] < |f.insts|
    requires k <= |f.insts[f.blocks[b].code[n]].ops|
  {
    forall j :: 0 <= j < k ==> OperandAccepted(f, b, n, j)
  }

  /** PHIs come first in their block. */
  predicate IsPhiAt(f: Function, b: nat, n: nat) {
    HasInst(f, b, n) && InstAt(f, b, n).opcode == PHI
  }

  ghost predicate InstAccepted(f: Function, b: nat, n: nat)
    requires b < |f.blocks| && n < |f.blocks[b].code|
  {
    && f.blocks[b].code[n] < |f.insts|
    && var inst := f.insts[f.blocks[b].code[n]];
    && inst.opcode != NONE && inst.block == b
    && (inst.opcode == PHI ==> (forall m: nat :: m < n ==> IsPhiAt(f, b, m)) && |inst.ops| % 2 == 0)
    && OperandsAccepted(f, b, n, |inst.ops|)
  }

  ghost predicate BlockAccepted(f: Function, b: nat)
    requires b < |f.blocks|
  {
    var blk := f.blocks[b];
    if |blk.code| == 0 then b != f.entry && |blk.preds| == 0 && |blk.succs| == 0
    else
      && (forall n: nat :: n < |blk.code| ==> InstAccepted(f, b, n))
      && HasLast(f, b) && IsTerminator(Last(f, b).opcode)
  }

  ghost predicate Accepts(f: Function) {
    |f.blocks| > 0 ==>
      && f.entry < |f.blocks| && |f.blocks[f.entry].preds| == 0
      && forall b: nat :: b < |f.blocks| ==> BlockAccepted(f, b)
  }

  // ---------------------------------------------------------------- the checks

  /** inst_pos, where no diagnostic has been reported: positions in block b before n; later blocks are untouched. */
  ghost predicate PosOk(f: Function, pos: seq<int>, b: nat, n: nat)
    requires b < |f.blocks| && n <= |f.blocks[b].code|
  {
    |pos| == |f.insts| && forall d: nat {:trigger pos[d]} :: d < |f.insts| ==>
      && (f.insts[d].block == b ==> PosAt(f.blocks[b].code, n, d, pos[d]))
      && (f.insts[d].block > b ==> pos[d] == -1)
  }

  /** p is where d stands before n, or -1. */
  ghost predicate PosAt(code: seq<nat>, n: nat, d: nat, p: int)
    requires n <= |code|
  {
    if p >= 0 then p < n && code[p] == d else p == -1 && d !in code[..n]
  }

  lemma PosNext(f: Function, pos: seq<int>, b: nat, n: nat)
    requires b < |f.blocks| && n < |f.blocks[b].code| && f.blocks[b].code[n] < |f.insts|
    requires f.insts[f.blocks[b].code[n]].block == b && PosOk(f, pos, b, n)
    ensures PosOk(f, pos[f.blocks[b].code[n] := n], b, n + 1)
  {
    var code, i := f.blocks[b].code, f.blocks[b].code[n];
    var pos' := pos[i := n];
    assert code[..n + 1] == code[..n] + [i];
    forall d: nat | d < |f.insts|
      ensures f.insts[d].block == b ==> PosAt(code, n + 1, d, pos'[d])
      ensures f.insts[d].block > b ==> pos'[d] == -1
    {
      assert f.insts[d].block == b ==> PosAt(code, n, d, pos[d]);
      assert f.insts[d].block > b ==> pos[d] == -1;
    }
  }

  lemma PosNextBlock(f: Function, pos: seq<int>, b: nat)
    requires b + 1 < |f.blocks| && PosOk(f, pos, b, |f.blocks[b].code|)
    ensures PosOk(f, pos, b + 1, 0)
  {
  }

  lemma EarlierExists(f: Function, b: nat, n: nat, d: nat, p: int)
    requires b < |f.blocks| && n < |f.blocks[b].code| && PosAt(f.blocks[b].code, n + 1, d, p)
    requires NoDuplicates(f.blocks[b].code)
    ensures 0 <= p < n <==> exists q :: 0 <= q < n && f.blocks[b].code[q] == d
  {
    var code := f.blocks[b].code;
    if exists q :: 0 <= q < n && code[q] == d {
      var q :| 0 <= q < n && code[q] == d;
      assert code[..n + 1][q] == d;
    }
  }

  /** A linked list ends, so it holds no instruction twice. */
  ghost predicate ListsEnd(f: Function) {
    forall b :: 0 <= b < |f.blocks| ==> NoDuplicates(f.blocks[b].code)
  }

  /** Checks operand k of the instruction at position n of block b. */
  method CheckOperand(f: Function, t: Tree, pos: array<int>, b: nat, n: nat, k: nat) returns (diags: seq<Diagnostic>)
    requires b < |f.blocks| && n < |f.blocks[b].code| && f.blocks[b].code[n] < |f.insts| && ListsEnd(f)
    requires k < |f.insts[f.blocks[b].code[n]].ops| && IsDominatorTree(GraphOf(f), t)
    requires pos.Length == |f.insts|
    ensures PosOk(f, pos[..], b, n + 1) ==> (diags == [] <==> OperandAccepted(f, b, n, k))
  {
    hide IsDominatorTree, Reachable, Dominates;
    var i := f.blocks[b].code[n];
    var inst := f.insts[i];
    if !inst.ops[k].OpValue? { return []; }
    var v := inst.ops[k].val;
    if v >= |f.vals| { return [NoSuchValue(i, k)]; }
    if f.vals[v].kind != InstructionValue { return []; }
    var def := f.vals[v].def;
    if def.None? || def.value >= |f.insts| { return [NoDefinition(i, k)]; }
    var home := f.insts[def.value].block;
    if inst.opcode == PHI {
      if k + 1 < |inst.ops| && inst.ops[k + 1].OpBlock? {
        var dom := QueryDominates(t, home, inst.ops[k + 1].blk, GraphOf(f));
        return if dom then [] else [PhiNotDominated(i, k)];
      }
      return [];
    }
    if home == b {
      var p := pos[def.value];
      if PosOk(f, pos[..], b, n + 1) {
        assert pos[..][def.value] == p;
        EarlierExists(f, b, n, def.value, p);
      }
      return if p < 0 || p >= n then [UsedEarly(i, k)] else [];
    }
    var dom := QueryDominates(t, home, b, GraphOf(f));
    return if dom then [] else [NotDominated(i, k)];
  }

  lemma OperandsFirst(f: Function, b: nat, n: nat)
    requires b < |f.blocks| && n < |f.blocks[b].code| && f.blocks[b].code[n] < |f.insts|
    ensures OperandsAccepted(f, b, n, 0)
  {
  }

  lemma OperandsNext(f: Function, b: nat, n: nat, k: nat)
    requires b < |f.blocks| && n < |f.blocks[b].code| && f.blocks[b].code[n] < |f.insts|
    requires k < |f.insts[f.blocks[b].code[n]].ops|
    ensures OperandsAccepted(f, b, n, k + 1) <==> OperandsAccepted(f, b, n, k) && OperandAccepted(f, b, n, k)
  {
    hide OperandAccepted;
  }

  /** Checks the instruction at position n of block b. */
  method CheckInst(f: Function, t: Tree, pos: array<int>, b: nat, n: nat, seenNonPhi: bool)
    returns (diags: seq<Diagnostic>)
    requires b < |f.blocks| && n < |f.blocks[b].code| && f.blocks[b].code[n] < |f.insts| && ListsEnd(f)
    requires IsDominatorTree(GraphOf(f), t) && pos.Length == |f.insts|
    requires seenNonPhi <==> !forall m: nat :: m < n ==> IsPhiAt(f, b, m)
    modifies pos
    ensures PosOk(f, old(pos[..]), b, n) ==> (diags == [] <==> InstAccepted(f, b, n))
    ensures PosOk(f, old(pos[..]), b, n) && diags == [] ==> PosOk(f, pos[..], b, n + 1)
  {
    hide IsDominatorTree, OperandAccepted, OperandsAccepted, ListsEnd, PosOk;
    var i := f.blocks[b].code[n];
    var inst := f.insts[i];
    OperandsFirst(f, b, n);
    diags := [];
    if inst.opcode == NONE { diags := diags + [DeadLinked(i)]; }
    if PosOk(f, pos[..], b, n) && inst.block == b { PosNext(f, pos[..], b, n); }
    pos[i] := n;
    if inst.block != b { diags := diags + [WrongBlock(i)]; }
    if inst.opcode == PHI {
      if seenNonPhi { diags := diags + [LatePhi(i)]; }
      if |inst.ops| % 2 != 0 { diags := diags + [OddPhi(i)]; }
    }
    ghost var shape := diags == [];
    var k := 0;
    while k < |inst.ops|
      invariant 0 <= k <= |inst.ops|
      invariant PosOk(f, pos[..], b, n + 1) ==> (diags == [] <==> shape && OperandsAccepted(f, b, n, k))
      invariant diags == [] ==> shape
      invariant pos[..] == old(pos[..])[i := n]
    {
      var found := CheckOperand(f, t, pos, b, n, k);
      OperandsNext(f, b, n, k);
      diags := diags + found;
      k := k + 1;
    }
  }

  /** Checks block b. */
  method CheckBlock(f: Function, t: Tree, pos: array<int>, b: nat) returns (diags: seq<Diagnostic>)
    requires b < |f.blocks| && ListsEnd(f) && IsDominatorTree(GraphOf(f), t) && pos.Length == |f.insts|
    modifies pos
    ensures PosOk(f, old(pos[..]), b, 0) ==> (diags == [] <==> BlockAccepted(f, b))
    ensures PosOk(f, old(pos[..]), b, 0) && diags == [] ==> PosOk(f, pos[..], b, |f.blocks[b].code|)
  {
    hide IsDominatorTree, InstAccepted, ListsEnd, PosOk;
    var blk := f.blocks[b];
    if |blk.code| == 0 {
      return if b == f.entry || |blk.preds| > 0 || |blk.succs| > 0 then [EmptyBlock(b)] else [];
    }
    diags := [];
    var last: Option<Instruction> := None;
    var seenNonPhi := false;
    ghost var inBounds := true;
    var n := 0;
    while n < |blk.code|
      invariant 0 <= n <= |blk.code| && inBounds
      invariant forall m :: 0 <= m < n ==> blk.code[m] < |f.insts|
      invariant last == if n == 0 then None else Some(f.insts[blk.code[n - 1]])
      invariant seenNonPhi <==> !forall m: nat :: m < n ==> IsPhiAt(f, b, m)
      invariant PosOk(f, old(pos[..]), b, 0) ==> (diags == [] <==> forall m: nat :: m < n ==> InstAccepted(f, b, m))
      invariant PosOk(f, old(pos[..]), b, 0) && diags == [] ==> PosOk(f, pos[..], b, n)
    {
      var i := blk.code[n];
      if i >= |f.insts| {
        NotInBounds(f, b, n);
        diags := diags + [OutOfBounds(i)];
        inBounds := false;
        break;
      }
      last := Some(f.insts[i]);
      var found := CheckInst(f, t, pos, b, n, seenNonPhi);
      diags := diags + found;
      if f.insts[i].opcode != PHI {
        assert !IsPhiAt(f, b, n);
        seenNonPhi := true;
      }
      n := n + 1;
    }
    assert inBounds ==> last == Some(Last(f, b));
    if last.Some? && !IsTerminator(last.value.opcode) { diags := diags + [NoTerminator(b)]; }
  }

  lemma NotInBounds(f: Function, b: nat, n: nat)
    requires b < |f.blocks| && n < |f.blocks[b].code| && f.blocks[b].code[n] >= |f.insts|
    ensures !BlockAccepted(f, b)
  {
    assert !InstAccepted(f, b, n);
  }

  /** ny_validate_function; without a list only the entry block is checked. */
  method ValidateFunction(f: Function, list: Option<seq<Diagnostic>>) returns (ok: bool, out: Option<seq<Diagnostic>>)
    requires ListsEnd(f) && (|f.blocks| > 0 && f.entry < |f.blocks| ==> WellFormed(GraphOf(f)))
    ensures list.Some? ==> (ok <==> Accepts(f))
    ensures list.None? ==> (ok <==> |f.blocks| == 0 || f.entry < |f.blocks|)
    ensures list.Some? <==> out.Some?
    ensures list.Some? ==> list.value <= out.value && (ok <==> out == list)
  {
    hide BlockAccepted, ListsEnd, WellFormed;
    out := list;
    if |f.blocks| == 0 { return true, list; }
    if f.entry >= |f.blocks| {
      if list.Some? { out := Some(list.value + [InvalidEntry]); }
      return false, out;
    }
    var diags: seq<Diagnostic> := [];
    if |f.blocks[f.entry].preds| > 0 { diags := [EntryHasPreds]; }
    ghost var entryOk := diags == [];
    var t := BuildDominatorTree(GraphOf(f));
    hide IsDominatorTree;
    var pos := new int[|f.insts|](_ => -1);
    var b := 0;
    while b < |f.blocks|
      invariant 0 <= b <= |f.blocks| && fresh(pos) && pos.Length == |f.insts|
      invariant diags == [] <==> entryOk && forall c: nat :: c < b ==> BlockAccepted(f, c)
      invariant diags == [] && b < |f.blocks| ==> PosOk(f, pos[..], b, 0)
      invariant !(diags == []) ==> !(entryOk && forall c: nat :: c < |f.blocks| ==> BlockAccepted(f, c))
    {
      var found := CheckBlock(f, t, pos, b);
      if diags == [] && found == [] && b + 1 < |f.blocks| { PosNextBlock(f, pos[..], b); }
      diags := diags + found;
      b := b + 1;
    }
    if list.Some? {
      out := Some(list.value + diags);
      assert |out.value| == |list.value| + |diags|;
      assert diags == [] ==> out.value == list.value;
      return diags == [], out;
    }
    return true, None;
  }
}
