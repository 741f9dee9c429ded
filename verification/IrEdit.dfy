/** The editing operations of src/ir/function.c and src/ir/block.c, as functions of the function they edit. */
module IrEdit {
  import opened Opcodes
  import opened IntFold
  import opened Cfg
  import opened Ir

  function WithInst(f: Function, i: nat, inst: Instruction): Function
    requires i < |f.insts|
  {
    f.(insts := f.insts[i := inst])
  }

  function Without(s: seq<nat>, x: nat): (r: seq<nat>)
    ensures forall y :: y in r <==> y in s && y != x
  {
    if s == [] then []
    else if s[0] == x then Without(s[1..], x)
    else [s[0]] + Without(s[1..], x)
  }

  /** Removing the one occurrence at k. */
  lemma {:induction false} WithoutAt(s: seq<nat>, k: nat)
    requires NoDuplicates(s) && k < |s|
    ensures Without(s, s[k]) == s[..k] + s[k + 1..]
  {
    if k == 0 {
      WithoutAbsent(s[1..], s[0]);
    } else {
      var rest := s[1..];
      WithoutAt(rest, k - 1);
      assert rest[k - 1] == s[k] && s[0] != s[k];
      assert [s[0]] + rest[..k - 1] == s[..k] && rest[k..] == s[k + 1..];
    }
  }

  lemma {:induction false} WithoutAbsent(s: seq<nat>, x: nat)
    requires x !in s
    ensures Without(s, x) == s
  {
    if s != [] { WithoutAbsent(s[1..], x); }
  }

  /** ny_function_append_instruction: a new instruction at the end of block b's list; its result points to it. */
  function AppendInst(f: Function, b: nat, inst: Instruction): Function
    requires b < |f.blocks|
  {
    var id := |f.insts|;
    var blk := f.blocks[b];
    var r := inst.result;
    f.(blocks := f.blocks[b := blk.(code := blk.code + [id])],
       insts := f.insts + [inst],
       vals := if r.Some? && r.value < |f.vals| then f.vals[r.value := f.vals[r.value].(def := Some(id))] else f.vals)
  }

  /** ny_function_remove_instruction: unlinks instruction i, clears it and its result's definition. */
  function RemoveInst(f: Function, i: nat): Function {
    if i >= |f.insts| || f.insts[i].opcode == NONE then f
    else
      var inst := f.insts[i];
      var b, r := inst.block, inst.result;
      f.(blocks := if b < |f.blocks| then f.blocks[b := f.blocks[b].(code := Without(f.blocks[b].code, i))]
         else f.blocks,
         insts := f.insts[i := inst.(opcode := NONE, ops := [])],
         vals := if r.Some? && r.value < |f.vals| then f.vals[r.value := f.vals[r.value].(def := None)] else f.vals)
  }

  function Renamed(ops: seq<Operand>, x: nat, y: nat): (r: seq<Operand>)
    ensures |r| == |ops|
    ensures forall k :: 0 <= k < |ops| ==> r[k] == if ops[k] == OpValue(x) then OpValue(y) else ops[k]
  {
    seq(|ops|, k requires 0 <= k < |ops| => if ops[k] == OpValue(x) then OpValue(y) else ops[k])
  }

  /** ny_function_replace_all_uses: every live instruction reads y instead of x. */
  function ReplaceUses(f: Function, x: nat, y: nat): Function {
    f.(insts := seq(|f.insts|, i requires 0 <= i < |f.insts| =>
         if f.insts[i].opcode == NONE then f.insts[i] else f.insts[i].(ops := Renamed(f.insts[i].ops, x, y))))
  }

  /** The operands of a PHI without the pairs labelled p. */
  function DropPairs(ops: seq<Operand>, p: nat): seq<Operand> {
    if |ops| < 2 then ops
    else if ops[1] == OpBlock(p) then DropPairs(ops[2..], p)
    else ops[..2] + DropPairs(ops[2..], p)
  }

  /** How many PHIs stand at the start of the list. */
  function LeadingPhis(f: Function, code: seq<nat>): (n: nat)
    ensures n <= |code|
    ensures forall k :: 0 <= k < n ==> code[k] < |f.insts| && f.insts[code[k]].opcode == PHI
  {
    if code == [] || code[0] >= |f.insts| || f.insts[code[0]].opcode != PHI then 0
    else
      var n := 1 + LeadingPhis(f, code[1..]);
      assert forall k :: 1 <= k < n ==> code[k] == code[1..][k - 1];
      n
  }

  /** ny_function_remove_phi_incoming: the leading PHIs of block b forget predecessor p. */
  function RemovePhiIncoming(f: Function, b: nat, p: nat): Function {
    if b >= |f.blocks| then f
    else
      var phis := f.blocks[b].code[..LeadingPhis(f, f.blocks[b].code)];
      f.(insts := seq(|f.insts|, i requires 0 <= i < |f.insts| =>
           if i in phis then f.insts[i].(ops := DropPairs(f.insts[i].ops, p)) else f.insts[i]))
  }

  /** Removes the first x by moving the last element into its place. */
  function SwapRemove(s: seq<nat>, x: nat): seq<nat> {
    SwapRemoveFrom(s, x, 0)
  }

  function SwapRemoveFrom(s: seq<nat>, x: nat, i: nat): seq<nat>
    requires i <= |s|
    decreases |s| - i
  {
    if i == |s| then s
    else if s[i] == x then s[i := s[|s| - 1]][..|s| - 1]
    else SwapRemoveFrom(s, x, i + 1)
  }

  /** ny_block_remove_edge. */
  function RemoveEdge(f: Function, b: nat, d: nat): Function
    requires b < |f.blocks| && d < |f.blocks|
  {
    var blocks := f.blocks[b := f.blocks[b].(succs := SwapRemove(f.blocks[b].succs, d))];
    f.(blocks := blocks[d := blocks[d].(preds := SwapRemove(blocks[d].preds, b))])
  }

  /** In a list without duplicates, swap removal removes exactly x. */
  lemma {:induction false} SwapRemoveMembers(s: seq<nat>, x: nat, i: nat)
    requires NoDuplicates(s) && i <= |s| && forall k :: 0 <= k < i ==> s[k] != x
    ensures var r := SwapRemoveFrom(s, x, i);
            NoDuplicates(r) && forall y :: y in r <==> y in s && y != x
    decreases |s| - i
  {
    if i < |s| {
      if s[i] != x {
        SwapRemoveMembers(s, x, i + 1);
      } else {
        var n := |s| - 1;
        var r := s[i := s[n]][..n];
        assert forall k :: 0 <= k < n ==> r[k] == if k == i then s[n] else s[k];
        forall y | y in s && y != x ensures y in r {
          var k :| 0 <= k < |s| && s[k] == y;
          if k == n { assert r[i] == y; } else { assert r[k] == y; }
        }
      }
    }
  }

  /** Dropping the pairs of p does not change what other predecessors select. */
  lemma {:induction false} DropPairsSelects(ops: seq<Operand>, p: nat, q: nat)
    requires p != q
    ensures PhiOperand(DropPairs(ops, p), q) == PhiOperand(ops, q)
  {
    if |ops| >= 2 {
      DropPairsSelects(ops[2..], p, q);
      if ops[1] != OpBlock(p) {
        var rest := DropPairs(ops[2..], p);
        assert (ops[..2] + rest)[2..] == rest;
      }
    }
  }

  /** After dropping, p selects nothing. */
  lemma {:induction false} DropPairsForgets(ops: seq<Operand>, p: nat)
    ensures PhiOperand(DropPairs(ops, p), p) == None
  {
    if |ops| >= 2 {
      DropPairsForgets(ops[2..], p);
      if ops[1] != OpBlock(p) {
        var rest := DropPairs(ops[2..], p);
        assert (ops[..2] + rest)[2..] == rest;
      }
    }
  }
}
