/**
 * The storage of a function in src/ir/function.c: instructions on doubly linked lists of array indices and
 * operands in one shared pool. Its methods are proved against the edits of IrEdit.
 */
module FunctionStore {
  import opened Opcodes
  import opened IntFold
  import opened Cfg
  import opened Ir
  import opened IrEdit

  datatype InstRec = InstRec(opcode: Opcode, isVolatile: bool, result: Option<nat>, opStart: nat, opCount: nat,
                             block: nat, prev: Option<nat>, next: Option<nat>)

  datatype BlockRec = BlockRec(first: Option<nat>, last: Option<nat>, count: nat, preds: seq<nat>, succs: seq<nat>)

  /** ny_function_get_operands. */
  function OperandsOf(pool: seq<Operand>, r: InstRec): seq<Operand> {
    if r.opStart + r.opCount <= |pool| then pool[r.opStart..r.opStart + r.opCount] else []
  }

  // ---------------------------------------------------------------- linked lists

  function At(ids: seq<nat>, k: int): Option<nat> {
    if 0 <= k < |ids| then Some(ids[k]) else None
  }

  ghost predicate LinkOk(insts: seq<InstRec>, ids: seq<nat>, b: nat, k: nat)
    requires k < |ids|
  {
    ids[k] < |insts| &&
    var r := insts[ids[k]];
    r.block == b && r.opcode != NONE && r.prev == At(ids, k - 1) && r.next == At(ids, k + 1)
  }

  /** ids is the list of block b, read off the links. */
  ghost predicate ListOk(insts: seq<InstRec>, blk: BlockRec, ids: seq<nat>, b: nat) {
    && (forall k :: 0 <= k < |ids| ==> LinkOk(insts, ids, b, k))
    && NoDuplicates(ids)
    && blk.first == At(ids, 0) && blk.last == At(ids, |ids| - 1) && blk.count == |ids|
  }

  ghost predicate ListsOk(insts: seq<InstRec>, blocks: seq<BlockRec>, code: seq<seq<nat>>) {
    && |code| == |blocks|
    && (forall b :: 0 <= b < |blocks| ==> ListOk(insts, blocks[b], code[b], b))
    && (forall i :: 0 <= i < |insts| && insts[i].opcode != NONE ==>
          insts[i].block < |blocks| && i in code[insts[i].block])
  }

  /** Two lists share no instruction, because an instruction knows its block. */
  lemma ListsApart(insts: seq<InstRec>, blocks: seq<BlockRec>, code: seq<seq<nat>>, b: nat, c: nat, k: nat)
    requires ListsOk(insts, blocks, code) && b < |blocks| && c < |blocks| && b != c && k < |code[c]|
    ensures code[c][k] !in code[b]
  {
    assert LinkOk(insts, code[c], c, k);
    forall j | 0 <= j < |code[b]| ensures code[b][j] != code[c][k] {
      assert LinkOk(insts, code[b], b, j);
    }
  }

  // ---------------------------------------------------------------- unlinking

  function UnlinkInsts(insts: seq<InstRec>, i: nat): (r: seq<InstRec>)
    requires i < |insts|
    requires insts[i].prev.Some? ==> insts[i].prev.value < |insts|
    requires insts[i].next.Some? ==> insts[i].next.value < |insts|
    ensures |r| == |insts|
  {
    var p, n := insts[i].prev, insts[i].next;
    var s1 := if p.Some? then insts[p.value := insts[p.value].(next := n)] else insts;
    var s2 := if n.Some? then s1[n.value := s1[n.value].(prev := p)] else s1;
    s2[i := s2[i].(opcode := NONE, prev := None, next := None, opCount := 0)]
  }

  function UnlinkBlock(blk: BlockRec, r: InstRec): BlockRec {
    blk.(first := if r.prev.Some? then blk.first else r.next,
         last := if r.next.Some? then blk.last else r.prev,
         count := if blk.count > 0 then blk.count - 1 else 0)
  }

  lemma UnlinkList(insts: seq<InstRec>, blk: BlockRec, ids: seq<nat>, b: nat, k: nat)
    requires ListOk(insts, blk, ids, b) && k < |ids|
    ensures LinkOk(insts, ids, b, k) && (k > 0 ==> LinkOk(insts, ids, b, k - 1))
            && (k + 1 < |ids| ==> LinkOk(insts, ids, b, k + 1))
    ensures ListOk(UnlinkInsts(insts, ids[k]), UnlinkBlock(blk, insts[ids[k]]), ids[..k] + ids[k + 1..], b)
  {
    assert LinkOk(insts, ids, b, k);
    if k > 0 { assert LinkOk(insts, ids, b, k - 1); }
    if k + 1 < |ids| { assert LinkOk(insts, ids, b, k + 1); }
    var out := UnlinkInsts(insts, ids[k]);
    var rest := ids[..k] + ids[k + 1..];
    forall j | 0 <= j < |rest| ensures LinkOk(out, rest, b, j) {
      var m := if j < k then j else j + 1;
      assert rest[j] == ids[m] && LinkOk(insts, ids, b, m);
      assert ids[m] != ids[k];
    }
  }

  /** Other lists do not notice. */
  lemma UnlinkOther(insts: seq<InstRec>, blocks: seq<BlockRec>, code: seq<seq<nat>>, b: nat, k: nat, c: nat)
    requires ListsOk(insts, blocks, code) && b < |blocks| && c < |blocks| && b != c && k < |code[b]|
    requires LinkOk(insts, code[b], b, k)
    requires k > 0 ==> LinkOk(insts, code[b], b, k - 1)
    requires k + 1 < |code[b]| ==> LinkOk(insts, code[b], b, k + 1)
    ensures ListOk(UnlinkInsts(insts, code[b][k]), blocks[c], code[c], c)
  {
    var out := UnlinkInsts(insts, code[b][k]);
    forall j | 0 <= j < |code[c]| ensures LinkOk(out, code[c], c, j) {
      assert LinkOk(insts, code[c], c, j);
      ListsApart(insts, blocks, code, b, c, j);
    }
  }

  lemma UnlinkLists(insts: seq<InstRec>, blocks: seq<BlockRec>, code: seq<seq<nat>>, b: nat, k: nat)
    requires ListsOk(insts, blocks, code) && b < |blocks| && k < |code[b]|
    ensures LinkOk(insts, code[b], b, k)
    ensures k > 0 ==> LinkOk(insts, code[b], b, k - 1)
    ensures k + 1 < |code[b]| ==> LinkOk(insts, code[b], b, k + 1)
    ensures ListsOk(UnlinkInsts(insts, code[b][k]), blocks[b := UnlinkBlock(blocks[b], insts[code[b][k]])],
                    code[b := code[b][..k] + code[b][k + 1..]])
  {
    UnlinkList(insts, blocks[b], code[b], b, k);
    var i := code[b][k];
    var out, blocks', code' := UnlinkInsts(insts, i), blocks[b := UnlinkBlock(blocks[b], insts[i])],
                               code[b := code[b][..k] + code[b][k + 1..]];
    forall c | 0 <= c < |blocks'| ensures ListOk(out, blocks'[c], code'[c], c) {
      if c != b { UnlinkOther(insts, blocks, code, b, k, c); }
    }
    hide LinkOk, ListOk;
    forall j | 0 <= j < |out| && out[j].opcode != NONE ensures out[j].block < |blocks'| && j in code'[out[j].block] {
      assert insts[j].opcode != NONE && out[j].block == insts[j].block;
      if insts[j].block == b && j != i {
        var m :| 0 <= m < |code[b]| && code[b][m] == j;
        assert code'[b][if m < k then m else m - 1] == j;
      }
    }
  }

  // ---------------------------------------------------------------- the operand pool

  ghost predicate SliceOk(r: InstRec, pool: seq<Operand>) {
    r.opStart + r.opCount <= |pool|
  }

  ghost predicate Apart(r: InstRec, q: InstRec) {
    r.opCount == 0 || q.opCount == 0 || r.opStart + r.opCount <= q.opStart || q.opStart + q.opCount <= r.opStart
  }

  /** Every instruction owns its slice of the pool. */
  ghost predicate PoolOk(insts: seq<InstRec>, pool: seq<Operand>) {
    && (forall i :: 0 <= i < |insts| ==> SliceOk(insts[i], pool))
    && (forall i, j :: 0 <= i < |insts| && 0 <= j < |insts| && i != j ==> Apart(insts[i], insts[j]))
  }

  function InstOf(r: InstRec, pool: seq<Operand>): Instruction {
    Instruction(r.opcode, r.isVolatile, r.result, OperandsOf(pool, r), r.block)
  }

  function InstsOf(insts: seq<InstRec>, pool: seq<Operand>): (s: seq<Instruction>)
    ensures |s| == |insts| && forall i :: 0 <= i < |insts| ==> s[i] == InstOf(insts[i], pool)
  {
    seq(|insts|, i requires 0 <= i < |insts| => InstOf(insts[i], pool))
  }

  function BlocksOf(blocks: seq<BlockRec>, code: seq<seq<nat>>): (s: seq<Block>)
    requires |code| == |blocks|
    ensures |s| == |blocks| && forall b :: 0 <= b < |blocks| ==>
            s[b] == Block(code[b], blocks[b].preds, blocks[b].succs)
  {
    seq(|blocks|, b requires 0 <= b < |blocks| => Block(code[b], blocks[b].preds, blocks[b].succs))
  }

  /** Overwriting one operand changes only its owner. */
  lemma PoolWrite(insts: seq<InstRec>, pool: seq<Operand>, i: nat, k: nat, op: Operand)
    requires PoolOk(insts, pool) && i < |insts| && k < insts[i].opCount
    ensures insts[i].opStart + k < |pool|
    ensures var pool' := pool[insts[i].opStart + k := op];
            && PoolOk(insts, pool')
            && OperandsOf(pool', insts[i]) == OperandsOf(pool, insts[i])[k := op]
            && forall j :: 0 <= j < |insts| && j != i ==> OperandsOf(pool', insts[j]) == OperandsOf(pool, insts[j])
  {
    assert SliceOk(insts[i], pool);
    var pool' := pool[insts[i].opStart + k := op];
    forall j | 0 <= j < |insts| ensures SliceOk(insts[j], pool') { assert SliceOk(insts[j], pool); }
    forall j | 0 <= j < |insts| && j != i ensures OperandsOf(pool', insts[j]) == OperandsOf(pool, insts[j]) {
      assert SliceOk(insts[j], pool) && Apart(insts[i], insts[j]);
    }
  }

  /** Shrinking or reusing an instruction's own slice keeps slices apart. */
  lemma PoolShrink(insts: seq<InstRec>, pool: seq<Operand>, i: nat, r: InstRec)
    requires PoolOk(insts, pool) && i < |insts|
    requires r.opStart == insts[i].opStart && r.opCount <= insts[i].opCount
    ensures PoolOk(insts[i := r], pool)
  {
    var insts' := insts[i := r];
    forall j | 0 <= j < |insts'| ensures SliceOk(insts'[j], pool) { assert SliceOk(insts[j], pool); }
    forall j, k | 0 <= j < |insts'| && 0 <= k < |insts'| && j != k ensures Apart(insts'[j], insts'[k]) {
      assert Apart(insts[j], insts[k]);
    }
  }

  // ---------------------------------------------------------------- the function

  class Store {
    var entry: nat
    var blocks: seq<BlockRec>
    var insts: seq<InstRec>
    var vals: seq<Value>
    var pool: seq<Operand>
    /** The lists, as sequences. */
    ghost var code: seq<seq<nat>>

    ghost predicate Valid()
      reads this
    {
      ListsOk(insts, blocks, code) && PoolOk(insts, pool)
    }

    /** The function this store represents. */
    ghost function Snapshot(): Function
      requires Valid()
      reads this
    {
      Function(entry, BlocksOf(blocks, code), InstsOf(insts, pool), vals)
    }

    /** An empty function whose blocks have the given edges. */
    constructor (entry: nat, edges: seq<(seq<nat>, seq<nat>)>, vals: seq<Value>)
      ensures Valid() && |Snapshot().blocks| == |edges| && Snapshot().insts == [] && Snapshot().vals == vals
      ensures Snapshot().entry == entry
      ensures forall b :: 0 <= b < |edges| ==> Snapshot().blocks[b] == Block([], edges[b].0, edges[b].1)
    {
      this.entry := entry;
      blocks := seq(|edges|, b requires 0 <= b < |edges| => BlockRec(None, None, 0, edges[b].0, edges[b].1));
      insts, pool := [], [];
      this.vals := vals;
      code := seq(|edges|, b requires 0 <= b < |edges| => []);
    }

    method AppendInstruction(b: nat, opcode: Opcode, result: Option<nat>, ops: seq<Operand>, isVolatile: bool)
      returns (id: nat)
      requires Valid() && b < |blocks| && opcode != NONE
      modifies this
      ensures Valid() && id == |old(insts)|
      ensures Snapshot() == AppendInst(old(Snapshot()), b, Instruction(opcode, isVolatile, result, ops, b))
    {
      hide ListsOk, PoolOk, AppendedInsts, AppendedBlock, AppendInst, BlocksOf, InstsOf;
      id := |insts|;
      var rec := InstRec(opcode, isVolatile, result, |pool|, |ops|, b, blocks[b].last, None);
      AppendedFunction(entry, insts, blocks, code, pool, vals, b, rec, ops);
      pool := pool + ops;
      Link(b, rec);
      if result.Some? && result.value < |vals| {
        vals := vals[result.value := vals[result.value].(def := Some(id))];
      }
      code := code[b := code[b] + [id]];
    }

    /** The pointer updates of an append. */
    method Link(b: nat, rec: InstRec)
      requires b < |blocks| && rec.prev == blocks[b].last && (blocks[b].first.None? <==> rec.prev.None?)
      requires rec.prev.Some? ==> rec.prev.value < |insts|
      modifies this`insts, this`blocks
      ensures insts == AppendedInsts(old(insts), rec.prev, rec)
      ensures blocks == old(blocks)[b := AppendedBlock(old(blocks)[b], |old(insts)|)]
    {
      var id := |insts|;
      insts := insts + [rec];
      if blocks[b].first.None? {
        blocks := blocks[b := blocks[b].(first := Some(id))];
      } else {
        var last := blocks[b].last.value;
        insts := insts[last := insts[last].(next := Some(id))];
      }
      blocks := blocks[b := blocks[b].(last := Some(id), count := blocks[b].count + 1)];
    }

    /** ny_function_remove_instruction. */
    method RemoveInstruction(i: nat)
      requires Valid()
      modifies this
      ensures Valid() && Snapshot() == RemoveInst(old(Snapshot()), i)
      ensures |insts| == |old(insts)| && |blocks| == |old(blocks)| && entry == old(entry)
    {
      hide ListsOk, PoolOk, UnlinkInsts, UnlinkBlock, BlocksOf, InstsOf, RemoveInst;
      if i >= |insts| || insts[i].opcode == NONE {
        NothingRemoved(Snapshot(), insts, pool, i);
        return;
      }
      ghost var k := PlaceOf(insts, blocks, code, i);
      var b, result := insts[i].block, insts[i].result;
      RemovedFunction(entry, insts, blocks, code, pool, vals, b, k);
      Unlink(i);
      code := code[b := code[b][..k] + code[b][k + 1..]];
      if result.Some? && result.value < |vals| {
        vals := vals[result.value := vals[result.value].(def := None)];
      }
    }

    /** The pointer updates of a removal. */
    method Unlink(i: nat)
      requires i < |insts| && insts[i].block < |blocks|
      requires insts[i].prev.Some? ==> insts[i].prev.value < |insts|
      requires insts[i].next.Some? ==> insts[i].next.value < |insts|
      modifies this`insts, this`blocks
      ensures insts == UnlinkInsts(old(insts), i)
      ensures blocks == old(blocks)[old(insts)[i].block := UnlinkBlock(old(blocks)[old(insts)[i].block], old(insts)[i])]
    {
      var inst := insts[i];
      var b := inst.block;
      if inst.prev.Some? {
        insts := insts[inst.prev.value := insts[inst.prev.value].(next := inst.next)];
      } else {
        blocks := blocks[b := blocks[b].(first := inst.next)];
      }
      if inst.next.Some? {
        insts := insts[inst.next.value := insts[inst.next.value].(prev := inst.prev)];
      } else {
        blocks := blocks[b := blocks[b].(last := inst.prev)];
      }
      if blocks[b].count > 0 {
        blocks := blocks[b := blocks[b].(count := blocks[b].count - 1)];
      }
      insts := insts[i := insts[i].(opcode := NONE, prev := None, next := None, opCount := 0)];
    }

    /** ny_instruction_replace_operand: out of range, it does nothing. */
    method ReplaceOperand(i: nat, k: nat, op: Operand)
      requires Valid()
      modifies this`pool
      ensures Valid()
      ensures Snapshot() == if i < |insts| && k < |old(Snapshot()).insts[i].ops|
                            then WithInst(old(Snapshot()), i,
                                          old(Snapshot()).insts[i].(ops := old(Snapshot()).insts[i].ops[k := op]))
                            else old(Snapshot())
    {
      if i >= |insts| { return; }
      PoolLengths(insts, pool);
      if k >= insts[i].opCount { return; }
      ghost var f := Snapshot();
      PoolWrite(insts, pool, i, k, op);
      pool := pool[insts[i].opStart + k := op];
      hide ListsOk, PoolOk;
      assert Snapshot().insts == f.insts[i := f.insts[i].(ops := f.insts[i].ops[k := op])];
    }

    /** Turns instruction i into opcode with the single operand op, reusing its slice. */
    method Specialize(i: nat, opcode: Opcode, op: Operand)
      requires Valid() && i < |insts| && insts[i].opCount > 0 && insts[i].opcode != NONE && opcode != NONE
      modifies this`insts, this`pool
      ensures Valid()
      ensures |insts| == |old(insts)|
      ensures Snapshot() == WithInst(old(Snapshot()), i, old(Snapshot()).insts[i].(opcode := opcode, ops := [op]))
    {
      hide ListsOk, PoolOk, OperandsOf, InstsOf, BlocksOf;
      SpecializeFacts(insts, pool, blocks, code, i, opcode, op);
      pool := pool[insts[i].opStart := op];
      insts := insts[i := insts[i].(opcode := opcode, opCount := 1)];
    }

    /** ny_function_replace_all_uses. */
    method ReplaceAllUses(x: nat, y: nat)
      requires Valid()
      modifies this`pool
      ensures Valid() && Snapshot() == ReplaceUses(old(Snapshot()), x, y)
    {
      ghost var f := Snapshot();
      if x == y {
        RenameSame(f, x);
        return;
      }
      hide ListsOk, PoolOk;
      var i := 0;
      while i < |insts|
        invariant 0 <= i <= |insts| && Valid()
        invariant forall m :: 0 <= m < |insts| ==>
            OperandsOf(pool, insts[m]) ==
              (if m < i && insts[m].opcode != NONE then Renamed(f.insts[m].ops, x, y) else f.insts[m].ops)
      {
        if insts[i].opcode != NONE {
          RenameIn(i, x, y);
        }
        i := i + 1;
      }
      assert Snapshot().insts == ReplaceUses(f, x, y).insts;
    }

    /** Renames within the slice of one instruction. */
    method RenameIn(i: nat, x: nat, y: nat)
      requires Valid() && i < |insts|
      modifies this`pool
      ensures Valid()
      ensures OperandsOf(pool, insts[i]) == Renamed(old(OperandsOf(pool, insts[i])), x, y)
      ensures forall m :: 0 <= m < |insts| && m != i ==> OperandsOf(pool, insts[m]) == old(OperandsOf(pool, insts[m]))
    {
      hide ListsOk, PoolOk, OperandsOf;
      ghost var ops := OperandsOf(pool, insts[i]);
      var k := 0;
      PoolLengths(insts, pool);
      while k < insts[i].opCount
        invariant 0 <= k <= insts[i].opCount && Valid() && |ops| == insts[i].opCount
        invariant |OperandsOf(pool, insts[i])| == |ops|
        invariant forall j :: 0 <= j < |ops| ==>
            OperandsOf(pool, insts[i])[j] == (if j < k && ops[j] == OpValue(x) then OpValue(y) else ops[j])
        invariant forall m :: 0 <= m < |insts| && m != i ==>
                  OperandsOf(pool, insts[m]) == old(OperandsOf(pool, insts[m]))
      {
        PoolCell(insts, pool, i, k);
        if pool[insts[i].opStart + k] == OpValue(x) {
          PoolWrite(insts, pool, i, k, OpValue(y));
          pool := pool[insts[i].opStart + k := OpValue(y)];
        }
        k := k + 1;
      }
    }

    /** ny_block_remove_edge. */
    method DropEdge(b: nat, d: nat)
      requires Valid() && b < |blocks| && d < |blocks|
      modifies this`blocks
      ensures Valid() && Snapshot() == RemoveEdge(old(Snapshot()), b, d)
      ensures |blocks| == |old(blocks)|
    {
      hide ListsOk, PoolOk, InstsOf;
      ghost var f := Snapshot();
      var succs := SwapOut(blocks[b].succs, d);
      SameBlocks(insts, blocks, blocks[b := blocks[b].(succs := succs)], code);
      blocks := blocks[b := blocks[b].(succs := succs)];
      var preds := SwapOut(blocks[d].preds, b);
      SameBlocks(insts, blocks, blocks[d := blocks[d].(preds := preds)], code);
      blocks := blocks[d := blocks[d].(preds := preds)];
      assert Snapshot().blocks == RemoveEdge(f, b, d).blocks;
    }

    /** Does an operand at an odd place of instruction i name block p? */
    method HasIncoming(i: nat, p: nat) returns (found: bool)
      requires Valid() && i < |insts|
      ensures !found ==> DropPairs(OperandsOf(pool, insts[i]), p) == OperandsOf(pool, insts[i])
    {
      hide ListsOk, PoolOk, OperandsOf, DropPairs;
      PoolLengths(insts, pool);
      ghost var ops := OperandsOf(pool, insts[i]);
      var r := insts[i];
      var k := 1;
      while k < r.opCount
        invariant 1 <= k <= r.opCount + 1 && k % 2 == 1
        invariant forall j :: 0 <= j < k - 1 && j % 2 == 1 ==> ops[j] != OpBlock(p)
      {
        PoolCell(insts, pool, i, k);
        if pool[r.opStart + k] == OpBlock(p) { return true; }
        k := k + 2;
      }
      DropPairsNone(ops, p);
      return false;
    }

    /** Moves the pairs of one PHI that are not labelled p to the front of its slice. */
    method ShiftPairs(i: nat, p: nat) returns (w: nat)
      requires Valid() && i < |insts| && insts[i].opCount % 2 == 0
      modifies this`pool
      ensures Valid() && SameElsewhere(insts, old(pool), pool, i) && w <= insts[i].opCount
      ensures |OperandsOf(pool, insts[i])| == insts[i].opCount
      ensures OperandsOf(pool, insts[i])[..w] == DropPairs(old(OperandsOf(pool, insts[i])), p)
    {
      hide ListsOk, PoolOk, OperandsOf, DropPairs, Shifted, SameElsewhere, Moved;
      ghost var was := pool;
      var a, n := insts[i].opStart, insts[i].opCount;
      w := 0;
      var k := 0;
      StartShift(insts, pool, i, p);
      while k < n
        invariant 0 <= w <= k <= n && k % 2 == 0 && Valid() && Shifted(insts, was, pool, i, w, k, p)
      {
        ShiftStep(insts, was, pool, i, w, k, p);
        if pool[a + k + 1] != OpBlock(p) {
          MovePair(a, w, k);
          w := w + 2;
        }
        k := k + 2;
      }
      EndShift(insts, was, pool, i, w, p);
    }

    method MovePair(a: nat, w: nat, k: nat)
      requires w <= k && a + k + 1 < |pool|
      modifies this`pool
      ensures pool == Moved(old(pool), a, w, k)
    {
      var first, second := pool[a + k], pool[a + k + 1];
      pool := pool[a + w := first];
      pool := pool[a + w + 1 := second];
    }

    /** Removes the pairs labelled p from one PHI. */
    method Compact(i: nat, p: nat)
      requires Valid() && i < |insts| && insts[i].opcode != NONE && insts[i].opCount % 2 == 0
      modifies this`insts, this`pool
      ensures Valid()
      ensures InstsOf(insts, pool) == Forgetting(old(InstsOf(insts, pool)), i, p)
      ensures |insts| == |old(insts)| && insts[i].next == old(insts)[i].next
    {
      ghost var was := InstsOf(insts, pool);
      var found := HasIncoming(i, p);
      if !found {
        assert InstsOf(insts, pool) == Forgetting(was, i, p);
        return;
      }
      hide ListsOk, PoolOk, OperandsOf, DropPairs;
      var w := ShiftPairs(i, p);
      var r := insts[i].(opCount := w);
      PoolShrink(insts, pool, i, r);
      SameLinks(insts, insts[i := r], blocks, code);
      PoolSlice(insts, pool, i, w);
      SameElsewhereInsts(insts, old(pool), pool, i);
      insts := insts[i := r];
      assert InstsOf(insts, pool) == Forgetting(was, i, p);
    }

    /** ny_function_remove_phi_incoming: walks the list while it meets PHIs and compacts their slices. */
    method DropPhiIncoming(b: nat, p: nat)
      requires Valid() && b < |blocks| && EvenPhis(Snapshot(), b)
      modifies this`insts, this`pool
      ensures Valid() && Snapshot() == RemovePhiIncoming(old(Snapshot()), b, p)
      ensures |insts| == |old(insts)|
    {
      hide ListsOk, PoolOk, EvenPhis, RemovePhiIncoming, InstsOf, BlocksOf, PhisDone;
      ghost var f := Snapshot();
      ghost var k := 0;
      StartOfList(insts, blocks, code, b);
      StartPhis(f, insts, pool, b, p);
      ghost var ids := code[b];
      var curr := blocks[b].first;
      while curr.Some? && insts[curr.value].opcode == PHI
        invariant 0 <= k <= |ids| && curr == At(ids, k) && Valid() && PhisDone(f, insts, pool, b, k, p)
        invariant |insts| == |f.insts|
        decreases |ids| - k
      {
        ListWalk(insts, blocks, code, b, k);
        NextPhi(f, insts, pool, b, k, p);
        Compact(curr.value, p);
        curr := insts[curr.value].next;
        k := k + 1;
      }
      PhisEnd(f, insts, pool, b, k, p);
    }
  }

  /** The first k instructions of block b's list are PHIs and have forgotten p. */
  ghost predicate PhisDone(f: Function, insts: seq<InstRec>, pool: seq<Operand>, b: nat, k: nat, p: nat) {
    && b < |f.blocks| && AllPhis(f, f.blocks[b].code, k)
    && InstsOf(insts, pool) == Dropped(f, f.blocks[b].code, k, p)
  }

  lemma StartPhis(f: Function, insts: seq<InstRec>, pool: seq<Operand>, b: nat, p: nat)
    requires b < |f.blocks| && f.insts == InstsOf(insts, pool)
    ensures PhisDone(f, insts, pool, b, 0, p)
  {
  }

  /** The PHI at k of block b's list, before it forgets p. */
  lemma NextPhi(f: Function, insts: seq<InstRec>, pool: seq<Operand>, b: nat, k: nat, p: nat)
    requires PhisDone(f, insts, pool, b, k, p) && k < |f.blocks[b].code| && NoDuplicates(f.blocks[b].code)
    requires EvenPhis(f, b) && PoolOk(insts, pool)
    requires f.blocks[b].code[k] < |insts| && insts[f.blocks[b].code[k]].opcode == PHI
    ensures insts[f.blocks[b].code[k]].opCount % 2 == 0
    ensures forall insts', pool' ::
              InstsOf(insts', pool') == Forgetting(InstsOf(insts, pool), f.blocks[b].code[k], p) ==>
                PhisDone(f, insts', pool', b, k + 1, p)
  {
    var ids := f.blocks[b].code;
    NotYetDropped(f, ids, k, p);
    assert InstsOf(insts, pool)[ids[k]] == f.insts[ids[k]];
    PrefixIsPhis(f, ids, k);
    EvenPhi(f, b, k);
    PoolLengths(insts, pool);
  }

  lemma PhisEnd(f: Function, insts: seq<InstRec>, pool: seq<Operand>, b: nat, k: nat, p: nat)
    requires PhisDone(f, insts, pool, b, k, p)
    requires k < |f.blocks[b].code| ==> f.blocks[b].code[k] < |insts| && insts[f.blocks[b].code[k]].opcode != PHI
    ensures f.(insts := InstsOf(insts, pool)) == RemovePhiIncoming(f, b, p)
  {
    var ids := f.blocks[b].code;
    if k < |ids| {
      assert InstsOf(insts, pool)[ids[k]] == Dropped(f, ids, k, p)[ids[k]];
    }
    LeadingPhisIs(f, ids, k);
  }

  ghost predicate AllPhis(f: Function, ids: seq<nat>, k: nat) {
    k <= |ids| && forall j :: 0 <= j < k ==> ids[j] < |f.insts| && f.insts[ids[j]].opcode == PHI
  }

  /** Only instruction i may read its operands differently. */
  ghost predicate SameElsewhere(insts: seq<InstRec>, pool: seq<Operand>, pool': seq<Operand>, i: nat) {
    forall m :: 0 <= m < |insts| && m != i ==> OperandsOf(pool', insts[m]) == OperandsOf(pool, insts[m])
  }

  lemma SameElsewhereInsts(insts: seq<InstRec>, pool: seq<Operand>, pool': seq<Operand>, i: nat)
    requires SameElsewhere(insts, pool, pool', i) && i < |insts|
    ensures forall m :: 0 <= m < |insts| && m != i ==> InstOf(insts[m], pool') == InstOf(insts[m], pool)
  {
  }

  lemma PairAt(insts: seq<InstRec>, pool: seq<Operand>, i: nat, k: nat, ops: seq<Operand>)
    requires PoolOk(insts, pool) && i < |insts| && k + 1 < insts[i].opCount && |ops| == insts[i].opCount
    requires |OperandsOf(pool, insts[i])| == |ops| && OperandsOf(pool, insts[i])[k..] == ops[k..]
    ensures insts[i].opStart + k + 1 < |pool|
    ensures pool[insts[i].opStart + k] == ops[k] && pool[insts[i].opStart + k + 1] == ops[k + 1]
  {
    PoolCell(insts, pool, i, k);
    PoolCell(insts, pool, i, k + 1);
    hide OperandsOf, PoolOk;
    var now := OperandsOf(pool, insts[i]);
    assert now[k] == now[k..][0] && now[k + 1] == now[k..][1];
  }

  /** Instruction i without the pairs labelled p. */
  function Forgetting(s: seq<Instruction>, i: nat, p: nat): (r: seq<Instruction>)
    requires i < |s|
    ensures |r| == |s|
  {
    s[i := s[i].(ops := DropPairs(s[i].ops, p))]
  }

  /** The first k operands of instruction i have been compacted to w. */
  ghost predicate Shifted(insts: seq<InstRec>, was: seq<Operand>, pool: seq<Operand>, i: nat, w: nat, k: nat, p: nat) {
    && i < |insts| && w <= k <= |OperandsOf(was, insts[i])| == |OperandsOf(pool, insts[i])|
    && OperandsOf(pool, insts[i])[..w] == DropPairs(OperandsOf(was, insts[i])[..k], p)
    && OperandsOf(pool, insts[i])[k..] == OperandsOf(was, insts[i])[k..]
    && SameElsewhere(insts, was, pool, i)
  }

  lemma StartShift(insts: seq<InstRec>, pool: seq<Operand>, i: nat, p: nat)
    requires i < |insts|
    ensures Shifted(insts, pool, pool, i, 0, 0, p)
  {
  }

  lemma EndShift(insts: seq<InstRec>, was: seq<Operand>, pool: seq<Operand>, i: nat, w: nat, p: nat)
    requires PoolOk(insts, pool) && i < |insts| && Shifted(insts, was, pool, i, w, insts[i].opCount, p)
    ensures SameElsewhere(insts, was, pool, i) && |OperandsOf(pool, insts[i])| == insts[i].opCount
    ensures OperandsOf(pool, insts[i])[..w] == DropPairs(OperandsOf(was, insts[i]), p)
  {
    PoolLengths(insts, pool);
    var ops := OperandsOf(was, insts[i]);
    assert ops[..insts[i].opCount] == ops;
  }

  function Moved(pool: seq<Operand>, a: nat, w: nat, k: nat): seq<Operand>
    requires w <= k && a + k + 1 < |pool|
  {
    pool[a + w := pool[a + k]][a + w + 1 := pool[a + k + 1]]
  }

  lemma LaterSlice(now: seq<Operand>, ops: seq<Operand>, k: nat)
    requires |now| == |ops| && k + 2 <= |now| && now[k..] == ops[k..]
    ensures now[k + 2..] == ops[k + 2..]
  {
    assert now[k..][2..] == now[k + 2..] && ops[k..][2..] == ops[k + 2..];
  }

  lemma PairMoved(now: seq<Operand>, next: seq<Operand>, w: nat, k: nat, x: Operand, y: Operand)
    requires w <= k && k + 2 <= |now| && next == now[w := x][w + 1 := y]
    ensures next[..w + 2] == now[..w] + [x, y] && next[k + 2..] == now[k + 2..]
  {
  }

  /** Reading the pair at k and moving it down to w, unless it is labelled p. */
  lemma ShiftStep(insts: seq<InstRec>, was: seq<Operand>, pool: seq<Operand>, i: nat, w: nat, k: nat, p: nat)
    requires PoolOk(insts, pool) && Shifted(insts, was, pool, i, w, k, p) && k % 2 == 0 && k + 1 < insts[i].opCount
    ensures insts[i].opStart + k + 1 < |pool|
    ensures pool[insts[i].opStart + k + 1] == OpBlock(p) ==> Shifted(insts, was, pool, i, w, k + 2, p)
    ensures pool[insts[i].opStart + k + 1] != OpBlock(p) ==>
              var pool' := Moved(pool, insts[i].opStart, w, k);
              PoolOk(insts, pool') && Shifted(insts, was, pool', i, w + 2, k + 2, p)
  {
    var ops, now := OperandsOf(was, insts[i]), OperandsOf(pool, insts[i]);
    PoolLengths(insts, pool);
    PairAt(insts, pool, i, k, ops);
    DropPairsAppend(ops, k, p);
    hide PoolOk, OperandsOf, DropPairs, Moved;
    LaterSlice(now, ops, k);
    if ops[k + 1] != OpBlock(p) {
      MovedFacts(insts, pool, i, w, k);
      var next := OperandsOf(Moved(pool, insts[i].opStart, w, k), insts[i]);
      PairMoved(now, next, w, k, ops[k], ops[k + 1]);
    }
  }

  lemma MovedFacts(insts: seq<InstRec>, pool: seq<Operand>, i: nat, w: nat, k: nat)
    requires PoolOk(insts, pool) && i < |insts| && w <= k && k + 1 < insts[i].opCount
    requires insts[i].opStart + k + 1 < |pool|
    ensures var a := insts[i].opStart;
            && PoolOk(insts, Moved(pool, a, w, k)) && SameElsewhere(insts, pool, Moved(pool, a, w, k), i)
            && |OperandsOf(pool, insts[i])| == insts[i].opCount
            && OperandsOf(Moved(pool, a, w, k), insts[i]) ==
               OperandsOf(pool, insts[i])[w := pool[a + k]][w + 1 := pool[a + k + 1]]
  {
    var a := insts[i].opStart;
    PoolLengths(insts, pool);
    PoolWrite(insts, pool, i, w, pool[a + k]);
    PoolWrite(insts, pool[a + w := pool[a + k]], i, w + 1, pool[a + k + 1]);
    hide PoolOk, OperandsOf;
  }

  /** The instructions once the first k of ids have forgotten p. */
  function Dropped(f: Function, ids: seq<nat>, k: nat, p: nat): (s: seq<Instruction>)
    requires k <= |ids|
    ensures |s| == |f.insts|
    ensures forall i :: 0 <= i < |s| ==> s[i].opcode == f.insts[i].opcode
  {
    seq(|f.insts|, i requires 0 <= i < |f.insts| =>
      if i in ids[..k] then f.insts[i].(ops := DropPairs(f.insts[i].ops, p)) else f.insts[i])
  }

  lemma NotYetDropped(f: Function, ids: seq<nat>, k: nat, p: nat)
    requires k < |ids| && NoDuplicates(ids) && ids[k] < |f.insts|
    ensures Dropped(f, ids, k, p)[ids[k]] == f.insts[ids[k]]
    ensures Dropped(f, ids, k + 1, p) ==
            Dropped(f, ids, k, p)[ids[k] := f.insts[ids[k]].(ops := DropPairs(f.insts[ids[k]].ops, p))]
  {
    assert ids[..k + 1] == ids[..k] + [ids[k]];
  }

  lemma EvenPhi(f: Function, b: nat, k: nat)
    requires b < |f.blocks| && EvenPhis(f, b) && k < LeadingPhis(f, f.blocks[b].code)
    ensures |f.insts[f.blocks[b].code[k]].ops| % 2 == 0
  {
  }

  lemma SpecializeFacts(insts: seq<InstRec>, pool: seq<Operand>, blocks: seq<BlockRec>, code: seq<seq<nat>>, i: nat,
                        opcode: Opcode, op: Operand)
    requires ListsOk(insts, blocks, code) && PoolOk(insts, pool) && i < |insts|
    requires insts[i].opCount > 0 && insts[i].opcode != NONE && opcode != NONE
    ensures insts[i].opStart < |pool|
    ensures var r := insts[i].(opcode := opcode, opCount := 1);
            var pool' := pool[insts[i].opStart := op];
            && ListsOk(insts[i := r], blocks, code) && PoolOk(insts[i := r], pool')
            && InstsOf(insts[i := r], pool') ==
               InstsOf(insts, pool)[i := InstsOf(insts, pool)[i].(opcode := opcode, ops := [op])]
  {
    var r := insts[i].(opcode := opcode, opCount := 1);
    PoolLengths(insts, pool);
    PoolWrite(insts, pool, i, 0, op);
    var pool' := pool[insts[i].opStart := op];
    PoolShrink(insts, pool', i, r);
    SameLinks(insts, insts[i := r], blocks, code);
    PoolSlice(insts, pool', i, 1);
    SameSlice(pool', r, insts[i].(opCount := 1));
    hide ListsOk, PoolOk, OperandsOf;
    assert OperandsOf(pool', r) == [op];
  }

  lemma PoolLengths(insts: seq<InstRec>, pool: seq<Operand>)
    requires PoolOk(insts, pool)
    ensures forall i :: 0 <= i < |insts| ==> |OperandsOf(pool, insts[i])| == insts[i].opCount
  {
    forall i | 0 <= i < |insts|
      ensures |OperandsOf(pool, insts[i])| == insts[i].opCount
    {
      assert SliceOk(insts[i], pool);
    }
  }

  lemma SameLinks(insts: seq<InstRec>, insts': seq<InstRec>, blocks: seq<BlockRec>, code: seq<seq<nat>>)
    requires ListsOk(insts, blocks, code) && |insts'| == |insts|
    requires forall i :: 0 <= i < |insts| ==>
               && insts'[i].block == insts[i].block && insts'[i].prev == insts[i].prev
                  && insts'[i].next == insts[i].next
               && (insts'[i].opcode == NONE <==> insts[i].opcode == NONE)
    ensures ListsOk(insts', blocks, code)
  {
    forall b | 0 <= b < |blocks| ensures ListOk(insts', blocks[b], code[b], b) {
      assert ListOk(insts, blocks[b], code[b], b);
      forall k | 0 <= k < |code[b]| ensures LinkOk(insts', code[b], b, k) { assert LinkOk(insts, code[b], b, k); }
    }
  }

  lemma SameSlices(insts: seq<InstRec>, insts': seq<InstRec>, pool: seq<Operand>)
    requires PoolOk(insts, pool) && |insts'| == |insts|
    requires forall i :: 0 <= i < |insts| ==>
             insts'[i].opStart == insts[i].opStart && insts'[i].opCount == insts[i].opCount
    ensures PoolOk(insts', pool)
  {
    forall i | 0 <= i < |insts'| ensures SliceOk(insts'[i], pool) { assert SliceOk(insts[i], pool); }
    forall i, j | 0 <= i < |insts'| && 0 <= j < |insts'| && i != j ensures Apart(insts'[i], insts'[j]) {
      assert Apart(insts[i], insts[j]);
    }
  }

  lemma UnlinkPool(insts: seq<InstRec>, pool: seq<Operand>, i: nat)
    requires PoolOk(insts, pool) && i < |insts|
    requires insts[i].prev.Some? ==> insts[i].prev.value < |insts|
    requires insts[i].next.Some? ==> insts[i].next.value < |insts|
    requires insts[i].prev != Some(i) && insts[i].next != Some(i)
    ensures PoolOk(UnlinkInsts(insts, i), pool)
    ensures InstsOf(UnlinkInsts(insts, i), pool) ==
            InstsOf(insts, pool)[i := InstOf(insts[i], pool).(opcode := NONE, ops := [])]
  {
    var out := UnlinkInsts(insts, i);
    var cut := insts[i := insts[i].(opCount := 0)];
    PoolShrink(insts, pool, i, cut[i]);
    SameSlices(cut, out, pool);
    assert SliceOk(insts[i], pool);
    hide PoolOk, OperandsOf;
    NoOperands(pool, out[i]);
    forall j | 0 <= j < |insts| && j != i ensures InstOf(out[j], pool) == InstOf(insts[j], pool) {
      SameSlice(pool, out[j], insts[j]);
    }
  }

  /** A live instruction stands in the list of its block. */
  lemma PlaceOf(insts: seq<InstRec>, blocks: seq<BlockRec>, code: seq<seq<nat>>, i: nat) returns (k: nat)
    requires ListsOk(insts, blocks, code) && i < |insts| && insts[i].opcode != NONE
    ensures |code| == |blocks| && insts[i].block < |blocks| && k < |code[insts[i].block]|
            && code[insts[i].block][k] == i
  {
    k :| 0 <= k < |code[insts[i].block]| && code[insts[i].block][k] == i;
  }

  lemma NothingRemoved(f: Function, insts: seq<InstRec>, pool: seq<Operand>, i: nat)
    requires f.insts == InstsOf(insts, pool) && (i >= |insts| || insts[i].opcode == NONE)
    ensures RemoveInst(f, i) == f
  {
    hide Without;
  }

  lemma RemovedFunction(entry: nat, insts: seq<InstRec>, blocks: seq<BlockRec>, code: seq<seq<nat>>, pool: seq<Operand>,
                        vals: seq<Value>, b: nat, k: nat)
    requires ListsOk(insts, blocks, code) && PoolOk(insts, pool) && b < |blocks| == |code| && k < |code[b]|
    requires code[b][k] < |insts| && insts[code[b][k]].opcode != NONE && insts[code[b][k]].block == b
    ensures var r := insts[code[b][k]];
            (r.prev.Some? ==> r.prev.value < |insts|) && (r.next.Some? ==> r.next.value < |insts|)
    ensures var i, r := code[b][k], insts[code[b][k]];
            var insts' := UnlinkInsts(insts, i);
            var blocks', code' := blocks[b := UnlinkBlock(blocks[b], r)], code[b := code[b][..k] + code[b][k + 1..]];
            && ListsOk(insts', blocks', code') && PoolOk(insts', pool) && |insts'| == |insts|
            && Function(entry, BlocksOf(blocks', code'), InstsOf(insts', pool), WithDef(vals, r.result, None)) ==
               RemoveInst(Function(entry, BlocksOf(blocks, code), InstsOf(insts, pool), vals), i)
  {
    hide ListsOk, PoolOk, Without, BlocksOf, InstsOf, UnlinkInsts, UnlinkBlock, NoDuplicates;
    var i := code[b][k];
    RemoveFacts(insts, blocks, code, b, k);
    UnlinkPool(insts, pool, i);
    WithoutAt(code[b], k);
    UnlinkedBlocks(blocks, code, b, insts[i], Without(code[b], i));
    hide ListsOk, PoolOk, Without, BlocksOf, InstsOf, UnlinkInsts, UnlinkBlock;
  }

  lemma UnlinkedBlocks(blocks: seq<BlockRec>, code: seq<seq<nat>>, b: nat, r: InstRec, ids: seq<nat>)
    requires b < |blocks| == |code|
    ensures BlocksOf(blocks[b := UnlinkBlock(blocks[b], r)], code[b := ids]) ==
            BlocksOf(blocks, code)[b := BlocksOf(blocks, code)[b].(code := ids)]
  {
  }

  lemma NoOperands(pool: seq<Operand>, r: InstRec)
    requires r.opCount == 0
    ensures OperandsOf(pool, r) == []
  {
  }

  lemma SameSlice(pool: seq<Operand>, r: InstRec, q: InstRec)
    requires r.opStart == q.opStart && r.opCount == q.opCount
    ensures OperandsOf(pool, r) == OperandsOf(pool, q)
  {
  }

  lemma RemoveFacts(insts: seq<InstRec>, blocks: seq<BlockRec>, code: seq<seq<nat>>, b: nat, k: nat)
    requires ListsOk(insts, blocks, code) && b < |blocks| && k < |code[b]|
    ensures NoDuplicates(code[b]) && code[b][k] < |insts|
    ensures var r := insts[code[b][k]];
            && (r.prev.Some? ==> r.prev.value < |insts|) && (r.next.Some? ==> r.next.value < |insts|)
            && r.prev != Some(code[b][k]) && r.next != Some(code[b][k])
    ensures ListsOk(UnlinkInsts(insts, code[b][k]), blocks[b := UnlinkBlock(blocks[b], insts[code[b][k]])],
                    code[b := code[b][..k] + code[b][k + 1..]])
  {
    UnlinkLists(insts, blocks, code, b, k);
    assert ListOk(insts, blocks[b], code[b], b);
  }

  function AppendedInsts(insts: seq<InstRec>, last: Option<nat>, rec: InstRec): (r: seq<InstRec>)
    requires last.Some? ==> last.value < |insts|
  {
    var s := insts + [rec];
    if last.Some? then s[last.value := s[last.value].(next := Some(|insts|))] else s
  }

  lemma AppendedOps(insts: seq<InstRec>, rec: InstRec, pool: seq<Operand>)
    requires rec.prev.Some? ==> rec.prev.value < |insts|
    ensures InstsOf(AppendedInsts(insts, rec.prev, rec), pool) == InstsOf(insts, pool) + [InstOf(rec, pool)]
  {
  }

  function WithDef(vals: seq<Value>, r: Option<nat>, d: Option<nat>): seq<Value> {
    if r.Some? && r.value < |vals| then vals[r.value := vals[r.value].(def := d)] else vals
  }

  lemma AppendedFunction(entry: nat, insts: seq<InstRec>, blocks: seq<BlockRec>, code: seq<seq<nat>>,
                         pool: seq<Operand>, vals: seq<Value>, b: nat, rec: InstRec, ops: seq<Operand>)
    requires ListsOk(insts, blocks, code) && PoolOk(insts, pool) && b < |blocks| && rec.opcode != NONE && rec.block == b
    requires rec.prev == blocks[b].last && rec.next == None && rec.opStart == |pool| && rec.opCount == |ops|
    ensures |code| == |blocks|
    ensures (blocks[b].first.None? <==> rec.prev.None?) && (rec.prev.Some? ==> rec.prev.value < |insts|)
    ensures ListsOk(AppendedInsts(insts, rec.prev, rec), blocks[b := AppendedBlock(blocks[b], |insts|)],
                    code[b := code[b] + [|insts|]])
    ensures PoolOk(AppendedInsts(insts, rec.prev, rec), pool + ops)
    ensures Function(entry, BlocksOf(blocks[b := AppendedBlock(blocks[b], |insts|)], code[b := code[b] + [|insts|]]),
                     InstsOf(AppendedInsts(insts, rec.prev, rec), pool + ops),
                       WithDef(vals, rec.result, Some(|insts|))) ==
            AppendInst(Function(entry, BlocksOf(blocks, code), InstsOf(insts, pool), vals), b,
                       Instruction(rec.opcode, rec.isVolatile, rec.result, ops, b))
  {
    AppendLists(insts, blocks, code, b, rec);
    AppendPool(insts, pool, ops, rec);
    hide OperandsOf, ListsOk, PoolOk;
    AppendedOps(insts, rec, pool + ops);
    assert InstsOf(insts, pool + ops) == InstsOf(insts, pool);
  }

  function AppendedBlock(blk: BlockRec, id: nat): BlockRec {
    blk.(first := if blk.first.None? then Some(id) else blk.first, last := Some(id), count := blk.count + 1)
  }

  lemma AppendOwn(insts: seq<InstRec>, blk: BlockRec, ids: seq<nat>, b: nat, rec: InstRec)
    requires ListOk(insts, blk, ids, b)
    requires rec.block == b && rec.opcode != NONE && rec.prev == blk.last && rec.next == None
    ensures blk.first.None? <==> blk.last.None?
    ensures rec.prev.Some? ==> |ids| > 0 && rec.prev.value == ids[|ids| - 1] < |insts|
    ensures ListOk(AppendedInsts(insts, rec.prev, rec), AppendedBlock(blk, |insts|), ids + [|insts|], b)
  {
    forall k | 0 <= k < |ids| ensures ids[k] < |insts| { assert LinkOk(insts, ids, b, k); }
    var insts', ids' := AppendedInsts(insts, rec.prev, rec), ids + [|insts|];
    forall k | 0 <= k < |ids'| ensures LinkOk(insts', ids', b, k) {
      if k < |ids| { assert LinkOk(insts, ids, b, k); }
    }
  }

  lemma AppendOther(insts: seq<InstRec>, blocks: seq<BlockRec>, code: seq<seq<nat>>, b: nat, rec: InstRec, c: nat)
    requires ListsOk(insts, blocks, code) && b < |blocks| && c < |blocks| && b != c
    requires rec.prev.Some? ==> |code[b]| > 0 && rec.prev.value == code[b][|code[b]| - 1] < |insts|
    ensures ListOk(AppendedInsts(insts, rec.prev, rec), blocks[c], code[c], c)
  {
    forall k | 0 <= k < |code[c]| ensures LinkOk(AppendedInsts(insts, rec.prev, rec), code[c], c, k) {
      assert LinkOk(insts, code[c], c, k);
      if rec.prev.Some? { ListsApart(insts, blocks, code, b, c, k); }
    }
  }

  lemma AppendLists(insts: seq<InstRec>, blocks: seq<BlockRec>, code: seq<seq<nat>>, b: nat, rec: InstRec)
    requires ListsOk(insts, blocks, code) && b < |blocks|
    requires rec.block == b && rec.opcode != NONE && rec.prev == blocks[b].last && rec.next == None
    ensures blocks[b].first.None? <==> blocks[b].last.None?
    ensures rec.prev.Some? ==> rec.prev.value < |insts|
    ensures ListsOk(AppendedInsts(insts, rec.prev, rec), blocks[b := AppendedBlock(blocks[b], |insts|)],
                    code[b := code[b] + [|insts|]])
  {
    var id, ids := |insts|, code[b];
    AppendOwn(insts, blocks[b], ids, b, rec);
    var insts', blocks', code' := AppendedInsts(insts, rec.prev, rec), blocks[b := AppendedBlock(blocks[b], id)],
                                  code[b := ids + [id]];
    forall c | 0 <= c < |blocks'| ensures ListOk(insts', blocks'[c], code'[c], c) {
      if c != b { AppendOther(insts, blocks, code, b, rec, c); }
    }
    hide LinkOk, ListOk;
    forall j | 0 <= j < |insts'| && insts'[j].opcode != NONE
      ensures insts'[j].block < |blocks'| && j in code'[insts'[j].block]
    {
      if j < id {
        assert insts[j].opcode != NONE && insts'[j].block == insts[j].block;
        var m :| 0 <= m < |code[insts[j].block]| && code[insts[j].block][m] == j;
        assert code'[insts[j].block][m] == j;
      } else {
        assert code'[b][|ids|] == id;
      }
    }
  }

  lemma AppendPool(insts: seq<InstRec>, pool: seq<Operand>, ops: seq<Operand>, rec: InstRec)
    requires PoolOk(insts, pool) && rec.opStart == |pool| && rec.opCount == |ops|
    requires rec.prev.Some? ==> rec.prev.value < |insts|
    ensures PoolOk(AppendedInsts(insts, rec.prev, rec), pool + ops)
    ensures OperandsOf(pool + ops, rec) == ops
    ensures forall j :: 0 <= j < |insts| ==> OperandsOf(pool + ops, insts[j]) == OperandsOf(pool, insts[j])
  {
    hide SliceOk, Apart, OperandsOf, AppendedInsts;
    var all, pool' := insts + [rec], pool + ops;
    NewSlice(pool, ops, rec);
    forall j | 0 <= j < |insts|
      ensures SliceOk(all[j], pool') && OperandsOf(pool', insts[j]) == OperandsOf(pool, insts[j])
    {
      OldSlice(pool, ops, insts[j]);
    }
    forall j, k | 0 <= j < |all| && 0 <= k < |all| && j != k ensures Apart(all[j], all[k]) {
      if j < |insts| && k < |insts| {
        assert Apart(insts[j], insts[k]);
      } else {
        SliceBefore(pool, insts[if j < |insts| then j else k], rec);
      }
    }
    AppendedSlices(insts, rec);
    SameSlices(all, AppendedInsts(insts, rec.prev, rec), pool');
  }

  lemma NewSlice(pool: seq<Operand>, ops: seq<Operand>, rec: InstRec)
    requires rec.opStart == |pool| && rec.opCount == |ops|
    ensures SliceOk(rec, pool + ops) && OperandsOf(pool + ops, rec) == ops
  {
  }

  lemma OldSlice(pool: seq<Operand>, ops: seq<Operand>, r: InstRec)
    requires SliceOk(r, pool)
    ensures SliceOk(r, pool + ops) && OperandsOf(pool + ops, r) == OperandsOf(pool, r)
  {
  }

  lemma SliceBefore(pool: seq<Operand>, r: InstRec, rec: InstRec)
    requires SliceOk(r, pool) && rec.opStart == |pool|
    ensures Apart(r, rec) && Apart(rec, r)
  {
  }

  lemma AppendedSlices(insts: seq<InstRec>, rec: InstRec)
    requires rec.prev.Some? ==> rec.prev.value < |insts|
    ensures var all, out := insts + [rec], AppendedInsts(insts, rec.prev, rec);
            |out| == |all| && forall i :: 0 <= i < |all| ==>
              out[i].opStart == all[i].opStart && out[i].opCount == all[i].opCount
  {
  }

  lemma RenameSame(f: Function, x: nat)
    ensures ReplaceUses(f, x, x) == f
  {
    forall i | 0 <= i < |f.insts| ensures ReplaceUses(f, x, x).insts[i] == f.insts[i] {
      assert Renamed(f.insts[i].ops, x, x) == f.insts[i].ops;
    }
    assert ReplaceUses(f, x, x).insts == f.insts;
  }

  lemma PoolCell(insts: seq<InstRec>, pool: seq<Operand>, i: nat, k: nat)
    requires PoolOk(insts, pool) && i < |insts| && k < insts[i].opCount
    ensures insts[i].opStart + k < |pool| && |OperandsOf(pool, insts[i])| == insts[i].opCount
    ensures OperandsOf(pool, insts[i])[k] == pool[insts[i].opStart + k]
  {
    assert SliceOk(insts[i], pool);
  }

  lemma PoolSlice(insts: seq<InstRec>, pool: seq<Operand>, i: nat, w: nat)
    requires PoolOk(insts, pool) && i < |insts| && w <= insts[i].opCount
    ensures |OperandsOf(pool, insts[i])| == insts[i].opCount
    ensures OperandsOf(pool, insts[i].(opCount := w)) == OperandsOf(pool, insts[i])[..w]
  {
    assert SliceOk(insts[i], pool);
  }

  lemma SameBlocks(insts: seq<InstRec>, blocks: seq<BlockRec>, blocks': seq<BlockRec>, code: seq<seq<nat>>)
    requires ListsOk(insts, blocks, code) && |blocks'| == |blocks|
    requires forall b :: 0 <= b < |blocks| ==>
               blocks'[b].first == blocks[b].first && blocks'[b].last == blocks[b].last
                 && blocks'[b].count == blocks[b].count
    ensures ListsOk(insts, blocks', code)
  {
    hide LinkOk;
    forall b | 0 <= b < |blocks| ensures ListOk(insts, blocks'[b], code[b], b) {
      assert ListOk(insts, blocks[b], code[b], b);
    }
  }

  /** Following the links from the head of block b visits its list in order. */
  lemma StartOfList(insts: seq<InstRec>, blocks: seq<BlockRec>, code: seq<seq<nat>>, b: nat)
    requires ListsOk(insts, blocks, code) && b < |blocks|
    ensures |code| == |blocks| && blocks[b].first == At(code[b], 0) && NoDuplicates(code[b])
    ensures forall k :: 0 <= k < |code[b]| ==> code[b][k] < |insts|
  {
    assert ListOk(insts, blocks[b], code[b], b);
    forall k | 0 <= k < |code[b]| ensures code[b][k] < |insts| { assert LinkOk(insts, code[b], b, k); }
  }

  lemma ListWalk(insts: seq<InstRec>, blocks: seq<BlockRec>, code: seq<seq<nat>>, b: nat, k: nat)
    requires ListsOk(insts, blocks, code) && b < |blocks| && k < |code[b]|
    ensures code[b][k] < |insts| && insts[code[b][k]].next == At(code[b], k + 1)
    ensures insts[code[b][k]].block == b && insts[code[b][k]].opcode != NONE
    ensures NoDuplicates(code[b])
  {
    assert ListOk(insts, blocks[b], code[b], b);
    assert LinkOk(insts, code[b], b, k);
  }

  /** The leading PHIs of block b carry whole pairs. */
  ghost predicate EvenPhis(f: Function, b: nat) {
    b < |f.blocks| ==>
      forall k :: 0 <= k < LeadingPhis(f, f.blocks[b].code) ==> |f.insts[f.blocks[b].code[k]].ops| % 2 == 0
  }

  lemma {:induction false} PrefixIsPhis(f: Function, ids: seq<nat>, k: nat)
    requires k < |ids| && AllPhis(f, ids, k) && ids[k] < |f.insts| && f.insts[ids[k]].opcode == PHI
    ensures k < LeadingPhis(f, ids)
    decreases |ids|
  {
    if k > 0 { PrefixIsPhis(f, ids[1..], k - 1); }
  }

  lemma {:induction false} LeadingPhisIs(f: Function, ids: seq<nat>, k: nat)
    requires AllPhis(f, ids, k)
    requires k < |ids| ==> ids[k] >= |f.insts| || f.insts[ids[k]].opcode != PHI
    ensures LeadingPhis(f, ids) == k
    decreases |ids|
  {
    if k > 0 { LeadingPhisIs(f, ids[1..], k - 1); }
  }

  lemma {:induction false} DropPairsNone(ops: seq<Operand>, p: nat)
    requires forall j :: 0 <= j < |ops| && j % 2 == 1 ==> ops[j] != OpBlock(p)
    ensures DropPairs(ops, p) == ops
  {
    if |ops| >= 2 {
      forall j | 0 <= j < |ops[2..]| && j % 2 == 1
        ensures ops[2..][j] != OpBlock(p)
      {
        assert ops[2..][j] == ops[j + 2];
      }
      DropPairsNone(ops[2..], p);
    }
  }

  lemma {:induction false} DropPairsAppend(ops: seq<Operand>, k: nat, p: nat)
    requires k % 2 == 0 && k + 1 < |ops|
    ensures DropPairs(ops[..k + 2], p) == DropPairs(ops[..k], p) + if ops[k + 1] == OpBlock(p) then []
            else [ops[k], ops[k + 1]]
    decreases k
  {
    if k > 0 {
      DropPairsAppend(ops[2..], k - 2, p);
      assert ops[2..][..k] == ops[..k + 2][2..] && ops[2..][..k - 2] == ops[..k][2..];
      assert ops[..k + 2][..2] == ops[..k][..2];
    } else {
      assert ops[..2][2..] == [];
    }
  }

  /** Swap removal in place: the first occurrence is overwritten by the last element. */
  method SwapOut(s: seq<nat>, x: nat) returns (r: seq<nat>)
    ensures r == SwapRemove(s, x)
  {
    var i := 0;
    while i < |s|
      invariant 0 <= i <= |s| && SwapRemove(s, x) == SwapRemoveFrom(s, x, i)
    {
      if s[i] == x {
        return s[i := s[|s| - 1]][..|s| - 1];
      }
      i := i + 1;
    }
    return s;
  }
}
