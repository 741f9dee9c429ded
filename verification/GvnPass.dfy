/** ny_opt_pass_gvn (src/opt/gvn.c) on the stored function. */
module GvnPass {
  import opened Opcodes
  import opened Cfg
  import opened Dominators
  import opened Ir
  import opened FunctionStore
  import opened GvnKeys
  import opened GvnSound
  import opened Gvn
  import opened GvnComplete

  /** The graph of the stored function, read off its edge lists. */
  method ReadGraph(store: Store) returns (g: Graph)
    requires store.Valid()
    ensures g == GraphOf(store.Snapshot())
  {
    g := Graph(store.entry,
               seq(|store.blocks|, b requires 0 <= b < |store.blocks| reads store => store.blocks[b].succs),
               seq(|store.blocks|, b requires 0 <= b < |store.blocks| reads store => store.blocks[b].preds));
    ghost var f := store.Snapshot();
    assert |f.blocks| == |store.blocks| by { CodeLength(store.insts, store.blocks, store.code); }
    assert g.succs == GraphOf(f).succs && g.preds == GraphOf(f).preds;
  }

  lemma CodeLength(insts: seq<InstRec>, blocks: seq<BlockRec>, code: seq<seq<nat>>)
    requires ListsOk(insts, blocks, code)
    ensures |code| == |blocks|
  {
  }

  /** The linear search of the table. */
  method Search(table: seq<Entry>, key: Key, b: nat, t: Tree, ghost g: Graph) returns (m: nat)
    requires IsDominatorTree(g, t)
    ensures m == FindMatch(g, table, key, b, 0)
  {
    hide IsDominatorTree, Reachable, Dominates, KeyEqual;
    m := 0;
    while m < |table|
      invariant 0 <= m <= |table| && FindMatch(g, table, key, b, 0) == FindMatch(g, table, key, b, m)
    {
      if KeyEqual(table[m].key, key) {
        var canReplace := QueryDominates(t, table[m].blk, b, g);
        if canReplace { return; }
      }
      m := m + 1;
    }
  }

  /** What the record under the cursor says about the function. */
  lemma CursorFacts(insts: seq<InstRec>, pool: seq<Operand>, blocks: seq<BlockRec>, code: seq<seq<nat>>, f: Function,
                    b: nat, n: nat)
    requires ListsOk(insts, blocks, code) && b < |blocks| && n < |code[b]|
    requires f.blocks == BlocksOf(blocks, code) && f.insts == InstsOf(insts, pool)
    ensures |f.blocks| == |blocks| && f.blocks[b].code == code[b]
    ensures HasInst(f, b, n) && InstAt(f, b, n) == InstOf(insts[code[b][n]], pool) && InstAt(f, b, n).opcode != NONE
    ensures code[b][n] < |insts| && insts[code[b][n]].next == At(code[b], n + 1)
  {
    ListWalk(insts, blocks, code, b, n);
  }

  lemma StartFacts(insts: seq<InstRec>, pool: seq<Operand>, blocks: seq<BlockRec>, code: seq<seq<nat>>, f: Function)
    requires ListsOk(insts, blocks, code)
    requires f.blocks == BlocksOf(blocks, code) && f.insts == InstsOf(insts, pool) && f.entry < |blocks|
    ensures |code| == |blocks| && CodeOk(f)
    ensures forall b :: 0 <= b < |blocks| ==> blocks[b].first == At(code[b], 0)
  {
    forall b | 0 <= b < |blocks| ensures blocks[b].first == At(code[b], 0) && NoDuplicates(code[b]) {
      assert ListOk(insts, blocks[b], code[b], b);
    }
    forall b, k | 0 <= b < |blocks| && 0 <= k < |code[b]| ensures code[b][k] < |insts| && insts[code[b][k]].block == b {
      ListWalk(insts, blocks, code, b, k);
    }
  }

  /** One turn of the walk at instruction i, the n-th of block b. */
  method VisitInst(store: Store, table: seq<Entry>, b: nat, i: nat, t: Tree, ghost n: nat)
    returns (table': seq<Entry>, ghost n': nat)
    requires store.Valid() && CodeOk(store.Snapshot()) && b < |store.blocks|
             && IsDominatorTree(GraphOf(store.Snapshot()), t)
    requires HasInst(store.Snapshot(), b, n) && store.Snapshot().blocks[b].code[n] == i
    requires i < |store.insts| && InstAt(store.Snapshot(), b, n) == InstOf(store.insts[i], store.pool)
    modifies store
    ensures store.Valid() && Pass(store.Snapshot(), table', n') == Visit(old(store.Snapshot()), table, b, n)
  {
    ghost var f := store.Snapshot();
    hide ListsOk, PoolOk, IsDominatorTree, FindMatch, IsGvnCandidate, KeyOf, CodeOk;
    var inst := InstOf(store.insts[i], store.pool);
    if inst.result.Some? && IsGvnCandidate(inst.opcode) && !inst.isVolatile {
      var x := inst.result.value;
      var ty := if x < |store.vals| then store.vals[x].ty else 0;
      var key := KeyOf(ty, inst);
      assert key == MakeKey(f, inst);
      var m := Search(table, key, b, t, GraphOf(f));
      if m < |table| {
        store.ReplaceAllUses(x, table[m].val);
        store.RemoveInstruction(i);
        return table, n;
      }
      return table + [Entry(key, x, b)], n + 1;
    }
    return table, n + 1;
  }

  /** The walk over block b, following the links; the next link is read before the instruction may go. */
  method WalkBlock(store: Store, table: seq<Entry>, b: nat, t: Tree) returns (table': seq<Entry>)
    requires store.Valid() && CodeOk(store.Snapshot()) && b < |store.Snapshot().blocks|
    requires IsDominatorTree(GraphOf(store.Snapshot()), t)
    modifies store
    ensures store.Valid() && CodeOk(store.Snapshot()) && |store.Snapshot().blocks| == |old(store.Snapshot()).blocks|
    ensures GraphOf(store.Snapshot()) == GraphOf(old(store.Snapshot()))
    ensures store.Snapshot() == GvnBlock(old(store.Snapshot()), table, b, 0).f
            && table' == GvnBlock(old(store.Snapshot()), table, b, 0).table
  {
    hide ListsOk, PoolOk, IsDominatorTree, Visit, CodeOk;
    ghost var f0 := store.Snapshot();
    table' := table;
    ghost var n: nat := 0;
    SnapshotSizes(store);
    EntryFits(f0);
    StartFacts(store.insts, store.pool, store.blocks, store.code, f0);
    var curr := store.blocks[b].first;
    while curr.Some?
      invariant store.Valid() && CodeOk(store.Snapshot()) && |store.Snapshot().blocks| == |f0.blocks|
      invariant n <= |store.Snapshot().blocks[b].code| && curr == At(store.Snapshot().blocks[b].code, n)
      invariant GraphOf(store.Snapshot()) == GraphOf(f0)
      invariant GvnBlock(f0, table, b, 0) == GvnBlock(store.Snapshot(), table', b, n)
      decreases |store.Snapshot().blocks[b].code| - n
    {
      ghost var f := store.Snapshot();
      SnapshotSizes(store);
      CursorFacts(store.insts, store.pool, store.blocks, store.code, f, b, n);
      VisitKeepsCode(f, table', b, n);
      GraphStays(f, table', b, n);
      NextCursor(f, table', b, n);
      var next := store.insts[curr.value].next;
      table', n := VisitInst(store, table', b, curr.value, t, n);
      curr := next;
    }
  }

  lemma SnapshotSizes(store: Store)
    requires store.Valid()
    ensures |store.Snapshot().blocks| == |store.blocks| && |store.Snapshot().insts| == |store.insts|
    ensures |store.code| == |store.blocks|
    ensures forall b :: 0 <= b < |store.blocks| ==> store.Snapshot().blocks[b].code == store.code[b]
  {
    CodeLength(store.insts, store.blocks, store.code);
  }

  lemma EntryFits(f: Function)
    requires CodeOk(f)
    ensures f.entry < |f.blocks|
  {
  }

  /** The link read beforehand points to where the walk goes on. */
  lemma NextCursor(f: Function, table: seq<Entry>, b: nat, n: nat)
    requires CodeOk(f) && HasInst(f, b, n) && |Visit(f, table, b, n).f.blocks| == |f.blocks|
    ensures var v := Visit(f, table, b, n); At(v.f.blocks[b].code, v.n) == At(f.blocks[b].code, n + 1)
  {
    var i, inst := f.blocks[b].code[n], InstAt(f, b, n);
    if IsCandidate(f, inst) {
      var m := FindMatch(GraphOf(f), table, MakeKey(f, inst), b, 0);
      if m < |table| {
        CandidateIsPlain(inst);
        ShareKeepsCode(f, b, n, inst.result.value, table[m].val);
      }
    }
  }

  /**
   * The pass: block by block in order of their ids, one table for all. Where ids follow dominance no expression stands
   * below an equal one when it is done.
   */
  method Run(store: Store)
    requires store.Valid() && CodeOk(store.Snapshot()) && WellFormed(GraphOf(store.Snapshot()))
    modifies store
    ensures store.Valid() && store.Snapshot() == ValueNumbered(old(store.Snapshot()))
    ensures Ready(old(store.Snapshot())) && IdsFollowDominance(old(store.Snapshot())) ==>
              NothingLeft(store.Snapshot())
  {
    hide ListsOk, PoolOk, IsDominatorTree, GvnBlock, CodeOk, WellFormed, Ready, IdsFollowDominance, NothingLeft;
    ghost var f0 := store.Snapshot();
    var g := ReadGraph(store);
    var t := BuildDominatorTree(g);
    var table: seq<Entry> := [];
    SnapshotSizes(store);
    var b, count := 0, |store.blocks|;
    while b < count
      invariant store.Valid() && CodeOk(store.Snapshot()) && 0 <= b <= count == |store.Snapshot().blocks|
      invariant GraphOf(store.Snapshot()) == g
      invariant ValueNumbered(f0) == GvnBlocks(store.Snapshot(), table, b)
    {
      table := WalkBlock(store, table, b, t);
      b := b + 1;
    }
    if Ready(f0) && IdsFollowDominance(f0) { NumberingIsComplete(f0); }
  }
}
