/** ny_opt_pass_dce (src/opt/dce.c) on the stored function: counts, a worklist, and removals. */
module DcePass {
  import opened Opcodes
  import opened IntFold
  import opened Cfg
  import opened Ir
  import opened IrEdit
  import opened FunctionStore
  import opened UseDef
  import opened RunEdits
  import opened RemoveAccept
  import opened Dce
  import opened DceSilent

  /** The use-def information describes f. */
  ghost predicate Describes(ud: UseDefs, f: Function) {
    && |ud.defInst| == |f.vals| && |ud.uses.start| == |f.vals| && ud.uses.Valid()
    && (forall v :: 0 <= v < |f.vals| ==> ud.defInst[v] == DefBelow(f, v, |f.insts|))
    && (forall v: nat {:trigger ud.uses.count[v]} :: v < |f.vals| ==> ud.uses.count[v] == |UsesBelow(f, v, |f.insts|)|)
  }

  lemma {:induction false} OpUsesCount(i: nat, ops: seq<Operand>, v: nat, k: nat)
    requires k <= |ops|
    ensures |OpUses(i, ops, v, k)| == Occurs(ops, v, k)
  {
    if k > 0 { OpUsesCount(i, ops, v, k - 1); }
  }

  lemma {:induction false} UsesCount(f: Function, v: nat, n: nat)
    requires n <= |f.insts|
    ensures |UsesBelow(f, v, n)| == UseCount(f, v, n)
  {
    hide OpUses, Occurs;
    if n > 0 {
      UsesCount(f, v, n - 1);
      OpUsesCount(n - 1, f.insts[n - 1].ops, v, |f.insts[n - 1].ops|);
    }
  }

  // ---------------------------------------------------------------- the loop's facts

  /** Lists hold the live instructions, and results are unique. */
  ghost predicate Tidy(f: Function) {
    CodeOk(f) && ResultsOk(f) && forall i: nat :: Live(f, i) <==> Listed(f, i)
  }

  /** f is what is left of f0. */
  ghost predicate LeftOf(f0: Function, f: Function) {
    && |f.insts| == |f0.insts| && |f.vals| == |f0.vals|
    && (forall i: nat :: Live(f, i) ==> f.insts[i] == f0.insts[i])
    && (forall s :: Closed(f0, s) ==> s <= Survivors(f))
  }

  ghost predicate Exact(f: Function, counts: seq<nat>) {
    |counts| == |f.vals| && forall v: nat {:trigger counts[v]} :: v < |counts| ==> counts[v] == Uses(f, v)
  }

  /** Instruction i is dead now: pure, and nobody reads its result. */
  ghost predicate IsDead(f: Function, counts: seq<nat>, i: nat)
    requires |counts| == |f.vals|
  {
    IsPure(f, i) && counts[f.insts[i].result.value] == 0
  }

  /** The worklist holds every dead instruction but skip, and nothing that could come back to life. */
  ghost predicate WorkOk(f: Function, counts: seq<nat>, work: seq<nat>, skip: set<nat>) {
    && |counts| == |f.vals|
    && (forall i :: i in work ==> i < |f.insts| && (f.insts[i].opcode == NONE || IsDead(f, counts, i)))
    && (forall i: nat :: IsDead(f, counts, i) && i !in skip ==> i in work)
  }

  /** While instruction i is being taken out: its first k operands are off the counts. */
  ghost predicate Half(f: Function, counts: seq<nat>, i: nat, k: nat) {
    && i < |f.insts| && k <= |f.insts[i].ops| && |counts| == |f.vals|
    && forall v: nat {:trigger counts[v]} :: v < |counts| ==> counts[v] + Occurs(f.insts[i].ops, v, k) == Uses(f, v)
  }

  lemma SideEffectsSeen(inst: Instruction)
    requires !HasSideEffects(inst)
    ensures !IsTerminator(inst.opcode) && !IsObservable(inst)
  {
  }

  lemma DeadIsRemovable(f: Function, counts: seq<nat>, i: nat)
    requires Tidy(f) && Exact(f, counts) && IsDead(f, counts, i)
    ensures CanRemove(f, i)
  {
    var b := f.insts[i].block;
    assert Listed(f, i);
    var n: nat :| n < |f.blocks[b].code| && f.blocks[b].code[n] == i;
    SideEffectsSeen(f.insts[i]);
    var x := f.insts[i].result.value;
    assert counts[x] == Uses(f, x);
    ReadIffCounted(f, x);
    forall m: nat | Listed(f, m) && m != i ensures OpValue(x) !in f.insts[m].ops { assert Live(f, m); }
    hide CodeOk, ResultsOk, IsObservable, IsTerminator, HasSideEffects, Uses;
    assert Removable(f, i, b, n);
  }

  lemma {:induction false} OccursGrow(ops: seq<Operand>, v: nat, j: nat, k: nat)
    requires j <= k <= |ops|
    ensures Occurs(ops, v, j) <= Occurs(ops, v, k)
    decreases k
  {
    if j < k { OccursGrow(ops, v, j, k - 1); }
  }

  lemma {:induction false} OccursCounted(f: Function, i: nat, v: nat, n: nat)
    requires Live(f, i) && i < n <= |f.insts|
    ensures Occurs(f.insts[i].ops, v, |f.insts[i].ops|) <= UseCount(f, v, n)
    decreases n
  {
    hide Occurs;
    if i < n - 1 { OccursCounted(f, i, v, n - 1); }
  }

  /** The next operand that reads v: its count is positive, and goes down by one. */
  lemma TakeOperand(f: Function, counts: seq<nat>, i: nat, k: nat, v: nat)
    requires Half(f, counts, i, k) && Live(f, i) && k < |f.insts[i].ops| && f.insts[i].ops[k] == OpValue(v)
             && v < |counts|
    ensures counts[v] > 0 && Half(f, counts[v := counts[v] - 1], i, k + 1)
  {
    OccursGrow(f.insts[i].ops, v, k + 1, |f.insts[i].ops|);
    OccursCounted(f, i, v, |f.insts|);
    assert counts[v] + Occurs(f.insts[i].ops, v, k) == Uses(f, v);
    var counts' := counts[v := counts[v] - 1];
    forall u: nat | u < |counts'| ensures counts'[u] + Occurs(f.insts[i].ops, u, k + 1) == Uses(f, u) {
      assert counts[u] + Occurs(f.insts[i].ops, u, k) == Uses(f, u);
    }
  }

  /** An operand that is no countable value leaves the counts alone. */
  lemma SkipOperand(f: Function, counts: seq<nat>, i: nat, k: nat)
    requires Half(f, counts, i, k) && k < |f.insts[i].ops|
    requires f.insts[i].ops[k].OpValue? ==> f.insts[i].ops[k].val >= |counts|
    ensures Half(f, counts, i, k + 1)
  {
    forall u: nat | u < |counts| ensures counts[u] + Occurs(f.insts[i].ops, u, k + 1) == Uses(f, u) {
      assert counts[u] + Occurs(f.insts[i].ops, u, k) == Uses(f, u);
    }
  }

  lemma StillCounted(f: Function, counts: seq<nat>, work: seq<nat>, skip: set<nat>, v: nat)
    requires WorkOk(f, counts, work, skip) && v < |counts| && counts[v] > 1
    ensures WorkOk(f, counts[v := counts[v] - 1], work, skip)
  {
    hide HasSideEffects;
    var counts' := counts[v := counts[v] - 1];
    forall j: nat ensures IsDead(f, counts', j) <==> IsDead(f, counts, j) {
    }
  }

  /** The one live instruction that defines v is the one the use-def information names. */
  lemma DefinesIs(f0: Function, f: Function, v: nat, j: nat)
    requires Tidy(f0) && LeftOf(f0, f) && v < |f.vals| && Live(f, j) && f.insts[j].result == Some(v)
    ensures DefBelow(f0, v, |f0.insts|) == Some(j)
  {
    assert Live(f0, j);
    var d := DefBelow(f0, v, |f0.insts|).value;
    assert Live(f0, d);
  }

  /** v has lost its last reader: its definition joins the worklist, unless it has side effects. */
  lemma LastReaderGone(f0: Function, f: Function, counts: seq<nat>, work: seq<nat>, i: nat, v: nat)
    requires Tidy(f0) && LeftOf(f0, f) && WorkOk(f, counts, work, {i}) && v < |counts| && counts[v] == 1
    ensures var d := DefBelow(f0, v, |f0.insts|);
            var counts' := counts[v := 0];
            if d.Some? && !HasSideEffects(f.insts[d.value]) then WorkOk(f, counts', work + [d.value], {i})
            else WorkOk(f, counts', work, {i})
  {
    var d := DefBelow(f0, v, |f0.insts|);
    var counts' := counts[v := 0];
    forall j: nat | IsDead(f, counts', j) && f.insts[j].result.value == v ensures d == Some(j) {
      DefinesIs(f0, f, v, j);
    }
    hide Tidy, LeftOf, HasSideEffects, DefBelow;
    if d.Some? && !HasSideEffects(f.insts[d.value]) {
      assert f.insts[d.value].opcode == NONE || IsDead(f, counts', d.value) by {
        DefIsDead(f0, f, counts', v, d.value);
      }
    }
  }

  lemma DefIsDead(f0: Function, f: Function, counts: seq<nat>, v: nat, d: nat)
    requires LeftOf(f0, f) && |counts| == |f.vals| && v < |counts| && counts[v] == 0
    requires DefBelow(f0, v, |f0.insts|) == Some(d) && !HasSideEffects(f.insts[d])
    ensures f.insts[d].opcode == NONE || IsDead(f, counts, d)
  {
    if Live(f, d) { assert f.insts[d] == f0.insts[d]; }
  }

  /** A pure member of a closed set still has a reader. */
  lemma MemberIsRead(f0: Function, f: Function, i: nat, s: set<nat>)
    requires LeftOf(f0, f) && IsPure(f, i) && Closed(f0, s) && i in s
    ensures Uses(f, f.insts[i].result.value) > 0
  {
    var r := f.insts[i].result.value;
    hide Uses, HasSideEffects;
    assert f0.insts[i] == f.insts[i] && s <= Survivors(f);
    var j: nat :| j in s && j < |f0.insts| && OpValue(r) in f0.insts[j].ops;
    assert Live(f, j) && f.insts[j] == f0.insts[j];
    ReadIffCounted(f, r);
  }

  /** A dead instruction is in no closed set. */
  lemma DeadNotClosed(f0: Function, f: Function, counts: seq<nat>, i: nat, s: set<nat>)
    requires LeftOf(f0, f) && Exact(f, counts) && IsDead(f, counts, i) && Closed(f0, s)
    ensures i !in s
  {
    assert counts[f.insts[i].result.value] == Uses(f, f.insts[i].result.value);
    if i in s { MemberIsRead(f0, f, i, s); }
  }

  lemma RemovedFacts(f: Function, i: nat)
    requires CanRemove(f, i)
    ensures exists b: nat, n: nat :: Removed(f, i, b, n, RemoveInst(f, i)) && Removable(f, i, b, n)
  {
    hide Removable, Removed, RemoveInst;
    var b: nat, n: nat :| Removable(f, i, b, n);
    assert Removed(f, i, b, n, RemoveInst(f, i)) by {
      RemovableFacts(f, i, b, n);
      RemovableLive(f, i, b, n);
      RemoveIsRemoved(f, i, b, n);
    }
  }

  lemma RemovableLive(f: Function, i: nat, b: nat, n: nat)
    requires Removable(f, i, b, n)
    ensures i < |f.insts| && f.insts[i].opcode != NONE
  {
  }

  lemma RemovedTidy(f: Function, i: nat, b: nat, n: nat, g: Function)
    requires Tidy(f) && Removed(f, i, b, n, g) && Removable(f, i, b, n)
    ensures Tidy(g)
  {
    RemoveKeepsCode(f, i, b, n, g);
    assert Listed(f, i) by { assert f.blocks[b].code[n] in f.blocks[b].code; }
    hide CodeOk, Listed, IsObservable, IsTerminator, Unread;
  }

  lemma RemovedExact(f: Function, i: nat, b: nat, n: nat, g: Function, counts: seq<nat>, work: seq<nat>)
    requires Removed(f, i, b, n, g) && Half(f, counts, i, |f.insts[i].ops|) && Live(f, i)
             && WorkOk(f, counts, work, {i})
    ensures Exact(g, counts) && WorkOk(g, counts, work, {})
  {
    forall v: nat | v < |counts| ensures counts[v] == Uses(g, v) {
      assert counts[v] + Occurs(f.insts[i].ops, v, |f.insts[i].ops|) == Uses(f, v);
      RemoveCounts(f, g, i, v, |f.insts|);
    }
    hide HasSideEffects, Uses, Occurs;
    forall j: nat | IsDead(g, counts, j) ensures j in work { assert j != i && IsDead(f, counts, j); }
    forall j | j in work ensures g.insts[j].opcode == NONE || IsDead(g, counts, j) {
      if j != i && f.insts[j].opcode != NONE { assert IsDead(f, counts, j); }
    }
  }

  lemma RemovedLeft(f0: Function, f: Function, i: nat, b: nat, n: nat, g: Function)
    requires LeftOf(f0, f) && Removed(f, i, b, n, g) && forall s :: Closed(f0, s) ==> i !in s
    ensures LeftOf(f0, g)
  {
    hide Closed;
    forall s | Closed(f0, s) ensures s <= Survivors(g) {
      forall j | j in s ensures Live(g, j) { assert j in Survivors(f) && j != i; }
    }
  }

  /** Taking instruction i out, once its operands are off the counts. */
  lemma RemovalKeeps(f0: Function, f: Function, i: nat, counts: seq<nat>, work: seq<nat>)
    requires Tidy(f) && LeftOf(f0, f) && CanRemove(f, i) && (forall s :: Closed(f0, s) ==> i !in s)
    requires Live(f, i) && Half(f, counts, i, |f.insts[i].ops|) && WorkOk(f, counts, work, {i})
    ensures var g := RemoveInst(f, i);
            Tidy(g) && LeftOf(f0, g) && Exact(g, counts) && WorkOk(g, counts, work, {}) && Survivors(g) < Survivors(f)
  {
    RemovedFacts(f, i);
    var g := RemoveInst(f, i);
    var b: nat, n: nat :| Removed(f, i, b, n, g) && Removable(f, i, b, n);
    RemovedTidy(f, i, b, n, g);
    RemovedExact(f, i, b, n, g, counts, work);
    RemovedLeft(f0, f, i, b, n, g);
    assert i in Survivors(f) && i !in Survivors(g);
    hide Tidy, LeftOf, Exact, WorkOk, Half, Removable;
  }

  /** An empty worklist: what is left is the greatest closed set. */
  lemma NothingDead(f0: Function, f: Function, counts: seq<nat>)
    requires LeftOf(f0, f) && Exact(f, counts) && WorkOk(f, counts, [], {})
    ensures IsGreatestClosed(f0, Survivors(f))
  {
    var s := Survivors(f);
    hide HasSideEffects, Uses;
    forall i | i in s && IsPure(f0, i) ensures HasReader(f0, s, f0.insts[i].result.value) {
      var r := f0.insts[i].result.value;
      assert f.insts[i] == f0.insts[i] && IsPure(f, i) && !IsDead(f, counts, i);
      assert counts[r] == Uses(f, r);
      ReadIffCounted(f, r);
      var j: nat :| Live(f, j) && OpValue(r) in f.insts[j].ops;
      assert j in s && f0.insts[j] == f.insts[j];
    }
    forall i | i in s ensures Live(f0, i) { assert Live(f, i) && f.insts[i] == f0.insts[i]; }
  }

  // ---------------------------------------------------------------- the pass

  /** What the record of instruction i says. */
  lemma RecordFacts(insts: seq<InstRec>, pool: seq<Operand>, f: Function, i: nat)
    requires PoolOk(insts, pool) && f.insts == InstsOf(insts, pool) && i < |insts|
    ensures |f.insts| == |insts| && f.insts[i].opcode == insts[i].opcode && f.insts[i].result == insts[i].result
    ensures HasSideEffects(f.insts[i]) == HasSideEffects(InstOf(insts[i], pool))
    ensures |f.insts[i].ops| == insts[i].opCount && insts[i].opStart + insts[i].opCount <= |pool|
    ensures forall k :: 0 <= k < insts[i].opCount ==> pool[insts[i].opStart + k] == f.insts[i].ops[k]
  {
    PoolLengths(insts, pool);
    assert SliceOk(insts[i], pool);
    forall k | 0 <= k < insts[i].opCount ensures pool[insts[i].opStart + k] == f.insts[i].ops[k] {
      PoolCell(insts, pool, i, k);
    }
  }

  lemma StoreIsTidy(insts: seq<InstRec>, pool: seq<Operand>, blocks: seq<BlockRec>, code: seq<seq<nat>>, f: Function)
    requires ListsOk(insts, blocks, code) && f.blocks == BlocksOf(blocks, code) && f.insts == InstsOf(insts, pool)
    requires f.entry < |f.blocks| && ResultsOk(f)
    ensures Tidy(f)
  {
    forall b, k | 0 <= b < |code| && 0 <= k < |code[b]|
      ensures code[b][k] < |insts| && insts[code[b][k]].block == b && insts[code[b][k]].opcode != NONE
    {
      ListWalk(insts, blocks, code, b, k);
    }
    forall b | 0 <= b < |code| ensures NoDuplicates(code[b]) { StartOfList(insts, blocks, code, b); }
    assert CodeOk(f);
    hide ListOk, LinkOk;
    forall i: nat ensures Live(f, i) <==> Listed(f, i) {
      if Listed(f, i) {
        var b := f.insts[i].block;
        var k :| 0 <= k < |code[b]| && code[b][k] == i;
      }
    }
  }

  /** The first worklist: every dead instruction. */
  method FindDead(store: Store, counts: array<nat>) returns (work: seq<nat>)
    requires store.Valid() && counts.Length == |store.Snapshot().vals|
    ensures WorkOk(store.Snapshot(), counts[..], work, {})
  {
    hide ListsOk, PoolOk, HasSideEffects, InstsOf, BlocksOf;
    ghost var f := store.Snapshot();
    SameInsts(store);
    work := [];
    var i := 0;
    while i < |store.insts|
      invariant 0 <= i <= |store.insts| == |f.insts|
      invariant forall j: nat :: j in work <==> j < i && IsDead(f, counts[..], j)
    {
      RecordFacts(store.insts, store.pool, f, i);
      var r := store.insts[i];
      if r.opcode != NONE && r.result.Some? && !HasSideEffects(InstOf(r, store.pool))
         && r.result.value < counts.Length && counts[r.result.value] == 0
      {
        work := work + [i];
      }
      i := i + 1;
    }
  }

  lemma SameInsts(store: Store)
    requires store.Valid()
    ensures |store.Snapshot().insts| == |store.insts|
  {
  }

  /** Takes the operands of the dead instruction i off the counts; definitions that lose their last reader queue up. */
  method DropOperands(store: Store, counts: array<nat>, ud: UseDefs, work: seq<nat>, i: nat, ghost f0: Function)
    returns (work': seq<nat>)
    requires store.Valid() && i < |store.insts| && Describes(ud, f0) && Tidy(f0) && LeftOf(f0, store.Snapshot())
    requires Live(store.Snapshot(), i) && Exact(store.Snapshot(), counts[..])
             && WorkOk(store.Snapshot(), counts[..], work, {i})
    modifies counts
    ensures WorkOk(store.Snapshot(), counts[..], work', {i})
    ensures Half(store.Snapshot(), counts[..], i, |store.Snapshot().insts[i].ops|)
  {
    hide ListsOk, PoolOk, HasSideEffects, InstsOf, BlocksOf, Tidy, WorkOk, Half, Exact, LeftOf, Describes;
    ghost var f := store.Snapshot();
    HalfStart(f, counts[..], i);
    SameInsts(store);
    RecordFacts(store.insts, store.pool, f, i);
    var r := store.insts[i];
    work' := work;
    var k := 0;
    while k < r.opCount
      invariant 0 <= k <= r.opCount && counts.Length == |f.vals|
      invariant WorkOk(f, counts[..], work', {i}) && Half(f, counts[..], i, k)
    {
      var op := store.pool[r.opStart + k];
      if op.OpValue? && op.val < counts.Length {
        TakeOperand(f, counts[..], i, k, op.val);
        work' := DropOperand(store, counts, ud, work', i, op.val, f0);
      } else {
        SkipOperand(f, counts[..], i, k);
      }
      k := k + 1;
    }
  }

  /** One operand that names v. */
  method DropOperand(store: Store, counts: array<nat>, ud: UseDefs, work: seq<nat>, i: nat, v: nat, ghost f0: Function)
    returns (work': seq<nat>)
    requires store.Valid() && Describes(ud, f0) && Tidy(f0) && LeftOf(f0, store.Snapshot()) && v < counts.Length
    requires counts.Length == |store.Snapshot().vals| && WorkOk(store.Snapshot(), counts[..], work, {i})
             && counts[v] > 0
    modifies counts
    ensures counts[..] == old(counts[..])[v := old(counts[v]) - 1]
    ensures WorkOk(store.Snapshot(), counts[..], work', {i})
  {
    hide ListsOk, PoolOk, HasSideEffects, InstsOf, BlocksOf, Tidy, WorkOk, LeftOf, Describes;
    ghost var f, before := store.Snapshot(), counts[..];
    work' := work;
    if counts[v] > 0 {
      if counts[v] == 1 {
        LastReaderGone(f0, f, before, work, i, v);
      } else {
        StillCounted(f, before, work, {i}, v);
      }
      counts[v] := counts[v] - 1;
      assert counts[..] == before[v := before[v] - 1];
      if counts[v] == 0 {
        DefInRange(f0, f, ud, v);
        var d := ud.defInst[v];
        SameInsts(store);
        if d.Some? {
          RecordFacts(store.insts, store.pool, f, d.value);
          if !HasSideEffects(InstOf(store.insts[d.value], store.pool)) { work' := work + [d.value]; }
        }
      }
    }
  }

  lemma HalfStart(f: Function, counts: seq<nat>, i: nat)
    requires Exact(f, counts) && i < |f.insts|
    ensures Half(f, counts, i, 0) && |counts| == |f.vals|
  {
    forall v: nat | v < |counts|
      ensures counts[v] + Occurs(f.insts[i].ops, v, 0) == Uses(f, v)
    {
      assert counts[v] == Uses(f, v);
    }
  }

  lemma DefInRange(f0: Function, f: Function, ud: UseDefs, v: nat)
    requires Describes(ud, f0) && LeftOf(f0, f) && v < |f.vals|
    ensures v < |ud.defInst| && ud.defInst[v] == DefBelow(f0, v, |f0.insts|)
    ensures ud.defInst[v].Some? ==> ud.defInst[v].value < |f.insts|
  {
  }

  /** Everything the main loop keeps. */
  ghost predicate LoopOk(f0: Function, f: Function, counts: seq<nat>, work: seq<nat>, removed: seq<nat>) {
    && Tidy(f) && LeftOf(f0, f) && Exact(f, counts) && WorkOk(f, counts, work, {})
    && AllRemovable(f0, removed) && f == RemoveAll(f0, removed)
  }

  lemma PopWork(f: Function, counts: seq<nat>, work: seq<nat>)
    requires WorkOk(f, counts, work, {}) && |work| > 0
    ensures var i, rest := work[|work| - 1], work[..|work| - 1];
            && i < |f.insts| && (f.insts[i].opcode == NONE || IsDead(f, counts, i)) && WorkOk(f, counts, rest, {i})
            && (f.insts[i].opcode == NONE ==> WorkOk(f, counts, rest, {}))
  {
    var i, rest := work[|work| - 1], work[..|work| - 1];
    assert i in work;
    assert work == rest + [i];
    hide HasSideEffects;
    forall j: nat | IsDead(f, counts, j) && j != i ensures j in rest { assert j in work; }
    forall j | j in rest
      ensures j < |f.insts| && (f.insts[j].opcode == NONE || IsDead(f, counts, j))
    {
      assert j in work;
    }
  }

  /** A popped instruction that is already gone. */
  lemma PoppedGone(f0: Function, f: Function, counts: seq<nat>, work: seq<nat>, removed: seq<nat>)
    requires LoopOk(f0, f, counts, work, removed) && |work| > 0
    ensures work[|work| - 1] < |f.insts|
    ensures f.insts[work[|work| - 1]].opcode == NONE ==> LoopOk(f0, f, counts, work[..|work| - 1], removed)
  {
    hide Tidy, LeftOf, Exact, WorkOk, RemoveAll, AllRemovable;
    PopWork(f, counts, work);
  }

  /** A popped instruction that is not gone is dead. */
  lemma PoppedDead(f0: Function, f: Function, counts: seq<nat>, work: seq<nat>, removed: seq<nat>)
    requires LoopOk(f0, f, counts, work, removed) && |work| > 0 && work[|work| - 1] < |f.insts|
    requires f.insts[work[|work| - 1]].opcode != NONE
    ensures var i := work[|work| - 1];
            && Live(f, i) && WorkOk(f, counts, work[..|work| - 1], {i}) && CanRemove(f, i)
            && (forall s :: Closed(f0, s) ==> i !in s)
            && AllRemovable(f0, removed + [i]) && RemoveAll(f0, removed + [i]) == RemoveInst(f, i)
  {
    var i := work[|work| - 1];
    hide Tidy, LeftOf, Exact, WorkOk, HasSideEffects, RemoveAll, AllRemovable, CanRemove, RemoveInst, Closed;
    PopWork(f, counts, work);
    assert |counts| == |f.vals| by { ExactLength(f, counts); }
    DeadIsRemovable(f, counts, i);
    forall s | Closed(f0, s) ensures i !in s { DeadNotClosed(f0, f, counts, i, s); }
    RemoveAllNext(f0, removed, i);
  }

  lemma ExactLength(f: Function, counts: seq<nat>)
    requires Exact(f, counts)
    ensures |counts| == |f.vals|
  {
  }

  lemma LoopEnds(f0: Function, f: Function, counts: seq<nat>, removed: seq<nat>)
    requires LoopOk(f0, f, counts, [], removed)
    ensures IsGreatestClosed(f0, Survivors(f)) && AllRemovable(f0, removed) && f == RemoveAll(f0, removed)
  {
    NothingDead(f0, f, counts);
  }

  lemma LoopStarts(f: Function, counts: seq<nat>, work: seq<nat>)
    requires Tidy(f) && Exact(f, counts) && WorkOk(f, counts, work, {})
    ensures LoopOk(f, f, counts, work, [])
  {
    hide Tidy, Exact, WorkOk, Uses, HasSideEffects;
    forall s | Closed(f, s) ensures s <= Survivors(f) { forall i | i in s ensures i in Survivors(f) {} }
  }

  lemma LoopTurns(f0: Function, f: Function, g: Function, counts: seq<nat>, work: seq<nat>, removed: seq<nat>)
    requires Tidy(g) && LeftOf(f0, g) && Exact(g, counts) && WorkOk(g, counts, work, {})
    requires AllRemovable(f0, removed) && RemoveAll(f0, removed) == g
    ensures LoopOk(f0, g, counts, work, removed)
  {
  }

  lemma LoopParts(f0: Function, f: Function, counts: seq<nat>, work: seq<nat>, removed: seq<nat>)
    requires LoopOk(f0, f, counts, work, removed)
    ensures Tidy(f) && LeftOf(f0, f) && Exact(f, counts) && |counts| == |f.vals|
  {
  }

  lemma CountsFrom(ud: UseDefs, f: Function)
    requires Describes(ud, f)
    ensures |ud.uses.count| == |f.vals| && Exact(f, ud.uses.count)
  {
    forall v: nat | v < |f.vals| ensures ud.uses.count[v] == Uses(f, v) {
      assert ud.uses.count[v] == |UsesBelow(f, v, |f.insts|)|;
      UsesCount(f, v, |f.insts|);
    }
  }

  /** One turn of the worklist loop on an instruction that is still there. */
  method RemoveDead(store: Store, counts: array<nat>, ud: UseDefs, work: seq<nat>, ghost f0: Function,
                    ghost removed: seq<nat>)
    returns (work': seq<nat>)
    requires store.Valid() && |work| > 0 && Tidy(f0) && Describes(ud, f0)
    requires LoopOk(f0, store.Snapshot(), counts[..], work, removed)
    requires work[|work| - 1] < |store.Snapshot().insts| && store.Snapshot().insts[work[|work| - 1]].opcode != NONE
    modifies store, counts
    ensures store.Valid() && LoopOk(f0, store.Snapshot(), counts[..], work', removed + [work[|work| - 1]])
    ensures Survivors(store.Snapshot()) < Survivors(old(store.Snapshot()))
  {
    hide ListsOk, PoolOk, HasSideEffects, InstsOf, BlocksOf, Tidy, WorkOk, Half, Exact, LeftOf, LoopOk, RemoveAll,
      AllRemovable, Describes, RemoveInst, CanRemove, Closed, Survivors;
    ghost var f := store.Snapshot();
    SameInsts(store);
    PoppedDead(f0, f, counts[..], work, removed);
    LoopParts(f0, f, counts[..], work, removed);
    var i := work[|work| - 1];
    work' := DropOperands(store, counts, ud, work[..|work| - 1], i, f0);
    RemovalKeeps(f0, f, i, counts[..], work');
    store.RemoveInstruction(i);
    LoopTurns(f0, f, store.Snapshot(), counts[..], work', removed + [i]);
  }

  /** One turn of the worklist loop. */
  method Turn(store: Store, counts: array<nat>, ud: UseDefs, work: seq<nat>, ghost f0: Function,
              ghost removed: seq<nat>)
    returns (work': seq<nat>, gone: bool, ghost removed': seq<nat>)
    requires store.Valid() && |work| > 0 && Tidy(f0) && Describes(ud, f0)
    requires LoopOk(f0, store.Snapshot(), counts[..], work, removed)
    modifies store, counts
    ensures store.Valid() && LoopOk(f0, store.Snapshot(), counts[..], work', removed')
    ensures if gone then Survivors(store.Snapshot()) < Survivors(old(store.Snapshot())) && |removed'| == |removed| + 1
            else store.Snapshot() == old(store.Snapshot()) && |work'| < |work| && removed' == removed
  {
    hide ListsOk, PoolOk, HasSideEffects, InstsOf, BlocksOf, Tidy, LoopOk, Describes, Survivors;
    SameInsts(store);
    PoppedGone(f0, store.Snapshot(), counts[..], work, removed);
    var i := work[|work| - 1];
    SameOpcode(store, i);
    if store.insts[i].opcode == NONE {
      return work[..|work| - 1], false, removed;
    }
    work' := RemoveDead(store, counts, ud, work, f0, removed);
    return work', true, removed + [i];
  }

  lemma SameOpcode(store: Store, i: nat)
    requires store.Valid() && i < |store.insts|
    ensures |store.Snapshot().insts| == |store.insts| && store.Snapshot().insts[i].opcode == store.insts[i].opcode
  {
  }

  /** The counts and the worklist before the first turn. */
  method Start(store: Store, ud: UseDefs) returns (counts: array<nat>, work: seq<nat>)
    requires store.Valid() && Tidy(store.Snapshot()) && Describes(ud, store.Snapshot())
    ensures fresh(counts) && LoopOk(store.Snapshot(), store.Snapshot(), counts[..], work, [])
  {
    CountsFrom(ud, store.Snapshot());
    hide ListsOk, PoolOk, InstsOf, BlocksOf, Tidy, WorkOk, Exact, LoopOk, Describes;
    counts := new nat[|ud.uses.count|](v requires 0 <= v < |ud.uses.count| => ud.uses.count[v]);
    assert counts[..] == ud.uses.count;
    work := FindDead(store, counts);
    LoopStarts(store.Snapshot(), counts[..], work);
  }

  lemma ValidIsTidy(store: Store)
    requires store.Valid() && store.entry < |store.blocks| && ResultsOk(store.Snapshot())
    ensures Tidy(store.Snapshot())
  {
    StoreIsTidy(store.insts, store.pool, store.blocks, store.code, store.Snapshot());
    hide Tidy, ListsOk, PoolOk, InstsOf, ResultsOk;
  }

  /** ny_opt_pass_dce: what remains is the greatest set in which every pure instruction has a reader. */
  method Run(store: Store, ud: UseDefs) returns (changed: bool, ghost removed: seq<nat>)
    requires store.Valid() && store.entry < |store.blocks| && ResultsOk(store.Snapshot())
    requires Describes(ud, store.Snapshot())
    modifies store
    ensures store.Valid()
    ensures AllRemovable(old(store.Snapshot()), removed)
            && store.Snapshot() == RemoveAll(old(store.Snapshot()), removed)
    ensures IsGreatestClosed(old(store.Snapshot()), Survivors(store.Snapshot()))
    ensures OnlyNeeded(old(store.Snapshot()), Survivors(store.Snapshot()))
    ensures changed <==> removed != []
  {
    assert Tidy(store.Snapshot()) by { ValidIsTidy(store); }
    hide ListsOk, PoolOk, InstsOf, BlocksOf, Tidy, LoopOk, RemoveAll, AllRemovable, IsGreatestClosed, Describes,
      Survivors, OnlyNeeded;
    ghost var f0 := store.Snapshot();
    removed, changed := [], false;
    var counts, work := Start(store, ud);
    while |work| > 0
      invariant store.Valid() && fresh(counts) && LoopOk(f0, store.Snapshot(), counts[..], work, removed)
      invariant changed <==> removed != []
      decreases Survivors(store.Snapshot()), |work|
    {
      var gone;
      work, gone, removed := Turn(store, counts, ud, work, f0, removed);
      changed := changed || gone;
    }
    assert work == [];
    LoopEnds(f0, store.Snapshot(), counts[..], removed);
    GreatestIsNeeded(f0, Survivors(store.Snapshot()));
  }
}
