/** Global value numbering (src/opt/gvn.c): the table of available expressions and the walk that uses it. */
module Gvn {
  import opened Opcodes
  import opened IntFold
  import opened Cfg
  import opened Ir
  import opened IrEdit
  import opened SccpLattice
  import opened Validate
  import opened ValidateSound
  import opened GvnKeys
  import opened RunEdits
  import opened RemoveAccept
  import opened GvnSound
  import opened GvnRename
  import opened GvnStep

  /** Available_Expr. */
  datatype Entry = Entry(key: Key, val: nat, blk: nat)

  datatype Pass = Pass(f: Function, table: seq<Entry>, n: nat)

  ghost predicate Available(g: Graph, a: nat, b: nat) {
    a == b || (Reachable(g, a) && Reachable(g, b) && Dominates(g, a, b))
  }

  ghost predicate Matches(g: Graph, e: Entry, key: Key, b: nat) {
    KeyEqual(e.key, key) && Available(g, e.blk, b)
  }

  /** The first entry from k on that can stand in; |table| when there is none. */
  ghost function FindMatch(g: Graph, table: seq<Entry>, key: Key, b: nat, k: nat): (m: nat)
    requires k <= |table|
    ensures k <= m <= |table| && (m < |table| ==> Matches(g, table[m], key, b))
    decreases |table| - k
  {
    if k == |table| || Matches(g, table[k], key, b) then k else FindMatch(g, table, key, b, k + 1)
  }

  /** One turn of the walk. */
  ghost function Visit(f: Function, table: seq<Entry>, b: nat, n: nat): Pass
    requires HasInst(f, b, n)
  {
    var i, inst := f.blocks[b].code[n], InstAt(f, b, n);
    if !IsCandidate(f, inst) then Pass(f, table, n + 1)
    else
      var key := MakeKey(f, inst);
      var m := FindMatch(GraphOf(f), table, key, b, 0);
      if m < |table| then Pass(ShareInst(f, i, inst.result.value, table[m].val), table, n)
      else Pass(f, table + [Entry(key, inst.result.value, b)], n + 1)
  }

  lemma ShareKeepsCode(f: Function, b: nat, n: nat, x: nat, y: nat)
    requires CodeOk(f) && HasInst(f, b, n) && InstAt(f, b, n).opcode != NONE
    ensures var i := f.blocks[b].code[n];
            var g, r := ShareInst(f, i, x, y), ReplaceUses(f, x, y);
            && CodeOk(g) && CodeOk(r) && HasInst(r, b, n) && r.blocks == f.blocks && r.insts[i].opcode != NONE
            && Removed(r, i, b, n, g) && |g.blocks| == |f.blocks| && |g.blocks[b].code| == |f.blocks[b].code| - 1
  {
    var i := f.blocks[b].code[n];
    var r := ReplaceUses(f, x, y);
    assert CodeOk(r);
    RemoveIsRemoved(r, i, b, n);
    RemoveKeepsCode(r, i, b, n, ShareInst(f, i, x, y));
  }

  lemma VisitKeepsCode(f: Function, table: seq<Entry>, b: nat, n: nat)
    requires CodeOk(f) && HasInst(f, b, n)
    ensures var v := Visit(f, table, b, n);
            && CodeOk(v.f) && |v.f.blocks| == |f.blocks| && v.n <= |v.f.blocks[b].code|
            && |v.f.blocks[b].code| - v.n < |f.blocks[b].code| - n
  {
    var i, inst := f.blocks[b].code[n], InstAt(f, b, n);
    if IsCandidate(f, inst) {
      CandidateIsPlain(inst);
      var m := FindMatch(GraphOf(f), table, MakeKey(f, inst), b, 0);
      hide CodeOk, MakeKey, FindMatch, IsGvnCandidate, ShareInst, Removed;
      if m < |table| { ShareKeepsCode(f, b, n, inst.result.value, table[m].val); }
    }
  }

  lemma InCode(f: Function, b: nat, n: nat)
    requires CodeOk(f) && b < |f.blocks| && n < |f.blocks[b].code|
    ensures HasInst(f, b, n)
  {
  }

  /** The walk over the rest of block b. */
  ghost function GvnBlock(f: Function, table: seq<Entry>, b: nat, n: nat): (r: Pass)
    requires CodeOk(f) && b < |f.blocks| && n <= |f.blocks[b].code|
    ensures CodeOk(r.f) && |r.f.blocks| == |f.blocks| && r.n == |r.f.blocks[b].code|
    decreases |f.blocks[b].code| - n
  {
    if n == |f.blocks[b].code| then Pass(f, table, n)
    else
      InCode(f, b, n);
      VisitKeepsCode(f, table, b, n);
      var v := Visit(f, table, b, n);
      GvnBlock(v.f, v.table, b, v.n)
  }

  /** The walk over the blocks from b on, in order of their ids. */
  ghost function GvnBlocks(f: Function, table: seq<Entry>, b: nat): Function
    requires CodeOk(f) && b <= |f.blocks|
    decreases |f.blocks| - b
  {
    if b == |f.blocks| then f
    else
      var r := GvnBlock(f, table, b, 0);
      GvnBlocks(r.f, r.table, b + 1)
  }

  ghost function ValueNumbered(f: Function): Function
    requires CodeOk(f)
  {
    GvnBlocks(f, [], 0)
  }

  // ---------------------------------------------------------------- what the table means

  /** The key mentions a value whose definition has been removed: no later key can equal it. */
  ghost predicate Stale(f: Function, key: Key) {
    || (key.opCount > 0 && Undefined(f, key.op0))
    || (key.opCount > 1 && Undefined(f, key.op1))
    || (key.opCount > 2 && Undefined(f, key.op2))
  }

  ghost predicate Undefined(f: Function, op: Operand) {
    op.OpValue? && op.val < |f.vals| && f.vals[op.val].kind == InstructionValue && f.vals[op.val].def.None?
  }

  /** The entry's instruction d stands at position q of its block, before position n of block b in the walk. */
  ghost predicate EntryAt(f: Function, e: Entry, d: nat, q: nat, b: nat, n: nat) {
    && CandidateAt(f, d, e.blk, q) && f.insts[d].result == Some(e.val)
    && (e.blk < b || (e.blk == b && q < n))
    && (e.key == MakeKey(f, f.insts[d]) || Stale(f, e.key))
  }

  ghost predicate EntryOk(f: Function, e: Entry, b: nat, n: nat) {
    exists d: nat, q: nat :: EntryAt(f, e, d, q, b, n)
  }

  ghost predicate TableOk(f: Function, table: seq<Entry>, b: nat, n: nat) {
    forall k :: 0 <= k < |table| ==> EntryOk(f, table[k], b, n)
  }

  /** A live key does not mention a removed value. */
  lemma LiveKey(f: Function, i: nat, b: nat, n: nat)
    requires Ready(f) && CandidateAt(f, i, b, n)
    ensures !Stale(f, MakeKey(f, f.insts[i]))
  {
    var inst := f.insts[i];
    CandidateIsPlain(inst);
    ReadyAccepts(f);
    hide Ready, Accepts, Consistent, CodeOk, ResultsOk, IsGvnCandidate, IsCommutative, ResultType, Precedes;
    forall k | 0 <= k < |inst.ops| ensures !Undefined(f, inst.ops[k]) { OperandPrecedes(f, b, n, k); }
  }

  lemma EqualKeysStale(f: Function, a: Key, b: Key)
    requires KeyEqual(a, b) && Stale(f, a)
    ensures Stale(f, b)
  {
  }

  /** A match in the table is an instruction that can stand in. */
  lemma MatchShares(f: Function, e: Entry, d: nat, q: nat, i: nat, b: nat, n: nat)
    requires Ready(f) && EntryAt(f, e, d, q, b, n) && CandidateAt(f, i, b, n)
    requires Matches(GraphOf(f), e, MakeKey(f, f.insts[i]), b)
    ensures Shares(f, d, e.blk, q, i, b, n)
  {
    LiveKey(f, i, b, n);
    if Stale(f, e.key) { EqualKeysStale(f, e.key, MakeKey(f, f.insts[i])); }
    assert CodeOk(f) && f.insts[d].block == e.blk && f.insts[i].block == b;
    hide Ready, KeyEqual, MakeKey, Stale, Reachable, Dominates, CodeOk, IsCandidate;
    if e.blk == b { assert f.blocks[b].code[q] == d; }
    assert d != i by { if e.blk == b { SamePlace(f, b, q, n); } }
  }

  lemma SamePlace(f: Function, b: nat, q: nat, n: nat)
    requires b < |f.blocks| && q < n < |f.blocks[b].code|
    ensures CodeOk(f) ==> f.blocks[b].code[q] != f.blocks[b].code[n]
  {
  }

  // ---------------------------------------------------------------- the table stays right

  lemma TableGrows(f: Function, table: seq<Entry>, b: nat, n: nat, c: nat, m: nat)
    requires TableOk(f, table, b, n) && (b < c || (b == c && n <= m))
    ensures TableOk(f, table, c, m)
  {
    forall k | 0 <= k < |table| ensures EntryOk(f, table[k], c, m) {
      assert EntryOk(f, table[k], b, n);
      var d: nat, q: nat :| EntryAt(f, table[k], d, q, b, n);
      assert EntryAt(f, table[k], d, q, c, m);
    }
  }

  /** The new entry of a candidate that matched nothing. */
  lemma TableAdds(f: Function, table: seq<Entry>, i: nat, b: nat, n: nat)
    requires TableOk(f, table, b, n) && CandidateAt(f, i, b, n)
    ensures TableOk(f, table + [Entry(MakeKey(f, f.insts[i]), f.insts[i].result.value, b)], b, n + 1)
  {
    var e := Entry(MakeKey(f, f.insts[i]), f.insts[i].result.value, b);
    assert EntryAt(f, e, i, n, b, n + 1);
    TableGrows(f, table, b, n, b, n + 1);
    hide EntryAt, CandidateAt, MakeKey;
  }

  /** An instruction that reads the removed value leaves a stale key, any other keeps its key. */
  lemma KeyAfterShare(f: Function, g: Function, inst: Instruction, x: nat, y: nat)
    requires |g.vals| == |f.vals| && forall v :: 0 <= v < |f.vals| ==> g.vals[v].ty == f.vals[v].ty
    requires Undefined(g, OpValue(x)) && |inst.ops| <= 3
    ensures MakeKey(g, inst.(ops := Renamed(inst.ops, x, y))) == MakeKey(f, inst) || Stale(g, MakeKey(f, inst))
  {
    hide IsCommutative;
    if OpValue(x) in inst.ops {
      var k :| 0 <= k < |inst.ops| && inst.ops[k] == OpValue(x);
      var key := MakeKey(f, inst);
      assert key.op0 == OpValue(x) || key.op1 == OpValue(x) || key.op2 == OpValue(x);
    } else {
      assert Renamed(inst.ops, x, y) == inst.ops;
    }
  }

  /** What a sharing step does to the other candidates. */
  ghost predicate SharedAt(f: Function, i: nat, b: nat, n: nat, x: nat, y: nat, g: Function) {
    && Ready(f) && CandidateAt(f, i, b, n) && f.insts[i].result == Some(x) && x < |f.vals|
    && f.vals[x].kind == InstructionValue && f.vals[x].def == Some(i)
    && |g.vals| == |f.vals| && |g.insts| == |f.insts| && |g.blocks| == |f.blocks|
    && (forall v :: 0 <= v < |f.vals| ==> g.vals[v] == if v == x then f.vals[v].(def := None) else f.vals[v])
    && (forall d :: 0 <= d < |f.insts| && d != i && f.insts[d].opcode != NONE ==>
          g.insts[d] == f.insts[d].(ops := Renamed(f.insts[d].ops, x, y)))
    && (forall c :: 0 <= c < |f.blocks| && c != b ==> g.blocks[c].code == f.blocks[c].code)
    && g.blocks[b].code == f.blocks[b].code[..n] + f.blocks[b].code[n + 1..]
  }

  lemma ShareIsShared(f: Function, i: nat, b: nat, n: nat, x: nat, y: nat)
    requires Ready(f) && CandidateAt(f, i, b, n) && f.insts[i].result == Some(x)
    ensures SharedAt(f, i, b, n, x, y, ShareInst(f, i, x, y))
  {
    hide Ready, Accepts, Consistent, IsGvnCandidate, CodeOk, ReplaceUses, ShareInst, SharedAt, IsRenaming, Removed,
      Listed, ResultsOk, IsObservable, IsTerminator;
    CandidateIsPlain(f.insts[i]);
    ReadyAccepts(f);
    ListedAt(f, b, n);
    ShareKeepsCode(f, b, n, x, y);
    ReplaceIsRenaming(f, x, y);
    ResultFacts(f, i);
    SharedFromParts(f, i, b, n, x, y, ReplaceUses(f, x, y), ShareInst(f, i, x, y));
  }

  lemma ResultFacts(f: Function, i: nat)
    requires ResultsOk(f) && Listed(f, i) && f.insts[i].result.Some?
    ensures var r := f.insts[i].result.value;
            r < |f.vals| && f.vals[r].kind == InstructionValue && f.vals[r].def == Some(i)
  {
    hide Listed;
  }

  /** A renaming followed by a removal, spelled out. */
  lemma SharedFromParts(f: Function, i: nat, b: nat, n: nat, x: nat, y: nat, r: Function, g: Function)
    requires Ready(f) && CandidateAt(f, i, b, n) && f.insts[i].result == Some(x) && f.insts[i].opcode != NONE
    requires x < |f.vals| && f.vals[x].kind == InstructionValue && f.vals[x].def == Some(i)
    requires IsRenaming(f, x, y, r) && Removed(r, i, b, n, g)
    ensures SharedAt(f, i, b, n, x, y, g)
  {
    hide Ready, CandidateAt, Renamed;
  }

  lemma KindsStay(f: Function, g: Function, x: nat, e: Entry)
    requires |g.vals| == |f.vals|
    requires forall v :: 0 <= v < |f.vals| ==> g.vals[v] == if v == x then f.vals[v].(def := None) else f.vals[v]
    ensures Stale(f, e.key) ==> Stale(g, e.key)
  {
  }

  lemma EntryAfterShare(f: Function, i: nat, b: nat, n: nat, x: nat, y: nat, g: Function, e: Entry, d: nat, q: nat)
    requires SharedAt(f, i, b, n, x, y, g) && EntryAt(f, e, d, q, b, n)
    ensures EntryAt(g, e, d, q, b, n)
  {
    hide Ready, CodeOk, Listed, ResultsOk, MakeKey, Stale, IsGvnCandidate, WellTyped, IsFloat, IsObservable,
      IsTerminator;
    CandidateIsPlain(f.insts[d]);
    ReadyMeans(f);
    ListedAt(f, b, n);
    ListedAt(f, e.blk, q);
    if e.blk == b { SamePlace(f, b, q, n); }
    assert d != i;
    assert KeyIsWhole(f, f.insts[d]);
    assert Undefined(g, OpValue(x));
    assert g.blocks[e.blk].code[q] == d && q < |g.blocks[e.blk].code|;
    hide Undefined;
    KindsStay(f, g, x, e);
    KeyAfterShare(f, g, f.insts[d], x, y);
  }

  lemma TableAfterShare(f: Function, table: seq<Entry>, i: nat, b: nat, n: nat, x: nat, y: nat)
    requires Ready(f) && CandidateAt(f, i, b, n) && f.insts[i].result == Some(x) && TableOk(f, table, b, n)
    ensures TableOk(ShareInst(f, i, x, y), table, b, n)
  {
    var g := ShareInst(f, i, x, y);
    ShareIsShared(f, i, b, n, x, y);
    hide Ready, CandidateAt, EntryAt, SharedAt, ShareInst;
    forall k | 0 <= k < |table| ensures EntryOk(g, table[k], b, n) {
      assert EntryOk(f, table[k], b, n);
      var d: nat, q: nat :| EntryAt(f, table[k], d, q, b, n);
      EntryAfterShare(f, i, b, n, x, y, g, table[k], d, q);
    }
  }

  // ---------------------------------------------------------------- the pass keeps runs

  lemma ShareVisit(f: Function, e: Entry, i: nat, b: nat, n: nat, o: Oracle, args: Env)
    requires Ready(f) && GoodArgs(f, args) && CandidateAt(f, i, b, n)
    requires EntryOk(f, e, b, n) && Matches(GraphOf(f), e, MakeKey(f, f.insts[i]), b) && f.insts[i].result.Some?
    ensures var g := ShareInst(f, i, f.insts[i].result.value, e.val);
            Ready(g) && GoodArgs(g, args) && KeepsEnds(f, g, o, args)
  {
    var d: nat, q: nat :| EntryAt(f, e, d, q, b, n);
    assert f.insts[d].result == Some(e.val);
    hide Ready, GoodArgs, EntryAt, Matches, MakeKey, KeepsEnds, ShareInst, Shares, CandidateAt;
    MatchShares(f, e, d, q, i, b, n);
    ShareKeeps(f, o, args, d, e.blk, q, i, b, n);
  }

  lemma VisitKeeps(f: Function, table: seq<Entry>, b: nat, n: nat, o: Oracle, args: Env)
    requires Ready(f) && GoodArgs(f, args) && HasInst(f, b, n) && TableOk(f, table, b, n)
    ensures var v := Visit(f, table, b, n);
            Ready(v.f) && GoodArgs(v.f, args) && TableOk(v.f, v.table, b, v.n) && KeepsEnds(f, v.f, o, args)
  {
    var i, inst := f.blocks[b].code[n], InstAt(f, b, n);
    KeepsEndsSame(f, o, args);
    if IsCandidate(f, inst) {
      var m := FindMatch(GraphOf(f), table, MakeKey(f, inst), b, 0);
      assert CandidateAt(f, i, b, n);
      if m < |table| {
        assert EntryOk(f, table[m], b, n);
        hide Ready, GoodArgs, EntryOk, TableOk, Matches, MakeKey, KeepsEnds, ShareInst, CandidateAt, FindMatch,
          IsCandidate;
        ShareVisit(f, table[m], i, b, n, o, args);
        TableAfterShare(f, table, i, b, n, inst.result.value, table[m].val);
      } else {
        TableAdds(f, table, i, b, n);
      }
    } else {
      TableGrows(f, table, b, n, b, n + 1);
    }
  }

  lemma {:induction false} GvnBlockKeeps(f: Function, table: seq<Entry>, b: nat, n: nat, o: Oracle, args: Env)
    requires Ready(f) && CodeOk(f) && GoodArgs(f, args) && b < |f.blocks| && n <= |f.blocks[b].code|
             && TableOk(f, table, b, n)
    ensures var r := GvnBlock(f, table, b, n);
            Ready(r.f) && GoodArgs(r.f, args) && TableOk(r.f, r.table, b, r.n) && KeepsEnds(f, r.f, o, args)
    decreases |f.blocks[b].code| - n
  {
    hide Ready, GoodArgs, TableOk, KeepsEnds, Visit, CodeOk;
    KeepsEndsSame(f, o, args);
    if n < |f.blocks[b].code| {
      InCode(f, b, n);
      VisitKeepsCode(f, table, b, n);
      VisitKeeps(f, table, b, n, o, args);
      var v := Visit(f, table, b, n);
      GvnBlockKeeps(v.f, v.table, b, v.n, o, args);
      KeepsEndsTrans(f, v.f, GvnBlock(f, table, b, n).f, o, args);
    }
  }

  lemma {:induction false} GvnBlocksKeep(f: Function, table: seq<Entry>, b: nat, o: Oracle, args: Env)
    requires Ready(f) && CodeOk(f) && GoodArgs(f, args) && b <= |f.blocks| && TableOk(f, table, b, 0)
    ensures var g := GvnBlocks(f, table, b); Ready(g) && GoodArgs(g, args) && KeepsEnds(f, g, o, args)
    decreases |f.blocks| - b
  {
    hide Ready, GoodArgs, TableOk, KeepsEnds, CodeOk, GvnBlock;
    KeepsEndsSame(f, o, args);
    if b < |f.blocks| {
      GvnBlockKeeps(f, table, b, 0, o, args);
      var r := GvnBlock(f, table, b, 0);
      TableGrows(r.f, r.table, b, r.n, b + 1, 0);
      GvnBlocksKeep(r.f, r.table, b + 1, o, args);
      KeepsEndsTrans(f, r.f, GvnBlocks(f, table, b), o, args);
    }
  }

  /** Value numbering keeps how every run ends, and its result is accepted again. */
  lemma GvnKeepsRuns(f: Function, o: Oracle, args: Env)
    requires Ready(f) && CodeOk(f) && GoodArgs(f, args)
    ensures Ready(ValueNumbered(f)) && GoodArgs(ValueNumbered(f), args) && KeepsEnds(f, ValueNumbered(f), o, args)
  {
    hide Ready, GoodArgs, CodeOk;
    GvnBlocksKeep(f, [], 0, o, args);
  }
}
