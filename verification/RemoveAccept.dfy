/** Removing an unread instruction (src/ir/function.c) keeps a function accepted by the validator and consistent. */
module RemoveAccept {
  import opened Opcodes
  import opened IntFold
  import opened Cfg
  import opened Ir
  import opened IrEdit
  import opened Validate
  import opened ValidateSound
  import opened RunEdits

  /** Where a position of g comes from. */
  function Unshift(b: nat, n: nat, blk: nat, pc: nat): nat {
    if blk == b && pc >= n then pc + 1 else pc
  }

  /** The premises, with what they say about the definition of the removed result. */
  ghost predicate Removes(f: Function, i: nat, b: nat, n: nat, g: Function) {
    && Removable(f, i, b, n) && Removed(f, i, b, n, g) && Accepts(f) && Consistent(f) && ResultsOk(f)
  }

  lemma GraphSame(f: Function, i: nat, b: nat, n: nat, g: Function)
    requires Removed(f, i, b, n, g)
    ensures GraphOf(g) == GraphOf(f)
  {
    assert GraphOf(g).succs == GraphOf(f).succs;
    assert GraphOf(g).preds == GraphOf(f).preds;
  }

  lemma InstFrom(f: Function, i: nat, b: nat, n: nat, g: Function, c: nat, m: nat)
    requires CodeOk(f) && Removed(f, i, b, n, g) && f.blocks[b].code[n] == i && c < |f.blocks| && m < |g.blocks[c].code|
    ensures var u := Unshift(b, n, c, m);
            && u < |f.blocks[c].code| && f.blocks[c].code[u] == g.blocks[c].code[m] && HasInst(f, c, u)
               && HasInst(g, c, m)
            && f.blocks[c].code[u] != i && InstAt(g, c, m) == InstAt(f, c, u)
  {
    var u := Unshift(b, n, c, m);
    assert f.blocks[c].code[u] == g.blocks[c].code[m];
    assert f.insts[f.blocks[c].code[u]].block == c && f.insts[i].block == b;
  }

  lemma ListedAfter(f: Function, i: nat, b: nat, n: nat, g: Function, m: nat)
    requires CodeOk(f) && Removed(f, i, b, n, g) && f.blocks[b].code[n] == i
    ensures Listed(g, m) <==> Listed(f, m) && m != i
  {
    if m < |f.insts| && f.insts[m].block < |f.blocks| {
      var c := f.insts[m].block;
      assert g.insts[m].block == c;
      var was, now := f.blocks[c].code, g.blocks[c].code;
      if m in now {
        var k :| 0 <= k < |now| && now[k] == m;
        InstFrom(f, i, b, n, g, c, k);
        assert was[Unshift(b, n, c, k)] in was;
      }
      if m in was && m != i {
        var k :| 0 <= k < |was| && was[k] == m;
        ShiftedInst(f, i, b, n, g, c, k);
        assert now[Shift(b, n, c, k)] in now;
      }
    }
  }

  lemma CodeDistinct(f: Function, i: nat, b: nat, n: nat, g: Function, c: nat)
    requires CodeOk(f) && Removed(f, i, b, n, g) && c < |f.blocks|
    ensures NoDuplicates(g.blocks[c].code)
  {
  }

  lemma RemoveKeepsCode(f: Function, i: nat, b: nat, n: nat, g: Function)
    requires CodeOk(f) && Removed(f, i, b, n, g) && f.blocks[b].code[n] == i
    ensures CodeOk(g) && ListsEnd(g)
    ensures forall m: nat :: Listed(g, m) <==> Listed(f, m) && m != i
  {
    assert g.entry < |g.blocks| == |f.blocks|;
    forall c, k | 0 <= c < |f.blocks| && 0 <= k < |g.blocks[c].code|
      ensures g.blocks[c].code[k] < |g.insts| && g.insts[g.blocks[c].code[k]].block == c
    {
      InstFrom(f, i, b, n, g, c, k);
      assert f.insts[g.blocks[c].code[k]].block == c;
    }
    forall c: nat | c < |f.blocks| ensures NoDuplicates(g.blocks[c].code) { CodeDistinct(f, i, b, n, g, c); }
    hide Removed;
    assert CodeOk(g);
    hide CodeOk;
    forall m: nat ensures Listed(g, m) <==> Listed(f, m) && m != i { ListedAfter(f, i, b, n, g, m); }
  }

  /** The terminator stays where it is. */
  lemma LastStays(f: Function, i: nat, b: nat, n: nat, g: Function, c: nat)
    requires Removes(f, i, b, n, g) && c < |f.blocks| && |f.blocks[c].code| > 0
    ensures HasLast(f, c) && HasLast(g, c) && Last(g, c) == Last(f, c)
    ensures |g.blocks[c].code| > 0
  {
    hide Accepts, Consistent, ResultsOk, InstAccepted, IsObservable, Unread, CodeOk;
    EndsInTerminator(f, c);
    LastNotRemoved(f, i, b, n, g, c);
    InstFrom(f, i, b, n, g, c, |g.blocks[c].code| - 1);
  }

  lemma EndsInTerminator(f: Function, c: nat)
    requires Accepts(f) && c < |f.blocks| && |f.blocks[c].code| > 0
    ensures HasLast(f, c) && IsTerminator(Last(f, c).opcode)
  {
    assert BlockAccepted(f, c);
  }

  lemma LastNotRemoved(f: Function, i: nat, b: nat, n: nat, g: Function, c: nat)
    requires Removes(f, i, b, n, g) && HasLast(f, c) && IsTerminator(Last(f, c).opcode)
    ensures c == b ==> n != |f.blocks[c].code| - 1
    ensures |g.blocks[c].code| == |f.blocks[c].code| - (if c == b then 1 else 0) && |g.blocks[c].code| > 0
  {
    hide Accepts, Consistent, ResultsOk, IsObservable, Unread;
  }

  lemma RemoveKeepsTargets(f: Function, i: nat, b: nat, n: nat, g: Function, c: nat)
    requires Removes(f, i, b, n, g) && c < |f.blocks|
    ensures BlockTargets(g, c) == BlockTargets(f, c)
  {
    if |f.blocks[c].code| > 0 {
      LastStays(f, i, b, n, g, c);
    }
  }

  lemma RemoveKeepsRecords(f: Function, i: nat, b: nat, n: nat, g: Function)
    requires Removes(f, i, b, n, g)
    ensures DefsOk(g) && ResultsOk(g)
  {
    RemoveKeepsCode(f, i, b, n, g);
    assert Listed(f, i) by { assert f.blocks[b].code[n] in f.blocks[b].code; }
    assert DefsOk(f);
    hide Accepts, EdgesOk, ListsEnd, Listed, Unread, IsObservable, CodeOk;
  }

  lemma RemoveKeepsConsistent(f: Function, i: nat, b: nat, n: nat, g: Function)
    requires Removes(f, i, b, n, g)
    ensures Consistent(g) && ResultsOk(g) && CodeOk(g)
  {
    RemoveKeepsRecords(f, i, b, n, g);
    RemoveKeepsCode(f, i, b, n, g);
    GraphSame(f, i, b, n, g);
    forall c: nat | c < |f.blocks|
      ensures BlockTargets(g, c) == BlockTargets(f, c)
    {
      RemoveKeepsTargets(f, i, b, n, g, c);
    }
    assert EdgesOk(f);
    hide Accepts, WellFormed, ResultsOk, CodeOk, DefsOk, ListsEnd, BlockTargets, Unread, IsObservable;
  }

  // ---------------------------------------------------------------- acceptance

  lemma StrictlySame(f: Function, i: nat, b: nat, n: nat, g: Function, a: nat, c: nat)
    requires Removed(f, i, b, n, g)
    ensures Strictly(g, a, c) <==> Strictly(f, a, c)
  {
    GraphSame(f, i, b, n, g);
  }

  lemma EarlierStays(f: Function, i: nat, b: nat, n: nat, g: Function, c: nat, u: nat, d: nat)
    requires Removed(f, i, b, n, g) && f.blocks[b].code[n] == i && c < |f.blocks| && u <= |f.blocks[c].code| && d != i
    requires exists q :: 0 <= q < u && f.blocks[c].code[q] == d
    ensures Shift(b, n, c, u) <= |g.blocks[c].code|
    ensures exists q :: 0 <= q < Shift(b, n, c, u) && g.blocks[c].code[q] == d
  {
    var q :| 0 <= q < u && f.blocks[c].code[q] == d;
    assert g.blocks[c].code[Shift(b, n, c, q)] == d;
  }

  lemma RemoveKeepsDef(f: Function, i: nat, b: nat, n: nat, g: Function, c: nat, m: nat, k: nat, d: nat)
    requires Removed(f, i, b, n, g) && f.blocks[b].code[n] == i
    requires c < |f.blocks| && m < |g.blocks[c].code| && d != i
    requires HasInst(f, c, Unshift(b, n, c, m)) && HasInst(g, c, m)
             && InstAt(g, c, m) == InstAt(f, c, Unshift(b, n, c, m))
    requires k < |InstAt(g, c, m).ops| && DefAccepted(f, c, Unshift(b, n, c, m), k, Some(d))
    ensures DefAccepted(g, c, m, k, Some(d))
  {
    var u, inst, home := Unshift(b, n, c, m), InstAt(g, c, m), f.insts[d].block;
    assert g.insts[d] == f.insts[d] && d < |g.insts|;
    StrictlySame(f, i, b, n, g, home, c);
    if k + 1 < |inst.ops| && inst.ops[k + 1].OpBlock? { StrictlySame(f, i, b, n, g, home, inst.ops[k + 1].blk); }
    if inst.opcode != PHI && home == c { EarlierStays(f, i, b, n, g, c, u, d); }
    hide Strictly, Removed;
  }

  lemma RemoveKeepsOperand(f: Function, i: nat, b: nat, n: nat, g: Function, c: nat, m: nat, k: nat)
    requires Removes(f, i, b, n, g) && c < |f.blocks| && m < |g.blocks[c].code|
    requires HasInst(f, c, Unshift(b, n, c, m)) && HasInst(g, c, m)
             && InstAt(g, c, m) == InstAt(f, c, Unshift(b, n, c, m))
    requires f.blocks[c].code[Unshift(b, n, c, m)] == g.blocks[c].code[m] != i
    requires k < |InstAt(g, c, m).ops| && OperandAccepted(f, c, Unshift(b, n, c, m), k)
    ensures OperandAccepted(g, c, m, k)
  {
    var op, id := InstAt(g, c, m).ops[k], g.blocks[c].code[m];
    if op.OpValue? {
      var v := op.val;
      assert Listed(f, id) by { assert f.blocks[c].code[Unshift(b, n, c, m)] in f.blocks[c].code; }
      assert op in f.insts[id].ops;
      assert f.insts[i].result != Some(v);
      if f.vals[v].kind == InstructionValue {
        var d := f.vals[v].def.value;
        assert d != i by { assert DefsOk(f); }
        hide Removable, Accepts, Consistent, ResultsOk, DefAccepted;
        assert CodeOk(f) && f.blocks[b].code[n] == i by { assert Removable(f, i, b, n); RemovableFacts(f, i, b, n); }
        RemoveKeepsDef(f, i, b, n, g, c, m, k, d);
      }
    }
  }

  lemma RemovableFacts(f: Function, i: nat, b: nat, n: nat)
    requires Removable(f, i, b, n)
    ensures CodeOk(f) && HasInst(f, b, n) && f.blocks[b].code[n] == i
  {
  }

  lemma RemoveKeepsInst(f: Function, i: nat, b: nat, n: nat, g: Function, c: nat, m: nat)
    requires Removes(f, i, b, n, g) && c < |f.blocks| && m < |g.blocks[c].code|
    ensures InstAccepted(g, c, m)
  {
    hide Accepts, Consistent, ResultsOk, Removable, OperandAccepted, CodeOk, BlockAccepted, Unshift;
    RemovableFacts(f, i, b, n);
    InstFrom(f, i, b, n, g, c, m);
    var u := Unshift(b, n, c, m);
    AcceptedInst(f, c, u);
    var inst := InstAt(g, c, m);
    forall k | 0 <= k < |inst.ops| ensures OperandAccepted(g, c, m, k) { RemoveKeepsOperand(f, i, b, n, g, c, m, k); }
    if inst.opcode == PHI {
      forall w: nat | w < m ensures IsPhiAt(g, c, w) {
        InstFrom(f, i, b, n, g, c, w);
        UnshiftGrows(b, n, c, w, m);
        assert IsPhiAt(f, c, Unshift(b, n, c, w));
      }
    }
  }

  lemma AcceptedInst(f: Function, c: nat, u: nat)
    requires Accepts(f) && c < |f.blocks| && u < |f.blocks[c].code|
    ensures InstAccepted(f, c, u)
  {
    assert BlockAccepted(f, c);
  }

  lemma UnshiftGrows(b: nat, n: nat, c: nat, w: nat, m: nat)
    requires w < m
    ensures Unshift(b, n, c, w) < Unshift(b, n, c, m)
  {
  }

  lemma RemoveKeepsBlock(f: Function, i: nat, b: nat, n: nat, g: Function, c: nat)
    requires Removes(f, i, b, n, g) && c < |f.blocks|
    ensures BlockAccepted(g, c)
  {
    assert BlockAccepted(f, c);
    if |f.blocks[c].code| > 0 {
      LastStays(f, i, b, n, g, c);
      hide Removes, InstAccepted;
      forall m: nat | m < |g.blocks[c].code| ensures InstAccepted(g, c, m) { RemoveKeepsInst(f, i, b, n, g, c, m); }
    }
  }

  /** The validator accepts the function without the unread instruction. */
  lemma RemoveKeepsAccepted(f: Function, i: nat, b: nat, n: nat)
    requires Removable(f, i, b, n) && Accepts(f) && Consistent(f) && ResultsOk(f)
    ensures var g := RemoveInst(f, i);
            Removed(f, i, b, n, g) && Accepts(g) && Consistent(g) && ResultsOk(g) && CodeOk(g)
  {
    RemoveIsRemoved(f, i, b, n);
    var g := RemoveInst(f, i);
    RemoveKeepsConsistent(f, i, b, n, g);
    assert Removes(f, i, b, n, g);
    assert f.entry < |f.blocks| && |f.blocks[f.entry].preds| == 0;
    assert g.blocks[f.entry].preds == f.blocks[f.entry].preds;
    hide Removes, BlockAccepted, Consistent, ResultsOk, Removable, RemoveInst;
    forall c: nat | c < |g.blocks| ensures BlockAccepted(g, c) { RemoveKeepsBlock(f, i, b, n, g, c); }
  }
}
