/** Dead-code elimination (src/opt/dce.c): what may be removed, what must survive, and why runs do not notice. */
module Dce {
  import opened Opcodes
  import opened IntFold
  import opened Ir
  import opened IrEdit
  import opened Validate
  import opened ValidateSound
  import opened RunEdits
  import opened RemoveAccept

  /** inst_has_side_effects. */
  predicate HasSideEffects(inst: Instruction) {
    IsTerminator(inst.opcode) || inst.isVolatile || IsEffect(inst.opcode)
  }

  predicate Live(f: Function, i: nat) {
    i < |f.insts| && f.insts[i].opcode != NONE
  }

  /** A live instruction that is there only for its result. */
  predicate IsPure(f: Function, i: nat) {
    Live(f, i) && !HasSideEffects(f.insts[i]) && f.insts[i].result.Some? && f.insts[i].result.value < |f.vals|
  }

  // ---------------------------------------------------------------- counting uses

  function Occurs(ops: seq<Operand>, v: nat, k: nat): nat
    requires k <= |ops|
  {
    if k == 0 then 0 else Occurs(ops, v, k - 1) + if ops[k - 1] == OpValue(v) then 1 else 0
  }

  /** How often the live instructions below n read v. */
  function UseCount(f: Function, v: nat, n: nat): nat
    requires n <= |f.insts|
  {
    if n == 0 then 0
    else UseCount(f, v, n - 1) + if Live(f, n - 1) then Occurs(f.insts[n - 1].ops, v, |f.insts[n - 1].ops|) else 0
  }

  function Uses(f: Function, v: nat): nat {
    UseCount(f, v, |f.insts|)
  }

  lemma {:induction false} OccursPositive(ops: seq<Operand>, v: nat, k: nat)
    requires k <= |ops|
    ensures Occurs(ops, v, k) > 0 <==> OpValue(v) in ops[..k]
  {
    if k > 0 {
      OccursPositive(ops, v, k - 1);
      assert ops[..k] == ops[..k - 1] + [ops[k - 1]];
    }
  }

  lemma {:induction false} CountPositive(f: Function, v: nat, n: nat)
    requires n <= |f.insts|
    ensures UseCount(f, v, n) > 0 <==> exists j: nat :: j < n && Live(f, j) && OpValue(v) in f.insts[j].ops
  {
    if n > 0 {
      CountPositive(f, v, n - 1);
      var ops := f.insts[n - 1].ops;
      OccursPositive(ops, v, |ops|);
      assert ops[..|ops|] == ops;
      hide Occurs;
    }
  }

  /** v is read by a live instruction exactly when its count is positive. */
  lemma ReadIffCounted(f: Function, v: nat)
    ensures Uses(f, v) > 0 <==> exists j: nat :: Live(f, j) && OpValue(v) in f.insts[j].ops
  {
    CountPositive(f, v, |f.insts|);
  }

  /** Removing an instruction takes its own reads off the counts. */
  lemma {:induction false} RemoveCounts(f: Function, g: Function, i: nat, v: nat, n: nat)
    requires Live(f, i) && |g.insts| == |f.insts| && n <= |f.insts| && g.insts[i].opcode == NONE
    requires forall m :: 0 <= m < |f.insts| && m != i ==> g.insts[m] == f.insts[m]
    ensures UseCount(g, v, n) + (if i < n then Occurs(f.insts[i].ops, v, |f.insts[i].ops|) else 0) == UseCount(f, v, n)
  {
    hide Occurs;
    if n > 0 { RemoveCounts(f, g, i, v, n - 1); }
  }

  // ---------------------------------------------------------------- the greatest set of survivors

  /** Every pure member has a reader in the set. */
  ghost predicate Closed(f: Function, s: set<nat>) {
    forall i :: i in s ==> Live(f, i) && (IsPure(f, i) ==> HasReader(f, s, f.insts[i].result.value))
  }

  ghost predicate HasReader(f: Function, s: set<nat>, v: nat) {
    exists j: nat :: j in s && j < |f.insts| && OpValue(v) in f.insts[j].ops
  }

  ghost predicate IsGreatestClosed(f: Function, s: set<nat>) {
    Closed(f, s) && forall t :: Closed(f, t) ==> t <= s
  }

  ghost function Survivors(f: Function): (s: set<nat>)
    ensures forall i :: i in s <==> Live(f, i)
  {
    set i: nat | i < |f.insts| && f.insts[i].opcode != NONE
  }

  // ---------------------------------------------------------------- removals

  ghost predicate CanRemove(f: Function, i: nat) {
    exists b: nat, n: nat :: Removable(f, i, b, n)
  }

  function RemoveAll(f: Function, ids: seq<nat>): Function {
    if ids == [] then f else RemoveInst(RemoveAll(f, ids[..|ids| - 1]), ids[|ids| - 1])
  }

  /** Each of ids could go when its turn came. */
  ghost predicate AllRemovable(f: Function, ids: seq<nat>) {
    ids != [] ==>
      AllRemovable(f, ids[..|ids| - 1]) && CanRemove(RemoveAll(f, ids[..|ids| - 1]), ids[|ids| - 1])
  }

  lemma RemoveAllNext(f: Function, ids: seq<nat>, i: nat)
    requires AllRemovable(f, ids) && CanRemove(RemoveAll(f, ids), i)
    ensures AllRemovable(f, ids + [i]) && RemoveAll(f, ids + [i]) == RemoveInst(RemoveAll(f, ids), i)
  {
    assert (ids + [i])[..|ids|] == ids;
    hide CanRemove, RemoveInst;
  }

  /** Dead code is not missed: every run that ends, ends in the same way. */
  lemma {:induction false} RemovalsKeepEnds(f: Function, ids: seq<nat>, o: Oracle, args: Env)
    requires AllRemovable(f, ids)
    ensures KeepsEnds(f, RemoveAll(f, ids), o, args)
  {
    hide KeepsEnds, RemoveInst, Removable;
    if ids == [] {
      KeepsEndsSame(f, o, args);
    } else {
      var before := RemoveAll(f, ids[..|ids| - 1]);
      var i := ids[|ids| - 1];
      RemovalsKeepEnds(f, ids[..|ids| - 1], o, args);
      assert CanRemove(before, i);
      var b: nat, n: nat :| Removable(before, i, b, n);
      RemoveKeepsEnds(before, i, b, n, o, args);
      KeepsEndsTrans(f, before, RemoveAll(f, ids), o, args);
    }
  }

  /** The validator accepts what is left of an accepted function. */
  lemma {:induction false} RemovalsKeepAccepted(f: Function, ids: seq<nat>)
    requires AllRemovable(f, ids) && Accepts(f) && Consistent(f) && ResultsOk(f)
    ensures Accepts(RemoveAll(f, ids)) && Consistent(RemoveAll(f, ids)) && ResultsOk(RemoveAll(f, ids))
  {
    hide Accepts, Consistent, ResultsOk, RemoveInst, Removable, Removed;
    if ids != [] {
      var before := RemoveAll(f, ids[..|ids| - 1]);
      var i := ids[|ids| - 1];
      RemovalsKeepAccepted(f, ids[..|ids| - 1]);
      assert CanRemove(before, i);
      var b: nat, n: nat :| Removable(before, i, b, n);
      RemoveKeepsAccepted(before, i, b, n);
    }
  }

  // ---------------------------------------------------------------- the order does not matter

  function Kept(code: seq<nat>, gone: set<nat>): (r: seq<nat>)
    ensures forall x :: x in r <==> x in code && x !in gone
  {
    if code == [] then []
    else if code[0] in gone then Kept(code[1..], gone)
    else [code[0]] + Kept(code[1..], gone)
  }

  ghost predicate Defines(f: Function, gone: set<nat>, v: nat) {
    exists i :: i in gone && i < |f.insts| && f.insts[i].result == Some(v)
  }

  /** f without the instructions in gone, whatever the order they went in. */
  ghost function Pruned(f: Function, gone: set<nat>): Function {
    f.(blocks := seq(|f.blocks|, b requires 0 <= b < |f.blocks| => f.blocks[b].(code := Kept(f.blocks[b].code, gone))),
       insts := seq(|f.insts|, i requires 0 <= i < |f.insts| =>
                    if i in gone then f.insts[i].(opcode := NONE, ops := []) else f.insts[i]),
       vals := seq(|f.vals|, v requires 0 <= v < |f.vals| =>
                   if Defines(f, gone, v) then f.vals[v].(def := None) else f.vals[v]))
  }

  lemma {:induction false} KeptNothing(code: seq<nat>)
    ensures Kept(code, {}) == code
  {
    if code != [] { KeptNothing(code[1..]); }
  }

  lemma PrunedNothing(f: Function)
    ensures Pruned(f, {}) == f
  {
    forall b | 0 <= b < |f.blocks| ensures Pruned(f, {}).blocks[b] == f.blocks[b] { KeptNothing(f.blocks[b].code); }
    assert Pruned(f, {}).blocks == f.blocks && Pruned(f, {}).insts == f.insts && Pruned(f, {}).vals == f.vals;
  }

  lemma {:induction false} KeptWithout(code: seq<nat>, gone: set<nat>, i: nat)
    ensures Without(Kept(code, gone), i) == Kept(code, gone + {i})
  {
    if code != [] {
      KeptWithout(code[1..], gone, i);
      if code[0] !in gone {
        assert ([code[0]] + Kept(code[1..], gone))[1..] == Kept(code[1..], gone);
      }
    }
  }

  lemma {:induction false} KeptAbsent(code: seq<nat>, gone: set<nat>, i: nat)
    requires i !in code
    ensures Kept(code, gone + {i}) == Kept(code, gone)
  {
    if code != [] { KeptAbsent(code[1..], gone, i); }
  }

  lemma PrunedVals(f: Function, gone: set<nat>, i: nat, v: nat)
    requires Live(f, i) && i !in gone && v < |f.vals|
    ensures Pruned(f, gone + {i}).vals[v] == RemoveInst(Pruned(f, gone), i).vals[v]
  {
    hide Kept;
    if Defines(f, gone, v) {
      var j :| j in gone && j < |f.insts| && f.insts[j].result == Some(v);
      assert j in gone + {i} && Defines(f, gone + {i}, v);
    }
    if f.insts[i].result == Some(v) { assert i in gone + {i} && Defines(f, gone + {i}, v); }
    if Defines(f, gone + {i}, v) && f.insts[i].result != Some(v) {
      var j :| j in gone + {i} && j < |f.insts| && f.insts[j].result == Some(v);
      assert j in gone;
    }
  }

  lemma PrunedBlocks(f: Function, gone: set<nat>, i: nat, b: nat)
    requires CodeOk(f) && Live(f, i) && i !in gone && b < |f.blocks|
    ensures Pruned(f, gone + {i}).blocks[b] == RemoveInst(Pruned(f, gone), i).blocks[b]
  {
    var p := Pruned(f, gone);
    assert p.insts[i] == f.insts[i];
    KeptWithout(f.blocks[b].code, gone, i);
    if f.insts[i].block != b {
      forall k | 0 <= k < |f.blocks[b].code|
        ensures f.blocks[b].code[k] != i
      {
        assert f.insts[f.blocks[b].code[k]].block == b;
      }
      KeptAbsent(f.blocks[b].code, gone, i);
    }
    hide Kept, Without, Defines, CodeOk;
  }

  lemma PrunedNext(f: Function, gone: set<nat>, i: nat)
    requires CodeOk(f) && Live(f, i) && i !in gone
    ensures Pruned(f, gone + {i}) == RemoveInst(Pruned(f, gone), i)
  {
    var g, h := Pruned(f, gone + {i}), RemoveInst(Pruned(f, gone), i);
    assert g.entry == h.entry && |g.blocks| == |h.blocks| && |g.insts| == |h.insts| && |g.vals| == |h.vals|;
    forall m | 0 <= m < |g.insts| ensures g.insts[m] == h.insts[m] { }
    hide Pruned, RemoveInst, CodeOk;
    forall b | 0 <= b < |g.blocks|
      ensures g.blocks[b] == h.blocks[b]
    {
      PrunedSizes(f, gone + {i});
      PrunedBlocks(f, gone, i, b);
    }
    forall v | 0 <= v < |g.vals|
      ensures g.vals[v] == h.vals[v]
    {
      PrunedSizes(f, gone + {i});
      PrunedVals(f, gone, i, v);
    }
    assert g.blocks == h.blocks && g.insts == h.insts && g.vals == h.vals;
  }

  lemma PrunedSizes(f: Function, gone: set<nat>)
    ensures |Pruned(f, gone).blocks| == |f.blocks| && |Pruned(f, gone).insts| == |f.insts|
            && |Pruned(f, gone).vals| == |f.vals|
  {
  }

  ghost function IdsOf(ids: seq<nat>): set<nat> {
    set i | i in ids
  }

  lemma LiveInPruned(f: Function, gone: set<nat>, i: nat)
    ensures Live(Pruned(f, gone), i) <==> Live(f, i) && i !in gone
  {
  }

  lemma RemovableIsLive(f: Function, i: nat)
    requires CanRemove(f, i)
    ensures Live(f, i)
  {
  }

  /** Removal sequences are determined by what they remove. */
  lemma {:induction false} RemovalsArePruning(f: Function, ids: seq<nat>)
    requires CodeOk(f) && AllRemovable(f, ids)
    ensures RemoveAll(f, ids) == Pruned(f, IdsOf(ids))
    ensures Survivors(RemoveAll(f, ids)) == Survivors(f) - IdsOf(ids)
  {
    hide Pruned, RemoveInst, CodeOk, CanRemove;
    if ids == [] {
      PrunedNothing(f);
      assert IdsOf(ids) == {};
    } else {
      var rest, i := ids[..|ids| - 1], ids[|ids| - 1];
      RemovalsArePruning(f, rest);
      RemovableIsLive(RemoveAll(f, rest), i);
      LiveInPruned(f, IdsOf(rest), i);
      PrunedNext(f, IdsOf(rest), i);
      assert ids == rest + [i];
      assert IdsOf(ids) == IdsOf(rest) + {i};
    }
    SurvivorsInPruned(f, IdsOf(ids));
  }

  lemma SurvivorsInPruned(f: Function, gone: set<nat>)
    ensures Survivors(Pruned(f, gone)) == Survivors(f) - gone
  {
    hide Pruned;
    forall m: nat ensures Live(Pruned(f, gone), m) <==> Live(f, m) && m !in gone { LiveInPruned(f, gone, m); }
  }

  /** Two ways to remove everything outside the greatest closed set end in the same function. */
  lemma GreatestEndsAlike(f: Function, ids: seq<nat>, ids': seq<nat>)
    requires CodeOk(f) && AllRemovable(f, ids) && AllRemovable(f, ids')
    requires IsGreatestClosed(f, Survivors(RemoveAll(f, ids))) && IsGreatestClosed(f, Survivors(RemoveAll(f, ids')))
    ensures RemoveAll(f, ids) == RemoveAll(f, ids')
  {
    RemovalsArePruning(f, ids);
    RemovalsArePruning(f, ids');
    GreatestUnique(f, Survivors(RemoveAll(f, ids)), Survivors(RemoveAll(f, ids')));
    AllLive(f, ids);
    AllLive(f, ids');
    assert IdsOf(ids) == Survivors(f) - Survivors(RemoveAll(f, ids));
    assert IdsOf(ids') == Survivors(f) - Survivors(RemoveAll(f, ids'));
  }

  lemma GreatestUnique(f: Function, s: set<nat>, t: set<nat>)
    requires IsGreatestClosed(f, s) && IsGreatestClosed(f, t)
    ensures s == t
  {
    assert s <= t && t <= s;
  }

  lemma {:induction false} AllLive(f: Function, ids: seq<nat>)
    requires CodeOk(f) && AllRemovable(f, ids)
    ensures IdsOf(ids) <= Survivors(f)
  {
    hide CodeOk, CanRemove, Pruned;
    if ids != [] {
      var rest, i := ids[..|ids| - 1], ids[|ids| - 1];
      AllLive(f, rest);
      RemovalsArePruning(f, rest);
      RemovableIsLive(RemoveAll(f, rest), i);
      LiveInPruned(f, IdsOf(rest), i);
      assert ids == rest + [i];
      assert IdsOf(ids) == IdsOf(rest) + {i};
    }
  }
}
