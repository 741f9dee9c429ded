/**
 * What ny_validate_function (src/ir/validate.c) demands of operands, said of the instructions passed on the way: a use
 * is accepted exactly when its definition stands on every way from the entry to it.
 */
module ValidatePaths {
  import opened Opcodes
  import opened IntFold
  import opened Cfg
  import opened Ir
  import opened Validate

  /** The instructions executed along the blocks of p, in order. */
  function Passed(f: Function, p: seq<nat>): seq<nat> {
    if p == [] then []
    else Passed(f, p[..|p| - 1]) + if p[|p| - 1] < |f.blocks| then f.blocks[p[|p| - 1]].code else []
  }

  /** Every way from the entry to position n of block b passes instruction d. */
  ghost predicate AlwaysPassed(f: Function, d: nat, b: nat, n: nat)
    requires b < |f.blocks| && n <= |f.blocks[b].code|
  {
    forall p :: PathTo(GraphOf(f), p, b) ==> d in Passed(f, p[..|p| - 1]) || d in f.blocks[b].code[..n]
  }

  lemma HomeHolds(f: Function, d: nat, c: nat)
    requires CodeOk(f) && Listed(f, d)
    ensures f.insts[d].block < |f.blocks|
    ensures c < |f.blocks| ==> (d in f.blocks[c].code <==> f.insts[d].block == c)
  {
  }

  lemma {:induction false} PassedMeans(f: Function, p: seq<nat>, d: nat)
    requires CodeOk(f) && Listed(f, d)
    ensures d in Passed(f, p) <==> f.insts[d].block in p
  {
    if p != [] {
      var q, c := p[..|p| - 1], p[|p| - 1];
      PassedMeans(f, q, d);
      HomeHolds(f, d, c);
      assert p == q + [c];
      assert d < |f.insts|;
      hide CodeOk, Listed;
      assert Passed(f, p) == Passed(f, q) + if c < |f.blocks| then f.blocks[c].code else [];
    }
  }

  /** A walk to b that enters it once. */
  lemma {:induction false} EntersOnce(g: Graph, p: seq<nat>, b: nat) returns (q: seq<nat>)
    requires PathTo(g, p, b)
    ensures PathTo(g, q, b) && b !in q[..|q| - 1]
    decreases |p|
  {
    if b in p[..|p| - 1] {
      var k :| 0 <= k < |p| - 1 && p[k] == b;
      PathPrefix(g, p, b, k);
      q := EntersOnce(g, p[..k + 1], b);
    } else {
      q := p;
    }
  }

  /** In the definition's own block only the positions before the use matter. */
  lemma HomeIff(f: Function, d: nat, b: nat, n: nat)
    requires CodeOk(f) && Listed(f, d) && b < |f.blocks| && n <= |f.blocks[b].code| && Reachable(GraphOf(f), b)
    requires f.insts[d].block == b
    ensures AlwaysPassed(f, d, b, n) <==> d in f.blocks[b].code[..n]
  {
    hide CodeOk, Listed;
    if AlwaysPassed(f, d, b, n) {
      var p :| PathTo(GraphOf(f), p, b);
      var q := EntersOnce(GraphOf(f), p, b);
      PassedMeans(f, q[..|q| - 1], d);
    }
  }

  lemma NotHere(f: Function, d: nat, b: nat, n: nat)
    requires CodeOk(f) && d < |f.insts| && b < |f.blocks| && n <= |f.blocks[b].code| && f.insts[d].block != b
    ensures d !in f.blocks[b].code[..n]
  {
  }

  lemma AwayPath(f: Function, d: nat, p: seq<nat>, b: nat)
    requires CodeOk(f) && Listed(f, d) && f.insts[d].block != b && PathTo(GraphOf(f), p, b)
    ensures d in Passed(f, p[..|p| - 1]) <==> f.insts[d].block in p
  {
    PassedMeans(f, p[..|p| - 1], d);
    hide CodeOk, Listed, Passed;
    assert p == p[..|p| - 1] + [b];
  }

  /** In another block the definition's block has to dominate. */
  lemma AwayIff(f: Function, d: nat, b: nat, n: nat)
    requires CodeOk(f) && Listed(f, d) && b < |f.blocks| && n <= |f.blocks[b].code| && Reachable(GraphOf(f), b)
    requires f.insts[d].block != b
    ensures AlwaysPassed(f, d, b, n) <==> Strictly(f, f.insts[d].block, b)
  {
    var g, home := GraphOf(f), f.insts[d].block;
    NotHere(f, d, b, n);
    hide CodeOk, Listed, Passed, PathTo;
    forall p | PathTo(g, p, b) ensures d in Passed(f, p[..|p| - 1]) <==> home in p { AwayPath(f, d, p, b); }
    if AlwaysPassed(f, d, b, n) {
      var p :| PathTo(g, p, b);
      HomeReached(g, p, b, home);
    }
  }

  lemma HomeReached(g: Graph, p: seq<nat>, b: nat, home: nat)
    requires PathTo(g, p, b) && home in p
    ensures Reachable(g, home)
  {
    var k :| 0 <= k < |p| && p[k] == home;
    PathPrefix(g, p, b, k);
  }

  // ---------------------------------------------------------------- operands

  /**
   * The definition d of operand k of the instruction at position n of block b is where it has to be. A PHI reads at the
   * end of the block its pair names. In a block that no path reaches, d has to stand there, too, before the use.
   */
  ghost predicate InPlace(f: Function, b: nat, n: nat, k: nat, d: nat)
    requires HasInst(f, b, n) && k < |InstAt(f, b, n).ops| && d < |f.insts|
  {
    var ops := InstAt(f, b, n).ops;
    if InstAt(f, b, n).opcode != PHI then
      if Reachable(GraphOf(f), b) then AlwaysPassed(f, d, b, n) else d in f.blocks[b].code[..n]
    else
      k + 1 < |ops| && ops[k + 1].OpBlock? ==>
        var p := ops[k + 1].blk;
        if p < |f.blocks| && Reachable(GraphOf(f), p) then AlwaysPassed(f, d, p, |f.blocks[p].code|)
        else f.insts[d].block == p
  }

  lemma PlainInPlaceIff(f: Function, b: nat, n: nat, k: nat, d: nat)
    requires CodeOk(f) && Listed(f, d) && HasInst(f, b, n) && k < |InstAt(f, b, n).ops|
    requires InstAt(f, b, n).opcode != PHI
    ensures DefAccepted(f, b, n, k, Some(d)) <==> InPlace(f, b, n, k, d)
  {
    assert d < |f.insts|;
    hide CodeOk, Listed, Reachable, Dominates;
    if f.insts[d].block == b {
      if Reachable(GraphOf(f), b) { HomeIff(f, d, b, n); }
    } else {
      if Reachable(GraphOf(f), b) { AwayIff(f, d, b, n); } else { NotHere(f, d, b, n); }
    }
  }

  lemma PathInRange(f: Function, p: nat)
    requires Reachable(GraphOf(f), p)
    ensures p < |f.blocks|
  {
  }

  lemma PhiInPlaceIff(f: Function, b: nat, n: nat, k: nat, d: nat)
    requires CodeOk(f) && Listed(f, d) && HasInst(f, b, n) && k < |InstAt(f, b, n).ops|
    requires InstAt(f, b, n).opcode == PHI
    ensures DefAccepted(f, b, n, k, Some(d)) <==> InPlace(f, b, n, k, d)
  {
    var ops := InstAt(f, b, n).ops;
    if k + 1 < |ops| && ops[k + 1].OpBlock? {
      var p := ops[k + 1].blk;
      hide CodeOk, Reachable, Dominates;
      if Reachable(GraphOf(f), p) {
        PathInRange(f, p);
        assert f.blocks[p].code[..|f.blocks[p].code|] == f.blocks[p].code;
        if f.insts[d].block == p { HomeIff(f, d, p, |f.blocks[p].code|); } else {
          AwayIff(f, d, p, |f.blocks[p].code|);
        }
      }
    }
  }

  /** Operand k reads an argument, or a value whose definition is in place. */
  ghost predicate UseOk(f: Function, b: nat, n: nat, k: nat)
    requires HasInst(f, b, n) && k < |InstAt(f, b, n).ops|
  {
    var op := InstAt(f, b, n).ops[k];
    op.OpValue? ==>
      op.val < |f.vals| &&
      var v := f.vals[op.val];
      v.kind == InstructionValue ==> v.def.Some? && v.def.value < |f.insts| && InPlace(f, b, n, k, v.def.value)
  }

  lemma UseOkIff(f: Function, b: nat, n: nat, k: nat)
    requires CodeOk(f) && DefsOk(f) && HasInst(f, b, n) && k < |InstAt(f, b, n).ops|
    ensures OperandAccepted(f, b, n, k) <==> UseOk(f, b, n, k)
  {
    var op := InstAt(f, b, n).ops[k];
    if op.OpValue? && op.val < |f.vals| && f.vals[op.val].kind == InstructionValue {
      var def := f.vals[op.val].def;
      if def.Some? && def.value < |f.insts| {
        assert Listed(f, def.value);
        hide CodeOk, DefsOk, Listed, InPlace, DefAccepted;
        if InstAt(f, b, n).opcode == PHI {
          PhiInPlaceIff(f, b, n, k, def.value);
        } else {
          PlainInPlaceIff(f, b, n, k, def.value);
        }
      }
    }
    hide InPlace, CodeOk, DefsOk;
  }

  // ---------------------------------------------------------------- the whole function

  /** The shape of one instruction: alive, in its block, a PHI among the first and with whole pairs. */
  ghost predicate InstShape(f: Function, b: nat, n: nat)
    requires HasInst(f, b, n)
  {
    var inst := InstAt(f, b, n);
    && inst.opcode != NONE && inst.block == b
    && (inst.opcode == PHI ==> |inst.ops| % 2 == 0 && forall m: nat :: m < n && HasInst(f, b, m) ==>
        InstAt(f, b, m).opcode == PHI)
  }

  /** A block without instructions has no edges and is not the entry; any other ends in a terminator. */
  ghost predicate BlockShape(f: Function, b: nat)
    requires b < |f.blocks|
  {
    var blk := f.blocks[b];
    if blk.code == [] then b != f.entry && blk.preds == [] && blk.succs == []
    else
      HasInst(f, b, |blk.code| - 1)
      && InstAt(f, b, |blk.code| - 1).opcode in {BRANCH, BRANCH_IF, SWITCH, RETURN, TRAP}
  }

  /** Every instruction of block b has its shape and its definitions in place. */
  ghost predicate BlockOk(f: Function, b: nat)
    requires b < |f.blocks|
  {
    && BlockShape(f, b)
    && (forall n: nat :: HasInst(f, b, n) ==> InstShape(f, b, n))
    && (forall n: nat, k: nat :: HasInst(f, b, n) && k < |InstAt(f, b, n).ops| ==> UseOk(f, b, n, k))
  }

  lemma InstIff(f: Function, b: nat, n: nat)
    requires CodeOk(f) && DefsOk(f) && HasInst(f, b, n)
    ensures InstAccepted(f, b, n) <==>
              InstShape(f, b, n) && forall k: nat :: k < |InstAt(f, b, n).ops| ==> UseOk(f, b, n, k)
  {
    UsesIff(f, b, n);
    PhisIff(f, b, n);
    hide DefsOk, CodeOk, UseOk, OperandsAccepted;
  }

  lemma UsesIff(f: Function, b: nat, n: nat)
    requires CodeOk(f) && DefsOk(f) && HasInst(f, b, n)
    ensures OperandsAccepted(f, b, n, |InstAt(f, b, n).ops|) <==>
              forall k: nat :: k < |InstAt(f, b, n).ops| ==> UseOk(f, b, n, k)
  {
    hide DefsOk, CodeOk, UseOk, OperandAccepted;
    forall k: nat | k < |InstAt(f, b, n).ops| ensures OperandAccepted(f, b, n, k) <==> UseOk(f, b, n, k) {
      UseOkIff(f, b, n, k);
    }
  }

  lemma PhisIff(f: Function, b: nat, n: nat)
    requires CodeOk(f) && HasInst(f, b, n)
    ensures (forall m: nat :: m < n ==> IsPhiAt(f, b, m)) <==>
              forall m: nat :: m < n && HasInst(f, b, m) ==> InstAt(f, b, m).opcode == PHI
  {
    if forall m: nat :: m < n && HasInst(f, b, m) ==> InstAt(f, b, m).opcode == PHI {
      forall m: nat | m < n ensures IsPhiAt(f, b, m) { assert HasInst(f, b, m); }
    }
    if forall m: nat :: m < n ==> IsPhiAt(f, b, m) {
      forall m: nat | m < n && HasInst(f, b, m) ensures InstAt(f, b, m).opcode == PHI { assert IsPhiAt(f, b, m); }
    }
  }

  lemma BlockIff(f: Function, b: nat)
    requires CodeOk(f) && DefsOk(f) && b < |f.blocks|
    ensures BlockAccepted(f, b) <==> BlockOk(f, b)
  {
    assert forall n: nat :: n < |f.blocks[b].code| <==> HasInst(f, b, n);
    hide DefsOk, CodeOk, UseOk, InstShape, InstAccepted;
    forall n: nat | HasInst(f, b, n)
      ensures InstAccepted(f, b, n) <==>
                InstShape(f, b, n) && forall k: nat :: k < |InstAt(f, b, n).ops| ==> UseOk(f, b, n, k)
    {
      InstIff(f, b, n);
    }
  }

  /** A function is accepted exactly when it has the shape and every definition is in place. */
  lemma AcceptedIff(f: Function)
    requires CodeOk(f) && DefsOk(f)
    ensures Accepts(f) <==> f.blocks[f.entry].preds == [] && forall b: nat :: b < |f.blocks| ==> BlockOk(f, b)
  {
    assert f.entry < |f.blocks|;
    hide DefsOk, CodeOk, BlockOk, BlockAccepted;
    forall b: nat | b < |f.blocks| ensures BlockAccepted(f, b) <==> BlockOk(f, b) { BlockIff(f, b); }
    assert f.blocks[f.entry].preds == [] <==> |f.blocks[f.entry].preds| == 0;
  }
}
