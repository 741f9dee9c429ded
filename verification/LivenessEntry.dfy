/** In an accepted function only arguments are live where it starts. */
module LivenessEntry {
  import opened Opcodes
  import opened IntFold
  import opened Cfg
  import opened Ir
  import opened Validate
  import opened ValidateSound
  import opened Liveness

  lemma {:induction false} GenWitness(f: Function, b: nat, n: nat, v: nat) returns (m: nat, k: nat)
    requires b < |f.blocks| && n <= |f.blocks[b].code| && v in GenUpTo(f, b, n)
    ensures m < n && HasInst(f, b, m) && IsReader(InstAt(f, b, m)) && k < |InstAt(f, b, m).ops|
    ensures InstAt(f, b, m).ops[k] == OpValue(v) && v < |f.vals| && v !in KillUpTo(f, b, m)
  {
    if v in GenUpTo(f, b, n - 1) {
      m, k := GenWitness(f, b, n - 1, v);
    } else {
      m := n - 1;
      var ops := InstAt(f, b, m).ops;
      assert OpValue(v) in ops[..|ops|];
      k :| 0 <= k < |ops| && ops[k] == OpValue(v);
    }
  }

  lemma {:induction false} KillHas(f: Function, b: nat, n: nat, q: nat)
    requires b < |f.blocks| && q < n <= |f.blocks[b].code| && HasInst(f, b, q)
    ensures ResultIn(f, InstAt(f, b, q)) <= KillUpTo(f, b, n)
  {
    if q < n - 1 { KillHas(f, b, n - 1, q); }
  }

  lemma {:induction false} PairWitness(f: Function, ops: seq<Operand>, p: nat, n: nat, v: nat) returns (k: nat)
    requires n <= |ops| && v in PairReads(f, ops, p, n)
    ensures k + 1 < n && ops[k] == OpValue(v) && ops[k + 1] == OpBlock(p) && v < |f.vals|
  {
    if v in PairReads(f, ops, p, n - 2) { k := PairWitness(f, ops, p, n - 2, v); } else { k := n - 2; }
  }

  lemma {:induction false} PhiWitness(f: Function, p: nat, s: nat, n: nat, v: nat) returns (m: nat, k: nat)
    requires s < |f.blocks| && n <= |f.blocks[s].code| && v in PhiReadsFrom(f, p, s, n)
    ensures PhiHere(f, s, m) && k + 1 < |InstAt(f, s, m).ops| && v < |f.vals|
    ensures InstAt(f, s, m).ops[k] == OpValue(v) && InstAt(f, s, m).ops[k + 1] == OpBlock(p)
    decreases |f.blocks[s].code| - n
  {
    var ops := InstAt(f, s, n).ops;
    if v in PairReads(f, ops, p, Pairs(ops)) {
      m := n;
      k := PairWitness(f, ops, p, Pairs(ops), v);
    } else {
      m, k := PhiWitness(f, p, s, n + 1, v);
    }
  }

  /** The block of a listed definition defines it. */
  lemma HomeKills(f: Function, v: nat)
    requires DefsOk(f) && Accepts(f) && v < |f.vals| && f.vals[v].kind == InstructionValue
    requires f.vals[v].def.Some? && f.vals[v].def.value < |f.insts|
    ensures f.insts[f.vals[v].def.value].block < |f.blocks| && v in Kill(f, f.insts[f.vals[v].def.value].block)
  {
    var d := f.vals[v].def.value;
    assert Listed(f, d);
    var a := f.insts[d].block;
    var q :| 0 <= q < |f.blocks[a].code| && f.blocks[a].code[q] == d;
    assert BlockAccepted(f, a);
    assert InstAccepted(f, a, q);
    assert HasInst(f, a, q);
    hide Accepts, InstAccepted, DefsOk;
    KillHas(f, a, |f.blocks[a].code|, q);
  }

  lemma EarlierKills(f: Function, b: nat, n: nat, v: nat, d: nat)
    requires DefsOk(f) && b < |f.blocks| && n <= |f.blocks[b].code| && v < |f.vals| && d < |f.insts|
    requires f.vals[v].kind == InstructionValue && f.vals[v].def == Some(d) && f.insts[d].opcode != NONE
    requires exists q :: 0 <= q < n && f.blocks[b].code[q] == d
    ensures v in KillUpTo(f, b, n)
  {
    var q :| 0 <= q < n && f.blocks[b].code[q] == d;
    KillHas(f, b, n, q);
  }

  /** A walk from the entry that no block before its end defines v on cannot end at a use v's definition dominates. */
  lemma WalkAvoids(f: Function, p: seq<nat>, home: nat, v: nat)
    requires Quiet(f, p, v) && p[0] == f.entry && v !in Kill(f, f.entry) && home < |f.blocks| && v in Kill(f, home)
    requires Dominates(GraphOf(f), home, p[|p| - 1])
    ensures home == p[|p| - 1] && |p| > 1
  {
    var g := GraphOf(f);
    hide Kill;
    forall i | 0 <= i < |p| - 1 ensures Edge(g, p[i], p[i + 1]) { assert Hop(f, p[i], p[i + 1]); }
    assert PathTo(g, p, p[|p| - 1]);
    var i :| 0 <= i < |p| && p[i] == home;
  }

  lemma OperandAcceptedAt(f: Function, b: nat, m: nat, k: nat)
    requires Accepts(f) && HasInst(f, b, m) && k < |InstAt(f, b, m).ops|
    ensures OperandAccepted(f, b, m, k)
  {
    hide OperandAccepted;
    assert BlockAccepted(f, b);
    assert InstAccepted(f, b, m);
  }

  /** A value an accepted function reads in block b without defining it there before comes from a dominating block. */
  lemma GenFromAbove(f: Function, b: nat, v: nat)
    requires Accepts(f) && Consistent(f) && b < |f.blocks| && v in Gen(f, b)
    requires v < |f.vals| && f.vals[v].kind == InstructionValue
    ensures f.vals[v].def.Some? && f.vals[v].def.value < |f.insts|
    ensures f.insts[f.vals[v].def.value].block != b && Dominates(GraphOf(f), f.insts[f.vals[v].def.value].block, b)
  {
    var m, k := GenWitness(f, b, |f.blocks[b].code|, v);
    OperandAcceptedAt(f, b, m, k);
    var d := f.vals[v].def.value;
    assert DefsOk(f);
    assert Listed(f, d);
    hide Reachable, Dominates, Gen, KillUpTo, Accepts, Consistent, DefsOk;
    DefinitionLives(f, d);
    if f.insts[d].block == b { EarlierKills(f, b, m, v, d); }
  }

  lemma DefinitionLives(f: Function, d: nat)
    requires Accepts(f) && Listed(f, d)
    ensures f.insts[d].opcode != NONE
  {
    var c := f.insts[d].block;
    var q :| 0 <= q < |f.blocks[c].code| && f.blocks[c].code[q] == d;
    assert BlockAccepted(f, c);
    assert InstAccepted(f, c, q);
  }

  /** A value a PHI takes from block b is defined in b or above. */
  lemma PhiFromAbove(f: Function, b: nat, s: nat, v: nat)
    requires Accepts(f) && Consistent(f) && b < |f.blocks| && s < |f.blocks| && v in PhiReads(f, b, s)
    requires v < |f.vals| && f.vals[v].kind == InstructionValue
    ensures f.vals[v].def.Some? && f.vals[v].def.value < |f.insts|
    ensures Dominates(GraphOf(f), f.insts[f.vals[v].def.value].block, b)
  {
    var m, k := PhiWitness(f, b, s, 0, v);
    OperandAcceptedAt(f, s, m, k);
    SelfDominates(GraphOf(f), b);
    hide Reachable, Dominates, Accepts, Consistent, PhiReadsFrom, PairReads;
  }

  /** No path from the start of an accepted function reads an instruction's value before it is defined. */
  lemma OnlyArgumentsLiveAtEntry(f: Function, v: nat)
    requires Accepts(f) && Consistent(f) && CodeOk(f) && v < |f.vals| && UsedFrom(f, f.entry, v)
    ensures f.vals[v].kind == ArgumentValue
  {
    if f.vals[v].kind == InstructionValue {
      hide Accepts, Reachable, Gen, Kill, PhiReads, PhiDefs, CodeOk;
      if v in Gen(f, f.entry) {
        GenFromAbove(f, f.entry, v);
        EntryBlock(f);
        EntryAlone(GraphOf(f), f.insts[f.vals[v].def.value].block);
      } else {
        var p :| UsedAlong(f, p, f.entry, v);
        UseImpossible(f, p, v);
      }
    }
  }

  lemma EntryBlock(f: Function)
    requires Consistent(f)
    ensures f.entry < |f.blocks|
  {
  }

  lemma UseImpossible(f: Function, p: seq<nat>, v: nat)
    requires Accepts(f) && Consistent(f) && f.entry < |f.blocks| && v < |f.vals| && f.vals[v].kind == InstructionValue
    requires v !in Kill(f, f.entry)
    ensures !UsedAlong(f, p, f.entry, v)
  {
    if UsedAlong(f, p, f.entry, v) {
      var last := p[|p| - 1];
      assert DefsOk(f);
      hide Accepts, Consistent, DefsOk, Reachable, Dominates, Gen, Kill, PhiReads, PhiDefs;
      if |p| > 1 && v in Gen(f, last) && v !in PhiDefs(f, last) {
        GenFromAbove(f, last, v);
        HomeKills(f, v);
        WalkAvoids(f, p, f.insts[f.vals[v].def.value].block, v);
      } else {
        var s :| s in f.blocks[last].succs && s < |f.blocks| && v in PhiReads(f, last, s);
        PhiFromAbove(f, last, s, v);
        HomeKills(f, v);
        WalkAvoids(f, p, f.insts[f.vals[v].def.value].block, v);
      }
    }
  }
}
