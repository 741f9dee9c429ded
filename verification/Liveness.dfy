/** Liveness (src/analysis/liveness.c): the backward fixpoint ends on exactly the values some path still reads. */
module Liveness {
  import opened Opcodes
  import opened Ir

  // ---------------------------------------------------------------- one block

  function ResultIn(f: Function, inst: Instruction): set<nat> {
    if inst.opcode != NONE && inst.result.Some? && inst.result.value < |f.vals| then {inst.result.value} else {}
  }

  /** The values the first k operands read. */
  function ReadsUpTo(f: Function, ops: seq<Operand>, k: nat): (s: set<nat>)
    requires k <= |ops|
    ensures forall v: nat :: v in s <==> v < |f.vals| && OpValue(v) in ops[..k]
  {
    if k == 0 then {}
    else
      assert ops[..k] == ops[..k - 1] + [ops[k - 1]];
      ReadsUpTo(f, ops, k - 1) + if ops[k - 1].OpValue? && ops[k - 1].val < |f.vals| then {ops[k - 1].val} else {}
  }

  predicate IsReader(inst: Instruction) {
    inst.opcode != NONE && inst.opcode != PHI
  }

  /** Values defined by the first n instructions of block b. */
  function KillUpTo(f: Function, b: nat, n: nat): set<nat>
    requires b < |f.blocks| && n <= |f.blocks[b].code|
  {
    if n == 0 then {}
    else KillUpTo(f, b, n - 1) + if HasInst(f, b, n - 1) then ResultIn(f, InstAt(f, b, n - 1)) else {}
  }

  /** Values the first n instructions read before defining them; PHIs read elsewhere. */
  function GenUpTo(f: Function, b: nat, n: nat): set<nat>
    requires b < |f.blocks| && n <= |f.blocks[b].code|
  {
    if n == 0 then {}
    else
      GenUpTo(f, b, n - 1) +
      if HasInst(f, b, n - 1) && IsReader(InstAt(f, b, n - 1)) then
        ReadsUpTo(f, InstAt(f, b, n - 1).ops, |InstAt(f, b, n - 1).ops|) - KillUpTo(f, b, n - 1)
      else {}
  }

  function PhiDefsUpTo(f: Function, b: nat, n: nat): set<nat>
    requires b < |f.blocks| && n <= |f.blocks[b].code|
  {
    if n == 0 then {}
    else
      PhiDefsUpTo(f, b, n - 1) +
      if HasInst(f, b, n - 1) && InstAt(f, b, n - 1).opcode == PHI then ResultIn(f, InstAt(f, b, n - 1)) else {}
  }

  function Kill(f: Function, b: nat): set<nat>
    requires b < |f.blocks|
  {
    KillUpTo(f, b, |f.blocks[b].code|)
  }

  function Gen(f: Function, b: nat): set<nat>
    requires b < |f.blocks|
  {
    GenUpTo(f, b, |f.blocks[b].code|)
  }

  function PhiDefs(f: Function, b: nat): set<nat>
    requires b < |f.blocks|
  {
    PhiDefsUpTo(f, b, |f.blocks[b].code|)
  }

  /** What the first k operand pairs take from predecessor p. */
  function PairReads(f: Function, ops: seq<Operand>, p: nat, k: nat): set<nat>
    requires k <= |ops|
    decreases k
  {
    if k < 2 then {}
    else
      PairReads(f, ops, p, k - 2) +
      if ops[k - 1] == OpBlock(p) && ops[k - 2].OpValue? && ops[k - 2].val < |f.vals| then {ops[k - 2].val} else {}
  }

  predicate PhiHere(f: Function, s: nat, n: nat) {
    HasInst(f, s, n) && InstAt(f, s, n).opcode == PHI
  }

  /** The whole pairs of an operand list: an odd operand at the end belongs to none. */
  function Pairs(ops: seq<Operand>): (k: nat)
    ensures k <= |ops| && k % 2 == 0
  {
    |ops| - |ops| % 2
  }

  /** What the PHIs at the start of block s, from position n on, take from predecessor p. */
  function PhiReadsFrom(f: Function, p: nat, s: nat, n: nat): set<nat>
    requires s < |f.blocks| && n <= |f.blocks[s].code|
    decreases |f.blocks[s].code| - n
  {
    if n < |f.blocks[s].code| && PhiHere(f, s, n) then
      PairReads(f, InstAt(f, s, n).ops, p, Pairs(InstAt(f, s, n).ops)) + PhiReadsFrom(f, p, s, n + 1)
    else {}
  }

  function PhiReads(f: Function, p: nat, s: nat): set<nat>
    requires s < |f.blocks|
  {
    PhiReadsFrom(f, p, s, 0)
  }

  // ---------------------------------------------------------------- the equations

  /** live-out of b over its first k successors. */
  ghost function OutUpTo(f: Function, live: seq<set<nat>>, b: nat, k: nat): set<nat>
    requires |live| == |f.blocks| && b < |f.blocks| && k <= |f.blocks[b].succs|
  {
    if k == 0 then {}
    else
      var s := f.blocks[b].succs[k - 1];
      OutUpTo(f, live, b, k - 1) + if s < |f.blocks| then (live[s] - PhiDefs(f, s)) + PhiReads(f, b, s) else {}
  }

  ghost function Out(f: Function, live: seq<set<nat>>, b: nat): set<nat>
    requires |live| == |f.blocks| && b < |f.blocks|
  {
    OutUpTo(f, live, b, |f.blocks[b].succs|)
  }

  ghost function In(f: Function, live: seq<set<nat>>, b: nat): set<nat>
    requires |live| == |f.blocks| && b < |f.blocks|
  {
    Gen(f, b) + (Out(f, live, b) - Kill(f, b))
  }

  ghost predicate Solved(f: Function, live: seq<set<nat>>, out: seq<set<nat>>) {
    && |live| == |f.blocks| && |out| == |f.blocks|
    && (forall b :: 0 <= b < |f.blocks| ==> out[b] == Out(f, live, b) && live[b] == In(f, live, b))
  }

  // ---------------------------------------------------------------- paths to a use

  ghost predicate Hop(f: Function, u: nat, v: nat) {
    u < |f.blocks| && v < |f.blocks| && v in f.blocks[u].succs
  }

  /** A walk along edges whose inner blocks do not define v. */
  ghost predicate Quiet(f: Function, p: seq<nat>, v: nat) {
    && |p| > 0 && (forall i :: 0 <= i < |p| ==> p[i] < |f.blocks|)
    && (forall i :: 0 <= i < |p| - 1 ==> Hop(f, p[i], p[i + 1]))
    && (forall i :: 0 < i < |p| - 1 ==> v !in Kill(f, p[i]))
  }

  /** v is read at the end of the walk: in its last block, before any definition there, or by a PHI after it. */
  ghost predicate ReadAtEnd(f: Function, p: seq<nat>, v: nat)
    requires |p| > 0 && p[|p| - 1] < |f.blocks|
  {
    var last := p[|p| - 1];
    || (|p| > 1 && v in Gen(f, last) && v !in PhiDefs(f, last))
    || ((|p| > 1 ==> v !in Kill(f, last)) &&
        exists s :: s in f.blocks[last].succs && s < |f.blocks| && v in PhiReads(f, last, s))
  }

  ghost predicate UsedAlong(f: Function, p: seq<nat>, b: nat, v: nat) {
    Quiet(f, p, v) && p[0] == b && ReadAtEnd(f, p, v)
  }

  /** Some path from the end of block b reads v before any definition of it. */
  ghost predicate UsedLater(f: Function, b: nat, v: nat) {
    exists p :: UsedAlong(f, p, b, v)
  }

  /** Some path from the start of block b reads v before any definition of it. */
  ghost predicate UsedFrom(f: Function, b: nat, v: nat)
    requires b < |f.blocks|
  {
    v in Gen(f, b) || (v !in Kill(f, b) && UsedLater(f, b, v))
  }

  lemma {:induction false} PhiDefsKilled(f: Function, b: nat, n: nat)
    requires b < |f.blocks| && n <= |f.blocks[b].code|
    ensures PhiDefsUpTo(f, b, n) <= KillUpTo(f, b, n)
  {
    if n > 0 { PhiDefsKilled(f, b, n - 1); }
  }

  lemma {:induction false} OutMember(f: Function, live: seq<set<nat>>, b: nat, k: nat, v: nat)
    requires |live| == |f.blocks| && b < |f.blocks| && k <= |f.blocks[b].succs|
    ensures v in OutUpTo(f, live, b, k) <==>
              exists j :: 0 <= j < k && f.blocks[b].succs[j] < |f.blocks|
                && FromSucc(f, live, b, f.blocks[b].succs[j], v)
  {
    hide PhiDefs, PhiReads;
    if k > 0 {
      OutMember(f, live, b, k - 1, v);
      var s := f.blocks[b].succs[k - 1];
      if s < |f.blocks| && FromSucc(f, live, b, s, v) { assert v in OutUpTo(f, live, b, k); }
    }
  }

  /** v comes into the live-out of b from its successor s. */
  ghost predicate FromSucc(f: Function, live: seq<set<nat>>, b: nat, s: nat, v: nat)
    requires |live| == |f.blocks| && s < |f.blocks|
  {
    (v in live[s] && v !in PhiDefs(f, s)) || v in PhiReads(f, b, s)
  }

  lemma OutFromSucc(f: Function, live: seq<set<nat>>, b: nat, s: nat, v: nat)
    requires |live| == |f.blocks| && Hop(f, b, s) && FromSucc(f, live, b, s, v)
    ensures v in Out(f, live, b)
  {
    var j :| 0 <= j < |f.blocks[b].succs| && f.blocks[b].succs[j] == s;
    OutMember(f, live, b, |f.blocks[b].succs|, v);
  }

  lemma OutHasSucc(f: Function, live: seq<set<nat>>, b: nat, v: nat) returns (s: nat)
    requires |live| == |f.blocks| && b < |f.blocks| && v in Out(f, live, b)
    ensures Hop(f, b, s) && FromSucc(f, live, b, s, v)
  {
    OutMember(f, live, b, |f.blocks[b].succs|, v);
    var j :| 0 <= j < |f.blocks[b].succs| && f.blocks[b].succs[j] < |f.blocks|
        && FromSucc(f, live, b, f.blocks[b].succs[j], v);
    s := f.blocks[b].succs[j];
  }

  lemma TailQuiet(f: Function, p: seq<nat>, v: nat)
    requires Quiet(f, p, v) && |p| > 1
    ensures Quiet(f, p[1..], v)
  {
    hide Hop, Kill;
    var q := p[1..];
    forall i | 0 <= i < |q| - 1 ensures Hop(f, q[i], q[i + 1]) { assert Hop(f, p[i + 1], p[i + 1 + 1]); }
    forall i | 0 < i < |q| - 1 ensures v !in Kill(f, q[i]) { assert v !in Kill(f, p[i + 1]); }
  }

  lemma TailRead(f: Function, p: seq<nat>, v: nat)
    requires Quiet(f, p, v) && |p| > 1 && ReadAtEnd(f, p, v)
    requires !(|p| == 2 && v in Gen(f, p[1]) && v !in PhiDefs(f, p[1]))
    ensures Quiet(f, p[1..], v) && ReadAtEnd(f, p[1..], v)
  {
    TailQuiet(f, p, v);
    hide Quiet, Gen, Kill, PhiDefs, PhiReads;
    assert p[1..][|p| - 2] == p[|p| - 1];
  }

  /** Completeness: at a solution, every path to a use has set its bits. */
  lemma {:induction false} PathIsLive(f: Function, live: seq<set<nat>>, out: seq<set<nat>>, p: seq<nat>, v: nat)
    requires Solved(f, live, out) && Quiet(f, p, v) && ReadAtEnd(f, p, v)
    ensures v in out[p[0]]
    decreases |p|
  {
    var b := p[0];
    if |p| == 1 {
      var s :| s in f.blocks[b].succs && s < |f.blocks| && v in PhiReads(f, b, s);
      OutFromSucc(f, live, b, s, v);
    } else {
      hide Gen, Kill, PhiDefs, PhiReads, Out, In;
      var s, q := p[1], p[1..];
      assert Hop(f, p[0], p[0 + 1]);
      assert q[|q| - 1] == p[|p| - 1];
      PhiDefsKilled(f, s, |f.blocks[s].code|);
      assert live[s] == In(f, live, s) && out[b] == Out(f, live, b) && out[s] == Out(f, live, s);
      if |p| == 2 && v in Gen(f, s) && v !in PhiDefs(f, s) {
        InMember(f, live, s, v);
      } else {
        TailQuiet(f, p, v);
        TailRead(f, p, v);
        PathIsLive(f, live, out, q, v);
        InMember(f, live, s, v);
        DefsAreKills(f, s, v);
      }
      OutFromSucc(f, live, b, s, v);
    }
  }

  lemma InMember(f: Function, live: seq<set<nat>>, b: nat, v: nat)
    requires |live| == |f.blocks| && b < |f.blocks|
    ensures v in In(f, live, b) <==> v in Gen(f, b) || (v in Out(f, live, b) && v !in Kill(f, b))
  {
  }

  lemma DefsAreKills(f: Function, b: nat, v: nat)
    requires b < |f.blocks|
    ensures v !in Kill(f, b) ==> v !in PhiDefs(f, b)
  {
    PhiDefsKilled(f, b, |f.blocks[b].code|);
  }

  /** Every bit is there because of a path. */
  ghost predicate Sound(f: Function, live: seq<set<nat>>)
    requires |live| == |f.blocks|
  {
    forall b, v :: 0 <= b < |f.blocks| && v in live[b] ==> UsedFrom(f, b, v)
  }

  lemma ExtendUse(f: Function, b: nat, s: nat, v: nat, q: seq<nat>)
    requires Hop(f, b, s) && UsedAlong(f, q, s, v) && v !in Kill(f, s)
    ensures UsedAlong(f, [b] + q, b, v)
  {
    var p := [b] + q;
    hide Kill, Gen, PhiDefs, PhiReads;
    forall i | 0 <= i < |p| - 1 ensures Hop(f, p[i], p[i + 1]) {
      if i > 0 { assert Hop(f, q[i - 1], q[i - 1 + 1]); }
    }
    assert p[|p| - 1] == q[|q| - 1];
  }

  lemma OutSound(f: Function, live: seq<set<nat>>, b: nat, v: nat)
    requires |live| == |f.blocks| && Sound(f, live) && b < |f.blocks| && v in Out(f, live, b)
    ensures UsedLater(f, b, v)
  {
    hide Gen, Kill, PhiDefs, PhiReads, Out, Sound;
    var s := OutHasSucc(f, live, b, v);
    if v in PhiReads(f, b, s) {
      assert UsedAlong(f, [b], b, v);
    } else {
      assert UsedFrom(f, s, v) by { assert Sound(f, live); SoundAt(f, live, s, v); }
      if v in Gen(f, s) {
        assert UsedAlong(f, [b, s], b, v);
      } else {
        var q :| UsedAlong(f, q, s, v);
        ExtendUse(f, b, s, v, q);
      }
    }
  }

  lemma SoundAt(f: Function, live: seq<set<nat>>, b: nat, v: nat)
    requires |live| == |f.blocks| && Sound(f, live) && b < |f.blocks| && v in live[b]
    ensures UsedFrom(f, b, v)
  {
  }

  /** Recomputing a row keeps all bits justified. */
  lemma StepSound(f: Function, live: seq<set<nat>>, b: nat)
    requires |live| == |f.blocks| && Sound(f, live) && b < |f.blocks|
    ensures Sound(f, live[b := In(f, live, b)])
  {
    hide Gen, Kill, Out, UsedLater;
    forall c, v | 0 <= c < |f.blocks| && v in live[b := In(f, live, b)][c] ensures UsedFrom(f, c, v) {
      if c == b && v in Out(f, live, b) { OutSound(f, live, b, v); }
    }
  }

  lemma AlongIsLive(f: Function, live: seq<set<nat>>, out: seq<set<nat>>, p: seq<nat>, b: nat, v: nat)
    requires Solved(f, live, out) && UsedAlong(f, p, b, v)
    ensures b < |f.blocks| && v in out[b]
  {
    PathIsLive(f, live, out, p, v);
  }

  // ---------------------------------------------------------------- the least solution

  ghost predicate RowsBelow(a: seq<set<nat>>, b: seq<set<nat>>) {
    |a| == |b| && forall k :: 0 <= k < |a| ==> a[k] <= b[k]
  }

  /** The rows solve the equations, and every other solution has all their bits. */
  ghost predicate IsLeast(f: Function, live: seq<set<nat>>, out: seq<set<nat>>) {
    Solved(f, live, out) && forall rows, outs :: Solved(f, rows, outs) ==> RowsBelow(live, rows)
  }

  /** At a solution, what is used from a block on is live there. */
  lemma UsedIsLive(f: Function, live: seq<set<nat>>, out: seq<set<nat>>, b: nat, v: nat)
    requires Solved(f, live, out) && b < |f.blocks| && UsedFrom(f, b, v)
    ensures v in live[b]
  {
    hide Gen, Kill, Out, In, UsedAlong;
    assert out[b] == Out(f, live, b) && live[b] == In(f, live, b);
    InMember(f, live, b, v);
    if v !in Gen(f, b) {
      var p :| UsedAlong(f, p, b, v);
      AlongIsLive(f, live, out, p, b, v);
    }
  }

  /** A use after b is in a PHI of a successor, or comes from a successor on. */
  lemma UseHasSucc(f: Function, b: nat, v: nat) returns (s: nat)
    requires UsedLater(f, b, v)
    ensures Hop(f, b, s) && (v in PhiReads(f, b, s) || (UsedFrom(f, s, v) && v !in PhiDefs(f, s)))
  {
    hide Gen, Kill, PhiDefs, PhiReads;
    var p :| UsedAlong(f, p, b, v);
    if |p| == 1 {
      s :| s in f.blocks[b].succs && s < |f.blocks| && v in PhiReads(f, b, s);
    } else {
      s := p[1];
      assert Hop(f, p[0], p[0 + 1]);
      if !(|p| == 2 && v in Gen(f, s) && v !in PhiDefs(f, s)) {
        TailRead(f, p, v);
        assert UsedAlong(f, p[1..], s, v);
        DefsAreKills(f, s, v);
      }
    }
  }

  /** The bits of the rows that some path justifies. */
  ghost function Justified(f: Function, live: seq<set<nat>>): (r: seq<set<nat>>)
    requires |live| == |f.blocks|
    ensures |r| == |live| && Sound(f, r) && RowsBelow(r, live)
    ensures forall b, v :: 0 <= b < |r| && v in live[b] && UsedFrom(f, b, v) ==> v in r[b]
  {
    seq(|live|, b requires 0 <= b < |live| => set v | v in live[b] && UsedFrom(f, b, v))
  }

  /** More live rows, more live-out. */
  lemma OutGrows(f: Function, a: seq<set<nat>>, live: seq<set<nat>>, b: nat, v: nat)
    requires |a| == |f.blocks| && RowsBelow(a, live) && b < |f.blocks| && v in Out(f, a, b)
    ensures v in Out(f, live, b)
  {
    hide Out, PhiDefs, PhiReads;
    var s := OutHasSucc(f, a, b, v);
    OutFromSucc(f, live, b, s, v);
  }

  /** They solve the equations too. */
  lemma JustifiedAt(f: Function, live: seq<set<nat>>, out: seq<set<nat>>, b: nat, v: nat)
    requires Solved(f, live, out) && b < |f.blocks|
    ensures v in Justified(f, live)[b] <==> v in In(f, Justified(f, live), b)
  {
    hide Gen, Kill, Out, In, PhiDefs, PhiReads, UsedLater, Justified, Sound;
    var r := Justified(f, live);
    assert live[b] == In(f, live, b);
    InMember(f, live, b, v);
    InMember(f, r, b, v);
    if v in r[b] {
      SoundAt(f, r, b, v);
      if v !in Gen(f, b) {
        var s := UseHasSucc(f, b, v);
        if v !in PhiReads(f, b, s) { UsedIsLive(f, live, out, s, v); }
        OutFromSucc(f, r, b, s, v);
      }
    }
    if v in Out(f, r, b) {
      OutSound(f, r, b, v);
      OutGrows(f, r, live, b, v);
    }
  }

  lemma JustifiedSolves(f: Function, live: seq<set<nat>>, out: seq<set<nat>>)
    requires Solved(f, live, out)
    ensures var r := Justified(f, live);
            Solved(f, r, seq(|r|, b requires 0 <= b < |r| => Out(f, r, b)))
  {
    hide In, Out, Justified;
    var r := Justified(f, live);
    forall b | 0 <= b < |f.blocks| ensures r[b] == In(f, r, b) {
      forall v: nat ensures v in r[b] <==> v in In(f, r, b) { JustifiedAt(f, live, out, b, v); }
    }
  }

  /** A solution is the least one exactly when every bit is there because of a path. */
  lemma LeastIffSound(f: Function, live: seq<set<nat>>, out: seq<set<nat>>)
    requires Solved(f, live, out)
    ensures IsLeast(f, live, out) <==> Sound(f, live)
  {
    hide In, Out, UsedFrom, Justified, Solved;
    SolvedSizes(f, live, out);
    if IsLeast(f, live, out) {
      var r := Justified(f, live);
      JustifiedSolves(f, live, out);
      assert RowsBelow(live, r);
      forall b, v | 0 <= b < |live| && v in live[b] ensures UsedFrom(f, b, v) { SoundAt(f, r, b, v); }
    }
    if Sound(f, live) {
      forall rows, outs | Solved(f, rows, outs) ensures RowsBelow(live, rows) {
        SolvedSizes(f, rows, outs);
        forall b, v | 0 <= b < |live| && v in live[b] ensures v in rows[b] { UsedIsLive(f, rows, outs, b, v); }
      }
    }
  }

  lemma SolvedSizes(f: Function, live: seq<set<nat>>, out: seq<set<nat>>)
    requires Solved(f, live, out)
    ensures |live| == |out| == |f.blocks|
  {
  }

  /** The least solution is the meaning: live-out is what some path still reads. */
  lemma LiveOutExact(f: Function, live: seq<set<nat>>, out: seq<set<nat>>, b: nat, v: nat)
    requires IsLeast(f, live, out) && b < |f.blocks|
    ensures v in out[b] <==> UsedLater(f, b, v)
    ensures v in live[b] <==> UsedFrom(f, b, v)
  {
    hide Gen, Kill, Out, Sound, UsedAlong;
    LeastIffSound(f, live, out);
    assert out[b] == Out(f, live, b) && live[b] == In(f, live, b);
    InMember(f, live, b, v);
    if v in out[b] { OutSound(f, live, b, v); }
    if UsedLater(f, b, v) {
      var p :| UsedAlong(f, p, b, v);
      AlongIsLive(f, live, out, p, b, v);
    }
  }

  // ---------------------------------------------------------------- growth

  ghost predicate Grows(f: Function, live: seq<set<nat>>)
    requires |live| == |f.blocks|
  {
    forall b :: 0 <= b < |f.blocks| ==> live[b] <= In(f, live, b)
  }

  lemma {:induction false} OutMonotone(f: Function, live: seq<set<nat>>, live': seq<set<nat>>, b: nat, k: nat)
    requires |live| == |f.blocks| && |live'| == |f.blocks| && b < |f.blocks| && k <= |f.blocks[b].succs|
    requires forall c :: 0 <= c < |live| ==> live[c] <= live'[c]
    ensures OutUpTo(f, live, b, k) <= OutUpTo(f, live', b, k)
  {
    hide PhiDefs, PhiReads;
    if k > 0 { OutMonotone(f, live, live', b, k - 1); }
  }

  lemma StepGrows(f: Function, live: seq<set<nat>>, b: nat)
    requires |live| == |f.blocks| && Grows(f, live) && b < |f.blocks|
    ensures var live' := live[b := In(f, live, b)]; Grows(f, live') && live[b] <= live'[b]
  {
    var live' := live[b := In(f, live, b)];
    hide Gen, Kill, OutUpTo;
    forall c | 0 <= c < |f.blocks| ensures live'[c] <= In(f, live', c) {
      OutMonotone(f, live, live', c, |f.blocks[c].succs|);
    }
  }

  /** How many bits are still clear. */
  ghost function Clear(live: seq<set<nat>>, n: nat): int {
    if live == [] then 0 else Clear(live[1..], n) + n - |live[0]|
  }

  lemma {:induction false} ClearDrops(live: seq<set<nat>>, b: nat, s: set<nat>, n: nat)
    requires b < |live| && live[b] < s
    ensures Clear(live[b := s], n) < Clear(live, n)
  {
    if b == 0 {
      SubsetSmaller(live[0], s);
      assert live[0 := s][1..] == live[1..];
    } else {
      assert live[b := s][1..] == live[1..][b - 1 := s];
      ClearDrops(live[1..], b - 1, s, n);
    }
  }

  lemma {:induction false} SubsetSmaller(a: set<nat>, b: set<nat>)
    requires a < b
    ensures |a| < |b|
  {
    var x :| x in b && x !in a;
    SubsetSize(a, b - {x});
  }

  lemma {:induction false} SubsetSize(a: set<nat>, b: set<nat>)
    requires a <= b
    ensures |a| <= |b|
    decreases |a|
  {
    if a != {} {
      var x :| x in a;
      SubsetSize(a - {x}, b - {x});
    }
  }

  lemma {:induction false} ClearNonNegative(live: seq<set<nat>>, n: nat)
    requires forall b, v :: 0 <= b < |live| && v in live[b] ==> v < n
    ensures Clear(live, n) >= 0
  {
    if live != [] {
      forall b, v | 0 <= b < |live[1..]| && v in live[1..][b] ensures v < n { assert live[1..][b] == live[b + 1]; }
      ClearNonNegative(live[1..], n);
      AtMost(live[0], n);
    }
  }

  lemma {:induction false} AtMost(s: set<nat>, n: nat)
    requires forall v :: v in s ==> v < n
    ensures |s| <= n
  {
    if n > 0 {
      AtMost(s - {n - 1}, n - 1);
    } else {
      assert s == {};
    }
  }
}
