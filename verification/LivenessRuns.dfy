/**
 * What the live-out rows of src/analysis/liveness.c mean: in terms of instructions and paths, and in terms of runs.
 */
module LivenessRuns {
  import opened Opcodes
  import opened IntFold
  import opened Cfg
  import opened Ir
  import opened Validate
  import opened ValidateSound
  import opened Liveness

  // ---------------------------------------------------------------- instructions and paths

  /** The instruction at position n of block b, other than a PHI, has v among its operands. */
  predicate ReadsAt(f: Function, b: nat, n: nat, v: nat) {
    HasInst(f, b, n) && InstAt(f, b, n).opcode !in {NONE, PHI} && OpValue(v) in InstAt(f, b, n).ops
  }

  predicate DefinesAt(f: Function, b: nat, n: nat, v: nat) {
    HasInst(f, b, n) && InstAt(f, b, n).opcode != NONE && InstAt(f, b, n).result == Some(v)
  }

  ghost predicate Defines(f: Function, b: nat, v: nat) {
    exists n: nat :: DefinesAt(f, b, n, v)
  }

  predicate PhiDefinesAt(f: Function, b: nat, n: nat, v: nat) {
    DefinesAt(f, b, n, v) && InstAt(f, b, n).opcode == PHI
  }

  ghost predicate PhiDefines(f: Function, b: nat, v: nat) {
    exists n: nat :: PhiDefinesAt(f, b, n, v)
  }

  /** Position n of block b reads v, and no position before it defines it. */
  ghost predicate ReadsFirstAt(f: Function, b: nat, n: nat, v: nat) {
    ReadsAt(f, b, n, v) && forall m: nat :: m < n ==> !DefinesAt(f, b, m, v)
  }

  /** Block b reads v, and does not define it before. */
  ghost predicate ReadsFirst(f: Function, b: nat, v: nat) {
    exists n: nat :: ReadsFirstAt(f, b, n, v)
  }

  /** A PHI among those at the start of block s has an input v for predecessor p. */
  ghost predicate PhiReadsAt(f: Function, p: nat, s: nat, n: nat, k: nat, v: nat) {
    && PhiHere(f, s, n) && (forall m: nat :: m < n ==> PhiHere(f, s, m))
    && k % 2 == 0 && k + 1 < |InstAt(f, s, n).ops|
    && InstAt(f, s, n).ops[k] == OpValue(v) && InstAt(f, s, n).ops[k + 1] == OpBlock(p)
  }

  ghost predicate TakenAcross(f: Function, p: nat, s: nat, v: nat) {
    exists n: nat, k: nat :: PhiReadsAt(f, p, s, n, k, v)
  }

  /** Blocks along edges, none of the inner ones defining v. */
  ghost predicate CalmPath(f: Function, p: seq<nat>, v: nat) {
    && |p| > 0 && (forall i :: 0 <= i < |p| ==> p[i] < |f.blocks|)
    && (forall i :: 0 <= i < |p| - 1 ==> p[i + 1] in f.blocks[p[i]].succs)
    && (forall i :: 0 < i < |p| - 1 ==> !Defines(f, p[i], v))
  }

  /** A path of blocks from b on that reads v at its end, no block on the way defining it. */
  ghost predicate ReadingPath(f: Function, p: seq<nat>, b: nat, v: nat) {
    && CalmPath(f, p, v) && p[0] == b
    && var last := p[|p| - 1];
       || (|p| > 1 && ReadsFirst(f, last, v) && !PhiDefines(f, last, v))
       || ((|p| > 1 ==> !Defines(f, last, v)) &&
           exists s :: s in f.blocks[last].succs && s < |f.blocks| && TakenAcross(f, last, s, v))
  }

  lemma KillNext(f: Function, b: nat, n: nat, v: nat)
    requires b < |f.blocks| && n < |f.blocks[b].code| && v < |f.vals|
    ensures v in KillUpTo(f, b, n + 1) <==> v in KillUpTo(f, b, n) || DefinesAt(f, b, n, v)
    ensures v in PhiDefsUpTo(f, b, n + 1) <==>
              v in PhiDefsUpTo(f, b, n) || PhiDefinesAt(f, b, n, v)
  {
  }

  lemma {:induction false} KillUpToMeans(f: Function, b: nat, n: nat, v: nat)
    requires b < |f.blocks| && n <= |f.blocks[b].code| && v < |f.vals|
    ensures v in KillUpTo(f, b, n) <==> exists m: nat :: m < n && DefinesAt(f, b, m, v)
  {
    hide DefinesAt;
    if n > 0 {
      var k: nat := n - 1;
      KillUpToMeans(f, b, k, v);
      KillNext(f, b, k, v);
      hide KillUpTo;
      if DefinesAt(f, b, k, v) {
        assert k < n;
      } else if m: nat :| m < n && DefinesAt(f, b, m, v) {
        assert m != k;
      }
    }
  }

  lemma {:induction false} PhiDefsUpToMeans(f: Function, b: nat, n: nat, v: nat)
    requires b < |f.blocks| && n <= |f.blocks[b].code| && v < |f.vals|
    ensures v in PhiDefsUpTo(f, b, n) <==> exists m: nat :: m < n && PhiDefinesAt(f, b, m, v)
  {
    hide PhiDefinesAt;
    if n > 0 {
      var k: nat := n - 1;
      PhiDefsUpToMeans(f, b, k, v);
      KillNext(f, b, k, v);
      hide PhiDefsUpTo;
      if PhiDefinesAt(f, b, k, v) {
        assert k < n;
      } else if m: nat :| m < n && PhiDefinesAt(f, b, m, v) {
        assert m != k;
      }
    }
  }

  lemma ReadsMean(f: Function, b: nat, n: nat, v: nat)
    requires v < |f.vals|
    ensures ReadsAt(f, b, n, v) <==> HasInst(f, b, n) && IsReader(InstAt(f, b, n))
                                     && v in ReadsUpTo(f, InstAt(f, b, n).ops, |InstAt(f, b, n).ops|)
  {
    if HasInst(f, b, n) {
      var ops := InstAt(f, b, n).ops;
      assert ops[..|ops|] == ops;
    }
    hide ReadsUpTo;
  }

  lemma GenNext(f: Function, b: nat, n: nat, v: nat)
    requires b < |f.blocks| && n < |f.blocks[b].code| && v < |f.vals|
    ensures v in GenUpTo(f, b, n + 1) <==> v in GenUpTo(f, b, n) || ReadsFirstAt(f, b, n, v)
  {
    ReadsMean(f, b, n, v);
    KillUpToMeans(f, b, n, v);
    hide ReadsAt, ReadsUpTo, KillUpTo, IsReader, DefinesAt;
  }

  lemma {:induction false} GenUpToMeans(f: Function, b: nat, n: nat, v: nat)
    requires b < |f.blocks| && n <= |f.blocks[b].code| && v < |f.vals|
    ensures v in GenUpTo(f, b, n) <==> exists m: nat :: m < n && ReadsFirstAt(f, b, m, v)
  {
    hide ReadsFirstAt;
    if n > 0 {
      GenUpToMeans(f, b, n - 1, v);
      GenNext(f, b, n - 1, v);
      hide GenUpTo;
      if m: nat :| m < n - 1 && ReadsFirstAt(f, b, m, v) { assert m < n; }
      if ReadsFirstAt(f, b, n - 1, v) { assert exists m: nat :: m < n && ReadsFirstAt(f, b, m, v); }
    }
  }

  lemma PlaceInCode(f: Function, b: nat, n: nat, v: nat)
    requires b < |f.blocks| && (ReadsFirstAt(f, b, n, v) || DefinesAt(f, b, n, v))
    ensures n < |f.blocks[b].code|
  {
  }

  lemma GenMeans(f: Function, b: nat, v: nat)
    requires b < |f.blocks| && v < |f.vals|
    ensures v in Gen(f, b) <==> ReadsFirst(f, b, v)
  {
    hide GenUpTo, ReadsFirstAt;
    GenUpToMeans(f, b, |f.blocks[b].code|, v);
    if n: nat :| ReadsFirstAt(f, b, n, v) { PlaceInCode(f, b, n, v); }
  }

  lemma KillMeans(f: Function, b: nat, v: nat)
    requires b < |f.blocks| && v < |f.vals|
    ensures v in Kill(f, b) <==> Defines(f, b, v)
    ensures v in PhiDefs(f, b) <==> PhiDefines(f, b, v)
  {
    hide KillUpTo, PhiDefsUpTo, DefinesAt;
    KillUpToMeans(f, b, |f.blocks[b].code|, v);
    PhiDefsUpToMeans(f, b, |f.blocks[b].code|, v);
    if n: nat :| DefinesAt(f, b, n, v) { PlaceInCode(f, b, n, v); }
    if n: nat :| PhiDefinesAt(f, b, n, v) { PlaceInCode(f, b, n, v); }
  }

  lemma {:induction false} PairReadsMean(f: Function, ops: seq<Operand>, p: nat, n: nat, v: nat)
    requires n <= |ops| && n % 2 == 0 && v < |f.vals|
    ensures v in PairReads(f, ops, p, n) <==>
              exists k: nat :: k + 1 < n && k % 2 == 0 && ops[k] == OpValue(v) && ops[k + 1] == OpBlock(p)
  {
    if n >= 2 {
      PairReadsMean(f, ops, p, n - 2, v);
      var k: nat := n - 2;
      assert ops[k + 1] == ops[n - 1];
    }
  }

  lemma NoPhiHere(f: Function, s: nat, n: nat)
    requires s < |f.blocks| && !(n < |f.blocks[s].code| && PhiHere(f, s, n))
    ensures !PhiHere(f, s, n)
  {
  }

  lemma OnePhiReads(f: Function, p: nat, s: nat, n: nat, v: nat)
    requires PhiHere(f, s, n) && v < |f.vals| && forall m: nat :: m < n ==> PhiHere(f, s, m)
    ensures v in PairReads(f, InstAt(f, s, n).ops, p, Pairs(InstAt(f, s, n).ops)) <==>
              exists k: nat :: PhiReadsAt(f, p, s, n, k, v)
  {
    var ops := InstAt(f, s, n).ops;
    PairReadsMean(f, ops, p, Pairs(ops), v);
    hide PairReads, PhiHere;
    if v in PairReads(f, ops, p, Pairs(ops)) {
      var k: nat :| k + 1 < Pairs(ops) && k % 2 == 0 && ops[k] == OpValue(v) && ops[k + 1] == OpBlock(p);
      assert PhiReadsAt(f, p, s, n, k, v);
    }
  }

  lemma {:induction false} PhiReadsFromMean(f: Function, p: nat, s: nat, n: nat, v: nat)
    requires s < |f.blocks| && n <= |f.blocks[s].code| && v < |f.vals|
    requires forall m: nat :: m < n ==> PhiHere(f, s, m)
    ensures v in PhiReadsFrom(f, p, s, n) <==> exists m: nat, k: nat :: n <= m && PhiReadsAt(f, p, s, m, k, v)
    decreases |f.blocks[s].code| - n
  {
    if n < |f.blocks[s].code| && PhiHere(f, s, n) {
      PhiReadsFromMean(f, p, s, n + 1, v);
      OnePhiReads(f, p, s, n, v);
      hide PairReads, Pairs, PhiHere, PhiReadsAt;
      if m: nat, k: nat :| n <= m && PhiReadsAt(f, p, s, m, k, v) {
        if m != n { assert n + 1 <= m; }
      }
    } else {
      NoPhiHere(f, s, n);
      hide PhiHere;
      forall m: nat, k: nat | n <= m ensures !PhiReadsAt(f, p, s, m, k, v) {
      }
    }
  }

  lemma PhiReadsMean(f: Function, p: nat, s: nat, v: nat)
    requires s < |f.blocks| && v < |f.vals|
    ensures v in PhiReads(f, p, s) <==> TakenAcross(f, p, s, v)
  {
    PhiReadsFromMean(f, p, s, 0, v);
    hide PhiReadsFrom, PhiReadsAt;
  }

  lemma CalmMeans(f: Function, p: seq<nat>, v: nat)
    requires v < |f.vals|
    ensures Quiet(f, p, v) <==> CalmPath(f, p, v)
  {
    hide Kill, Defines;
    forall i | 0 <= i < |p| && p[i] < |f.blocks| ensures v in Kill(f, p[i]) <==> Defines(f, p[i], v) {
      KillMeans(f, p[i], v);
    }
    if Quiet(f, p, v) {
      forall i | 0 <= i < |p| - 1 ensures p[i + 1] in f.blocks[p[i]].succs { assert Hop(f, p[i], p[i + 1]); }
      forall i | 0 < i < |p| - 1 ensures !Defines(f, p[i], v) { assert v !in Kill(f, p[i]); }
    }
    if CalmPath(f, p, v) {
      forall i | 0 <= i < |p| - 1 ensures Hop(f, p[i], p[i + 1]) {}
      forall i | 0 < i < |p| - 1 ensures v !in Kill(f, p[i]) { assert !Defines(f, p[i], v); }
    }
  }

  lemma PathMeans(f: Function, p: seq<nat>, b: nat, v: nat)
    requires v < |f.vals|
    ensures UsedAlong(f, p, b, v) <==> ReadingPath(f, p, b, v)
  {
    hide Gen, Kill, PhiDefs, PhiReads, ReadsFirst, Defines, PhiDefines, TakenAcross;
    CalmMeans(f, p, v);
    if Quiet(f, p, v) {
      var last := p[|p| - 1];
      GenMeans(f, last, v);
      KillMeans(f, last, v);
      forall s: nat | s < |f.blocks| ensures v in PhiReads(f, last, s) <==> TakenAcross(f, last, s, v) {
        PhiReadsMean(f, last, s, v);
      }
      hide Quiet, CalmPath;
    }
  }

  lemma LaterMeans(f: Function, b: nat, v: nat)
    requires v < |f.vals|
    ensures UsedLater(f, b, v) <==> exists p :: ReadingPath(f, p, b, v)
  {
    hide UsedAlong, ReadingPath;
    if p :| UsedAlong(f, p, b, v) { PathMeans(f, p, b, v); }
    if p :| ReadingPath(f, p, b, v) { PathMeans(f, p, b, v); }
  }

  /** v is live out of b: some path from the end of b reads it. */
  ghost predicate LiveAfter(f: Function, b: nat, v: nat) {
    exists p :: ReadingPath(f, p, b, v)
  }

  /** v is live into b: b reads it first, or leaves it alone and it is live out. */
  ghost predicate LiveBefore(f: Function, b: nat, v: nat) {
    ReadsFirst(f, b, v) || (!Defines(f, b, v) && LiveAfter(f, b, v))
  }

  /** The least solution of the equations, by instructions and paths. */
  lemma LiveRowsMean(f: Function, live: seq<set<nat>>, out: seq<set<nat>>, b: nat, v: nat)
    requires IsLeast(f, live, out) && b < |f.blocks| && v < |f.vals|
    ensures v in out[b] <==> LiveAfter(f, b, v)
    ensures v in live[b] <==> LiveBefore(f, b, v)
  {
    hide IsLeast, UsedLater, Gen, Kill, PhiDefs, ReadsFirst, Defines, PhiDefines, ReadingPath;
    LiveOutExact(f, live, out, b, v);
    LaterMeans(f, b, v);
    GenMeans(f, b, v);
    KillMeans(f, b, v);
  }

  // ---------------------------------------------------------------- runs

  /** Step j of the run is the end of block b. */
  ghost predicate Leaves(f: Function, o: Oracle, args: Env, j: nat, b: nat) {
    && Run(f, o, args, j).Running? && Run(f, o, args, j + 1).Running?
    && var st := Run(f, o, args, j).s;
    st.blk == b && HasInst(f, b, st.pc) && IsTerminator(InstAt(f, b, st.pc).opcode)
  }

  /** Step m has v among its operands, and is not a PHI. */
  ghost predicate StepReads(f: Function, o: Oracle, args: Env, m: nat, v: nat) {
    && Run(f, o, args, m).Running?
    && var st := Run(f, o, args, m).s;
    HasInst(f, st.blk, st.pc) && InstAt(f, st.blk, st.pc).opcode != PHI && OpValue(v) in InstAt(f, st.blk, st.pc).ops
  }

  /** Step m is a PHI that selects v for the edge that step e has taken. */
  ghost predicate StepSelects(f: Function, o: Oracle, args: Env, e: nat, m: nat, v: nat) {
    && Run(f, o, args, m).Running?
    && var st := Run(f, o, args, m).s;
    && m == e + 1 + st.pc && HasInst(f, st.blk, st.pc) && InstAt(f, st.blk, st.pc).opcode == PHI && st.from.Some?
    && PhiOperand(InstAt(f, st.blk, st.pc).ops, st.from.value) == Some(OpValue(v))
  }

  /** Step q executes an instruction whose result is v. */
  ghost predicate StepWrites(f: Function, o: Oracle, args: Env, q: nat, v: nat) {
    && Run(f, o, args, q).Running?
    && var st := Run(f, o, args, q).s;
    HasInst(f, st.blk, st.pc) && InstAt(f, st.blk, st.pc).result == Some(v)
  }

  /**
   * After step j, step m reads v without its having been written in between. What a PHI selects is read on the edge
   * that leads to its block.
   */
  ghost predicate ReadsAfter(f: Function, o: Oracle, args: Env, j: nat, m: nat, v: nat) {
    || (j < m && StepReads(f, o, args, m, v) && forall q :: j < q < m ==> !StepWrites(f, o, args, q, v))
    || (exists e: nat :: j <= e && StepSelects(f, o, args, e, m, v)
                         && forall q :: j < q <= e ==> !StepWrites(f, o, args, q, v))
  }

  /** From position n of block b on, v is read before it is written. */
  ghost predicate Needed(f: Function, b: nat, n: nat, v: nat) {
    || (exists m: nat :: n <= m && ReadsAt(f, b, m, v) && forall q: nat :: n <= q < m ==> !DefinesAt(f, b, q, v))
    || ((forall q: nat :: n <= q ==> !DefinesAt(f, b, q, v)) && UsedLater(f, b, v))
  }

  lemma NeededEarlier(f: Function, b: nat, n: nat, v: nat)
    requires Needed(f, b, n + 1, v) && !DefinesAt(f, b, n, v)
    ensures Needed(f, b, n, v)
  {
    hide ReadsAt, DefinesAt, UsedLater;
  }

  lemma NeededAtEnd(f: Function, b: nat, n: nat, v: nat)
    requires b < |f.blocks| && n + 1 == |f.blocks[b].code| && !DefinesAt(f, b, n, v) && UsedLater(f, b, v)
    ensures Needed(f, b, n, v)
  {
    hide ReadsAt, UsedLater;
  }

  /** PHIs come first, so what is read first in a block is no PHI's result. */
  lemma ReadFirstNotPhi(f: Function, b: nat, v: nat)
    requires Accepts(f) && b < |f.blocks| && ReadsFirst(f, b, v)
    ensures !PhiDefines(f, b, v)
  {
    var n: nat :| ReadsFirstAt(f, b, n, v);
    forall m: nat ensures !PhiDefinesAt(f, b, m, v) {
      if PhiDefinesAt(f, b, m, v) && n < m { EarlierIsPhi(f, b, n, m); }
    }
  }

  lemma EarlierIsPhi(f: Function, b: nat, n: nat, m: nat)
    requires Accepts(f) && IsPhiAt(f, b, m) && n < m
    ensures IsPhiAt(f, b, n)
  {
    hide Reachable, Dominates, OperandsAccepted;
    assert BlockAccepted(f, b);
    assert InstAccepted(f, b, m);
  }

  /** What is needed where an edge leads is used after the block it comes from. */
  lemma NeededAcross(f: Function, b: nat, s: nat, v: nat)
    requires Accepts(f) && Hop(f, b, s) && v < |f.vals| && Needed(f, s, 0, v)
    ensures UsedLater(f, b, v)
  {
    hide Accepts, Gen, Kill, PhiDefs, PhiReads, ReadsAt, DefinesAt;
    GenMeans(f, s, v);
    KillMeans(f, s, v);
    if m: nat :| 0 <= m && ReadsAt(f, s, m, v) && forall q: nat :: 0 <= q < m ==> !DefinesAt(f, s, q, v) {
      assert ReadsFirstAt(f, s, m, v);
      ReadFirstNotPhi(f, s, v);
      assert UsedAlong(f, [b, s], b, v);
    } else {
      var p :| UsedAlong(f, p, s, v);
      ExtendUse(f, b, s, v, p);
    }
  }

  lemma {:induction false} RunBack(f: Function, o: Oracle, args: Env, j: nat, m: nat)
    requires j <= m && Run(f, o, args, m).Running?
    ensures Run(f, o, args, j).Running?
    decreases m - j
  {
    hide Step;
    if j < m { RunBack(f, o, args, j, m - 1); }
  }

  /** A terminator leads along an edge, anything else to the next position. */
  lemma StepLeads(f: Function, o: Oracle, st: State)
    requires EdgesOk(f) && Step(f, o, st).Running?
    ensures HasInst(f, st.blk, st.pc)
    ensures var st' := Step(f, o, st).s;
            if IsTerminator(InstAt(f, st.blk, st.pc).opcode)
            then st.pc + 1 == |f.blocks[st.blk].code| && st'.pc == 0 && st'.from == Some(st.blk)
                 && Hop(f, st.blk, st'.blk)
            else st'.pc == st.pc + 1 && st'.blk == st.blk && st'.from == st.from
  {
    assert HasInst(f, st.blk, st.pc);
    hide Step, IsTerminator, EdgesOk;
    if IsTerminator(InstAt(f, st.blk, st.pc).opcode) { TakesEdge(f, o, st); } else { StepWithin(f, o, st); }
  }

  lemma StepNeeds(f: Function, o: Oracle, args: Env, q: nat, v: nat)
    requires Accepts(f) && EdgesOk(f) && v < |f.vals| && Run(f, o, args, q + 1).Running?
    requires Needed(f, Run(f, o, args, q + 1).s.blk, Run(f, o, args, q + 1).s.pc, v)
    ensures Run(f, o, args, q).Running?
    ensures var st := Run(f, o, args, q).s;
            && HasInst(f, st.blk, st.pc)
            && (IsTerminator(InstAt(f, st.blk, st.pc).opcode) ==> UsedLater(f, st.blk, v))
            && (!StepWrites(f, o, args, q, v) ==> Needed(f, st.blk, st.pc, v))
  {
    hide Accepts, EdgesOk, Step, IsTerminator, Needed, UsedLater, Hop;
    var st := Run(f, o, args, q).s;
    StepLeads(f, o, st);
    if IsTerminator(InstAt(f, st.blk, st.pc).opcode) {
      NeededAcross(f, st.blk, Run(f, o, args, q + 1).s.blk, v);
      if !StepWrites(f, o, args, q, v) { NeededAtEnd(f, st.blk, st.pc, v); }
    } else {
      if !StepWrites(f, o, args, q, v) { NeededEarlier(f, st.blk, st.pc, v); }
    }
  }

  lemma {:induction false} NeedsBack(f: Function, o: Oracle, args: Env, j: nat, m: nat, v: nat)
    requires Accepts(f) && EdgesOk(f) && v < |f.vals| && j <= m && Run(f, o, args, m).Running?
    requires Needed(f, Run(f, o, args, m).s.blk, Run(f, o, args, m).s.pc, v)
    requires forall q :: j <= q < m ==> !StepWrites(f, o, args, q, v)
    ensures Run(f, o, args, j).Running? && Needed(f, Run(f, o, args, j).s.blk, Run(f, o, args, j).s.pc, v)
    decreases m - j
  {
    hide Accepts, EdgesOk, Run, StepWrites, Needed, UsedLater, IsTerminator;
    if j < m {
      StepNeeds(f, o, args, m - 1, v);
      NeedsBack(f, o, args, j, m - 1, v);
    }
  }

  /** A read at a step is a read at its place. */
  lemma StepReadsAt(f: Function, o: Oracle, args: Env, m: nat, v: nat)
    requires Accepts(f) && StepReads(f, o, args, m, v)
    ensures var st := Run(f, o, args, m).s;
            v < |f.vals| && ReadsAt(f, st.blk, st.pc, v) && Needed(f, st.blk, st.pc, v)
  {
    var st := Run(f, o, args, m).s;
    var ops := InstAt(f, st.blk, st.pc).ops;
    var k :| 0 <= k < |ops| && ops[k] == OpValue(v);
    LivesAt(f, st.blk, st.pc);
    ReachedAccepted(f, st, k);
    hide Accepts, Run, UsedLater, DefAccepted;
  }

  lemma LivesAt(f: Function, b: nat, n: nat)
    requires Accepts(f) && HasInst(f, b, n)
    ensures InstAt(f, b, n).opcode != NONE
  {
    hide OperandsAccepted;
    assert BlockAccepted(f, b);
    assert InstAccepted(f, b, n);
  }

  /** The positions before a state's have been passed since its block was entered. */
  lemma {:induction false} SameVisit(f: Function, o: Oracle, args: Env, e: nat, m: nat)
    requires EdgesOk(f) && Run(f, o, args, m).Running? && m == e + 1 + Run(f, o, args, m).s.pc
    ensures Run(f, o, args, e + 1).Running?
    ensures var st, st' := Run(f, o, args, e + 1).s, Run(f, o, args, m).s;
            st.pc == 0 && st.blk == st'.blk && st.from == st'.from
    decreases m
  {
    hide EdgesOk, Step, IsTerminator, Hop;
    if m > e + 1 {
      StepLeads(f, o, Run(f, o, args, m - 1).s);
      SameVisit(f, o, args, e, m - 1);
    }
  }

  /** The pair a PHI selects stands at an even place. */
  lemma {:induction false} SelectedPair(ops: seq<Operand>, p: nat) returns (k: nat)
    requires PhiOperand(ops, p).Some?
    ensures k % 2 == 0 && k + 1 < |ops| && ops[k] == PhiOperand(ops, p).value && ops[k + 1] == OpBlock(p)
  {
    if ops[1] == OpBlock(p) {
      k := 0;
    } else {
      var j := SelectedPair(ops[2..], p);
      k := j + 2;
    }
  }

  /** What the PHI at a state selects is taken across its edge. */
  lemma SelectedAcross(f: Function, st: State, v: nat)
    requires Accepts(f) && HasInst(f, st.blk, st.pc) && InstAt(f, st.blk, st.pc).opcode == PHI && st.from.Some?
    requires PhiOperand(InstAt(f, st.blk, st.pc).ops, st.from.value) == Some(OpValue(v))
    ensures v < |f.vals| && v in PhiReads(f, st.from.value, st.blk)
  {
    var s, n, c := st.blk, st.pc, st.from.value;
    var k := SelectedPair(InstAt(f, s, n).ops, c);
    ReachedAccepted(f, st, k);
    assert v < |f.vals|;
    hide Accepts, DefAccepted, PhiReads;
    forall w: nat | w < n ensures PhiHere(f, s, w) { EarlierIsPhi(f, s, w, n); }
    assert PhiReadsAt(f, c, s, n, k, v);
    PhiReadsMean(f, c, s, v);
  }

  lemma AcrossIsUsed(f: Function, c: nat, s: nat, v: nat)
    requires Hop(f, c, s) && v in PhiReads(f, c, s)
    ensures UsedLater(f, c, v)
  {
    hide PhiReads, Gen, Kill, PhiDefs;
    assert UsedAlong(f, [c], c, v);
  }

  /** What a PHI selects is used after the block its edge comes from. */
  lemma SelectedIsUsed(f: Function, o: Oracle, args: Env, e: nat, m: nat, v: nat)
    requires Accepts(f) && EdgesOk(f) && StepSelects(f, o, args, e, m, v)
    ensures v < |f.vals| && Run(f, o, args, e).Running?
    ensures var st := Run(f, o, args, e).s;
            UsedLater(f, st.blk, v) && (!StepWrites(f, o, args, e, v) ==> Needed(f, st.blk, st.pc, v))
  {
    hide Accepts, EdgesOk, Step, PhiOperand, IsTerminator, UsedLater, PhiReads, Needed;
    SameVisit(f, o, args, e, m);
    RunBack(f, o, args, e, e + 1);
    var st := Run(f, o, args, e).s;
    StepLeads(f, o, st);
    SelectedAcross(f, Run(f, o, args, m).s, v);
    AcrossIsUsed(f, st.blk, Run(f, o, args, m).s.blk, v);
    if !StepWrites(f, o, args, e, v) { NeededAtEnd(f, st.blk, st.pc, v); }
  }

  /**
   * What a run reads after leaving block b, without having written it in between, is live out of b: it is used on some
   * path from there.
   */
  lemma ReadIsUsedLater(f: Function, o: Oracle, args: Env, j: nat, b: nat, m: nat, v: nat)
    requires Accepts(f) && EdgesOk(f) && Leaves(f, o, args, j, b) && ReadsAfter(f, o, args, j, m, v)
    ensures v < |f.vals| && UsedLater(f, b, v)
  {
    hide Accepts, EdgesOk, Run, StepReads, StepSelects, StepWrites, UsedLater, Needed, IsTerminator;
    if j < m && StepReads(f, o, args, m, v) && forall q :: j < q < m ==> !StepWrites(f, o, args, q, v) {
      StepReadsAt(f, o, args, m, v);
      ReadRuns(f, o, args, m, v);
      NeedsBack(f, o, args, j + 1, m, v);
      StepNeeds(f, o, args, j, v);
    } else {
      var e: nat :| j <= e && StepSelects(f, o, args, e, m, v)
                    && forall q :: j < q <= e ==> !StepWrites(f, o, args, q, v);
      SelectedIsUsed(f, o, args, e, m, v);
      if j < e {
        NeedsBack(f, o, args, j + 1, e, v);
        StepNeeds(f, o, args, j, v);
      }
    }
  }

  lemma ReadRuns(f: Function, o: Oracle, args: Env, m: nat, v: nat)
    requires StepReads(f, o, args, m, v)
    ensures Run(f, o, args, m).Running?
  {
  }

  /** So it is on a reading path from b. */
  lemma ReadIsLive(f: Function, o: Oracle, args: Env, j: nat, b: nat, m: nat, v: nat)
    requires Accepts(f) && EdgesOk(f) && Leaves(f, o, args, j, b) && ReadsAfter(f, o, args, j, m, v)
    ensures b < |f.blocks| && v < |f.vals| && LiveAfter(f, b, v)
  {
    assert b < |f.blocks|;
    hide Accepts, EdgesOk, Leaves, ReadsAfter, UsedLater, ReadingPath;
    ReadIsUsedLater(f, o, args, j, b, m, v);
    LaterMeans(f, b, v);
  }
}
