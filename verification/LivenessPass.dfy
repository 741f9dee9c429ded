/** ny_liveness_init (src/analysis/liveness.c) in place, on bit rows. */
module LivenessPass {
  import opened Opcodes
  import opened IntFold
  import opened Ir
  import opened Bits
  import opened Validate
  import opened Liveness
  import opened LivenessRuns

  /** The rows are those of base, but row b is s. */
  ghost predicate OneRow(bits: seq<int>, words: nat, base: seq<set<nat>>, b: nat, s: set<nat>) {
    RowsOk(bits, words, |base|) && b < |base| && Rows(bits, words, |base|) == base[b := s]
  }

  lemma OneRowIs(bits: seq<int>, words: nat, base: seq<set<nat>>, b: nat, s: set<nat>)
    requires OneRow(bits, words, base, b, s)
    ensures Row(bits, words, b) == s && RowsOk(bits, words, |base|)
  {
    assert Rows(bits, words, |base|)[b] == s;
  }

  lemma OneRowStart(bits: seq<int>, words: nat, n: nat, b: nat)
    requires RowsOk(bits, words, n) && b < n
    ensures OneRow(bits, words, Rows(bits, words, n), b, Row(bits, words, b))
  {
  }

  /** Adds one value to row b. */
  method AddTo(bits: array<int>, words: nat, b: nat, v: nat, ghost base: seq<set<nat>>, n: nat, ghost s: set<nat>)
    requires OneRow(bits[..], words, base, b, s) && n == |base| && v < 64 * words
    modifies bits
    ensures OneRow(bits[..], words, base, b, s + {v})
  {
    hide RowsOk, Row;
    SetBit(bits, words, n, b, v);
  }

  /** Records the result of an instruction. */
  method SetResult(bits: array<int>, f: Function, inst: Instruction, words: nat, b: nat, ghost base: seq<set<nat>>,
                   ghost s: set<nat>)
    requires OneRow(bits[..], words, base, b, s) && |base| == |f.blocks| && |f.vals| <= 64 * words
             && inst.opcode != NONE
    modifies bits
    ensures OneRow(bits[..], words, base, b, s + ResultIn(f, inst))
  {
    hide OneRow;
    if inst.result.Some? && inst.result.value < |f.vals| {
      AddTo(bits, words, b, inst.result.value, base, |f.blocks|, s);
    } else {
      assert s + ResultIn(f, inst) == s;
    }
  }

  lemma NextRead(f: Function, ops: seq<Operand>, k: nat, s: set<nat>, killed: set<nat>)
    requires k < |ops|
    ensures s + (ReadsUpTo(f, ops, k + 1) - killed) ==
            if ops[k].OpValue? && ops[k].val < |f.vals| && ops[k].val !in killed
              then s + (ReadsUpTo(f, ops, k) - killed) + {ops[k].val}
            else s + (ReadsUpTo(f, ops, k) - killed)
  {
    var was, now := ReadsUpTo(f, ops, k), ReadsUpTo(f, ops, k + 1);
    assert now == was + if ops[k].OpValue? && ops[k].val < |f.vals| then {ops[k].val} else {};
    hide ReadsUpTo;
  }

  lemma NoReads(f: Function, ops: seq<Operand>, s: set<nat>, killed: set<nat>)
    ensures s + (ReadsUpTo(f, ops, 0) - killed) == s
  {
  }

  /** Records the operands read before any definition in the block. */
  method SetReads(gen: array<int>, kill: array<int>, f: Function, inst: Instruction, words: nat, b: nat,
                  ghost base: seq<set<nat>>, ghost s: set<nat>, ghost killed: set<nat>)
    requires OneRow(gen[..], words, base, b, s) && |base| == |f.blocks| && |f.vals| <= 64 * words && gen != kill
    requires Row(kill[..], words, b) == killed
    modifies gen
    ensures OneRow(gen[..], words, base, b, s + (ReadsUpTo(f, inst.ops, |inst.ops|) - killed))
  {
    hide OneRow, Row, ReadsUpTo, Test;
    NoReads(f, inst.ops, s, killed);
    var k := 0;
    while k < |inst.ops|
      invariant 0 <= k <= |inst.ops| && OneRow(gen[..], words, base, b, s + (ReadsUpTo(f, inst.ops, k) - killed))
    {
      NextRead(f, inst.ops, k, s, killed);
      var op := inst.ops[k];
      if op.OpValue? && op.val < |f.vals| {
        RowMember(kill[..], words, b, op.val);
        if !Test(kill[..], words, b, op.val) {
          AddTo(gen, words, b, op.val, base, |f.blocks|, s + (ReadsUpTo(f, inst.ops, k) - killed));
        }
      }
      k := k + 1;
    }
  }

  /** One instruction's share of its block's rows. */
  method ScanInst(gen: array<int>, kill: array<int>, phis: array<int>, f: Function, words: nat, b: nat, n: nat,
                  ghost gens: seq<set<nat>>, ghost kills: seq<set<nat>>, ghost phiDefs: seq<set<nat>>)
    requires gen != kill && kill != phis && gen != phis && CodeOk(f) && |f.vals| <= 64 * words
    requires b < |f.blocks| && n < |f.blocks[b].code|
    requires |gens| == |f.blocks| && |kills| == |f.blocks| && |phiDefs| == |f.blocks|
    requires OneRow(gen[..], words, gens, b, GenUpTo(f, b, n))
    requires OneRow(kill[..], words, kills, b, KillUpTo(f, b, n))
    requires OneRow(phis[..], words, phiDefs, b, PhiDefsUpTo(f, b, n))
    modifies gen, kill, phis
    ensures OneRow(gen[..], words, gens, b, GenUpTo(f, b, n + 1))
    ensures OneRow(kill[..], words, kills, b, KillUpTo(f, b, n + 1))
    ensures OneRow(phis[..], words, phiDefs, b, PhiDefsUpTo(f, b, n + 1))
  {
    hide OneRow, ReadsUpTo, ResultIn, GenUpTo, KillUpTo, PhiDefsUpTo, CodeOk, Row;
    NextUnfolds(f, b, n);
    var inst := f.insts[f.blocks[b].code[n]];
    OneRowIs(kill[..], words, kills, b, KillUpTo(f, b, n));
    if inst.opcode != NONE {
      if inst.opcode == PHI {
        SetResult(phis, f, inst, words, b, phiDefs, PhiDefsUpTo(f, b, n));
        SetResult(kill, f, inst, words, b, kills, KillUpTo(f, b, n));
      } else {
        SetReads(gen, kill, f, inst, words, b, gens, GenUpTo(f, b, n), KillUpTo(f, b, n));
        SetResult(kill, f, inst, words, b, kills, KillUpTo(f, b, n));
      }
    }
  }

  lemma NothingScanned(f: Function, b: nat)
    requires b < |f.blocks|
    ensures GenUpTo(f, b, 0) == {} && KillUpTo(f, b, 0) == {} && PhiDefsUpTo(f, b, 0) == {}
  {
  }

  /** One block's gen, kill and PHI rows. */
  method ScanBlock(gen: array<int>, kill: array<int>, phis: array<int>, f: Function, words: nat, b: nat,
                   ghost gens: seq<set<nat>>, ghost kills: seq<set<nat>>, ghost phiDefs: seq<set<nat>>)
    requires gen != kill && kill != phis && gen != phis && CodeOk(f) && b < |f.blocks| && |f.vals| <= 64 * words
    requires |gens| == |f.blocks| && |kills| == |f.blocks| && |phiDefs| == |f.blocks|
    requires OneRow(gen[..], words, gens, b, {}) && OneRow(kill[..], words, kills, b, {})
             && OneRow(phis[..], words, phiDefs, b, {})
    modifies gen, kill, phis
    ensures OneRow(gen[..], words, gens, b, Gen(f, b))
    ensures OneRow(kill[..], words, kills, b, Kill(f, b))
    ensures OneRow(phis[..], words, phiDefs, b, PhiDefs(f, b))
  {
    hide OneRow, ReadsUpTo, ResultIn, GenUpTo, KillUpTo, PhiDefsUpTo, CodeOk, Row;
    NothingScanned(f, b);
    var code := f.blocks[b].code;
    var n := 0;
    while n < |code|
      invariant 0 <= n <= |code|
      invariant OneRow(gen[..], words, gens, b, GenUpTo(f, b, n))
      invariant OneRow(kill[..], words, kills, b, KillUpTo(f, b, n))
      invariant OneRow(phis[..], words, phiDefs, b, PhiDefsUpTo(f, b, n))
    {
      ScanInst(gen, kill, phis, f, words, b, n, gens, kills, phiDefs);
      n := n + 1;
    }
  }

  lemma NextUnfolds(f: Function, b: nat, n: nat)
    requires CodeOk(f) && b < |f.blocks| && n < |f.blocks[b].code|
    ensures f.blocks[b].code[n] < |f.insts|
    ensures var inst := f.insts[f.blocks[b].code[n]];
            && KillUpTo(f, b, n + 1) == KillUpTo(f, b, n) + ResultIn(f, inst)
            && (inst.opcode == NONE ==> ResultIn(f, inst) == {} && KillUpTo(f, b, n + 1) == KillUpTo(f, b, n))
            && GenUpTo(f, b, n + 1) == (if IsReader(inst) then
                 GenUpTo(f, b, n) + (ReadsUpTo(f, inst.ops, |inst.ops|) - KillUpTo(f, b, n)) else GenUpTo(f, b, n))
            && PhiDefsUpTo(f, b, n + 1) ==
               (if inst.opcode == PHI then PhiDefsUpTo(f, b, n) + ResultIn(f, inst) else PhiDefsUpTo(f, b, n))
  {
    assert HasInst(f, b, n);
    hide CodeOk, ReadsUpTo;
  }

  lemma PairReadsNone(f: Function, ops: seq<Operand>, p: nat)
    ensures PairReads(f, ops, p, 0) == {}
  {
  }

  lemma PairReadsNext(f: Function, ops: seq<Operand>, p: nat, k: nat)
    requires k + 1 < |ops|
    ensures PairReads(f, ops, p, k + 2) == PairReads(f, ops, p, k) +
            (if ops[k + 1] == OpBlock(p) && ops[k].OpValue? && ops[k].val < |f.vals| then {ops[k].val} else {})
  {
  }

  /** cur gains what one PHI takes from predecessor p. */
  method MergePhi(cur: array<int>, f: Function, inst: Instruction, words: nat, p: nat)
    requires RowsOk(cur[..], words, 1) && |f.vals| <= 64 * words
    modifies cur
    ensures RowsOk(cur[..], words, 1)
    ensures Row(cur[..], words, 0) == Row(old(cur[..]), words, 0) + PairReads(f, inst.ops, p, Pairs(inst.ops))
  {
    ghost var was := Row(cur[..], words, 0);
    hide RowsOk, Row, PairReads;
    PairReadsNone(f, inst.ops, p);
    var k := 0;
    while k + 1 < |inst.ops|
      invariant 0 <= k <= |inst.ops| && k % 2 == 0 && RowsOk(cur[..], words, 1)
      invariant Row(cur[..], words, 0) == was + PairReads(f, inst.ops, p, k)
    {
      if inst.ops[k + 1] == OpBlock(p) && inst.ops[k].OpValue? && inst.ops[k].val < |f.vals| {
        ghost var rows := Rows(cur[..], words, 1);
        SetBit(cur, words, 1, 0, inst.ops[k].val);
        assert Rows(cur[..], words, 1)[0] == rows[0] + {inst.ops[k].val};
      }
      PairReadsNext(f, inst.ops, p, k);
      k := k + 2;
    }
    assert k == Pairs(inst.ops);
  }

  lemma CodeIndex(f: Function, s: nat, n: nat)
    requires CodeOk(f) && s < |f.blocks| && n < |f.blocks[s].code|
    ensures f.blocks[s].code[n] < |f.insts|
  {
  }

  lemma PhiReadsStart(f: Function, p: nat, s: nat)
    requires s < |f.blocks|
    ensures PhiReads(f, p, s) == PhiReadsFrom(f, p, s, 0) && PhiReadsFrom(f, p, s, |f.blocks[s].code|) == {}
  {
  }

  lemma PhiReadsNext(f: Function, p: nat, s: nat, n: nat)
    requires s < |f.blocks| && n < |f.blocks[s].code| && f.blocks[s].code[n] < |f.insts|
    ensures var inst := f.insts[f.blocks[s].code[n]];
            PhiReadsFrom(f, p, s, n) ==
            if inst.opcode == PHI then PairReads(f, inst.ops, p, Pairs(inst.ops)) + PhiReadsFrom(f, p, s, n + 1) else {}
  {
    hide PairReads, Pairs;
  }

  /** cur gains what the PHIs at the start of block s take from predecessor p. */
  method MergePhis(cur: array<int>, f: Function, words: nat, p: nat, s: nat)
    requires RowsOk(cur[..], words, 1) && CodeOk(f) && s < |f.blocks| && |f.vals| <= 64 * words
    modifies cur
    ensures RowsOk(cur[..], words, 1)
    ensures Row(cur[..], words, 0) == Row(old(cur[..]), words, 0) + PhiReads(f, p, s)
  {
    hide RowsOk, Row, PairReads, Pairs, PhiReadsFrom, CodeOk;
    ghost var was := Row(cur[..], words, 0);
    PhiReadsStart(f, p, s);
    var code := f.blocks[s].code;
    var n := 0;
    while n < |code|
      invariant 0 <= n <= |code| && RowsOk(cur[..], words, 1)
      invariant Row(cur[..], words, 0) + PhiReadsFrom(f, p, s, n) == was + PhiReads(f, p, s)
    {
      CodeIndex(f, s, n);
      PhiReadsNext(f, p, s, n);
      var inst := f.insts[code[n]];
      if inst.opcode != PHI { break; }
      MergePhi(cur, f, inst, words, p);
      n := n + 1;
    }
  }

  /** cur becomes the live-out of block b by the current live-in rows. */
  method ComputeOut(cur: array<int>, liveIn: array<int>, phis: array<int>, f: Function, words: nat, b: nat)
    requires RowsOk(cur[..], words, 1) && RowsOk(liveIn[..], words, |f.blocks|) && RowsOk(phis[..], words, |f.blocks|)
    requires cur != liveIn && cur != phis && CodeOk(f) && b < |f.blocks| && |f.vals| <= 64 * words
    requires forall s :: 0 <= s < |f.blocks| ==> Row(phis[..], words, s) == PhiDefs(f, s)
    modifies cur
    ensures RowsOk(cur[..], words, 1)
    ensures Row(cur[..], words, 0) == Out(f, Rows(liveIn[..], words, |f.blocks|), b)
  {
    ClearAll(cur, words, 1);
    ghost var live := Rows(liveIn[..], words, |f.blocks|);
    hide RowsOk, Row, PhiDefs, PhiReads, CodeOk, OutUpTo;
    NoSuccessorYet(f, live, b);
    var succs := f.blocks[b].succs;
    var k := 0;
    while k < |succs|
      invariant 0 <= k <= |succs| && RowsOk(cur[..], words, 1) && Row(cur[..], words, 0) == OutUpTo(f, live, b, k)
    {
      NextSuccessor(f, live, b, k);
      var s := succs[k];
      if s < |f.blocks| {
        MergeRow(cur, liveIn, phis, words, |f.blocks|, s);
        MergePhis(cur, f, words, b, s);
      }
      k := k + 1;
    }
  }

  lemma NoSuccessorYet(f: Function, live: seq<set<nat>>, b: nat)
    requires |live| == |f.blocks| && b < |f.blocks|
    ensures OutUpTo(f, live, b, 0) == {}
  {
  }

  lemma NextSuccessor(f: Function, live: seq<set<nat>>, b: nat, k: nat)
    requires |live| == |f.blocks| && b < |f.blocks| && k < |f.blocks[b].succs|
    ensures var s := f.blocks[b].succs[k];
            OutUpTo(f, live, b, k + 1) ==
            if s < |f.blocks| then OutUpTo(f, live, b, k) + (live[s] - PhiDefs(f, s)) + PhiReads(f, b, s)
              else OutUpTo(f, live, b, k)
  {
    hide PhiDefs, PhiReads;
  }

  /** memset to zero. */
  method ClearAll(bits: array<int>, words: nat, n: nat)
    requires bits.Length == n * words
    modifies bits
    ensures RowsOk(bits[..], words, n) && forall b :: 0 <= b < n ==> Row(bits[..], words, b) == {}
  {
    var w := 0;
    while w < bits.Length
      invariant 0 <= w <= bits.Length && (forall c :: 0 <= c < w ==> bits[c] == 0)
    {
      bits[w] := 0;
      w := w + 1;
    }
    hide Pow2, Row;
    ZeroIsWord();
    forall b: nat | b < n ensures Row(bits[..], words, b) == {} { EmptyRow(bits[..], words, b); }
  }

  lemma ZeroIsWord()
    ensures IsWord(0)
  {
  }

  /** Rows done in this pass hold the equations, as long as nothing has changed. */
  ghost predicate SettledFrom(f: Function, live: seq<set<nat>>, out: seq<set<nat>>, b: nat) {
    && |live| == |f.blocks| && |out| == |f.blocks|
    && forall c :: b <= c < |f.blocks| ==> out[c] == Out(f, live, c) && live[c] == In(f, live, c)
  }

  ghost predicate LoopOk(f: Function, live: seq<set<nat>>, words: nat) {
    && |live| == |f.blocks| && Sound(f, live) && Grows(f, live)
    && (forall b, v :: 0 <= b < |live| && v in live[b] ==> v < 64 * words)
  }

  /** A row update that changed something leaves fewer bits clear. */
  lemma TurnOk(f: Function, live: seq<set<nat>>, b: nat, words: nat)
    requires LoopOk(f, live, words) && b < |f.blocks| && forall v :: v in In(f, live, b) ==> v < 64 * words
    ensures var live' := live[b := In(f, live, b)];
            && LoopOk(f, live', words) && 0 <= Clear(live', 64 * words)
            && (In(f, live, b) != live[b] ==> Clear(live', 64 * words) < Clear(live, 64 * words))
            && (In(f, live, b) == live[b] ==> live' == live)
  {
    hide In, Sound, Grows;
    StepSound(f, live, b);
    StepGrows(f, live, b);
    var live' := live[b := In(f, live, b)];
    ClearNonNegative(live', 64 * words);
    if In(f, live, b) != live[b] { ClearDrops(live, b, In(f, live, b), 64 * words); }
  }

  /** One pass over all blocks, from the last to the first. */
  method Pass(f: Function, liveIn: array<int>, liveOut: array<int>, gen: array<int>, kill: array<int>, phis: array<int>,
              cur: array<int>, words: nat) returns (changed: bool)
    requires CodeOk(f) && |f.vals| <= 64 * words && Distinct(liveIn, liveOut, gen, kill, phis, cur)
    requires RowsOk(liveIn[..], words, |f.blocks|) && RowsOk(liveOut[..], words, |f.blocks|)
             && RowsOk(cur[..], words, 1)
    requires GensOk(f, gen[..], kill[..], phis[..], words)
    requires LoopOk(f, Rows(liveIn[..], words, |f.blocks|), words)
    modifies liveIn, liveOut, cur
    ensures RowsOk(liveIn[..], words, |f.blocks|) && RowsOk(liveOut[..], words, |f.blocks|) && RowsOk(cur[..], words, 1)
    ensures LoopOk(f, Rows(liveIn[..], words, |f.blocks|), words)
    ensures 0 <= Clear(Rows(liveIn[..], words, |f.blocks|), 64 * words)
    ensures changed ==>
            Clear(Rows(liveIn[..], words, |f.blocks|), 64 * words) <
              Clear(Rows(old(liveIn[..]), words, |f.blocks|), 64 * words)
    ensures !changed ==> Rows(liveIn[..], words, |f.blocks|) == Rows(old(liveIn[..]), words, |f.blocks|)
    ensures !changed ==> Solved(f, Rows(liveIn[..], words, |f.blocks|), Rows(liveOut[..], words, |f.blocks|))
  {
    var count := |f.blocks|;
    hide RowsOk, Row, PhiDefs, PhiReads, Gen, Kill, CodeOk, Out, Clear, LoopOk, SettledFrom;
    ghost var live0 := Rows(liveIn[..], words, count);
    ClearStart(f, live0, words);
    StartSettled(f, live0, Rows(liveOut[..], words, count));
    changed := false;
    var b := |f.blocks|;
    while b > 0
      invariant 0 <= b <= count
      invariant RowsOk(liveIn[..], words, count) && RowsOk(liveOut[..], words, count) && RowsOk(cur[..], words, 1)
      invariant LoopOk(f, Rows(liveIn[..], words, count), words)
                && 0 <= Clear(Rows(liveIn[..], words, count), 64 * words)
      invariant changed ==> Clear(Rows(liveIn[..], words, count), 64 * words) < Clear(live0, 64 * words)
      invariant !changed ==>
                Rows(liveIn[..], words, count) == live0 && SettledFrom(f, live0, Rows(liveOut[..], words, count), b)
    {
      b := b - 1;
      ghost var live, out := Rows(liveIn[..], words, count), Rows(liveOut[..], words, count);
      GenRows(f, gen[..], kill[..], phis[..], words);
      ComputeOut(cur, liveIn, phis, f, words, b);
      CopyRow(liveOut, cur, words, count, b);
      InBounds(f, gen[..], cur[..], words, b, live);
      var different := UpdateRow(liveIn, gen, kill, cur, words, count, b);
      InIs(f, gen[..], kill[..], words, b, live);
      TurnOk(f, live, b, words);
      if !changed && !different { SettleOne(f, live, out, b); }
      if different { changed := true; }
    }
    if !changed { AllSettled(f, live0, Rows(liveOut[..], words, count)); }
  }

  ghost predicate Distinct(liveIn: array<int>, liveOut: array<int>, gen: array<int>, kill: array<int>, phis: array<int>,
                           cur: array<int>) {
    && liveIn != liveOut && liveIn != gen && liveIn != kill && liveIn != phis && liveIn != cur
    && liveOut != gen && liveOut != kill && liveOut != phis && liveOut != cur
    && gen != cur && kill != cur && phis != cur
  }

  ghost predicate GensOk(f: Function, gen: seq<int>, kill: seq<int>, phis: seq<int>, words: nat) {
    && RowsOk(gen, words, |f.blocks|) && RowsOk(kill, words, |f.blocks|) && RowsOk(phis, words, |f.blocks|)
    && (forall s :: 0 <= s < |f.blocks| ==>
          Row(gen, words, s) == Gen(f, s) && Row(kill, words, s) == Kill(f, s) && Row(phis, words, s) == PhiDefs(f, s))
  }

  lemma GenRows(f: Function, gen: seq<int>, kill: seq<int>, phis: seq<int>, words: nat)
    requires GensOk(f, gen, kill, phis, words)
    ensures RowsOk(gen, words, |f.blocks|) && RowsOk(kill, words, |f.blocks|) && RowsOk(phis, words, |f.blocks|)
    ensures forall s :: 0 <= s < |f.blocks| ==>
              Row(gen, words, s) == Gen(f, s) && Row(kill, words, s) == Kill(f, s)
                && Row(phis, words, s) == PhiDefs(f, s)
  {
  }

  lemma InIs(f: Function, gen: seq<int>, kill: seq<int>, words: nat, b: nat, live: seq<set<nat>>)
    requires |live| == |f.blocks| && b < |f.blocks| && Row(gen, words, b) == Gen(f, b)
             && Row(kill, words, b) == Kill(f, b)
    ensures In(f, live, b) == Row(gen, words, b) + (Out(f, live, b) - Row(kill, words, b))
  {
  }

  lemma InBounds(f: Function, gen: seq<int>, cur: seq<int>, words: nat, b: nat, live: seq<set<nat>>)
    requires |live| == |f.blocks| && b < |f.blocks| && Row(gen, words, b) == Gen(f, b)
             && Row(cur, words, 0) == Out(f, live, b)
    ensures forall v :: v in In(f, live, b) ==> v < 64 * words
  {
    RowBounds(gen, words, b);
    RowBounds(cur, words, 0);
  }

  lemma ClearStart(f: Function, live: seq<set<nat>>, words: nat)
    requires LoopOk(f, live, words)
    ensures 0 <= Clear(live, 64 * words)
  {
    ClearNonNegative(live, 64 * words);
  }

  lemma StartSettled(f: Function, live: seq<set<nat>>, out: seq<set<nat>>)
    requires |live| == |f.blocks| && |out| == |f.blocks|
    ensures SettledFrom(f, live, out, |f.blocks|)
  {
  }

  lemma SettleOne(f: Function, live: seq<set<nat>>, out: seq<set<nat>>, b: nat)
    requires b < |f.blocks| && SettledFrom(f, live, out, b + 1) && live[b] == In(f, live, b)
    ensures SettledFrom(f, live, out[b := Out(f, live, b)], b)
  {
    hide Out, In;
  }

  lemma AllSettled(f: Function, live: seq<set<nat>>, out: seq<set<nat>>)
    requires SettledFrom(f, live, out, 0)
    ensures Solved(f, live, out)
  {
  }

  method ScanBlocks(gen: array<int>, kill: array<int>, phis: array<int>, f: Function, words: nat)
    requires gen != kill && kill != phis && gen != phis && CodeOk(f) && |f.vals| <= 64 * words
    requires RowsOk(gen[..], words, |f.blocks|) && RowsOk(kill[..], words, |f.blocks|)
             && RowsOk(phis[..], words, |f.blocks|)
    requires forall b :: 0 <= b < |f.blocks| ==>
               Row(gen[..], words, b) == {} && Row(kill[..], words, b) == {} && Row(phis[..], words, b) == {}
    modifies gen, kill, phis
    ensures GensOk(f, gen[..], kill[..], phis[..], words)
  {
    hide RowsOk, Row, Gen, Kill, PhiDefs, CodeOk;
    var b := 0;
    while b < |f.blocks|
      invariant 0 <= b <= |f.blocks|
      invariant RowsOk(gen[..], words, |f.blocks|) && RowsOk(kill[..], words, |f.blocks|)
                && RowsOk(phis[..], words, |f.blocks|)
      invariant forall c :: 0 <= c < |f.blocks| ==>
        && Row(gen[..], words, c) == (if c < b then Gen(f, c) else {})
        && Row(kill[..], words, c) == (if c < b then Kill(f, c) else {})
        && Row(phis[..], words, c) == (if c < b then PhiDefs(f, c) else {})
    {
      ghost var gens, kills, phiDefs := Rows(gen[..], words, |f.blocks|), Rows(kill[..], words, |f.blocks|),
          Rows(phis[..], words, |f.blocks|);
      OneRowStart(gen[..], words, |f.blocks|, b);
      OneRowStart(kill[..], words, |f.blocks|, b);
      OneRowStart(phis[..], words, |f.blocks|, b);
      ScanBlock(gen, kill, phis, f, words, b, gens, kills, phiDefs);
      OtherRows(gen[..], words, gens, b, Gen(f, b));
      OtherRows(kill[..], words, kills, b, Kill(f, b));
      OtherRows(phis[..], words, phiDefs, b, PhiDefs(f, b));
      b := b + 1;
    }
  }

  lemma OtherRows(bits: seq<int>, words: nat, base: seq<set<nat>>, b: nat, s: set<nat>)
    requires OneRow(bits, words, base, b, s)
    ensures RowsOk(bits, words, |base|)
    ensures forall c :: 0 <= c < |base| ==> Row(bits, words, c) == if c == b then s else base[c]
  {
    forall c | 0 <= c < |base| ensures Row(bits, words, c) == if c == b then s else base[c] {
      assert Rows(bits, words, |base|)[c] == base[b := s][c];
    }
  }

  /** The bits answer exactly what the paths say. */
  ghost predicate Exact(f: Function, liveIn: seq<int>, liveOut: seq<int>, words: nat) {
    forall b: nat, v: nat :: b < |f.blocks| && v < |f.vals| ==>
      && (Test(liveIn, words, b, v) <==> LiveBefore(f, b, v))
      && (Test(liveOut, words, b, v) <==> LiveAfter(f, b, v))
  }

  lemma SolvedIsExact(f: Function, liveIn: seq<int>, liveOut: seq<int>, words: nat)
    requires |f.vals| <= 64 * words
    requires Solved(f, Rows(liveIn, words, |f.blocks|), Rows(liveOut, words, |f.blocks|))
    requires Sound(f, Rows(liveIn, words, |f.blocks|))
    ensures Exact(f, liveIn, liveOut, words)
    ensures IsLeast(f, Rows(liveIn, words, |f.blocks|), Rows(liveOut, words, |f.blocks|))
  {
    hide Solved, Sound, Row, Test, LiveAfter, LiveBefore, IsLeast;
    var live, out := Rows(liveIn, words, |f.blocks|), Rows(liveOut, words, |f.blocks|);
    LeastIffSound(f, live, out);
    forall b: nat, v: nat | b < |f.blocks| && v < |f.vals|
      ensures Test(liveIn, words, b, v) <==> LiveBefore(f, b, v)
      ensures Test(liveOut, words, b, v) <==> LiveAfter(f, b, v)
    {
      LiveRowsMean(f, live, out, b, v);
      RowMember(liveIn, words, b, v);
      RowMember(liveOut, words, b, v);
    }
  }

  /** The live-out rows hold what any run of f reads after a block without having written it in between. */
  ghost predicate CoversRuns(f: Function, liveOut: seq<int>, words: nat) {
    forall o: Oracle, args: Env, j: nat, b: nat, m: nat, v: nat ::
      Leaves(f, o, args, j, b) && ReadsAfter(f, o, args, j, m, v) ==> Test(liveOut, words, b, v)
  }

  lemma ExactCoversRuns(f: Function, liveIn: seq<int>, liveOut: seq<int>, words: nat)
    requires Accepts(f) && EdgesOk(f) && Exact(f, liveIn, liveOut, words)
    ensures CoversRuns(f, liveOut, words)
  {
    hide Accepts, EdgesOk, Test, LiveAfter, LiveBefore, Leaves, ReadsAfter;
    forall o: Oracle, args: Env, j: nat, b: nat, m: nat, v: nat
      | Leaves(f, o, args, j, b) && ReadsAfter(f, o, args, j, m, v)
      ensures Test(liveOut, words, b, v)
    {
      ReadIsLive(f, o, args, j, b, m, v);
    }
  }

  /** The rows before the first pass. */
  method Prepare(f: Function, words: nat)
    returns (liveIn: array<int>, liveOut: array<int>, gen: array<int>, kill: array<int>, phis: array<int>,
             cur: array<int>)
    requires CodeOk(f) && |f.vals| <= 64 * words
    ensures fresh(liveIn) && fresh(liveOut) && fresh(gen) && fresh(kill) && fresh(phis) && fresh(cur)
    ensures Distinct(liveIn, liveOut, gen, kill, phis, cur)
    ensures RowsOk(liveIn[..], words, |f.blocks|) && RowsOk(liveOut[..], words, |f.blocks|) && RowsOk(cur[..], words, 1)
    ensures GensOk(f, gen[..], kill[..], phis[..], words) && LoopOk(f, Rows(liveIn[..], words, |f.blocks|), words)
  {
    hide RowsOk, Row, GensOk, CodeOk, LoopOk;
    var n := |f.blocks|;
    liveIn, liveOut := new int[n * words], new int[n * words];
    gen, kill, phis := new int[n * words], new int[n * words], new int[n * words];
    cur := new int[1 * words];
    ClearAll(liveIn, words, n);
    ClearAll(liveOut, words, n);
    ClearAll(gen, words, n);
    ClearAll(kill, words, n);
    ClearAll(phis, words, n);
    ClearAll(cur, words, 1);
    ScanBlocks(gen, kill, phis, f, words);
    EmptyStart(f, Rows(liveIn[..], words, n), words);
  }

  /** ny_liveness_init: gen and kill rows, then passes until nothing changes. */
  method Compute(f: Function) returns (liveIn: array<int>, liveOut: array<int>, words: nat)
    requires CodeOk(f)
    ensures words > 0 && RowsOk(liveIn[..], words, |f.blocks|) && RowsOk(liveOut[..], words, |f.blocks|)
    ensures |f.vals| <= 64 * words && Exact(f, liveIn[..], liveOut[..], words)
    ensures IsLeast(f, Rows(liveIn[..], words, |f.blocks|), Rows(liveOut[..], words, |f.blocks|))
    ensures Accepts(f) && EdgesOk(f) ==> CoversRuns(f, liveOut[..], words)
  {
    words := (|f.vals| + 63) / 64;
    if words == 0 { words := 1; }
    hide RowsOk, Row, Exact, GensOk, CodeOk, LoopOk, Clear, Solved, Distinct, IsLeast, Accepts, EdgesOk, CoversRuns;
    var gen, kill, phis, cur;
    liveIn, liveOut, gen, kill, phis, cur := Prepare(f, words);
    var changed := true;
    while changed
      invariant RowsOk(liveIn[..], words, |f.blocks|) && RowsOk(liveOut[..], words, |f.blocks|)
                && RowsOk(cur[..], words, 1)
      invariant GensOk(f, gen[..], kill[..], phis[..], words) && LoopOk(f, Rows(liveIn[..], words, |f.blocks|), words)
      invariant !changed ==> Solved(f, Rows(liveIn[..], words, |f.blocks|), Rows(liveOut[..], words, |f.blocks|))
      decreases Clear(Rows(liveIn[..], words, |f.blocks|), 64 * words), changed
    {
      ClearStart(f, Rows(liveIn[..], words, |f.blocks|), words);
      changed := Pass(f, liveIn, liveOut, gen, kill, phis, cur, words);
    }
    LoopIsSound(f, Rows(liveIn[..], words, |f.blocks|), words);
    SolvedIsExact(f, liveIn[..], liveOut[..], words);
    if Accepts(f) && EdgesOk(f) { ExactCoversRuns(f, liveIn[..], liveOut[..], words); }
  }

  /** ny_liveness_is_live_in and ny_liveness_is_live_out on their rows. */
  method Query(bits: array<int>, words: nat, n: nat, b: nat, v: nat) returns (live: bool)
    requires bits.Length == n * words
    ensures live <==> b < n && Test(bits[..], words, b, v)
  {
    if b >= n || words == 0 {
      return false;
    }
    var at := Cell(words, b, v / 64);
    if at >= bits.Length { return false; }
    return Bit(bits[at], v % 64);
  }

  /** The query trusts its caller about the value: one row further on lies the next block. */
  lemma QueryPastRow(bits: seq<int>, words: nat, b: nat, v: nat)
    ensures Test(bits, words, b, v + 64 * words) <==> Test(bits, words, b + 1, v)
  {
    assert (v + 64 * words) / 64 == v / 64 + words && (v + 64 * words) % 64 == v % 64;
    assert Cell(words, b, v / 64 + words) == Cell(words, b + 1, v / 64);
  }

  lemma LoopIsSound(f: Function, live: seq<set<nat>>, words: nat)
    requires LoopOk(f, live, words)
    ensures |live| == |f.blocks| && Sound(f, live)
  {
  }

  lemma EmptyStart(f: Function, live: seq<set<nat>>, words: nat)
    requires |live| == |f.blocks| && forall b :: 0 <= b < |live| ==> live[b] == {}
    ensures LoopOk(f, live, words)
  {
    hide In, UsedFrom;
  }
}
