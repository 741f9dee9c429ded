/**
 * Sparse conditional constant propagation (src/opt/sccp.c): the worklist loop terminates on the greatest
 * solution of its equations, and that solution describes every run.
 */
module Sccp {
  import opened Opcodes
  import opened Ir
  import opened SccpLattice
  import opened SccpSteps
  import opened SccpTight

  /** The solved equations: executable blocks are settled and closed under executable edges. */
  ghost predicate IsFixpoint(f: Function, s: Facts) {
    && ShapeOk(f, s)
    && (forall i: nat :: Listed(f, i) && s.exec[f.insts[i].block] ==> InstSettled(f, s, i))
    && (forall b: nat :: b < |f.blocks| && s.exec[b] ==> TermSettled(f, s, b))
  }

  ghost predicate BelowInitial(f: Function, lat: seq<Lat>) {
    |lat| == |f.vals| && forall v :: 0 <= v < |f.vals| ==> Below(lat[v], InitialLat(f, v))
  }

  ghost predicate IsSolution(f: Function, s: Facts) {
    IsFixpoint(f, s) && BelowInitial(f, s.lat)
  }

  /** s is at least as precise as ref everywhere. */
  ghost predicate Above(s: Facts, ref: Facts) {
    && LatBelow(ref.lat, s.lat) && EdgesWithin(s.edges, ref.edges) && |s.exec| == |ref.exec|
    && (forall b :: 0 <= b < |s.exec| && s.exec[b] ==> ref.exec[b])
  }

  /** users[v] lists exactly the instructions that read v (src/analysis/use_def.c). */
  ghost predicate UsersOk(f: Function, users: seq<seq<nat>>) {
    && |users| == |f.vals|
    && (forall v: nat, i: nat :: v < |users| ==> (i in users[v] <==> Listed(f, i) && OpValue(v) in f.insts[i].ops))
  }

  // ---------------------------------------------------------------- entering and leaving the worklists

  ghost predicate IsStart(f: Function, s: Facts) {
    && |s.lat| == |f.vals| && (forall v :: 0 <= v < |f.vals| ==> s.lat[v] == InitialLat(f, v))
    && |s.exec| == |f.blocks| && (forall b :: 0 <= b < |f.blocks| ==> (s.exec[b] <==> b == f.entry))
    && s.edges == [] && s.cfgWork == [f.entry] && s.ssaWork == []
  }

  lemma StartInv(f: Function, s: Facts)
    requires CodeOk(f) && ResultsOk(f) && IsStart(f, s)
    ensures Inv(f, s, {}, {}) && BelowInitial(f, s.lat)
  {
    hide CodeOk;
    assert f.entry < |f.blocks| by { assert CodeOk(f); EntryInRange(f); }
    assert ShapeOk(f, s);
    forall i: nat | Listed(f, i) && f.insts[i].result.Some? ensures CellAbove(f, s, i) {
      var r := f.insts[i].result.value;
      assert s.lat[r] == InitialLat(f, r);
    }
    assert f.entry in s.cfgWork;
  }

  lemma EntryInRange(f: Function)
    requires CodeOk(f)
    ensures f.entry < |f.blocks|
  {
  }

  ghost function IdSet(ids: seq<nat>): set<nat> {
    set i | i in ids
  }

  lemma FewerWaiting(f: Function, s: Facts, s': Facts)
    requires ShapeOk(f, s) && Descends(f, s)
    requires s'.lat == s.lat && s'.exec == s.exec && s'.edges == s.edges
    requires (forall x :: x in s'.cfgWork ==> x in s.cfgWork) && (forall x :: x in s'.ssaWork ==> x in s.ssaWork)
    ensures ShapeOk(f, s') && Descends(f, s') && Potential(f, s') == Potential(f, s)
  {
    hide EvalInstruction, CodeOk, ResultsOk;
    forall e | e in s'.edges ensures EdgeOk(f, s', e) { assert EdgeOk(f, s, e); }
    forall i: nat | Listed(f, i) && f.insts[i].result.Some? ensures CellAbove(f, s', i) {
      assert CellAbove(f, s, i);
    }
  }

  ghost predicate SubWork(work': seq<nat>, work: seq<nat>, x: nat) {
    forall y :: (y in work' ==> y in work) && (y in work ==> y in work' || y == x)
  }

  lemma PoppedInst(f: Function, s: Facts, s': Facts, j: nat, b: nat, v: nat)
    requires j < |f.insts| && |s.lat| == |f.vals| && InstOk(f, s, j)
    requires s'.lat == s.lat && s'.edges == s.edges
    requires SubWork(s'.cfgWork, s.cfgWork, b) && SubWork(s'.ssaWork, s.ssaWork, v)
    requires s'.cfgWork == s.cfgWork || f.insts[j].block != b
    requires s'.ssaWork == s.ssaWork || OpValue(v) !in f.insts[j].ops
    ensures InstOk(f, s', j)
  {
    hide EvalInstruction;
    if UsesAny(f.insts[j], s.ssaWork) && s'.ssaWork != s.ssaWork {
      UsesAnyPop(f.insts[j], s.ssaWork, s'.ssaWork, v);
    }
  }

  lemma PoppedTerm(f: Function, s: Facts, s': Facts, c: nat, b: nat, v: nat)
    requires TermOk(f, s, c) && s'.lat == s.lat && s'.edges == s.edges
    requires SubWork(s'.cfgWork, s.cfgWork, b) && SubWork(s'.ssaWork, s.ssaWork, v)
    requires s'.cfgWork == s.cfgWork || c != b
    requires s'.ssaWork == s.ssaWork || (HasLast(f, c) ==> OpValue(v) !in Last(f, c).ops)
    ensures TermOk(f, s', c)
  {
    if HasLast(f, c) && UsesAny(Last(f, c), s.ssaWork) && s'.ssaWork != s.ssaWork {
      UsesAnyPop(Last(f, c), s.ssaWork, s'.ssaWork, v);
    }
  }

  lemma DropLast(work: seq<nat>)
    requires |work| > 0
    ensures SubWork(work[..|work| - 1], work, work[|work| - 1])
  {
    var w, x := work[..|work| - 1], work[|work| - 1];
    assert work == w + [x];
  }

  lemma TopBlock(f: Function, s: Facts, b: nat)
    requires ShapeOk(f, s) && b in s.cfgWork
    ensures |s.lat| == |f.vals| && |s.exec| == |f.blocks| && b < |s.exec| && s.exec[b]
  {
  }

  lemma PopBlock(f: Function, s: Facts, s': Facts, b: nat)
    requires Inv(f, s, {}, {}) && |s.cfgWork| > 0 && b == s.cfgWork[|s.cfgWork| - 1]
    requires s' == s.(cfgWork := s.cfgWork[..|s.cfgWork| - 1])
    ensures b < |f.blocks| && s.exec[b]
    ensures Inv(f, s', IdSet(f.blocks[b].code), {b})
    ensures Potential(f, s') == Potential(f, s)
  {
    hide InstsOk, TermsOk, ShapeOk, Descends, IdSet, SubWork;
    TopBlock(f, s, b);
    DropLast(s.cfgWork);
    LessWork(s, s', b);
    FewerWaiting(f, s, s');
    PoppedInsts(f, s, s', b);
    PoppedTerms(f, s, s', b);
  }

  lemma LessWork(s: Facts, s': Facts, b: nat)
    requires SubWork(s'.cfgWork, s.cfgWork, b) && s'.ssaWork == s.ssaWork
    ensures (forall x :: x in s'.cfgWork ==> x in s.cfgWork) && (forall x :: x in s'.ssaWork ==> x in s.ssaWork)
  {
  }

  lemma PoppedInsts(f: Function, s: Facts, s': Facts, b: nat)
    requires ShapeOk(f, s) && ShapeOk(f, s') && InstsOk(f, s, {}) && b < |f.blocks|
    requires s'.lat == s.lat && s'.edges == s.edges && s'.exec == s.exec
    requires SubWork(s'.cfgWork, s.cfgWork, b) && s'.ssaWork == s.ssaWork
    ensures InstsOk(f, s', IdSet(f.blocks[b].code))
  {
    hide InstOk, EdgeOk, CodeOk, ResultsOk, SubWork;
    assert SubWork(s'.ssaWork, s.ssaWork, 0) by { SameWork(s.ssaWork, 0); }
    forall j: nat | Listed(f, j) && s'.exec[f.insts[j].block] && j !in IdSet(f.blocks[b].code)
      ensures InstOk(f, s', j)
    {
      assert InstOk(f, s, j);
      PoppedInst(f, s, s', j, b, 0);
    }
  }

  lemma PoppedTerms(f: Function, s: Facts, s': Facts, b: nat)
    requires ShapeOk(f, s) && ShapeOk(f, s') && TermsOk(f, s, {})
    requires s'.lat == s.lat && s'.edges == s.edges && s'.exec == s.exec
    requires SubWork(s'.cfgWork, s.cfgWork, b) && s'.ssaWork == s.ssaWork
    ensures TermsOk(f, s', {b})
  {
    hide TermOk, EdgeOk, CodeOk, ResultsOk, SubWork;
    assert SubWork(s'.ssaWork, s.ssaWork, 0) by { SameWork(s.ssaWork, 0); }
    forall c: nat | c < |f.blocks| && s'.exec[c] && c !in {b} ensures TermOk(f, s', c) {
      assert TermOk(f, s, c);
      PoppedTerm(f, s, s', c, b, 0);
    }
  }

  lemma SameWork(work: seq<nat>, x: nat)
    ensures SubWork(work, work, x)
  {
  }

  /** The blocks whose last instruction is among the given ones. */
  ghost function LastIn(f: Function, ids: seq<nat>): set<nat> {
    set b: nat | b < |f.blocks| && HasLast(f, b) && f.blocks[b].code[|f.blocks[b].code| - 1] in ids
  }

  lemma LastListed(f: Function, b: nat)
    requires CodeOk(f) && HasLast(f, b)
    ensures Listed(f, f.blocks[b].code[|f.blocks[b].code| - 1])
  {
  }

  lemma ValueUsers(f: Function, s: Facts, v: nat, users: seq<seq<nat>>)
    requires ShapeOk(f, s) && v in s.ssaWork && UsersOk(f, users)
    ensures v < |users|
    ensures forall j: nat :: Listed(f, j) && OpValue(v) in f.insts[j].ops ==> j in users[v]
    ensures forall c: nat :: c < |f.blocks| && HasLast(f, c) && OpValue(v) in Last(f, c).ops ==>
            c in LastIn(f, users[v])
  {
    hide EdgeOk;
    forall c: nat | c < |f.blocks| && HasLast(f, c) && OpValue(v) in Last(f, c).ops ensures c in LastIn(f, users[v]) {
      LastListed(f, c);
    }
  }

  lemma PopValue(f: Function, s: Facts, s': Facts, v: nat, users: seq<seq<nat>>)
    requires Inv(f, s, {}, {}) && |s.ssaWork| > 0 && v == s.ssaWork[|s.ssaWork| - 1] && UsersOk(f, users)
    requires s' == s.(ssaWork := s.ssaWork[..|s.ssaWork| - 1])
    ensures v < |users| && Inv(f, s', IdSet(users[v]), LastIn(f, users[v]))
    ensures Potential(f, s') == Potential(f, s)
  {
    hide EvalInstruction;
    DropLast(s.ssaWork);
    FewerWaiting(f, s, s');
    assert SubWork(s'.cfgWork, s.cfgWork, 0);
    ValueUsers(f, s, v, users);
    hide InstOk, TermOk, EdgeOk, CellAbove, CodeOk, ResultsOk, UsersOk, LastIn;
    forall j: nat | Listed(f, j) && s'.exec[f.insts[j].block] && j !in IdSet(users[v]) ensures InstOk(f, s', j) {
      assert InstOk(f, s, j);
      PoppedInst(f, s, s', j, 0, v);
    }
    forall c: nat | c < |f.blocks| && s'.exec[c] && c !in LastIn(f, users[v]) ensures TermOk(f, s', c) {
      assert TermOk(f, s, c);
      PoppedTerm(f, s, s', c, 0, v);
    }
  }

  lemma UsesAnyPop(inst: Instruction, work: seq<nat>, work': seq<nat>, v: nat)
    requires OpValue(v) !in inst.ops && forall x :: x in work ==> x in work' || x == v
    ensures UsesAny(inst, work) ==> UsesAny(inst, work')
  {
    if UsesAny(inst, work) {
      var x :| x in work && OpValue(x) in inst.ops;
      assert x in work';
    }
  }

  /** Dropping settled exemptions: what is not in the set any more is covered. */
  lemma Weaken(f: Function, s: Facts, a: set<nat>, a': set<nat>, b: set<nat>, b': set<nat>)
    requires Inv(f, s, a, b) && a <= a' && b <= b'
    ensures Inv(f, s, a', b')
  {
    hide InstOk, TermOk, EdgeOk, CellAbove;
  }

  /** A user in a block that is not executable yet needs no visit: its block will be queued when it becomes so. */
  lemma SkipUser(f: Function, s: Facts, ids: seq<nat>, k: nat)
    requires ShapeOk(f, s) && k < |ids| && Listed(f, ids[k]) && !s.exec[f.insts[ids[k]].block]
    requires Inv(f, s, IdSet(ids[k..]), LastIn(f, ids[k..]))
    ensures Inv(f, s, IdSet(ids[k + 1..]), LastIn(f, ids[k + 1..]))
  {
    assert ids[k..] == [ids[k]] + ids[k + 1..];
    hide InstOk, TermOk, EdgeOk, CellAbove, EvalInstruction;
    forall c: nat | c < |f.blocks| && s.exec[c] && c !in LastIn(f, ids[k + 1..]) ensures TermOk(f, s, c) {
      if c in LastIn(f, ids[k..]) { LastBlock(f, c); }
    }
  }

  lemma LastBlock(f: Function, b: nat)
    requires CodeOk(f) && HasLast(f, b)
    ensures f.insts[f.blocks[b].code[|f.blocks[b].code| - 1]].block == b
  {
  }

  /** After visiting user ids[k], and its block's terminator where it is one, it is exempt no more. */
  lemma UserDone(f: Function, s: Facts, ids: seq<nat>, k: nat)
    requires k < |ids| && Listed(f, ids[k]) && CodeOk(f)
    requires var i := ids[k];
             Inv(f, s, IdSet(ids[k..]) - {i},
                 if IsTerminator(f.insts[i].opcode) then LastIn(f, ids[k..]) - {f.insts[i].block}
                   else LastIn(f, ids[k..]))
    ensures Inv(f, s, IdSet(ids[k + 1..]), LastIn(f, ids[k + 1..]))
  {
    hide InstOk, TermOk, EdgeOk, CellAbove, CodeOk, ResultsOk, IsTerminator, ShapeOk, Descends;
    var i := ids[k];
    assert ids[k..] == [i] + ids[k + 1..];
    assert IdSet(ids[k..]) - {i} <= IdSet(ids[k + 1..]);
    assert |s.exec| == |f.blocks| && |s.lat| == |f.vals| by { Sizes(f, s); }
    forall c: nat | c < |f.blocks| && s.exec[c] && c !in LastIn(f, ids[k + 1..]) ensures TermOk(f, s, c) {
      if c in LastIn(f, ids[k..]) {
        LastBlock(f, c);
        if !IsTerminator(f.insts[i].opcode) { PlainEnd(f, s, c); }
      }
    }
  }

  lemma Sizes(f: Function, s: Facts)
    requires ShapeOk(f, s)
    ensures |s.lat| == |f.vals| && |s.exec| == |f.blocks|
  {
  }

  /** A block that does not end in a terminator has no edges to mark. */
  lemma PlainEnd(f: Function, s: Facts, b: nat)
    requires HasLast(f, b) && !IsTerminator(Last(f, b).opcode)
    ensures TermOk(f, s, b)
  {
  }

  /** Nothing waits: the equations are solved. */
  lemma Solved(f: Function, s: Facts)
    requires Inv(f, s, {}, {}) && s.cfgWork == [] && s.ssaWork == []
    ensures IsFixpoint(f, s)
  {
    hide EvalInstruction;
    forall i: nat | Listed(f, i) && s.exec[f.insts[i].block] ensures InstSettled(f, s, i) {
      assert InstOk(f, s, i);
    }
    forall b: nat | b < |f.blocks| && s.exec[b] ensures TermSettled(f, s, b) {
      assert TermOk(f, s, b);
    }
  }

  // ---------------------------------------------------------------- precision

  /** Visiting an executable instruction stays above every solution. */
  lemma VisitAbove(f: Function, s: Facts, i: nat, ref: Facts)
    requires ShapeOk(f, s) && Listed(f, i) && s.exec[f.insts[i].block]
    requires f.insts[i].result.Some? ==> f.insts[i].result.value < |f.vals|
    requires IsSolution(f, ref) && Above(s, ref)
    ensures Above(VisitInst(f, s, i), ref)
  {
    hide EvalInstruction, CodeOk, ResultsOk;
    assert InstSettled(f, ref, i);
    EvalMonotone(f, f.insts[i], ref.lat, s.lat, ref.edges, s.edges);
  }

  lemma MarkAbove(s: Facts, b: nat, t: nat, ref: Facts)
    requires Above(s, ref) && (b, t) in ref.edges && (t < |ref.exec| ==> ref.exec[t])
    ensures Above(MarkEdge(s, b, t), ref)
  {
    if (b, t) !in s.edges {
      assert forall e :: e in MarkEdge(s, b, t).edges ==> e in s.edges || e == (b, t);
    }
  }

  lemma TerminatorAbove(f: Function, s: Facts, b: nat, ref: Facts)
    requires b < |f.blocks| && b < |s.exec| && s.exec[b]
    requires IsSolution(f, ref) && Above(s, ref)
    ensures Above(EvalTerminator(f, s, b), ref)
  {
    assert TermSettled(f, ref, b);
    hide CodeOk, ResultsOk, MarkEdge;
    forall t: nat | (b, t) in ref.edges ensures t < |ref.exec| ==> ref.exec[t] {
      assert EdgeOk(f, ref, (b, t));
    }
    if HasLast(f, b) {
      var term := Last(f, b);
      if IsBranch(term) {
        MarkAbove(s, b, term.ops[0].blk, ref);
      } else if IsBranchIf(term) {
        OperandMonotone(ref.lat, s.lat, term.ops[0]);
        match OperandLat(s.lat, term.ops[0]) {
          case Constant(c) => MarkAbove(s, b, if c != 0 then term.ops[1].blk else term.ops[2].blk, ref);
          case Bottom =>
            MarkAbove(s, b, term.ops[1].blk, ref);
            MarkAbove(MarkEdge(s, b, term.ops[1].blk), b, term.ops[2].blk, ref);
          case Top =>
        }
      }
    }
  }

  lemma StartTight(f: Function, s: Facts)
    requires IsStart(f, s)
    ensures Tight(f, s)
  {
    hide InitialLat;
    assert MarkedPath(f, s.edges, [f.entry], f.entry);
  }

  /** The solved equations of a tight state say exactly what is known. */
  lemma FixpointPrecise(f: Function, s: Facts)
    requires IsFixpoint(f, s) && Tight(f, s)
    ensures Precise(f, s)
  {
    hide Tight, ShapeOk, InstSettled, TermSettled;
    PreciseAtRest(f, s);
  }

  lemma StartAbove(f: Function, s: Facts, ref: Facts)
    requires IsStart(f, s) && IsSolution(f, ref)
    ensures Above(s, ref)
  {
  }

  /** The equations have one greatest solution, so the order of the worklists cannot matter. */
  lemma GreatestIsUnique(f: Function, s: Facts, t: Facts)
    requires IsSolution(f, s) && IsSolution(f, t) && Above(s, t) && Above(t, s)
    ensures s.lat == t.lat && s.exec == t.exec && forall e :: e in s.edges <==> e in t.edges
  {
    hide IsSolution;
    forall v | 0 <= v < |s.lat| ensures s.lat[v] == t.lat[v] {
      assert Below(s.lat[v], t.lat[v]) && Below(t.lat[v], s.lat[v]);
    }
  }

  // ---------------------------------------------------------------- the solver

  lemma ListedAt(f: Function, s: Facts, b: nat, k: nat, skipInsts: set<nat>, skipBlocks: set<nat>)
    requires Inv(f, s, skipInsts, skipBlocks) && b < |f.blocks| && k < |f.blocks[b].code|
    ensures Listed(f, f.blocks[b].code[k]) && f.insts[f.blocks[b].code[k]].block == b && ShapeOk(f, s)
  {
  }

  lemma InvShape(f: Function, s: Facts, skipInsts: set<nat>, skipBlocks: set<nat>)
    requires Inv(f, s, skipInsts, skipBlocks)
    ensures ShapeOk(f, s) && CodeOk(f)
  {
  }

  lemma VisitExec(f: Function, s: Facts, i: nat)
    requires i < |f.insts| && |s.lat| == |f.vals|
    requires f.insts[i].result.Some? ==> f.insts[i].result.value < |f.vals|
    ensures VisitInst(f, s, i).exec == s.exec
  {
  }

  lemma NoUsersLeft(f: Function)
    ensures LastIn(f, []) == {} && IdSet([]) == {}
  {
  }

  lemma SameAbove(s: Facts, s': Facts, ref: Facts)
    requires s'.lat == s.lat && s'.exec == s.exec && s'.edges == s.edges
    ensures Above(s, ref) ==> Above(s', ref)
  {
  }

  lemma UsersListed(f: Function, users: seq<seq<nat>>, v: nat)
    requires UsersOk(f, users) && v < |users|
    ensures forall k :: 0 <= k < |users[v]| ==> Listed(f, users[v][k])
  {
    forall k | 0 <= k < |users[v]| ensures Listed(f, users[v][k]) { assert users[v][k] in users[v]; }
  }

  lemma ProgressMeasure(f: Function, s: Facts, s': Facts)
    requires Progress(f, s, s')
    ensures Potential(f, s') < Potential(f, s) || s' == s
  {
  }

  lemma BelowInitialTrans(f: Function, lat': seq<Lat>, lat: seq<Lat>)
    requires LatBelow(lat', lat) && BelowInitial(f, lat)
    ensures BelowInitial(f, lat')
  {
  }

  lemma SolutionFrom(f: Function, s: Facts)
    requires IsFixpoint(f, s) && BelowInitial(f, s.lat)
    ensures IsSolution(f, s)
  {
  }

  /** The local state of ny_opt_pass_sccp. */
  class Solver {
    const f: Function
    const lat: array<Lat>
    const blockExec: array<bool>
    var edges: Edges
    var cfgWork: seq<nat>
    var ssaWork: seq<nat>

    ghost predicate Valid() {
      lat.Length == |f.vals| && blockExec.Length == |f.blocks|
    }

    ghost function Snapshot(): Facts
      reads this, lat, blockExec
    {
      Facts(lat[..], blockExec[..], edges, cfgWork, ssaWork)
    }

    constructor (f: Function)
      requires CodeOk(f)
      ensures Valid() && this.f == f && IsStart(f, Snapshot())
      ensures fresh(lat) && fresh(blockExec)
    {
      this.f := f;
      lat := new Lat[|f.vals|](v requires 0 <= v < |f.vals| => InitialLat(f, v));
      var exec := new bool[|f.blocks|](_ => false);
      exec[f.entry] := true;
      blockExec := exec;
      edges, cfgWork, ssaWork := [], [f.entry], [];
    }

    method Visit(i: nat)
      requires Valid() && i < |f.insts|
      requires f.insts[i].result.Some? ==> f.insts[i].result.value < |f.vals|
      modifies this`ssaWork, lat
      ensures Snapshot() == VisitInst(f, old(Snapshot()), i)
    {
      var inst := f.insts[i];
      if inst.result.Some? {
        var r := inst.result.value;
        var newVal := EvalInstruction(f, inst, lat[..], edges);
        if newVal != lat[r] {
          lat[r] := newVal;
          ssaWork := ssaWork + [r];
        }
      }
    }

    method Mark(b: nat, t: nat)
      requires Valid()
      modifies this`edges, this`cfgWork, blockExec
      ensures Snapshot() == MarkEdge(old(Snapshot()), b, t)
    {
      if (b, t) !in edges {
        edges := edges + [(b, t)];
        if t < |f.blocks| {
          blockExec[t] := true;
          cfgWork := cfgWork + [t];
        }
      }
    }

    method VisitTerminator(b: nat)
      requires Valid()
      modifies this`edges, this`cfgWork, blockExec
      ensures Snapshot() == EvalTerminator(f, old(Snapshot()), b)
    {
      if !HasLast(f, b) { return; }
      var term := Last(f, b);
      if IsBranch(term) {
        Mark(b, term.ops[0].blk);
      } else if IsBranchIf(term) {
        var cond := OperandLat(lat[..], term.ops[0]);
        match cond {
          case Constant(c) =>
            var target := if c != 0 then term.ops[1].blk else term.ops[2].blk;
            Mark(b, target);
          case Bottom =>
            Mark(b, term.ops[1].blk);
            Mark(b, term.ops[2].blk);
          case Top =>
        }
      }
    }

    /** Re-evaluates the whole of block b, which has just left the block worklist. */
    method ProcessBlock(b: nat, ghost ref: Facts)
      requires Valid() && b < |f.blocks| && blockExec[b]
      requires Inv(f, Snapshot(), IdSet(f.blocks[b].code), {b})
      requires (IsSolution(f, ref) ==> Above(Snapshot(), ref)) && BelowInitial(f, Snapshot().lat)
               && Tight(f, Snapshot())
      modifies this, lat, blockExec
      ensures Inv(f, Snapshot(), {}, {}) && Progress(f, old(Snapshot()), Snapshot())
      ensures (IsSolution(f, ref) ==> Above(Snapshot(), ref)) && BelowInitial(f, Snapshot().lat) && Tight(f, Snapshot())
    {
      hide Inv, IsSolution, Above, Tight, BelowInitial, Progress, VisitInst, EvalTerminator, CodeOk;
      ghost var s1 := Snapshot();
      SameProgress(f, s1);
      var code := f.blocks[b].code;
      assert code[0..] == code;
      var k := 0;
      while k < |code|
        invariant 0 <= k <= |code| && blockExec[b]
        invariant Inv(f, Snapshot(), IdSet(code[k..]), {b}) && Progress(f, s1, Snapshot())
        invariant (IsSolution(f, ref) ==> Above(Snapshot(), ref)) && BelowInitial(f, Snapshot().lat)
                  && Tight(f, Snapshot())
      {
        ghost var s := Snapshot();
        ListedAt(f, s, b, k, IdSet(code[k..]), {b});
        VisitKeeps(f, s, code[k], IdSet(code[k..]), {b});
        if IsSolution(f, ref) { VisitAbove(f, s, code[k], ref); }
        VisitTight(f, s, code[k]);
        VisitExec(f, s, code[k]);
        Visit(code[k]);
        BelowInitialTrans(f, Snapshot().lat, s.lat);
        ProgressTrans(f, s1, s, Snapshot());
        assert code[k..] == [code[k]] + code[k + 1..];
        Weaken(f, Snapshot(), IdSet(code[k..]) - {code[k]}, IdSet(code[k + 1..]), {b}, {b});
        k := k + 1;
      }
      ghost var s := Snapshot();
      TerminatorKeeps(f, s, b, IdSet(code[k..]), {b});
      if IsSolution(f, ref) { TerminatorAbove(f, s, b, ref); }
      TerminatorTight(f, s, b);
      VisitTerminator(b);
      ProgressTrans(f, s1, s, Snapshot());
      Weaken(f, Snapshot(), IdSet(code[k..]), {}, {b} - {b}, {});
    }

    /** Re-evaluates the users of a value whose cell changed, where their blocks are executable. */
    method ProcessUsers(ids: seq<nat>, ghost ref: Facts)
      requires Valid() && forall k :: 0 <= k < |ids| ==> Listed(f, ids[k])
      requires Inv(f, Snapshot(), IdSet(ids), LastIn(f, ids))
      requires (IsSolution(f, ref) ==> Above(Snapshot(), ref)) && BelowInitial(f, Snapshot().lat)
               && Tight(f, Snapshot())
      modifies this, lat, blockExec
      ensures Inv(f, Snapshot(), {}, {}) && Progress(f, old(Snapshot()), Snapshot())
      ensures (IsSolution(f, ref) ==> Above(Snapshot(), ref)) && BelowInitial(f, Snapshot().lat) && Tight(f, Snapshot())
    {
      hide Inv, IsSolution, Above, Tight, BelowInitial, Progress, VisitInst, EvalTerminator, CodeOk, LastIn;
      ghost var s1 := Snapshot();
      SameProgress(f, s1);
      assert ids[0..] == ids;
      var k := 0;
      while k < |ids|
        invariant 0 <= k <= |ids|
        invariant Inv(f, Snapshot(), IdSet(ids[k..]), LastIn(f, ids[k..])) && Progress(f, s1, Snapshot())
        invariant (IsSolution(f, ref) ==> Above(Snapshot(), ref)) && BelowInitial(f, Snapshot().lat)
                  && Tight(f, Snapshot())
      {
        ghost var s := Snapshot();
        ghost var insts, blocks := IdSet(ids[k..]), LastIn(f, ids[k..]);
        var user := f.insts[ids[k]];
        InvShape(f, s, insts, blocks);
        if blockExec[user.block] {
          VisitKeeps(f, s, ids[k], insts, blocks);
          if IsSolution(f, ref) { VisitAbove(f, s, ids[k], ref); }
          VisitTight(f, s, ids[k]);
          VisitExec(f, s, ids[k]);
          Visit(ids[k]);
          BelowInitialTrans(f, Snapshot().lat, s.lat);
          ProgressTrans(f, s1, s, Snapshot());
          if IsTerminator(user.opcode) {
            ghost var s' := Snapshot();
            TerminatorKeeps(f, s', user.block, insts - {ids[k]}, blocks);
            if IsSolution(f, ref) { TerminatorAbove(f, s', user.block, ref); }
            TerminatorTight(f, s', user.block);
            VisitTerminator(user.block);
            ProgressTrans(f, s1, s', Snapshot());
          }
          UserDone(f, Snapshot(), ids, k);
        } else {
          SkipUser(f, s, ids, k);
        }
        k := k + 1;
      }
      assert ids[k..] == [];
      NoUsersLeft(f);
    }

    /** The two-worklist loop. */
    method Solve(users: seq<seq<nat>>, ghost ref: Facts)
      requires Valid() && CodeOk(f) && ResultsOk(f) && UsersOk(f, users) && IsStart(f, Snapshot())
      modifies this, lat, blockExec
      ensures IsSolution(f, Snapshot())
      ensures IsSolution(f, ref) ==> Above(Snapshot(), ref)
      ensures Precise(f, Snapshot())
    {
      hide Inv, IsSolution, IsFixpoint, Above, Tight, Precise, BelowInitial, Progress, CodeOk, ResultsOk, UsersOk,
        LastIn, Potential, IsStart;
      StartInv(f, Snapshot());
      StartTight(f, Snapshot());
      if IsSolution(f, ref) { StartAbove(f, Snapshot(), ref); }
      while |cfgWork| > 0 || |ssaWork| > 0
        invariant Inv(f, Snapshot(), {}, {})
        invariant (IsSolution(f, ref) ==> Above(Snapshot(), ref)) && BelowInitial(f, Snapshot().lat)
                  && Tight(f, Snapshot())
        decreases Potential(f, Snapshot()), |cfgWork| + |ssaWork|
      {
        ghost var s := Snapshot();
        if |cfgWork| > 0 {
          var b := cfgWork[|cfgWork| - 1];
          cfgWork := cfgWork[..|cfgWork| - 1];
          PopBlock(f, s, Snapshot(), b);
          SameAbove(s, Snapshot(), ref);
          SameTight(f, s, Snapshot());
          ghost var s1 := Snapshot();
          ProcessBlock(b, ref);
          ProgressMeasure(f, s1, Snapshot());
        } else {
          var v := ssaWork[|ssaWork| - 1];
          ssaWork := ssaWork[..|ssaWork| - 1];
          PopValue(f, s, Snapshot(), v, users);
          SameAbove(s, Snapshot(), ref);
          SameTight(f, s, Snapshot());
          UsersListed(f, users, v);
          ghost var s1 := Snapshot();
          ProcessUsers(users[v], ref);
          ProgressMeasure(f, s1, Snapshot());
        }
      }
      Solved(f, Snapshot());
      FixpointPrecise(f, Snapshot());
      SolutionFrom(f, Snapshot());
    }
  }
}
