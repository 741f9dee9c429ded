/**
 * The steps of the two-worklist fixpoint of src/opt/sccp.c as functions of the solver's facts, and the
 * invariant each step keeps.
 */
module SccpSteps {
  import opened Ir
  import opened SccpLattice

  /** Lattice cells, executable blocks and edges, and the two worklists. */
  datatype Facts = Facts(lat: seq<Lat>, exec: seq<bool>, edges: Edges, cfgWork: seq<nat>, ssaWork: seq<nat>)

  // ---------------------------------------------------------------- the steps

  /** Re-evaluates instruction i; a changed cell is overwritten and its value queued. */
  function VisitInst(f: Function, s: Facts, i: nat): Facts
    requires i < |f.insts| && |s.lat| == |f.vals|
    requires f.insts[i].result.Some? ==> f.insts[i].result.value < |f.vals|
  {
    var inst := f.insts[i];
    if inst.result.None? then s
    else
      var r := inst.result.value;
      var l := EvalInstruction(f, inst, s.lat, s.edges);
      if l == s.lat[r] then s else s.(lat := s.lat[r := l], ssaWork := s.ssaWork + [r])
  }

  /** mark_edge_exec and what its callers do with a new edge. */
  function MarkEdge(s: Facts, b: nat, t: nat): (r: Facts)
    ensures (b, t) in r.edges && (forall e :: e in s.edges ==> e in r.edges)
  {
    if (b, t) in s.edges then s
    else
      var s' := s.(edges := s.edges + [(b, t)]);
      assert s'.edges[|s.edges|] == (b, t);
      if t < |s.exec| then s'.(exec := s.exec[t := true], cfgWork := s.cfgWork + [t]) else s'
  }

  /** eval_terminator. */
  function EvalTerminator(f: Function, s: Facts, b: nat): Facts {
    if !HasLast(f, b) then s
    else
      var term := Last(f, b);
      if IsBranch(term) then MarkEdge(s, b, term.ops[0].blk)
      else if IsBranchIf(term) then
        match OperandLat(s.lat, term.ops[0])
        case Constant(c) => MarkEdge(s, b, if c != 0 then term.ops[1].blk else term.ops[2].blk)
        case Bottom => MarkEdge(MarkEdge(s, b, term.ops[1].blk), b, term.ops[2].blk)
        case Top => s
      else s
  }

  // ---------------------------------------------------------------- the invariant

  ghost predicate EdgeOk(f: Function, s: Facts, e: (nat, nat)) {
    && e.0 < |s.exec| && e.0 < |f.blocks| && s.exec[e.0] && e.1 in BlockTargets(f, e.0)
    && (e.1 < |s.exec| ==> s.exec[e.1])
  }

  ghost predicate ShapeOk(f: Function, s: Facts) {
    && CodeOk(f) && ResultsOk(f)
    && |s.lat| == |f.vals| && |s.exec| == |f.blocks| && s.exec[f.entry]
    && (forall b :: b in s.cfgWork ==> b < |s.exec| && s.exec[b])
    && (forall v :: v in s.ssaWork ==> v < |s.lat|)
    && (forall e :: e in s.edges ==> EdgeOk(f, s, e))
    && (forall v :: 0 <= v < |f.vals| && f.vals[v].kind == ArgumentValue ==> s.lat[v] == Bottom)
  }

  /** Every cell is at or above its re-evaluation, so overwriting it can only lower it. */
  ghost predicate Descends(f: Function, s: Facts)
    requires ShapeOk(f, s)
  {
    forall i: nat :: Listed(f, i) && f.insts[i].result.Some? ==> CellAbove(f, s, i)
  }

  ghost predicate CellAbove(f: Function, s: Facts, i: nat)
    requires i < |f.insts| && |s.lat| == |f.vals| && f.insts[i].result.Some?
  {
    f.insts[i].result.value < |f.vals| &&
    Below(EvalInstruction(f, f.insts[i], s.lat, s.edges), s.lat[f.insts[i].result.value])
  }

  ghost predicate InstSettled(f: Function, s: Facts, i: nat)
    requires i < |f.insts| && |s.lat| == |f.vals|
  {
    f.insts[i].result.Some? && f.insts[i].result.value < |f.vals| ==>
      EvalInstruction(f, f.insts[i], s.lat, s.edges) == s.lat[f.insts[i].result.value]
  }

  ghost predicate UsesAny(inst: Instruction, work: seq<nat>) {
    exists v :: v in work && OpValue(v) in inst.ops
  }

  ghost predicate InstOk(f: Function, s: Facts, i: nat)
    requires i < |f.insts| && |s.lat| == |f.vals|
  {
    InstSettled(f, s, i) || f.insts[i].block in s.cfgWork || UsesAny(f.insts[i], s.ssaWork)
  }

  /** Every instruction of an executable block, except those of skip, is settled or waits in a worklist. */
  ghost predicate InstsOk(f: Function, s: Facts, skip: set<nat>)
    requires ShapeOk(f, s)
  {
    forall i: nat :: Listed(f, i) && s.exec[f.insts[i].block] && i !in skip ==> InstOk(f, s, i)
  }

  /** The edges that the condition's cell calls for are marked. */
  ghost predicate TermSettled(f: Function, s: Facts, b: nat) {
    HasLast(f, b) ==>
      var term := Last(f, b);
      if IsBranch(term) then (b, term.ops[0].blk) in s.edges
      else if IsBranchIf(term) then
        match OperandLat(s.lat, term.ops[0])
        case Constant(c) => (b, if c != 0 then term.ops[1].blk else term.ops[2].blk) in s.edges
        case Bottom => (b, term.ops[1].blk) in s.edges && (b, term.ops[2].blk) in s.edges
        case Top => true
      else true
  }

  ghost predicate TermOk(f: Function, s: Facts, b: nat) {
    TermSettled(f, s, b) || b in s.cfgWork || (HasLast(f, b) && UsesAny(Last(f, b), s.ssaWork))
  }

  ghost predicate TermsOk(f: Function, s: Facts, skip: set<nat>)
    requires ShapeOk(f, s)
  {
    forall b: nat :: b < |f.blocks| && s.exec[b] && b !in skip ==> TermOk(f, s, b)
  }

  ghost predicate Inv(f: Function, s: Facts, skipInsts: set<nat>, skipBlocks: set<nat>) {
    ShapeOk(f, s) && Descends(f, s) && InstsOk(f, s, skipInsts) && TermsOk(f, s, skipBlocks)
  }

  // ---------------------------------------------------------------- termination measure

  function Height(l: Lat): nat {
    match l
    case Top => 2
    case Constant(_) => 1
    case Bottom => 0
  }

  function Heights(lat: seq<Lat>): nat {
    if lat == [] then 0 else Heights(lat[..|lat| - 1]) + Height(lat[|lat| - 1])
  }

  lemma {:induction false} HeightsDrop(lat: seq<Lat>, v: nat, l: Lat)
    requires v < |lat| && Below(l, lat[v]) && l != lat[v]
    ensures Heights(lat[v := l]) < Heights(lat)
  {
    var n := |lat| - 1;
    if v < n {
      assert lat[v := l][..n] == lat[..n][v := l];
      HeightsDrop(lat[..n], v, l);
    } else {
      assert lat[v := l][..n] == lat[..n];
    }
  }

  ghost function AllEdges(f: Function): set<(nat, nat)> {
    set b: nat, t: nat | b < |f.blocks| && t in BlockTargets(f, b) :: (b, t)
  }

  ghost function EdgeSet(e: Edges): set<(nat, nat)> {
    set p | p in e
  }

  ghost function Potential(f: Function, s: Facts): nat {
    Heights(s.lat) + |AllEdges(f) - EdgeSet(s.edges)|
  }

  /** A step either changes nothing or uses up potential. */
  ghost predicate Progress(f: Function, s: Facts, s': Facts) {
    s' == s || Potential(f, s') < Potential(f, s)
  }

  // ---------------------------------------------------------------- visiting an instruction

  /** An instruction that does not read value r does not notice its cell. */
  lemma UnusedCell(f: Function, inst: Instruction, lat: seq<Lat>, edges: Edges, r: nat, l: Lat)
    requires r < |lat| && OpValue(r) !in inst.ops
    ensures EvalInstruction(f, inst, lat[r := l], edges) == EvalInstruction(f, inst, lat, edges)
  {
    forall k | 0 <= k < |inst.ops| ensures OperandLat(lat[r := l], inst.ops[k]) == OperandLat(lat, inst.ops[k]) {
      assert inst.ops[k] in inst.ops;
    }
    EvalFrame(f, inst, lat[r := l], lat, edges, edges);
  }

  /** Two listed instructions do not share a result. */
  lemma ResultsDistinct(f: Function, i: nat, j: nat)
    requires ResultsOk(f) && Listed(f, i) && Listed(f, j)
    requires f.insts[i].result.Some? && f.insts[j].result == f.insts[i].result
    ensures i == j
  {
  }

  lemma LowerCell(lat: seq<Lat>, r: nat, l: Lat)
    requires r < |lat| && Below(l, lat[r])
    ensures LatBelow(lat[r := l], lat)
  {
  }

  lemma VisitShape(f: Function, s: Facts, i: nat)
    requires ShapeOk(f, s) && Descends(f, s) && Listed(f, i)
    requires f.insts[i].result.Some? ==> f.insts[i].result.value < |f.vals|
    ensures ShapeOk(f, VisitInst(f, s, i)) && LatBelow(VisitInst(f, s, i).lat, s.lat)
    ensures VisitInst(f, s, i).edges == s.edges && VisitInst(f, s, i).exec == s.exec
    ensures VisitInst(f, s, i).cfgWork == s.cfgWork
  {
    hide CodeOk, EvalInstruction;
    var inst := f.insts[i];
    if inst.result.Some? {
      assert CellAbove(f, s, i);
      LowerCell(s.lat, inst.result.value, EvalInstruction(f, inst, s.lat, s.edges));
    }
    var s' := VisitInst(f, s, i);
    forall e | e in s'.edges ensures EdgeOk(f, s', e) { assert EdgeOk(f, s, e); }
  }

  lemma VisitDescends(f: Function, s: Facts, i: nat)
    requires ShapeOk(f, s) && Descends(f, s) && Listed(f, i)
    requires f.insts[i].result.Some? ==> f.insts[i].result.value < |f.vals|
    requires ShapeOk(f, VisitInst(f, s, i))
    ensures Descends(f, VisitInst(f, s, i))
  {
    VisitShape(f, s, i);
    hide EvalInstruction;
    var s' := VisitInst(f, s, i);
    forall j: nat | Listed(f, j) && f.insts[j].result.Some? ensures CellAbove(f, s', j) {
      assert CellAbove(f, s, j);
      EvalMonotone(f, f.insts[j], s'.lat, s.lat, s'.edges, s.edges);
      if f.insts[j].result == f.insts[i].result { ResultsDistinct(f, i, j); }
    }
  }

  lemma VisitInsts(f: Function, s: Facts, i: nat, skip: set<nat>, j: nat)
    requires ShapeOk(f, s) && Listed(f, i) && Listed(f, j)
    requires f.insts[i].result.Some? ==> f.insts[i].result.value < |f.vals|
    requires j != i ==> InstOk(f, s, j)
    requires |VisitInst(f, s, i).lat| == |f.vals|
    ensures InstOk(f, VisitInst(f, s, i), j)
  {
    hide EvalInstruction, CodeOk;
    var s' := VisitInst(f, s, i);
    if s' != s {
      var r := f.insts[i].result.value;
      assert s'.ssaWork[|s.ssaWork|] == r;
      assert r in s'.ssaWork && forall v :: v in s.ssaWork ==> v in s'.ssaWork;
      if OpValue(r) in f.insts[j].ops {
        assert UsesAny(f.insts[j], s'.ssaWork);
      } else {
        UnusedCell(f, f.insts[j], s.lat, s.edges, r, s'.lat[r]);
        if j != i && f.insts[j].result == f.insts[i].result { ResultsDistinct(f, i, j); }
        if j != i && UsesAny(f.insts[j], s.ssaWork) { assert UsesAny(f.insts[j], s'.ssaWork); }
      }
    }
  }

  lemma VisitTerms(f: Function, s: Facts, i: nat, b: nat)
    requires ShapeOk(f, s) && Listed(f, i) && TermOk(f, s, b)
    requires f.insts[i].result.Some? ==> f.insts[i].result.value < |f.vals|
    ensures TermOk(f, VisitInst(f, s, i), b)
  {
    hide EvalInstruction, CodeOk;
    var s' := VisitInst(f, s, i);
    if s' != s && HasLast(f, b) {
      var r := f.insts[i].result.value;
      var term := Last(f, b);
      assert s'.ssaWork[|s.ssaWork|] == r;
      assert r in s'.ssaWork && forall v :: v in s.ssaWork ==> v in s'.ssaWork;
      if OpValue(r) in term.ops {
        assert UsesAny(term, s'.ssaWork);
      } else if UsesAny(term, s.ssaWork) {
        assert UsesAny(term, s'.ssaWork);
      } else if IsBranchIf(term) {
        assert term.ops[0] in term.ops;
      }
    }
  }

  /** A visit keeps the invariant and settles the instruction. */
  lemma VisitKeeps(f: Function, s: Facts, i: nat, skipInsts: set<nat>, skipBlocks: set<nat>)
    requires Inv(f, s, skipInsts, skipBlocks) && Listed(f, i)
    ensures f.insts[i].result.Some? ==> f.insts[i].result.value < |f.vals|
    ensures Inv(f, VisitInst(f, s, i), skipInsts - {i}, skipBlocks)
    ensures Progress(f, s, VisitInst(f, s, i))
    ensures LatBelow(VisitInst(f, s, i).lat, s.lat)
  {
    VisitShape(f, s, i);
    VisitDescends(f, s, i);
    var s' := VisitInst(f, s, i);
    hide EvalInstruction, VisitInst, InstOk, TermOk, EdgeOk, CodeOk, ResultsOk;
    forall j: nat | Listed(f, j) && s'.exec[f.insts[j].block] && j !in skipInsts - {i} ensures InstOk(f, s', j) {
      VisitInsts(f, s, i, skipInsts, j);
    }
    forall b: nat | b < |f.blocks| && s'.exec[b] && b !in skipBlocks ensures TermOk(f, s', b) {
      VisitTerms(f, s, i, b);
    }
    VisitProgress(f, s, i);
  }

  lemma VisitProgress(f: Function, s: Facts, i: nat)
    requires ShapeOk(f, s) && Descends(f, s) && Listed(f, i)
    requires f.insts[i].result.Some? ==> f.insts[i].result.value < |f.vals|
    ensures Progress(f, s, VisitInst(f, s, i))
  {
    hide EvalInstruction;
    if f.insts[i].result.Some? {
      var r := f.insts[i].result.value;
      var l := EvalInstruction(f, f.insts[i], s.lat, s.edges);
      assert CellAbove(f, s, i);
      if l != s.lat[r] { HeightsDrop(s.lat, r, l); }
    }
  }

  // ---------------------------------------------------------------- marking an edge

  lemma MarkShape(f: Function, s: Facts, b: nat, t: nat)
    requires ShapeOk(f, s) && b < |f.blocks| && s.exec[b] && t in BlockTargets(f, b)
    ensures ShapeOk(f, MarkEdge(s, b, t)) && (b, t) in MarkEdge(s, b, t).edges
    ensures EdgesWithin(s.edges, MarkEdge(s, b, t).edges) && MarkEdge(s, b, t).lat == s.lat
    ensures forall c :: 0 <= c < |s.exec| && s.exec[c] ==> MarkEdge(s, b, t).exec[c]
  {
    assert f.entry < |f.blocks|;
    hide CodeOk, ResultsOk, BlockTargets;
    var s' := MarkEdge(s, b, t);
    if s' != s {
      assert forall e :: e in s'.edges <==> e in s.edges || e == (b, t);
      forall e | e in s'.edges ensures EdgeOk(f, s', e) {
        if e in s.edges { assert EdgeOk(f, s, e); }
      }
    }
  }

  lemma MarkDescends(f: Function, s: Facts, b: nat, t: nat)
    requires ShapeOk(f, s) && Descends(f, s) && ShapeOk(f, MarkEdge(s, b, t))
    requires EdgesWithin(s.edges, MarkEdge(s, b, t).edges) && MarkEdge(s, b, t).lat == s.lat
    ensures Descends(f, MarkEdge(s, b, t))
  {
    hide EvalInstruction, MarkEdge, CodeOk, ResultsOk, EdgeOk;
    var s' := MarkEdge(s, b, t);
    forall j: nat | Listed(f, j) && f.insts[j].result.Some? ensures CellAbove(f, s', j) {
      assert CellAbove(f, s, j);
      EvalMonotone(f, f.insts[j], s'.lat, s.lat, s'.edges, s.edges);
    }
  }

  lemma MarkInsts(f: Function, s: Facts, b: nat, t: nat, j: nat)
    requires ShapeOk(f, s) && Listed(f, j)
    requires s.exec[f.insts[j].block] ==> InstOk(f, s, j)
    requires |MarkEdge(s, b, t).lat| == |f.vals| && |MarkEdge(s, b, t).exec| == |f.blocks|
    ensures MarkEdge(s, b, t).exec[f.insts[j].block] ==> InstOk(f, MarkEdge(s, b, t), j)
  {
    hide EvalInstruction, CodeOk, ResultsOk, EdgeOk;
    var s' := MarkEdge(s, b, t);
    var c := f.insts[j].block;
    if s' != s {
      assert forall x :: x in s.cfgWork ==> x in s'.cfgWork;
      if c == t {
        assert s'.cfgWork[|s.cfgWork|] == t;
      } else if s.exec[c] {
        forall u: nat ensures (u, c) in s'.edges <==> (u, c) in s.edges {
        }
        EvalFrame(f, f.insts[j], s'.lat, s.lat, s'.edges, s.edges);
      }
    }
  }

  lemma MarkTerms(f: Function, s: Facts, b: nat, t: nat, c: nat)
    requires ShapeOk(f, s) && c < |f.blocks|
    requires s.exec[c] ==> TermOk(f, s, c)
    requires |MarkEdge(s, b, t).exec| == |f.blocks|
    ensures MarkEdge(s, b, t).exec[c] ==> TermOk(f, MarkEdge(s, b, t), c)
  {
    hide CodeOk, ResultsOk, EdgeOk, UsesAny;
    var s' := MarkEdge(s, b, t);
    if s' != s {
      assert forall x :: x in s.cfgWork ==> x in s'.cfgWork;
      assert forall e :: e in s.edges ==> e in s'.edges;
      if c == t { assert s'.cfgWork[|s.cfgWork|] == t; }
    }
  }

  /** Marking an edge keeps the invariant; the target waits in the block worklist. */
  lemma MarkKeeps(f: Function, s: Facts, b: nat, t: nat, skipInsts: set<nat>, skipBlocks: set<nat>)
    requires Inv(f, s, skipInsts, skipBlocks) && b < |f.blocks| && s.exec[b] && t in BlockTargets(f, b)
    ensures Inv(f, MarkEdge(s, b, t), skipInsts, skipBlocks) && (b, t) in MarkEdge(s, b, t).edges
    ensures EdgesWithin(s.edges, MarkEdge(s, b, t).edges) && MarkEdge(s, b, t).lat == s.lat
    ensures MarkEdge(s, b, t).exec[b]
    ensures Progress(f, s, MarkEdge(s, b, t))
  {
    MarkShape(f, s, b, t);
    MarkDescends(f, s, b, t);
    MarkProgress(f, s, b, t);
    var s' := MarkEdge(s, b, t);
    hide EvalInstruction, MarkEdge, InstOk, TermOk, EdgeOk, CodeOk, ResultsOk, BlockTargets, Progress;
    forall j: nat | Listed(f, j) && s'.exec[f.insts[j].block] && j !in skipInsts ensures InstOk(f, s', j) {
      MarkInsts(f, s, b, t, j);
    }
    forall c: nat | c < |f.blocks| && s'.exec[c] && c !in skipBlocks ensures TermOk(f, s', c) {
      MarkTerms(f, s, b, t, c);
    }
  }

  lemma MarkProgress(f: Function, s: Facts, b: nat, t: nat)
    requires b < |f.blocks| && t in BlockTargets(f, b)
    ensures Progress(f, s, MarkEdge(s, b, t))
  {
    hide BlockTargets;
    var s' := MarkEdge(s, b, t);
    if s' != s {
      var open, open' := AllEdges(f) - EdgeSet(s.edges), AllEdges(f) - EdgeSet(s'.edges);
      assert (b, t) in open;
      assert forall e :: e in s'.edges <==> e in s.edges || e == (b, t);
      assert open' == open - {(b, t)};
    }
  }

  lemma ProgressTrans(f: Function, s: Facts, s': Facts, s'': Facts)
    requires Progress(f, s, s') && Progress(f, s', s'')
    ensures Progress(f, s, s'')
  {
  }

  /** eval_terminator keeps the invariant and settles the terminator of block b. */
  lemma TerminatorKeeps(f: Function, s: Facts, b: nat, skipInsts: set<nat>, skipBlocks: set<nat>)
    requires Inv(f, s, skipInsts, skipBlocks) && b < |f.blocks| && s.exec[b]
    ensures Inv(f, EvalTerminator(f, s, b), skipInsts, skipBlocks - {b})
    ensures Progress(f, s, EvalTerminator(f, s, b))
    ensures EvalTerminator(f, s, b).lat == s.lat
  {
    hide Inv, MarkEdge, Progress;
    if HasLast(f, b) {
      var term := Last(f, b);
      if IsBranch(term) {
        MarkKeeps(f, s, b, term.ops[0].blk, skipInsts, skipBlocks);
      } else if IsBranchIf(term) {
        var t, e := term.ops[1].blk, term.ops[2].blk;
        MarkKeeps(f, s, b, t, skipInsts, skipBlocks);
        MarkKeeps(f, s, b, e, skipInsts, skipBlocks);
        var s1 := MarkEdge(s, b, t);
        if OperandLat(s.lat, term.ops[0]) == Bottom {
          MarkKeeps(f, s1, b, e, skipInsts, skipBlocks);
          ProgressTrans(f, s, s1, MarkEdge(s1, b, e));
        }
      }
    }
    SameProgress(f, s);
    var s' := EvalTerminator(f, s, b);
    TermSettledNow(f, s, b, skipInsts, skipBlocks);
  }

  lemma SameProgress(f: Function, s: Facts)
    ensures Progress(f, s, s)
  {
  }

  lemma TermSettledNow(f: Function, s: Facts, b: nat, skipInsts: set<nat>, skipBlocks: set<nat>)
    requires Inv(f, EvalTerminator(f, s, b), skipInsts, skipBlocks)
    requires EvalTerminator(f, s, b).lat == s.lat
    ensures Inv(f, EvalTerminator(f, s, b), skipInsts, skipBlocks - {b})
  {
    hide ShapeOk, InstsOk, Descends;
    var s' := EvalTerminator(f, s, b);
    assert TermSettled(f, s', b);
    hide EvalTerminator, TermSettled;
  }
}
