/**
 * No mark of src/opt/sccp.c is made too early: an invariant of the worklists, and the exact account of the cells, edges
 * and blocks at rest that follows from it.
 */
module SccpTight {
  import opened Opcodes
  import opened IntFold
  import opened Ir
  import opened SccpLattice
  import opened SccpSteps
  import opened SccpPrecise

  // ---------------------------------------------------------------- the account

  /** The cell a value starts with: arguments may be anything, constants are known, the rest is unseen. */
  function InitialLat(f: Function, v: nat): Lat
    requires v < |f.vals|
  {
    match f.vals[v].kind
    case ArgumentValue => Bottom
    case InstructionValue =>
      var d := f.vals[v].def;
      if d.Some? && d.value < |f.insts| && f.insts[d.value].opcode == CONST then
        var ops := f.insts[d.value].ops;
        if |ops| == 1 && ops[0].OpInt? then Constant(ops[0].imm) else Bottom
      else Top
    case ConstantValue => Top
  }

  /** The last instruction of b goes to t, as far as its condition is known. */
  ghost predicate EdgeDue(f: Function, lat: seq<Lat>, b: nat, t: nat) {
    && HasLast(f, b)
    && var ops := Last(f, b).ops;
       || (IsBranch(Last(f, b)) && t == ops[0].blk)
       || (IsBranchIf(Last(f, b)) && Varies(lat, ops[0]) && (t == ops[1].blk || t == ops[2].blk))
       || (IsBranchIf(Last(f, b)) && exists c :: Knows(lat, ops[0], c) && t == ops[if c != 0 then 1 else 2].blk)
  }

  /** p leads from the entry to b over marked edges. */
  ghost predicate MarkedPath(f: Function, edges: Edges, p: seq<nat>, b: nat) {
    && |p| > 0 && p[0] == f.entry && p[|p| - 1] == b
    && forall k :: 0 < k < |p| ==> (p[k - 1], p[k]) in edges
  }

  /** Value v is the result of an instruction of an executable block. */
  ghost predicate Visited(f: Function, s: Facts, v: nat) {
    exists i: nat :: Listed(f, i) && f.insts[i].result == Some(v) && f.insts[i].block < |s.exec|
                     && s.exec[f.insts[i].block]
  }

  ghost predicate EdgesDue(f: Function, s: Facts) {
    forall e :: e in s.edges ==> EdgeDue(f, s.lat, e.0, e.1)
  }

  ghost predicate BlocksReached(f: Function, s: Facts) {
    forall b: nat :: b < |s.exec| && s.exec[b] ==> exists p :: MarkedPath(f, s.edges, p, b)
  }

  ghost predicate OthersInitial(f: Function, s: Facts) {
    |s.lat| == |f.vals| && forall v: nat :: v < |f.vals| ==> Visited(f, s, v) || s.lat[v] == InitialLat(f, v)
  }

  /** What every step keeps. */
  ghost predicate Tight(f: Function, s: Facts) {
    EdgesDue(f, s) && BlocksReached(f, s) && OthersInitial(f, s)
  }

  /**
   * The facts at rest: every visited cell is the exact one of its instruction, an edge is marked exactly when it leaves
   * an executable block and is due, a block is executable exactly when marked edges lead to it, and no other cell has
   * changed.
   */
  ghost predicate Precise(f: Function, s: Facts) {
    && |s.lat| == |f.vals| && |s.exec| == |f.blocks|
    && (forall i: nat :: Listed(f, i) && s.exec[f.insts[i].block] && f.insts[i].result.Some? ==>
          f.insts[i].result.value < |s.lat|
          && InstExact(f, f.insts[i], s.lat, s.edges, s.lat[f.insts[i].result.value]))
    && (forall b: nat, t: nat :: (b, t) in s.edges <==> b < |s.exec| && s.exec[b] && EdgeDue(f, s.lat, b, t))
    && (forall b: nat :: b < |s.exec| ==> (s.exec[b] <==> exists p :: MarkedPath(f, s.edges, p, b)))
    && OthersInitial(f, s)
  }

  // ---------------------------------------------------------------- the steps keep it

  /** A lower condition is due at least as many edges. */
  lemma DueLater(f: Function, lat: seq<Lat>, lat': seq<Lat>, b: nat, t: nat)
    requires LatBelow(lat', lat) && EdgeDue(f, lat, b, t)
    ensures EdgeDue(f, lat', b, t)
  {
    var term := Last(f, b);
    if IsBranchIf(term) {
      var op := term.ops[0];
      OperandCell(lat, op);
      OperandCell(lat', op);
      OperandMonotone(lat', lat, op);
      hide OperandLat, Knows, Varies, Unseen;
      if !Varies(lat', op) && !IsBranch(term) {
        var c :| Knows(lat, op, c) && t == term.ops[if c != 0 then 1 else 2].blk;
        assert Knows(lat', op, c);
      }
    }
  }

  lemma VisitedStays(f: Function, s: Facts, s': Facts, v: nat)
    requires Visited(f, s, v) && |s'.exec| == |s.exec| && forall b: nat :: b < |s.exec| && s.exec[b] ==> s'.exec[b]
    ensures Visited(f, s', v)
  {
    var i: nat :| Listed(f, i) && f.insts[i].result == Some(v) && f.insts[i].block < |s.exec|
                  && s.exec[f.insts[i].block];
    assert s'.exec[f.insts[i].block];
  }

  lemma VisitTight(f: Function, s: Facts, i: nat)
    requires Tight(f, s) && Listed(f, i) && f.insts[i].block < |s.exec| && s.exec[f.insts[i].block]
    requires f.insts[i].result.Some? ==> f.insts[i].result.value < |f.vals|
    requires LatBelow(VisitInst(f, s, i).lat, s.lat)
    ensures Tight(f, VisitInst(f, s, i))
  {
    hide EvalInstruction, EdgeDue, MarkedPath, InitialLat;
    var s' := VisitInst(f, s, i);
    forall e | e in s'.edges ensures EdgeDue(f, s'.lat, e.0, e.1) {
      DueLater(f, s.lat, s'.lat, e.0, e.1);
    }
    forall v: nat | v < |f.vals| ensures Visited(f, s', v) || s'.lat[v] == InitialLat(f, v) {
      if Visited(f, s, v) {
        VisitedStays(f, s, s', v);
      } else if f.insts[i].result == Some(v) {
        assert false;
      }
    }
  }

  lemma PathGoesOn(f: Function, edges: Edges, edges': Edges, p: seq<nat>, b: nat, t: nat)
    requires MarkedPath(f, edges, p, b) && EdgesWithin(edges, edges')
    ensures MarkedPath(f, edges', p, b)
    ensures (b, t) in edges' ==> MarkedPath(f, edges', p + [t], t)
  {
  }

  lemma MarkedEdges(s: Facts, b: nat, t: nat)
    ensures var s' := MarkEdge(s, b, t);
            && EdgesWithin(s.edges, s'.edges) && (b, t) in s'.edges && s'.lat == s.lat && |s'.exec| == |s.exec|
            && (forall e :: e in s'.edges ==> e in s.edges || e == (b, t))
            && (forall c: nat :: c < |s.exec| && s.exec[c] ==> s'.exec[c])
            && (forall c: nat :: c < |s.exec| && s'.exec[c] ==> s.exec[c] || c == t)
  {
  }

  lemma MarkTight(f: Function, s: Facts, b: nat, t: nat)
    requires Tight(f, s) && b < |s.exec| && s.exec[b] && EdgeDue(f, s.lat, b, t)
    ensures Tight(f, MarkEdge(s, b, t))
  {
    hide EdgeDue, MarkedPath, InitialLat, MarkEdge, Listed;
    var s' := MarkEdge(s, b, t);
    MarkedEdges(s, b, t);
    forall c: nat | c < |s'.exec| && s'.exec[c] ensures exists p :: MarkedPath(f, s'.edges, p, c) {
      var from := if s.exec[c] then c else b;
      var p :| MarkedPath(f, s.edges, p, from);
      PathGoesOn(f, s.edges, s'.edges, p, from, t);
    }
    forall v: nat | v < |f.vals| ensures Visited(f, s', v) || s'.lat[v] == InitialLat(f, v) {
      if Visited(f, s, v) { VisitedStays(f, s, s', v); }
    }
  }

  lemma TerminatorTight(f: Function, s: Facts, b: nat)
    requires Tight(f, s) && b < |s.exec| && s.exec[b]
    ensures Tight(f, EvalTerminator(f, s, b))
  {
    hide Tight, MarkEdge, Knows, Varies, Unseen, OperandLat;
    if HasLast(f, b) {
      var term := Last(f, b);
      if IsBranch(term) {
        MarkTight(f, s, b, term.ops[0].blk);
      } else if IsBranchIf(term) {
        OperandCell(s.lat, term.ops[0]);
        match OperandLat(s.lat, term.ops[0]) {
          case Constant(c) => MarkTight(f, s, b, if c != 0 then term.ops[1].blk else term.ops[2].blk);
          case Bottom =>
            MarkTight(f, s, b, term.ops[1].blk);
            MarkedEdges(s, b, term.ops[1].blk);
            MarkTight(f, MarkEdge(s, b, term.ops[1].blk), b, term.ops[2].blk);
          case Top =>
        }
      }
    }
  }

  /** The worklists do not matter. */
  lemma SameTight(f: Function, s: Facts, s': Facts)
    requires Tight(f, s) && s'.lat == s.lat && s'.exec == s.exec && s'.edges == s.edges
    ensures Tight(f, s')
  {
    hide EdgeDue, MarkedPath, InitialLat, Listed;
  }

  // ---------------------------------------------------------------- at rest

  lemma {:induction false} MarkedIsExec(f: Function, s: Facts, p: seq<nat>, b: nat)
    requires ShapeOk(f, s) && MarkedPath(f, s.edges, p, b) && b < |s.exec|
    ensures s.exec[b]
    decreases |p|
  {
    if |p| > 1 {
      var q, a := p[..|p| - 1], p[|p| - 2];
      assert (a, b) in s.edges;
      assert EdgeOk(f, s, (a, b));
    } else {
      assert b == f.entry;
    }
  }

  lemma DueIsMarked(f: Function, s: Facts, b: nat, t: nat)
    requires TermSettled(f, s, b) && EdgeDue(f, s.lat, b, t)
    ensures (b, t) in s.edges
  {
    var term := Last(f, b);
    if IsBranchIf(term) { OperandCell(s.lat, term.ops[0]); }
    hide Knows, Varies, Unseen, OperandLat;
  }

  /** A tight state in which everything is settled is precise. */
  lemma PreciseAtRest(f: Function, s: Facts)
    requires ShapeOk(f, s) && Tight(f, s)
    requires forall i: nat :: Listed(f, i) && s.exec[f.insts[i].block] ==> InstSettled(f, s, i)
    requires forall b: nat :: b < |f.blocks| && s.exec[b] ==> TermSettled(f, s, b)
    ensures Precise(f, s)
  {
    hide EvalInstruction, InstExact, TermSettled, EdgeDue, MarkedPath, InitialLat;
    forall i: nat | Listed(f, i) && s.exec[f.insts[i].block] && f.insts[i].result.Some?
      ensures f.insts[i].result.value < |s.lat|
      ensures InstExact(f, f.insts[i], s.lat, s.edges, s.lat[f.insts[i].result.value])
    {
      assert InstSettled(f, s, i);
      EvalIsExact(f, f.insts[i], s.lat, s.edges);
    }
    forall b: nat, t: nat
      ensures (b, t) in s.edges <==> b < |s.exec| && s.exec[b] && EdgeDue(f, s.lat, b, t)
    {
      if (b, t) in s.edges { assert EdgeOk(f, s, (b, t)); }
      if b < |s.exec| && s.exec[b] && EdgeDue(f, s.lat, b, t) { DueIsMarked(f, s, b, t); }
    }
    forall b: nat | b < |s.exec| ensures s.exec[b] <==> exists p :: MarkedPath(f, s.edges, p, b) {
      if p :| MarkedPath(f, s.edges, p, b) { MarkedIsExec(f, s, p, b); }
    }
  }
}
