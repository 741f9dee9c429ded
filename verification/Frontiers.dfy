/** Children lists and dominance frontiers of src/analysis/dominator.c, packed by counting and filling. */
module Frontiers {
  import opened Cfg
  import opened Dominators
  import opened Slices

  // ---------------------------------------------------------------- children

  /** The blocks below k whose parent is p, ascending; the entry is nobody's child. */
  function ChildrenBelow(t: Tree, p: nat, k: nat): (r: seq<nat>)
    requires k <= |t.idom|
    ensures forall b: nat :: b in r <==> b < k && b != t.entry && t.idom[b] == p
  {
    if k == 0 then []
    else if k - 1 != t.entry && t.idom[k - 1] == p then ChildrenBelow(t, p, k - 1) + [k - 1]
    else ChildrenBelow(t, p, k - 1)
  }

  lemma {:induction false} ChildrenMonotone(t: Tree, p: nat, j: nat, k: nat)
    requires j <= k <= |t.idom|
    ensures |ChildrenBelow(t, p, j)| <= |ChildrenBelow(t, p, k)|
    decreases k
  {
    if j < k { ChildrenMonotone(t, p, j, k - 1); }
  }

  predicate HasParentIn(t: Tree, b: nat)
    requires b < |t.idom|
  {
    b != t.entry && 0 <= t.idom[b] < |t.idom|
  }

  /** Counting pass, prefix sums, filling pass: slice p lists the children of p. */
  method BuildChildren(t: Tree) returns (table: Table<nat>)
    ensures table.Valid() && |table.start| == |t.idom|
    ensures forall p: nat {:trigger table.Slice(p)} :: p < |t.idom| ==> table.Slice(p) == ChildrenBelow(t, p, |t.idom|)
  {
    hide Packer.Valid, Packer.Contents, IsPrefixSum, Sum;
    var n := |t.idom|;
    var count := new nat[n](_ => 0);
    var b := 0;
    while b < n
      invariant 0 <= b <= n
      invariant forall p {:trigger count[p]} :: 0 <= p < n ==> count[p] == |ChildrenBelow(t, p, b)|
    {
      if HasParentIn(t, b) {
        count[t.idom[b]] := count[t.idom[b]] + 1;
      }
      b := b + 1;
    }
    ghost var total := count[..];
    var packer := new Packer<nat>(count[..]);
    b := 0;
    while b < n
      invariant 0 <= b <= n && packer.Valid() && packer.count == total && fresh(packer.cursor) && fresh(packer.items)
      invariant forall p {:trigger packer.Contents(p)} :: 0 <= p < n ==> packer.Contents(p) == ChildrenBelow(t, p, b)
    {
      if HasParentIn(t, b) {
        ChildrenMonotone(t, t.idom[b], b + 1, n);
        packer.Put(t.idom[b], b);
      }
      b := b + 1;
    }
    table := packer.Finish();
  }

  // ---------------------------------------------------------------- frontiers

  /** The blocks the runner visits: from the start up the tree, stopping before stop. */
  ghost function Walk(t: Tree, runner: int, stop: int): set<nat>
    requires TreeOk(t)
    decreases if Defined(t, runner) then t.rpo[runner] + 1 else 0
  {
    if runner == stop || !(0 <= runner < |t.idom|) then {}
    else
      assert ParentOk(t, runner);
      {runner} +
      if runner == t.entry || runner == t.idom[runner] || !Defined(t, runner) then {}
      else Walk(t, t.idom[runner], stop)
  }

  /** The blocks visited for the first k predecessors of b. */
  ghost function Visited(g: Graph, t: Tree, b: nat, k: nat): set<nat>
    requires TreeOk(t) && b < |g.preds| && |g.preds| == |t.idom| && k <= |g.preds[b]|
  {
    if k == 0 || |g.preds[b]| < 2 then {} else Visited(g, t, b, k - 1) + Walk(t, g.preds[b][k - 1], t.idom[b])
  }

  /** The blocks that get b into their frontier. */
  ghost function Receivers(g: Graph, t: Tree, b: nat): set<nat>
    requires TreeOk(t) && b < |g.preds| && |g.preds| == |t.idom|
  {
    Visited(g, t, b, |g.preds[b]|)
  }

  /** The frontier of x restricted to blocks below k, ascending. */
  ghost function FrontierBelow(g: Graph, t: Tree, x: nat, k: nat): (r: seq<nat>)
    requires TreeOk(t) && |g.preds| == |t.idom| && k <= |t.idom|
    ensures forall b: nat :: b in r <==> b < k && x in Receivers(g, t, b)
    ensures NoDuplicates(r)
  {
    if k == 0 then []
    else if x in Receivers(g, t, k - 1) then FrontierBelow(g, t, x, k - 1) + [k - 1]
    else FrontierBelow(g, t, x, k - 1)
  }

  lemma {:induction false} FrontierMonotone(g: Graph, t: Tree, x: nat, j: nat, k: nat)
    requires TreeOk(t) && |g.preds| == |t.idom| && j <= k <= |t.idom|
    ensures |FrontierBelow(g, t, x, j)| <= |FrontierBelow(g, t, x, k)|
    decreases k
  {
    if j < k { FrontierMonotone(g, t, x, j, k - 1); }
  }

  /** Block x's list while b is under way: done is the part of Receivers(b) seen so far. */
  ghost function FrontierDuring(g: Graph, t: Tree, x: nat, b: nat, done: set<nat>): seq<nat>
    requires TreeOk(t) && |g.preds| == |t.idom| && b <= |t.idom|
  {
    FrontierBelow(g, t, x, b) + if x in done then [b] else []
  }

  lemma WalkStep(t: Tree, runner: nat, stop: int)
    requires TreeOk(t) && runner != stop && runner < |t.idom|
    ensures Walk(t, runner, stop) ==
            {runner} + if runner == t.entry || runner == t.idom[runner] then {} else Walk(t, t.idom[runner], stop)
    ensures runner != t.entry && runner != t.idom[runner] && Defined(t, runner) ==>
              Defined(t, t.idom[runner]) && t.rpo[t.idom[runner]] < t.rpo[runner]
  {
    assert ParentOk(t, runner);
    if !Defined(t, runner) { assert Walk(t, t.idom[runner], stop) == {}; }
  }

  /** How far the runner still has to go. */
  ghost function WalkLeft(t: Tree, runner: int): nat
    requires TreeOk(t)
  {
    if Defined(t, runner) then t.rpo[runner] + 2 else if 0 <= runner < |t.idom| then 1 else 0
  }

  /** First traversal: how many frontiers each block receives. */
  method CountFrontiers(g: Graph, t: Tree) returns (count: array<nat>)
    requires TreeOk(t) && |g.preds| == |t.idom|
    ensures fresh(count) && count.Length == |t.idom|
    ensures forall x {:trigger count[x]} :: 0 <= x < |t.idom| ==> count[x] == |FrontierBelow(g, t, x, |t.idom|)|
  {
    hide TreeOk, Walk;
    var n := |t.idom|;
    count := new nat[n](_ => 0);
    var lastVisited := new int[n](_ => -1);
    var b := 0;
    while b < n
      invariant 0 <= b <= n
      invariant forall x {:trigger count[x]} :: 0 <= x < n ==> count[x] == |FrontierBelow(g, t, x, b)|
      invariant forall x :: 0 <= x < n ==> lastVisited[x] < b
    {
      var preds := g.preds[b];
      ghost var done: set<nat> := {};
      if |preds| >= 2 {
        var idomB := t.idom[b];
        var k := 0;
        while k < |preds|
          invariant 0 <= k <= |preds| && done == Visited(g, t, b, k)
          invariant forall x {:trigger count[x]} :: 0 <= x < n ==> count[x] == |FrontierDuring(g, t, x, b, done)|
          invariant forall x: nat :: x < n ==> lastVisited[x] <= b && (lastVisited[x] == b <==> x in done)
        {
          var runner: int := preds[k];
          ghost var all := done + Walk(t, runner, idomB);
          while runner != idomB && 0 <= runner < n
            invariant done + Walk(t, runner, idomB) == all
            invariant forall x {:trigger count[x]} :: 0 <= x < n ==> count[x] == |FrontierDuring(g, t, x, b, done)|
            invariant forall x: nat :: x < n ==> lastVisited[x] <= b && (lastVisited[x] == b <==> x in done)
            decreases WalkLeft(t, runner)
          {
            WalkStep(t, runner, idomB);
            if lastVisited[runner] != b {
              lastVisited[runner] := b;
              count[runner] := count[runner] + 1;
            }
            done := done + {runner};
            if runner == t.entry || runner == t.idom[runner] { break; }
            runner := t.idom[runner];
          }
          assert done == all by { WalkEnd(t, runner, idomB); }
          k := k + 1;
        }
      }
      assert done == Receivers(g, t, b);
      b := b + 1;
    }
  }

  lemma WalkEnd(t: Tree, runner: int, stop: int)
    requires TreeOk(t)
    ensures runner == stop || !(0 <= runner < |t.idom|) ==> Walk(t, runner, stop) == {}
  {
  }

  lemma {:induction false} VisitedMonotone(g: Graph, t: Tree, b: nat, j: nat, k: nat)
    requires TreeOk(t) && b < |g.preds| && |g.preds| == |t.idom| && j <= k <= |g.preds[b]|
    ensures Visited(g, t, b, j) <= Visited(g, t, b, k)
    decreases k
  {
    if j < k { VisitedMonotone(g, t, b, j, k - 1); }
  }

  /** There is room for b in the slice of x, which has not received it yet. */
  lemma RoomFor(g: Graph, t: Tree, x: nat, b: nat, k: nat, done: set<nat>)
    requires TreeOk(t) && b < |g.preds| && |g.preds| == |t.idom| && k <= |g.preds[b]|
    requires x in Visited(g, t, b, k) && x !in done
    ensures |FrontierDuring(g, t, x, b, done)| < |FrontierBelow(g, t, x, |t.idom|)|
  {
    VisitedMonotone(g, t, b, k, |g.preds[b]|);
    FrontierMonotone(g, t, x, b + 1, |t.idom|);
  }

  /** Second traversal: the same walks, storing b where the first one counted. */
  method BuildFrontiers(g: Graph, t: Tree) returns (table: Table<nat>)
    requires TreeOk(t) && |g.preds| == |t.idom|
    ensures table.Valid() && |table.start| == |t.idom|
    ensures forall x: nat {:trigger table.Slice(x)} :: x < |t.idom| ==>
            table.Slice(x) == FrontierBelow(g, t, x, |t.idom|)
  {
    hide TreeOk, Walk, Packer.Valid, Packer.Contents, IsPrefixSum, Sum;
    var n := |t.idom|;
    var count := CountFrontiers(g, t);
    ghost var total := count[..];
    var packer := new Packer<nat>(count[..]);
    var lastVisited := new int[n](_ => -1);
    var b := 0;
    while b < n
      invariant 0 <= b <= n && packer.Valid() && packer.count == total && fresh(packer.cursor) && fresh(packer.items)
      invariant forall x {:trigger packer.Contents(x)} :: 0 <= x < n ==> packer.Contents(x) == FrontierBelow(g, t, x, b)
      invariant forall x :: 0 <= x < n ==> lastVisited[x] < b
    {
      FillBlock(g, t, b, packer, lastVisited);
      b := b + 1;
    }
    table := packer.Finish();
  }

  /** The filling traversal of one block b. */
  method FillBlock(g: Graph, t: Tree, b: nat, packer: Packer<nat>, lastVisited: array<int>)
    requires TreeOk(t) && |g.preds| == |t.idom| && b < |t.idom|
    requires packer.Valid() && |packer.count| == |t.idom| && lastVisited.Length == |t.idom|
    requires (lastVisited as object) != packer.cursor && (lastVisited as object) != packer.items
    requires (lastVisited as object) != packer.start
    requires forall x :: 0 <= x < |t.idom| ==> packer.count[x] == |FrontierBelow(g, t, x, |t.idom|)|
    requires forall x :: 0 <= x < |t.idom| ==> packer.Contents(x) == FrontierBelow(g, t, x, b)
    requires forall x :: 0 <= x < |t.idom| ==> lastVisited[x] < b
    modifies lastVisited, packer.cursor, packer.items
    ensures packer.Valid()
    ensures forall x :: 0 <= x < |t.idom| ==> packer.Contents(x) == FrontierBelow(g, t, x, b + 1)
    ensures forall x :: 0 <= x < |t.idom| ==> lastVisited[x] < b + 1
  {
    hide TreeOk, Walk, Packer.Valid, Packer.Contents, IsPrefixSum, Sum;
    var n := |t.idom|;
    var preds := g.preds[b];
    ghost var done: set<nat> := {};
    if |preds| >= 2 {
      var idomB := t.idom[b];
      var k := 0;
      while k < |preds|
        invariant 0 <= k <= |preds| && done == Visited(g, t, b, k) && packer.Valid()
        invariant forall x {:trigger packer.Contents(x)} :: 0 <= x < n ==>
                  packer.Contents(x) == FrontierDuring(g, t, x, b, done)
        invariant forall x: nat :: x < n ==> lastVisited[x] <= b && (lastVisited[x] == b <==> x in done)
      {
        var runner: int := preds[k];
        ghost var all := done + Walk(t, runner, idomB);
        assert all == Visited(g, t, b, k + 1);
        while runner != idomB && 0 <= runner < n
          invariant done + Walk(t, runner, idomB) == all && packer.Valid()
          invariant forall x {:trigger packer.Contents(x)} :: 0 <= x < n ==>
                    packer.Contents(x) == FrontierDuring(g, t, x, b, done)
          invariant forall x: nat :: x < n ==> lastVisited[x] <= b && (lastVisited[x] == b <==> x in done)
          decreases WalkLeft(t, runner)
        {
          WalkStep(t, runner, idomB);
          if lastVisited[runner] != b {
            RoomFor(g, t, runner, b, k + 1, done);
            packer.Put(runner, b);
            lastVisited[runner] := b;
          }
          done := done + {runner};
          if runner == t.entry || runner == t.idom[runner] { break; }
          runner := t.idom[runner];
        }
        assert done == all by { WalkEnd(t, runner, idomB); }
        k := k + 1;
      }
    }
    assert done == Receivers(g, t, b);
  }

  // ---------------------------------------------------------------- exactness

  /** The textbook frontier: x dominates a predecessor of b and does not strictly dominate b. */
  ghost predicate InFrontier(g: Graph, x: nat, b: nat) {
    Reachable(g, b) && !(x != b && Dominates(g, x, b)) &&
    exists p: nat :: Edge(g, p, b) && Reachable(g, p) && Dominates(g, x, p)
  }

  ghost predicate EntryHasReachablePred(g: Graph) {
    exists p: nat :: Edge(g, p, g.entry) && Reachable(g, p)
  }

  /** The walk up from p visits its chain strictly below stop. */
  lemma {:induction false} WalkIsChain(t: Tree, p: nat, stop: nat, x: nat)
    requires TreeOk(t) && Defined(t, p) && Defined(t, stop) && Anc(t, stop, p)
    ensures x in Walk(t, p, stop) <==> Anc(t, x, p) && Defined(t, x) && t.rpo[x] > t.rpo[stop]
    decreases t.rpo[p]
  {
    assert ParentOk(t, p);
    if p == stop {
      if Anc(t, x, p) { AncRpo(t, x, p); }
    } else {
      AncRpo(t, stop, p);
      WalkIsChain(t, t.idom[p], stop, x);
    }
  }

  lemma UnreachedWalk(g: Graph, t: Tree, p: nat, stop: int, x: nat)
    requires IsDominatorTree(g, t) && Reachable(g, x) && !Reachable(g, p)
    ensures x !in Walk(t, p, stop)
  {
    assert !Defined(t, p);
  }

  lemma {:induction false} InVisited(g: Graph, t: Tree, b: nat, k: nat, x: nat)
    requires TreeOk(t) && b < |g.preds| && |g.preds| == |t.idom| && k <= |g.preds[b]|
    ensures x in Visited(g, t, b, k) <==>
            |g.preds[b]| >= 2 && exists j :: 0 <= j < k && x in Walk(t, g.preds[b][j], t.idom[b])
  {
    if k > 0 { InVisited(g, t, b, k - 1, x); }
  }

  /** For a reachable predecessor p of b, the walk visits exactly what p puts into b's frontier sets. */
  lemma WalkExact(g: Graph, t: Tree, x: nat, b: nat, p: nat)
    requires IsDominatorTree(g, t) && WellFormed(g)
    requires Reachable(g, b) && b != g.entry && Edge(g, p, b) && Reachable(g, p)
    ensures b < |t.idom| && (x in Walk(t, p, t.idom[b]) <==> Dominates(g, x, p) && !(x != b && Dominates(g, x, b)))
  {
    ParentIsImmediate(g, t, b);
    assert ParentOk(t, b);
    var s := t.idom[b];
    DominatorOfPred(g, s, b, p);
    assert Defined(t, p) && Anc(t, s, p);
    WalkIsChain(t, p, s, x);
    if Dominates(g, x, p) {
      assert Anc(t, x, p);
      AncRpo(t, x, p);
      if t.rpo[x] <= t.rpo[s] {
        AncLinear(t, x, s, p);
        assert Anc(t, x, b);
      } else if x != b && Dominates(g, x, b) {
        assert Anc(t, x, s);
        AncRpo(t, x, s);
      }
    }
  }

  /** A sole predecessor is the parent, so its walk is empty. */
  lemma SolePred(g: Graph, t: Tree, b: nat)
    requires IsDominatorTree(g, t) && WellFormed(g)
    requires Reachable(g, b) && b != g.entry && b < |g.preds| && |g.preds[b]| == 1
    ensures b < |t.idom| && t.idom[b] == g.preds[b][0]
  {
    var p := g.preds[b][0];
    ParentIsImmediate(g, t, b);
    forall q | PathTo(g, q, b) ensures p in q {
      assert Edge(g, q[|q| - 2], q[|q| - 2 + 1]);
      assert q[|q| - 2] in g.preds[b];
    }
    var q :| PathTo(g, q, b);
    PathPrefix(g, q, b, |q| - 2);
    assert Edge(g, q[|q| - 2], q[|q| - 2 + 1]) && q[|q| - 2] in g.preds[b];
    assert Reachable(g, p);
    assert Anc(t, p, b);
    assert ParentOk(t, b);
    if p == b {
      SelfPredUnreachable(g, b);
    }
    DominatorOfPred(g, t.idom[b], b, p);
    assert Anc(t, p, t.idom[b]) && Anc(t, t.idom[b], p);
    AncRpo(t, p, t.idom[b]);
    AncRpo(t, t.idom[b], p);
  }

  lemma SelfPredUnreachable(g: Graph, b: nat)
    requires WellFormed(g) && b != g.entry && b < |g.preds| && g.preds[b] == [b]
    ensures !Reachable(g, b)
  {
    if Reachable(g, b) {
      var p :| PathTo(g, p, b);
      SelfPredPath(g, b, p);
    }
  }

  lemma {:induction false} SelfPredPath(g: Graph, b: nat, p: seq<nat>)
    requires WellFormed(g) && b != g.entry && b < |g.preds| && g.preds[b] == [b]
    requires PathTo(g, p, b)
    ensures false
    decreases |p|
  {
    PathPrefix(g, p, b, |p| - 2);
    assert Edge(g, p[|p| - 2], p[|p| - 2 + 1]);
    assert p[|p| - 2] in g.preds[b];
    SelfPredPath(g, b, p[..|p| - 1]);
  }

  /**
   * A block other than the entry is recorded in exactly the textbook frontiers; the entry is when no reachable block
   * jumps to it.
   */
  lemma FrontierExact(g: Graph, t: Tree, x: nat, b: nat)
    requires IsDominatorTree(g, t) && WellFormed(g) && Reachable(g, x) && b < |t.idom|
    requires b != g.entry || !EntryHasReachablePred(g)
    ensures x in Receivers(g, t, b) <==> InFrontier(g, x, b)
  {
    InVisited(g, t, b, |g.preds[b]|, x);
    if x in Receivers(g, t, b) {
      var j :| 0 <= j < |g.preds[b]| && x in Walk(t, g.preds[b][j], t.idom[b]);
      var p := g.preds[b][j];
      assert Edge(g, p, b);
      if !Reachable(g, p) { UnreachedWalk(g, t, p, t.idom[b], x); }
      ReachableEdge(g, p, b);
      WalkExact(g, t, x, b, p);
    }
    if InFrontier(g, x, b) {
      var p: nat :| Edge(g, p, b) && Reachable(g, p) && Dominates(g, x, p);
      WalkExact(g, t, x, b, p);
      assert p in g.preds[b];
      var j :| 0 <= j < |g.preds[b]| && g.preds[b][j] == p;
      if |g.preds[b]| < 2 {
        SolePred(g, t, b);
        assert false;
      }
    }
  }

  /** The frontiers of all reachable blocks are exact if and only if no reachable block jumps to the entry. */
  lemma FrontiersExactIff(g: Graph, t: Tree)
    requires IsDominatorTree(g, t) && WellFormed(g)
    ensures (forall x: nat, b: nat :: Reachable(g, x) && b < |t.idom| ==>
             (x in Receivers(g, t, b) <==> InFrontier(g, x, b)))
            <==> !EntryHasReachablePred(g)
  {
    if !EntryHasReachablePred(g) {
      forall x: nat, b: nat | Reachable(g, x) && b < |t.idom|
        ensures x in Receivers(g, t, b) <==> InFrontier(g, x, b)
      {
        FrontierExact(g, t, x, b);
      }
    } else {
      EntryMissing(g, t);
    }
  }

  /** With such a jump the entry belongs to its own frontier and is not recorded there. */
  lemma EntryMissing(g: Graph, t: Tree)
    requires IsDominatorTree(g, t) && WellFormed(g) && EntryHasReachablePred(g)
    ensures Reachable(g, g.entry) && InFrontier(g, g.entry, g.entry)
    ensures g.entry !in Receivers(g, t, g.entry)
  {
    var e := g.entry;
    EntryReachable(g);
    var p: nat :| Edge(g, p, e) && Reachable(g, p);
    assert Dominates(g, e, p);
    InVisited(g, t, e, |g.preds[e]|, e);
    if e in Receivers(g, t, e) {
      var j :| 0 <= j < |g.preds[e]| && e in Walk(t, g.preds[e][j], e);
      WalkAvoidsStop(t, g.preds[e][j], e);
    }
  }

  lemma {:induction false} WalkAvoidsStop(t: Tree, p: int, stop: nat)
    requires TreeOk(t)
    ensures stop !in Walk(t, p, stop)
    decreases if Defined(t, p) then t.rpo[p] + 1 else 0
  {
    if p != stop && Defined(t, p) && p != t.entry {
      assert ParentOk(t, p);
      WalkAvoidsStop(t, t.idom[p], stop);
    }
  }

  /** The smallest such graph: one block that jumps to itself. */
  lemma LoopAtEntry()
    ensures var g := Graph(0, [[0]], [[0]]); WellFormed(g) && EntryHasReachablePred(g)
  {
    var g := Graph(0, [[0]], [[0]]);
    EntryReachable(g);
    assert Edge(g, 0, 0);
  }

  /** p is the closest strict dominator of b. */
  ghost predicate IsImmediateDominator(g: Graph, p: nat, b: nat) {
    p != b && Dominates(g, p, b) && forall d: nat :: Dominates(g, d, b) && d != b ==> Dominates(g, d, p)
  }

  lemma TreeSizes(g: Graph, t: Tree)
    requires IsDominatorTree(g, t) && WellFormed(g)
    ensures TreeOk(t) && |g.preds| == |t.idom| == |g.succs|
  {
  }

  lemma ChildIsDominated(g: Graph, t: Tree, p: nat, b: nat)
    requires IsDominatorTree(g, t) && WellFormed(g) && Reachable(g, p) && Reachable(g, b)
    ensures b in ChildrenBelow(t, p, |t.idom|) <==> IsImmediateDominator(g, p, b)
  {
    assert Defined(t, b) && Defined(t, p);
    if b == g.entry {
      EntryDominators(g, p);
    } else {
      ParentIsImmediate(g, t, b);
      var q := t.idom[b];
      if IsImmediateDominator(g, p, b) {
        assert Dominates(g, p, q) && Dominates(g, q, p);
        assert Anc(t, p, q) && Anc(t, q, p);
        AncRpo(t, p, q);
        AncRpo(t, q, p);
      }
    }
  }

  lemma RecordedIffInFrontier(g: Graph, t: Tree, x: nat, b: nat)
    requires IsDominatorTree(g, t) && WellFormed(g) && Reachable(g, x) && (b != g.entry || !EntryHasReachablePred(g))
    ensures |g.preds| == |t.idom| && (b in FrontierBelow(g, t, x, |t.idom|) <==> InFrontier(g, x, b))
  {
    TreeSizes(g, t);
    if b < |t.idom| { FrontierExact(g, t, x, b); }
  }

  lemma EntryDominators(g: Graph, d: nat)
    requires WellFormed(g)
    ensures Dominates(g, d, g.entry) ==> d == g.entry
  {
    assert PathTo(g, [g.entry], g.entry);
  }

  /** ny_dominator_tree_init: the tree, its children and, but for a jump back to the entry, the dominance frontiers. */
  method InitDominatorTree(g: Graph) returns (t: Tree, children: Table<nat>, frontiers: Table<nat>)
    requires WellFormed(g)
    ensures IsDominatorTree(g, t)
    ensures children.Valid() && |children.start| == |t.idom| && frontiers.Valid() && |frontiers.start| == |t.idom|
    ensures forall p: nat, b: nat :: Reachable(g, p) && Reachable(g, b) && p < |t.idom| ==>
              (b in children.Slice(p) <==> IsImmediateDominator(g, p, b))
    ensures forall x: nat, b: nat :: Reachable(g, x) && x < |t.idom| && (b != g.entry || !EntryHasReachablePred(g)) ==>
              (b in frontiers.Slice(x) <==> InFrontier(g, x, b))
    ensures forall x: nat :: x < |t.idom| ==> NoDuplicates(frontiers.Slice(x))
  {
    t := BuildDominatorTree(g);
    TreeSizes(g, t);
    hide TreeOk, IsDominatorTree, Walk, Reachable, InFrontier, IsImmediateDominator, EntryHasReachablePred,
      Table.Valid, NoDuplicates;
    children := BuildChildren(t);
    frontiers := BuildFrontiers(g, t);
    forall p: nat, b: nat | Reachable(g, p) && Reachable(g, b) && p < |t.idom|
      ensures b in children.Slice(p) <==> IsImmediateDominator(g, p, b)
    {
      ChildIsDominated(g, t, p, b);
    }
    forall x: nat, b: nat | Reachable(g, x) && x < |t.idom| && (b != g.entry || !EntryHasReachablePred(g))
      ensures b in frontiers.Slice(x) <==> InFrontier(g, x, b)
    {
      RecordedIffInFrontier(g, t, x, b);
    }
  }
}
