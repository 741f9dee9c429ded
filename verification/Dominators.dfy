/**
 * The immediate-dominator fixpoint of src/analysis/dominator.c, which src/ir/dominator.c repeats: it
 * terminates, and the tree query answers dominance exactly.
 */
module Dominators {
  import opened Cfg

  /** NY_INVALID_BLOCK: no immediate dominator is known. */
  const INVALID_BLOCK := -1

  /** idom and rpo by block id; rpo is -1 for a block the search did not reach. */
  datatype Tree = Tree(entry: nat, idom: seq<int>, rpo: seq<int>)

  predicate Defined(t: Tree, b: int) {
    0 <= b < |t.idom| && t.idom[b] != INVALID_BLOCK
  }

  ghost predicate ParentOk(t: Tree, b: nat)
    requires |t.idom| == |t.rpo| && b < |t.idom|
  {
    Defined(t, b) && b != t.entry ==> Defined(t, t.idom[b]) && t.rpo[t.idom[b]] < t.rpo[b]
  }

  /** Parents come earlier in the order, so parent chains end at the entry. */
  ghost predicate TreeOk(t: Tree) {
    && |t.idom| == |t.rpo| && t.entry < |t.idom|
    && t.idom[t.entry] == t.entry && t.rpo[t.entry] == 0
    && (forall b :: 0 <= b < |t.idom| && t.idom[b] != INVALID_BLOCK ==> t.rpo[b] >= 0)
    && (forall b: nat :: b < |t.idom| ==> ParentOk(t, b))
    && (forall a, b :: 0 <= a < |t.rpo| && 0 <= b < |t.rpo| && t.rpo[a] == t.rpo[b] && t.rpo[a] >= 0 ==> a == b)
  }

  /** a is on the parent chain of b, b included. */
  ghost predicate Anc(t: Tree, a: nat, b: nat)
    requires TreeOk(t) && Defined(t, b)
    decreases t.rpo[b]
  {
    assert ParentOk(t, b);
    a == b || (b != t.entry && Anc(t, a, t.idom[b]))
  }

  lemma {:induction false} AncRpo(t: Tree, a: nat, b: nat)
    requires TreeOk(t) && Defined(t, b) && Anc(t, a, b)
    ensures Defined(t, a) && t.rpo[a] <= t.rpo[b]
    ensures a != b ==> t.rpo[a] < t.rpo[b]
    decreases t.rpo[b]
  {
    assert ParentOk(t, b);
    if a != b { AncRpo(t, a, t.idom[b]); }
  }

  lemma {:induction false} AncTrans(t: Tree, a: nat, b: nat, c: nat)
    requires TreeOk(t) && Defined(t, b) && Defined(t, c) && Anc(t, a, b) && Anc(t, b, c)
    ensures Anc(t, a, c)
    decreases t.rpo[c]
  {
    assert ParentOk(t, c);
    if b != c { AncTrans(t, a, b, t.idom[c]); }
  }

  /** Two ancestors of one block are ordered by their position. */
  lemma {:induction false} AncLinear(t: Tree, a: nat, b: nat, c: nat)
    requires TreeOk(t) && Defined(t, b) && Defined(t, c) && Anc(t, a, c) && Anc(t, b, c)
    requires Defined(t, a) && t.rpo[a] <= t.rpo[b]
    ensures Anc(t, a, b)
    decreases t.rpo[c]
  {
    assert ParentOk(t, c);
    if b != c {
      AncRpo(t, b, c);
      if a == c { AncRpo(t, b, c); }
      AncLinear(t, a, b, t.idom[c]);
    }
  }

  // ---------------------------------------------------------------- nearest common ancestor

  /** The two-finger walk: the result's ancestors are exactly the common ancestors of the arguments. */
  method Intersect(idom: array<int>, rpo: array<int>, b1: nat, b2: nat, ghost t: Tree) returns (f: nat)
    requires TreeOk(t) && idom[..] == t.idom && rpo[..] == t.rpo
    requires Defined(t, b1) && Defined(t, b2)
    ensures Defined(t, f)
    ensures forall a: nat :: Anc(t, a, f) <==> Anc(t, a, b1) && Anc(t, a, b2)
  {
    var f1, f2 := b1, b2;
    while f1 != f2
      invariant Defined(t, f1) && Defined(t, f2)
      invariant forall a: nat :: Anc(t, a, f1) && Anc(t, a, f2) <==> Anc(t, a, b1) && Anc(t, a, b2)
      decreases t.rpo[f1] + t.rpo[f2]
    {
      ghost var g1, g2 := f1, f2;
      while rpo[f1] > rpo[f2]
        invariant Defined(t, f1) && t.rpo[f1] <= t.rpo[g1]
        invariant f1 != g1 ==> t.rpo[f1] < t.rpo[g1]
        invariant t.rpo[g1] > t.rpo[f2] || f1 == g1
        invariant forall a: nat :: Anc(t, a, f1) && Anc(t, a, f2) <==> Anc(t, a, b1) && Anc(t, a, b2)
        decreases t.rpo[f1]
      {
        LiftFinger(t, f1, f2);
        f1 := idom[f1];
      }
      while rpo[f2] > rpo[f1]
        invariant Defined(t, f2) && t.rpo[f2] <= t.rpo[g2]
        invariant f2 != g2 ==> t.rpo[f2] < t.rpo[g2]
        invariant forall a: nat :: Anc(t, a, f1) && Anc(t, a, f2) <==> Anc(t, a, b1) && Anc(t, a, b2)
        decreases t.rpo[f2]
      {
        LiftFinger(t, f2, f1);
        f2 := idom[f2];
      }
      assert t.rpo[g1] != t.rpo[g2];
    }
    f := f1;
  }

  lemma LiftFinger(t: Tree, f1: nat, f2: nat)
    requires TreeOk(t) && Defined(t, f1) && Defined(t, f2) && t.rpo[f1] > t.rpo[f2]
    ensures f1 != t.entry && Defined(t, t.idom[f1]) && t.rpo[t.idom[f1]] < t.rpo[f1]
    ensures forall a: nat :: Anc(t, a, f1) && Anc(t, a, f2) <==> Anc(t, a, t.idom[f1]) && Anc(t, a, f2)
  {
    assert ParentOk(t, f1);
    forall a: nat | Anc(t, a, f2) ensures a != f1 {
      AncRpo(t, a, f2);
    }
  }

  // ---------------------------------------------------------------- the tree after one reassignment

  function Reparent(t: Tree, b: nat, n: nat): (r: Tree)
    requires b < |t.idom|
    ensures |r.idom| == |t.idom| && r.rpo == t.rpo && r.entry == t.entry
  {
    t.(idom := t.idom[b := n])
  }

  ghost predicate CanReparent(t: Tree, b: nat, n: nat) {
    && TreeOk(t) && b < |t.idom| && b != t.entry
    && Defined(t, n) && t.rpo[n] < t.rpo[b]
  }

  ghost predicate Below(t: Tree, b: nat, c: nat)
    requires TreeOk(t) && Defined(t, c)
  {
    Defined(t, b) && Anc(t, b, c)
  }

  lemma ReparentOk(t: Tree, b: nat, n: nat)
    requires CanReparent(t, b, n)
    ensures TreeOk(Reparent(t, b, n))
    ensures forall c :: Defined(Reparent(t, b, n), c) <==> Defined(t, c) || c == b
  {
    var r := Reparent(t, b, n);
    forall c: nat | c < |r.idom| ensures ParentOk(r, c) {
      assert ParentOk(t, c);
    }
  }

  /** Chains that avoid b do not change. */
  lemma {:induction false} ReparentAway(t: Tree, b: nat, n: nat, a: nat, c: nat)
    requires CanReparent(t, b, n) && TreeOk(Reparent(t, b, n)) && Defined(t, c)
    requires c != b && !Below(t, b, c)
    ensures Defined(Reparent(t, b, n), c)
    ensures Anc(Reparent(t, b, n), a, c) <==> Anc(t, a, c)
    decreases t.rpo[c]
  {
    assert ParentOk(t, c);
    if c != t.entry {
      var z := t.idom[c];
      assert z == b ==> Anc(t, b, z);
      assert Anc(t, b, z) ==> Anc(t, b, c);
      ReparentAway(t, b, n, a, z);
    }
  }

  /** Chains through b keep their part from b down and continue with the chain of n. */
  lemma {:induction false} ReparentBelow(t: Tree, b: nat, n: nat, a: nat, c: nat)
    requires CanReparent(t, b, n) && TreeOk(Reparent(t, b, n)) && Defined(t, c) && Below(t, b, c)
    ensures Defined(Reparent(t, b, n), c)
    ensures Anc(Reparent(t, b, n), a, c) <==> (Anc(t, a, c) && Defined(t, a) && t.rpo[a] >= t.rpo[b]) || Anc(t, a, n)
    decreases t.rpo[c]
  {
    assert ParentOk(t, c);
    AncRpo(t, b, c);
    if c == b {
      NotBelowEarlier(t, b, n);
      ReparentAway(t, b, n, a, n);
      if Anc(t, a, b) { AncRpo(t, a, b); }
    } else {
      ReparentBelow(t, b, n, a, t.idom[c]);
    }
  }

  lemma NotBelowEarlier(t: Tree, b: nat, c: nat)
    requires TreeOk(t) && Defined(t, c) && b < |t.rpo| && t.rpo[c] < t.rpo[b]
    ensures c != b && !Below(t, b, c)
  {
    if Below(t, b, c) { AncRpo(t, b, c); }
  }

  /** Moving b up to an ancestor of its parent only shortens chains. */
  lemma ReparentShrinks(t: Tree, b: nat, n: nat, a: nat, c: nat)
    requires CanReparent(t, b, n) && TreeOk(Reparent(t, b, n)) && Defined(t, c)
    requires Defined(t, b) ==> Defined(t, t.idom[b]) && Anc(t, n, t.idom[b])
    requires Defined(Reparent(t, b, n), c) && Anc(Reparent(t, b, n), a, c)
    ensures Anc(t, a, c)
  {
    assert b < |t.idom| && Defined(t, b) ==> ParentOk(t, b);
    if Below(t, b, c) {
      ReparentBelow(t, b, n, a, c);
      if Anc(t, a, n) {
        AncTrans(t, a, n, t.idom[b]);
        AncTrans(t, a, b, c);
      }
    } else if c != b {
      ReparentAway(t, b, n, a, c);
    }
  }

  // ---------------------------------------------------------------- invariants of the fixpoint

  /** a is on the chain of every predecessor of b whose dominator is known. */
  ghost predicate CommonAnc(g: Graph, t: Tree, b: nat, a: nat)
    requires TreeOk(t) && b < |g.preds|
  {
    forall p: nat :: p in g.preds[b] && Defined(t, p) ==> Anc(t, a, p)
  }

  ghost predicate Shape(g: Graph, order: seq<nat>, t: Tree) {
    WellFormed(g) && IsRpo(g, order, t.rpo) && TreeOk(t) && t.entry == g.entry
  }

  ghost predicate Inner(t: Tree, b: nat) {
    Defined(t, b) && b != t.entry
  }

  /** Every strict dominator of b also dominates its current parent. */
  ghost predicate KeepsDominators(g: Graph, t: Tree)
    requires TreeOk(t)
  {
    forall b: nat, d: nat :: Inner(t, b) && Dominates(g, d, b) && d != b ==>
      assert ParentOk(t, b);
      Dominates(g, d, t.idom[b])
  }

  /** Whatever is common to all known predecessors of b is on the chain of b's parent. */
  ghost predicate KeepsCommon(g: Graph, t: Tree)
    requires TreeOk(t) && |g.preds| == |t.idom|
  {
    forall b: nat, a: nat :: Inner(t, b) && CommonAnc(g, t, b, a) ==> assert ParentOk(t, b); Anc(t, a, t.idom[b])
  }

  ghost function ForwardPred(g: Graph, rpo: seq<int>, b: nat): (u: nat)
    requires HasEarlierPred(g, rpo, b)
    ensures u < |rpo| && Edge(g, u, b) && b < |rpo| && 0 <= rpo[u] < rpo[b]
  {
    var u: nat :| u < |rpo| && Edge(g, u, b) && b < |rpo| && 0 <= rpo[u] < rpo[b];
    u
  }

  /** The parent chain of b follows that of its forward predecessor: wholly where b is settled in this pass,
      and down to position i where it is not. */
  ghost predicate FollowsAt(g: Graph, t: Tree, i: nat, b: nat, c: nat)
    requires TreeOk(t) && Inner(t, b)
  {
    assert ParentOk(t, b);
    && HasEarlierPred(g, t.rpo, b) && Defined(t, ForwardPred(g, t.rpo, b))
    && (Anc(t, c, t.idom[b]) && c < |t.rpo| && (t.rpo[b] < i || t.rpo[c] >= i) ==>
          Anc(t, c, ForwardPred(g, t.rpo, b)))
  }

  ghost predicate Follows(g: Graph, t: Tree, i: nat)
    requires TreeOk(t)
  {
    forall b: nat, c: nat :: Inner(t, b) ==> FollowsAt(g, t, i, b, c)
  }

  /** Exactly the first lim blocks of the order have a parent. */
  ghost predicate DefinedUpTo(t: Tree, lim: nat)
    requires TreeOk(t)
  {
    forall b: nat :: Defined(t, b) <==> b < |t.rpo| && 0 <= t.rpo[b] < lim
  }

  ghost predicate FixInv(g: Graph, order: seq<nat>, t: Tree, lim: nat, i: nat) {
    && Shape(g, order, t)
    && 1 <= i <= lim <= |order|
    && DefinedUpTo(t, lim)
    && KeepsDominators(g, t) && KeepsCommon(g, t) && Follows(g, t, i)
  }

  lemma DominatorOfPred(g: Graph, d: nat, b: nat, p: nat)
    requires Dominates(g, d, b) && d != b && Edge(g, p, b)
    ensures Dominates(g, d, p)
  {
    forall q | PathTo(g, q, p) ensures d in q {
      ExtendPath(g, q, p, b);
      assert d in q + [b];
    }
  }

  /** Every dominator is on the chain. */
  lemma {:induction false} DominatorsAreAncestors(g: Graph, t: Tree, d: nat, b: nat)
    requires TreeOk(t) && t.entry == g.entry && |t.idom| == |g.succs| && KeepsDominators(g, t)
    requires Defined(t, b) && Dominates(g, d, b)
    ensures Anc(t, d, b)
    decreases t.rpo[b]
  {
    if b == g.entry {
      assert PathTo(g, [b], b);
      assert d in [b];
    } else if d != b {
      assert ParentOk(t, b);
      DominatorsAreAncestors(g, t, d, t.idom[b]);
    }
  }

  /** A dominator of p dominates everything on p's chain below it. */
  lemma {:induction false} DominatesAlongChain(g: Graph, t: Tree, d: nat, x: nat, p: nat)
    requires TreeOk(t) && KeepsDominators(g, t) && Defined(t, p) && Defined(t, x)
    requires Dominates(g, d, p) && Anc(t, x, p) && Anc(t, d, x)
    ensures Dominates(g, d, x)
    decreases t.rpo[p]
  {
    if x != p {
      assert ParentOk(t, p);
      AncRpo(t, x, p);
      AncRpo(t, d, x);
      DominatesAlongChain(g, t, d, x, t.idom[p]);
    }
  }

  // ---------------------------------------------------------------- one step of the fixpoint

  /** The value the loop computes for b = order[i]: the nearest common ancestor of its known predecessors. */
  ghost predicate IsNewParent(g: Graph, order: seq<nat>, t: Tree, lim: nat, i: nat, b: nat, n: nat) {
    && FixInv(g, order, t, lim, i) && i < |order| && b == order[i]
    && Defined(t, n)
    && (forall a: nat :: Anc(t, a, n) <==> CommonAnc(g, t, b, a))
  }

  function Max(a: nat, b: nat): (r: nat)
    ensures r >= a && r >= b && (r == a || r == b)
  {
    if a < b then b else a
  }

  /** The forward predecessor of the block at hand is already known. */
  lemma ForwardDefined(g: Graph, order: seq<nat>, t: Tree, lim: nat, i: nat, b: nat)
    requires FixInv(g, order, t, lim, i) && i < |order| && b == order[i]
    ensures b < |t.idom| && b != t.entry && HasEarlierPred(g, t.rpo, b)
    ensures var u := ForwardPred(g, t.rpo, b); Defined(t, u) && u in g.preds[b] && t.rpo[u] < i
  {
    hide Reachable, KeepsDominators, KeepsCommon, Follows, ParentOk;
    assert t.rpo[order[i]] == i;
    var u := ForwardPred(g, t.rpo, b);
    assert t.rpo[u] < lim;
  }

  lemma PredEdge(g: Graph, p: nat, b: nat)
    requires WellFormed(g) && b < |g.preds| && p in g.preds[b]
    ensures Edge(g, p, b)
  {
  }

  lemma NewParentFacts(g: Graph, order: seq<nat>, t: Tree, lim: nat, i: nat, b: nat, n: nat)
    requires IsNewParent(g, order, t, lim, i, b, n)
    ensures CanReparent(t, b, n) && TreeOk(Reparent(t, b, n)) && t.rpo[b] == i
    ensures Anc(t, n, n) && CommonAnc(g, t, b, n)
    ensures Defined(t, b) ==> Defined(t, t.idom[b]) && Anc(t, n, t.idom[b])
    ensures Defined(t, b) && t.idom[b] != n ==> t.rpo[n] < t.rpo[t.idom[b]]
  {
    ForwardDefined(g, order, t, lim, i, b);
    var u := ForwardPred(g, t.rpo, b);
    assert Anc(t, n, n);
    assert CommonAnc(g, t, b, n);
    AncRpo(t, n, u);
    ReparentOk(t, b, n);
    assert t.rpo[order[i]] == i;
    assert ParentOk(t, b);
    if Defined(t, b) {
      assert Inner(t, b);
      AncRpo(t, n, t.idom[b]);
    }
  }

  lemma StepKeepsDominators(g: Graph, order: seq<nat>, t: Tree, lim: nat, i: nat, b: nat, n: nat)
    requires IsNewParent(g, order, t, lim, i, b, n)
    requires CanReparent(t, b, n) && TreeOk(Reparent(t, b, n))
    ensures KeepsDominators(g, Reparent(t, b, n))
  {
    assert |t.idom| == |g.succs|;
    hide IsRpo, Reachable, Follows, KeepsCommon, DefinedUpTo;
    var r := Reparent(t, b, n);
    forall c: nat, d: nat | Inner(r, c) && Dominates(g, d, c) && d != c
      ensures ParentOk(r, c) && Dominates(g, d, r.idom[c])
    {
      assert ParentOk(r, c) && ParentOk(t, c);
      if c == b {
        ForwardDefined(g, order, t, lim, i, b);
        var u := ForwardPred(g, t.rpo, b);
        forall p: nat | p in g.preds[b] && Defined(t, p) ensures Anc(t, d, p) {
          PredEdge(g, p, b);
          DominatorOfPred(g, d, b, p);
          DominatorsAreAncestors(g, t, d, p);
        }
        assert CommonAnc(g, t, b, d);
        assert Anc(t, n, n);
        assert CommonAnc(g, t, b, n);
        DominatorOfPred(g, d, b, u);
        DominatesAlongChain(g, t, d, n, u);
      } else {
        assert Inner(t, c);
      }
    }
  }

  lemma CommonShrinks(g: Graph, t: Tree, b: nat, n: nat, x: nat, a: nat)
    requires CanReparent(t, b, n) && TreeOk(Reparent(t, b, n)) && x < |g.preds|
    requires Defined(t, b) ==> Defined(t, t.idom[b]) && Anc(t, n, t.idom[b])
    requires CommonAnc(g, Reparent(t, b, n), x, a)
    ensures CommonAnc(g, t, x, a)
  {
    forall p: nat | p in g.preds[x] && Defined(t, p) ensures Anc(t, a, p) {
      ReparentOk(t, b, n);
      assert Defined(Reparent(t, b, n), p);
      ReparentShrinks(t, b, n, a, p);
    }
  }

  lemma StepKeepsCommon(g: Graph, order: seq<nat>, t: Tree, lim: nat, i: nat, b: nat, n: nat, x: nat, a: nat)
    requires IsNewParent(g, order, t, lim, i, b, n)
    requires CanReparent(t, b, n) && TreeOk(Reparent(t, b, n)) && t.rpo[b] == i
    requires Defined(t, b) ==> Defined(t, t.idom[b]) && Anc(t, n, t.idom[b])
    requires Inner(Reparent(t, b, n), x) && CommonAnc(g, Reparent(t, b, n), x, a)
    ensures ParentOk(Reparent(t, b, n), x) && Defined(Reparent(t, b, n), Reparent(t, b, n).idom[x])
    ensures Anc(Reparent(t, b, n), a, Reparent(t, b, n).idom[x])
  {
    var r := Reparent(t, b, n);
    assert ParentOk(r, x);
    CommonShrinks(g, t, b, n, x, a);
    if x == b {
      NotBelowEarlier(t, b, n);
      ReparentAway(t, b, n, a, n);
    } else {
      assert Inner(t, x) && ParentOk(t, x);
      var z := t.idom[x];
      if !Below(t, b, z) {
        if z != b { ReparentAway(t, b, n, a, z); }
      } else {
        ReparentBelow(t, b, n, a, z);
        assert FollowsAt(g, t, i, x, b);
        var u := ForwardPred(g, t.rpo, x);
        assert Below(t, b, u);
        assert u in g.preds[x] && Defined(r, u);
        assert Anc(r, a, u);
        ReparentBelow(t, b, n, a, u);
        AncRpo(t, a, z);
      }
    }
  }

  lemma StepFollows(g: Graph, order: seq<nat>, t: Tree, lim: nat, i: nat, b: nat, n: nat, x: nat, c: nat)
    requires IsNewParent(g, order, t, lim, i, b, n)
    requires CanReparent(t, b, n) && TreeOk(Reparent(t, b, n)) && t.rpo[b] == i
    requires Defined(t, b) ==> Defined(t, t.idom[b]) && Anc(t, n, t.idom[b])
    requires Inner(Reparent(t, b, n), x)
    ensures FollowsAt(g, Reparent(t, b, n), i + 1, x, c)
  {
    hide IsRpo, Reachable, KeepsDominators, KeepsCommon, DefinedUpTo;
    var r := Reparent(t, b, n);
    ReparentOk(t, b, n);
    assert ParentOk(r, x);
    ForwardDefined(g, order, t, lim, i, b);
    if x == b {
      var u := ForwardPred(g, t.rpo, b);
      NotBelowEarlier(t, b, n);
      ReparentAway(t, b, n, c, n);
      NotBelowEarlier(t, b, u);
      ReparentAway(t, b, n, c, u);
    } else {
      assert Inner(t, x) && ParentOk(t, x);
      assert FollowsAt(g, t, i, x, c);
      var u := ForwardPred(g, t.rpo, x);
      var z := t.idom[x];
      assert Defined(r, u);
      if c < |t.rpo| && Anc(r, c, z) && (t.rpo[x] < i + 1 || t.rpo[c] >= i + 1) {
        ReparentShrinks(t, b, n, c, z);
        assert t.rpo[x] != i;
        assert Anc(t, c, u);
        if Below(t, b, u) {
          AncRpo(t, b, u);
          assert t.rpo[c] >= t.rpo[b];
          AncRpo(t, c, u);
          ReparentBelow(t, b, n, c, u);
        } else {
          ReparentAway(t, b, n, c, u);
        }
      }
    }
  }

  lemma StepCommon(g: Graph, order: seq<nat>, t: Tree, lim: nat, i: nat, b: nat, n: nat)
    requires IsNewParent(g, order, t, lim, i, b, n)
    requires CanReparent(t, b, n) && TreeOk(Reparent(t, b, n)) && t.rpo[b] == i
    requires Defined(t, b) ==> Defined(t, t.idom[b]) && Anc(t, n, t.idom[b])
    ensures |g.preds| == |t.idom| && KeepsCommon(g, Reparent(t, b, n))
  {
    assert |g.preds| == |t.idom|;
    var r := Reparent(t, b, n);
    hide IsNewParent, Anc, CommonAnc, CanReparent, TreeOk;
    forall x: nat, a: nat | Inner(r, x) && CommonAnc(g, r, x, a) ensures ParentOk(r, x) && Anc(r, a, r.idom[x]) {
      StepKeepsCommon(g, order, t, lim, i, b, n, x, a);
    }
  }

  lemma StepFollowsAll(g: Graph, order: seq<nat>, t: Tree, lim: nat, i: nat, b: nat, n: nat, j: nat)
    requires IsNewParent(g, order, t, lim, i, b, n) && j == i + 1
    requires CanReparent(t, b, n) && TreeOk(Reparent(t, b, n)) && t.rpo[b] == i
    requires Defined(t, b) ==> Defined(t, t.idom[b]) && Anc(t, n, t.idom[b])
    ensures Follows(g, Reparent(t, b, n), j)
  {
    var r := Reparent(t, b, n);
    hide IsNewParent, Anc, FollowsAt, CanReparent, TreeOk;
    forall x: nat, c: nat | Inner(r, x) ensures FollowsAt(g, r, j, x, c) {
      StepFollows(g, order, t, lim, i, b, n, x, c);
    }
  }

  /** Storing the new parent keeps every invariant; a known parent can only move up. */
  lemma Step(g: Graph, order: seq<nat>, t: Tree, lim: nat, i: nat, b: nat, n: nat)
    requires IsNewParent(g, order, t, lim, i, b, n)
    ensures b < |t.idom| && FixInv(g, order, Reparent(t, b, n), Max(lim, i + 1), i + 1)
    ensures Defined(t, b) ==> Defined(t, t.idom[b]) && Anc(t, n, t.idom[b])
    ensures Defined(t, b) && t.idom[b] != n ==> t.rpo[n] < t.rpo[t.idom[b]]
  {
    hide Shape, KeepsDominators, DefinedUpTo, KeepsCommon, Follows, IsNewParent, ParentOk, TreeOk, Anc;
    NewParentFacts(g, order, t, lim, i, b, n);
    StepShape(g, order, t, lim, i, b, n);
    StepKeepsDominators(g, order, t, lim, i, b, n);
    StepCommon(g, order, t, lim, i, b, n);
    StepFollowsAll(g, order, t, lim, i, b, n, i + 1);
    StepDefined(g, order, t, lim, i, b, n);
  }

  lemma StepShape(g: Graph, order: seq<nat>, t: Tree, lim: nat, i: nat, b: nat, n: nat)
    requires IsNewParent(g, order, t, lim, i, b, n)
    requires CanReparent(t, b, n) && TreeOk(Reparent(t, b, n))
    ensures b < |t.idom| && Shape(g, order, Reparent(t, b, n)) && i < |order| && lim <= |order| && 1 <= i
  {
    hide KeepsDominators, DefinedUpTo, KeepsCommon, Follows, Anc, WellFormed, TreeOk, IsRpo;
  }

  lemma StepDefined(g: Graph, order: seq<nat>, t: Tree, lim: nat, i: nat, b: nat, n: nat)
    requires IsNewParent(g, order, t, lim, i, b, n)
    requires CanReparent(t, b, n) && TreeOk(Reparent(t, b, n)) && t.rpo[b] == i
    ensures DefinedUpTo(Reparent(t, b, n), Max(lim, i + 1))
  {
    hide IsRpo, Reachable, KeepsDominators, KeepsCommon, Follows, ParentOk;
    ReparentOk(t, b, n);
    var r := Reparent(t, b, n);
    forall c: nat ensures Defined(r, c) <==> c < |r.rpo| && 0 <= r.rpo[c] < Max(lim, i + 1) {
      if c < |t.rpo| && t.rpo[c] == i { assert c == b; }
    }
  }

  // ---------------------------------------------------------------- termination

  /** The position of b's parent, or one past every position when b has none. */
  ghost function Height(t: Tree, b: nat): nat
    requires |t.idom| == |t.rpo| && b < |t.idom|
  {
    var p := t.idom[b];
    if 0 <= p < |t.rpo| && 0 <= t.rpo[p] < |t.rpo| then t.rpo[p] else |t.rpo|
  }

  ghost function TotalHeight(t: Tree, k: nat): nat
    requires |t.idom| == |t.rpo| && k <= |t.idom|
  {
    if k == 0 then 0 else TotalHeight(t, k - 1) + Height(t, k - 1)
  }

  lemma {:induction false} TotalHeightDrops(t: Tree, r: Tree, b: nat, k: nat)
    requires |t.idom| == |t.rpo| && |r.idom| == |t.idom| && r.rpo == t.rpo && b < |t.idom| && k <= |t.idom|
    requires forall c :: 0 <= c < |t.idom| && c != b ==> r.idom[c] == t.idom[c]
    requires Height(r, b) < Height(t, b)
    ensures if b < k then TotalHeight(r, k) < TotalHeight(t, k) else TotalHeight(r, k) == TotalHeight(t, k)
  {
    if k > 0 { TotalHeightDrops(t, r, b, k - 1); }
  }

  /** Positions stay below the block count. */
  lemma OrderBound(g: Graph, order: seq<nat>, t: Tree)
    requires Shape(g, order, t)
    ensures |order| <= |t.idom|
    ensures forall b: nat :: b < |t.rpo| ==> t.rpo[b] < |t.rpo|
  {
    NoDuplicatesBounded(order, |g.succs|);
  }

  lemma StepTerminates(g: Graph, order: seq<nat>, t: Tree, lim: nat, i: nat, b: nat, n: nat)
    requires IsNewParent(g, order, t, lim, i, b, n) && b < |t.idom| && |t.idom| == |t.rpo|
    requires t.idom[b] != n
    ensures TotalHeight(Reparent(t, b, n), |t.idom|) < TotalHeight(t, |t.idom|)
  {
    Step(g, order, t, lim, i, b, n);
    OrderBound(g, order, t);
    NewParentFacts(g, order, t, lim, i, b, n);
    hide Shape, KeepsDominators, DefinedUpTo, KeepsCommon, Follows, IsNewParent, FixInv;
    TotalHeightDrops(t, Reparent(t, b, n), b, |t.idom|);
  }

  // ---------------------------------------------------------------- the fixpoint loop

  /** Block b's parent is the nearest common ancestor of its predecessors. */
  ghost predicate Settled(g: Graph, t: Tree, b: nat)
    requires TreeOk(t) && b < |g.preds|
  {
    Defined(t, b) && b != t.entry &&
    (assert ParentOk(t, b); forall a: nat :: Anc(t, a, t.idom[b]) <==> CommonAnc(g, t, b, a))
  }

  lemma Start(g: Graph, order: seq<nat>, t: Tree)
    requires WellFormed(g) && IsRpo(g, order, t.rpo) && t.entry == g.entry && |t.idom| == |t.rpo|
    requires forall b :: 0 <= b < |t.idom| ==> t.idom[b] == if b == t.entry then t.entry else INVALID_BLOCK
    ensures FixInv(g, order, t, 1, 1)
  {
    assert order[0] == t.entry && t.rpo[order[0]] == 0;
    assert TreeOk(t) by {
      hide Reachable;
      forall a, b | 0 <= a < |t.rpo| && 0 <= b < |t.rpo| && t.rpo[a] == t.rpo[b] && t.rpo[a] >= 0 ensures a == b {
        RpoInjective(g, order, t.rpo, a, b);
      }
    }
    forall b: nat ensures Defined(t, b) <==> b < |t.rpo| && 0 <= t.rpo[b] < 1 {
      if b < |t.rpo| && t.rpo[b] == 0 { RpoInjective(g, order, t.rpo, b, t.entry); }
    }
  }

  lemma RpoInjective(g: Graph, order: seq<nat>, rpo: seq<int>, a: nat, b: nat)
    requires IsRpo(g, order, rpo) && a < |rpo| && b < |rpo| && rpo[a] == rpo[b] && rpo[a] >= 0
    ensures a == b
  {
    hide Reachable;
    var i :| 0 <= i < |order| && order[i] == a;
    var j :| 0 <= j < |order| && order[j] == b;
  }

  /** A new pass may start: every block of the order has been settled in the last one. */
  lemma NewPass(g: Graph, order: seq<nat>, t: Tree)
    requires FixInv(g, order, t, |order|, |order|)
    ensures FixInv(g, order, t, |order|, 1)
  {
    hide Reachable, KeepsDominators, KeepsCommon;
    forall b: nat, c: nat | Inner(t, b) ensures FollowsAt(g, t, 1, b, c) {
      assert FollowsAt(g, t, |order|, b, c);
      assert t.rpo[b] < |order|;
    }
  }

  /** One recomputation: the first known predecessor, intersected with every other known one. */
  method ComputeParent(g: Graph, idom: array<int>, rpo: array<int>, b: nat, ghost t: Tree) returns (n: int)
    requires TreeOk(t) && idom[..] == t.idom && rpo[..] == t.rpo
    requires b < |g.preds| && forall k :: 0 <= k < |g.preds[b]| ==> g.preds[b][k] < |t.idom|
    ensures n == INVALID_BLOCK ==> forall p: nat :: p in g.preds[b] ==> !Defined(t, p)
    ensures n != INVALID_BLOCK ==> Defined(t, n) && forall a: nat :: Anc(t, a, n) <==> CommonAnc(g, t, b, a)
  {
    var preds := g.preds[b];
    n := INVALID_BLOCK;
    var k := 0;
    while k < |preds|
      invariant 0 <= k <= |preds|
      invariant n == INVALID_BLOCK ==> forall j :: 0 <= j < k ==> !Defined(t, preds[j])
      invariant n != INVALID_BLOCK ==> Defined(t, n) && n in preds
    {
      if idom[preds[k]] != INVALID_BLOCK {
        n := preds[k];
        break;
      }
      k := k + 1;
    }
    if n == INVALID_BLOCK { return; }
    ghost var first: nat := n;
    k := 0;
    while k < |preds|
      invariant 0 <= k <= |preds| && Defined(t, n)
      invariant forall a: nat ::
          Anc(t, a, n) <==> Anc(t, a, first) && forall j :: 0 <= j < k && Defined(t, preds[j]) ==> Anc(t, a, preds[j])
    {
      var p := preds[k];
      if p != n && idom[p] != INVALID_BLOCK {
        n := Intersect(idom, rpo, p, n, t);
      }
      k := k + 1;
    }
  }

  /** idom answers dominance for every reachable block. */
  ghost predicate IsDominatorTree(g: Graph, t: Tree) {
    && TreeOk(t) && t.entry == g.entry && |t.idom| == |g.succs|
    && (forall b: nat :: Defined(t, b) <==> Reachable(g, b))
    && (forall b: nat :: b < |t.rpo| ==> (t.rpo[b] >= 0 <==> Reachable(g, b)))
    && (forall a: nat, b: nat :: Defined(t, b) ==> (Anc(t, a, b) <==> Dominates(g, a, b)))
  }

  /** One pass over the order after the entry, in place. */
  method Pass(g: Graph, order: seq<nat>, idom: array<int>, rpo: array<int>, ghost t0: Tree, ghost lim0: nat)
    returns (changed: bool, ghost t: Tree)
    requires FixInv(g, order, t0, lim0, 1) && t0.idom == idom[..] && t0.rpo == rpo[..]
    requires idom != rpo
    modifies idom
    ensures t == t0.(idom := idom[..]) && FixInv(g, order, t, |order|, 1)
    ensures |t.idom| == |t.rpo| == |t0.idom| == |t0.rpo|
    ensures changed ==> TotalHeight(t, |t.idom|) < TotalHeight(t0, |t0.idom|)
    ensures !changed ==> t == t0 && forall k :: 1 <= k < |order| ==> SettledAt(g, order, t, k)
  {
    hide IsRpo, WellFormed, Reachable, Dominates, TreeOk, KeepsDominators, KeepsCommon, Follows, FixInv, Anc,
      CommonAnc, SettledAt, TotalHeight, IsNewParent;
    changed, t := false, t0;
    ghost var lim: nat := lim0;
    FixBounds(g, order, t, lim, 1);
    var i: nat := 1;
    while i < |order|
      invariant 1 <= i <= lim <= |order|
      invariant t == t0.(idom := idom[..]) && |t.idom| == |t.rpo| == |t0.idom| && FixInv(g, order, t, lim, i)
      invariant if changed then TotalHeight(t, |t.idom|) < TotalHeight(t0, |t0.idom|) else t == t0
      invariant !changed ==> forall k :: 1 <= k < i ==> SettledAt(g, order, t, k)
    {
      var b := order[i];
      BlockFacts(g, order, t, lim, i, b);
      var newIdom := ComputeParent(g, idom, rpo, b, t);
      KnownPred(g, order, t, lim, i, b, newIdom);
      Step(g, order, t, lim, i, b, newIdom);
      if idom[b] != newIdom {
        StepTerminates(g, order, t, lim, i, b, newIdom);
        idom[b] := newIdom;
        t := Reparent(t, b, newIdom);
        changed := true;
      } else {
        assert t.idom[b := newIdom] == t.idom;
        SettledWhenEqual(g, order, t, lim, i, b, newIdom);
      }
      lim := Max(lim, i + 1);
      i := i + 1;
      FixBounds(g, order, t, lim, i);
    }
    NewPass(g, order, t);
  }

  lemma FixBounds(g: Graph, order: seq<nat>, t: Tree, lim: nat, i: nat)
    requires FixInv(g, order, t, lim, i)
    ensures 1 <= i <= lim <= |order| && |t.idom| == |t.rpo|
  {
    hide IsRpo, KeepsDominators, KeepsCommon, Follows, WellFormed;
  }

  lemma BlockFacts(g: Graph, order: seq<nat>, t: Tree, lim: nat, i: nat, b: nat)
    requires FixInv(g, order, t, lim, i) && i < |order| && b == order[i]
    ensures TreeOk(t) && b < |t.idom| && b < |g.preds|
    ensures forall k :: 0 <= k < |g.preds[b]| ==> g.preds[b][k] < |t.idom|
  {
    ForwardDefined(g, order, t, lim, i, b);
    PredsInRange(g, order, t, b);
  }

  /** Some predecessor is known, so the recomputation always finds a parent. */
  lemma KnownPred(g: Graph, order: seq<nat>, t: Tree, lim: nat, i: nat, b: nat, n: int)
    requires FixInv(g, order, t, lim, i) && i < |order| && b == order[i] && b < |g.preds| && TreeOk(t)
    requires n == INVALID_BLOCK ==> forall p: nat :: p in g.preds[b] ==> !Defined(t, p)
    requires n != INVALID_BLOCK ==> Defined(t, n) && forall a: nat :: Anc(t, a, n) <==> CommonAnc(g, t, b, a)
    ensures n >= 0 && IsNewParent(g, order, t, lim, i, b, n)
  {
    ForwardDefined(g, order, t, lim, i, b);
  }

  /** The round-robin loop of ny_dominator_tree_init: it stops, and its tree is the dominator tree. */
  method BuildDominatorTree(g: Graph) returns (t: Tree)
    requires WellFormed(g)
    ensures IsDominatorTree(g, t)
  {
    hide Reachable, Dominates, IsPath, KeepsDominators, KeepsCommon, Follows, Anc, TreeOk, SettledAt, Edge, FixInv;
    var n := |g.succs|;
    var info := BuildCfgInfo(g);
    var order := info.rpo;
    var rpo := new int[n](i requires 0 <= i < n => info.rpoIndex[i]);
    var idom := new int[n](_ => INVALID_BLOCK);
    assert rpo[..] == info.rpoIndex;
    idom[g.entry] := g.entry;
    t := Tree(g.entry, idom[..], rpo[..]);
    Start(g, order, t);
    ghost var lim: nat := 1;
    var changed := true;
    while changed
      invariant t == Tree(g.entry, idom[..], rpo[..]) && FixInv(g, order, t, lim, 1)
      invariant !changed ==> lim == |order| && forall k :: 1 <= k < |order| ==> SettledAt(g, order, t, k)
      decreases TotalHeight(t, |t.idom|), changed
    {
      ghost var t1;
      changed, t1 := Pass(g, order, idom, rpo, t, lim);
      t := Tree(g.entry, idom[..], rpo[..]);
      lim := |order|;
    }
    Exact(g, order, t);
  }

  ghost predicate SettledAt(g: Graph, order: seq<nat>, t: Tree, k: nat) {
    k < |order| && order[k] < |g.preds| && TreeOk(t) && Settled(g, t, order[k])
  }

  lemma PredsInRange(g: Graph, order: seq<nat>, t: Tree, b: nat)
    requires Shape(g, order, t) && b < |t.idom|
    ensures TreeOk(t) && b < |g.preds| && forall k :: 0 <= k < |g.preds[b]| ==> g.preds[b][k] < |t.idom|
  {
  }

  lemma SettledWhenEqual(g: Graph, order: seq<nat>, t: Tree, lim: nat, i: nat, b: nat, n: nat)
    requires IsNewParent(g, order, t, lim, i, b, n) && b < |t.idom| && t.idom[b] == n
    ensures SettledAt(g, order, t, i)
  {
    NewParentFacts(g, order, t, lim, i, b, n);
  }

  /** Every ancestor lies on every path: induction along the path. */
  lemma {:induction false} AncestorsDominate(g: Graph, order: seq<nat>, t: Tree, a: nat, b: nat, p: seq<nat>)
    requires Shape(g, order, t) && DefinedUpTo(t, |order|)
    requires forall k :: 1 <= k < |order| ==> SettledAt(g, order, t, k)
    requires PathTo(g, p, b) && Defined(t, b) && Anc(t, a, b)
    ensures a in p
    decreases |p|
  {
    if a != b {
      assert t.rpo[b] < |order| && b in order;
      var k :| 0 <= k < |order| && order[k] == b;
      assert SettledAt(g, order, t, k);
      assert ParentOk(t, b);
      var q := p[|p| - 2];
      PathPrefix(g, p, b, |p| - 2);
      assert Edge(g, p[|p| - 2], p[|p| - 2 + 1]);
      PathDefined(g, order, t, p[..|p| - 1], q);
      assert CommonAnc(g, t, b, a);
      AncestorsDominate(g, order, t, a, q, p[..|p| - 1]);
    }
  }

  lemma PathDefined(g: Graph, order: seq<nat>, t: Tree, p: seq<nat>, b: nat)
    requires Shape(g, order, t) && DefinedUpTo(t, |order|) && PathTo(g, p, b)
    ensures Defined(t, b)
  {
    assert Reachable(g, b);
    assert b in order;
  }

  lemma Exact(g: Graph, order: seq<nat>, t: Tree)
    requires FixInv(g, order, t, |order|, 1)
    requires forall k :: 1 <= k < |order| ==> SettledAt(g, order, t, k)
    ensures IsDominatorTree(g, t)
  {
    ExactDefined(g, order, t);
    forall a: nat, b: nat | Defined(t, b) ensures Anc(t, a, b) <==> Dominates(g, a, b) {
      if Anc(t, a, b) {
        forall p | PathTo(g, p, b) ensures a in p { AncestorsDominate(g, order, t, a, b, p); }
      }
      if Dominates(g, a, b) { DominatorsAreAncestors(g, t, a, b); }
    }
  }

  lemma ExactDefined(g: Graph, order: seq<nat>, t: Tree)
    requires FixInv(g, order, t, |order|, 1)
    ensures forall b: nat :: Defined(t, b) <==> Reachable(g, b)
    ensures forall b: nat :: b < |t.rpo| ==> (t.rpo[b] >= 0 <==> Reachable(g, b))
  {
    hide Reachable, KeepsDominators, KeepsCommon, Follows;
    forall b: nat ensures Defined(t, b) <==> Reachable(g, b) {
      if Reachable(g, b) { assert b in order; }
    }
  }

  /** ny_dominator_tree_dominates: reflexive, false for blocks out of range or not reached, exact otherwise. */
  method QueryDominates(t: Tree, a: nat, b: nat, ghost g: Graph) returns (r: bool)
    requires IsDominatorTree(g, t)
    ensures r <==> a == b || (Reachable(g, a) && Reachable(g, b) && Dominates(g, a, b))
  {
    if a == b { return true; }
    if a >= |t.idom| || b >= |t.idom| {
      assert Reachable(g, a) && Reachable(g, b) ==> Defined(t, a) && Defined(t, b);
      return false;
    }
    if t.rpo[a] < 0 || t.rpo[b] < 0 { return false; }
    var curr := b;
    while curr != a && curr != t.entry && t.idom[curr] != INVALID_BLOCK
      invariant Defined(t, curr)
      invariant Anc(t, a, b) <==> Anc(t, a, curr)
      decreases t.rpo[curr]
    {
      assert ParentOk(t, curr);
      var parent := t.idom[curr];
      if parent == curr { break; }
      curr := parent;
    }
    r := curr == a;
  }

  /** The parent is the immediate dominator: a strict dominator that every other one dominates. */
  lemma ParentIsImmediate(g: Graph, t: Tree, b: nat)
    requires IsDominatorTree(g, t) && Reachable(g, b) && b != g.entry
    ensures Defined(t, b) && Defined(t, t.idom[b]) && t.idom[b] != b && Dominates(g, t.idom[b], b)
    ensures forall d: nat :: Dominates(g, d, b) && d != b ==> Dominates(g, d, t.idom[b])
  {
    assert Defined(t, b) && ParentOk(t, b);
    assert Anc(t, t.idom[b], t.idom[b]);
    assert Anc(t, t.idom[b], b);
    forall d: nat | Dominates(g, d, b) && d != b ensures Dominates(g, d, t.idom[b]) {
      assert Anc(t, d, b);
    }
  }
}
