/** Control-flow graphs, paths, reachability, and the iterative depth-first search of src/analysis/cfg.c. */
module Cfg {

  /** The CFG part of a function: successor and predecessor lists by block id. */
  datatype Graph = Graph(entry: nat, succs: seq<seq<nat>>, preds: seq<seq<nat>>)

  /** A CFG edge; a successor id out of range is not one. */
  predicate Edge(g: Graph, u: nat, v: nat) {
    u < |g.succs| && v < |g.succs| && v in g.succs[u]
  }

  /** Predecessor lists mirror successor lists, and the entry exists. */
  ghost predicate WellFormed(g: Graph) {
    && g.entry < |g.succs|
    && |g.preds| == |g.succs|
    && (forall v, k :: 0 <= v < |g.preds| && 0 <= k < |g.preds[v]| ==> g.preds[v][k] < |g.succs|)
    && (forall u, v :: 0 <= u < |g.succs| && 0 <= v < |g.succs| ==> (v in g.succs[u] <==> u in g.preds[v]))
  }

  ghost predicate IsPath(g: Graph, p: seq<nat>) {
    && |p| > 0
    && (forall i :: 0 <= i < |p| ==> p[i] < |g.succs|)
    && (forall i :: 0 <= i < |p| - 1 ==> Edge(g, p[i], p[i + 1]))
  }

  /** A path from the entry to b. */
  ghost predicate PathTo(g: Graph, p: seq<nat>, b: nat) {
    IsPath(g, p) && p[0] == g.entry && p[|p| - 1] == b
  }

  ghost predicate Reachable(g: Graph, b: nat) {
    exists p :: PathTo(g, p, b)
  }

  /** a lies on every path from the entry to b. */
  ghost predicate Dominates(g: Graph, a: nat, b: nat) {
    forall p :: PathTo(g, p, b) ==> a in p
  }

  lemma EntryReachable(g: Graph)
    requires g.entry < |g.succs|
    ensures Reachable(g, g.entry)
  {
    assert PathTo(g, [g.entry], g.entry);
  }

  lemma ExtendPath(g: Graph, p: seq<nat>, u: nat, v: nat)
    requires PathTo(g, p, u) && Edge(g, u, v)
    ensures PathTo(g, p + [v], v)
  {
    var q := p + [v];
    forall i | 0 <= i < |q| - 1 ensures Edge(g, q[i], q[i + 1]) {
      if i == |p| - 1 { assert q[i] == u; }
    }
  }

  lemma ReachableEdge(g: Graph, u: nat, v: nat)
    requires Reachable(g, u) && Edge(g, u, v)
    ensures Reachable(g, v)
  {
    var p :| PathTo(g, p, u);
    ExtendPath(g, p, u, v);
  }

  lemma PathPrefix(g: Graph, p: seq<nat>, b: nat, k: nat)
    requires PathTo(g, p, b) && k < |p|
    ensures PathTo(g, p[..k + 1], p[k])
  {
  }

  /** A set of blocks that holds the entry and is closed under edges holds every reachable block. */
  lemma {:induction false} ClosedHoldsReachable(g: Graph, s: set<nat>, p: seq<nat>, b: nat)
    requires g.entry in s
    requires forall u, v :: u in s && Edge(g, u, v) ==> v in s
    requires PathTo(g, p, b)
    ensures b in s
    decreases |p|
  {
    if |p| > 1 {
      var q := p[..|p| - 1];
      PathPrefix(g, p, b, |p| - 2);
      assert q == p[..|p| - 2 + 1];
      ClosedHoldsReachable(g, s, q, p[|p| - 2]);
      assert Edge(g, p[|p| - 2], p[|p| - 2 + 1]);
    }
  }

  // ---------------------------------------------------------------- depth-first search

  datatype Frame = Frame(blk: nat, succ: nat)

  const WHITE := 0
  const GREY := 1
  const BLACK := 2

  ghost predicate NoDuplicates(s: seq<nat>) {
    forall i, j :: 0 <= i < j < |s| ==> s[i] != s[j]
  }

  function Blocks(stack: seq<Frame>): (r: seq<nat>)
    ensures |r| == |stack| && forall i :: 0 <= i < |r| ==> r[i] == stack[i].blk
  {
    seq(|stack|, i requires 0 <= i < |stack| => stack[i].blk)
  }

  /** Pigeonhole: a duplicate-free list of numbers below n has at most n entries. */
  lemma {:induction false} NoDuplicatesBounded(s: seq<nat>, n: nat)
    requires NoDuplicates(s) && forall i :: 0 <= i < |s| ==> s[i] < n
    ensures |s| <= n
  {
    if |s| > 0 {
      assert s[0] < n;
      if exists k :: 0 <= k < |s| && s[k] == n - 1 {
        var k :| 0 <= k < |s| && s[k] == n - 1;
        var t := s[..k] + s[k + 1..];
        NoDuplicatesBounded(t, n - 1);
      } else {
        NoDuplicatesBounded(s[1..], n - 1);
      }
    }
  }

  ghost predicate ColoursOk(g: Graph, vis: seq<int>, stack: seq<Frame>, po: seq<nat>) {
    && |vis| == |g.succs|
    && (forall i :: 0 <= i < |stack| ==>
          stack[i].blk < |vis| && vis[stack[i].blk] == GREY && stack[i].succ <= |g.succs[stack[i].blk]|)
    && (forall i :: 0 <= i < |po| ==> po[i] < |vis| && vis[po[i]] == BLACK)
    && (forall i, j :: 0 <= i < j < |stack| ==> stack[i].blk != stack[j].blk)
    && NoDuplicates(po)
    && (forall u :: 0 <= u < |vis| ==> vis[u] == WHITE || vis[u] == GREY || vis[u] == BLACK)
    && (forall u :: 0 <= u < |vis| && vis[u] == GREY ==> exists i :: 0 <= i < |stack| && stack[i].blk == u)
    && (forall u :: 0 <= u < |vis| && vis[u] == BLACK ==> u in po)
  }

  /** Each frame above the bottom was pushed for the successor its parent looked at last. */
  ghost predicate StackOk(g: Graph, stack: seq<Frame>)
    requires forall i :: 0 <= i < |stack| ==> stack[i].blk < |g.succs| && stack[i].succ <= |g.succs[stack[i].blk]|
  {
    forall i :: 0 <= i < |stack| - 1 ==>
      stack[i].succ > 0 && g.succs[stack[i].blk][stack[i].succ - 1] == stack[i + 1].blk
  }

  /** A back edge recorded at an open block leads to an open block at or below it. */
  ghost predicate BackOpen(stack: seq<Frame>, back: seq<(nat, nat)>, i: nat)
    requires i < |stack|
  {
    forall v :: (stack[i].blk, v) in back ==> exists j :: 0 <= j <= i && stack[j].blk == v
  }

  /** What is known about successor v of the open block at stack position i, once it was looked at. */
  ghost predicate SeenFromOpen(vis: seq<int>, stack: seq<Frame>, back: seq<(nat, nat)>, i: nat, v: nat)
    requires i < |stack| && v < |vis|
  {
    (stack[i].blk, v) in back || vis[v] == BLACK || (i + 1 < |stack| && stack[i + 1].blk == v)
  }

  /** What is known about an edge out of the finished block po[x]. */
  ghost predicate SeenFromDone(g: Graph, vis: seq<int>, po: seq<nat>, back: seq<(nat, nat)>, x: nat)
    requires x < |po| && |vis| == |g.succs|
  {
    && (forall v: nat :: v < |vis| && Edge(g, po[x], v) ==>
          vis[v] == BLACK || (vis[v] == GREY && (po[x], v) in back))
    && (forall y :: 0 <= y < |po| && Edge(g, po[x], po[y]) ==> ((po[x], po[y]) in back <==> x <= y))
  }

  /** A finished block other than the entry has a tree parent that finishes later. */
  ghost predicate HasParent(g: Graph, vis: seq<int>, po: seq<nat>, x: nat)
    requires x < |po| && |vis| == |g.succs|
  {
    po[x] != g.entry ==>
      exists u: nat :: u < |vis| && Edge(g, u, po[x]) && (vis[u] == GREY || exists y :: x < y < |po| && po[y] == u)
  }

  ghost predicate OpenOk(g: Graph, vis: seq<int>, stack: seq<Frame>, back: seq<(nat, nat)>)
    requires |vis| == |g.succs|
    requires forall i :: 0 <= i < |stack| ==> stack[i].blk < |g.succs| && stack[i].succ <= |g.succs[stack[i].blk]|
  {
    && (forall i :: 0 <= i < |stack| ==> BackOpen(stack, back, i))
    && (forall i, k :: 0 <= i < |stack| && 0 <= k < stack[i].succ && g.succs[stack[i].blk][k] < |vis| ==>
          SeenFromOpen(vis, stack, back, i, g.succs[stack[i].blk][k]))
  }

  ghost predicate DoneOk(g: Graph, vis: seq<int>, po: seq<nat>, back: seq<(nat, nat)>)
    requires |vis| == |g.succs|
  {
    && (forall x :: 0 <= x < |po| ==> SeenFromDone(g, vis, po, back, x))
    && (forall x :: 0 <= x < |po| ==> HasParent(g, vis, po, x))
  }

  ghost predicate VisitedOk(g: Graph, vis: seq<int>, back: seq<(nat, nat)>)
    requires |vis| == |g.succs|
  {
    && (forall u: nat :: u < |vis| && vis[u] != WHITE ==> Reachable(g, u))
    && (forall e :: e in back ==> Edge(g, e.0, e.1) && vis[e.0] != WHITE && vis[e.1] != WHITE)
  }

  ghost predicate EndsOk(g: Graph, stack: seq<Frame>, po: seq<nat>) {
    if |stack| > 0 then stack[0].blk == g.entry else |po| > 0 && po[|po| - 1] == g.entry
  }

  ghost predicate DfsInv(g: Graph, vis: seq<int>, stack: seq<Frame>, po: seq<nat>, back: seq<(nat, nat)>)
    requires g.entry < |g.succs|
  {
    && ColoursOk(g, vis, stack, po)
    && StackOk(g, stack)
    && EndsOk(g, stack, po)
    && OpenOk(g, vis, stack, back)
    && DoneOk(g, vis, po, back)
    && VisitedOk(g, vis, back)
  }

  lemma DfsStart(g: Graph, vis: seq<int>)
    requires g.entry < |g.succs| && |vis| == |g.succs|
    requires forall u :: 0 <= u < |vis| ==> vis[u] == if u == g.entry then GREY else WHITE
    ensures DfsInv(g, vis, [Frame(g.entry, 0)], [], [])
  {
    EntryReachable(g);
    var stack := [Frame(g.entry, 0)];
    assert stack[0].blk == g.entry;
  }

  /** The frame on top, with its next successor taken. */
  function Advance(stack: seq<Frame>): (r: seq<Frame>)
    requires |stack| > 0
    ensures |r| == |stack|
    ensures forall i :: 0 <= i < |r| ==> r[i].blk == stack[i].blk
  {
    var t := |stack| - 1;
    stack[t := Frame(stack[t].blk, stack[t].succ + 1)]
  }

  ghost predicate TopTakes(g: Graph, stack: seq<Frame>, s: nat) {
    && |stack| > 0
    && var f := stack[|stack| - 1];
       f.blk < |g.succs| && f.succ < |g.succs[f.blk]| && g.succs[f.blk][f.succ] == s
  }

  /** Looking at a successor that is already finished, or is no block. */
  lemma DfsSkip(g: Graph, vis: seq<int>, stack: seq<Frame>, po: seq<nat>, back: seq<(nat, nat)>, s: nat)
    requires g.entry < |g.succs| && DfsInv(g, vis, stack, po, back)
    requires TopTakes(g, stack, s)
    requires s < |vis| ==> vis[s] == BLACK
    ensures DfsInv(g, vis, Advance(stack), po, back)
  {
    AdvanceColours(g, vis, stack, po, s);
    OpenSkip(g, vis, stack, back, s);
  }

  lemma AdvanceColours(g: Graph, vis: seq<int>, stack: seq<Frame>, po: seq<nat>, s: nat)
    requires ColoursOk(g, vis, stack, po) && StackOk(g, stack)
    requires TopTakes(g, stack, s)
    ensures ColoursOk(g, vis, Advance(stack), po) && StackOk(g, Advance(stack))
  {
    var stack' := Advance(stack);
    SameBlocksColours(g, vis, stack, stack', po);
    forall i | 0 <= i < |stack'| - 1
      ensures stack'[i].succ > 0 && g.succs[stack'[i].blk][stack'[i].succ - 1] == stack'[i + 1].blk
    {
      assert stack'[i] == stack[i] && stack'[i + 1].blk == stack[i + 1].blk;
    }
  }

  lemma SameBlocksColours(g: Graph, vis: seq<int>, stack: seq<Frame>, stack': seq<Frame>, po: seq<nat>)
    requires ColoursOk(g, vis, stack, po) && |stack'| == |stack|
    requires forall i :: 0 <= i < |stack| ==>
               stack'[i].blk == stack[i].blk && stack'[i].succ <= |g.succs[stack[i].blk]|
    ensures ColoursOk(g, vis, stack', po)
  {
    forall u | 0 <= u < |vis| && vis[u] == GREY ensures exists i :: 0 <= i < |stack'| && stack'[i].blk == u {
      var i :| 0 <= i < |stack| && stack[i].blk == u;
      assert stack'[i].blk == u;
    }
  }

  lemma OpenSkip(g: Graph, vis: seq<int>, stack: seq<Frame>, back: seq<(nat, nat)>, s: nat)
    requires |vis| == |g.succs|
    requires forall i :: 0 <= i < |stack| ==> stack[i].blk < |g.succs| && stack[i].succ <= |g.succs[stack[i].blk]|
    requires OpenOk(g, vis, stack, back) && TopTakes(g, stack, s)
    requires s < |vis| ==> vis[s] == BLACK || (stack[|stack| - 1].blk, s) in back
    ensures OpenOk(g, vis, Advance(stack), back)
  {
    var stack' := Advance(stack);
    forall i, k | 0 <= i < |stack'| && 0 <= k < stack'[i].succ && g.succs[stack'[i].blk][k] < |vis|
      ensures SeenFromOpen(vis, stack', back, i, g.succs[stack'[i].blk][k])
    {
      if i < |stack| - 1 || k < stack[|stack| - 1].succ {
        assert SeenFromOpen(vis, stack, back, i, g.succs[stack[i].blk][k]);
      }
    }
    forall i | 0 <= i < |stack'| ensures BackOpen(stack', back, i) {
      BackOpenSame(stack, stack', back, i);
    }
  }

  lemma BackOpenSame(stack: seq<Frame>, stack': seq<Frame>, back: seq<(nat, nat)>, i: nat)
    requires i < |stack| && i < |stack'| && BackOpen(stack, back, i)
    requires forall j :: 0 <= j <= i ==> stack'[j].blk == stack[j].blk
    ensures BackOpen(stack', back, i)
  {
    forall v | (stack'[i].blk, v) in back ensures exists j :: 0 <= j <= i && stack'[j].blk == v {
      var j :| 0 <= j <= i && stack[j].blk == v;
      assert stack'[j].blk == v;
    }
  }

  /** Looking at a successor that is still open records a back edge. */
  lemma DfsBack(g: Graph, vis: seq<int>, stack: seq<Frame>, po: seq<nat>, back: seq<(nat, nat)>, s: nat)
    requires g.entry < |g.succs| && DfsInv(g, vis, stack, po, back)
    requires TopTakes(g, stack, s) && s < |vis| && vis[s] == GREY
    ensures DfsInv(g, vis, Advance(stack), po, back + [(stack[|stack| - 1].blk, s)])
  {
    var u := stack[|stack| - 1].blk;
    var back' := back + [(u, s)];
    AdvanceColours(g, vis, stack, po, s);
    assert OpenOk(g, vis, stack, back') by {
      forall i | 0 <= i < |stack| ensures BackOpen(stack, back', i) {
        assert BackOpen(stack, back, i);
      }
      forall i, k | 0 <= i < |stack| && 0 <= k < stack[i].succ && g.succs[stack[i].blk][k] < |vis|
        ensures SeenFromOpen(vis, stack, back', i, g.succs[stack[i].blk][k])
      {
        assert SeenFromOpen(vis, stack, back, i, g.succs[stack[i].blk][k]);
      }
    }
    OpenSkip(g, vis, stack, back', s);
    forall x | 0 <= x < |po| ensures SeenFromDone(g, vis, po, back', x) {
      assert SeenFromDone(g, vis, po, back, x);
      assert po[x] != u;
    }
    assert Edge(g, u, s);
  }

  /** Looking at a fresh successor opens it; the stack stays within the block count. */
  lemma DfsPush(g: Graph, vis: seq<int>, stack: seq<Frame>, po: seq<nat>, back: seq<(nat, nat)>, s: nat)
    requires g.entry < |g.succs| && DfsInv(g, vis, stack, po, back)
    requires TopTakes(g, stack, s) && s < |vis| && vis[s] == WHITE
    ensures |stack| < |g.succs|
    ensures DfsInv(g, vis[s := GREY], Advance(stack) + [Frame(s, 0)], po, back)
  {
    hide SeenFromOpen, BackOpen, SeenFromDone, HasParent, IsPath;
    AdvanceColours(g, vis, stack, po, s);
    PushColours(g, vis, Advance(stack), po, s);
    PushOpen(g, vis, stack, back, s);
    PushDone(g, vis, po, back, s);
    assert Edge(g, stack[|stack| - 1].blk, s);
    ReachableEdge(g, stack[|stack| - 1].blk, s);
  }

  lemma PushColours(g: Graph, vis: seq<int>, stack: seq<Frame>, po: seq<nat>, s: nat)
    requires ColoursOk(g, vis, stack, po) && s < |vis| && vis[s] == WHITE
    ensures |stack| < |g.succs|
    ensures ColoursOk(g, vis[s := GREY], stack + [Frame(s, 0)], po)
  {
    var stack' := stack + [Frame(s, 0)];
    var vis' := vis[s := GREY];
    NoDuplicatesBounded(Blocks(stack'), |g.succs|);
    assert stack'[|stack|].blk == s;
    forall v | 0 <= v < |vis'| && vis'[v] == GREY ensures exists i :: 0 <= i < |stack'| && stack'[i].blk == v {
      if v != s {
        var i :| 0 <= i < |stack| && stack[i].blk == v;
        assert stack'[i].blk == v;
      }
    }
  }

  lemma PushOpen(g: Graph, vis: seq<int>, stack: seq<Frame>, back: seq<(nat, nat)>, s: nat)
    requires |vis| == |g.succs|
    requires forall i :: 0 <= i < |stack| ==> stack[i].blk < |g.succs| && stack[i].succ <= |g.succs[stack[i].blk]|
    requires OpenOk(g, vis, stack, back) && TopTakes(g, stack, s)
    requires s < |vis| && vis[s] == WHITE
    requires forall v :: (s, v) !in back
    ensures OpenOk(g, vis[s := GREY], Advance(stack) + [Frame(s, 0)], back)
  {
    var t := |stack| - 1;
    var stack', vis' := Advance(stack) + [Frame(s, 0)], vis[s := GREY];
    forall i, k | 0 <= i < |stack'| && 0 <= k < stack'[i].succ && g.succs[stack'[i].blk][k] < |vis'|
      ensures SeenFromOpen(vis', stack', back, i, g.succs[stack'[i].blk][k])
    {
      if i < t || (i == t && k < stack[t].succ) {
        assert SeenFromOpen(vis, stack, back, i, g.succs[stack[i].blk][k]);
      }
    }
    forall i | 0 <= i < |stack'| ensures BackOpen(stack', back, i) {
      if i <= t { BackOpenSame(stack, stack', back, i); }
    }
  }

  lemma PushDone(g: Graph, vis: seq<int>, po: seq<nat>, back: seq<(nat, nat)>, s: nat)
    requires |vis| == |g.succs| && DoneOk(g, vis, po, back) && s < |vis| && vis[s] == WHITE
    ensures DoneOk(g, vis[s := GREY], po, back)
  {
    var vis' := vis[s := GREY];
    forall x | 0 <= x < |po| ensures SeenFromDone(g, vis', po, back, x) {
      assert SeenFromDone(g, vis, po, back, x);
    }
    forall x | 0 <= x < |po| ensures HasParent(g, vis', po, x) {
      assert HasParent(g, vis, po, x);
      if po[x] != g.entry {
        var u: nat :| u < |vis| && Edge(g, u, po[x]) && (vis[u] == GREY || exists y :: x < y < |po| && po[y] == u);
        assert vis'[u] == GREY || exists y :: x < y < |po| && po[y] == u;
      }
    }
  }

  /** The top block has no successor left: it is finished. */
  lemma DfsPop(g: Graph, vis: seq<int>, stack: seq<Frame>, po: seq<nat>, back: seq<(nat, nat)>)
    requires g.entry < |g.succs| && DfsInv(g, vis, stack, po, back)
    requires |stack| > 0 && stack[|stack| - 1].succ == |g.succs[stack[|stack| - 1].blk]|
    ensures |po| < |g.succs|
    ensures var u := stack[|stack| - 1].blk;
            DfsInv(g, vis[u := BLACK], stack[..|stack| - 1], po + [u], back)
  {
    hide SeenFromOpen, BackOpen, SeenFromDone, HasParent, IsPath;
    var t := |stack| - 1;
    var u := stack[t].blk;
    PopColours(g, vis, stack, po);
    PopOpen(g, vis, stack, back);
    PopDone(g, vis, stack, po, back);
    hide ColoursOk, OpenOk, DoneOk;
  }

  lemma PopDone(g: Graph, vis: seq<int>, stack: seq<Frame>, po: seq<nat>, back: seq<(nat, nat)>)
    requires g.entry < |g.succs| && DfsInv(g, vis, stack, po, back)
    requires |stack| > 0 && stack[|stack| - 1].succ == |g.succs[stack[|stack| - 1].blk]|
    ensures var u := stack[|stack| - 1].blk; DoneOk(g, vis[u := BLACK], po + [u], back)
  {
    hide SeenFromDone, HasParent, DfsInv;
    DfsTop(g, vis, stack, po, back);
    var u := stack[|stack| - 1].blk;
    var vis', po' := vis[u := BLACK], po + [u];
    forall x | 0 <= x < |po'| ensures SeenFromDone(g, vis', po', back, x) {
      PopSeen(g, vis, stack, po, back, x);
    }
    forall x | 0 <= x < |po'| ensures HasParent(g, vis', po', x) {
      PopParent(g, vis, stack, po, back, x);
    }
  }

  lemma PopColours(g: Graph, vis: seq<int>, stack: seq<Frame>, po: seq<nat>)
    requires ColoursOk(g, vis, stack, po) && |stack| > 0
    ensures |po| < |g.succs|
    ensures var u := stack[|stack| - 1].blk;
            ColoursOk(g, vis[u := BLACK], stack[..|stack| - 1], po + [u])
  {
    var t := |stack| - 1;
    var u := stack[t].blk;
    var vis', stack', po' := vis[u := BLACK], stack[..t], po + [u];
    NoDuplicatesBounded(po', |g.succs|);
    forall v | 0 <= v < |vis'| && vis'[v] == GREY ensures exists i :: 0 <= i < |stack'| && stack'[i].blk == v {
      var i :| 0 <= i < |stack| && stack[i].blk == v;
      assert stack'[i].blk == v;
    }
    assert po'[|po|] == u;
    forall v | 0 <= v < |vis'| && vis'[v] == BLACK ensures v in po' {
      if v != u { assert v in po; }
    }
  }

  lemma PopOpen(g: Graph, vis: seq<int>, stack: seq<Frame>, back: seq<(nat, nat)>)
    requires |vis| == |g.succs| && |stack| > 0
    requires forall i :: 0 <= i < |stack| ==> stack[i].blk < |g.succs| && stack[i].succ <= |g.succs[stack[i].blk]|
    requires OpenOk(g, vis, stack, back)
    ensures var u := stack[|stack| - 1].blk; OpenOk(g, vis[u := BLACK], stack[..|stack| - 1], back)
  {
    var stack' := stack[..|stack| - 1];
    var vis' := vis[stack[|stack| - 1].blk := BLACK];
    forall i, k | 0 <= i < |stack'| && 0 <= k < stack'[i].succ && g.succs[stack'[i].blk][k] < |vis'|
      ensures SeenFromOpen(vis', stack', back, i, g.succs[stack'[i].blk][k])
    {
      assert SeenFromOpen(vis, stack, back, i, g.succs[stack[i].blk][k]);
    }
    forall i | 0 <= i < |stack'| ensures BackOpen(stack', back, i) {
      BackOpenSame(stack, stack', back, i);
    }
  }

  lemma PopSeen(g: Graph, vis: seq<int>, stack: seq<Frame>, po: seq<nat>, back: seq<(nat, nat)>, x: nat)
    requires g.entry < |g.succs| && DfsInv(g, vis, stack, po, back)
    requires |stack| > 0 && stack[|stack| - 1].succ == |g.succs[stack[|stack| - 1].blk]|
    requires x <= |po|
    ensures var u := stack[|stack| - 1].blk; SeenFromDone(g, vis[u := BLACK], po + [u], back, x)
  {
    var t := |stack| - 1;
    var u := stack[t].blk;
    var vis', po' := vis[u := BLACK], po + [u];
    if x < |po| {
      assert SeenFromDone(g, vis, po, back, x);
    } else {
      forall v: nat | v < |vis'| && Edge(g, u, v)
        ensures (vis[v] == BLACK && (u, v) !in back) || (vis[v] == GREY && (u, v) in back)
      {
        var k :| 0 <= k < |g.succs[u]| && g.succs[u][k] == v;
        assert SeenFromOpen(vis, stack, back, t, v);
        assert BackOpen(stack, back, t);
      }
    }
  }

  lemma PopParent(g: Graph, vis: seq<int>, stack: seq<Frame>, po: seq<nat>, back: seq<(nat, nat)>, x: nat)
    requires g.entry < |g.succs| && DfsInv(g, vis, stack, po, back)
    requires |stack| > 0 && stack[|stack| - 1].succ == |g.succs[stack[|stack| - 1].blk]|
    requires x <= |po|
    ensures var u := stack[|stack| - 1].blk; HasParent(g, vis[u := BLACK], po + [u], x)
  {
    var t := |stack| - 1;
    var u := stack[t].blk;
    var vis', po' := vis[u := BLACK], po + [u];
    assert po'[|po|] == u;
    if x < |po| && po[x] != g.entry {
      assert HasParent(g, vis, po, x);
      var w: nat :| w < |vis| && Edge(g, w, po[x]) && (vis[w] == GREY || exists y :: x < y < |po| && po[y] == w);
      if vis[w] == GREY {
        if w == u { assert x < |po| < |po'| && po'[|po|] == w; }
      } else {
        var y :| x < y < |po| && po[y] == w;
        assert po'[y] == w;
      }
    } else if x == |po| && u != g.entry {
      var w := stack[t - 1].blk;
      assert Edge(g, w, u);
      assert vis'[w] == GREY;
    }
  }

  /** At the end the finished blocks are exactly the reachable ones. */
  lemma DfsDone(g: Graph, vis: seq<int>, po: seq<nat>, back: seq<(nat, nat)>, b: nat)
    requires g.entry < |g.succs| && DfsInv(g, vis, [], po, back)
    ensures b in po <==> Reachable(g, b)
  {
    if b in po {
      assert vis[b] == BLACK;
    }
    if Reachable(g, b) {
      var p :| PathTo(g, p, b);
      var s := set v | v in po;
      forall u, v | u in s && Edge(g, u, v) ensures v in s {
        var x :| 0 <= x < |po| && po[x] == u;
        assert SeenFromDone(g, vis, po, back, x);
      }
      ClosedHoldsReachable(g, s, p, b);
    }
  }

  // ---------------------------------------------------------------- results

  /** order lists the reachable blocks in reverse post-order and index is its inverse, -1 elsewhere. */
  ghost predicate IsRpo(g: Graph, order: seq<nat>, index: seq<int>) {
    && |index| == |g.succs|
    && NoDuplicates(order)
    && |order| > 0 && order[0] == g.entry
    && (forall b :: b in order <==> Reachable(g, b))
    && (forall i :: 0 <= i < |order| ==> order[i] < |g.succs| && index[order[i]] == i)
    && (forall b :: 0 <= b < |index| && b !in order ==> index[b] == -1)
    && (forall i :: 0 < i < |order| ==> HasEarlierPred(g, index, order[i]))
  }

  /** Some predecessor of b comes earlier in the order. */
  ghost predicate HasEarlierPred(g: Graph, index: seq<int>, b: nat) {
    exists u :: 0 <= u < |index| && Edge(g, u, b) && b < |index| && 0 <= index[u] < index[b]
  }

  datatype CfgInfo = CfgInfo(postOrder: seq<nat>, rpo: seq<nat>, rpoIndex: seq<int>,
                             isReachable: seq<bool>, loopHeaders: seq<bool>, backEdges: seq<(nat, nat)>)

  /** An edge out of a reachable block is recorded as a back edge exactly when it does not ascend. */
  ghost predicate BackEdgesExact(g: Graph, index: seq<int>, back: seq<(nat, nat)>)
    requires |index| == |g.succs|
  {
    && (forall e :: e in back ==> Edge(g, e.0, e.1) && Reachable(g, e.0))
    && (forall u: nat, v: nat :: Reachable(g, u) && Edge(g, u, v) && u < |index| ==>
          ((u, v) in back <==> index[v] <= index[u]))
  }

  ghost function WhiteSet(vis: seq<int>): set<nat> {
    set u: nat | u < |vis| && vis[u] == WHITE
  }

  /** Successors still to be looked at from the open blocks. */
  ghost function Remaining(g: Graph, stack: seq<Frame>): nat {
    if stack == [] then 0
    else
      var f := stack[|stack| - 1];
      Remaining(g, stack[..|stack| - 1]) +
      if f.blk < |g.succs| && f.succ <= |g.succs[f.blk]| then |g.succs[f.blk]| - f.succ else 0
  }

  lemma TakeTop(g: Graph, stack: seq<Frame>)
    requires |stack| > 0
    requires var f := stack[|stack| - 1]; f.blk < |g.succs| && f.succ < |g.succs[f.blk]|
    ensures var f := stack[|stack| - 1]; TopTakes(g, stack, g.succs[f.blk][f.succ])
    ensures Remaining(g, Advance(stack)) < Remaining(g, stack)
  {
    assert Advance(stack)[..|stack| - 1] == stack[..|stack| - 1];
  }

  lemma RemainingPop(g: Graph, stack: seq<Frame>)
    requires |stack| > 0
    ensures Remaining(g, stack[..|stack| - 1]) <= Remaining(g, stack)
  {
  }

  lemma WhiteSetUpdate(vis: seq<int>, u: nat, c: int)
    requires u < |vis| && c != WHITE
    ensures vis[u] != WHITE ==> WhiteSet(vis[u := c]) == WhiteSet(vis)
    ensures vis[u] == WHITE ==> WhiteSet(vis[u := c]) < WhiteSet(vis)
  {
    var w, w' := WhiteSet(vis), WhiteSet(vis[u := c]);
    assert w' == w - {u};
    if vis[u] == WHITE { assert u in w && u !in w'; }
  }

  /** The depth-first search with an explicit stack (src/analysis/cfg.c). */
  method BuildCfgInfo(g: Graph) returns (info: CfgInfo)
    requires g.entry < |g.succs|
    ensures IsRpo(g, info.rpo, info.rpoIndex)
    ensures |info.postOrder| == |info.rpo|
    ensures forall i :: 0 <= i < |info.rpo| ==> info.rpo[i] == info.postOrder[|info.rpo| - 1 - i]
    ensures |info.isReachable| == |g.succs|
    ensures forall b: nat :: b < |g.succs| ==> (info.isReachable[b] <==> Reachable(g, b))
    ensures BackEdgesExact(g, info.rpoIndex, info.backEdges)
    ensures |info.loopHeaders| == |g.succs|
    ensures forall v: nat :: v < |g.succs| ==> (info.loopHeaders[v] <==> exists u: nat :: (u, v) in info.backEdges)
  {
    hide DfsInv, Reachable, Edge;
    var n := |g.succs|;
    var loopHeaders := new bool[n](_ => false);
    var postOrder, back, vis := DepthFirst(g, loopHeaders);
    var headers := loopHeaders[..];
    PostOrderFacts(g, vis, postOrder, back);
    var rpoIndex := new int[n](_ => -1);
    var isReachable := new bool[n](_ => false);
    forall b ensures b in postOrder <==> Reachable(g, b) {
      DfsDone(g, vis, postOrder, back, b);
    }
    var poCount := |postOrder|;
    var rpo: seq<nat> := [];
    var i := 0;
    while i < poCount
      invariant 0 <= i <= poCount
      invariant |rpo| == i && forall k :: 0 <= k < i ==> rpo[k] == postOrder[poCount - 1 - k]
      invariant forall k :: 0 <= k < i ==> rpoIndex[rpo[k]] == k
      invariant forall b :: 0 <= b < n && b !in rpo ==> rpoIndex[b] == -1
      invariant forall b :: 0 <= b < n ==> (isReachable[b] <==> b in rpo)
    {
      var b := postOrder[poCount - 1 - i];
      assert b !in rpo;
      ghost var rpo0 := rpo;
      rpo := rpo + [b];
      assert forall c :: c in rpo <==> c in rpo0 || c == b;
      rpoIndex[b] := i;
      isReachable[b] := true;
      i := i + 1;
    }
    SameMembers(postOrder, rpo);
    RpoFromPostOrder(g, vis, postOrder, back, rpo, rpoIndex[..]);
    BackFromPostOrder(g, vis, postOrder, back, rpo, rpoIndex[..]);
    info := CfgInfo(postOrder, rpo, rpoIndex[..], isReachable[..], headers, back);
  }

  lemma PostOrderFacts(g: Graph, vis: seq<int>, po: seq<nat>, back: seq<(nat, nat)>)
    requires g.entry < |g.succs| && DfsInv(g, vis, [], po, back)
    ensures NoDuplicates(po) && forall i :: 0 <= i < |po| ==> po[i] < |g.succs|
  {
  }

  lemma SameMembers(po: seq<nat>, rpo: seq<nat>)
    requires |rpo| == |po| && forall k :: 0 <= k < |po| ==> rpo[k] == po[|po| - 1 - k]
    ensures forall k :: 0 <= k < |po| ==> po[k] == rpo[|po| - 1 - k]
    ensures forall b :: b in rpo <==> b in po
  {
    assert forall k :: 0 <= k < |po| ==> po[k] == rpo[|po| - 1 - k];
  }

  lemma DfsTop(g: Graph, vis: seq<int>, stack: seq<Frame>, po: seq<nat>, back: seq<(nat, nat)>)
    requires g.entry < |g.succs| && DfsInv(g, vis, stack, po, back) && |stack| > 0
    ensures stack[|stack| - 1].blk < |g.succs|
    ensures stack[|stack| - 1].succ <= |g.succs[stack[|stack| - 1].blk]|
    ensures |vis| == |g.succs| && vis[stack[|stack| - 1].blk] == GREY
  {
  }

  lemma DfsColour(g: Graph, vis: seq<int>, stack: seq<Frame>, po: seq<nat>, back: seq<(nat, nat)>, u: nat)
    requires g.entry < |g.succs| && DfsInv(g, vis, stack, po, back) && u < |vis|
    ensures vis[u] == WHITE || vis[u] == GREY || vis[u] == BLACK
  {
  }

  /** The marked blocks are the targets of the recorded edges. */
  ghost predicate HeadersAre(headers: seq<bool>, back: seq<(nat, nat)>) {
    forall v: nat :: v < |headers| ==> (headers[v] <==> exists u: nat :: (u, v) in back)
  }

  lemma NoHeaders(headers: seq<bool>)
    requires forall v :: 0 <= v < |headers| ==> !headers[v]
    ensures HeadersAre(headers, [])
  {
  }

  lemma HeaderMarked(headers: seq<bool>, back: seq<(nat, nat)>, u: nat, v: nat)
    requires HeadersAre(headers, back) && v < |headers|
    ensures HeadersAre(headers[v := true], back + [(u, v)])
  {
    var more := back + [(u, v)];
    assert forall e :: e in more <==> e in back || e == (u, v);
    assert (u, v) in more;
  }

  lemma HeadersMean(headers: seq<bool>, back: seq<(nat, nat)>)
    requires HeadersAre(headers, back)
    ensures forall v: nat :: v < |headers| ==> (headers[v] <==> exists u: nat :: (u, v) in back)
  {
  }

  /** The loop of the search: every block is opened once and finished once. */
  method DepthFirst(g: Graph, loopHeaders: array<bool>)
    returns (postOrder: seq<nat>, back: seq<(nat, nat)>, ghost vis: seq<int>)
    requires g.entry < |g.succs| && loopHeaders.Length == |g.succs|
    requires forall v :: 0 <= v < loopHeaders.Length ==> !loopHeaders[v]
    modifies loopHeaders
    ensures DfsInv(g, vis, [], postOrder, back)
    ensures forall v: nat :: v < |g.succs| ==> (loopHeaders[v] <==> exists u: nat :: (u, v) in back)
  {
    hide DfsInv, WhiteSet, Remaining, TopTakes, HeadersAre;
    var n := |g.succs|;
    var visited := new int[n](_ => WHITE);
    var stack := new Frame[n](_ => Frame(0, 0));
    var tempPo := new nat[n](_ => 0);
    var poCount := 0;
    back := [];

    visited[g.entry] := GREY;
    stack[0] := Frame(g.entry, 0);
    var top := 1;
    DfsStart(g, visited[..]);
    assert stack[..top] == [Frame(g.entry, 0)];
    assert tempPo[..poCount] == [];
    NoHeaders(loopHeaders[..]);

    while top > 0
      invariant 0 <= top <= n && 0 <= poCount <= n
      invariant DfsInv(g, visited[..], stack[..top], tempPo[..poCount], back)
      invariant HeadersAre(loopHeaders[..], back)
      decreases WhiteSet(visited[..]), Remaining(g, stack[..top]), top
    {
      var f := stack[top - 1];
      ghost var stk, v0, po := stack[..top], visited[..], tempPo[..poCount];
      assert f == stk[|stk| - 1];
      DfsTop(g, v0, stk, po, back);
      assert v0[f.blk] == GREY;
      if f.succ < |g.succs[f.blk]| {
        var s := g.succs[f.blk][f.succ];
        stack[top - 1] := Frame(f.blk, f.succ + 1);
        assert stack[..top] == Advance(stk);
        TakeTop(g, stk);
        if s < n && visited[s] == GREY {
          DfsBack(g, v0, stk, po, back, s);
          HeaderMarked(loopHeaders[..], back, f.blk, s);
          back := back + [(f.blk, s)];
          ghost var headers := loopHeaders[..];
          loopHeaders[s] := true;
          assert loopHeaders[..] == headers[s := true];
        } else if s < n && visited[s] == WHITE {
          DfsPush(g, v0, stk, po, back, s);
          visited[s] := GREY;
          stack[top] := Frame(s, 0);
          top := top + 1;
          assert stack[..top] == Advance(stk) + [Frame(s, 0)];
          assert visited[..] == v0[s := GREY];
          WhiteSetUpdate(v0, s, GREY);
        } else {
          if s < n { DfsColour(g, v0, stk, po, back, s); }
          DfsSkip(g, v0, stk, po, back, s);
        }
      } else {
        DfsPop(g, v0, stk, po, back);
        visited[f.blk] := BLACK;
        tempPo[poCount] := f.blk;
        poCount := poCount + 1;
        top := top - 1;
        assert visited[..] == v0[f.blk := BLACK];
        assert tempPo[..poCount] == po + [f.blk];
        assert stack[..top] == stk[..|stk| - 1];
        WhiteSetUpdate(v0, f.blk, BLACK);
        RemainingPop(g, stk);
      }
    }
    assert stack[..0] == [];
    HeadersMean(loopHeaders[..], back);
    postOrder, vis := tempPo[..poCount], visited[..];
  }

  lemma RpoFromPostOrder(g: Graph, vis: seq<int>, po: seq<nat>, back: seq<(nat, nat)>, rpo: seq<nat>, index: seq<int>)
    requires g.entry < |g.succs| && DfsInv(g, vis, [], po, back)
    requires |rpo| == |po| && forall k :: 0 <= k < |po| ==> po[k] == rpo[|po| - 1 - k]
    requires |index| == |g.succs| && forall k :: 0 <= k < |rpo| ==> rpo[k] < |index| && index[rpo[k]] == k
    requires forall b :: 0 <= b < |index| && b !in rpo ==> index[b] == -1
    requires forall b :: b in rpo <==> b in po
    requires forall b :: b in po <==> Reachable(g, b)
    ensures IsRpo(g, rpo, index)
  {
    var n := |po|;
    assert rpo[0] == po[n - 1] by { assert po[n - 1] == rpo[n - 1 - (n - 1)]; }
    forall i | 0 < i < n ensures HasEarlierPred(g, index, rpo[i]) {
      var x := n - 1 - i;
      assert po[x] == rpo[i];
      assert HasParent(g, vis, po, x);
      var u: nat :| u < |vis| && Edge(g, u, po[x]) && (vis[u] == GREY || exists y :: x < y < |po| && po[y] == u);
      var y :| x < y < |po| && po[y] == u;
      assert po[y] == rpo[n - 1 - y];
      assert index[u] == n - 1 - y;
    }
  }

  lemma BackFromPostOrder(g: Graph, vis: seq<int>, po: seq<nat>, back: seq<(nat, nat)>, rpo: seq<nat>, index: seq<int>)
    requires g.entry < |g.succs| && DfsInv(g, vis, [], po, back)
    requires |rpo| == |po| && forall k :: 0 <= k < |po| ==> po[k] == rpo[|po| - 1 - k]
    requires |index| == |g.succs| && forall k :: 0 <= k < |rpo| ==> rpo[k] < |index| && index[rpo[k]] == k
    requires forall b :: b in po <==> Reachable(g, b)
    ensures BackEdgesExact(g, index, back)
  {
    forall u: nat, v: nat | Reachable(g, u) && Edge(g, u, v) && u < |index|
      ensures (u, v) in back <==> index[v] <= index[u]
    {
      ReachableEdge(g, u, v);
      assert u in po && v in po;
      var x :| 0 <= x < |po| && po[x] == u;
      var y :| 0 <= y < |po| && po[y] == v;
      assert SeenFromDone(g, vis, po, back, x);
      assert Edge(g, po[x], po[y]);
      assert index[po[x]] == |po| - 1 - x && index[po[y]] == |po| - 1 - y;
    }
  }

  /** Every cycle of reachable blocks goes through a recorded back edge, so dropping back edges leaves a DAG. */
  lemma {:induction false} CycleHasBackEdge(g: Graph, index: seq<int>, back: seq<(nat, nat)>, p: seq<nat>)
    requires |index| == |g.succs| && BackEdgesExact(g, index, back)
    requires IsPath(g, p) && |p| > 1 && p[0] == p[|p| - 1] && Reachable(g, p[0])
    ensures exists i :: 0 <= i < |p| - 1 && (p[i], p[i + 1]) in back
  {
    if forall i :: 0 <= i < |p| - 1 ==> (p[i], p[i + 1]) !in back {
      AscendAlong(g, index, back, p, |p| - 1);
    }
  }

  lemma {:induction false} AscendAlong(g: Graph, index: seq<int>, back: seq<(nat, nat)>, p: seq<nat>, k: nat)
    requires |index| == |g.succs| && BackEdgesExact(g, index, back)
    requires IsPath(g, p) && k < |p| && Reachable(g, p[0])
    requires forall i :: 0 <= i < |p| - 1 ==> (p[i], p[i + 1]) !in back
    ensures Reachable(g, p[k]) && (k > 0 ==> index[p[0]] < index[p[k]])
  {
    if k > 0 {
      AscendAlong(g, index, back, p, k - 1);
      assert Edge(g, p[k - 1], p[k - 1 + 1]);
      ReachableEdge(g, p[k - 1], p[k]);
      assert (p[k - 1], p[k - 1 + 1]) !in back;
    }
  }
}
