/** Dead-code elimination removes the same instructions in whatever order it finds them. */
module DceOrder {
  import opened Ir
  import opened IrEdit
  import opened RunEdits
  import opened Dce
  import opened DcePass

  /** What the pass may take out: a pure instruction whose result no live instruction reads. */
  ghost predicate Droppable(f: Function, i: nat) {
    IsPure(f, i) && Uses(f, f.insts[i].result.value) == 0
  }

  /** Each of ids was droppable when its turn came. */
  ghost predicate Drops(f: Function, ids: seq<nat>) {
    ids != [] ==> Drops(f, ids[..|ids| - 1]) && Droppable(RemoveAll(f, ids[..|ids| - 1]), ids[|ids| - 1])
  }

  ghost predicate NothingToDrop(f: Function) {
    forall i: nat :: !Droppable(f, i)
  }

  ghost function CountsOf(f: Function): (counts: seq<nat>)
    ensures |counts| == |f.vals| && Exact(f, counts)
  {
    seq(|f.vals|, v requires 0 <= v < |f.vals| => Uses(f, v))
  }

  lemma DropStep(f0: Function, f: Function, i: nat)
    requires Tidy(f) && LeftOf(f0, f) && Droppable(f, i)
    ensures CanRemove(f, i) && Tidy(RemoveInst(f, i)) && LeftOf(f0, RemoveInst(f, i))
  {
    var counts := CountsOf(f);
    DroppableIsDead(f, counts, i);
    hide Tidy, LeftOf, Exact, IsDead, Droppable, Closed, Removable, Removed, CanRemove, RemoveInst;
    DeadIsRemovable(f, counts, i);
    forall s | Closed(f0, s) ensures i !in s { DeadNotClosed(f0, f, counts, i, s); }
    RemovedFacts(f, i);
    var b: nat, n: nat :| Removed(f, i, b, n, RemoveInst(f, i)) && Removable(f, i, b, n);
    RemovedTidy(f, i, b, n, RemoveInst(f, i));
    RemovedLeft(f0, f, i, b, n, RemoveInst(f, i));
  }

  lemma DroppableIsDead(f: Function, counts: seq<nat>, i: nat)
    requires Exact(f, counts)
    ensures |counts| == |f.vals| && (Droppable(f, i) <==> IsDead(f, counts, i))
  {
    hide Uses, HasSideEffects;
    if IsPure(f, i) { assert counts[f.insts[i].result.value] == Uses(f, f.insts[i].result.value); }
  }

  lemma LeftAtStart(f: Function)
    ensures LeftOf(f, f)
  {
    hide IsPure, HasReader;
    forall s | Closed(f, s) ensures s <= Survivors(f) {
      forall i | i in s ensures Live(f, i) { }
    }
  }

  lemma {:induction false} DropsKeep(f: Function, ids: seq<nat>)
    requires Tidy(f) && Drops(f, ids)
    ensures AllRemovable(f, ids) && Tidy(RemoveAll(f, ids)) && LeftOf(f, RemoveAll(f, ids))
  {
    hide Tidy, LeftOf, Droppable, CanRemove, RemoveInst;
    if ids == [] {
      LeftAtStart(f);
    } else {
      DropsKeep(f, ids[..|ids| - 1]);
      DropStep(f, RemoveAll(f, ids[..|ids| - 1]), ids[|ids| - 1]);
    }
  }

  /** A sequence of removals cannot be extended exactly when the greatest closed set is what it left. */
  lemma MaximalIffGreatest(f: Function, ids: seq<nat>)
    requires Tidy(f) && Drops(f, ids)
    ensures NothingToDrop(RemoveAll(f, ids)) <==> IsGreatestClosed(f, Survivors(RemoveAll(f, ids)))
  {
    var g := RemoveAll(f, ids);
    DropsKeep(f, ids);
    hide RemoveAll, Drops, Tidy, AllRemovable;
    if NothingToDrop(g) {
      NothingLeft(f, g);
    } else {
      var i: nat :| Droppable(g, i);
      DroppableIsExtra(f, g, i);
    }
  }

  lemma NothingLeft(f: Function, g: Function)
    requires LeftOf(f, g) && NothingToDrop(g)
    ensures IsGreatestClosed(f, Survivors(g))
  {
    var counts := CountsOf(g);
    forall i: nat ensures !(i < |g.insts| && IsDead(g, counts, i)) { DroppableIsDead(g, counts, i); }
    hide LeftOf, Exact, IsGreatestClosed, Survivors;
    assert WorkOk(g, counts, [], {});
    NothingDead(f, g, counts);
  }

  lemma DroppableIsExtra(f: Function, g: Function, i: nat)
    requires LeftOf(f, g) && Droppable(g, i)
    ensures !IsGreatestClosed(f, Survivors(g))
  {
    var counts := CountsOf(g);
    DroppableIsDead(g, counts, i);
    hide LeftOf, Exact, IsDead, Droppable;
    if Closed(f, Survivors(g)) { DeadNotClosed(f, g, counts, i, Survivors(g)); }
    DroppableIsLive(g, i);
  }

  lemma DroppableIsLive(f: Function, i: nat)
    requires Droppable(f, i)
    ensures i in Survivors(f)
  {
  }

  /** So any two orders that drop until nothing is left to drop end in the same function. */
  lemma OrderIndependent(f: Function, ids: seq<nat>, ids': seq<nat>)
    requires Tidy(f) && Drops(f, ids) && Drops(f, ids')
    requires NothingToDrop(RemoveAll(f, ids)) && NothingToDrop(RemoveAll(f, ids'))
    ensures RemoveAll(f, ids) == RemoveAll(f, ids')
  {
    TidyCode(f);
    hide Tidy, Drops, NothingToDrop, RemoveAll, AllRemovable, IsGreatestClosed, Survivors, CodeOk, LeftOf;
    DropsKeep(f, ids);
    DropsKeep(f, ids');
    MaximalIffGreatest(f, ids);
    MaximalIffGreatest(f, ids');
    GreatestEndsAlike(f, ids, ids');
  }

  lemma TidyCode(f: Function)
    requires Tidy(f)
    ensures CodeOk(f)
  {
  }
}
