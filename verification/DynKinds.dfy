/** Which relocations the layout of src/nylink/nylink_layout.c plans how, and which it refuses. */
module DynKinds {
  import opened Resolve
  import opened DynPlan

  /** The symbol comes from a shared object, or is left to one by a shared output. */
  predicate External(l: Link, s: LinkSym) {
    s.dynamic || (!s.defined && l.isShared)
  }

  /** A weak symbol without a definition. */
  predicate Optional(s: LinkSym) {
    !s.defined && s.base.binding == WeakBinding
  }

  predicate IsWord(r: Reloc) {
    r.ty in {X64Abs64, A64Abs64}
  }

  /** The symbol has to be found by the loader. */
  predicate Imported(l: Link, r: Reloc) {
    r.sym < |l.syms| && External(l, l.syms[r.sym]) && !Optional(l.syms[r.sym])
  }

  /** A word outside the data section, or a distance to data, of an imported symbol. */
  predicate Unplannable(l: Link, r: Reloc) {
    && Imported(l, r)
    && ((IsWord(r) && !(r.sec < |l.secs| && l.secs[r.sec].outSec == 2))
        || (r.ty == X64Pc32 && !l.syms[r.sym].isFunction))
  }

  /** The plan a relocation gets. */
  predicate PlannedAs(l: Link, r: Reloc, plan: Plan) {
    && (plan == Relative <==> IsWord(r) && r.sym < |l.syms| && !External(l, l.syms[r.sym]) && !Optional(l.syms[r.sym]))
    && (plan == DynAbs64 <==> IsWord(r) && r.sym < |l.syms| && (External(l, l.syms[r.sym]) || Optional(l.syms[r.sym])))
    && (plan == GotLoad <==> Imported(l, r) && r.ty in {X64GotPcRel, A64AdrHi21, A64AddLo12, A64Ldst64, A64Ldst32})
    && (plan == PltCall <==> Imported(l, r) && r.ty in {X64Pc32, X64Plt32, A64Call26, A64Jump26})
  }

  lemma NextMeans(l: Link, st: Planned, r: Reloc)
    ensures Next(l, st, r).Some? <==> !Unplannable(l, r)
    ensures Next(l, st, r).Some? ==>
              var es := Next(l, st, r).value.entries;
              |es| == |st.entries| + 1 && es[..|st.entries|] == st.entries && PlannedAs(l, r, es[|st.entries|].plan)
  {
    hide ImportOf, NameOf, Provider, Interned;
  }

  /** A layout succeeds exactly when no relocation is unplannable. */
  lemma {:induction false} PlannableIff(l: Link, imports: seq<Import>, n: nat)
    requires n <= |l.relocs|
    ensures PlanTo(l, imports, n).Some? <==> forall k :: 0 <= k < n ==> !Unplannable(l, l.relocs[k])
  {
    hide Next, Unplannable, PlannedAs;
    if n > 0 {
      var was, r := PlanTo(l, imports, n - 1), l.relocs[n - 1];
      PlannableIff(l, imports, n - 1);
      if was.Some? { NextMeans(l, was.value, r); }
    }
  }

  /** It plans each relocation by its kind and its symbol. */
  lemma {:induction false} PlansMean(l: Link, imports: seq<Import>, n: nat, k: nat)
    requires k < n <= |l.relocs| && PlanTo(l, imports, n).Some?
    ensures |PlanTo(l, imports, n).value.entries| == n
    ensures PlannedAs(l, l.relocs[k], PlanTo(l, imports, n).value.entries[k].plan)
  {
    hide Next, Unplannable, PlannedAs;
    var was, r := PlanTo(l, imports, n - 1).value, l.relocs[n - 1];
    var now := PlanTo(l, imports, n).value;
    NextMeans(l, was, r);
    if k < n - 1 {
      PlansMean(l, imports, n - 1, k);
      assert now.entries[..|was.entries|][k] == now.entries[k];
    } else if n > 1 {
      PlansMean(l, imports, n - 1, 0);
    } else {
      assert PlanTo(l, imports, 0).value.entries == [];
    }
  }
}
