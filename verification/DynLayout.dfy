/** The planning loop as it runs: arrays of plans and slots, a growing import table, three counters. */
module DynLayout {
  import opened IntFold
  import opened Resolve
  import opened DynPlan

  class Context {
    const link: Link
    const plans: array<Plan>
    const slots: array<Option<nat>>
    var imports: seq<Import>
    var pltCount: nat
    var gotCount: nat
    var relaCount: nat

    ghost predicate Valid()
      reads this
    {
      plans.Length == slots.Length == |link.relocs|
    }

    constructor (link: Link)
      ensures Valid() && fresh(plans) && fresh(slots) && this.link == link && imports == []
    {
      this.link := link;
      plans := new Plan[|link.relocs|](_ => Static);
      slots := new Option<nat>[|link.relocs|](_ => None);
      imports := [];
      pltCount, gotCount, relaCount := 0, 0, 0;
    }

    /** The plan of the leading n relocations. */
    ghost function View(n: nat): Planned
      requires Valid() && n <= |link.relocs|
      reads this, plans, slots
    {
      Planned(seq(n, k requires 0 <= k < n reads this, plans, slots => Entry(plans[k], slots[k])), imports, pltCount,
              gotCount, relaCount)
    }

    /** import_find. */
    method FindImport(name: string) returns (found: Option<nat>)
      ensures found == ImportOf(link, imports, name)
    {
      var i := 0;
      while i < |imports|
        invariant 0 <= i <= |imports| && ImportOf(link, imports[..i], name) == None
      {
        assert imports[..i + 1][..i] == imports[..i];
        if NameOf(link, imports[i].sym) == name {
          assert ImportOf(link, imports[..i + 1], name) == Some(i);
          Prefix(imports[..i + 1], imports);
          ImportStays(link, imports[..i + 1], imports, name);
          return Some(i);
        }
        i := i + 1;
      }
      assert imports[..i] == imports;
      found := None;
    }

    lemma Prefix(a: seq<Import>, b: seq<Import>)
      requires a <= b
      ensures Grows(a, b)
    {
    }

    /** import_intern. */
    method Intern(sym: nat) returns (idx: nat)
      modifies `imports
      ensures (imports, idx) == Interned(link, old(imports), sym)
    {
      var name := NameOf(link, sym);
      var existing := FindImport(name);
      if existing.Some? { return existing.value; }
      var def := sym;
      var s := 0;
      while s < |link.syms|
        invariant 0 <= s <= |link.syms| && imports == old(imports) && def == sym
        invariant Provider(link, name, s) == None
      {
        if link.syms[s].base.isDynamic && link.syms[s].base.isDefined && link.syms[s].base.name == name {
          def := s;
          ProviderStays(name, s + 1, |link.syms|);
          break;
        }
        s := s + 1;
      }
      idx := |imports|;
      imports := imports + [Import(def, None, None)];
    }

    lemma {:induction false} ProviderStays(name: string, m: nat, n: nat)
      requires m <= n <= |link.syms| && Provider(link, name, m).Some?
      ensures Provider(link, name, n) == Provider(link, name, m)
      decreases n
    {
      if m < n { ProviderStays(name, m, n - 1); }
    }

    /** The body of the loop for relocation r, whose entry starts as STATIC. */
    method PlanOne(r: nat) returns (ok: bool)
      requires Valid() && r < |link.relocs|
      modifies this, plans, slots
      ensures plans[..r] == old(plans[..r]) && slots[..r] == old(slots[..r])
      ensures var to := Next(link, old(View(r)), link.relocs[r]);
              ok == to.Some? && (ok ==> Now(r, to.value))
    {
      hide Interned, NameOf, ImportOf, Provider, Writable;
      plans[r], slots[r] := Static, None;
      var reloc := link.relocs[r];
      if reloc.sym >= |link.syms| { return true; }
      var sym := link.syms[reloc.sym];
      var dynamicRef := sym.dynamic || (!sym.defined && link.isShared);
      var weakUndef := !sym.defined && sym.base.binding == WeakBinding;
      if weakUndef {
        if reloc.ty == X64Abs64 || reloc.ty == A64Abs64 { PlanWord(r, reloc.sym); }
        return true;
      }
      if !dynamicRef {
        if reloc.ty == X64Abs64 || reloc.ty == A64Abs64 {
          plans[r] := Relative;
          relaCount := relaCount + 1;
        }
        return true;
      }
      if reloc.ty == X64Abs64 || reloc.ty == A64Abs64 {
        if !Writable(link, reloc) {
          var imp := Intern(reloc.sym);
          return false;
        }
        PlanWord(r, reloc.sym);
        return true;
      }
      ok := PlanImported(r);
    }

    /** Interning the symbol and planning its absolute word. */
    method PlanWord(r: nat, sym: nat)
      requires Valid() && r < |link.relocs|
      modifies this, plans, slots
      ensures plans[..r] == old(plans[..r]) && slots[..r] == old(slots[..r])
      ensures Now(r, WithWord(link, old(View(r)), sym))
    {
      hide Interned;
      var imp := Intern(sym);
      plans[r], slots[r] := DynAbs64, Some(imp);
      relaCount := relaCount + 1;
    }

    /** The rest of the loop's body: a dynamic reference that is not an absolute word. */
    method PlanImported(r: nat) returns (ok: bool)
      requires Valid() && r < |link.relocs|
      requires plans[r] == Static && slots[r] == None
      requires RouteOf(link, link.relocs[r]) in {ImportGot, ImportPlt, ImportOnly, Refused}
               && !IsAbs64(link.relocs[r].ty)
      requires link.relocs[r].sym < |link.syms|
      modifies this, plans, slots
      ensures plans[..r] == old(plans[..r]) && slots[..r] == old(slots[..r])
      ensures var to := Next(link, old(View(r)), link.relocs[r]);
              ok == to.Some? && (ok ==> Now(r, to.value))
    {
      hide Interned, NameOf, ImportOf, Provider, Writable;
      var reloc := link.relocs[r];
      var imp := Intern(reloc.sym);
      if IsGotLoad(reloc.ty) {
        PlanGot(r, imp);
        return true;
      }
      if reloc.ty == X64Pc32 || reloc.ty == X64Plt32 {
        if reloc.ty == X64Plt32 || link.syms[reloc.sym].isFunction { PlanPlt(r, imp); } else { return false; }
      }
      if reloc.ty == A64Call26 || reloc.ty == A64Jump26 { PlanPlt(r, imp); }
      ok := true;
    }

    /** The fields, and the entry of relocation r, are those of to. */
    ghost predicate Now(r: nat, to: Planned)
      requires Valid() && r < |link.relocs|
      reads this, plans, slots
    {
      && imports == to.imports && pltCount == to.pltCount && gotCount == to.gotCount && relaCount == to.relaCount
      && |to.entries| == r + 1 && to.entries[r] == Entry(plans[r], slots[r])
    }

    method PlanGot(r: nat, imp: nat)
      requires Valid() && r < |link.relocs| && imp < |imports|
      modifies this, plans, slots
      ensures plans[..r] == old(plans[..r]) && slots[..r] == old(slots[..r])
      ensures Now(r, WithGot(old(View(r)), old(imports), imp))
    {
      if imports[imp].got == None {
        imports := imports[imp := imports[imp].(got := Some(gotCount))];
        gotCount := gotCount + 1;
        relaCount := relaCount + 1;
      }
      plans[r], slots[r] := GotLoad, imports[imp].got;
    }

    method PlanPlt(r: nat, imp: nat)
      requires Valid() && r < |link.relocs| && imp < |imports|
      modifies this, plans, slots
      ensures plans[..r] == old(plans[..r]) && slots[..r] == old(slots[..r])
      ensures Now(r, WithPlt(old(View(r)), old(imports), imp))
    {
      if imports[imp].plt == None {
        imports := imports[imp := imports[imp].(plt := Some(pltCount))];
        pltCount := pltCount + 1;
      }
      plans[r], slots[r] := PltCall, imports[imp].plt;
    }

    /** The loop; the counters start at 0, the imports are those of earlier layouts. */
    method PlanAll() returns (ok: bool)
      requires Valid()
      modifies this, plans, slots
      ensures var plan := PlanTo(link, old(imports), |link.relocs|);
              ok == plan.Some? && (ok ==> View(|link.relocs|) == plan.value)
    {
      hide Next;
      pltCount, gotCount, relaCount := 0, 0, 0;
      var r := 0;
      assert View(0) == Planned([], old(imports), 0, 0, 0);
      while r < |link.relocs|
        invariant 0 <= r <= |link.relocs|
        invariant PlanTo(link, old(imports), r) == Some(View(r))
      {
        ghost var was := View(r);
        ok := PlanOne(r);
        if !ok {
          RefusedStays(old(imports), r + 1, |link.relocs|);
          return;
        }
        assert View(r + 1).entries == Next(link, was, link.relocs[r]).value.entries by {
          NextExtends(was, link.relocs[r]);
        }
        r := r + 1;
      }
      ok := true;
    }

    /** The plan as the fields hold it. */
    method Result() returns (st: Planned)
      requires Valid()
      ensures st == View(|link.relocs|)
    {
      var entries := [];
      var k := 0;
      while k < |link.relocs|
        invariant 0 <= k <= |link.relocs| && entries == View(k).entries
      {
        entries := entries + [Entry(plans[k], slots[k])];
        k := k + 1;
      }
      st := Planned(entries, imports, pltCount, gotCount, relaCount);
    }

    lemma NextExtends(st: Planned, r: Reloc)
      requires Next(link, st, r).Some?
      ensures var to := Next(link, st, r).value;
              |to.entries| == |st.entries| + 1 && to.entries[..|st.entries|] == st.entries
    {
      hide Interned, NameOf, ImportOf;
    }

    lemma {:induction false} RefusedStays(start: seq<Import>, m: nat, n: nat)
      requires m <= n <= |link.relocs| && PlanTo(link, start, m) == None
      ensures PlanTo(link, start, n) == None
      decreases n
    {
      if m < n { RefusedStays(start, m, n - 1); }
    }
  }
}
