/**
 * Planning dynamic relocations in an ELF link: the loop over the relocations in src/nylink/nylink_layout.c, the
 * import table it fills, and the counts the output tables are sized by.
 */
module DynPlan {
  import opened IntFold
  import opened Resolve

  datatype RelocType =
    | NoReloc | X64Abs64 | X64Pc32 | X64Plt32 | X64GotPcRel
    | A64Call26 | A64Jump26 | A64AdrHi21 | A64AddLo12 | A64Ldst64 | A64Ldst32 | A64Abs64

  datatype Plan = Static | PltCall | GotLoad | Relative | DynAbs64

  datatype Reloc = Reloc(sec: nat, offset: nat, sym: nat, ty: RelocType, addend: int)

  /** A symbol and how it was resolved. */
  datatype LinkSym = LinkSym(base: Symbol, isFunction: bool, defined: bool, dynamic: bool)

  /** Where an input section went. */
  datatype Placed = Placed(outSec: nat, offset: nat, va: nat)

  datatype Link = Link(syms: seq<LinkSym>, relocs: seq<Reloc>, secs: seq<Placed>, isShared: bool)

  /** An imported symbol, its PLT slot and its GOT slot. */
  datatype Import = Import(sym: nat, plt: Option<nat>, got: Option<nat>)

  datatype Entry = Entry(plan: Plan, slot: Option<nat>)

  datatype Planned = Planned(entries: seq<Entry>, imports: seq<Import>, pltCount: nat, gotCount: nat, relaCount: nat)

  const DATA_SECTION := 2

  // ---------------------------------------------------------------- the import table

  function NameOf(l: Link, sym: nat): string {
    if sym < |l.syms| then l.syms[sym].base.name else ""
  }

  /** import_find: the first import of the name. */
  function ImportOf(l: Link, imports: seq<Import>, name: string): (i: Option<nat>)
    ensures i.Some? ==> i.value < |imports| && NameOf(l, imports[i.value].sym) == name
  {
    if imports == [] then None
    else
      var n := |imports| - 1;
      var i := ImportOf(l, imports[..n], name);
      if i.Some? then i
      else if NameOf(l, imports[n].sym) == name then Some(n)
      else None
  }

  /** The first of the leading n symbols that a shared object defines under the name. */
  function Provider(l: Link, name: string, n: nat): (s: Option<nat>)
    requires n <= |l.syms|
    ensures s.Some? ==> s.value < n && NameOf(l, s.value) == name
  {
    if n == 0 then None
    else
      var s := Provider(l, name, n - 1);
      if s.Some? then s
      else if l.syms[n - 1].base.isDynamic && l.syms[n - 1].base.isDefined && NameOf(l, n - 1) == name then Some(n - 1)
      else None
  }

  function Fresh(l: Link, sym: nat): Import {
    var s := Provider(l, NameOf(l, sym), |l.syms|);
    Import(if s.Some? then s.value else sym, None, None)
  }

  /** import_intern. */
  function Interned(l: Link, imports: seq<Import>, sym: nat): (r: (seq<Import>, nat))
    ensures r.1 < |r.0|
  {
    var i := ImportOf(l, imports, NameOf(l, sym));
    if i.Some? then (imports, i.value) else (imports + [Fresh(l, sym)], |imports|)
  }

  // ---------------------------------------------------------------- one relocation

  predicate IsAbs64(ty: RelocType) {
    ty == X64Abs64 || ty == A64Abs64
  }

  predicate IsGotLoad(ty: RelocType) {
    ty in {X64GotPcRel, A64AdrHi21, A64AddLo12, A64Ldst64, A64Ldst32}
  }

  predicate Writable(l: Link, r: Reloc) {
    r.sec < |l.secs| && l.secs[r.sec].outSec == DATA_SECTION
  }

  datatype Route = StaticRoute | WeakWord | LocalWord | ImportWord | ImportGot | ImportPlt | ImportOnly | Refused

  /** What a relocation needs from the dynamic linker. */
  function RouteOf(l: Link, r: Reloc): Route {
    if r.sym >= |l.syms| then StaticRoute
    else
      var s := l.syms[r.sym];
      if !s.defined && s.base.binding == WeakBinding then (if IsAbs64(r.ty) then WeakWord else StaticRoute)
      else if !(s.dynamic || (!s.defined && l.isShared)) then (if IsAbs64(r.ty) then LocalWord else StaticRoute)
      else if IsAbs64(r.ty) then (if Writable(l, r) then ImportWord else Refused)
      else if IsGotLoad(r.ty) then ImportGot
      else if r.ty == X64Pc32 && !s.isFunction then Refused
      else if r.ty in {X64Pc32, X64Plt32, A64Call26, A64Jump26} then ImportPlt
      else ImportOnly
  }

  function WithGot(st: Planned, imports: seq<Import>, i: nat): Planned
    requires i < |imports|
  {
    if imports[i].got.Some? then st.(entries := st.entries + [Entry(GotLoad, imports[i].got)], imports := imports)
    else Planned(st.entries + [Entry(GotLoad, Some(st.gotCount))], imports[i := imports[i].(got := Some(st.gotCount))],
                 st.pltCount, st.gotCount + 1, st.relaCount + 1)
  }

  function WithPlt(st: Planned, imports: seq<Import>, i: nat): Planned
    requires i < |imports|
  {
    if imports[i].plt.Some? then st.(entries := st.entries + [Entry(PltCall, imports[i].plt)], imports := imports)
    else Planned(st.entries + [Entry(PltCall, Some(st.pltCount))], imports[i := imports[i].(plt := Some(st.pltCount))],
                 st.pltCount + 1, st.gotCount, st.relaCount)
  }

  function Next(l: Link, st: Planned, r: Reloc): Option<Planned> {
    match RouteOf(l, r)
    case StaticRoute => Some(st.(entries := st.entries + [Entry(Static, None)]))
    case LocalWord => Some(st.(entries := st.entries + [Entry(Relative, None)], relaCount := st.relaCount + 1))
    case Refused => None
    case WeakWord => Some(WithWord(l, st, r.sym))
    case ImportWord => Some(WithWord(l, st, r.sym))
    case ImportGot => var (imports, i) := Interned(l, st.imports, r.sym); Some(WithGot(st, imports, i))
    case ImportPlt => var (imports, i) := Interned(l, st.imports, r.sym); Some(WithPlt(st, imports, i))
    case ImportOnly => Some(st.(entries := st.entries + [Entry(Static, None)],
                                imports := Interned(l, st.imports, r.sym).0))
  }

  function WithWord(l: Link, st: Planned, sym: nat): Planned {
    var (imports, i) := Interned(l, st.imports, sym);
    Planned(st.entries + [Entry(DynAbs64, Some(i))], imports, st.pltCount, st.gotCount, st.relaCount + 1)
  }

  /**
   * The plan for the leading n relocations; None when one of them is refused. imports is what the table held before.
   */
  function PlanTo(l: Link, imports: seq<Import>, n: nat): Option<Planned>
    requires n <= |l.relocs|
  {
    if n == 0 then Some(Planned([], imports, 0, 0, 0))
    else
      var st :- PlanTo(l, imports, n - 1);
      Next(l, st, l.relocs[n - 1])
  }

  // ---------------------------------------------------------------- what a plan guarantees

  function Gots(imports: seq<Import>): (s: seq<Option<nat>>)
    ensures |s| == |imports|
  {
    seq(|imports|, i requires 0 <= i < |imports| => imports[i].got)
  }

  function Plts(imports: seq<Import>): (s: seq<Option<nat>>)
    ensures |s| == |imports|
  {
    seq(|imports|, i requires 0 <= i < |imports| => imports[i].plt)
  }

  function SetCount(s: seq<Option<nat>>): (n: nat)
    ensures n <= |s|
  {
    if s == [] then 0 else SetCount(s[..|s| - 1]) + (if s[|s| - 1].Some? then 1 else 0)
  }

  /** How many relocations push a .rela.dyn entry of their own. */
  function WordCount(es: seq<Entry>): nat {
    if es == [] then 0 else WordCount(es[..|es| - 1]) + (if es[|es| - 1].plan in {Relative, DynAbs64} then 1 else 0)
  }

  /**
   * How many entries a complete .rela.dyn has for the plan: one per such relocation and one per GOT slot. Without a
   * buffer for the table the code leaves out those of the GOT slots; DynApply says when.
   */
  function Needed(st: Planned): nat {
    WordCount(st.entries) + SetCount(Gots(st.imports))
  }

  /** The indices given out are 0..n-1, each to one import. */
  ghost predicate Numbered(s: seq<Option<nat>>, n: nat) {
    && (forall i :: 0 <= i < |s| && s[i].Some? ==> s[i].value < n)
    && (forall i, j :: 0 <= i < j < |s| && s[i].Some? ==> s[i] != s[j])
    && (forall k: nat :: k < n ==> Some(k) in s)
  }

  /** Every name is imported once. */
  predicate NamesOnce(l: Link, imports: seq<Import>) {
    forall i, j :: 0 <= i < j < |imports| ==> NameOf(l, imports[i].sym) != NameOf(l, imports[j].sym)
  }

  /** The slot belongs to the import of the symbol the relocation names. */
  predicate SlotRight(l: Link, imports: seq<Import>, r: Reloc, e: Entry) {
    var i := ImportOf(l, imports, NameOf(l, r.sym));
    match e.plan
    case Static => e.slot == None
    case Relative => e.slot == None && IsAbs64(r.ty) && r.sym < |l.syms|
    case DynAbs64 => i.Some? && e.slot == i && IsAbs64(r.ty) && r.sym < |l.syms|
    case GotLoad => i.Some? && e.slot == imports[i.value].got && e.slot.Some? && IsGotLoad(r.ty)
    case PltCall => i.Some? && e.slot == imports[i.value].plt && e.slot.Some?
  }

  predicate SlotsRight(l: Link, st: Planned) {
    && |st.entries| <= |l.relocs|
    && forall k {:trigger st.entries[k]} :: 0 <= k < |st.entries| ==>
       SlotRight(l, st.imports, l.relocs[k], st.entries[k])
  }

  /** Imports keep their place, their symbol and the slots they have. */
  predicate Grows(a: seq<Import>, b: seq<Import>) {
    |a| <= |b| && forall i :: 0 <= i < |a| ==> Keeps(a[i], b[i])
  }

  predicate Keeps(a: Import, b: Import) {
    b.sym == a.sym && (a.got.Some? ==> b.got == a.got) && (a.plt.Some? ==> b.plt == a.plt)
  }

  lemma {:induction false} SetCountUpdate(s: seq<Option<nat>>, i: nat, v: nat)
    requires i < |s|
    ensures SetCount(s[i := Some(v)]) == SetCount(s) + (if s[i].Some? then 0 else 1)
  {
    var n := |s| - 1;
    var t := s[i := Some(v)];
    if i == n {
      assert t[..n] == s[..n];
    } else {
      SetCountUpdate(s[..n], i, v);
      assert t[..n] == s[..n][i := Some(v)];
    }
  }

  lemma SetCountMore(s: seq<Option<nat>>)
    ensures SetCount(s + [None]) == SetCount(s)
  {
    assert (s + [None])[..|s|] == s;
  }

  lemma WordCountMore(es: seq<Entry>, e: Entry)
    ensures WordCount(es + [e]) == WordCount(es) + (if e.plan in {Relative, DynAbs64} then 1 else 0)
  {
    assert (es + [e])[..|es|] == es;
  }

  lemma NumberedMore(s: seq<Option<nat>>, n: nat)
    requires Numbered(s, n)
    ensures Numbered(s + [None], n)
  {
    var t := s + [None];
    forall k: nat | k < n ensures Some(k) in t {
      var i :| 0 <= i < |s| && s[i] == Some(k);
      assert t[i] == Some(k);
    }
  }

  lemma NumberedUpdate(s: seq<Option<nat>>, n: nat, i: nat)
    requires Numbered(s, n) && i < |s| && s[i] == None
    ensures Numbered(s[i := Some(n)], n + 1)
  {
    var t := s[i := Some(n)];
    forall k: nat | k < n + 1 ensures Some(k) in t {
      if k == n {
        assert t[i] == Some(k);
      } else {
        var j :| 0 <= j < |s| && s[j] == Some(k);
        assert t[j] == Some(k);
      }
    }
  }

  /** A name found in a table is found at the same place in one that grew from it. */
  lemma {:induction false} ImportStays(l: Link, a: seq<Import>, b: seq<Import>, name: string)
    requires Grows(a, b) && ImportOf(l, a, name).Some?
    ensures ImportOf(l, b, name) == ImportOf(l, a, name)
    decreases |b|
  {
    var n := |b| - 1;
    if |a| <= n {
      ImportStays(l, a, b[..n], name);
    } else {
      var i := ImportOf(l, a[..n], name);
      if i.Some? {
        ImportStays(l, a[..n], b[..n], name);
      } else {
        ImportMissing(l, a[..n], b[..n], name);
      }
    }
  }

  lemma {:induction false} ImportMissing(l: Link, a: seq<Import>, b: seq<Import>, name: string)
    requires Grows(a, b) && |a| == |b| && ImportOf(l, a, name) == None
    ensures ImportOf(l, b, name) == None
  {
    if a != [] { ImportMissing(l, a[..|a| - 1], b[..|a| - 1], name); }
  }

  lemma {:induction false} NotImported(l: Link, imports: seq<Import>, name: string, i: nat)
    requires ImportOf(l, imports, name) == None && i < |imports|
    ensures NameOf(l, imports[i].sym) != name
  {
    var n := |imports| - 1;
    if i < n { NotImported(l, imports[..n], name, i); }
  }

  lemma SlotStays(l: Link, a: seq<Import>, b: seq<Import>, r: Reloc, e: Entry)
    requires Grows(a, b) && SlotRight(l, a, r, e)
    ensures SlotRight(l, b, r, e)
  {
    var name := NameOf(l, r.sym);
    hide ImportOf, NameOf;
    if ImportOf(l, a, name).Some? {
      ImportStays(l, a, b, name);
      assert Keeps(a[ImportOf(l, a, name).value], b[ImportOf(l, a, name).value]);
    }
  }

  /** Interning: the table grows by at most an import without slots, and now has the name. */
  lemma InternedGives(l: Link, imports: seq<Import>, sym: nat)
    ensures var (t, i) := Interned(l, imports, sym);
            && Grows(imports, t) && ImportOf(l, t, NameOf(l, sym)) == Some(i)
            && (t == imports || (t == imports + [Fresh(l, sym)] && ImportOf(l, imports, NameOf(l, sym)) == None))
            && (NamesOnce(l, imports) ==> NamesOnce(l, t))
  {
    var name := NameOf(l, sym);
    var t := Interned(l, imports, sym).0;
    if ImportOf(l, imports, name) == None {
      assert t[..|imports|] == imports;
      assert NameOf(l, Fresh(l, sym).sym) == name;
      hide ImportOf, NameOf;
      forall k | 0 <= k < |imports| ensures NameOf(l, imports[k].sym) != name { NotImported(l, imports, name, k); }
    }
  }

  /** Slots added to an import change neither names nor what is found. */
  lemma SlotAdded(l: Link, imports: seq<Import>, i: nat, x: Import, name: string)
    requires i < |imports| && Keeps(imports[i], x) && ImportOf(l, imports, name) == Some(i)
    ensures Grows(imports, imports[i := x]) && ImportOf(l, imports[i := x], name) == Some(i)
    ensures NamesOnce(l, imports) ==> NamesOnce(l, imports[i := x])
  {
    ImportStays(l, imports, imports[i := x], name);
  }

  // ---------------------------------------------------------------- conservation

  /** What every step keeps; before is how many imports had a GOT slot at the start. */
  ghost predicate PlanKept(l: Link, before: nat, st: Planned) {
    && Needed(st) == st.relaCount + before && SetCount(Gots(st.imports)) == st.gotCount + before
    && NamesOnce(l, st.imports)
    && (before == 0 ==> Numbered(Gots(st.imports), st.gotCount))
  }

  /** An import just interned has no slots, so counts and numberings stay as they were. */
  lemma InternedCounts(l: Link, imports: seq<Import>, sym: nat, n: nat, m: nat)
    ensures var t := Interned(l, imports, sym).0;
            && SetCount(Gots(t)) == SetCount(Gots(imports))
            && (Numbered(Gots(imports), n) ==> Numbered(Gots(t), n))
            && (Numbered(Plts(imports), m) ==> Numbered(Plts(t), m))
  {
    hide ImportOf, Numbered, SetCount, Provider, NameOf, Gots, Plts;
    if Interned(l, imports, sym).0 != imports {
      SlotlessAdded(imports, Fresh(l, sym));
      SetCountMore(Gots(imports));
      if Numbered(Gots(imports), n) { NumberedMore(Gots(imports), n); }
      if Numbered(Plts(imports), m) { NumberedMore(Plts(imports), m); }
    }
  }

  lemma SlotlessAdded(imports: seq<Import>, x: Import)
    requires x.got == None && x.plt == None
    ensures Gots(imports + [x]) == Gots(imports) + [None] && Plts(imports + [x]) == Plts(imports) + [None]
  {
  }

  lemma GotAdded(imports: seq<Import>, i: nat, v: nat)
    requires i < |imports|
    ensures var t := imports[i := imports[i].(got := Some(v))];
            Gots(t) == Gots(imports)[i := Some(v)] && Plts(t) == Plts(imports)
  {
  }

  lemma PltAdded(imports: seq<Import>, i: nat, v: nat)
    requires i < |imports|
    ensures var t := imports[i := imports[i].(plt := Some(v))];
            Plts(t) == Plts(imports)[i := Some(v)] && Gots(t) == Gots(imports)
  {
  }

  /** One planned relocation: counts and numberings. */
  lemma NextKeepsCounts(l: Link, before: nat, st: Planned, r: Reloc)
    requires PlanKept(l, before, st) && Next(l, st, r).Some?
    ensures PlanKept(l, before, Next(l, st, r).value)
  {
    hide ImportOf, RouteOf, Numbered, SetCount, WordCount, Interned, Gots, Plts, NameOf, NamesOnce;
    var to := Next(l, st, r).value;
    WordCountMore(st.entries, to.entries[|st.entries|]);
    assert to.entries == st.entries + [to.entries[|st.entries|]];
    var (t, i) := Interned(l, st.imports, r.sym);
    InternedGives(l, st.imports, r.sym);
    InternedCounts(l, st.imports, r.sym, st.gotCount, 0);
    if RouteOf(l, r) == ImportGot && t[i].got == None {
      GotAdded(t, i, st.gotCount);
      GotIs(t, i);
      SetCountUpdate(Gots(t), i, st.gotCount);
      SlotAdded(l, t, i, t[i].(got := Some(st.gotCount)), NameOf(l, r.sym));
      if before == 0 { NumberedUpdate(Gots(t), st.gotCount, i); }
    } else if RouteOf(l, r) == ImportPlt && t[i].plt == None {
      PltAdded(t, i, st.pltCount);
      SlotAdded(l, t, i, t[i].(plt := Some(st.pltCount)), NameOf(l, r.sym));
    }
  }

  lemma GotIs(t: seq<Import>, i: nat)
    requires i < |t|
    ensures Gots(t)[i] == t[i].got
  {
  }

  lemma PltIs(t: seq<Import>, i: nat)
    requires i < |t|
    ensures Plts(t)[i] == t[i].plt
  {
  }

  lemma NextKeepsPlts(l: Link, st: Planned, r: Reloc)
    requires Numbered(Plts(st.imports), st.pltCount) && Next(l, st, r).Some?
    ensures var to := Next(l, st, r).value; Numbered(Plts(to.imports), to.pltCount)
  {
    hide ImportOf, RouteOf, Numbered, Interned, Gots, Plts, NameOf;
    var (t, i) := Interned(l, st.imports, r.sym);
    InternedCounts(l, st.imports, r.sym, 0, st.pltCount);
    if RouteOf(l, r) == ImportPlt && t[i].plt == None {
      PltAdded(t, i, st.pltCount);
      PltIs(t, i);
      NumberedUpdate(Plts(t), st.pltCount, i);
    } else if RouteOf(l, r) == ImportGot && t[i].got == None {
      GotAdded(t, i, st.gotCount);
    }
  }

  lemma NextSlots(l: Link, st: Planned, r: Reloc)
    requires Next(l, st, r).Some?
    ensures var to := Next(l, st, r).value;
            Grows(st.imports, to.imports) && |to.entries| == |st.entries| + 1
              && to.entries[..|st.entries|] == st.entries
            && SlotRight(l, to.imports, r, to.entries[|st.entries|])
  {
    RouteMeans(l, r);
    hide ImportOf, RouteOf, Interned, NameOf, NamesOnce;
    var (t, i) := Interned(l, st.imports, r.sym);
    var name := NameOf(l, r.sym);
    InternedGives(l, st.imports, r.sym);
    if RouteOf(l, r) == ImportGot && t[i].got == None {
      SlotAdded(l, t, i, t[i].(got := Some(st.gotCount)), name);
    } else if RouteOf(l, r) == ImportPlt && t[i].plt == None {
      SlotAdded(l, t, i, t[i].(plt := Some(st.pltCount)), name);
    }
  }

  lemma RouteMeans(l: Link, r: Reloc)
    ensures RouteOf(l, r) in {WeakWord, LocalWord, ImportWord} ==> IsAbs64(r.ty) && r.sym < |l.syms|
    ensures RouteOf(l, r) == ImportGot ==> IsGotLoad(r.ty)
  {
  }

  lemma {:induction false} PlanKeeps(l: Link, imports: seq<Import>, n: nat)
    requires n <= |l.relocs| && PlanTo(l, imports, n).Some? && NamesOnce(l, imports)
    requires SetCount(Gots(imports)) == 0 ==> Numbered(Gots(imports), 0)
    ensures PlanKept(l, SetCount(Gots(imports)), PlanTo(l, imports, n).value)
  {
    hide Numbered, NamesOnce, Next, PlanKept;
    if n == 0 {
      NothingPlanned(l, imports);
    } else {
      PlanKeeps(l, imports, n - 1);
      NextKeepsCounts(l, SetCount(Gots(imports)), PlanTo(l, imports, n - 1).value, l.relocs[n - 1]);
    }
  }

  lemma NothingPlanned(l: Link, imports: seq<Import>)
    requires NamesOnce(l, imports) && (SetCount(Gots(imports)) == 0 ==> Numbered(Gots(imports), 0))
    ensures PlanKept(l, SetCount(Gots(imports)), Planned([], imports, 0, 0, 0))
  {
  }

  lemma {:induction false} NoneIsSet(s: seq<Option<nat>>)
    ensures SetCount(s) == 0 <==> forall i :: 0 <= i < |s| ==> s[i] == None
  {
    if s != [] {
      NoneIsSet(s[..|s| - 1]);
      if SetCount(s) == 0 {
        forall i | 0 <= i < |s| ensures s[i] == None { if i < |s| - 1 { assert s[i] == s[..|s| - 1][i]; } }
      }
    }
  }

  /**
   * Counts are conserved exactly by layouts that start without GOT slots: the entries planned are those of a complete
   * table. A layout over the imports of an earlier one plans one too few for each old GOT slot.
   */
  lemma ConservedIff(l: Link, imports: seq<Import>)
    requires PlanTo(l, imports, |l.relocs|).Some? && NamesOnce(l, imports)
    ensures var st := PlanTo(l, imports, |l.relocs|).value;
            && (Needed(st) == st.relaCount <==> forall i :: 0 <= i < |imports| ==> imports[i].got == None)
            && Needed(st) == st.relaCount + SetCount(Gots(imports))
  {
    NoneIsSet(Gots(imports));
    forall i | 0 <= i < |imports| ensures Gots(imports)[i] == imports[i].got { GotIs(imports, i); }
    PlanKeeps(l, imports, |l.relocs|);
  }

  /** One GOT load, in a section of its own, of a function that a shared object defines. */
  function GotLoadLink(): Link {
    Link([LinkSym(Symbol("f", GlobalBinding, true, true, 0), true, true, true)], [Reloc(0, 0, 0, X64GotPcRel, 0)],
         [Placed(0, 0, 4096)], false)
  }

  /** Its plan when it is laid out for the first time, and again. */
  function FirstLoadPlan(): Planned {
    Planned([Entry(GotLoad, Some(0))], [Import(0, None, Some(0))], 0, 1, 1)
  }

  function SecondLoadPlan(): Planned {
    Planned([Entry(GotLoad, Some(0))], [Import(0, None, Some(0))], 0, 0, 0)
  }

  /** Laid out twice, it plans no entry the second time, and a complete table still has one. */
  lemma SecondLayoutIsShort()
    ensures var l := GotLoadLink();
            && PlanTo(l, [], 1) == Some(FirstLoadPlan())
               && PlanTo(l, FirstLoadPlan().imports, 1) == Some(SecondLoadPlan())
            && FirstLoadPlan().relaCount == 1 && Needed(FirstLoadPlan()) == 1
            && SecondLoadPlan().relaCount == 0 && Needed(SecondLoadPlan()) == 1
  {
    hide PlanTo, Next, Needed, ImportOf, Provider, NameOf;
    var l := GotLoadLink();
    var one, two := FirstLoadPlan(), SecondLoadPlan();
    LoadProvider(l);
    LoadFound(l, one.imports);
    LoadPlanned(l, one, two);
    PlanOfOne(l, []);
    PlanOfOne(l, one.imports);
    LoadNeeds(one);
    LoadNeeds(two);
  }

  lemma LoadNeeds(st: Planned)
    requires st.entries == [Entry(GotLoad, Some(0))] && st.imports == [Import(0, None, Some(0))]
    ensures Needed(st) == 1
  {
    assert Gots(st.imports) == [Some(0)];
    assert SetCount([Some(0)]) == 1 by { assert [Some(0)][..0] == []; }
    assert WordCount(st.entries) == 0 by { assert st.entries[..0] == []; }
  }

  lemma PlanOfOne(l: Link, imports: seq<Import>)
    requires |l.relocs| == 1
    ensures PlanTo(l, imports, 1) == Next(l, Planned([], imports, 0, 0, 0), l.relocs[0])
  {
    hide Next;
    assert PlanTo(l, imports, 0) == Some(Planned([], imports, 0, 0, 0));
  }

  lemma LoadPlanned(l: Link, one: Planned, two: Planned)
    requires l == GotLoadLink() && NameOf(l, 0) == "f" && Provider(l, "f", |l.syms|) == Some(0)
    requires one == FirstLoadPlan() && two == SecondLoadPlan()
    requires ImportOf(l, [], "f") == None && ImportOf(l, one.imports, "f") == Some(0)
    ensures Next(l, Planned([], [], 0, 0, 0), l.relocs[0]) == Some(one)
    ensures Next(l, Planned([], one.imports, 0, 0, 0), l.relocs[0]) == Some(two)
  {
    hide ImportOf, Provider, NameOf;
    assert RouteOf(l, l.relocs[0]) == ImportGot;
    var slotless := [Import(0, None, None)];
    assert Interned(l, [], 0) == ([] + [Fresh(l, 0)], 0);
    assert Interned(l, [], 0).0 == slotless;
    assert slotless[0 := Import(0, None, Some(0))] == one.imports;
    assert WithGot(Planned([], [], 0, 0, 0), slotless, 0) == one;
    assert Interned(l, one.imports, 0) == (one.imports, 0);
    assert WithGot(Planned([], one.imports, 0, 0, 0), one.imports, 0) == two;
  }

  lemma LoadProvider(l: Link)
    requires l == GotLoadLink()
    ensures NameOf(l, 0) == "f" && Provider(l, "f", |l.syms|) == Some(0) && ImportOf(l, [], "f") == None
  {
    assert Provider(l, "f", 0) == None;
  }

  lemma LoadFound(l: Link, imports: seq<Import>)
    requires NameOf(l, 0) == "f" && |imports| == 1 && imports[0].sym == 0
    ensures ImportOf(l, imports, "f") == Some(0)
  {
    assert imports[..0] == [] && ImportOf(l, [], "f") == None;
  }

  /** A first layout: GOT and PLT indices are one-to-one onto 0..count-1, and every slot is its symbol's. */
  lemma FirstLayout(l: Link)
    requires PlanTo(l, [], |l.relocs|).Some?
    ensures var st := PlanTo(l, [], |l.relocs|).value;
            && Needed(st) == st.relaCount
            && Numbered(Gots(st.imports), st.gotCount) && Numbered(Plts(st.imports), st.pltCount)
            && NamesOnce(l, st.imports) && |st.entries| == |l.relocs| && SlotsRight(l, st)
  {
    hide PlanTo, SlotsRight;
    PlanKeeps(l, [], |l.relocs|);
    PltsKept(l, |l.relocs|);
    SlotsKept(l, [], |l.relocs|);
  }

  lemma {:induction false} PltsKept(l: Link, n: nat)
    requires n <= |l.relocs| && PlanTo(l, [], n).Some?
    ensures var st := PlanTo(l, [], n).value; Numbered(Plts(st.imports), st.pltCount)
  {
    if n > 0 {
      hide Numbered, Next;
      PltsKept(l, n - 1);
      NextKeepsPlts(l, PlanTo(l, [], n - 1).value, l.relocs[n - 1]);
    }
  }

  lemma {:induction false} SlotsKept(l: Link, imports: seq<Import>, n: nat)
    requires n <= |l.relocs| && PlanTo(l, imports, n).Some?
    ensures var st := PlanTo(l, imports, n).value; |st.entries| == n && SlotsRight(l, st)
  {
    hide SlotRight, Next, Grows, IsAbs64, IsGotLoad, NameOf, ImportOf;
    if n > 0 {
      SlotsKept(l, imports, n - 1);
      var was := PlanTo(l, imports, n - 1).value;
      var st := PlanTo(l, imports, n).value;
      NextSlots(l, was, l.relocs[n - 1]);
      forall k | 0 <= k < n ensures SlotRight(l, st.imports, l.relocs[k], st.entries[k]) {
        if k < n - 1 {
          assert st.entries[k] == was.entries[k];
          SlotStays(l, was.imports, st.imports, l.relocs[k], was.entries[k]);
        }
      }
    }
  }
}
