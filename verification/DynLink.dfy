/**
 * One layout and one application of the dynamic relocations (src/nylink/nylink_layout.c, src/nylink/nylink_reloc.c):
 * how the finished tables take every relocation to its symbol.
 */
module DynLink {
  import opened IntFold
  import opened Resolve
  import opened DynPlan
  import opened DynLayout
  import opened DynApply

  /** The tables of a link. */
  datatype Linked = Linked(relaDyn: seq<Rela>, relaPlt: seq<Rela>, gotPlt: seq<int>, plt: seq<Stub>)

  /** The output with the .dynsym that starts as given, with the exports, and then has the imports. */
  function WithDynsyms(l: Link, o: Output, start: seq<nat>, st: Planned): Output {
    o.(dynsyms := WithImports(l, start, st.imports, |st.imports|))
  }

  /** The link succeeds: every relocation can be planned and none is refused when it is applied. */
  predicate Linkable(l: Link, o: Output, start: seq<nat>) {
    PlanTo(l, [], |l.relocs|).Some? &&
    var st := PlanTo(l, [], |l.relocs|).value;
    SlotsFit(l, WithDynsyms(l, o, start, st), st) && Fine(l, WithDynsyms(l, o, start, st), st, |l.relocs|)
  }

  // ---------------------------------------------------------------- what the tables say

  /** The record names, by its .dynsym index, a symbol of that name. */
  predicate Names(l: Link, o: Output, x: Rela, name: string) {
    0 < x.dynsym < |o.dynsyms| && NameOf(l, o.dynsyms[x.dynsym]) == name
  }

  /**
   * PLT slot k binds the name: its record names the word of .got.plt that belongs to entry k of the PLT, and until then
   * that word leads back into the entry, on x86-64 behind its jump.
   */
  predicate SlotBinds(l: Link, o: Output, t: Linked, k: nat, name: string) {
    && k < |t.relaPlt| && |t.gotPlt| == |t.relaPlt| + 3
    && t.relaPlt[k].offset == o.gotPltVa + 8 * (3 + k)
    && t.gotPlt[3 + k] == (if o.isA64 then o.pltVa + 32 + 16 * k else o.pltVa + 16 + 16 * k + 6)
    && t.relaPlt[k].ty == (if o.isA64 then 1026 else 7) && t.relaPlt[k].addend == 0
    && Names(l, o, t.relaPlt[k], name)
  }

  /** GOT slot s binds the name: .rela.dyn has a record for the address of the slot. */
  ghost predicate GotBinds(l: Link, o: Output, t: Linked, s: nat, name: string) {
    exists m :: 0 <= m < |t.relaDyn| && GotRecord(l, o, t.relaDyn[m], s, name)
  }

  predicate GotRecord(l: Link, o: Output, x: Rela, s: nat, name: string) {
    x.offset == o.gotVa + 8 * s && x.ty == (if o.isA64 then 1025 else 6) && x.addend == 0 && Names(l, o, x, name)
  }

  /** The record that moves a word by the load address: the word is to hold the symbol's address plus the addend. */
  predicate MovesWord(l: Link, o: Output, r: Reloc, x: Rela) {
    && r.sec < |l.secs| && r.sym < |o.finals|
    && x.offset == l.secs[r.sec].va + r.offset && x.dynsym == 0 && x.addend == o.finals[r.sym].va + r.addend
    && x.ty == (if r.ty == A64Abs64 then 1027 else 8)
  }

  /** The record that puts the address of the named symbol, plus the addend, into a word. */
  predicate BindsWord(l: Link, o: Output, r: Reloc, x: Rela) {
    && r.sec < |l.secs| && x.offset == l.secs[r.sec].va + r.offset && x.addend == r.addend
    && x.ty == (if r.ty == A64Abs64 then 257 else 1) && Names(l, o, x, NameOf(l, r.sym))
  }

  /** The relocation's place, a word or an instruction, lies within what may be written of its output section. */
  predicate InBounds(l: Link, o: Output, r: Reloc) {
    && r.sec < |l.secs| && r.sym < |l.syms| && r.sym < |o.finals| && l.secs[r.sec].outSec < |o.sizes|
    && l.secs[r.sec].offset + r.offset +
       (if r.ty in {X64Abs64, A64Abs64} then 8 else 4) <= o.sizes[l.secs[r.sec].outSec]
  }

  /** The symbol has an address of its own: it is defined here, has one in a shared object, or is weak and stays 0. */
  predicate HasAddress(l: Link, o: Output, r: Reloc)
    requires r.sym < |l.syms| && r.sym < |o.finals|
  {
    var final := o.finals[r.sym];
    || (final.defined && !final.dynamic) || (final.dynamic && final.va != 0)
    || (!final.defined && l.syms[r.sym].base.binding == WeakBinding)
  }

  /** What the plan of a relocation asks of the tables. */
  ghost predicate Reaches(l: Link, o: Output, t: Linked, r: Reloc, e: Entry) {
    && (r.ty != NoReloc ==> InBounds(l, o, r))
    && (r.ty != NoReloc && e.plan == Static && r.ty !in {X64Abs64, A64Abs64} ==> HasAddress(l, o, r))
    && (e.plan == PltCall ==> e.slot.Some? && SlotBinds(l, o, t, e.slot.value, NameOf(l, r.sym)))
    && (e.plan == GotLoad ==> e.slot.Some? && GotBinds(l, o, t, e.slot.value, NameOf(l, r.sym)))
    && (e.plan == Relative ==> exists m :: 0 <= m < |t.relaDyn| && MovesWord(l, o, r, t.relaDyn[m]))
    && (e.plan == DynAbs64 ==>
          exists m :: 0 <= m < |t.relaDyn| && BindsWord(l, o, r, t.relaDyn[m]))
  }

  /** Every relocation reaches its symbol through the tables, and they hold no more than was planned. */
  ghost predicate Complete(l: Link, o: Output, start: seq<nat>, t: Linked)
    requires Linkable(l, o, start)
  {
    var st := PlanTo(l, [], |l.relocs|).value;
    var out := WithDynsyms(l, o, start, st);
    && |t.relaDyn| == st.relaCount && |t.relaPlt| == |t.plt| == st.pltCount && |st.entries| == |l.relocs|
    && (start != [] ==> forall k {:trigger l.relocs[k]} :: 0 <= k < |l.relocs| ==>
          Reaches(l, out, t, l.relocs[k], st.entries[k]))
    && (forall k: nat :: k < |t.plt| ==> t.plt[k] == StubOf(out, k))
  }

  // ---------------------------------------------------------------- from the records to their meaning

  lemma ImportNamed(l: Link, o: Output, start: seq<nat>, st: Planned, i: nat, x: Rela)
    requires start != [] && i < |st.imports| && o.dynsyms == WithImports(l, start, st.imports, |st.imports|)
    requires x.dynsym == ImportIndex(l, o, st.imports, i)
    ensures Names(l, o, x, NameOf(l, st.imports[i].sym))
  {
    ImportsHaveEntries(l, start, st.imports, |st.imports|, i);
  }

  lemma PltSlotBinds(l: Link, o: Output, start: seq<nat>, st: Planned, t: Linked, i: nat)
    requires start != [] && i < |st.imports| && o.dynsyms == WithImports(l, start, st.imports, |st.imports|)
    requires st.imports[i].plt.Some? && st.imports[i].plt.value < |t.relaPlt| && |t.gotPlt| == |t.relaPlt| + 3
    requires var k := st.imports[i].plt.value;
             t.relaPlt[k] == PltRela(l, o, st.imports, i) && t.gotPlt[3 + k] == PltWord(o, k)
    ensures SlotBinds(l, o, t, st.imports[i].plt.value, NameOf(l, st.imports[i].sym))
  {
    hide NameOf, ImportIndex, Names, WithImports;
    ImportNamed(l, o, start, st, i, t.relaPlt[st.imports[i].plt.value]);
  }

  lemma {:induction false} GotRelaAt(l: Link, o: Output, imports: seq<Import>, n: nat, i: nat) returns (m: nat)
    requires i < n <= |imports| && imports[i].got.Some?
    ensures m < |GotRelas(l, o, imports, n)| && GotRelas(l, o, imports, n)[m] == GotRela(l, o, imports, i)
  {
    if i == n - 1 {
      m := |GotRelas(l, o, imports, n - 1)|;
    } else {
      m := GotRelaAt(l, o, imports, n - 1, i);
    }
  }

  lemma {:induction false} PushAt(l: Link, o: Output, st: Planned, n: nat, k: nat) returns (m: nat)
    requires SlotsFit(l, o, st) && k < n <= |l.relocs| && OutcomeOf(l, o, st, k).Push?
    ensures m < |Pushes(l, o, st, n)| && Pushes(l, o, st, n)[m] == OutcomeOf(l, o, st, k).rela
  {
    hide OutcomeOf, SlotsFit;
    if k == n - 1 {
      m := |Pushes(l, o, st, n - 1)|;
    } else {
      m := PushAt(l, o, st, n - 1, k);
    }
  }

  lemma GotSlotBinds(l: Link, o: Output, start: seq<nat>, st: Planned, t: Linked, i: nat)
    requires SlotsFit(l, o, st) && start != [] && i < |st.imports| && st.imports[i].got.Some?
    requires o.dynsyms == WithImports(l, start, st.imports, |st.imports|)
    requires t.relaDyn == AllPushes(l, o, st, |t.relaDyn|) && |t.relaDyn| > 0
    ensures GotBinds(l, o, t, st.imports[i].got.value, NameOf(l, st.imports[i].sym))
  {
    hide NameOf, ImportIndex, Names, WithImports, SlotsFit, Pushes, GotRelas;
    var m := GotRelaAt(l, o, st.imports, |st.imports|, i);
    ImportNamed(l, o, start, st, i, GotRela(l, o, st.imports, i));
    assert t.relaDyn[m] == GotRela(l, o, st.imports, i);
    assert GotRecord(l, o, t.relaDyn[m], st.imports[i].got.value, NameOf(l, st.imports[i].sym));
  }

  lemma PushedIsThere(l: Link, o: Output, st: Planned, t: Linked, k: nat) returns (m: nat)
    requires SlotsFit(l, o, st) && k < |l.relocs| && OutcomeOf(l, o, st, k).Push?
    requires t.relaDyn == AllPushes(l, o, st, |t.relaDyn|)
    ensures m < |t.relaDyn| && t.relaDyn[m] == OutcomeOf(l, o, st, k).rela
  {
    hide OutcomeOf, SlotsFit, GotPart, Pushes;
    var j := PushAt(l, o, st, |l.relocs|, k);
    m := |GotPart(l, o, st, |t.relaDyn|)| + j;
  }

  lemma WordReaches(l: Link, o: Output, start: seq<nat>, st: Planned, k: nat)
    requires SlotsFit(l, o, st) && SlotsRight(l, st) && k < |l.relocs| && start != []
    requires o.dynsyms == WithImports(l, start, st.imports, |st.imports|)
    requires OutcomeOf(l, o, st, k) != Refusal && st.entries[k].plan in {Relative, DynAbs64}
    ensures OutcomeOf(l, o, st, k).Push?
    ensures var x := OutcomeOf(l, o, st, k).rela;
            && (st.entries[k].plan == Relative ==> MovesWord(l, o, l.relocs[k], x))
            && (st.entries[k].plan == DynAbs64 ==> BindsWord(l, o, l.relocs[k], x))
  {
    OneOutcome(l, o, st, k);
    if st.entries[k].plan == DynAbs64 { WordsNameTheirSymbol(l, o, st, start, k); }
    assert SlotRight(l, st.imports, l.relocs[k], st.entries[k]);
    hide NameOf, ImportIndex, WithImports, ImportOf;
  }

  // ---------------------------------------------------------------- one link

  /** The tables as the application leaves them. */
  ghost predicate Applied(l: Link, o: Output, st: Planned, t: Linked)
    requires SlotsFit(l, o, st)
  {
    && |st.entries| == |l.relocs| && SlotsRight(l, st) && Fine(l, o, st, |l.relocs|)
    && |t.relaDyn| == st.relaCount == Needed(st) && t.relaDyn == AllPushes(l, o, st, |t.relaDyn|)
    && |t.relaPlt| == |t.plt| == st.pltCount && (st.pltCount > 0 ==> |t.gotPlt| == 3 + st.pltCount)
    && Numbered(Plts(st.imports), st.pltCount)
    && forall i {:trigger st.imports[i]} :: 0 <= i < |st.imports| && st.imports[i].plt.Some? ==>
         PltFilled(l, o, st, t, i)
  }

  ghost predicate PltFilled(l: Link, o: Output, st: Planned, t: Linked, i: nat)
    requires i < |st.imports| && st.imports[i].plt.Some?
  {
    var k := st.imports[i].plt.value;
    && k < |t.relaPlt| && k < |t.plt| && 3 + k < |t.gotPlt|
    && t.relaPlt[k] == PltRela(l, o, st.imports, i) && t.gotPlt[3 + k] == PltWord(o, k) && t.plt[k] == StubOf(o, k)
  }

  /** A GOT slot has a record, so there is a table. */
  lemma SlotNeedsRecord(st: Planned, i: nat)
    requires i < |st.imports| && st.imports[i].got.Some?
    ensures Needed(st) > 0
  {
    NoneIsSet(Gots(st.imports));
    GotIs(st.imports, i);
    hide SetCount, Gots;
  }

  lemma FineIsInBounds(l: Link, o: Output, st: Planned, k: nat)
    requires SlotsFit(l, o, st) && k < |l.relocs| && OutcomeOf(l, o, st, k) != Refusal && l.relocs[k].ty != NoReloc
    ensures InBounds(l, o, l.relocs[k])
    ensures st.entries[k].plan == Static && l.relocs[k].ty !in {X64Abs64, A64Abs64} ==> HasAddress(l, o, l.relocs[k])
  {
    hide ImportIndex;
  }

  lemma OneReaches(l: Link, o: Output, start: seq<nat>, st: Planned, t: Linked, k: nat)
    requires SlotsFit(l, o, st) && Applied(l, o, st, t) && start != [] && k < |l.relocs|
    requires o.dynsyms == WithImports(l, start, st.imports, |st.imports|)
    ensures Reaches(l, o, t, l.relocs[k], st.entries[k])
  {
    hide OutcomeOf, NameOf, ImportOf, WithImports, InBounds, SlotBinds, GotBinds, MovesWord, BindsWord, PltRela,
      PltWord, StubOf, AllPushes, Numbered, Needed, SlotsFit, IsAbs64, IsGotLoad;
    var e := st.entries[k];
    assert SlotRight(l, st.imports, l.relocs[k], e);
    if l.relocs[k].ty != NoReloc { FineIsInBounds(l, o, st, k); }
    match e.plan {
      case Static =>
      case PltCall =>
        var i := ImportOf(l, st.imports, NameOf(l, l.relocs[k].sym)).value;
        assert PltFilled(l, o, st, t, i);
        PltSlotBinds(l, o, start, st, t, i);
      case GotLoad =>
        var i := ImportOf(l, st.imports, NameOf(l, l.relocs[k].sym)).value;
        SlotNeedsRecord(st, i);
        GotSlotBinds(l, o, start, st, t, i);
      case _ =>
        WordReaches(l, o, start, st, k);
        var m := PushedIsThere(l, o, st, t, k);
    }
  }

  /** Every entry of the PLT was written. */
  lemma StubsFilled(l: Link, o: Output, st: Planned, t: Linked)
    requires SlotsFit(l, o, st) && Applied(l, o, st, t)
    ensures forall k: nat :: k < |t.plt| ==> t.plt[k] == StubOf(o, k)
  {
    hide StubOf, PltRela, PltWord, AllPushes, Needed, SlotsFit, SlotsRight;
    forall k: nat | k < |t.plt| ensures t.plt[k] == StubOf(o, k) {
      assert Some(k) in Plts(st.imports);
      var i :| 0 <= i < |st.imports| && Plts(st.imports)[i] == Some(k);
      PltIs(st.imports, i);
      assert PltFilled(l, o, st, t, i);
    }
  }

  lemma AppliedIsComplete(l: Link, o: Output, start: seq<nat>, t: Linked)
    requires Linkable(l, o, start)
    requires var st := PlanTo(l, [], |l.relocs|).value; Applied(l, WithDynsyms(l, o, start, st), st, t)
    ensures Complete(l, o, start, t)
  {
    hide Reaches, StubOf, SlotsFit, Fine, PlanTo;
    var st := PlanTo(l, [], |l.relocs|).value;
    var out := WithDynsyms(l, o, start, st);
    StubsFilled(l, out, st, t);
    if start != [] {
      forall k | 0 <= k < |l.relocs| ensures Reaches(l, out, t, l.relocs[k], st.entries[k]) {
        OneReaches(l, out, start, st, t, k);
      }
    }
  }

  /** Reading the finished tables. */
  lemma TablesApplied(tables: Tables, t: Linked)
    requires tables.Valid() && PltsPlaced(tables.plan.imports, tables.pltRoom)
    requires var st := tables.plan;
             && |st.entries| == |tables.link.relocs| && SlotsRight(tables.link, st)
             && Fine(tables.link, tables.out, st, |tables.link.relocs|)
             && tables.room == st.relaCount == Needed(st) && tables.pltRoom == st.pltCount
             && |AllPushes(tables.link, tables.out, st, tables.room)| == tables.room
             && Numbered(Plts(st.imports), st.pltCount)
    requires tables.Written(AllPushes(tables.link, tables.out, tables.plan, tables.room))
    requires tables.PltsWritten(|tables.plan.imports|)
    requires t == Linked(tables.relaDyn[..], tables.relaPlt[..], tables.gotPlt[..], tables.plt[..])
    ensures Applied(tables.link, tables.out, tables.plan, t)
  {
    hide StubOf, PltRela, PltWord, AllPushes, Needed, SlotsFit, SlotsRight, Fine, Numbered;
    assert t.relaDyn == AllPushes(tables.link, tables.out, tables.plan, tables.room);
    forall i | 0 <= i < |tables.plan.imports| && tables.plan.imports[i].plt.Some?
      ensures PltFilled(tables.link, tables.out, tables.plan, t, i)
    {
    }
  }

  /** One layout and one application; start is what .dynsym holds before the imports: index 0 and the exports. */
  method LayOutAndApply(link: Link, o: Output, start: seq<nat>) returns (t: Option<Linked>)
    requires |o.patches| == |link.relocs| && |o.finals| == |link.syms|
    ensures t.Some? <==> Linkable(link, o, start)
    ensures t.Some? ==> Complete(link, o, start, t.value)
  {
    hide PlanTo, Fine, Numbered, SlotsFit, SlotsRight, AllPushes, NamesOnce, Needed, WithImports, Complete, Applied;
    var ctx := new Context(link);
    var ok := ctx.PlanAll();
    if !ok { return None; }
    var st := ctx.Result();
    var out := WithDynsyms(link, o, start, st);
    FirstLayout(link);
    PlannedIsPushed(link, out);
    NumberedPlaced(st.imports, st.pltCount);
    var tables := new Tables(link, st, out, st.relaCount, st.pltCount);
    ok := tables.Apply();
    if !ok { return None; }
    t := Some(Linked(tables.relaDyn[..], tables.relaPlt[..], tables.gotPlt[..], tables.plt[..]));
    TablesApplied(tables, t.value);
    AppliedIsComplete(link, o, start, t.value);
  }
}
