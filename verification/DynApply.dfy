/**
 * Applying relocations in an ELF link: src/nylink/nylink_reloc.c fills .rela.dyn, .rela.plt and .got.plt, whose
 * sizes the layout fixed beforehand.
 */
module DynApply {
  import opened IntFold
  import opened Resolve
  import opened DynPlan

  /** An Elf64_Rela; r_info is the symbol index and the type. */
  datatype Rela = Rela(offset: int, ty: nat, dynsym: nat, addend: int)

  /** A symbol as it is when relocations are applied. */
  datatype Final = Final(va: int, defined: bool, dynamic: bool)

  /**
   * What the layout fixed besides the plan: addresses, how much of each output section may be written, .dynsym, and
   * for each relocation that patches an instruction whether its value is in range and aligned.
   */
  datatype Output = Output(isA64: bool, gotVa: int, gotPltVa: int, pltVa: int, sizes: seq<nat>, finals: seq<Final>,
                           dynsyms: seq<nat>, patches: seq<bool>)

  const R_X64_64 := 1
  const R_X64_GLOB_DAT := 6
  const R_X64_JUMP_SLOT := 7
  const R_X64_RELATIVE := 8
  const R_A64_ABS64 := 257
  const R_A64_GLOB_DAT := 1025
  const R_A64_JUMP_SLOT := 1026
  const R_A64_RELATIVE := 1027

  // ---------------------------------------------------------------- .dynsym

  /** The first index other than 0 whose symbol has the name; 0 when there is none. */
  function DynIndex(l: Link, dynsyms: seq<nat>, name: string): (d: nat)
    ensures d > 0 ==> d < |dynsyms| && NameOf(l, dynsyms[d]) == name
  {
    if |dynsyms| <= 1 then 0
    else
      var n := |dynsyms| - 1;
      var d := DynIndex(l, dynsyms[..n], name);
      if d > 0 then d
      else if NameOf(l, dynsyms[n]) == name then n
      else 0
  }

  /** The layout's loop that gives every import a .dynsym entry. */
  function WithImports(l: Link, dynsyms: seq<nat>, imports: seq<Import>, n: nat): (r: seq<nat>)
    requires n <= |imports|
    ensures dynsyms <= r
  {
    if n == 0 then dynsyms
    else
      var most := WithImports(l, dynsyms, imports, n - 1);
      var sym := imports[n - 1].sym;
      if DynIndex(l, most, NameOf(l, sym)) > 0 then most else most + [sym]
  }

  lemma DynIndexStays(l: Link, dynsyms: seq<nat>, sym: nat, name: string)
    requires DynIndex(l, dynsyms, name) > 0
    ensures DynIndex(l, dynsyms + [sym], name) == DynIndex(l, dynsyms, name)
  {
    assert (dynsyms + [sym])[..|dynsyms|] == dynsyms;
  }

  /** Every import has an entry of its name. */
  lemma {:induction false} ImportsHaveEntries(l: Link, dynsyms: seq<nat>, imports: seq<Import>, n: nat, i: nat)
    requires i < n <= |imports| && dynsyms != []
    ensures var d := DynIndex(l, WithImports(l, dynsyms, imports, n), NameOf(l, imports[i].sym));
            0 < d < |WithImports(l, dynsyms, imports, n)|
            && NameOf(l, WithImports(l, dynsyms, imports, n)[d]) == NameOf(l, imports[i].sym)
  {
    hide NameOf;
    var most := WithImports(l, dynsyms, imports, n - 1);
    if i < n - 1 {
      ImportsHaveEntries(l, dynsyms, imports, n - 1, i);
      DynIndexStays(l, most, imports[n - 1].sym, NameOf(l, imports[i].sym));
    } else {
      assert (most + [imports[i].sym])[..|most|] == most;
    }
  }

  // ---------------------------------------------------------------- what is pushed

  function ImportIndex(l: Link, o: Output, imports: seq<Import>, i: nat): nat
    requires i < |imports|
  {
    DynIndex(l, o.dynsyms, NameOf(l, imports[i].sym))
  }

  function GotRela(l: Link, o: Output, imports: seq<Import>, i: nat): Rela
    requires i < |imports| && imports[i].got.Some?
  {
    Rela(o.gotVa + 8 * imports[i].got.value, if o.isA64 then R_A64_GLOB_DAT else R_X64_GLOB_DAT,
         ImportIndex(l, o, imports, i), 0)
  }

  function PltRela(l: Link, o: Output, imports: seq<Import>, i: nat): Rela
    requires i < |imports| && imports[i].plt.Some?
  {
    Rela(o.gotPltVa + 24 + 8 * imports[i].plt.value, if o.isA64 then R_A64_JUMP_SLOT else R_X64_JUMP_SLOT,
         ImportIndex(l, o, imports, i), 0)
  }

  /** The .got.plt word of a PLT slot: back into the PLT entry until the symbol is bound. */
  function PltWord(o: Output, k: nat): int {
    if o.isA64 then o.pltVa + 32 + 16 * k else o.pltVa + 16 + 16 * k + 6
  }

  /** A PLT entry: the operands of its instructions, or on AArch64 its instruction words. */
  datatype Stub = X64Stub(jump: int, index: nat, back: int) | A64Stub(adrp: nat, ldr: nat, br: nat)

  const A64_ADRP_X17 := 0x9000_0011
  const A64_LDR_X17 := 0xF940_0211
  const A64_BR_X17 := 0xD61F_0220

  /** Where entry k of the PLT starts, after the entry that calls the resolver. */
  function EntryVa(o: Output, k: nat): int {
    o.pltVa + (if o.isA64 then 32 else 16) + 16 * k
  }

  /** The conversion to int32_t. */
  function Int32(x: int): int {
    (x + 0x8000_0000) % 0x1_0000_0000 - 0x8000_0000
  }

  /** The page distance, cut to 21 bits. It is that of the difference, not the difference of the pages. */
  function PageDiff(entry: int, slot: int): (imm: nat)
    ensures imm < 0x20_0000
  {
    ((slot - entry) / 4096) % 0x20_0000
  }

  function StubOf(o: Output, k: nat): Stub {
    var entry, slot := EntryVa(o, k), o.gotPltVa + 24 + 8 * k;
    if o.isA64 then
      var imm := PageDiff(entry, slot);
      A64Stub(A64_ADRP_X17 + imm % 4 * 0x2000_0000 + imm / 4 * 0x20, A64_LDR_X17 + slot % 4096 / 8 * 0x400, A64_BR_X17)
    else X64Stub(Int32(slot - (entry + 6)), k, Int32(o.pltVa - (entry + 16)))
  }

  /** The GLOB_DAT entries of the leading n imports. */
  function GotRelas(l: Link, o: Output, imports: seq<Import>, n: nat): (r: seq<Rela>)
    requires n <= |imports|
  {
    if n == 0 then []
    else GotRelas(l, o, imports, n - 1) + (if imports[n - 1].got.Some? then [GotRela(l, o, imports, n - 1)] else [])
  }

  datatype Outcome = Refusal | Quiet | Push(rela: Rela)

  function SizeOf(o: Output, outSec: nat): nat {
    if outSec < |o.sizes| then o.sizes[outSec] else 0
  }

  /** The code can only be entered with slots that are indices into the import table. */
  predicate SlotsFit(l: Link, o: Output, st: Planned) {
    && |st.entries| == |l.relocs| == |o.patches| && |o.finals| == |l.syms|
    && forall k :: 0 <= k < |st.entries| && st.entries[k].plan == DynAbs64 ==>
         st.entries[k].slot.Some? && st.entries[k].slot.value < |st.imports|
  }

  /** The code finds an address for what the instruction of relocation k refers to. */
  predicate TargetKnown(l: Link, o: Output, st: Planned, k: nat)
    requires SlotsFit(l, o, st) && k < |l.relocs| && l.relocs[k].sym < |l.syms|
  {
    var r, plan := l.relocs[k], st.entries[k].plan;
    var final := o.finals[r.sym];
    var here := (final.defined && !final.dynamic) || (!final.defined && l.syms[r.sym].base.binding == WeakBinding);
    match r.ty
    case X64GotPcRel => plan == GotLoad
    case X64Pc32 => plan == PltCall || plan == GotLoad || here || (final.dynamic && final.va != 0)
    case X64Plt32 => plan == PltCall || plan == GotLoad || here || (final.dynamic && final.va != 0)
    case A64Call26 => plan == PltCall || here
    case A64Jump26 => plan == PltCall || here
    case _ => plan == GotLoad || here
  }

  /** What applying relocation k does. */
  function OutcomeOf(l: Link, o: Output, st: Planned, k: nat): Outcome
    requires SlotsFit(l, o, st) && k < |l.relocs|
  {
    var r := l.relocs[k];
    var e := st.entries[k];
    if r.sec >= |l.secs| then Refusal
    else if r.ty == NoReloc then Quiet
    else if r.sym >= |l.syms| then Refusal
    else
      var place := l.secs[r.sec];
      if place.offset + r.offset + (if IsAbs64(r.ty) then 8 else 4) > SizeOf(o, place.outSec) then Refusal
      else if !IsAbs64(r.ty) then (if TargetKnown(l, o, st, k) && o.patches[k] then Quiet else Refusal)
      else if e.plan == DynAbs64 then
        Push(Rela(place.va + r.offset, if r.ty == A64Abs64 then R_A64_ABS64 else R_X64_64,
                  ImportIndex(l, o, st.imports, e.slot.value), r.addend))
      else if e.plan == Relative then
        Push(Rela(place.va + r.offset, if r.ty == A64Abs64 then R_A64_RELATIVE else R_X64_RELATIVE, 0,
                  o.finals[r.sym].va + r.addend))
      else Quiet
  }

  function Pushes(l: Link, o: Output, st: Planned, n: nat): (r: seq<Rela>)
    requires SlotsFit(l, o, st) && n <= |l.relocs|
  {
    if n == 0 then []
    else Pushes(l, o, st, n - 1) + (var x := OutcomeOf(l, o, st, n - 1); if x.Push? then [x.rela] else [])
  }

  /** None of the leading n relocations is refused. */
  predicate Fine(l: Link, o: Output, st: Planned, n: nat)
    requires SlotsFit(l, o, st) && n <= |l.relocs|
  {
    forall k :: 0 <= k < n ==> OutcomeOf(l, o, st, k) != Refusal
  }

  /** The GOT's entries for the leading n imports; none are pushed when there is no table. */
  function GotPartTo(l: Link, o: Output, st: Planned, room: nat, n: nat): seq<Rela>
    requires n <= |st.imports|
  {
    if room > 0 then GotRelas(l, o, st.imports, n) else []
  }

  function GotPart(l: Link, o: Output, st: Planned, room: nat): seq<Rela> {
    GotPartTo(l, o, st, room, |st.imports|)
  }

  /** Every PLT index has a slot, and a slot of its own. */
  predicate PltsPlaced(imports: seq<Import>, count: nat) {
    && (forall i :: 0 <= i < |imports| && imports[i].plt.Some? ==> imports[i].plt.value < count)
    && (forall i, j :: 0 <= i < j < |imports| && imports[i].plt.Some? ==> imports[i].plt != imports[j].plt)
  }

  lemma NumberedPlaced(imports: seq<Import>, count: nat)
    requires Numbered(Plts(imports), count)
    ensures PltsPlaced(imports, count)
  {
    forall i | 0 <= i < |imports| ensures Plts(imports)[i] == imports[i].plt { PltIs(imports, i); }
  }

  /** Everything that is pushed when the .rela.dyn buffer has room for that many records. */
  function AllPushes(l: Link, o: Output, st: Planned, room: nat): seq<Rela>
    requires SlotsFit(l, o, st)
  {
    GotPart(l, o, st, room) + Pushes(l, o, st, |l.relocs|)
  }

  // ---------------------------------------------------------------- planned and pushed

  lemma {:induction false} GotRelasCount(l: Link, o: Output, imports: seq<Import>, n: nat)
    requires n <= |imports|
    ensures |GotRelas(l, o, imports, n)| == SetCount(Gots(imports)[..n])
  {
    if n > 0 {
      GotRelasCount(l, o, imports, n - 1);
      assert Gots(imports)[..n][..n - 1] == Gots(imports)[..n - 1];
    }
  }

  lemma {:induction false} PushesCount(l: Link, o: Output, st: Planned, n: nat)
    requires SlotsFit(l, o, st) && n <= |l.relocs| && SlotsRight(l, st)
    ensures |Pushes(l, o, st, n)| <= WordCount(st.entries[..n])
    ensures Fine(l, o, st, n) ==> |Pushes(l, o, st, n)| == WordCount(st.entries[..n])
  {
    if n > 0 {
      PushesCount(l, o, st, n - 1);
      OneOutcome(l, o, st, n - 1);
      hide OutcomeOf, SlotRight;
      assert st.entries[..n][..n - 1] == st.entries[..n - 1];
    }
  }

  /** A relocation pushes only if it was counted, and then unless it is refused. */
  lemma OneOutcome(l: Link, o: Output, st: Planned, k: nat)
    requires SlotsFit(l, o, st) && k < |l.relocs| && SlotsRight(l, st)
    ensures var x := OutcomeOf(l, o, st, k);
            && (x.Push? ==> st.entries[k].plan in {Relative, DynAbs64})
            && (st.entries[k].plan in {Relative, DynAbs64} && x != Refusal ==> x.Push?)
  {
    assert SlotRight(l, st.imports, l.relocs[k], st.entries[k]);
    hide ImportOf, NameOf;
  }

  /** After a first layout no push overflows, and if nothing is refused the pushes are as many as were planned. */
  lemma PlannedIsPushed(l: Link, o: Output)
    requires PlanTo(l, [], |l.relocs|).Some? && |o.patches| == |l.relocs| && |o.finals| == |l.syms|
    ensures var st := PlanTo(l, [], |l.relocs|).value;
            && SlotsFit(l, o, st)
            && |AllPushes(l, o, st, st.relaCount)| <= st.relaCount
            && (Fine(l, o, st, |l.relocs|) ==> |AllPushes(l, o, st, st.relaCount)| == st.relaCount)
  {
    hide PlanTo, Fine, Numbered, NamesOnce, OutcomeOf;
    var st := PlanTo(l, [], |l.relocs|).value;
    FirstLayout(l);
    RightSlotsFit(l, o, st);
    GotRelasCount(l, o, st.imports, |st.imports|);
    assert Gots(st.imports)[..|st.imports|] == Gots(st.imports);
    PushesCount(l, o, st, |l.relocs|);
    assert st.entries[..|l.relocs|] == st.entries;
  }

  lemma RightSlotsFit(l: Link, o: Output, st: Planned)
    requires SlotsRight(l, st) && |st.entries| == |l.relocs| == |o.patches| && |o.finals| == |l.syms|
    ensures SlotsFit(l, o, st)
  {
    forall k | 0 <= k < |st.entries| && st.entries[k].plan == DynAbs64
      ensures st.entries[k].slot.Some? && st.entries[k].slot.value < |st.imports|
    {
      assert SlotRight(l, st.imports, l.relocs[k], st.entries[k]);
    }
  }

  /**
   * Any layout, applied into a buffer of any capacity, 0 standing for no buffer. If nothing is refused, the application
   * gets through with a complete table exactly when the capacity is at least the planned entries and one for each GOT
   * slot an earlier layout gave out. It also gets through without a buffer, and then without the entries of the GOT
   * slots, when no relocation pushes an entry of its own.
   */
  lemma LayoutFitsIff(l: Link, o: Output, imports: seq<Import>, room: nat)
    requires PlanTo(l, imports, |l.relocs|).Some? && NamesOnce(l, imports)
    requires |o.patches| == |l.relocs| && |o.finals| == |l.syms|
    ensures var st := PlanTo(l, imports, |l.relocs|).value;
            && SlotsFit(l, o, st)
            && (Fine(l, o, st, |l.relocs|) ==>
                  && (|AllPushes(l, o, st, room)| <= room && IsComplete(l, o, st, room)
                      <==> st.relaCount + SetCount(Gots(imports)) <= room)
                  && (|AllPushes(l, o, st, room)| <= room
                      <==> st.relaCount + SetCount(Gots(imports)) <= room || (room == 0 && WordCount(st.entries) == 0)))
  {
    hide PlanTo, Fine, Numbered, NamesOnce, OutcomeOf;
    var st := PlanTo(l, imports, |l.relocs|).value;
    SlotsKept(l, imports, |l.relocs|);
    RightSlotsFit(l, o, st);
    ConservedIff(l, imports);
    GotRelasCount(l, o, st.imports, |st.imports|);
    assert Gots(st.imports)[..|st.imports|] == Gots(st.imports);
    PushesCount(l, o, st, |l.relocs|);
    assert st.entries[..|l.relocs|] == st.entries;
  }

  /** The table has the entries of all GOT slots. */
  predicate IsComplete(l: Link, o: Output, st: Planned, room: nat) {
    GotPart(l, o, st, room) == GotRelas(l, o, st.imports, |st.imports|)
  }

  /**
   * Into a buffer made for this very layout: the application gets through exactly when no import had a GOT slot before
   * or the layout plans no entry at all, and the table is complete exactly in the first case.
   */
  lemma OwnBufferIff(l: Link, o: Output, imports: seq<Import>)
    requires PlanTo(l, imports, |l.relocs|).Some? && NamesOnce(l, imports)
    requires |o.patches| == |l.relocs| && |o.finals| == |l.syms|
    ensures var st := PlanTo(l, imports, |l.relocs|).value;
            var slotless := forall i :: 0 <= i < |imports| ==> imports[i].got == None;
            && SlotsFit(l, o, st)
            && (Fine(l, o, st, |l.relocs|) ==>
                  && (|AllPushes(l, o, st, st.relaCount)| <= st.relaCount <==> slotless || st.relaCount == 0)
                  && (|AllPushes(l, o, st, st.relaCount)| <= st.relaCount && IsComplete(l, o, st, st.relaCount)
                      <==> slotless))
  {
    hide PlanTo, Fine, Numbered, NamesOnce, OutcomeOf, AllPushes, IsComplete, SlotsFit;
    var st := PlanTo(l, imports, |l.relocs|).value;
    LayoutFitsIff(l, o, imports, st.relaCount);
    ConservedIff(l, imports);
    WordsPlanned(l, imports);
  }

  /** Every relocation that pushes an entry of its own was planned one. */
  lemma WordsPlanned(l: Link, imports: seq<Import>)
    requires PlanTo(l, imports, |l.relocs|).Some? && NamesOnce(l, imports)
    ensures WordCount(PlanTo(l, imports, |l.relocs|).value.entries) <= PlanTo(l, imports, |l.relocs|).value.relaCount
  {
    hide PlanTo, NamesOnce;
    NoneIsSet(Gots(imports));
    PlanKeeps(l, imports, |l.relocs|);
  }

  /** What the link of the GOT load comes to: 4 bytes of text, and the function, still of the shared object. */
  function GotLoadOutput(): Output {
    Output(false, 8192, 12288, 16384, [4], [Final(0, true, true)], [0, 0], [true])
  }

  /**
   * Laid out twice and then applied, it gets through and .rela.dyn lacks the record of the GOT slot; applied in
   * between, the buffer is there and the record is pushed.
   */
  lemma GotRecordIsDropped()
    ensures var l, o, st := GotLoadLink(), GotLoadOutput(), SecondLoadPlan();
            && PlanTo(l, FirstLoadPlan().imports, 1) == Some(st) && SlotsFit(l, o, st) && Fine(l, o, st, 1)
            && |AllPushes(l, o, st, st.relaCount)| <= st.relaCount && AllPushes(l, o, st, st.relaCount) == []
            && AllPushes(l, o, st, FirstLoadPlan().relaCount) == [GotRela(l, o, st.imports, 0)]
  {
    hide PlanTo, OutcomeOf, Pushes, GotRelas, SlotsFit, AllPushes, GotRela, GotLoadLink, GotLoadOutput, Fine, Needed,
      FirstLoadPlan, SecondLoadPlan;
    SecondLayoutIsShort();
    LoadSlot(SecondLoadPlan());
    var l, o, st := GotLoadLink(), GotLoadOutput(), SecondLoadPlan();
    LoadApplies(l, o, st);
    OnePush(l, o, st);
  }

  lemma LoadSlot(st: Planned)
    requires st == SecondLoadPlan()
    ensures |st.imports| == 1 && st.imports[0].got.Some?
  {
  }

  lemma LoadApplies(l: Link, o: Output, st: Planned)
    requires l == GotLoadLink() && o == GotLoadOutput() && st == SecondLoadPlan()
    ensures |l.relocs| == 1 && SlotsFit(l, o, st) && OutcomeOf(l, o, st, 0) == Quiet
  {
    hide ImportIndex;
  }

  /** A link of one relocation that pushes nothing, with one GOT slot. */
  lemma OnePush(l: Link, o: Output, st: Planned)
    requires |l.relocs| == 1 && SlotsFit(l, o, st) && OutcomeOf(l, o, st, 0) == Quiet
    requires |st.imports| == 1 && st.imports[0].got.Some?
    ensures Fine(l, o, st, 1) && AllPushes(l, o, st, 0) == []
            && AllPushes(l, o, st, 1) == [GotRela(l, o, st.imports, 0)]
  {
    hide OutcomeOf, SlotsFit, GotRela;
    assert Pushes(l, o, st, 0) == [];
    assert GotRelas(l, o, st.imports, 0) == [];
  }

  /** A pushed absolute word names, by its .dynsym index, the symbol its relocation names. */
  lemma WordsNameTheirSymbol(l: Link, o: Output, st: Planned, start: seq<nat>, k: nat)
    requires SlotsFit(l, o, st) && SlotsRight(l, st) && k < |l.relocs| && start != []
    requires o.dynsyms == WithImports(l, start, st.imports, |st.imports|)
    requires st.entries[k].plan == DynAbs64 && OutcomeOf(l, o, st, k).Push?
    ensures var d := OutcomeOf(l, o, st, k).rela.dynsym;
            0 < d < |o.dynsyms| && NameOf(l, o.dynsyms[d]) == NameOf(l, l.relocs[k].sym)
  {
    assert SlotRight(l, st.imports, l.relocs[k], st.entries[k]);
    ImportsHaveEntries(l, start, st.imports, |st.imports|, st.entries[k].slot.value);
  }

  // ---------------------------------------------------------------- the code

  class Tables {
    const link: Link
    const plan: Planned
    const out: Output
    const room: nat
    const pltRoom: nat
    const relaDyn: array<Rela>
    const relaPlt: array<Rela>
    const gotPlt: array<int>
    const plt: array<Stub>
    var used: nat

    ghost predicate Valid() {
      && relaDyn.Length == room && relaPlt.Length == plt.Length == pltRoom
         && gotPlt.Length == (if pltRoom > 0 then 3 + pltRoom else 0)
      && relaDyn != relaPlt && SlotsFit(link, out, plan)
    }

    /**
     * The buffers are made by the first application, for the counts of its layout; a later one finds them as large
     * as they were made.
     */
    constructor (link: Link, plan: Planned, out: Output, room: nat, pltRoom: nat)
      requires SlotsFit(link, out, plan)
      ensures Valid() && this.link == link && this.plan == plan && this.out == out && used == 0
      ensures this.room == room && this.pltRoom == pltRoom
      ensures fresh(relaDyn) && fresh(relaPlt) && fresh(gotPlt) && fresh(plt)
    {
      this.link, this.plan, this.out, this.room, this.pltRoom := link, plan, out, room, pltRoom;
      relaDyn := new Rela[room](_ => Rela(0, 0, 0, 0));
      relaPlt := new Rela[pltRoom](_ => Rela(0, 0, 0, 0));
      gotPlt := new int[if pltRoom > 0 then 3 + pltRoom else 0](_ => 0);
      plt := new Stub[pltRoom](_ => X64Stub(0, 0, 0));
      used := 0;
    }

    /** The entries attempted so far, in the slots there are. */
    ghost predicate Written(xs: seq<Rela>)
      reads this, relaDyn
    {
      used == |xs| && forall k :: 0 <= k < |xs| && k < relaDyn.Length ==> relaDyn[k] == xs[k]
    }

    /** push_rela_dyn; the index advances even when there is no room. */
    method PushRela(x: Rela, ghost xs: seq<Rela>) returns (ok: bool)
      requires Written(xs)
      modifies `used, relaDyn
      ensures Written(xs + [x]) && ok == (|xs| < relaDyn.Length)
    {
      ok := used < relaDyn.Length;
      if ok { relaDyn[used] := x; }
      used := used + 1;
    }

    /** The PLT entries of the leading n imports are in their slots. */
    ghost predicate PltsWritten(n: nat)
      requires Valid() && n <= |plan.imports| && PltsPlaced(plan.imports, pltRoom)
      reads relaPlt, gotPlt, plt
    {
      forall i {:trigger plan.imports[i]} :: 0 <= i < n && plan.imports[i].plt.Some? ==>
        var k := plan.imports[i].plt.value;
        relaPlt[k] == PltRela(link, out, plan.imports, i) && gotPlt[3 + k] == PltWord(out, k)
          && plt[k] == StubOf(out, k)
    }

    /** The loop over the imports. Its check of the .rela.plt index cannot fail, as the indices are below the count. */
    method ApplyImports() returns (ok: bool)
      requires Valid() && Written([]) && PltsPlaced(plan.imports, pltRoom)
      modifies this, relaDyn, relaPlt, gotPlt, plt
      ensures ok == (|GotPart(link, out, plan, room)| <= room)
      ensures ok ==> Written(GotPart(link, out, plan, room)) && PltsWritten(|plan.imports|)
    {
      hide Written, PltsWritten, PltsPlaced, GotPartTo, SlotsFit;
      GotPartStart();
      NoPltsYet();
      var i := 0;
      while i < |plan.imports|
        invariant 0 <= i <= |plan.imports| && PltsWritten(i)
        invariant Written(GotPartTo(link, out, plan, room, i)) && |GotPartTo(link, out, plan, room, i)| <= room
      {
        GotPartNext(i);
        WritePlt(i);
        ok := PushGot(i);
        if !ok { return; }
        i := i + 1;
      }
      ok := true;
    }

    lemma NoPltsYet()
      requires Valid() && PltsPlaced(plan.imports, pltRoom)
      ensures PltsWritten(0)
    {
    }

    lemma GotPartStart()
      ensures GotPartTo(link, out, plan, room, 0) == []
    {
    }

    lemma GotPartNext(i: nat)
      requires i < |plan.imports|
      ensures GotPartTo(link, out, plan, room, i + 1) == GotPartTo(link, out, plan, room, i) +
              (if room > 0 && plan.imports[i].got.Some? then [GotRela(link, out, plan.imports, i)] else [])
      ensures |GotPartTo(link, out, plan, room, i + 1)| <= |GotPart(link, out, plan, room)|
    {
      GotRelasGrow(i + 1, |plan.imports|);
    }

    /** One import's entry for its GOT slot. */
    method PushGot(i: nat) returns (ok: bool)
      requires Valid() && i < |plan.imports| && Written(GotPartTo(link, out, plan, room, i))
      requires |GotPartTo(link, out, plan, room, i)| <= room
      requires GotPartTo(link, out, plan, room, i + 1) == GotPartTo(link, out, plan, room, i) +
               (if room > 0 && plan.imports[i].got.Some? then [GotRela(link, out, plan.imports, i)] else [])
      modifies `used, relaDyn
      ensures Written(GotPartTo(link, out, plan, room, i + 1))
              && (ok <==> |GotPartTo(link, out, plan, room, i + 1)| <= room)
    {
      hide Written, GotPartTo, SlotsFit, GotRela;
      ghost var xs := GotPartTo(link, out, plan, room, i);
      ok := true;
      assert xs + [] == xs;
      if plan.imports[i].got.Some? && relaDyn.Length > 0 {
        ok := PushRela(GotRela(link, out, plan.imports, i), xs);
      }
    }

    /** One import's entries in .got.plt, .plt and .rela.plt. */
    method WritePlt(i: nat)
      requires Valid() && i < |plan.imports| && PltsPlaced(plan.imports, pltRoom) && PltsWritten(i)
      modifies relaPlt, gotPlt, plt
      ensures PltsWritten(i + 1)
    {
      hide PltRela, PltWord, StubOf, SlotsFit;
      if plan.imports[i].plt.None? || relaPlt.Length == 0 { return; }
      var k := plan.imports[i].plt.value;
      gotPlt[3 + k] := PltWord(out, k);
      plt[k] := StubOf(out, k);
      relaPlt[k] := PltRela(link, out, plan.imports, i);
    }

    lemma {:induction false} GotRelasGrow(m: nat, n: nat)
      requires m <= n <= |plan.imports|
      ensures |GotRelas(link, out, plan.imports, m)| <= |GotRelas(link, out, plan.imports, n)|
      decreases n
    {
      if m < n { GotRelasGrow(m, n - 1); }
    }

    /** The loop over the relocations. */
    method ApplyRelocs() returns (ok: bool)
      requires Valid() && Written(GotPart(link, out, plan, room)) && |GotPart(link, out, plan, room)| <= room
      modifies `used, relaDyn
      ensures Written(AllPushes(link, out, plan, room))
      ensures ok <==> Fine(link, out, plan, |link.relocs|) && |AllPushes(link, out, plan, room)| <= room
    {
      hide OutcomeOf, GotPart, SlotsFit;
      ghost var start := GotPart(link, out, plan, room);
      ok := true;
      var r := 0;
      assert start + [] == start;
      while r < |link.relocs|
        invariant 0 <= r <= |link.relocs| && Written(start + Pushes(link, out, plan, r))
        invariant ok <==> Fine(link, out, plan, r) && |start| + |Pushes(link, out, plan, r)| <= room
      {
        var fine := ApplyOne(r, start + Pushes(link, out, plan, r));
        ok := ok && fine;
        r := r + 1;
      }
    }

    /** One relocation. */
    method ApplyOne(r: nat, ghost xs: seq<Rela>) returns (ok: bool)
      requires Valid() && r < |link.relocs| && Written(xs)
      modifies `used, relaDyn
      ensures var x := OutcomeOf(link, out, plan, r);
              && Written(if x.Push? then xs + [x.rela] else xs)
              && (ok <==> x != Refusal && (x.Push? ==> |xs| < room))
    {
      hide ImportIndex;
      var reloc := link.relocs[r];
      if reloc.sec >= |link.secs| { return false; }
      if reloc.ty == NoReloc { return true; }
      var sec := link.secs[reloc.sec];
      var placeVa := sec.va + reloc.offset;
      if reloc.sym >= |link.syms| { return false; }
      if reloc.ty == X64Abs64 || reloc.ty == A64Abs64 {
        if sec.offset + reloc.offset + 8 > SizeOf(out, sec.outSec) { return false; }
        ok := true;
        if plan.entries[r].plan == DynAbs64 {
          var d := ImportIndex(link, out, plan.imports, plan.entries[r].slot.value);
          ok := PushRela(Rela(placeVa, if reloc.ty == A64Abs64 then R_A64_ABS64 else R_X64_64, d, reloc.addend), xs);
        } else if plan.entries[r].plan == Relative {
          var val := out.finals[reloc.sym].va + reloc.addend;
          ok := PushRela(Rela(placeVa, if reloc.ty == A64Abs64 then R_A64_RELATIVE else R_X64_RELATIVE, 0, val), xs);
        }
      } else {
        if sec.offset + reloc.offset + 4 > SizeOf(out, sec.outSec) { return false; }
        ok := TargetKnown(link, out, plan, r) && out.patches[r];
      }
    }

    /** nylink_apply_relocations_internal. */
    method Apply() returns (ok: bool)
      requires Valid() && used == 0 && PltsPlaced(plan.imports, pltRoom)
      modifies this, relaDyn, relaPlt, gotPlt, plt
      ensures ok <==> Fine(link, out, plan, |link.relocs|) && |AllPushes(link, out, plan, room)| <= room
      ensures ok ==> Written(AllPushes(link, out, plan, room)) && PltsWritten(|plan.imports|)
    {
      hide Fine, PltsPlaced, SlotsFit, Pushes, GotPart;
      ok := ApplyImports();
      if ok { ok := ApplyRelocs(); }
    }
  }
}
