/**
 * Where the entries of the PLT that src/nylink/nylink_reloc.c writes jump: by the processors' rules, to what the
 * entry's own word of .got.plt holds exactly under a condition on the two addresses.
 */
module DynStub {
  import opened DynApply

  /** The immediate of an ADRP instruction. */
  function AdrpImm(word: nat): nat {
    word / 0x20 % 0x8_0000 * 4 + word / 0x2000_0000 % 4
  }

  /** The immediate of an LDR instruction of 64 bits, in units of 8 bytes. */
  function LdrImm(word: nat): nat {
    word / 0x400 % 0x1000
  }

  function Signed21(imm: nat): int {
    if imm < 0x10_0000 then imm else imm - 0x20_0000
  }

  /** The address whose contents an entry at the given address jumps to: JMP counts from the end of its 6 bytes. */
  function JumpsThrough(stub: Stub, entry: int): int {
    match stub
    case X64Stub(jump, _, _) => entry + 6 + jump
    case A64Stub(adrp, ldr, _) => entry - entry % 4096 + 4096 * Signed21(AdrpImm(adrp)) + 8 * LdrImm(ldr)
  }

  lemma AdrpFields(low: nat, high: nat)
    requires low < 4 && high < 0x8_0000
    ensures AdrpImm(A64_ADRP_X17 + low * 0x2000_0000 + high * 0x20) == high * 4 + low
  {
    var word := A64_ADRP_X17 + low * 0x2000_0000 + high * 0x20;
    assert word / 0x20 == 0x8_0000 * (0x90 + low * 0x20) + high;
    assert word / 0x2000_0000 == 4 + low;
  }

  lemma LdrField(imm: nat)
    requires imm < 0x1000
    ensures LdrImm(A64_LDR_X17 + imm * 0x400) == imm
  {
    assert (A64_LDR_X17 + imm * 0x400) / 0x400 == 0x1000 * 0x3E5 + imm;
  }

  /** What the instruction words of an AArch64 entry carry. */
  lemma StubOperands(o: Output, k: nat)
    requires o.isA64
    ensures var slot := o.gotPltVa + 24 + 8 * k;
            && StubOf(o, k).A64Stub?
            && AdrpImm(StubOf(o, k).adrp) == PageDiff(EntryVa(o, k), slot)
               && LdrImm(StubOf(o, k).ldr) == slot % 4096 / 8
  {
    hide AdrpImm, LdrImm;
    var slot := o.gotPltVa + 24 + 8 * k;
    var imm := PageDiff(EntryVa(o, k), slot);
    AdrpFields(imm % 4, imm / 4);
    LdrField(slot % 4096 / 8);
  }

  /** The distance of the pages and the page of the distance. */
  lemma PagesApart(entry: int, slot: int)
    ensures (slot - entry) / 4096 ==
            slot / 4096 - entry / 4096 - (if entry % 4096 <= slot % 4096 then 0 else 1)
  {
  }

  lemma SignedPage(d: int)
    ensures Signed21(d % 0x20_0000) == d <==> -0x10_0000 <= d < 0x10_0000
    ensures Signed21(d % 0x20_0000) != d + 1
  {
  }

  /**
   * An entry jumps to what its own word holds: on x86-64 whenever the word is within 2 GB; on AArch64 when the word is
   * aligned, within 4 GB, and not lower in its page than the entry is in its own.
   */
  lemma StubReachesIff(o: Output, k: nat)
    ensures var entry, slot := EntryVa(o, k), o.gotPltVa + 8 * (3 + k);
            JumpsThrough(StubOf(o, k), entry) == slot <==>
            if o.isA64
            then slot % 8 == 0 && entry % 4096 <= slot % 4096 && -0x10_0000 <= slot / 4096 - entry / 4096 < 0x10_0000
            else -0x8000_0000 <= slot - (entry + 6) < 0x8000_0000
  {
    var entry, slot := EntryVa(o, k), o.gotPltVa + 8 * (3 + k);
    if o.isA64 {
      hide StubOf, AdrpImm, LdrImm;
      StubOperands(o, k);
      PagesApart(entry, slot);
      SignedPage((slot - entry) / 4096);
      A64Reaches(entry, slot, Signed21(PageDiff(entry, slot)));
    }
  }

  lemma A64Reaches(entry: int, slot: int, pages: int)
    ensures entry - entry % 4096 + 4096 * pages + 8 * (slot % 4096 / 8) == slot <==>
            slot % 8 == 0 && pages == slot / 4096 - entry / 4096
  {
    var s := slot % 4096;
    assert slot == 4096 * (slot / 4096) + s && entry - entry % 4096 == 4096 * (entry / 4096);
    assert s % 8 == slot % 8;
    PageAndRest(entry / 4096 + pages, slot / 4096, s);
  }

  lemma PageAndRest(p: int, q: int, s: nat)
    requires s < 4096
    ensures 4096 * p + 8 * (s / 8) == 4096 * q + s <==> p == q && s % 8 == 0
  {
  }

  /**
   * The layout puts .got.plt at the start of a page, so on AArch64 no entry in the page where the PLT starts
   * jumps through its own word.
   */
  lemma FirstPageMisses(o: Output, k: nat)
    requires o.isA64 && o.gotPltVa % 4096 == 0 && o.pltVa % 4096 + 32 + 16 * k < 4096
    ensures JumpsThrough(StubOf(o, k), EntryVa(o, k)) != o.gotPltVa + 8 * (3 + k)
  {
    hide StubOf, JumpsThrough;
    StubReachesIff(o, k);
  }
}
