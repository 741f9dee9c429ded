/**
 * The bytes of a base relocation section (src/nylink/nylink_emit_pe.c), written out for three addresses in two pages.
 */
module BaseRelocBytes {
  import opened Bytes
  import opened ByteLists
  import opened BaseRelocs

  const RVAS: seq<nat> := [0x1_2004, 0x1_2ABC, 0x1_3008]

  /** Of each page its address, the size of its block, and a word per address: type 10 and the offset; then padding. */
  const FIRST_BLOCK: seq<byte> := [0x00, 0x20, 0x01, 0x00, 0x0C, 0x00, 0x00, 0x00, 0x04, 0xA0, 0xBC, 0xAA]
  const SECOND_BLOCK: seq<byte> := [0x00, 0x30, 0x01, 0x00, 0x0C, 0x00, 0x00, 0x00, 0x08, 0xA0, 0x00, 0x00]

  lemma TwoWords(a: nat, b: nat)
    ensures Words([a, b]) == ToBytes(a, 2) + ToBytes(b, 2)
  {
    hide ToBytes;
    assert [a, b][1..] == [b] && [b][1..] == [];
  }

  lemma BlockIs(page: nat, rvas: seq<nat>, a: nat, b: nat)
    requires Entries(rvas) == [a, b]
    ensures BlockBytes(page, rvas) == ToBytes(page, 4) + ToBytes(12, 4) + (ToBytes(a, 2) + ToBytes(b, 2))
  {
    hide ToBytes, Entries, Words;
    TwoWords(a, b);
  }

  lemma FirstBlock(rvas: seq<nat>)
    requires rvas == [0x1_2004, 0x1_2ABC]
    ensures BlockBytes(0x1_2000, rvas) == FIRST_BLOCK
  {
    hide ToBytes, BlockBytes;
    assert Entries(rvas) == [0xA004, 0xAABC];
    BlockIs(0x1_2000, rvas, 0xA004, 0xAABC);
    FourAre(0x1_2000, 0x00, 0x20, 0x01, 0x00);
    FourAre(12, 0x0C, 0, 0, 0);
    TwoAre(0xA004, 0x04, 0xA0);
    TwoAre(0xAABC, 0xBC, 0xAA);
  }

  lemma SecondBlock(rvas: seq<nat>)
    requires rvas == [0x1_3008]
    ensures BlockBytes(0x1_3000, rvas) == SECOND_BLOCK
  {
    hide ToBytes, BlockBytes;
    assert Entries(rvas) == [0xA008, 0];
    BlockIs(0x1_3000, rvas, 0xA008, 0);
    FourAre(0x1_3000, 0x00, 0x30, 0x01, 0x00);
    FourAre(12, 0x0C, 0, 0, 0);
    TwoAre(0xA008, 0x08, 0xA0);
    TwoAre(0, 0, 0);
  }

  lemma PagesOf(s: seq<nat>)
    requires s == RVAS
    ensures OnPage(s, 0x1_2000) == 2 && PageOf(s[0]) == 0x1_2000 && PageOf(s[2]) == 0x1_3000
    ensures OnPage(s[2..], 0x1_3000) == 1
  {
    OnPageNext(s, 0, 0x1_2000);
    OnPageNext(s, 1, 0x1_2000);
    OnPageNext(s, 2, 0x1_2000);
    OnPageNext(s, 2, 0x1_3000);
    OnPageNext(s, 3, 0x1_3000);
    assert s[0..] == s;
  }

  /** The section of these addresses is these bytes. */
  lemma SectionIs()
    ensures Packed(RVAS) == FIRST_BLOCK + SECOND_BLOCK
  {
    hide BlockBytes, OnPage;
    var s := RVAS;
    PagesOf(s);
    FirstBlock(s[..2]);
    SecondBlock(s[2..]);
    assert s[2..][..1] == s[2..] && s[2..][1..] == [];
    assert Packed(s[2..]) == BlockBytes(0x1_3000, s[2..]) + Packed([]);
    assert Packed(s) == BlockBytes(0x1_2000, s[..2]) + Packed(s[2..]);
  }
}
