/** Numbers as written-out lists of bytes. */
module ByteLists {
  import opened Bytes

  lemma NextByte(b: byte, n: nat, bs: seq<byte>)
    requires ToBytes(n, |bs|) == bs
    ensures ToBytes(b + 0x100 * n, |bs| + 1) == [b] + bs
  {
    assert (b + 0x100 * n) % 256 == b && (b + 0x100 * n) / 256 == n;
  }

  lemma TwoBytes(b0: byte, b1: byte, high: nat, n: nat, bs: seq<byte>, out: seq<byte>)
    requires ToBytes(high, |bs|) == bs && n == b0 + 0x100 * b1 + 0x1_0000 * high && out == [b0, b1] + bs
    ensures ToBytes(n, |out|) == out
  {
    hide ToBytes;
    var mid := [b1] + bs;
    NextByte(b1, high, bs);
    NextByte(b0, b1 + 0x100 * high, mid);
    assert [b0] + mid == out;
  }

  lemma FourBytes(b0: byte, b1: byte, b2: byte, b3: byte, high: nat, n: nat, bs: seq<byte>, out: seq<byte>)
    requires ToBytes(high, |bs|) == bs && out == [b0, b1, b2, b3] + bs
    requires n == b0 + 0x100 * b1 + 0x1_0000 * (b2 + 0x100 * b3 + 0x1_0000 * high)
    ensures ToBytes(n, |out|) == out
  {
    hide ToBytes;
    var mid := [b2, b3] + bs;
    assert out == [b0, b1] + mid;
    TwoBytes(b2, b3, high, b2 + 0x100 * b3 + 0x1_0000 * high, bs, mid);
    TwoBytes(b0, b1, b2 + 0x100 * b3 + 0x1_0000 * high, n, mid, out);
  }

  lemma TwoAre(n: nat, b0: byte, b1: byte)
    requires n == b0 + 0x100 * b1
    ensures ToBytes(n, 2) == [b0, b1]
  {
    assert ToBytes(0, 0) == [];
    hide ToBytes;
    TwoBytes(b0, b1, 0, n, [], [b0, b1]);
  }

  lemma FourAre(n: nat, b0: byte, b1: byte, b2: byte, b3: byte)
    requires n == b0 + 0x100 * b1 + 0x1_0000 * b2 + 0x100_0000 * b3
    ensures ToBytes(n, 4) == [b0, b1, b2, b3]
  {
    assert ToBytes(0, 0) == [];
    hide ToBytes;
    FourBytes(b0, b1, b2, b3, 0, n, [], [b0, b1, b2, b3]);
  }
}
