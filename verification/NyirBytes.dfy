/**
 * The bytes of src/nygen/nyir.c, written out: a module with every kind of record and operand, no two fields of a record
 * alike, next to its encoding. Nothing here is computed by the format's own functions, so the order and the width of
 * every field, the magic, the version, the operand kinds and the first type id are fixed by these lists.
 */
module NyirBytes {
  import opened Bytes
  import opened ByteLists
  import opened IntFold
  import opened NyirFormat
  import opened NyirRoundTrip
  import opened NyirDecoded

  // ---------------------------------------------------------------- numbers and lists

  lemma Num1(n: byte)
    ensures forall rest: seq<byte> :: NumThen(n, 1, rest) == [n] + rest
  {
    NextByte(n, 0, []);
  }

  lemma Num2(n: nat, b0: byte, b1: byte)
    requires n == b0 + 0x100 * b1
    ensures forall rest: seq<byte> :: NumThen(n, 2, rest) == [b0, b1] + rest
  {
    hide ToBytes;
    TwoAre(n, b0, b1);
  }

  lemma Num4(n: nat, b0: byte, b1: byte, b2: byte, b3: byte)
    requires n == b0 + 0x100 * b1 + 0x1_0000 * b2 + 0x100_0000 * b3
    ensures forall rest: seq<byte> :: NumThen(n, 4, rest) == [b0, b1, b2, b3] + rest
    ensures ToBytes(n, 4) == [b0, b1, b2, b3]
  {
    hide ToBytes;
    FourAre(n, b0, b1, b2, b3);
  }

  lemma Num8(n: nat, high: nat, b0: byte, b1: byte, b2: byte, b3: byte, b4: byte, b5: byte, b6: byte, b7: byte)
    requires high == b4 + 0x100 * b5 + 0x1_0000 * b6 + 0x100_0000 * b7
    requires n == b0 + 0x100 * b1 + 0x1_0000 * b2 + 0x100_0000 * b3 + 0x1_0000_0000 * high
    ensures forall rest: seq<byte> :: NumThen(n, 8, rest) == [b0, b1, b2, b3, b4, b5, b6, b7] + rest
  {
    Num4(high, b4, b5, b6, b7);
    hide ToBytes;
    FourBytes(b0, b1, b2, b3, high, n, [b4, b5, b6, b7], [b0, b1, b2, b3, b4, b5, b6, b7]);
  }

  lemma OneId(a: nat, rest: seq<byte>)
    ensures IdsThen([a], rest) == NumThen(a, 4, rest)
  {
    hide NumThen;
    var none: seq<nat> := [];
    assert [a][1..] == none && ManyThen(none, IdThen, rest) == rest;
  }

  lemma TwoIds(a: nat, b: nat, rest: seq<byte>)
    ensures IdsThen([a, b], rest) == NumThen(a, 4, NumThen(b, 4, rest))
  {
    hide NumThen;
    OneId(b, rest);
    assert [a, b][1..] == [b];
  }

  /** A list of records whose bytes are known, one by one. */
  lemma {:induction false} ManyBytes<T>(xs: seq<T>, enc: (T, seq<byte>) -> seq<byte>, bytes: seq<seq<byte>>, k: nat,
                                        rest: seq<byte>)
    requires |xs| == |bytes| && k <= |xs|
    requires forall i, r :: 0 <= i < |xs| ==> enc(xs[i], r) == bytes[i] + r
    ensures ManyThen(xs[k..], enc, rest) == Joined(bytes[k..]) + rest
    decreases |xs| - k
  {
    if k < |xs| {
      ManyBytes(xs, enc, bytes, k + 1, rest);
      assert xs[k..][1..] == xs[k + 1..] && bytes[k..][1..] == bytes[k + 1..];
      var r := ManyThen(xs[k + 1..], enc, rest);
      assert enc(xs[k], r) == bytes[k] + r;
    }
  }

  function Joined(bytes: seq<seq<byte>>): seq<byte> {
    if bytes == [] then [] else bytes[0] + Joined(bytes[1..])
  }
  // ---------------------------------------------------------------- one record of each kind

  const TYPE: Type :=
    Type(4, 0x11, 0x12, 3, 0x14, 0x15, [0x54], [5, 10], [0x17, 0x18])

  const TYPE_HEAD: seq<byte> :=
    [0x04, 0x11, 0x00, 0x00, 0x00, 0x12, 0x00, 0x00, 0x00, 0x03, 0x00, 0x00, 0x00]

  const TYPE_SHAPE: seq<byte> :=
    [0x14, 0x00, 0x15, 0x00, 0x00, 0x00, 0x02, 0x00, 0x00, 0x00, 0x01, 0x00, 0x00, 0x00, 0x54]

  const TYPE_FIELDS: seq<byte> :=
    [0x05, 0x00, 0x00, 0x00, 0x0A, 0x00, 0x00, 0x00, 0x17, 0x00, 0x00, 0x00, 0x18, 0x00, 0x00, 0x00]

  lemma TypeFieldBytes(rest: seq<byte>)
    ensures IdsThen([5, 10], IdsThen([0x17, 0x18], rest)) == TYPE_FIELDS + rest
  {
    hide NumThen, IdsThen;
    TwoIds(5, 10, IdsThen([0x17, 0x18], rest));
    TwoIds(0x17, 0x18, rest);
    Num4(5, 0x05, 0, 0, 0);
    Num4(0xA, 0x0A, 0, 0, 0);
    Num4(0x17, 0x17, 0, 0, 0);
    Num4(0x18, 0x18, 0, 0, 0);
  }

  lemma TypeShapeBytes(rest: seq<byte>)
    ensures NumThen(0x14, 2, NumThen(0x15, 4, NumThen(2, 4, StrThen([0x54], rest)))) == TYPE_SHAPE + rest
  {
    hide NumThen;
    Num2(0x14, 0x14, 0);
    Num4(0x15, 0x15, 0, 0, 0);
    Num4(2, 0x02, 0, 0, 0);
    Num4(1, 0x01, 0, 0, 0);
  }

  lemma TypeBytes(rest: seq<byte>)
    ensures TypeThen(TYPE, rest) == TYPE_HEAD + (TYPE_SHAPE + (TYPE_FIELDS + rest))
  {
    hide NumThen, StrThen, IdsThen;
    TypeFieldBytes(rest);
    TypeShapeBytes(TYPE_FIELDS + rest);
    Num1(4);
    Num4(0x11, 0x11, 0, 0, 0);
    Num4(0x12, 0x12, 0, 0, 0);
    Num4(3, 0x03, 0, 0, 0);
  }

  const GLOBAL: Global :=
    Global([0x67], 6, 1, 0x21, 2, Some([0x22, 0x23]))

  const GLOBAL_BYTES: seq<byte> :=
    [0x01, 0x00, 0x00, 0x00, 0x67, 0x06, 0x00, 0x00, 0x00, 0x01, 0x21, 0x00, 0x00, 0x00, 0x02, 0x00, 0x00, 0x00,
     0x22, 0x23]

  lemma GlobalBytes(rest: seq<byte>)
    ensures GlobalThen(GLOBAL, rest) == GLOBAL_BYTES + rest
  {
    hide NumThen;
    Num4(1, 0x01, 0, 0, 0);
    Num4(6, 0x06, 0, 0, 0);
    Num1(1);
    Num4(0x21, 0x21, 0, 0, 0);
    Num4(2, 0x02, 0, 0, 0);
  }

  const BARE_GLOBAL: Global :=
    Global([0x68, 0x69], 7, 2, 0x24, 0, None)

  const BARE_GLOBAL_BYTES: seq<byte> :=
    [0x02, 0x00, 0x00, 0x00, 0x68, 0x69, 0x07, 0x00, 0x00, 0x00, 0x02, 0x24, 0x00, 0x00, 0x00, 0x00, 0x00, 0x00,
     0x00]

  lemma BareGlobalBytes(rest: seq<byte>)
    ensures GlobalThen(BARE_GLOBAL, rest) == BARE_GLOBAL_BYTES + rest
  {
    hide NumThen;
    Num4(2, 0x02, 0, 0, 0);
    Num4(7, 0x07, 0, 0, 0);
    Num1(2);
    Num4(0x24, 0x24, 0, 0, 0);
    Num4(0, 0, 0, 0, 0);
  }

  const PARAM: Param :=
    Param(2, [0x70, 0x71, 0x72])

  const PARAM_BYTES: seq<byte> :=
    [0x02, 0x00, 0x00, 0x00, 0x03, 0x00, 0x00, 0x00, 0x70, 0x71, 0x72]

  lemma ParamBytes(rest: seq<byte>)
    ensures ParamThen(PARAM, rest) == PARAM_BYTES + rest
  {
    hide NumThen;
    Num4(2, 0x02, 0, 0, 0);
    Num4(3, 0x03, 0, 0, 0);
  }

  const BLOCK: Block :=
    Block([0x61, 0x62], 0x31, 0x32, 0x33, [0, 1], [2])

  const BLOCK_HEAD: seq<byte> :=
    [0x02, 0x00, 0x00, 0x00, 0x61, 0x62, 0x31, 0x00, 0x00, 0x00, 0x32, 0x00, 0x00, 0x00, 0x33, 0x00, 0x00, 0x00]

  const BLOCK_LISTS: seq<byte> :=
    [0x02, 0x00, 0x00, 0x00, 0x00, 0x00, 0x00, 0x00, 0x01, 0x00, 0x00, 0x00, 0x01, 0x00, 0x00, 0x00, 0x02, 0x00,
     0x00, 0x00]

  lemma BlockBytesLists(rest: seq<byte>)
    ensures NumThen(2, 4, IdsThen([0, 1], NumThen(1, 4, IdsThen([2], rest)))) == BLOCK_LISTS + rest
  {
    hide NumThen, IdsThen;
    TwoIds(0, 1, NumThen(1, 4, IdsThen([2], rest)));
    OneId(2, rest);
    Num4(2, 0x02, 0, 0, 0);
    Num4(0, 0, 0, 0, 0);
    Num4(1, 0x01, 0, 0, 0);
  }

  lemma BlockBytes(rest: seq<byte>)
    ensures BlockThen(BLOCK, rest) == BLOCK_HEAD + (BLOCK_LISTS + rest)
  {
    hide NumThen, IdsThen;
    BlockBytesLists(rest);
    Num4(2, 0x02, 0, 0, 0);
    Num4(0x31, 0x31, 0, 0, 0);
    Num4(0x32, 0x32, 0, 0, 0);
    Num4(0x33, 0x33, 0, 0, 0);
  }

  const INST: Inst :=
    Inst(0x52, 0x4142, 0x43, 4, 5, 1, 0xFFFF_FFFF, 0x44)

  const INST_BYTES: seq<byte> :=
    [0x52, 0x00, 0x42, 0x41, 0x43, 0x00, 0x00, 0x00, 0x04, 0x00, 0x00, 0x00, 0x05, 0x00, 0x01, 0x00, 0x00, 0x00,
     0xFF, 0xFF, 0xFF, 0xFF, 0x44, 0x00, 0x00, 0x00]

  lemma InstBytes(rest: seq<byte>)
    ensures InstThen(INST, rest) == INST_BYTES + rest
  {
    hide NumThen;
    Num2(0x52, 0x52, 0);
    Num2(0x4142, 0x42, 0x41);
    Num4(0x43, 0x43, 0, 0, 0);
    Num4(4, 0x04, 0, 0, 0);
    Num2(5, 0x05, 0);
    Num4(1, 0x01, 0, 0, 0);
    Num4(0xFFFF_FFFF, 0xFF, 0xFF, 0xFF, 0xFF);
    Num4(0x44, 0x44, 0, 0, 0);
  }

  const VALUE: Value :=
    Value(8, 2, 0x5152_5354, 0x55, [0x76])

  const VALUE_BYTES: seq<byte> :=
    [0x08, 0x00, 0x00, 0x00, 0x02, 0x54, 0x53, 0x52, 0x51, 0x55, 0x00, 0x00, 0x00, 0x01, 0x00, 0x00, 0x00, 0x76]

  lemma ValueBytes(rest: seq<byte>)
    ensures ValueThen(VALUE, rest) == VALUE_BYTES + rest
  {
    hide NumThen;
    Num4(8, 0x08, 0, 0, 0);
    Num1(2);
    Num4(0x5152_5354, 0x54, 0x53, 0x52, 0x51);
    Num4(0x55, 0x55, 0, 0, 0);
    Num4(1, 0x01, 0, 0, 0);
  }

  /** Every operand kind: none, value, block, integer, float, function, symbol, global, type. */
  const OPERANDS: seq<Operand> :=
    [Operand(0, 0),
     Operand(1, 1),
     Operand(2, 2),
     Operand(3, 0x8766_5544_3322_1100),
     Operand(4, 0x4009_21FB_5444_2D18),
     Operand(5, 0),
     Operand(6, 0x6162_6364),
     Operand(7, 1),
     Operand(8, 0xA)]

  const OPERAND_BYTES: seq<seq<byte>> :=
    [[0x00],
     [0x01, 0x01, 0x00, 0x00, 0x00],
     [0x02, 0x02, 0x00, 0x00, 0x00],
     [0x03, 0x00, 0x11, 0x22, 0x33, 0x44, 0x55, 0x66, 0x87],
     [0x04, 0x18, 0x2D, 0x44, 0x54, 0xFB, 0x21, 0x09, 0x40],
     [0x05, 0x00, 0x00, 0x00, 0x00],
     [0x06, 0x64, 0x63, 0x62, 0x61],
     [0x07, 0x01, 0x00, 0x00, 0x00],
     [0x08, 0x0A, 0x00, 0x00, 0x00]]

  lemma OperandBytes(k: nat)
    requires k < |OPERANDS|
    ensures forall rest :: OperandThen(OPERANDS[k], rest) == OPERAND_BYTES[k] + rest
  {
    hide NumThen;
    NoBytes();
    if k == 0 {
      Num1(0);
    } else if k == 1 {
      Num1(1);
      Num4(1, 0x01, 0, 0, 0);
    } else if k == 2 {
      Num1(2);
      Num4(2, 0x02, 0, 0, 0);
    } else if k == 3 {
      Num1(3);
      Num8(0x8766_5544_3322_1100, 0x8766_5544, 0, 0x11, 0x22, 0x33, 0x44, 0x55, 0x66, 0x87);
    } else if k == 4 {
      Num1(4);
      Num8(0x4009_21FB_5444_2D18, 0x4009_21FB, 0x18, 0x2D, 0x44, 0x54, 0xFB, 0x21, 0x09, 0x40);
    } else if k == 5 {
      Num1(5);
      Num4(0, 0, 0, 0, 0);
    } else if k == 6 {
      Num1(6);
      Num4(0x6162_6364, 0x64, 0x63, 0x62, 0x61);
    } else if k == 7 {
      Num1(7);
      Num4(1, 0x01, 0, 0, 0);
    } else if k == 8 {
      Num1(8);
      Num4(0xA, 0x0A, 0, 0, 0);
    }
  }

  lemma NoBytes()
    ensures forall n: nat, rest: seq<byte> :: NumThen(n, 0, rest) == rest
  {
    assert forall n: nat :: ToBytes(n, 0) == [];
  }

  // ---------------------------------------------------------------- a whole module

  const FUNCTION: Function :=
    Function([0x66, 0x6E], 4, 0x25, true, 0x26, [PARAM], [BLOCK, BLOCK, BLOCK], [INST, INST, INST, INST],
             [VALUE, VALUE],
             OPERANDS)

  const FUNCTION_HEAD: seq<byte> :=
    [0x02, 0x00, 0x00, 0x00, 0x66, 0x6E, 0x04, 0x00, 0x00, 0x00, 0x25, 0x01, 0x26, 0x00, 0x00, 0x00]

  /** The parameters, blocks and instructions of FUNCTION, each list after its length. */
  function CodeRows(rest: seq<byte>): seq<byte> {
    [1, 0, 0, 0] + (PARAM_BYTES
    + ([3, 0, 0, 0] + (BLOCK_HEAD + (BLOCK_LISTS + (BLOCK_HEAD + (BLOCK_LISTS + (BLOCK_HEAD + (BLOCK_LISTS
    + ([4, 0, 0, 0] + (INST_BYTES + (INST_BYTES + (INST_BYTES + (INST_BYTES + rest)))))))))))))
  }

  /** Its values and operands. */
  function DataRows(rest: seq<byte>): seq<byte> {
    [2, 0, 0, 0] + (VALUE_BYTES + (VALUE_BYTES + ([9, 0, 0, 0] + (Joined(OPERAND_BYTES) + rest))))
  }

  const MODULE: Module := Module([0x4D], [TYPE], [GLOBAL, BARE_GLOBAL], [FUNCTION])

  const MODULE_BYTES: seq<byte> :=
    // N, Y, I, R, version 1 and two reserved bytes
    [0x4E, 0x59, 0x49, 0x52, 1, 0, 0, 0] + ([1, 0, 0, 0, 0x4D]
    + ([1, 0, 0, 0] + (TYPE_HEAD + (TYPE_SHAPE + (TYPE_FIELDS
    + ([2, 0, 0, 0] + (GLOBAL_BYTES + (BARE_GLOBAL_BYTES
    + ([1, 0, 0, 0] + (FUNCTION_HEAD + CodeRows(DataRows([]))))))))))))

  lemma Many1<T>(a: T, enc: (T, seq<byte>) -> seq<byte>, rest: seq<byte>)
    ensures ManyThen([a], enc, rest) == enc(a, rest)
  {
    var none: seq<T> := [];
    assert [a][1..] == none && ManyThen(none, enc, rest) == rest;
  }

  lemma Many2<T>(a: T, b: T, enc: (T, seq<byte>) -> seq<byte>, rest: seq<byte>)
    ensures ManyThen([a, b], enc, rest) == enc(a, enc(b, rest))
  {
    Many1(b, enc, rest);
    assert [a, b][1..] == [b];
  }

  lemma Many3<T>(a: T, enc: (T, seq<byte>) -> seq<byte>, rest: seq<byte>)
    ensures ManyThen([a, a, a], enc, rest) == enc(a, enc(a, enc(a, rest)))
  {
    Many2(a, a, enc, rest);
    assert [a, a, a][1..] == [a, a];
  }

  lemma Many4<T>(a: T, enc: (T, seq<byte>) -> seq<byte>, rest: seq<byte>)
    ensures ManyThen([a, a, a, a], enc, rest) == enc(a, enc(a, enc(a, enc(a, rest))))
  {
    Many3(a, enc, rest);
    assert [a, a, a, a][1..] == [a, a, a];
  }

  lemma CodeBytes(rest: seq<byte>)
    ensures NumThen(1, 4, ManyThen([PARAM], ParamThen,
            NumThen(3, 4, ManyThen([BLOCK, BLOCK, BLOCK], BlockThen,
            NumThen(4, 4, ManyThen([INST, INST, INST, INST], InstThen, rest)))))) == CodeRows(rest)
  {
    hide NumThen, ManyThen, ParamThen, BlockThen, InstThen;
    Num4(1, 1, 0, 0, 0);
    Num4(3, 3, 0, 0, 0);
    Num4(4, 4, 0, 0, 0);
    forall r: seq<byte>
      ensures InstThen(INST, r) == INST_BYTES + r
      ensures BlockThen(BLOCK, r) == BLOCK_HEAD + (BLOCK_LISTS + r)
      ensures ParamThen(PARAM, r) == PARAM_BYTES + r
    {
      InstBytes(r);
      BlockBytes(r);
      ParamBytes(r);
    }
    Many4(INST, InstThen, rest);
    var r1 := NumThen(4, 4, ManyThen([INST, INST, INST, INST], InstThen, rest));
    Many3(BLOCK, BlockThen, r1);
    Many1(PARAM, ParamThen, NumThen(3, 4, ManyThen([BLOCK, BLOCK, BLOCK], BlockThen, r1)));
  }

  lemma DataBytes(rest: seq<byte>)
    ensures NumThen(2, 4, ManyThen([VALUE, VALUE], ValueThen,
            NumThen(9, 4, ManyThen(OPERANDS, OperandThen, rest)))) == DataRows(rest)
  {
    hide NumThen, ManyThen, ValueThen, OperandThen, Joined;
    Num4(2, 2, 0, 0, 0);
    Num4(9, 9, 0, 0, 0);
    forall i, r | 0 <= i < |OPERANDS| ensures OperandThen(OPERANDS[i], r) == OPERAND_BYTES[i] + r {
      OperandBytes(i);
    }
    ManyBytes(OPERANDS, OperandThen, OPERAND_BYTES, 0, rest);
    assert OPERANDS[0..] == OPERANDS && OPERAND_BYTES[0..] == OPERAND_BYTES;
    var r1 := NumThen(9, 4, ManyThen(OPERANDS, OperandThen, rest));
    Many2(VALUE, VALUE, ValueThen, r1);
    ValueBytes(r1);
    ValueBytes(ValueThen(VALUE, r1));
  }

  lemma HeadBytes(f: Function, rest: seq<byte>)
    requires f.name == [0x66, 0x6E] && f.returnType == 4 && f.callConv == 0x25 && f.isVariadic && f.entry == 0x26
    ensures FunctionThen(f, rest) == FUNCTION_HEAD + BodyThen(f, rest)
  {
    hide NumThen, BodyThen;
    Num4(2, 2, 0, 0, 0);
    Num4(4, 4, 0, 0, 0);
    Num1(0x25);
    Num1(1);
    Num4(0x26, 0x26, 0, 0, 0);
  }

  lemma FunctionBytes(rest: seq<byte>)
    ensures FunctionThen(FUNCTION, rest) == FUNCTION_HEAD + CodeRows(DataRows(rest))
  {
    hide NumThen, ManyThen, FunctionThen, CodeRows, DataRows;
    HeadBytes(FUNCTION, rest);
    DataBytes(rest);
    CodeBytes(DataRows(rest));
  }

  /** Types, globals and functions, each list after its length. */
  lemma ListBytes()
    ensures NumThen(1, 4, ManyThen([TYPE], TypeThen,
            NumThen(2, 4, ManyThen([GLOBAL, BARE_GLOBAL], GlobalThen,
            NumThen(1, 4, ManyThen([FUNCTION], FunctionThen, [])))))) ==
            [1, 0, 0, 0] + (TYPE_HEAD + (TYPE_SHAPE + (TYPE_FIELDS
            + ([2, 0, 0, 0] + (GLOBAL_BYTES + (BARE_GLOBAL_BYTES
            + ([1, 0, 0, 0] + (FUNCTION_HEAD + CodeRows(DataRows([]))))))))))
  {
    hide NumThen, ManyThen, FunctionThen, CodeRows, DataRows, TypeThen, GlobalThen;
    Num4(1, 1, 0, 0, 0);
    Num4(2, 2, 0, 0, 0);
    var r3 := NumThen(1, 4, ManyThen([FUNCTION], FunctionThen, []));
    Many1(FUNCTION, FunctionThen, []);
    FunctionBytes([]);
    Many2(GLOBAL, BARE_GLOBAL, GlobalThen, r3);
    BareGlobalBytes(r3);
    GlobalBytes(BARE_GLOBAL_BYTES + r3);
    var r2 := NumThen(2, 4, ManyThen([GLOBAL, BARE_GLOBAL], GlobalThen, r3));
    Many1(TYPE, TypeThen, r2);
    TypeBytes(r2);
  }

  lemma NameBytes(rest: seq<byte>)
    ensures StrThen([0x4D], rest) == [1, 0, 0, 0, 0x4D] + rest
  {
    hide NumThen;
    Num4(1, 1, 0, 0, 0);
  }

  /** The encoding of the module is these bytes. */
  lemma ModuleIsWritten()
    ensures Serialize(MODULE) == MODULE_BYTES
  {
    hide NumThen, ManyThen, StrThen, FunctionThen, CodeRows, DataRows, TypeThen, GlobalThen;
    Num2(1, 1, 0);
    Num2(0, 0, 0);
    ListBytes();
    var r1 := [1, 0, 0, 0] + (TYPE_HEAD + (TYPE_SHAPE + (TYPE_FIELDS
      + ([2, 0, 0, 0] + (GLOBAL_BYTES + (BARE_GLOBAL_BYTES
      + ([1, 0, 0, 0] + (FUNCTION_HEAD + CodeRows(DataRows([]))))))))));
    NameBytes(r1);
    var r0 := [1, 0, 0, 0, 0x4D] + r1;
    assert MAGIC + ([1, 0] + ([0, 0] + r0)) == [0x4E, 0x59, 0x49, 0x52, 1, 0, 0, 0] + r0;
  }

  // ---------------------------------------------------------------- and back

  lemma RecordsFit()
    ensures TypeFits(11, TYPE) && GlobalFits(11, GLOBAL) && GlobalFits(11, BARE_GLOBAL) && ParamFits(11, PARAM)
    ensures BlockFits(3, BLOCK) && InstFits(3, INST) && ValueFits(11, VALUE)
    ensures forall op :: op in OPERANDS ==> OperandFits(Bounds(2, 3, 1, 2, 11), op)
  {
    Limits();
    assert Limit(0) == 1;
    hide Limit;
  }

  lemma ModuleIsInLimits()
    ensures ModuleFits(MODULE) && Normal(MODULE) == MODULE
  {
    RecordsFit();
    hide TypeFits, GlobalFits, ParamFits, BlockFits, InstFits, ValueFits, OperandFits;
    assert FunctionFits(1, 2, 11, FUNCTION);
    hide FunctionFits;
    assert MODULE.globals[1..] == [BARE_GLOBAL] && [BARE_GLOBAL][1..] == [];
    assert NormalGlobals(MODULE.globals) == MODULE.globals;
  }

  /** And the bytes are read as the module. */
  lemma ModuleIsRead(accept: Module -> bool)
    requires accept(MODULE)
    ensures Deserialize(MODULE_BYTES, accept) == Some(MODULE)
  {
    hide Serialize, Deserialize, ModuleFits, Normal;
    ModuleIsWritten();
    ModuleIsInLimits();
    RoundTrip(MODULE, accept);
  }

  // ---------------------------------------------------------------- what is refused

  /** The ids a function's records carry name things that are there. */
  predicate IdsInRange(m: Module, f: Function) {
    && f.returnType < 10 + |m.types|
    && (forall p :: p in f.params ==> p.ty < 10 + |m.types|)
    && (forall v :: v in f.vals ==> v.ty < 10 + |m.types| && v.kind <= 2)
    && (forall b :: b in f.blocks ==>
          (forall c :: c in b.preds ==> c < |f.blocks|) && (forall c :: c in b.succs ==> c < |f.blocks|))
    && (forall i :: i in f.insts ==>
          i.opcode < 83 && i.block < |f.blocks| && (i.opStart + i.opCount) % 0x1_0000_0000 <= |f.ops|)
    && (forall op :: op in f.ops ==>
          && op.kind <= 8 && (op.kind == 1 ==> op.payload < |f.vals|) && (op.kind == 2 ==> op.payload < |f.blocks|)
          && (op.kind == 5 ==> op.payload < |m.functions|) && (op.kind == 7 ==> op.payload < |m.globals|)
          && (op.kind == 8 ==> op.payload < 10 + |m.types|))
  }

  lemma FunctionInRange(m: Module, f: Function)
    requires FunctionFits(|m.functions|, |m.globals|, 10 + |m.types|, f)
    ensures IdsInRange(m, f)
  {
  }

  /** Bytes with an id out of range are refused: in what is read every id names something that is there. */
  lemma DecodedIdsInRange(d: seq<byte>, accept: Module -> bool)
    requires Deserialize(d, accept).Some?
    ensures var m := Deserialize(d, accept).value;
            && (forall t :: t in m.types ==>
                  && t.kind <= 4 && (t.elemType == 0xFFFF_FFFF || t.elemType < 10 + |m.types|)
                  && forall x :: x in t.fieldTypes ==> x < 10 + |m.types|)
            && (forall g :: g in m.globals ==> g.ty < 10 + |m.types| && g.kind <= 2)
            && (forall f :: f in m.functions ==> IdsInRange(m, f))
  {
    DecodedRoundTrips(d, accept);
    var m := Deserialize(d, accept).value;
    hide Deserialize, FunctionFits, IdsInRange;
    forall f | f in m.functions ensures IdsInRange(m, f) { FunctionInRange(m, f); }
  }
}
