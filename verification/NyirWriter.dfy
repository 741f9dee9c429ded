/** The writer of src/nygen/nyir.c: a growing byte buffer. */
module NyirWriter {
  import opened Bytes
  import opened NyirFormat

  lemma ManyNext<T>(xs: seq<T>, enc: (T, seq<byte>) -> seq<byte>, i: nat, rest: seq<byte>)
    requires i < |xs|
    ensures ManyThen(xs[i..], enc, rest) == enc(xs[i], ManyThen(xs[i + 1..], enc, rest))
  {
    assert xs[i..][1..] == xs[i + 1..];
  }

  lemma ManyEnds<T>(xs: seq<T>, enc: (T, seq<byte>) -> seq<byte>, rest: seq<byte>)
    ensures xs[0..] == xs && ManyThen(xs[|xs|..], enc, rest) == rest
  {
  }

  lemma ToBytes1(v: nat)
    ensures ToBytes(v, 1) == [v % 256]
  {
    assert ToBytes(v / 256, 0) == [];
  }

  lemma ToBytes2(v: nat)
    ensures ToBytes(v, 2) == [v % 256, v / 256 % 256]
  {
    ToBytes1(v / 256);
  }

  lemma ToBytes4(v: nat)
    ensures ToBytes(v, 4) == [v % 256, v / 256 % 256, v / 0x1_0000 % 256, v / 0x100_0000 % 256]
  {
    ToBytes2(v / 256 / 256);
    assert v / 256 / 256 == v / 0x1_0000 && v / 0x1_0000 / 256 == v / 0x100_0000;
    assert ToBytes(v / 256, 3) == [v / 256 % 256] + ToBytes(v / 256 / 256, 2);
  }

  /** Each method's last argument is what will be written after it; it only serves the specification. */
  class Writer {
    var data: seq<byte>

    constructor ()
      ensures data == []
    {
      data := [];
    }

    /** writer_bytes. */
    method Bytes(src: seq<byte>, ghost rest: seq<byte>)
      modifies this
      ensures data + rest == old(data) + (src + rest)
    {
      if |src| == 0 { return; }
      data := data + src;
    }

    /** writer_u8. */
    method U8(v: nat, ghost rest: seq<byte>)
      modifies this
      ensures data + rest == old(data) + NumThen(v, 1, rest)
    {
      ToBytes1(v);
      data := data + [v % 256];
    }

    /** writer_u16. */
    method U16(v: nat, ghost rest: seq<byte>)
      modifies this
      ensures data + rest == old(data) + NumThen(v, 2, rest)
    {
      ToBytes2(v);
      data := data + [v % 256];
      data := data + [v / 0x100 % 256];
    }

    /** writer_u32. */
    method U32(v: nat, ghost rest: seq<byte>)
      modifies this
      ensures data + rest == old(data) + NumThen(v, 4, rest)
    {
      ToBytes4(v);
      hide ToBytes;
      ghost var was := data;
      data := data + [v % 256];
      data := data + [v / 0x100 % 256];
      data := data + [v / 0x1_0000 % 256];
      data := data + [v / 0x100_0000 % 256];
      assert data == was + ToBytes(v, 4);
    }

    /** writer_u64. */
    method U64(v: nat, ghost rest: seq<byte>)
      modifies this
      ensures data + rest == old(data) + NumThen(v, 8, rest)
      ensures data == old(data) + ToBytes(v, 8)
    {
      ghost var was0 := data;
      var i, n := 0, v;
      while i < 8
        invariant 0 <= i <= 8 && data + ToBytes(n, 8 - i) == was0 + ToBytes(v, 8)
      {
        ghost var was := data;
        assert ToBytes(n, 8 - i) == [n % 256] + ToBytes(n / 256, 7 - i);
        data := data + [n % 256];
        assert data + ToBytes(n / 256, 7 - i) == was + ToBytes(n, 8 - i);
        n := n / 256;
        i := i + 1;
      }
      assert ToBytes(n, 0) == [];
      assert data == was0 + ToBytes(v, 8);
      assert (was0 + ToBytes(v, 8)) + rest == was0 + NumThen(v, 8, rest) by { hide ToBytes; }
    }

    /** writer_str. */
    method Str(s: seq<byte>, ghost rest: seq<byte>)
      modifies this
      ensures data + rest == old(data) + StrThen(s, rest)
    {
      hide ToBytes;
      U32(|s|, s + rest);
      if |s| > 0 { Bytes(s, rest); }
    }

    method Ids(ids: seq<nat>, ghost rest: seq<byte>)
      modifies this
      ensures data + rest == old(data) + IdsThen(ids, rest)
    {
      hide ManyThen, NumThen;
      ManyEnds(ids, IdThen, rest);
      var i := 0;
      while i < |ids|
        invariant 0 <= i <= |ids| && data + ManyThen(ids[i..], IdThen, rest) == old(data) + ManyThen(ids, IdThen, rest)
      {
        ManyNext(ids, IdThen, i, rest);
        U32(ids[i], ManyThen(ids[i + 1..], IdThen, rest));
        i := i + 1;
      }
    }

    method WriteType(t: Type, ghost rest: seq<byte>)
      requires |t.fieldTypes| == |t.fieldOffsets|
      modifies this
      ensures data + rest == old(data) + TypeThen(t, rest)
    {
      hide NumThen, StrThen, IdsThen;
      ghost var r9 := IdsThen(t.fieldOffsets, rest);
      ghost var r8 := IdsThen(t.fieldTypes, r9);
      ghost var r7 := StrThen(t.name, r8);
      ghost var r6 := NumThen(|t.fieldTypes|, 4, r7);
      ghost var r5 := NumThen(t.arrayCount, 4, r6);
      ghost var r4 := NumThen(t.vectorLanes, 2, r5);
      ghost var r3 := NumThen(t.elemType, 4, r4);
      ghost var r2 := NumThen(t.align, 4, r3);
      ghost var r1 := NumThen(t.size, 4, r2);
      U8(t.kind, r1);
      U32(t.size, r2);
      U32(t.align, r3);
      U32(t.elemType, r4);
      U16(t.vectorLanes, r5);
      U32(t.arrayCount, r6);
      U32(|t.fieldTypes|, r7);
      Str(t.name, r8);
      Ids(t.fieldTypes, r9);
      Ids(t.fieldOffsets, rest);
    }

    /** serialize_types. */
    method Types(types: seq<Type>, ghost rest: seq<byte>)
      requires forall k :: 0 <= k < |types| ==> |types[k].fieldTypes| == |types[k].fieldOffsets|
      modifies this
      ensures data + rest == old(data) + NumThen(|types|, 4, ManyThen(types, TypeThen, rest))
    {
      hide ManyThen, NumThen, TypeThen;
      ManyEnds(types, TypeThen, rest);
      U32(|types|, ManyThen(types, TypeThen, rest));
      var i := 0;
      ghost var mid := data;
      while i < |types|
        invariant 0 <= i <= |types|
                  && data + ManyThen(types[i..], TypeThen, rest) == mid + ManyThen(types, TypeThen, rest)
      {
        ManyNext(types, TypeThen, i, rest);
        WriteType(types[i], ManyThen(types[i + 1..], TypeThen, rest));
        i := i + 1;
      }
    }

    method WriteGlobal(g: Global, ghost rest: seq<byte>)
      modifies this
      ensures data + rest == old(data) + GlobalThen(g, rest)
    {
      hide NumThen, StrThen;
      var isz := if g.initBytes.Some? && g.initSize > 0 then g.initSize else 0;
      ghost var r4 := if isz > 0 then g.initBytes.value + rest else rest;
      ghost var r3 := NumThen(isz, 4, r4);
      ghost var r2 := NumThen(g.align, 4, r3);
      ghost var r1 := NumThen(g.kind, 1, r2);
      Str(g.name, NumThen(g.ty, 4, r1));
      U32(g.ty, r1);
      U8(g.kind, r2);
      U32(g.align, r3);
      U32(isz, r4);
      if isz > 0 { Bytes(g.initBytes.value, rest); }
    }

    /** serialize_globals. */
    method Globals(globals: seq<Global>, ghost rest: seq<byte>)
      modifies this
      ensures data + rest == old(data) + NumThen(|globals|, 4, ManyThen(globals, GlobalThen, rest))
    {
      hide ManyThen, NumThen, GlobalThen;
      ManyEnds(globals, GlobalThen, rest);
      U32(|globals|, ManyThen(globals, GlobalThen, rest));
      var i := 0;
      ghost var mid := data;
      while i < |globals|
        invariant 0 <= i <= |globals|
                  && data + ManyThen(globals[i..], GlobalThen, rest) == mid + ManyThen(globals, GlobalThen, rest)
      {
        ManyNext(globals, GlobalThen, i, rest);
        WriteGlobal(globals[i], ManyThen(globals[i + 1..], GlobalThen, rest));
        i := i + 1;
      }
    }

    /** The float's bits go over eight zero bytes written first. */
    method PatchU64(off: nat, bits: nat)
      requires off + 8 == |data|
      modifies this
      ensures data == old(data)[..off] + ToBytes(bits, 8)
    {
      var i, n := 0, bits;
      while i < 8
        invariant 0 <= i <= 8 && |data| == off + 8
        invariant data[..off + i] + ToBytes(n, 8 - i) == old(data)[..off] + ToBytes(bits, 8)
      {
        ghost var was := data;
        assert ToBytes(n, 8 - i) == [n % 256] + ToBytes(n / 256, 7 - i);
        data := data[off + i := n % 256];
        assert data[..off + i + 1] == was[..off + i] + [n % 256];
        n := n / 256;
        i := i + 1;
      }
      assert data == data[..off + 8];
    }

    /** serialize_operand. */
    method WriteOperand(op: Operand, ghost rest: seq<byte>)
      modifies this
      ensures data + rest == old(data) + OperandThen(op, rest)
    {
      ghost var r1 := NumThen(op.payload, PayloadSize(op.kind), rest);
      if PayloadSize(op.kind) == 0 { assert ToBytes(op.payload, 0) == []; }
      hide ToBytes;
      U8(op.kind, r1);
      if op.kind == OP_IMM_INT {
        U64(op.payload, rest);
      } else if op.kind == OP_IMM_FLOAT {
        ghost var was := data;
        U64(0, rest);
        PatchU64(|data| - 8, op.payload);
        assert data == was + ToBytes(op.payload, 8);
      } else if op.kind in {OP_VALUE, OP_BLOCK, OP_FUNCTION, OP_SYMBOL, OP_GLOBAL, OP_TYPE} {
        U32(op.payload, rest);
      }
    }

    method WriteParam(p: Param, ghost rest: seq<byte>)
      modifies this
      ensures data + rest == old(data) + ParamThen(p, rest)
    {
      hide NumThen, StrThen;
      U32(p.ty, StrThen(p.name, rest));
      Str(p.name, rest);
    }

    method WriteBlock(b: Block, ghost rest: seq<byte>)
      modifies this
      ensures data + rest == old(data) + BlockThen(b, rest)
    {
      hide NumThen, StrThen, IdsThen;
      ghost var r7 := IdsThen(b.succs, rest);
      ghost var r6 := NumThen(|b.succs|, 4, r7);
      ghost var r5 := IdsThen(b.preds, r6);
      ghost var r4 := NumThen(|b.preds|, 4, r5);
      ghost var r3 := NumThen(b.instCount, 4, r4);
      ghost var r2 := NumThen(b.last, 4, r3);
      ghost var r1 := NumThen(b.first, 4, r2);
      Str(b.name, r1);
      U32(b.first, r2);
      U32(b.last, r3);
      U32(b.instCount, r4);
      U32(|b.preds|, r5);
      Ids(b.preds, r6);
      U32(|b.succs|, r7);
      Ids(b.succs, rest);
    }

    method WriteInst(i: Inst, ghost rest: seq<byte>)
      modifies this
      ensures data + rest == old(data) + InstThen(i, rest)
    {
      hide NumThen;
      ghost var r7 := NumThen(i.next, 4, rest);
      ghost var r6 := NumThen(i.prev, 4, r7);
      ghost var r5 := NumThen(i.block, 4, r6);
      ghost var r4 := NumThen(i.opCount, 2, r5);
      ghost var r3 := NumThen(i.opStart, 4, r4);
      ghost var r2 := NumThen(i.result, 4, r3);
      ghost var r1 := NumThen(i.flags, 2, r2);
      U16(i.opcode, r1);
      U16(i.flags, r2);
      U32(i.result, r3);
      U32(i.opStart, r4);
      U16(i.opCount, r5);
      U32(i.block, r6);
      U32(i.prev, r7);
      U32(i.next, rest);
    }

    method WriteValue(v: Value, ghost rest: seq<byte>)
      modifies this
      ensures data + rest == old(data) + ValueThen(v, rest)
    {
      hide NumThen, StrThen;
      ghost var r4 := StrThen(v.name, rest);
      ghost var r3 := NumThen(v.index, 4, r4);
      ghost var r2 := NumThen(v.def, 4, r3);
      ghost var r1 := NumThen(v.kind, 1, r2);
      U32(v.ty, r1);
      U8(v.kind, r2);
      U32(v.def, r3);
      U32(v.index, r4);
      Str(v.name, rest);
    }

    method Params(xs: seq<Param>, ghost rest: seq<byte>)
      modifies this
      ensures data + rest == old(data) + NumThen(|xs|, 4, ManyThen(xs, ParamThen, rest))
    {
      hide ManyThen, NumThen, ParamThen;
      ManyEnds(xs, ParamThen, rest);
      U32(|xs|, ManyThen(xs, ParamThen, rest));
      var i := 0;
      ghost var mid := data;
      while i < |xs|
        invariant 0 <= i <= |xs| && data + ManyThen(xs[i..], ParamThen, rest) == mid + ManyThen(xs, ParamThen, rest)
      {
        ManyNext(xs, ParamThen, i, rest);
        WriteParam(xs[i], ManyThen(xs[i + 1..], ParamThen, rest));
        i := i + 1;
      }
    }

    method Blocks(xs: seq<Block>, ghost rest: seq<byte>)
      modifies this
      ensures data + rest == old(data) + NumThen(|xs|, 4, ManyThen(xs, BlockThen, rest))
    {
      hide ManyThen, NumThen, BlockThen;
      ManyEnds(xs, BlockThen, rest);
      U32(|xs|, ManyThen(xs, BlockThen, rest));
      var i := 0;
      ghost var mid := data;
      while i < |xs|
        invariant 0 <= i <= |xs| && data + ManyThen(xs[i..], BlockThen, rest) == mid + ManyThen(xs, BlockThen, rest)
      {
        ManyNext(xs, BlockThen, i, rest);
        WriteBlock(xs[i], ManyThen(xs[i + 1..], BlockThen, rest));
        i := i + 1;
      }
    }

    method Insts(xs: seq<Inst>, ghost rest: seq<byte>)
      modifies this
      ensures data + rest == old(data) + NumThen(|xs|, 4, ManyThen(xs, InstThen, rest))
    {
      hide ManyThen, NumThen, InstThen;
      ManyEnds(xs, InstThen, rest);
      U32(|xs|, ManyThen(xs, InstThen, rest));
      var i := 0;
      ghost var mid := data;
      while i < |xs|
        invariant 0 <= i <= |xs| && data + ManyThen(xs[i..], InstThen, rest) == mid + ManyThen(xs, InstThen, rest)
      {
        ManyNext(xs, InstThen, i, rest);
        WriteInst(xs[i], ManyThen(xs[i + 1..], InstThen, rest));
        i := i + 1;
      }
    }

    method Values(xs: seq<Value>, ghost rest: seq<byte>)
      modifies this
      ensures data + rest == old(data) + NumThen(|xs|, 4, ManyThen(xs, ValueThen, rest))
    {
      hide ManyThen, NumThen, ValueThen;
      ManyEnds(xs, ValueThen, rest);
      U32(|xs|, ManyThen(xs, ValueThen, rest));
      var i := 0;
      ghost var mid := data;
      while i < |xs|
        invariant 0 <= i <= |xs| && data + ManyThen(xs[i..], ValueThen, rest) == mid + ManyThen(xs, ValueThen, rest)
      {
        ManyNext(xs, ValueThen, i, rest);
        WriteValue(xs[i], ManyThen(xs[i + 1..], ValueThen, rest));
        i := i + 1;
      }
    }

    method Operands(xs: seq<Operand>, ghost rest: seq<byte>)
      modifies this
      ensures data + rest == old(data) + NumThen(|xs|, 4, ManyThen(xs, OperandThen, rest))
    {
      hide ManyThen, NumThen, OperandThen;
      ManyEnds(xs, OperandThen, rest);
      U32(|xs|, ManyThen(xs, OperandThen, rest));
      var i := 0;
      ghost var mid := data;
      while i < |xs|
        invariant 0 <= i <= |xs| && data + ManyThen(xs[i..], OperandThen, rest) == mid + ManyThen(xs, OperandThen, rest)
      {
        ManyNext(xs, OperandThen, i, rest);
        WriteOperand(xs[i], ManyThen(xs[i + 1..], OperandThen, rest));
        i := i + 1;
      }
    }

    method WriteFunction(f: Function, ghost rest: seq<byte>)
      modifies this
      ensures data + rest == old(data) + FunctionThen(f, rest)
    {
      hide NumThen, StrThen, ManyThen;
      ghost var q4 := NumThen(|f.ops|, 4, ManyThen(f.ops, OperandThen, rest));
      ghost var q3 := NumThen(|f.vals|, 4, ManyThen(f.vals, ValueThen, q4));
      ghost var q2 := NumThen(|f.insts|, 4, ManyThen(f.insts, InstThen, q3));
      ghost var q1 := NumThen(|f.blocks|, 4, ManyThen(f.blocks, BlockThen, q2));
      ghost var body := BodyThen(f, rest);
      ghost var r4 := NumThen(f.entry, 4, body);
      ghost var r3 := NumThen(if f.isVariadic then 1 else 0, 1, r4);
      ghost var r2 := NumThen(f.callConv, 1, r3);
      ghost var r1 := NumThen(f.returnType, 4, r2);
      Str(f.name, r1);
      U32(f.returnType, r2);
      U8(f.callConv, r3);
      U8(if f.isVariadic then 1 else 0, r4);
      U32(f.entry, body);
      Params(f.params, q1);
      Blocks(f.blocks, q2);
      Insts(f.insts, q3);
      Values(f.vals, q4);
      Operands(f.ops, rest);
    }

    /** serialize_functions. */
    method Functions(xs: seq<Function>, ghost rest: seq<byte>)
      modifies this
      ensures data + rest == old(data) + NumThen(|xs|, 4, ManyThen(xs, FunctionThen, rest))
    {
      hide ManyThen, NumThen, FunctionThen;
      ManyEnds(xs, FunctionThen, rest);
      U32(|xs|, ManyThen(xs, FunctionThen, rest));
      var i := 0;
      ghost var mid := data;
      while i < |xs|
        invariant 0 <= i <= |xs|
                  && data + ManyThen(xs[i..], FunctionThen, rest) == mid + ManyThen(xs, FunctionThen, rest)
      {
        ManyNext(xs, FunctionThen, i, rest);
        WriteFunction(xs[i], ManyThen(xs[i + 1..], FunctionThen, rest));
        i := i + 1;
      }
    }
  }

  /** nygen_serialize_nyir. */
  method SerializeModule(m: Module) returns (out: seq<byte>)
    requires forall k :: 0 <= k < |m.types| ==> |m.types[k].fieldTypes| == |m.types[k].fieldOffsets|
    ensures out == Serialize(m)
  {
    hide NumThen, StrThen, ManyThen;
    ghost var q3 := NumThen(|m.functions|, 4, ManyThen(m.functions, FunctionThen, []));
    ghost var q2 := NumThen(|m.globals|, 4, ManyThen(m.globals, GlobalThen, q3));
    ghost var q1 := NumThen(|m.types|, 4, ManyThen(m.types, TypeThen, q2));
    ghost var r2 := ModuleThen(m, []);
    ghost var r1 := NumThen(0, 2, r2);
    ghost var r0 := NumThen(NYIR_VERSION, 2, r1);
    var w := new Writer();
    w.Bytes(MAGIC, r0);
    assert w.data + r0 == Serialize(m);
    w.U16(NYIR_VERSION, r1);
    w.U16(0, r2);
    w.Str(m.name, q1);
    w.Types(m.types, q2);
    w.Globals(m.globals, q3);
    w.Functions(m.functions, []);
    assert w.data + [] == w.data;
    out := w.data;
  }
}
