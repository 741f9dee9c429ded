/** Reading undoes writing, for every module within the reader's limits; and what is read is within them. */
module NyirRoundTrip {
  import opened Bytes
  import opened IntFold
  import opened NyirFormat

  // ---------------------------------------------------------------- limits

  predicate IsU32(n: nat) {
    n < U32_LIMIT
  }

  predicate IdsFit(ids: seq<nat>, limit: nat) {
    forall k :: 0 <= k < |ids| ==> ids[k] < limit && IsU32(ids[k])
  }

  predicate StrFits(s: seq<byte>) {
    IsU32(|s|)
  }

  predicate TypeFits(total: nat, t: Type) {
    && t.kind <= TYPE_KIND_STRUCT && IsU32(t.size) && IsU32(t.align) && IsU32(t.elemType)
    && (t.elemType == INVALID_TYPE || t.elemType < total)
    && t.vectorLanes < U16_LIMIT && IsU32(t.arrayCount) && StrFits(t.name)
    && |t.fieldTypes| == |t.fieldOffsets| <= MORE
    && IdsFit(t.fieldTypes, total) && IdsFit(t.fieldOffsets, U32_LIMIT)
  }

  predicate GlobalFits(total: nat, g: Global) {
    && StrFits(g.name) && g.ty < total && IsU32(g.ty) && g.kind <= GLOBAL_BSS && IsU32(g.align)
    && WrittenSize(g) <= INIT_LIMIT && (g.initBytes.Some? ==> |g.initBytes.value| == g.initSize)
  }

  predicate ParamFits(total: nat, p: Param) {
    p.ty < total && IsU32(p.ty) && StrFits(p.name)
  }

  predicate BlockFits(blocks: nat, b: Block) {
    && StrFits(b.name) && IsU32(b.first) && IsU32(b.last) && IsU32(b.instCount)
    && |b.preds| <= blocks && |b.succs| <= blocks && IdsFit(b.preds, blocks) && IdsFit(b.succs, blocks)
  }

  predicate InstFits(blocks: nat, i: Inst) {
    && i.opcode < OPCODE_COUNT && i.flags < U16_LIMIT && IsU32(i.result) && IsU32(i.opStart) && i.opCount < U16_LIMIT
    && i.block < blocks && IsU32(i.block) && IsU32(i.prev) && IsU32(i.next)
  }

  predicate ValueFits(total: nat, v: Value) {
    v.ty < total && IsU32(v.ty) && v.kind <= VAL_CONSTANT && IsU32(v.def) && IsU32(v.index) && StrFits(v.name)
  }

  predicate OperandFits(b: Bounds, op: Operand) {
    op.kind <= OP_TYPE && op.payload < PayloadLimit(op.kind, b) && op.payload < Limit(PayloadSize(op.kind))
  }

  predicate FunctionFits(fns: nat, globals: nat, total: nat, f: Function) {
    && StrFits(f.name) && f.returnType < total && IsU32(f.returnType) && f.callConv < U8_LIMIT && IsU32(f.entry)
    && |f.params| <= MANY && |f.blocks| <= MANY && |f.insts| <= MORE && |f.vals| <= MORE && |f.ops| <= MORE
    && (forall p :: p in f.params ==> ParamFits(total, p))
    && (forall b :: b in f.blocks ==> BlockFits(|f.blocks|, b))
    && (forall i :: i in f.insts ==> InstFits(|f.blocks|, i))
    && (forall v :: v in f.vals ==> ValueFits(total, v))
    && (forall op :: op in f.ops ==> OperandFits(Bounds(|f.vals|, |f.blocks|, fns, globals, total), op))
    && RangesOk(f.insts, |f.ops|)
  }

  predicate ModuleFits(m: Module) {
    var total := PRIMITIVE_TYPE_COUNT + |m.types|;
    && StrFits(m.name) && |m.types| <= MANY && |m.globals| <= MANY && |m.functions| <= MANY
    && (forall t :: t in m.types ==> TypeFits(total, t))
    && (forall g :: g in m.globals ==> GlobalFits(total, g))
    && (forall f :: f in m.functions ==> FunctionFits(|m.functions|, |m.globals|, total, f))
  }

  /** A global without bytes comes back with init_size 0. */
  function NormalGlobal(g: Global): Global {
    if WrittenSize(g) > 0 then g else g.(initSize := 0, initBytes := None)
  }

  function NormalGlobals(gs: seq<Global>): (r: seq<Global>)
    ensures |r| == |gs|
  {
    if gs == [] then [] else [NormalGlobal(gs[0])] + NormalGlobals(gs[1..])
  }

  function Normal(m: Module): Module {
    m.(globals := NormalGlobals(m.globals))
  }

  // ---------------------------------------------------------------- numbers, strings, lists

  lemma NumBack(n: nat, k: nat, rest: seq<byte>)
    requires n < Limit(k)
    ensures GetNum(k, NumThen(n, k, rest)) == Got(n, rest)
  {
    var d := NumThen(n, k, rest);
    assert d[..k] == ToBytes(n, k) && d[k..] == rest;
    NumberRoundTrip(n, k);
  }

  lemma StrBack(s: seq<byte>, rest: seq<byte>)
    requires StrFits(s)
    ensures GetStr(StrThen(s, rest)) == Got(s, rest)
  {
    Limits();
    NumBack(|s|, 4, s + rest);
    assert (s + rest)[..|s|] == s && (s + rest)[|s|..] == rest;
  }

  lemma {:induction false} ManyBack<T>(xs: seq<T>, enc: (T, seq<byte>) -> seq<byte>, dec: seq<byte> -> Read<T>,
                                       rest: seq<byte>)
    requires forall k, r :: 0 <= k < |xs| ==> dec(enc(xs[k], r)) == Got(xs[k], r)
    ensures GetMany(|xs|, dec, ManyThen(xs, enc, rest)) == Got(xs, rest)
  {
    if xs != [] {
      forall k, r | 0 <= k < |xs[1..]|
        ensures dec(enc(xs[1..][k], r)) == Got(xs[1..][k], r)
      {
        assert xs[1..][k] == xs[k + 1];
      }
      ManyBack(xs[1..], enc, dec, rest);
      var tail := ManyThen(xs[1..], enc, rest);
      assert dec(enc(xs[0], tail)) == Got(xs[0], tail);
      assert [xs[0]] + xs[1..] == xs;
    } else {
      assert ManyThen(xs, enc, rest) == rest;
    }
  }

  lemma IdsBack(ids: seq<nat>, limit: nat, rest: seq<byte>)
    requires IdsFit(ids, limit)
    ensures GetIds(|ids|, limit, IdsThen(ids, rest)) == Got(ids, rest)
  {
    Limits();
    forall k, r | 0 <= k < |ids|
      ensures GetBelow(4, limit, IdThen(ids[k], r)) == Got(ids[k], r)
    {
      NumBack(ids[k], 4, r);
    }
    hide GetNum, Limit, NumThen;
    ManyBack(ids, IdThen, (e: seq<byte>) => GetBelow(4, limit, e), rest);
  }

  // ---------------------------------------------------------------- records

  lemma TypeBack(total: nat, t: Type, rest: seq<byte>)
    requires TypeFits(total, t)
    ensures GetType(total, TypeThen(t, rest)) == Got(t, rest)
  {
    Limits();
    hide GetNum, NumThen, GetStr, StrThen, GetIds, IdsThen, Limit;
    var r9 := IdsThen(t.fieldOffsets, rest);
    var r8 := IdsThen(t.fieldTypes, r9);
    var r7 := StrThen(t.name, r8);
    var r6 := NumThen(|t.fieldTypes|, 4, r7);
    var r5 := NumThen(t.arrayCount, 4, r6);
    var r4 := NumThen(t.vectorLanes, 2, r5);
    var r3 := NumThen(t.elemType, 4, r4);
    var r2 := NumThen(t.align, 4, r3);
    var r1 := NumThen(t.size, 4, r2);
    NumBack(t.kind, 1, r1);
    NumBack(t.size, 4, r2);
    NumBack(t.align, 4, r3);
    NumBack(t.elemType, 4, r4);
    NumBack(t.vectorLanes, 2, r5);
    NumBack(t.arrayCount, 4, r6);
    NumBack(|t.fieldTypes|, 4, r7);
    StrBack(t.name, r8);
    IdsBack(t.fieldTypes, total, r9);
    IdsBack(t.fieldOffsets, U32_LIMIT, rest);
  }

  lemma GlobalBack(total: nat, g: Global, rest: seq<byte>)
    requires GlobalFits(total, g)
    ensures GetGlobal(total, GlobalThen(g, rest)) == Got(NormalGlobal(g), rest)
  {
    hide GetNum, NumThen, GetStr, StrThen, Limit, WrittenSize;
    Limits();
    WrittenIs(g);
    var n := WrittenSize(g);
    var r4 := if n > 0 then g.initBytes.value + rest else rest;
    if n > 0 { assert r4[..n] == g.initBytes.value && r4[n..] == rest; }
    var r3 := NumThen(n, 4, r4);
    var r2 := NumThen(g.align, 4, r3);
    var r1 := NumThen(g.kind, 1, r2);
    StrBack(g.name, NumThen(g.ty, 4, r1));
    NumBack(g.ty, 4, r1);
    NumBack(g.kind, 1, r2);
    NumBack(g.align, 4, r3);
    NumBack(n, 4, r4);
    assert GlobalThen(g, rest) == StrThen(g.name, NumThen(g.ty, 4, r1));
  }

  lemma WrittenIs(g: Global)
    ensures WrittenSize(g) > 0 ==> WrittenSize(g) == g.initSize && g.initBytes.Some?
  {
  }

  lemma ParamBack(total: nat, p: Param, rest: seq<byte>)
    requires ParamFits(total, p)
    ensures GetParam(total, ParamThen(p, rest)) == Got(p, rest)
  {
    Limits();
    hide GetNum, NumThen, GetStr, StrThen, Limit;
    NumBack(p.ty, 4, StrThen(p.name, rest));
    StrBack(p.name, rest);
  }

  lemma BlockBack(blocks: nat, b: Block, rest: seq<byte>)
    requires BlockFits(blocks, b) && IsU32(blocks)
    ensures GetBlock(blocks, BlockThen(b, rest)) == Got(b, rest)
  {
    Limits();
    hide GetNum, NumThen, GetStr, StrThen, GetIds, IdsThen, Limit;
    var r7 := IdsThen(b.succs, rest);
    var r6 := NumThen(|b.succs|, 4, r7);
    var r5 := IdsThen(b.preds, r6);
    var r4 := NumThen(|b.preds|, 4, r5);
    var r3 := NumThen(b.instCount, 4, r4);
    var r2 := NumThen(b.last, 4, r3);
    var r1 := NumThen(b.first, 4, r2);
    StrBack(b.name, r1);
    NumBack(b.first, 4, r2);
    NumBack(b.last, 4, r3);
    NumBack(b.instCount, 4, r4);
    NumBack(|b.preds|, 4, r5);
    IdsBack(b.preds, blocks, r6);
    NumBack(|b.succs|, 4, r7);
    IdsBack(b.succs, blocks, rest);
  }

  lemma InstBack(blocks: nat, i: Inst, rest: seq<byte>)
    requires InstFits(blocks, i)
    ensures GetInst(blocks, InstThen(i, rest)) == Got(i, rest)
  {
    Limits();
    hide GetNum, NumThen, Limit;
    var r7 := NumThen(i.next, 4, rest);
    var r6 := NumThen(i.prev, 4, r7);
    var r5 := NumThen(i.block, 4, r6);
    var r4 := NumThen(i.opCount, 2, r5);
    var r3 := NumThen(i.opStart, 4, r4);
    var r2 := NumThen(i.result, 4, r3);
    var r1 := NumThen(i.flags, 2, r2);
    NumBack(i.opcode, 2, r1);
    NumBack(i.flags, 2, r2);
    NumBack(i.result, 4, r3);
    NumBack(i.opStart, 4, r4);
    NumBack(i.opCount, 2, r5);
    NumBack(i.block, 4, r6);
    NumBack(i.prev, 4, r7);
    NumBack(i.next, 4, rest);
  }

  lemma ValueBack(total: nat, v: Value, rest: seq<byte>)
    requires ValueFits(total, v)
    ensures GetValue(total, ValueThen(v, rest)) == Got(v, rest)
  {
    Limits();
    hide GetNum, NumThen, GetStr, StrThen, Limit;
    var r4 := StrThen(v.name, rest);
    var r3 := NumThen(v.index, 4, r4);
    var r2 := NumThen(v.def, 4, r3);
    var r1 := NumThen(v.kind, 1, r2);
    NumBack(v.ty, 4, r1);
    NumBack(v.kind, 1, r2);
    NumBack(v.def, 4, r3);
    NumBack(v.index, 4, r4);
    StrBack(v.name, rest);
  }

  lemma OperandBack(b: Bounds, op: Operand, rest: seq<byte>)
    requires OperandFits(b, op)
    ensures GetOperand(b, OperandThen(op, rest)) == Got(op, rest)
  {
    Limits();
    hide GetNum, NumThen, Limit, PayloadSize, PayloadLimit;
    var r1 := NumThen(op.payload, PayloadSize(op.kind), rest);
    NumBack(op.kind, 1, r1);
    NumBack(op.payload, PayloadSize(op.kind), rest);
  }

  // ---------------------------------------------------------------- functions and modules

  lemma ParamsBack(total: nat, xs: seq<Param>, rest: seq<byte>)
    requires forall p :: p in xs ==> ParamFits(total, p)
    ensures GetMany(|xs|, (e: seq<byte>) => GetParam(total, e), ManyThen(xs, ParamThen, rest)) == Got(xs, rest)
  {
    hide ParamFits, GetParam, ParamThen;
    forall k, r | 0 <= k < |xs| ensures GetParam(total, ParamThen(xs[k], r)) == Got(xs[k], r) {
      assert xs[k] in xs;
      ParamBack(total, xs[k], r);
    }
    ManyBack(xs, ParamThen, (e: seq<byte>) => GetParam(total, e), rest);
  }

  lemma BlocksBack(n: nat, xs: seq<Block>, rest: seq<byte>)
    requires IsU32(n) && forall b :: b in xs ==> BlockFits(n, b)
    ensures GetMany(|xs|, (e: seq<byte>) => GetBlock(n, e), ManyThen(xs, BlockThen, rest)) == Got(xs, rest)
  {
    hide BlockFits, GetBlock, BlockThen;
    forall k, r | 0 <= k < |xs| ensures GetBlock(n, BlockThen(xs[k], r)) == Got(xs[k], r) {
      assert xs[k] in xs;
      BlockBack(n, xs[k], r);
    }
    ManyBack(xs, BlockThen, (e: seq<byte>) => GetBlock(n, e), rest);
  }

  lemma InstsBack(n: nat, xs: seq<Inst>, rest: seq<byte>)
    requires forall i :: i in xs ==> InstFits(n, i)
    ensures GetMany(|xs|, (e: seq<byte>) => GetInst(n, e), ManyThen(xs, InstThen, rest)) == Got(xs, rest)
  {
    hide InstFits, GetInst, InstThen;
    forall k, r | 0 <= k < |xs| ensures GetInst(n, InstThen(xs[k], r)) == Got(xs[k], r) {
      assert xs[k] in xs;
      InstBack(n, xs[k], r);
    }
    ManyBack(xs, InstThen, (e: seq<byte>) => GetInst(n, e), rest);
  }

  lemma ValuesBack(total: nat, xs: seq<Value>, rest: seq<byte>)
    requires forall v :: v in xs ==> ValueFits(total, v)
    ensures GetMany(|xs|, (e: seq<byte>) => GetValue(total, e), ManyThen(xs, ValueThen, rest)) == Got(xs, rest)
  {
    hide ValueFits, GetValue, ValueThen;
    forall k, r | 0 <= k < |xs| ensures GetValue(total, ValueThen(xs[k], r)) == Got(xs[k], r) {
      assert xs[k] in xs;
      ValueBack(total, xs[k], r);
    }
    ManyBack(xs, ValueThen, (e: seq<byte>) => GetValue(total, e), rest);
  }

  lemma OperandsBack(b: Bounds, xs: seq<Operand>, rest: seq<byte>)
    requires forall op :: op in xs ==> OperandFits(b, op)
    ensures GetMany(|xs|, (e: seq<byte>) => GetOperand(b, e), ManyThen(xs, OperandThen, rest)) == Got(xs, rest)
  {
    hide OperandFits, GetOperand, OperandThen;
    forall k, r | 0 <= k < |xs| ensures GetOperand(b, OperandThen(xs[k], r)) == Got(xs[k], r) {
      assert xs[k] in xs;
      OperandBack(b, xs[k], r);
    }
    ManyBack(xs, OperandThen, (e: seq<byte>) => GetOperand(b, e), rest);
  }

  lemma BodyBack(head: Function, f: Function, fns: nat, globals: nat, total: nat, rest: seq<byte>)
    requires FunctionFits(fns, globals, total, f)
    requires head == f.(params := [], blocks := [], insts := [], vals := [], ops := [])
    ensures GetBody(head, fns, globals, total, BodyThen(f, rest)) == Got(f, rest)
  {
    Limits();
    hide GetNum, NumThen, Limit, GetMany, ManyThen, ParamFits, BlockFits, InstFits, ValueFits, OperandFits, RangesOk;
    var n := |f.blocks|;
    var bounds := Bounds(|f.vals|, n, fns, globals, total);
    var r9 := ManyThen(f.ops, OperandThen, rest);
    var r8 := NumThen(|f.ops|, 4, r9);
    var r7 := ManyThen(f.vals, ValueThen, r8);
    var r6 := NumThen(|f.vals|, 4, r7);
    var r5 := ManyThen(f.insts, InstThen, r6);
    var r4 := NumThen(|f.insts|, 4, r5);
    var r3 := ManyThen(f.blocks, BlockThen, r4);
    var r2 := NumThen(n, 4, r3);
    var r1 := ManyThen(f.params, ParamThen, r2);
    NumBack(|f.params|, 4, r1);
    ParamsBack(total, f.params, r2);
    NumBack(n, 4, r3);
    BlocksBack(n, f.blocks, r4);
    NumBack(|f.insts|, 4, r5);
    InstsBack(n, f.insts, r6);
    NumBack(|f.vals|, 4, r7);
    ValuesBack(total, f.vals, r8);
    NumBack(|f.ops|, 4, r9);
    OperandsBack(bounds, f.ops, rest);
  }

  lemma HeadFits(fns: nat, globals: nat, total: nat, f: Function)
    requires FunctionFits(fns, globals, total, f)
    ensures StrFits(f.name) && f.returnType < total && IsU32(f.returnType) && f.callConv < U8_LIMIT && IsU32(f.entry)
  {
  }

  lemma FunctionBack(fns: nat, globals: nat, total: nat, f: Function, rest: seq<byte>)
    requires FunctionFits(fns, globals, total, f)
    ensures GetFunction(fns, globals, total, FunctionThen(f, rest)) == Got(f, rest)
  {
    hide GetNum, NumThen, GetStr, StrThen, Limit, GetBody, BodyThen, FunctionFits;
    var r5 := BodyThen(f, rest);
    var flag := if f.isVariadic then 1 else 0;
    BodyBack(f.(params := [], blocks := [], insts := [], vals := [], ops := []), f, fns, globals, total, rest);
    HeadFits(fns, globals, total, f);
    Limits();
    var r4 := NumThen(f.entry, 4, r5);
    var r3 := NumThen(flag, 1, r4);
    var r2 := NumThen(f.callConv, 1, r3);
    var r1 := NumThen(f.returnType, 4, r2);
    StrBack(f.name, r1);
    NumBack(f.returnType, 4, r2);
    NumBack(f.callConv, 1, r3);
    NumBack(flag, 1, r4);
    NumBack(f.entry, 4, r5);
  }

  lemma TypesBack(total: nat, xs: seq<Type>, rest: seq<byte>)
    requires forall t :: t in xs ==> TypeFits(total, t)
    ensures GetMany(|xs|, (e: seq<byte>) => GetType(total, e), ManyThen(xs, TypeThen, rest)) == Got(xs, rest)
  {
    hide TypeFits, GetType, TypeThen;
    forall k, r | 0 <= k < |xs| ensures GetType(total, TypeThen(xs[k], r)) == Got(xs[k], r) {
      assert xs[k] in xs;
      TypeBack(total, xs[k], r);
    }
    ManyBack(xs, TypeThen, (e: seq<byte>) => GetType(total, e), rest);
  }

  /** Globals come back normalised. */
  lemma {:induction false} GlobalsBack(total: nat, xs: seq<Global>, rest: seq<byte>)
    requires forall g :: g in xs ==> GlobalFits(total, g)
    ensures GetMany(|xs|, (e: seq<byte>) => GetGlobal(total, e), ManyThen(xs, GlobalThen, rest)) ==
            Got(NormalGlobals(xs), rest)
  {
    hide GlobalFits, GetGlobal, GlobalThen, NormalGlobal;
    if xs != [] {
      GlobalsBack(total, xs[1..], rest);
      GlobalBack(total, xs[0], ManyThen(xs[1..], GlobalThen, rest));
    }
  }

  lemma FunctionsBack(fns: nat, globals: nat, total: nat, xs: seq<Function>, rest: seq<byte>)
    requires forall f :: f in xs ==> FunctionFits(fns, globals, total, f)
    ensures GetMany(|xs|, (e: seq<byte>) => GetFunction(fns, globals, total, e), ManyThen(xs, FunctionThen, rest)) ==
            Got(xs, rest)
  {
    hide FunctionFits, GetFunction, FunctionThen;
    forall k, r | 0 <= k < |xs| ensures GetFunction(fns, globals, total, FunctionThen(xs[k], r)) == Got(xs[k], r) {
      assert xs[k] in xs;
      FunctionBack(fns, globals, total, xs[k], r);
    }
    ManyBack(xs, FunctionThen, (e: seq<byte>) => GetFunction(fns, globals, total, e), rest);
  }

  lemma ModuleBack(m: Module, rest: seq<byte>)
    requires ModuleFits(m)
    ensures GetModule(ModuleThen(m, rest)) == Got(Normal(m), rest)
  {
    Limits();
    hide GetNum, NumThen, GetStr, StrThen, Limit, GetMany, ManyThen, TypeFits, GlobalFits, FunctionFits, NormalGlobals;
    var total := PRIMITIVE_TYPE_COUNT + |m.types|;
    var r6 := ManyThen(m.functions, FunctionThen, rest);
    var r5 := NumThen(|m.functions|, 4, r6);
    var r4 := ManyThen(m.globals, GlobalThen, r5);
    var r3 := NumThen(|m.globals|, 4, r4);
    var r2 := ManyThen(m.types, TypeThen, r3);
    var r1 := NumThen(|m.types|, 4, r2);
    StrBack(m.name, r1);
    NumBack(|m.types|, 4, r2);
    TypesBack(total, m.types, r3);
    NumBack(|m.globals|, 4, r4);
    GlobalsBack(total, m.globals, r5);
    NumBack(|m.functions|, 4, r6);
    FunctionsBack(|m.functions|, |m.globals|, total, m.functions, rest);
  }

  /** The encoding of an in-limit module, read again, is the module. */
  lemma RoundTrip(m: Module, accept: Module -> bool)
    requires ModuleFits(m) && accept(Normal(m))
    ensures Deserialize(Serialize(m), accept) == Some(Normal(m))
  {
    hide GetModule, ModuleThen, ModuleFits, GetNum, Limit, FromBytes, ToBytes, Normal;
    Limits();
    var body := ModuleThen(m, []);
    var r1 := NumThen(0, 2, body);
    var r0 := NumThen(NYIR_VERSION, 2, r1);
    ModuleBack(m, []);
    NumBack(NYIR_VERSION, 2, r1);
    NumBack(0, 2, body);
    BodyIsLong(m);
    var d := Serialize(m);
    assert d[..4] == MAGIC && d[4..] == r0;
    assert |r1| == 2 + |body| && |r0| == 2 + |r1|;
  }

  /** No encoding is shorter than the header and the name's length. */
  lemma BodyIsLong(m: Module)
    ensures |ModuleThen(m, [])| >= 4
  {
    hide ManyThen;
  }

  /** Two in-limit modules with one encoding are the same module, up to sizes of missing bytes. */
  lemma EncodingIsInjective(m: Module, m': Module)
    requires ModuleFits(m) && ModuleFits(m') && Serialize(m) == Serialize(m')
    ensures Normal(m) == Normal(m')
  {
    hide Serialize, Deserialize, ModuleFits, Normal;
    RoundTrip(m, _ => true);
    RoundTrip(m', _ => true);
  }
}
