/**
 * The NYIR binary format of src/nygen/nyir.c: what is written for a module, what is read from bytes, and the
 * proof that reading undoes writing.
 *
 * XThen(x, rest) is the encoding of x followed by rest; reading it leaves rest.
 */
module NyirFormat {
  import opened Bytes
  import opened IntFold

  // ---------------------------------------------------------------- the module

  datatype Type = Type(kind: nat, size: nat, align: nat, elemType: nat, vectorLanes: nat, arrayCount: nat,
                       name: seq<byte>, fieldTypes: seq<nat>, fieldOffsets: seq<nat>)

  /** A global's initial bytes may be missing whatever its init_size says. */
  datatype Global = Global(name: seq<byte>, ty: nat, kind: nat, align: nat, initSize: nat, initBytes: Option<seq<byte>>)

  datatype Param = Param(ty: nat, name: seq<byte>)

  datatype Block = Block(name: seq<byte>, first: nat, last: nat, instCount: nat, preds: seq<nat>, succs: seq<nat>)

  datatype Inst = Inst(opcode: nat, flags: nat, result: nat, opStart: nat, opCount: nat, block: nat, prev: nat,
                       next: nat)

  datatype Value = Value(ty: nat, kind: nat, def: nat, index: nat, name: seq<byte>)

  /** kind is Ny_Operand_Kind; payload is the one union member it selects. */
  datatype Operand = Operand(kind: nat, payload: nat)

  datatype Function = Function(name: seq<byte>, returnType: nat, callConv: nat, isVariadic: bool, entry: nat,
                               params: seq<Param>, blocks: seq<Block>, insts: seq<Inst>, vals: seq<Value>,
                                 ops: seq<Operand>)

  /** types are those after the primitive ones. */
  datatype Module = Module(name: seq<byte>, types: seq<Type>, globals: seq<Global>, functions: seq<Function>)

  const PRIMITIVE_TYPE_COUNT := 10
  const INVALID_TYPE := 0xffff_ffff
  const TYPE_KIND_STRUCT := 4
  const GLOBAL_BSS := 2
  const VAL_CONSTANT := 2
  const OPCODE_COUNT := 83
  const OP_VALUE := 1
  const OP_BLOCK := 2
  const OP_IMM_INT := 3
  const OP_IMM_FLOAT := 4
  const OP_FUNCTION := 5
  const OP_SYMBOL := 6
  const OP_GLOBAL := 7
  const OP_TYPE := 8
  const NYIR_VERSION := 1

  const MANY := 0x10_0000
  const MORE := 0x100_0000
  const INIT_LIMIT := 0x1000_0000

  // ---------------------------------------------------------------- writing

  function NumThen(n: nat, k: nat, rest: seq<byte>): seq<byte> {
    ToBytes(n, k) + rest
  }

  function StrThen(s: seq<byte>, rest: seq<byte>): seq<byte> {
    NumThen(|s|, 4, s + rest)
  }

  function ManyThen<T>(xs: seq<T>, enc: (T, seq<byte>) -> seq<byte>, rest: seq<byte>): seq<byte> {
    if xs == [] then rest else enc(xs[0], ManyThen(xs[1..], enc, rest))
  }

  function IdThen(n: nat, rest: seq<byte>): seq<byte> {
    NumThen(n, 4, rest)
  }

  function IdsThen(ids: seq<nat>, rest: seq<byte>): seq<byte> {
    ManyThen(ids, IdThen, rest)
  }

  function TypeThen(t: Type, rest: seq<byte>): seq<byte> {
    NumThen(t.kind, 1, NumThen(t.size, 4, NumThen(t.align, 4, NumThen(t.elemType, 4, NumThen(t.vectorLanes, 2,
      NumThen(t.arrayCount, 4, NumThen(|t.fieldTypes|, 4,
                                       StrThen(t.name, IdsThen(t.fieldTypes, IdsThen(t.fieldOffsets, rest))))))))))
  }

  /** What is written for init_size: 0 unless there are bytes. */
  function WrittenSize(g: Global): nat {
    if g.initBytes.Some? && g.initSize > 0 then g.initSize else 0
  }

  function GlobalThen(g: Global, rest: seq<byte>): seq<byte> {
    StrThen(g.name, NumThen(g.ty, 4, NumThen(g.kind, 1, NumThen(g.align, 4, NumThen(WrittenSize(g), 4,
      if WrittenSize(g) > 0 then g.initBytes.value + rest else rest)))))
  }

  /** How many bytes an operand kind carries. */
  function PayloadSize(kind: nat): nat {
    if kind == OP_IMM_INT || kind == OP_IMM_FLOAT then 8
    else if kind in {OP_VALUE, OP_BLOCK, OP_FUNCTION, OP_SYMBOL, OP_GLOBAL, OP_TYPE} then 4
    else 0
  }

  function OperandThen(op: Operand, rest: seq<byte>): seq<byte> {
    NumThen(op.kind, 1, NumThen(op.payload, PayloadSize(op.kind), rest))
  }

  function ParamThen(p: Param, rest: seq<byte>): seq<byte> {
    NumThen(p.ty, 4, StrThen(p.name, rest))
  }

  function BlockThen(b: Block, rest: seq<byte>): seq<byte> {
    StrThen(b.name, NumThen(b.first, 4, NumThen(b.last, 4, NumThen(b.instCount, 4,
      NumThen(|b.preds|, 4, IdsThen(b.preds, NumThen(|b.succs|, 4, IdsThen(b.succs, rest))))))))
  }

  function InstThen(i: Inst, rest: seq<byte>): seq<byte> {
    NumThen(i.opcode, 2, NumThen(i.flags, 2, NumThen(i.result, 4, NumThen(i.opStart, 4, NumThen(i.opCount, 2,
      NumThen(i.block, 4, NumThen(i.prev, 4, NumThen(i.next, 4, rest))))))))
  }

  function ValueThen(v: Value, rest: seq<byte>): seq<byte> {
    NumThen(v.ty, 4, NumThen(v.kind, 1, NumThen(v.def, 4, NumThen(v.index, 4, StrThen(v.name, rest)))))
  }

  function FunctionThen(f: Function, rest: seq<byte>): seq<byte> {
    StrThen(f.name, NumThen(f.returnType, 4, NumThen(f.callConv, 1, NumThen(if f.isVariadic then 1 else 0, 1,
      NumThen(f.entry, 4, BodyThen(f, rest))))))
  }

  function BodyThen(f: Function, rest: seq<byte>): seq<byte> {
    NumThen(|f.params|, 4, ManyThen(f.params, ParamThen,
    NumThen(|f.blocks|, 4, ManyThen(f.blocks, BlockThen,
    NumThen(|f.insts|, 4, ManyThen(f.insts, InstThen,
    NumThen(|f.vals|, 4, ManyThen(f.vals, ValueThen,
    NumThen(|f.ops|, 4, ManyThen(f.ops, OperandThen, rest))))))))))
  }

  function ModuleThen(m: Module, rest: seq<byte>): seq<byte> {
    StrThen(m.name,
    NumThen(|m.types|, 4, ManyThen(m.types, TypeThen,
    NumThen(|m.globals|, 4, ManyThen(m.globals, GlobalThen,
    NumThen(|m.functions|, 4, ManyThen(m.functions, FunctionThen, rest)))))))
  }

  /** The magic bytes N, Y, I, R. */
  const MAGIC: seq<byte> := [0x4E, 0x59, 0x49, 0x52]

  /** nygen_serialize_nyir. */
  function Serialize(m: Module): seq<byte> {
    MAGIC + NumThen(NYIR_VERSION, 2, NumThen(0, 2, ModuleThen(m, [])))
  }

  // ---------------------------------------------------------------- reading

  datatype Read<+T> = Fail | Got(value: T, rest: seq<byte>) {
    predicate IsFailure() {
      Fail?
    }

    function PropagateFailure<U>(): Read<U>
      requires IsFailure()
    {
      Fail
    }

    function Extract(): (T, seq<byte>)
      requires !IsFailure()
    {
      (value, rest)
    }
  }

  function GetNum(k: nat, d: seq<byte>): Read<nat> {
    if |d| < k then Fail else Got(FromBytes(d[..k]), d[k..])
  }

  function GetBelow(k: nat, limit: nat, d: seq<byte>): Read<nat> {
    var n :- GetNum(k, d);
    if n.0 < limit then Got(n.0, n.1) else Fail
  }

  function GetBytes(n: nat, d: seq<byte>): Read<seq<byte>> {
    if |d| < n then Fail else Got(d[..n], d[n..])
  }

  function GetStr(d: seq<byte>): Read<seq<byte>> {
    var n :- GetNum(4, d);
    GetBytes(n.0, n.1)
  }

  function GetMany<T>(n: nat, dec: seq<byte> -> Read<T>, d: seq<byte>): Read<seq<T>> {
    if n == 0 then Got([], d)
    else
      var x :- dec(d);
      var xs :- GetMany(n - 1, dec, x.1);
      Got([x.0] + xs.0, xs.1)
  }

  function GetIds(n: nat, limit: nat, d: seq<byte>): Read<seq<nat>> {
    GetMany(n, (e: seq<byte>) => GetBelow(4, limit, e), d)
  }

  function GetType(total: nat, d: seq<byte>): Read<Type> {
    var kind :- GetBelow(1, TYPE_KIND_STRUCT + 1, d);
    var size :- GetNum(4, kind.1);
    var align :- GetNum(4, size.1);
    var elem :- GetNum(4, align.1);
    if elem.0 != INVALID_TYPE && elem.0 >= total then Fail
    else
      var lanes :- GetNum(2, elem.1);
      var count :- GetNum(4, lanes.1);
      var fields :- GetBelow(4, MORE + 1, count.1);
      var name :- GetStr(fields.1);
      var types :- GetIds(fields.0, total, name.1);
      var offsets :- GetIds(fields.0, U32_LIMIT, types.1);
      Got(Type(kind.0, size.0, align.0, elem.0, lanes.0, count.0, name.0, types.0, offsets.0), offsets.1)
  }

  function GetGlobal(total: nat, d: seq<byte>): Read<Global> {
    var name :- GetStr(d);
    var ty :- GetBelow(4, total, name.1);
    var kind :- GetBelow(1, GLOBAL_BSS + 1, ty.1);
    var align :- GetNum(4, kind.1);
    var size :- GetBelow(4, INIT_LIMIT + 1, align.1);
    if size.0 == 0 then Got(Global(name.0, ty.0, kind.0, align.0, 0, None), size.1)
    else
      var init :- GetBytes(size.0, size.1);
      Got(Global(name.0, ty.0, kind.0, align.0, size.0, Some(init.0)), init.1)
  }

  /** What operand payloads must stay below, by kind. */
  datatype Bounds = Bounds(vals: nat, blocks: nat, fns: nat, globals: nat, types: nat)

  function PayloadLimit(kind: nat, b: Bounds): nat {
    if kind == OP_VALUE then b.vals
    else if kind == OP_BLOCK then b.blocks
    else if kind == OP_FUNCTION then b.fns
    else if kind == OP_GLOBAL then b.globals
    else if kind == OP_TYPE then b.types
    else U64_LIMIT
  }

  function GetOperand(b: Bounds, d: seq<byte>): Read<Operand> {
    var kind :- GetBelow(1, OP_TYPE + 1, d);
    var payload :- GetBelow(PayloadSize(kind.0), PayloadLimit(kind.0, b), kind.1);
    Got(Operand(kind.0, payload.0), payload.1)
  }

  function GetParam(total: nat, d: seq<byte>): Read<Param> {
    var ty :- GetBelow(4, total, d);
    var name :- GetStr(ty.1);
    Got(Param(ty.0, name.0), name.1)
  }

  function GetBlock(blocks: nat, d: seq<byte>): Read<Block> {
    var name :- GetStr(d);
    var first :- GetNum(4, name.1);
    var last :- GetNum(4, first.1);
    var insts :- GetNum(4, last.1);
    var predCount :- GetBelow(4, blocks + 1, insts.1);
    var preds :- GetIds(predCount.0, blocks, predCount.1);
    var succCount :- GetBelow(4, blocks + 1, preds.1);
    var succs :- GetIds(succCount.0, blocks, succCount.1);
    Got(Block(name.0, first.0, last.0, insts.0, preds.0, succs.0), succs.1)
  }

  function GetInst(blocks: nat, d: seq<byte>): Read<Inst> {
    var opcode :- GetBelow(2, OPCODE_COUNT, d);
    var flags :- GetNum(2, opcode.1);
    var result :- GetNum(4, flags.1);
    var start :- GetNum(4, result.1);
    var count :- GetNum(2, start.1);
    var block :- GetBelow(4, blocks, count.1);
    var prev :- GetNum(4, block.1);
    var next :- GetNum(4, prev.1);
    Got(Inst(opcode.0, flags.0, result.0, start.0, count.0, block.0, prev.0, next.0), next.1)
  }

  function GetValue(total: nat, d: seq<byte>): Read<Value> {
    var ty :- GetBelow(4, total, d);
    var kind :- GetBelow(1, VAL_CONSTANT + 1, ty.1);
    var def :- GetNum(4, kind.1);
    var index :- GetNum(4, def.1);
    var name :- GetStr(index.1);
    Got(Value(ty.0, kind.0, def.0, index.0, name.0), name.1)
  }

  /** The operand range, added in 32 bits as the reader does. */
  predicate RangeOk(i: Inst, ops: nat) {
    (i.opStart + i.opCount) % U32_LIMIT <= ops
  }

  predicate RangesOk(insts: seq<Inst>, ops: nat) {
    forall k :: 0 <= k < |insts| ==> RangeOk(insts[k], ops)
  }

  function GetFunction(fns: nat, globals: nat, total: nat, d: seq<byte>): Read<Function> {
    var name :- GetStr(d);
    var ret :- GetBelow(4, total, name.1);
    var conv :- GetNum(1, ret.1);
    var variadic :- GetNum(1, conv.1);
    var entry :- GetNum(4, variadic.1);
    GetBody(Function(name.0, ret.0, conv.0, variadic.0 != 0, entry.0, [], [], [], [], []), fns, globals, total, entry.1)
  }

  function GetBody(f: Function, fns: nat, globals: nat, total: nat, d: seq<byte>): Read<Function> {
    var paramCount :- GetBelow(4, MANY + 1, d);
    var params :- GetMany(paramCount.0, (e: seq<byte>) => GetParam(total, e), paramCount.1);
    var blockCount :- GetBelow(4, MANY + 1, params.1);
    var n := blockCount.0;
    var blocks :- GetMany(n, (e: seq<byte>) => GetBlock(n, e), blockCount.1);
    var instCount :- GetBelow(4, MORE + 1, blocks.1);
    var insts :- GetMany(instCount.0, (e: seq<byte>) => GetInst(n, e), instCount.1);
    var valCount :- GetBelow(4, MORE + 1, insts.1);
    var vals :- GetMany(valCount.0, (e: seq<byte>) => GetValue(total, e), valCount.1);
    var opCount :- GetBelow(4, MORE + 1, vals.1);
    var bounds := Bounds(valCount.0, n, fns, globals, total);
    var ops :- GetMany(opCount.0, (e: seq<byte>) => GetOperand(bounds, e), opCount.1);
    if RangesOk(insts.0, opCount.0) then
      Got(f.(params := params.0, blocks := blocks.0, insts := insts.0, vals := vals.0, ops := ops.0), ops.1)
    else Fail
  }

  function GetModule(d: seq<byte>): Read<Module> {
    var name :- GetStr(d);
    var typeCount :- GetBelow(4, MANY + 1, name.1);
    var total := PRIMITIVE_TYPE_COUNT + typeCount.0;
    var types :- GetMany(typeCount.0, (e: seq<byte>) => GetType(total, e), typeCount.1);
    var globalCount :- GetBelow(4, MANY + 1, types.1);
    var globals :- GetMany(globalCount.0, (e: seq<byte>) => GetGlobal(total, e), globalCount.1);
    var fnCount :- GetBelow(4, MANY + 1, globals.1);
    var fns :- GetMany(fnCount.0, (e: seq<byte>) => GetFunction(fnCount.0, globalCount.0, total, e), fnCount.1);
    Got(Module(name.0, types.0, globals.0, fns.0), fns.1)
  }

  /** nygen_deserialize_nyir; accept is ny_validate_module. The reserved field is read and not looked at. */
  function Deserialize(d: seq<byte>, accept: Module -> bool): Option<Module> {
    if |d| < 12 || d[..4] != MAGIC then None
    else
      var version := GetNum(2, d[4..]);
      if version.Fail? || version.value != NYIR_VERSION then None
      else
        var reserved := GetNum(2, version.rest);
        if reserved.Fail? then None
        else
          var m := GetModule(reserved.rest);
          if m.Got? && m.rest == [] && accept(m.value) then Some(m.value) else None
  }
}
