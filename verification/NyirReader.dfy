/** The reader of src/nygen/nyir.c: bytes and a position, every read checked against the end. */
module NyirReader {
  import opened Bytes
  import opened IntFold
  import opened NyirFormat

  /** A method that reads returned x and left rest: what want says. */
  predicate Matches<T(==)>(x: Option<T>, rest: seq<byte>, want: Read<T>) {
    match want
    case Fail => x == None
    case Got(value, after) => x == Some(value) && rest == after
  }

  function Prepend<T>(xs: seq<T>, r: Read<seq<T>>): Read<seq<T>> {
    match r
    case Fail => Fail
    case Got(ys, rest) => Got(xs + ys, rest)
  }

  lemma NothingYet<T>(want: Read<seq<T>>)
    ensures want == Prepend([], want)
  {
    if want.Got? { assert [] + want.value == want.value; }
  }

  lemma OneMore<T>(n: nat, dec: seq<byte> -> Read<T>, d: seq<byte>, acc: seq<T>)
    requires n > 0
    ensures Prepend(acc, GetMany(n, dec, d))
         == match dec(d)
            case Fail => Fail
            case Got(x, rest) => Prepend(acc + [x], GetMany(n - 1, dec, rest))
  {
    match dec(d)
    case Fail =>
    case Got(x, rest) =>
      var tail := GetMany(n - 1, dec, rest);
      if tail.Got? { assert acc + ([x] + tail.value) == (acc + [x]) + tail.value; }
  }

  lemma AllRead<T>(dec: seq<byte> -> Read<T>, d: seq<byte>, acc: seq<T>)
    ensures Prepend(acc, GetMany(0, dec, d)) == Got(acc, d)
  {
    assert acc + [] == acc;
  }

  lemma FromBytes2(b: seq<byte>)
    requires |b| == 2
    ensures FromBytes(b) == b[0] as nat + 0x100 * b[1] as nat
  {
    assert b[1..] == [b[1]];
  }

  lemma FromBytes4(b: seq<byte>)
    requires |b| == 4
    ensures FromBytes(b) == b[0] as nat + 0x100 * b[1] as nat + 0x1_0000 * b[2] as nat + 0x100_0000 * b[3] as nat
  {
    FromBytes2(b[2..]);
    assert b[1..][1..] == b[2..];
  }

  /** Adding the low i bytes, then one more. */
  lemma {:induction false} FromBytesNext(b: seq<byte>, i: nat)
    requires i < |b|
    ensures FromBytes(b[..i + 1]) == FromBytes(b[..i]) + b[i] * Limit(i)
  {
    if i == 0 {
      assert b[..1] == [b[0]];
    } else {
      FromBytesNext(b[1..], i - 1);
      assert b[..i + 1][1..] == b[1..][..i] && b[..i][1..] == b[1..][..i - 1];
      Scale(b[1..][i - 1], Limit(i - 1));
    }
  }

  lemma Scale(x: nat, y: nat)
    ensures 256 * (x * y) == x * (256 * y)
  {
  }

  lemma NoPayload(d: seq<byte>)
    ensures GetNum(0, d) == Got(0, d)
  {
    assert d[..0] == [] && d[0..] == d;
  }

  lemma NumIsBelow(k: nat, d: seq<byte>)
    ensures GetNum(k, d).Got? ==> GetNum(k, d).value < Limit(k)
  {
  }

  class Reader {
    const data: seq<byte>
    var pos: nat

    ghost predicate Valid()
      reads this
    {
      pos <= |data|
    }

    ghost function Rest(): seq<byte>
      requires Valid()
      reads this
    {
      data[pos..]
    }

    constructor (data: seq<byte>, pos: nat)
      requires pos <= |data|
      ensures Valid() && this.data == data && this.pos == pos
    {
      this.data := data;
      this.pos := pos;
    }

    /** reader_bytes. */
    method Bytes(n: nat) returns (s: Option<seq<byte>>)
      requires Valid()
      modifies `pos
      ensures Valid() && Matches(s, Rest(), GetBytes(n, old(Rest())))
      ensures s.Some? ==> |s.value| == n
    {
      if pos + n > |data| { return None; }
      s := Some(data[pos..pos + n]);
      assert s.value == Rest()[..n];
      pos := pos + n;
      assert Rest() == old(Rest())[n..];
    }

    /** reader_u8. */
    method U8() returns (v: Option<nat>)
      requires Valid()
      modifies `pos
      ensures Valid() && Matches(v, Rest(), GetNum(1, old(Rest())))
    {
      var b :- Bytes(1);
      v := Some(b[0]);
      assert b[1..] == [];
    }

    /** reader_u16. */
    method U16() returns (v: Option<nat>)
      requires Valid()
      modifies `pos
      ensures Valid() && Matches(v, Rest(), GetNum(2, old(Rest())))
    {
      hide FromBytes;
      var b :- Bytes(2);
      FromBytes2(b);
      v := Some(b[0] as nat + 0x100 * b[1] as nat);
    }

    /** reader_u32. */
    method U32() returns (v: Option<nat>)
      requires Valid()
      modifies `pos
      ensures Valid() && Matches(v, Rest(), GetNum(4, old(Rest())))
    {
      hide FromBytes;
      var b :- Bytes(4);
      FromBytes4(b);
      v := Some(b[0] as nat + 0x100 * b[1] as nat + 0x1_0000 * b[2] as nat + 0x100_0000 * b[3] as nat);
    }

    /** reader_u64. */
    method U64() returns (v: Option<nat>)
      requires Valid()
      modifies `pos
      ensures Valid() && Matches(v, Rest(), GetNum(8, old(Rest())))
    {
      var b :- Bytes(8);
      var i, n, after := 0, 0, pos;
      var scale: nat := 1;
      while i < 8
        invariant pos == after && 0 <= i <= 8 && scale == Limit(i) && n == FromBytes(b[..i])
      {
        FromBytesNext(b, i);
        n := n + b[i] * scale;
        scale := 256 * scale;
        i := i + 1;
      }
      assert b[..8] == b;
      v := Some(n);
    }

    /** reader_str_arena and reader_str_alloc. */
    method Str() returns (s: Option<seq<byte>>)
      requires Valid()
      modifies `pos
      ensures Valid() && Matches(s, Rest(), GetStr(old(Rest())))
    {
      hide GetNum;
      var n :- U32();
      if n == 0 {
        assert Rest()[0..] == Rest();
        return Some([]);
      }
      s := Bytes(n);
    }

    /** A number that must stay below a limit. */
    method U32Below(limit: nat) returns (v: Option<nat>)
      requires Valid()
      modifies `pos
      ensures Valid() && Matches(v, Rest(), GetBelow(4, limit, old(Rest())))
    {
      hide GetNum;
      var n :- U32();
      if n >= limit { return None; }
      v := Some(n);
    }

    method U8Below(limit: nat) returns (v: Option<nat>)
      requires Valid()
      modifies `pos
      ensures Valid() && Matches(v, Rest(), GetBelow(1, limit, old(Rest())))
    {
      hide GetNum;
      var n :- U8();
      if n >= limit { return None; }
      v := Some(n);
    }

    method Ids(n: nat, limit: nat) returns (xs: Option<seq<nat>>)
      requires Valid()
      modifies `pos
      ensures Valid() && Matches(xs, Rest(), GetMany(n, (e: seq<byte>) => GetBelow(4, limit, e), old(Rest())))
    {
      hide GetMany, Prepend, GetBelow;
      ghost var dec := (e: seq<byte>) => GetBelow(4, limit, e);
      ghost var want := GetMany(n, dec, Rest());
      NothingYet(want);
      var i, acc := 0, [];
      while i < n
        invariant 0 <= i <= n && Valid()
        invariant want == Prepend(acc, GetMany(n - i, dec, Rest()))
      {
        OneMore(n - i, dec, Rest(), acc);
        var x :- U32Below(limit);
        acc := acc + [x];
        i := i + 1;
      }
      AllRead(dec, Rest(), acc);
      xs := Some(acc);
    }

    method ReadType(total: nat) returns (x: Option<Type>)
      requires Valid()
      modifies `pos
      ensures Valid() && Matches(x, Rest(), GetType(total, old(Rest())))
    {
      hide GetNum, GetBelow, GetStr, GetMany;
      var kind :- U8Below(TYPE_KIND_STRUCT + 1);
      var size :- U32();
      var align :- U32();
      var elem :- U32();
      if elem != INVALID_TYPE && elem >= total { return None; }
      var lanes :- U16();
      var count :- U32();
      var fields :- U32Below(MORE + 1);
      var name :- Str();
      var types :- Ids(fields, total);
      var offsets :- Ids(fields, U32_LIMIT);
      x := Some(Type(kind, size, align, elem, lanes, count, name, types, offsets));
    }

    /** deserialize_types, after its count. */
    method Types(n: nat, total: nat) returns (xs: Option<seq<Type>>)
      requires Valid()
      modifies `pos
      ensures Valid() && Matches(xs, Rest(), GetMany(n, (e: seq<byte>) => GetType(total, e), old(Rest())))
    {
      hide GetMany, Prepend, GetType;
      ghost var dec := (e: seq<byte>) => GetType(total, e);
      ghost var want := GetMany(n, dec, Rest());
      NothingYet(want);
      var i, acc := 0, [];
      while i < n
        invariant 0 <= i <= n && Valid()
        invariant want == Prepend(acc, GetMany(n - i, dec, Rest()))
      {
        OneMore(n - i, dec, Rest(), acc);
        var x :- ReadType(total);
        acc := acc + [x];
        i := i + 1;
      }
      AllRead(dec, Rest(), acc);
      xs := Some(acc);
    }

    method ReadGlobal(total: nat) returns (x: Option<Global>)
      requires Valid()
      modifies `pos
      ensures Valid() && Matches(x, Rest(), GetGlobal(total, old(Rest())))
    {
      hide GetNum, GetBelow, GetStr, GetBytes;
      var name :- Str();
      var ty :- U32Below(total);
      var kind :- U8Below(GLOBAL_BSS + 1);
      var align :- U32();
      var size :- U32Below(INIT_LIMIT + 1);
      if size == 0 { return Some(Global(name, ty, kind, align, 0, None)); }
      var init :- Bytes(size);
      x := Some(Global(name, ty, kind, align, size, Some(init)));
    }

    /** deserialize_globals, after its count. */
    method Globals(n: nat, total: nat) returns (xs: Option<seq<Global>>)
      requires Valid()
      modifies `pos
      ensures Valid() && Matches(xs, Rest(), GetMany(n, (e: seq<byte>) => GetGlobal(total, e), old(Rest())))
    {
      hide GetMany, Prepend, GetGlobal;
      ghost var dec := (e: seq<byte>) => GetGlobal(total, e);
      ghost var want := GetMany(n, dec, Rest());
      NothingYet(want);
      var i, acc := 0, [];
      while i < n
        invariant 0 <= i <= n && Valid()
        invariant want == Prepend(acc, GetMany(n - i, dec, Rest()))
      {
        OneMore(n - i, dec, Rest(), acc);
        var x :- ReadGlobal(total);
        acc := acc + [x];
        i := i + 1;
      }
      AllRead(dec, Rest(), acc);
      xs := Some(acc);
    }

    /** deserialize_operand. */
    method ReadOperand(b: Bounds) returns (x: Option<Operand>)
      requires Valid()
      modifies `pos
      ensures Valid() && Matches(x, Rest(), GetOperand(b, old(Rest())))
    {
      hide GetBelow;
      var kind :- U8Below(OP_TYPE + 1);
      var payload :- Payload(kind, b);
      x := Some(Operand(kind, payload));
    }

    /** The switch on the operand's kind: what follows it, and its bound. */
    method Payload(kind: nat, b: Bounds) returns (x: Option<nat>)
      requires Valid()
      modifies `pos
      ensures Valid() && Matches(x, Rest(), GetBelow(PayloadSize(kind), PayloadLimit(kind, b), old(Rest())))
    {
      Limits();
      NoPayload(Rest());
      NumIsBelow(8, Rest());
      NumIsBelow(4, Rest());
      hide GetNum;
      if kind == OP_VALUE {
        x := U32Below(b.vals);
      } else if kind == OP_BLOCK {
        x := U32Below(b.blocks);
      } else if kind == OP_IMM_INT || kind == OP_IMM_FLOAT {
        x := U64();
      } else if kind == OP_FUNCTION {
        x := U32Below(b.fns);
      } else if kind == OP_SYMBOL {
        x := U32();
      } else if kind == OP_GLOBAL {
        x := U32Below(b.globals);
      } else if kind == OP_TYPE {
        x := U32Below(b.types);
      } else {
        x := Some(0);
      }
    }

    method ReadParam(total: nat) returns (x: Option<Param>)
      requires Valid()
      modifies `pos
      ensures Valid() && Matches(x, Rest(), GetParam(total, old(Rest())))
    {
      hide GetBelow, GetStr;
      var ty :- U32Below(total);
      var name :- Str();
      x := Some(Param(ty, name));
    }

    method Params(n: nat, total: nat) returns (xs: Option<seq<Param>>)
      requires Valid()
      modifies `pos
      ensures Valid() && Matches(xs, Rest(), GetMany(n, (e: seq<byte>) => GetParam(total, e), old(Rest())))
    {
      hide GetMany, Prepend, GetParam;
      ghost var dec := (e: seq<byte>) => GetParam(total, e);
      ghost var want := GetMany(n, dec, Rest());
      NothingYet(want);
      var i, acc := 0, [];
      while i < n
        invariant 0 <= i <= n && Valid()
        invariant want == Prepend(acc, GetMany(n - i, dec, Rest()))
      {
        OneMore(n - i, dec, Rest(), acc);
        var x :- ReadParam(total);
        acc := acc + [x];
        i := i + 1;
      }
      AllRead(dec, Rest(), acc);
      xs := Some(acc);
    }

    method ReadBlock(blocks: nat) returns (x: Option<Block>)
      requires Valid()
      modifies `pos
      ensures Valid() && Matches(x, Rest(), GetBlock(blocks, old(Rest())))
    {
      hide GetNum, GetBelow, GetStr, GetMany;
      var name :- Str();
      var first :- U32();
      var last :- U32();
      var insts :- U32();
      var predCount :- U32Below(blocks + 1);
      var preds :- Ids(predCount, blocks);
      var succCount :- U32Below(blocks + 1);
      var succs :- Ids(succCount, blocks);
      x := Some(Block(name, first, last, insts, preds, succs));
    }

    method Blocks(n: nat, blocks: nat) returns (xs: Option<seq<Block>>)
      requires Valid()
      modifies `pos
      ensures Valid() && Matches(xs, Rest(), GetMany(n, (e: seq<byte>) => GetBlock(blocks, e), old(Rest())))
    {
      hide GetMany, Prepend, GetBlock;
      ghost var dec := (e: seq<byte>) => GetBlock(blocks, e);
      ghost var want := GetMany(n, dec, Rest());
      NothingYet(want);
      var i, acc := 0, [];
      while i < n
        invariant 0 <= i <= n && Valid()
        invariant want == Prepend(acc, GetMany(n - i, dec, Rest()))
      {
        OneMore(n - i, dec, Rest(), acc);
        var x :- ReadBlock(blocks);
        acc := acc + [x];
        i := i + 1;
      }
      AllRead(dec, Rest(), acc);
      xs := Some(acc);
    }

    method ReadInst(blocks: nat) returns (x: Option<Inst>)
      requires Valid()
      modifies `pos
      ensures Valid() && Matches(x, Rest(), GetInst(blocks, old(Rest())))
    {
      hide GetNum;
      var opcode :- U16();
      if opcode >= OPCODE_COUNT { return None; }
      var flags :- U16();
      var result :- U32();
      var start :- U32();
      var count :- U16();
      var block :- U32();
      if block >= blocks { return None; }
      var prev :- U32();
      var next :- U32();
      x := Some(Inst(opcode, flags, result, start, count, block, prev, next));
    }

    method Insts(n: nat, blocks: nat) returns (xs: Option<seq<Inst>>)
      requires Valid()
      modifies `pos
      ensures Valid() && Matches(xs, Rest(), GetMany(n, (e: seq<byte>) => GetInst(blocks, e), old(Rest())))
    {
      hide GetMany, Prepend, GetInst;
      ghost var dec := (e: seq<byte>) => GetInst(blocks, e);
      ghost var want := GetMany(n, dec, Rest());
      NothingYet(want);
      var i, acc := 0, [];
      while i < n
        invariant 0 <= i <= n && Valid()
        invariant want == Prepend(acc, GetMany(n - i, dec, Rest()))
      {
        OneMore(n - i, dec, Rest(), acc);
        var x :- ReadInst(blocks);
        acc := acc + [x];
        i := i + 1;
      }
      AllRead(dec, Rest(), acc);
      xs := Some(acc);
    }

    method ReadValue(total: nat) returns (x: Option<Value>)
      requires Valid()
      modifies `pos
      ensures Valid() && Matches(x, Rest(), GetValue(total, old(Rest())))
    {
      hide GetNum, GetBelow, GetStr;
      var ty :- U32Below(total);
      var kind :- U8Below(VAL_CONSTANT + 1);
      var def :- U32();
      var index :- U32();
      var name :- Str();
      x := Some(Value(ty, kind, def, index, name));
    }

    method Values(n: nat, total: nat) returns (xs: Option<seq<Value>>)
      requires Valid()
      modifies `pos
      ensures Valid() && Matches(xs, Rest(), GetMany(n, (e: seq<byte>) => GetValue(total, e), old(Rest())))
    {
      hide GetMany, Prepend, GetValue;
      ghost var dec := (e: seq<byte>) => GetValue(total, e);
      ghost var want := GetMany(n, dec, Rest());
      NothingYet(want);
      var i, acc := 0, [];
      while i < n
        invariant 0 <= i <= n && Valid()
        invariant want == Prepend(acc, GetMany(n - i, dec, Rest()))
      {
        OneMore(n - i, dec, Rest(), acc);
        var x :- ReadValue(total);
        acc := acc + [x];
        i := i + 1;
      }
      AllRead(dec, Rest(), acc);
      xs := Some(acc);
    }

    method Operands(n: nat, b: Bounds) returns (xs: Option<seq<Operand>>)
      requires Valid()
      modifies `pos
      ensures Valid() && Matches(xs, Rest(), GetMany(n, (e: seq<byte>) => GetOperand(b, e), old(Rest())))
    {
      hide GetMany, Prepend, GetOperand;
      ghost var dec := (e: seq<byte>) => GetOperand(b, e);
      ghost var want := GetMany(n, dec, Rest());
      NothingYet(want);
      var i, acc := 0, [];
      while i < n
        invariant 0 <= i <= n && Valid()
        invariant want == Prepend(acc, GetMany(n - i, dec, Rest()))
      {
        OneMore(n - i, dec, Rest(), acc);
        var x :- ReadOperand(b);
        acc := acc + [x];
        i := i + 1;
      }
      AllRead(dec, Rest(), acc);
      xs := Some(acc);
    }

    method CheckRanges(insts: seq<Inst>, ops: nat) returns (ok: bool)
      ensures ok <==> RangesOk(insts, ops)
    {
      var i := 0;
      while i < |insts|
        invariant 0 <= i <= |insts| && RangesOk(insts[..i], ops)
      {
        if (insts[i].opStart + insts[i].opCount) % U32_LIMIT > ops {
          assert !RangeOk(insts[i], ops);
          return false;
        }
        assert insts[..i + 1] == insts[..i] + [insts[i]];
        i := i + 1;
      }
      assert insts[..i] == insts;
      ok := true;
    }

    method ReadBody(f: Function, fns: nat, globals: nat, total: nat) returns (x: Option<Function>)
      requires Valid()
      modifies `pos
      ensures Valid() && Matches(x, Rest(), GetBody(f, fns, globals, total, old(Rest())))
    {
      hide GetBelow, GetMany, RangesOk;
      var paramCount :- U32Below(MANY + 1);
      var params :- Params(paramCount, total);
      var n :- U32Below(MANY + 1);
      var blocks :- Blocks(n, n);
      var instCount :- U32Below(MORE + 1);
      var insts :- Insts(instCount, n);
      var valCount :- U32Below(MORE + 1);
      var vals :- Values(valCount, total);
      var opCount :- U32Below(MORE + 1);
      var ops :- Operands(opCount, Bounds(valCount, n, fns, globals, total));
      var ok := CheckRanges(insts, opCount);
      if !ok { return None; }
      x := Some(f.(params := params, blocks := blocks, insts := insts, vals := vals, ops := ops));
    }

    method ReadFunction(fns: nat, globals: nat, total: nat) returns (x: Option<Function>)
      requires Valid()
      modifies `pos
      ensures Valid() && Matches(x, Rest(), GetFunction(fns, globals, total, old(Rest())))
    {
      hide GetNum, GetBelow, GetStr, GetBody;
      var name :- Str();
      var ret :- U32Below(total);
      var conv :- U8();
      var variadic :- U8();
      var entry :- U32();
      x := ReadBody(Function(name, ret, conv, variadic != 0, entry, [], [], [], [], []), fns, globals, total);
    }

    /** deserialize_functions, after its count. */
    method Functions(n: nat, fns: nat, globals: nat, total: nat) returns (xs: Option<seq<Function>>)
      requires Valid()
      modifies `pos
      ensures Valid() && Matches(xs, Rest(),
                                 GetMany(n, (e: seq<byte>) => GetFunction(fns, globals, total, e), old(Rest())))
    {
      hide GetMany, Prepend, GetFunction;
      ghost var dec := (e: seq<byte>) => GetFunction(fns, globals, total, e);
      ghost var want := GetMany(n, dec, Rest());
      NothingYet(want);
      var i, acc := 0, [];
      while i < n
        invariant 0 <= i <= n && Valid()
        invariant want == Prepend(acc, GetMany(n - i, dec, Rest()))
      {
        OneMore(n - i, dec, Rest(), acc);
        var x :- ReadFunction(fns, globals, total);
        acc := acc + [x];
        i := i + 1;
      }
      AllRead(dec, Rest(), acc);
      xs := Some(acc);
    }

    method ReadModule() returns (x: Option<Module>)
      requires Valid()
      modifies `pos
      ensures Valid() && Matches(x, Rest(), GetModule(old(Rest())))
    {
      hide GetNum, GetBelow, GetStr, GetMany;
      var name :- Str();
      var typeCount :- U32Below(MANY + 1);
      var total := PRIMITIVE_TYPE_COUNT + typeCount;
      var types :- Types(typeCount, total);
      var globalCount :- U32Below(MANY + 1);
      var globals :- Globals(globalCount, total);
      var fnCount :- U32Below(MANY + 1);
      var fns :- Functions(fnCount, fnCount, globalCount, total);
      x := Some(Module(name, types, globals, fns));
    }
  }

  /** nygen_deserialize_nyir. */
  method DeserializeModule(data: seq<byte>, accept: Module -> bool) returns (m: Option<Module>)
    ensures m == Deserialize(data, accept)
  {
    hide GetNum, GetModule;
    if |data| < 12 || data[0] != MAGIC[0] || data[1] != MAGIC[1] || data[2] != MAGIC[2] || data[3] != MAGIC[3] {
      assert |data| >= 12 ==> data[..4] != MAGIC;
      return None;
    }
    assert data[..4] == MAGIC;
    var r := new Reader(data, 4);
    var version :- r.U16();
    if version != NYIR_VERSION { return None; }
    var reserved :- r.U16();
    var got :- r.ReadModule();
    if r.pos != |data| || !accept(got) { return None; }
    m := Some(got);
  }
}
