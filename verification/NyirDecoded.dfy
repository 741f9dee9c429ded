/** What the NYIR reader accepts is within the limits it reads back: decoding and encoding again changes nothing. */
module NyirDecoded {
  import opened Bytes
  import opened IntFold
  import opened NyirFormat
  import opened NyirRoundTrip

  lemma NumFits(k: nat, limit: nat, d: seq<byte>)
    ensures GetNum(k, d).Got? ==> GetNum(k, d).value < Limit(k)
    ensures GetBelow(k, limit, d).Got? ==> GetBelow(k, limit, d).value < Limit(k) && GetBelow(k, limit, d).value < limit
  {
  }

  lemma NumsFit()
    ensures forall k: nat, d: seq<byte> :: GetNum(k, d).Got? ==> GetNum(k, d).value < Limit(k)
    ensures forall k: nat, limit: nat, d: seq<byte> :: GetBelow(k, limit, d).Got? ==>
              GetBelow(k, limit, d).value < Limit(k) && GetBelow(k, limit, d).value < limit
  {
    forall k: nat, d: seq<byte> | GetNum(k, d).Got? ensures GetNum(k, d).value < Limit(k) { NumFits(k, 0, d); }
  }

  lemma StrsFit()
    ensures forall d: seq<byte> :: GetStr(d).Got? ==> StrFits(GetStr(d).value)
  {
    NumsFit();
    Limits();
    hide GetNum;
  }

  lemma {:induction false} ManyHold<T>(n: nat, dec: seq<byte> -> Read<T>, d: seq<byte>, p: T -> bool)
    requires forall e :: dec(e).Got? ==> p(dec(e).value)
    ensures var r := GetMany(n, dec, d); r.Got? ==> |r.value| == n && forall x :: x in r.value ==> p(x)
  {
    if n > 0 && dec(d).Got? { ManyHold(n - 1, dec, dec(d).rest, p); }
  }

  lemma IdsHold(n: nat, limit: nat, d: seq<byte>)
    ensures var r := GetIds(n, limit, d); r.Got? ==> |r.value| == n && IdsFit(r.value, limit)
  {
    NumsFit();
    Limits();
    hide GetBelow, GetMany;
    ManyHold(n, (e: seq<byte>) => GetBelow(4, limit, e), d, (x: nat) => x < limit && IsU32(x));
    var r := GetIds(n, limit, d);
    if r.Got? {
      forall k | 0 <= k < |r.value| ensures r.value[k] < limit && IsU32(r.value[k]) { assert r.value[k] in r.value; }
    }
  }

  lemma AllIdsHold()
    ensures forall n: nat, limit: nat, d: seq<byte> {:trigger GetIds(n, limit, d)} :: GetIds(n, limit, d).Got? ==>
              |GetIds(n, limit, d).value| == n && IdsFit(GetIds(n, limit, d).value, limit)
  {
    hide GetIds, IdsFit;
    forall n: nat, limit: nat, d: seq<byte> | GetIds(n, limit, d).Got?
      ensures |GetIds(n, limit, d).value| == n && IdsFit(GetIds(n, limit, d).value, limit)
    {
      IdsHold(n, limit, d);
    }
  }

  lemma TypeHolds(total: nat, d: seq<byte>)
    ensures GetType(total, d).Got? ==> TypeFits(total, GetType(total, d).value)
  {
    hide GetNum, GetBelow, GetStr, GetIds, IdsFit, StrFits, Limit;
    NumsFit();
    StrsFit();
    AllIdsHold();
    Limits();
  }

  lemma GlobalHolds(total: nat, d: seq<byte>)
    ensures GetGlobal(total, d).Got? ==>
              var g := GetGlobal(total, d).value; GlobalFits(total, g) && NormalGlobal(g) == g
  {
    hide GetNum, GetBelow, GetStr, StrFits, Limit;
    NumsFit();
    StrsFit();
    Limits();
  }

  lemma ParamHolds(total: nat, d: seq<byte>)
    ensures GetParam(total, d).Got? ==> ParamFits(total, GetParam(total, d).value)
  {
    hide GetNum, GetBelow, GetStr, StrFits, Limit;
    NumsFit();
    StrsFit();
    Limits();
  }

  lemma BlockHolds(n: nat, d: seq<byte>)
    ensures GetBlock(n, d).Got? ==> BlockFits(n, GetBlock(n, d).value)
  {
    hide GetNum, GetBelow, GetStr, GetIds, IdsFit, StrFits, Limit;
    NumsFit();
    StrsFit();
    AllIdsHold();
    Limits();
  }

  lemma InstHolds(n: nat, d: seq<byte>)
    ensures GetInst(n, d).Got? ==> InstFits(n, GetInst(n, d).value)
  {
    hide GetNum, GetBelow, Limit;
    NumsFit();
    Limits();
  }

  lemma ValueHolds(total: nat, d: seq<byte>)
    ensures GetValue(total, d).Got? ==> ValueFits(total, GetValue(total, d).value)
  {
    hide GetNum, GetBelow, GetStr, StrFits, Limit;
    NumsFit();
    StrsFit();
    Limits();
  }

  lemma OperandHolds(b: Bounds, d: seq<byte>)
    ensures GetOperand(b, d).Got? ==> OperandFits(b, GetOperand(b, d).value)
  {
    hide GetNum, GetBelow, Limit, PayloadSize, PayloadLimit;
    NumsFit();
  }

  lemma BodyHolds(head: Function, fns: nat, globals: nat, total: nat, d: seq<byte>)
    requires StrFits(head.name) && head.returnType < total && IsU32(head.returnType) && head.callConv < U8_LIMIT
             && IsU32(head.entry)
    ensures GetBody(head, fns, globals, total, d).Got? ==>
            FunctionFits(fns, globals, total, GetBody(head, fns, globals, total, d).value)
  {
    if GetBody(head, fns, globals, total, d).Got? {
      NumsFit();
      hide GetNum, GetBelow, GetMany, GetParam, GetBlock, GetInst, GetValue, GetOperand, StrFits, Limit, RangesOk;
      hide ParamFits, BlockFits, InstFits, ValueFits, OperandFits;
      var d1 := GetBelow(4, MANY + 1, d);
      ParamsListed(total, d1.value, d1.rest);
      var params := GetMany(d1.value, (e: seq<byte>) => GetParam(total, e), d1.rest);
      var d2 := GetBelow(4, MANY + 1, params.rest);
      var n := d2.value;
      BlocksListed(n, n, d2.rest);
      var blocks := GetMany(n, (e: seq<byte>) => GetBlock(n, e), d2.rest);
      var d3 := GetBelow(4, MORE + 1, blocks.rest);
      InstsListed(n, d3.value, d3.rest);
      var insts := GetMany(d3.value, (e: seq<byte>) => GetInst(n, e), d3.rest);
      var d4 := GetBelow(4, MORE + 1, insts.rest);
      ValuesListed(total, d4.value, d4.rest);
      var vals := GetMany(d4.value, (e: seq<byte>) => GetValue(total, e), d4.rest);
      var d5 := GetBelow(4, MORE + 1, vals.rest);
      OperandsListed(Bounds(d4.value, n, fns, globals, total), d5.value, d5.rest);
    }
  }

  lemma ParamsListed(total: nat, n: nat, d: seq<byte>)
    ensures var r := GetMany(n, (e: seq<byte>) => GetParam(total, e), d);
            r.Got? ==> |r.value| == n && forall x :: x in r.value ==> ParamFits(total, x)
  {
    hide GetMany, GetParam, ParamFits;
    forall e: seq<byte>
      ensures GetParam(total, e).Got? ==> ParamFits(total, GetParam(total, e).value)
    {
      ParamHolds(total, e);
    }
    ManyHold(n, (e: seq<byte>) => GetParam(total, e), d, (x: Param) => ParamFits(total, x));
  }

  lemma BlocksListed(m: nat, n: nat, d: seq<byte>)
    ensures var r := GetMany(n, (e: seq<byte>) => GetBlock(m, e), d);
            r.Got? ==> |r.value| == n && forall x :: x in r.value ==> BlockFits(m, x)
  {
    hide GetMany, GetBlock, BlockFits;
    forall e: seq<byte> ensures GetBlock(m, e).Got? ==> BlockFits(m, GetBlock(m, e).value) { BlockHolds(m, e); }
    ManyHold(n, (e: seq<byte>) => GetBlock(m, e), d, (x: Block) => BlockFits(m, x));
  }

  lemma InstsListed(m: nat, n: nat, d: seq<byte>)
    ensures var r := GetMany(n, (e: seq<byte>) => GetInst(m, e), d);
            r.Got? ==> |r.value| == n && forall x :: x in r.value ==> InstFits(m, x)
  {
    hide GetMany, GetInst, InstFits;
    forall e: seq<byte> ensures GetInst(m, e).Got? ==> InstFits(m, GetInst(m, e).value) { InstHolds(m, e); }
    ManyHold(n, (e: seq<byte>) => GetInst(m, e), d, (x: Inst) => InstFits(m, x));
  }

  lemma ValuesListed(total: nat, n: nat, d: seq<byte>)
    ensures var r := GetMany(n, (e: seq<byte>) => GetValue(total, e), d);
            r.Got? ==> |r.value| == n && forall x :: x in r.value ==> ValueFits(total, x)
  {
    hide GetMany, GetValue, ValueFits;
    forall e: seq<byte>
      ensures GetValue(total, e).Got? ==> ValueFits(total, GetValue(total, e).value)
    {
      ValueHolds(total, e);
    }
    ManyHold(n, (e: seq<byte>) => GetValue(total, e), d, (x: Value) => ValueFits(total, x));
  }

  lemma OperandsListed(b: Bounds, n: nat, d: seq<byte>)
    ensures var r := GetMany(n, (e: seq<byte>) => GetOperand(b, e), d);
            r.Got? ==> |r.value| == n && forall x :: x in r.value ==> OperandFits(b, x)
  {
    hide GetMany, GetOperand, OperandFits;
    forall e: seq<byte> ensures GetOperand(b, e).Got? ==> OperandFits(b, GetOperand(b, e).value) { OperandHolds(b, e); }
    ManyHold(n, (e: seq<byte>) => GetOperand(b, e), d, (x: Operand) => OperandFits(b, x));
  }

  lemma FunctionHolds(fns: nat, globals: nat, total: nat, d: seq<byte>)
    ensures GetFunction(fns, globals, total, d).Got? ==>
            FunctionFits(fns, globals, total, GetFunction(fns, globals, total, d).value)
  {
    hide GetNum, GetBelow, GetStr, GetBody, FunctionFits, StrFits, Limit;
    if GetFunction(fns, globals, total, d).Got? {
      NumsFit();
      StrsFit();
      Limits();
      var name := GetStr(d);
      var ret := GetBelow(4, total, name.rest);
      var conv := GetNum(1, ret.rest);
      var variadic := GetNum(1, conv.rest);
      var entry := GetNum(4, variadic.rest);
      BodyHolds(Function(name.value, ret.value, conv.value, variadic.value != 0, entry.value, [], [], [], [], []), fns,
                globals, total, entry.rest);
    }
  }

  lemma TypesListed(total: nat, n: nat, d: seq<byte>)
    ensures var r := GetMany(n, (e: seq<byte>) => GetType(total, e), d);
            r.Got? ==> |r.value| == n && forall x :: x in r.value ==> TypeFits(total, x)
  {
    hide GetMany, GetType, TypeFits;
    forall e: seq<byte>
      ensures GetType(total, e).Got? ==> TypeFits(total, GetType(total, e).value)
    {
      TypeHolds(total, e);
    }
    ManyHold(n, (e: seq<byte>) => GetType(total, e), d, (x: Type) => TypeFits(total, x));
  }

  lemma GlobalsListed(total: nat, n: nat, d: seq<byte>)
    ensures var r := GetMany(n, (e: seq<byte>) => GetGlobal(total, e), d);
            r.Got? ==> |r.value| == n && forall x :: x in r.value ==> GlobalFits(total, x) && NormalGlobal(x) == x
  {
    hide GetMany, GetGlobal, GlobalFits, NormalGlobal;
    forall e: seq<byte>
      ensures GetGlobal(total, e).Got? ==>
              GlobalFits(total, GetGlobal(total, e).value)
                && NormalGlobal(GetGlobal(total, e).value) == GetGlobal(total, e).value
    {
      GlobalHolds(total, e);
    }
    ManyHold(n, (e: seq<byte>) => GetGlobal(total, e), d, (x: Global) => GlobalFits(total, x) && NormalGlobal(x) == x);
  }

  lemma FunctionsListed(fns: nat, globals: nat, total: nat, n: nat, d: seq<byte>)
    ensures var r := GetMany(n, (e: seq<byte>) => GetFunction(fns, globals, total, e), d);
            r.Got? ==> |r.value| == n && forall x :: x in r.value ==> FunctionFits(fns, globals, total, x)
  {
    hide GetMany, GetFunction, FunctionFits;
    forall e: seq<byte>
      ensures GetFunction(fns, globals, total, e).Got? ==>
              FunctionFits(fns, globals, total, GetFunction(fns, globals, total, e).value)
    {
      FunctionHolds(fns, globals, total, e);
    }
    ManyHold(n, (e: seq<byte>) => GetFunction(fns, globals, total, e), d,
             (x: Function) => FunctionFits(fns, globals, total, x));
  }

  lemma {:induction false} AlreadyNormal(gs: seq<Global>)
    requires forall g :: g in gs ==> NormalGlobal(g) == g
    ensures NormalGlobals(gs) == gs
  {
    hide NormalGlobal;
    if gs != [] { AlreadyNormal(gs[1..]); }
  }

  lemma ModuleHolds(d: seq<byte>)
    ensures GetModule(d).Got? ==> ModuleFits(GetModule(d).value) && Normal(GetModule(d).value) == GetModule(d).value
  {
    hide GetNum, GetBelow, GetStr, GetMany, TypeFits, GlobalFits, FunctionFits, NormalGlobal, NormalGlobals, StrFits,
      Limit;
    if GetModule(d).Got? {
      NumsFit();
      StrsFit();
      var name := GetStr(d);
      var types := GetBelow(4, MANY + 1, name.rest);
      var total := PRIMITIVE_TYPE_COUNT + types.value;
      TypesListed(total, types.value, types.rest);
      var ts := GetMany(types.value, (e: seq<byte>) => GetType(total, e), types.rest);
      var globals := GetBelow(4, MANY + 1, ts.rest);
      GlobalsListed(total, globals.value, globals.rest);
      var gs := GetMany(globals.value, (e: seq<byte>) => GetGlobal(total, e), globals.rest);
      AlreadyNormal(gs.value);
      var fns := GetBelow(4, MANY + 1, gs.rest);
      FunctionsListed(fns.value, globals.value, total, fns.value, fns.rest);
    }
  }

  /** Every module that comes out of the reader is written and read back unchanged. */
  lemma DecodedRoundTrips(d: seq<byte>, accept: Module -> bool)
    requires Deserialize(d, accept).Some?
    ensures var m := Deserialize(d, accept).value;
            ModuleFits(m) && Normal(m) == m && Deserialize(Serialize(m), accept) == Some(m)
  {
    var m := Deserialize(d, accept).value;
    assert ModuleFits(m) && Normal(m) == m && accept(m) by {
      hide GetNum, GetModule, ModuleFits, Normal;
      ModuleHolds(GetNum(2, GetNum(2, d[4..]).rest).rest);
    }
    hide Serialize, Deserialize, ModuleFits, Normal;
    RoundTrip(m, accept);
  }
}
