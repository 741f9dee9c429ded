/** What each 8-bit operation gives for -7 and 3, written out, so that none could be taken for another. */
module FoldSamples {
  import opened Opcodes
  import opened IntFold

  // ---------------------------------------------------------------- numbers of 8 bits

  lemma SmallPowers(n: nat)
    ensures n == 1 ==> Pow2(n) == 2
    ensures n == 3 ==> Pow2(n) == 8
    ensures n == 5 ==> Pow2(n) == 32
    ensures n == 7 ==> Pow2(n) == 128
    ensures n == 8 ==> Pow2(n) == 256
  {
  }

  lemma SmallNumber(x: int, w: nat)
    requires w == 8
    ensures -128 <= x < 128 ==> Sext(x, w) == x
    ensures 128 <= x < 256 ==> Sext(x, w) == x - 256
    ensures 0 <= x < 256 ==> Unsigned(x, w) == x
  {
    SmallPowers(w - 1);
    SmallPowers(w);
    hide Pow2;
  }

  lemma SmallShift(u: int, s: nat)
    ensures s == 1 ==> Shl(u, s) == 2 * u && Shr(u, s) == u / 2
    ensures s == 3 ==> Shl(u, s) == 8 * u && Shr(u, s) == u / 8
    ensures s == 5 ==> Shl(u, s) == 32 * u && Shr(u, s) == u / 32
    ensures s == 7 ==> Shl(u, s) == 128 * u && Shr(u, s) == u / 128
  {
    SmallPowers(s);
    hide Pow2;
  }

  lemma SmallRotL(u: nat, s: nat, w: nat, l: int, r: int)
    requires s <= w && l == Shl(u, s) && r == Shr(u, w - s)
    ensures RotL(u, s, w) == Unsigned(l, w) + r
  {
    hide Unsigned, Shl, Shr, Pow2;
  }

  lemma SmallRotR(u: nat, s: nat, w: nat, l: int, r: int)
    requires s <= w && l == Shl(u, w - s) && r == Shr(u, s)
    ensures RotR(u, s, w) == r + Unsigned(l, w)
  {
    hide Unsigned, Shl, Shr, Pow2;
  }

  lemma SmallRest(x: int, w: nat, q: int)
    requires w == 8
    ensures 0 <= x - 256 * q < 256 ==> Unsigned(x, w) == x - 256 * q
  {
    SmallPowers(w);
    hide Pow2;
  }

  // ---------------------------------------------------------------- the table

  /** The operations on -7 and 3; unsigned, -7 is 249. */
  function OfSevenAndThree(op: Opcode): int {
    match op
    case ADD => -4
    case SUB => -10
    case MUL => -21
    case DIV_S => -2
    case DIV_U => 83
    case REM_S => -1
    case REM_U => 0
    case AND => 1
    case OR => -5
    case XOR => -6
    case SHL => -56
    case SHR => 31
    case SAR => -1
    case ROTL => -49
    case ROTR => 63
    case CMP_NE => 1
    case CMP_LT_S => 1
    case CMP_LE_S => 1
    case CMP_GT_U => 1
    case CMP_GE_U => 1
    case _ => 0
  }

  lemma SmallBits(a: int, b: int)
    requires a == -7 && b == 3
    ensures Bitwise(BitAnd, a, b) == 1 && Bitwise(BitOr, a, b) == -5 && Bitwise(BitXor, a, b) == -6
  {
    assert a / 2 == -4 && a / 2 / 2 == -2 && a / 2 / 2 / 2 == -1;
    assert b / 2 == 1 && b / 2 / 2 == 0;
  }

  lemma SmallRotation(u: nat, s: nat, w: nat)
    requires u == 249 && s == 3 && w == 8
    ensures RotL(u, s, w) == 207 && RotR(u, s, w) == 63
  {
    hide RotL, RotR, Unsigned, Sext, Shl, Shr, Pow2;
    SmallShift(u, s);
    SmallShift(u, w - s);
    SmallRotL(u, s, w, 1992, 7);
    SmallRotR(u, s, w, 7968, 31);
    SmallRest(1992, w, 7);
    SmallRest(7968, w, 31);
  }

  lemma SmallQuotient(a: int, b: int)
    requires a == -7 && b == 3
    ensures TruncDiv(a, b) == -2 && TruncRem(a, b) == -1
  {
  }

  lemma BinarySamples(op: Opcode, a: int, b: int, w: nat)
    requires IsIntBinary(op) && a == -7 && b == 3 && w == 8
    ensures EvalBinary(op, a, b, w) == Some(OfSevenAndThree(op))
  {
    hide Sext, Unsigned, Shl, Shr, RotL, RotR, TruncDiv, TruncRem, Bitwise, Pow2;
    SmallNumber(a, w);
    SmallRest(a, w, -1);
    SmallNumber(b, w);
    SmallBits(a, b);
    SmallQuotient(a, b);
    SmallRotation(249, b, w);
    SmallShift(a, b);
    SmallShift(249, b);
    if op in {ROTL, ROTR} { SmallNumber(207, w); SmallNumber(63, w); }
    SmallNumber(OfSevenAndThree(op), w);
  }

  lemma UnarySamples(a: int, w: nat)
    requires a == -7 && w == 8
    ensures EvalUnary(NEG, a, w) == Some(7) && EvalUnary(NOT, a, w) == Some(6)
  {
    hide Sext, Pow2;
    SmallNumber(a, w);
    SmallNumber(7, w);
    SmallNumber(6, w);
  }

  lemma CmpSamples(op: Opcode, a: int, b: int, w: nat)
    requires IsIntCmp(op) && a == -7 && b == 3 && w == 8
    ensures EvalCmp(op, a, b, w) == Some(OfSevenAndThree(op))
  {
    hide Sext, Unsigned, Pow2;
    SmallNumber(a, w);
    SmallRest(a, w, -1);
    SmallNumber(b, w);
  }

  /** A number compared with itself. */
  lemma SelfSamples(op: Opcode, a: int, w: nat)
    requires IsIntCmp(op) && w > 0
    ensures EvalCmp(op, a, a, w) == Some(if op in {CMP_EQ, CMP_LE_S, CMP_LE_U, CMP_GE_S, CMP_GE_U} then 1 else 0)
  {
    hide Sext, Unsigned, Pow2;
  }
}
