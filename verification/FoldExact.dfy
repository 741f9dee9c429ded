/**
 * Which int64 operands the binary folds of src/opt/const_fold.c are right for: an operand that is not sign-extended to
 * the width is harmless for some operations whatever the other operand is, and for the others it never is.
 */
module FoldExact {
  import opened Opcodes
  import opened IntFold

  /** The fold is the w-bit operation, refused where that traps. */
  ghost predicate FoldsRight(op: Opcode, a: int, b: int, w: nat)
    requires w > 0
  {
    FoldBinary(op, a, b, w) == EvalBinary(op, a, b, w)
  }

  /** The operations whose fold reads more than the low bits of its operands. */
  predicate ReadsHighBits(op: Opcode) {
    op in {DIV_S, REM_S, AND, OR, XOR}
  }

  lemma LowBitsFold(op: Opcode, a: int, b: int, w: nat)
    requires IsWidth(w) && Fits(a, 64) && Fits(b, 64) && !ReadsHighBits(op)
    ensures FoldsRight(op, a, b, w)
  {
    hide FoldBinary, EvalBinary, Fits;
    FoldBinaryOfInt64(op, a, b, w);
  }

  // ---------------------------------------------------------------- bitwise operations

  function BitOpOf(op: Opcode): BitOp {
    if op == AND then BitAnd else if op == OR then BitOr else BitXor
  }

  /** The second operand that leaves the first one as it is. */
  function Unit(op: Opcode): int {
    if op == AND then -1 else 0
  }

  lemma {:induction false} UnitKeeps(op: Opcode, x: int)
    requires op in {AND, OR, XOR}
    ensures Bitwise(BitOpOf(op), x, Unit(op)) == x && Bitwise(BitOpOf(op), Unit(op), x) == x
    decreases Size(x)
  {
    if !(-1 <= x <= 0) { UnitKeeps(op, x / 2); }
  }

  lemma UnitFits(op: Opcode, w: nat)
    requires IsWidth(w)
    ensures Fits(Unit(op), w)
  {
    Pow2Monotone(1, w - 1);
  }

  lemma BitwiseFold(op: Opcode, x: int, y: int, w: nat)
    requires w > 0 && op in {AND, OR, XOR}
    ensures FoldBinary(op, x, y, w) == Some(Bitwise(BitOpOf(op), x, y))
  {
    hide Pow2, Bitwise, SignExtendWidth, TruncDiv, TruncRem, Shl, Shr, RotateLeft64, RotateRight64, U64, MaskToWidth,
      ShiftAmount;
  }

  lemma UnitFold(op: Opcode, x: int, w: nat)
    requires w > 0 && op in {AND, OR, XOR}
    ensures FoldBinary(op, x, Unit(op), w) == Some(x) && FoldBinary(op, Unit(op), x, w) == Some(x)
  {
    hide Bitwise, FoldBinary, Pow2;
    UnitKeeps(op, x);
    BitwiseFold(op, x, Unit(op), w);
    BitwiseFold(op, Unit(op), x, w);
  }

  lemma UnitShows(op: Opcode, x: int, w: nat)
    requires IsWidth(w) && op in {AND, OR, XOR} && !Fits(x, w) && Fits(x, 64)
    ensures !FoldsRight(op, x, Unit(op), w) && !FoldsRight(op, Unit(op), x, w)
  {
    hide Fits, FoldBinary, EvalBinary;
    UnitFits(op, w);
    FitsWider(Unit(op), w);
    UnitFold(op, x, w);
    FoldBinaryOfInt64(op, x, Unit(op), w);
    FoldBinaryOfInt64(op, Unit(op), x, w);
  }

  // ---------------------------------------------------------------- truncating division

  lemma Signs(q: int, n: int)
    ensures (-q) * n == -(q * n) && q * -n == -(q * n) && (-q) * -n == q * n
  {
  }

  /** Truncating division: the remainder takes the sign of the dividend. */
  lemma TruncDivRem(a: int, b: int)
    requires b != 0
    ensures a == TruncDiv(a, b) * b + TruncRem(a, b)
    ensures Abs(TruncRem(a, b)) < Abs(b)
  {
    var m: int, n: int := Abs(a), Abs(b);
    var q: int, r: int := m / n, m % n;
    assert m == q * n + r;
    Signs(q, n);
  }

  /** Dividing by something larger gives 0 and leaves the dividend. */
  lemma SmallTrunc(a: int, b: int)
    requires Abs(a) < Abs(b)
    ensures TruncDiv(a, b) == 0 && TruncRem(a, b) == a
  {
    DivModUnique(Abs(a), Abs(b), 0, Abs(a));
  }

  lemma SelfTrunc(a: int)
    requires a != 0
    ensures TruncDiv(a, a) == 1 && TruncRem(a, a) == 0
  {
    DivModUnique(Abs(a), Abs(a), 1, 0);
  }

  /** What the two signed operations fold to and what they mean, where neither is refused. */
  lemma SignedFold(a: int, b: int, w: nat)
    requires 0 < w < 64 && b != 0
    ensures FoldBinary(DIV_S, a, b, w) == Some(SignExtendWidth(Wrap64(TruncDiv(a, b)), w))
    ensures FoldBinary(REM_S, a, b, w) == Some(SignExtendWidth(TruncRem(a, b), w))
  {
    hide Pow2, Sext, SignExtendWidth, Bitwise, TruncDiv, TruncRem, Shl, Shr, RotL, RotR, Wrap64, U64, MaskToWidth;
  }

  lemma SignedEval(a: int, b: int, w: nat)
    requires 0 < w < 64
    ensures Sext(b, w) == 0 ==> EvalBinary(DIV_S, a, b, w) == None && EvalBinary(REM_S, a, b, w) == None
    ensures Sext(b, w) != 0 ==> EvalBinary(DIV_S, a, b, w) == Some(Sext(TruncDiv(Sext(a, w), Sext(b, w)), w))
    ensures Sext(b, w) != 0 ==> EvalBinary(REM_S, a, b, w) == Some(Sext(TruncRem(Sext(a, w), Sext(b, w)), w))
  {
    hide Pow2, Sext, Bitwise, TruncDiv, TruncRem, Shl, Shr, RotL, RotR, Unsigned;
  }

  // ---------------------------------------------------------------- a divisor that is too wide

  /** The number that takes 2^(w-1) is outside the w-bit numbers, and reads as its negation. */
  lemma HalfIsNegative(w: nat)
    requires IsWidth(w)
    ensures Sext(Pow2(w - 1), w) == -Pow2(w - 1) && !Fits(Pow2(w - 1), w) && Pow2(w - 1) >= 128
  {
    var h := Pow2(w - 1);
    assert Pow2(w) == 2 * h && Pow2(7) == 128;
    hide Pow2, Sext;
    Pow2Monotone(7, w - 1);
    SextCongruent(h, -h, w, 1);
    SextFits(-h, w);
  }

  lemma SmallFits(n: int, w: nat)
    requires IsWidth(w) && -128 <= n < 128
    ensures Fits(n, w) && Sext(n, w) == n
  {
    Pow2Monotone(7, w - 1);
    assert Pow2(7) == 128;
    hide Pow2;
    SextFits(n, w);
  }

  /** A number that is too wide is no smaller than what it reads as. */
  lemma WideSizes(b: int, w: nat)
    requires w > 0 && !Fits(b, w)
    ensures b != 0 && b != Sext(b, w) && Abs(Sext(b, w)) <= Abs(b)
    ensures Abs(Sext(b, w)) == Abs(b) ==> b == Pow2(w - 1)
  {
    SextFitsWidth(b, w);
    hide Pow2, Sext;
  }

  /** A dividend for which a divisor that is too wide folds wrongly: what the divisor reads as, or 0. */
  lemma WideDivisorShows(op: Opcode, b: int, w: nat)
    requires IsWidth(w) && w < 64 && Fits(b, 64) && !Fits(b, w) && op in {DIV_S, REM_S}
    requires !(op == REM_S && b == Pow2(w - 1))
    ensures Fits(Sext(b, w), w) && !FoldsRight(op, Sext(b, w), b, w)
  {
    hide Pow2, Sext, Fits, Abs, SignExtendWidth, FoldBinary, EvalBinary, TruncDiv, TruncRem, Wrap64;
    var y := Sext(b, w);
    WideSizes(b, w);
    SextFitsWidth(b, w);
    SextFits(y, w);
    SignedFold(y, b, w);
    SignedEval(y, b, w);
    if y != 0 {
      SelfTrunc(y);
      SmallFits(0, w);
      SmallFits(1, w);
      SignExtendWrapMeans(TruncDiv(y, b), w);
      if Abs(y) < Abs(b) {
        SmallTrunc(y, b);
        FitsWider(y, w);
        SignExtendMeans(y, w);
      } else {
        EqualSizes(y, b);
        SmallFits(-1, w);
      }
    }
  }

  lemma EqualSizes(y: int, b: int)
    requires Abs(y) == Abs(b) && y != b && b != 0
    ensures TruncDiv(y, b) == -1
  {
    DivModUnique(Abs(y), Abs(b), 1, 0);
  }

  /** Its sign does not matter to a remainder, so 2^(w-1) does as well as the number it reads as. */
  lemma HalfDivides(a: int, w: nat)
    requires IsWidth(w) && w < 64 && Fits(a, w)
    ensures FoldsRight(REM_S, a, Pow2(w - 1), w)
  {
    hide Pow2, Sext, SignExtendWidth, FoldBinary, EvalBinary, TruncDiv, TruncRem, Fits;
    var h := Pow2(w - 1);
    HalfIsNegative(w);
    SextFits(a, w);
    SignedFold(a, h, w);
    SignedEval(a, h, w);
    SignOfDivisor(a, h);
    RemainderFits(a, h, w);
    FitsWider(TruncRem(a, h), w);
    SignExtendMeans(TruncRem(a, h), w);
  }

  lemma SignOfDivisor(a: int, b: int)
    requires b != 0
    ensures TruncRem(a, b) == TruncRem(a, -b)
  {
  }

  lemma RemainderFits(a: int, b: int, w: nat)
    requires 0 < w && b != 0 && Abs(b) <= Pow2(w - 1)
    ensures Fits(TruncRem(a, b), w)
  {
    TruncDivRem(a, b);
    hide Pow2, TruncDiv, TruncRem;
  }

  // ---------------------------------------------------------------- a dividend that is too wide

  lemma OnlyMultiple(n: int, m: int, z: int)
    requires n * m == z && -m < z < m
    ensures z == 0
  {
    if n > 0 { MulAtLeast(n, m); }
    if n < 0 { assert (-n) * m == -z; MulAtLeast(-n, m); }
  }

  lemma MultipleOf(n: int, m: int)
    requires m > 0
    ensures (n * m) % m == 0
  {
    DivModUnique(n * m, m, n, 0);
  }

  lemma Difference(q: int, q': int, b: int)
    ensures q * b - q' * b == (q - q') * b
  {
  }

  lemma SameRemainder(a: int, x: int, b: int)
    requires b > 0 && TruncRem(a, b) == TruncRem(x, b)
    ensures (a - x) % b == 0
  {
    hide TruncDiv, TruncRem;
    TruncDivRem(a, b);
    TruncDivRem(x, b);
    Difference(TruncDiv(a, b), TruncDiv(x, b), b);
    MultipleOf(TruncDiv(a, b) - TruncDiv(x, b), b);
  }

  lemma PositiveFits(b: int, w: nat)
    requires IsWidth(w) && 0 < b < Pow2(w - 1)
    ensures Fits(b, w) && Sext(b, w) == b && 2 * b <= Pow2(w) && Abs(b) <= Pow2(w - 1)
  {
    SextFits(b, w);
    assert Pow2(w) == 2 * Pow2(w - 1);
    hide Pow2;
  }

  lemma RightQuotient(a: int, b: int, w: nat)
    requires IsWidth(w) && w < 64 && 0 < b < Pow2(w - 1) && FoldsRight(DIV_S, a, b, w)
    ensures TruncRem(a, b) == TruncRem(Sext(a, w), b)
  {
    hide Pow2, Sext, SignExtendWidth, FoldBinary, EvalBinary, TruncDiv, TruncRem, Wrap64, Fits, Abs;
    PositiveFits(b, w);
    SignedFold(a, b, w);
    SignedEval(a, b, w);
    SignExtendWrapMeans(TruncDiv(a, b), w);
    QuotientsAgree(a, b, w);
  }

  lemma RightRemainder(a: int, b: int, w: nat)
    requires IsWidth(w) && w < 64 && 0 < b < Pow2(w - 1) && FoldsRight(REM_S, a, b, w)
    ensures TruncRem(a, b) == TruncRem(Sext(a, w), b)
  {
    hide Pow2, Sext, SignExtendWidth, FoldBinary, EvalBinary, TruncDiv, TruncRem, Wrap64, Fits, Abs;
    PositiveFits(b, w);
    SignedFold(a, b, w);
    SignedEval(a, b, w);
    RemainderFits(a, b, w);
    RemainderFits(Sext(a, w), b, w);
    FitsWider(TruncRem(a, b), w);
    SignExtendMeans(TruncRem(a, b), w);
    SextFits(TruncRem(a, b), w);
    SextFits(TruncRem(Sext(a, w), b), w);
  }

  /** Where the fold is right, the divisor divides what was cut off the dividend: the remainders agree. */
  lemma RightDivides(op: Opcode, a: int, b: int, w: nat)
    requires IsWidth(w) && w < 64 && 0 < b < Pow2(w - 1) && op in {DIV_S, REM_S} && FoldsRight(op, a, b, w)
    ensures (a - Sext(a, w)) % b == 0
  {
    hide Pow2, Sext, FoldsRight, TruncRem;
    if op == DIV_S { RightQuotient(a, b, w); } else { RightRemainder(a, b, w); }
    SameRemainder(a, Sext(a, w), b);
  }

  lemma QuotientsAgree(a: int, b: int, w: nat)
    requires w > 0 && 0 < b && 2 * b <= Pow2(w) && Sext(TruncDiv(a, b), w) == Sext(TruncDiv(Sext(a, w), b), w)
    ensures TruncRem(a, b) == TruncRem(Sext(a, w), b)
  {
    var x := Sext(a, w);
    TruncDivRem(a, b);
    TruncDivRem(x, b);
    hide Pow2, Sext, TruncDiv, TruncRem;
    var k := SextParts(a, w);
    var m := SextParts(TruncDiv(a, b), w);
    var m' := SextParts(TruncDiv(x, b), w);
    Cancel(b, Pow2(w), k, m, m', TruncDiv(a, b), TruncDiv(x, b), TruncRem(a, b), TruncRem(x, b), x);
    OnlyMultiple(k - (m - m') * b, Pow2(w), TruncRem(a, b) - TruncRem(x, b));
  }

  lemma Cancel(b: int, p: int, k: int, m: int, m': int, q: int, q': int, r: int, r': int, x: int)
    requires x + k * p == q * b + r && x == q' * b + r' && q - m * p == q' - m' * p
    ensures (k - (m - m') * b) * p == r - r'
  {
    var n := m - m';
    assert q - q' == n * p;
    assert q * b - q' * b == n * p * b;
    assert n * p * b == n * b * p;
    assert (k - n * b) * p == k * p - n * b * p;
  }

  /** A multiple of two numbers without a common factor is a multiple of their product. */
  lemma Both(d: int, m: int, n: int, u: int, v: int)
    requires m > 0 && n > 0 && d % m == 0 && d % n == 0 && u * m + v * n == 1
    ensures m * n > 0 && d % (m * n) == 0
  {
    MulAtLeast(m, n);
    var s, t := d / m, d / n;
    assert d == s * m && d == t * n;
    assert d == d * (u * m + v * n);
    assert d * (u * m) == (t * u) * (m * n) && d * (v * n) == (s * v) * (m * n);
    assert d == (t * u + s * v) * (m * n);
    MultipleOf(t * u + s * v, m * n);
  }

  lemma MultipleIsZero(d: int, n: int)
    requires n > 0 && d % n == 0 && -n < d < n
    ensures d == 0
  {
    OnlyMultiple(d / n, n, d);
  }

  /** What is cut off is a multiple of 2^w, and below 2^64. */
  lemma CutOffPart(a: int, w: nat)
    requires IsWidth(w) && Fits(a, 64)
    ensures (a - Sext(a, w)) % Pow2(w) == 0 && Abs(a - Sext(a, w)) <= Pow2(63) + Pow2(w - 1)
  {
    var k := SextParts(a, w);
    MultipleOf(k, Pow2(w));
  }

  lemma Powers()
    ensures Pow2(7) == 0x80 && Pow2(8) == 0x100 && Pow2(15) == 0x8000 && Pow2(16) == 0x1_0000
    ensures Pow2(31) == 0x8000_0000 && Pow2(32) == 0x1_0000_0000 && Pow2(63) == 0x8000_0000_0000_0000
  {
    assert Pow2(7) == 128;
    assert Pow2(8) == 256;
    hide Pow2;
    Pow2Add(7, 8);
    Pow2Add(8, 8);
    Pow2Add(15, 16);
    Pow2Add(16, 16);
    Pow2Add(31, 32);
  }

  /** The fold is right for every divisor of the width. */
  ghost predicate RightForAll(op: Opcode, a: int, w: nat)
    requires w > 0
  {
    forall b :: Fits(b, w) ==> FoldsRight(op, a, b, w)
  }

  lemma DividesCutOff(op: Opcode, a: int, b: int, w: nat)
    requires IsWidth(w) && w < 64 && Fits(a, 64) && 0 < b < Pow2(w - 1) && op in {DIV_S, REM_S} && RightForAll(op, a, w)
    ensures (a - Sext(a, w)) % b == 0
  {
    assert Fits(b, w);
    hide Fits;
    assert FoldsRight(op, a, b, w);
    hide FoldsRight;
    RightDivides(op, a, b, w);
  }

  /** So nothing is cut off at 8 bits: too many numbers without a common factor would divide it. */
  lemma NothingCutOffAt8(op: Opcode, a: int)
    requires Fits(a, 64) && op in {DIV_S, REM_S} && RightForAll(op, a, 8)
    ensures Sext(a, 8) == a
  {
    Powers();
    hide Pow2, Sext, Fits, RightForAll;
    var d := a - Sext(a, 8);
    CutOffPart(a, 8);
    DividesCutOff(op, a, 127, 8);
    Both(d, 256, 127, -63, 127);
    DividesCutOff(op, a, 125, 8);
    Both(d, 32512, 125, -52, 13525);
    DividesCutOff(op, a, 123, 8);
    Both(d, 4064000, 123, 20, -660813);
    DividesCutOff(op, a, 121, 8);
    Both(d, 499872000, 121, 56, -231345719);
    DividesCutOff(op, a, 119, 8);
    Both(d, 60484512000, 119, 12, -6099278521);
    DividesCutOff(op, a, 113, 8);
    Both(d, 7197656928000, 113, -20, 1273921580177);
    DividesCutOff(op, a, 109, 8);
    Both(d, 813335232864000, 109, 53, -395474929741211);
    DividesCutOff(op, a, 107, 8);
    Both(d, 88653540382176000, 107, 9, -7456839845229757);
    MultipleIsZero(d, 9485928820892832000);
  }

  /** So nothing is cut off at 16 bits: too many numbers without a common factor would divide it. */
  lemma NothingCutOffAt16(op: Opcode, a: int)
    requires Fits(a, 64) && op in {DIV_S, REM_S} && RightForAll(op, a, 16)
    ensures Sext(a, 16) == a
  {
    Powers();
    hide Pow2, Sext, Fits, RightForAll;
    var d := a - Sext(a, 16);
    CutOffPart(a, 16);
    DividesCutOff(op, a, 32767, 16);
    Both(d, 65536, 32767, -16383, 32767);
    DividesCutOff(op, a, 32765, 16);
    Both(d, 2147418112, 32765, -13652, 894752085);
    DividesCutOff(op, a, 32763, 16);
    Both(d, 70360154439680, 32763, 5324, -11433551940813);
    DividesCutOff(op, a, 32761, 16);
    Both(d, 2305209739907235840, 32761, -8239, 579732701904573001);
    MultipleIsZero(d, 75520976289100953354240);
  }

  /** So nothing is cut off at 32 bits: too many numbers without a common factor would divide it. */
  lemma NothingCutOffAt32(op: Opcode, a: int)
    requires Fits(a, 64) && op in {DIV_S, REM_S} && RightForAll(op, a, 32)
    ensures Sext(a, 32) == a
  {
    Powers();
    hide Pow2, Sext, Fits, RightForAll;
    var d := a - Sext(a, 32);
    CutOffPart(a, 32);
    DividesCutOff(op, a, 2147483647, 32);
    Both(d, 4294967296, 2147483647, -1073741823, 2147483647);
    DividesCutOff(op, a, 2147483645, 32);
    Both(d, 9223372032559808512, 2147483645, -894784852, 3843071679875339605);
    MultipleIsZero(d, 19807040591672596263851786240);
  }

  // ---------------------------------------------------------------- main results

  /**
   * A first operand is right with every second operand of the width exactly when it is of the width, or high bits do
   * not count.
   */
  lemma FirstOperandIff(op: Opcode, a: int, w: nat)
    requires IsWidth(w) && Fits(a, 64)
    ensures RightForAll(op, a, w) <==> Fits(a, w) || !ReadsHighBits(op)
  {
    hide FoldsRight, Pow2, Sext, Fits;
    if Fits(a, w) || !ReadsHighBits(op) {
      forall b | Fits(b, w) ensures FoldsRight(op, a, b, w) { FittingFolds(op, a, b, w); }
    } else if op in {AND, OR, XOR} {
      UnitShows(op, a, w);
      UnitFits(op, w);
    } else if RightForAll(op, a, w) {
      hide RightForAll;
      if w == 8 { NothingCutOffAt8(op, a); }
      if w == 16 { NothingCutOffAt16(op, a); }
      if w == 32 { NothingCutOffAt32(op, a); }
      SextFitsWidth(a, w);
    }
  }

  lemma FittingFolds(op: Opcode, a: int, b: int, w: nat)
    requires IsWidth(w) && Fits(a, 64) && Fits(b, w) && (Fits(a, w) || !ReadsHighBits(op))
    ensures FoldsRight(op, a, b, w) && (ReadsHighBits(op) || FoldsRight(op, b, a, w))
    ensures Fits(a, w) ==> FoldsRight(op, b, a, w)
  {
    hide FoldBinary, EvalBinary, Pow2, Fits;
    FitsWider(b, w);
    if Fits(a, w) {
      FoldBinaryIsTwosComplement(op, a, b, w);
      FoldBinaryIsTwosComplement(op, b, a, w);
    } else {
      LowBitsFold(op, a, b, w);
      LowBitsFold(op, b, a, w);
    }
  }

  /** A second operand likewise, but for the divisor 2^(w-1) of a remainder. */
  lemma SecondOperandIff(op: Opcode, b: int, w: nat)
    requires IsWidth(w) && Fits(b, 64)
    ensures (forall a :: Fits(a, w) ==> FoldsRight(op, a, b, w))
            <==> Fits(b, w) || !ReadsHighBits(op) || (op == REM_S && b == Pow2(w - 1))
  {
    hide FoldsRight, Pow2, Sext, Fits;
    if Fits(b, w) || !ReadsHighBits(op) {
      forall a | Fits(a, w) ensures FoldsRight(op, a, b, w) { FittingFolds(op, b, a, w); }
    } else if op in {AND, OR, XOR} {
      UnitShows(op, b, w);
      UnitFits(op, w);
    } else if op == REM_S && b == Pow2(w - 1) {
      forall a | Fits(a, w) ensures FoldsRight(op, a, b, w) { HalfDivides(a, w); }
    } else {
      WideDivisorShows(op, b, w);
    }
  }
}
