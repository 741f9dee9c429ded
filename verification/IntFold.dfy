/**
 * Integer constant folding (src/opt/const_fold.c, src/opt/common.c) against two's-complement arithmetic of
 * w bits. The functions named Fold* follow the C code on int64 values; the functions named Eval* say what
 * an operation of width w means.
 */
module IntFold {
  import opened Opcodes

  datatype Option<T> = None | Some(value: T) {
    predicate IsFailure() {
      None?
    }

    function PropagateFailure<U>(): Option<U>
      requires IsFailure()
    {
      None
    }

    function Extract(): T
      requires !IsFailure()
    {
      value
    }
  }

  // ---------------------------------------------------------------- powers of two and division

  function Pow2(n: nat): (p: int)
    ensures p >= 1
  {
    if n == 0 then 1 else 2 * Pow2(n - 1)
  }

  lemma {:induction false} Pow2Add(a: nat, b: nat)
    ensures Pow2(a + b) == Pow2(a) * Pow2(b)
  {
    if a > 0 {
      Pow2Add(a - 1, b);
      assert Pow2(a + b) == 2 * Pow2(a + b - 1);
      assert Pow2(a) * Pow2(b) == 2 * (Pow2(a - 1) * Pow2(b));
    }
  }

  lemma {:induction false} Pow2Monotone(a: nat, b: nat)
    requires a <= b
    ensures Pow2(a) <= Pow2(b)
  {
    if a < b { Pow2Monotone(a, b - 1); }
  }

  lemma MulAtLeast(a: int, b: int)
    requires a >= 1 && b >= 0
    ensures a * b >= b
  {
  }

  lemma DivModUnique(x: int, m: int, q: int, r: int)
    requires m > 0 && x == q * m + r && 0 <= r < m
    ensures x / m == q && x % m == r
  {
    var q', r' := x / m, x % m;
    assert x == q' * m + r';
    assert (q - q') * m == r' - r;
    if q > q' { MulAtLeast(q - q', m); }
    if q < q' { assert (q' - q) * m == r - r'; MulAtLeast(q' - q, m); }
  }

  lemma ModCongruent(x: int, m: int, k: int)
    requires m > 0
    ensures (x + k * m) % m == x % m
  {
    DivModUnique(x + k * m, m, x / m + k, x % m);
  }

  lemma ScaleMod(x: int, m: int, k: int)
    requires m > 0 && k > 0
    ensures m * k > 0 && (x * k) % (m * k) == (x % m) * k
  {
    var q, r := x / m, x % m;
    assert x == q * m + r;
    assert x * k == q * (m * k) + r * k;
    assert 0 <= r * k < m * k;
    DivModUnique(x * k, m * k, q, r * k);
  }

  // ---------------------------------------------------------------- w-bit values

  predicate IsWidth(w: nat) {
    w == 8 || w == 16 || w == 32 || w == 64
  }

  /** x read as a signed number of w bits. */
  function Sext(x: int, w: nat): (r: int)
    requires w > 0
    ensures -Pow2(w - 1) <= r < Pow2(w - 1)
  {
    assert Pow2(w) == 2 * Pow2(w - 1);
    (x + Pow2(w - 1)) % Pow2(w) - Pow2(w - 1)
  }

  /** x is a signed number of w bits. */
  predicate Fits(x: int, w: nat)
    requires w > 0
  {
    -Pow2(w - 1) <= x < Pow2(w - 1)
  }

  /** x read as an unsigned number of w bits. */
  function Unsigned(x: int, w: nat): (r: nat)
    ensures r < Pow2(w)
  {
    x % Pow2(w)
  }

  lemma SextFits(x: int, w: nat)
    requires w > 0 && Fits(x, w)
    ensures Sext(x, w) == x
  {
    DivModUnique(x + Pow2(w - 1), Pow2(w), 0, x + Pow2(w - 1));
  }

  lemma SextCongruent(x: int, y: int, w: nat, k: int)
    requires w > 0 && x == y + k * Pow2(w)
    ensures Sext(x, w) == Sext(y, w) && Unsigned(x, w) == Unsigned(y, w)
  {
    ModCongruent(y + Pow2(w - 1), Pow2(w), k);
    ModCongruent(y, Pow2(w), k);
  }

  lemma Refactor(q: int, d: int, m: int)
    ensures q * (d * m) == (q * d) * m && -(q * (d * m)) == (-(q * d)) * m
  {
  }

  /** Reading at w bits forgets any earlier reading at 64 bits. */
  lemma NarrowAfterWide(x: int, w: nat)
    requires 0 < w <= 64
    ensures Sext(Sext(x, 64), w) == Sext(x, w) && Unsigned(Sext(x, 64), w) == Unsigned(x, w)
    ensures Sext(Unsigned(x, 64), w) == Sext(x, w) && Unsigned(Unsigned(x, 64), w) == Unsigned(x, w)
  {
    hide Pow2;
    Pow2Add(64 - w, w);
    var d := Pow2(64 - w);
    var q, p := (x + Pow2(63)) / Pow2(64), x / Pow2(64);
    Refactor(q, d, Pow2(w));
    Refactor(p, d, Pow2(w));
    SextCongruent(Sext(x, 64), x, w, -(q * d));
    SextCongruent(Unsigned(x, 64), x, w, -(p * d));
  }

  /** Signed and unsigned readings name the same bits. */
  lemma SextUnsigned(x: int, w: nat)
    requires w > 0
    ensures Sext(Unsigned(x, w), w) == Sext(x, w) && Unsigned(Sext(x, w), w) == Unsigned(x, w)
  {
    SextCongruent(Unsigned(x, w), x, w, -(x / Pow2(w)));
    SextCongruent(Sext(x, w), x, w, -((x + Pow2(w - 1)) / Pow2(w)));
  }

  // ---------------------------------------------------------------- bitwise operations on two's complement

  datatype BitOp = BitAnd | BitOr | BitXor

  predicate Combine(op: BitOp, x: bool, y: bool) {
    match op
    case BitAnd => x && y
    case BitOr => x || y
    case BitXor => x != y
  }

  function Size(x: int): nat {
    if x >= 0 then x else -x - 1
  }

  /** Bit k of x, in a two's-complement representation that extends the sign without end. */
  predicate Bit(x: int, k: nat)
    decreases k
  {
    if k == 0 then x % 2 == 1 else Bit(x / 2, k - 1)
  }

  function Bitwise(op: BitOp, x: int, y: int): int
    decreases Size(x) + Size(y)
  {
    if -1 <= x <= 0 && -1 <= y <= 0 then (if Combine(op, x == -1, y == -1) then -1 else 0)
    else 2 * Bitwise(op, x / 2, y / 2) + if Combine(op, x % 2 == 1, y % 2 == 1) then 1 else 0
  }

  /** Each bit of the result is the combination of the bits of the operands. */
  lemma {:induction false} BitwiseBit(op: BitOp, x: int, y: int, k: nat)
    ensures Bit(Bitwise(op, x, y), k) == Combine(op, Bit(x, k), Bit(y, k))
    decreases k
  {
    if k > 0 {
      var z := Bitwise(op, x, y);
      BitwiseBit(op, x / 2, y / 2, k - 1);
      assert z / 2 == Bitwise(op, x / 2, y / 2);
    }
  }

  lemma {:induction false} BitwiseFits(op: BitOp, x: int, y: int, w: nat)
    requires w > 0 && Fits(x, w) && Fits(y, w)
    ensures Fits(Bitwise(op, x, y), w)
    decreases w
  {
    if w > 1 { BitwiseFits(op, x / 2, y / 2, w - 1); }
  }

  /** A number of w bits is determined by them. */
  lemma {:induction false} BitsDetermine(x: int, y: int, w: nat)
    requires w > 0 && Fits(x, w) && Fits(y, w)
    requires forall k :: 0 <= k < w ==> Bit(x, k) == Bit(y, k)
    ensures x == y
    decreases w
  {
    assert Bit(x, 0) == Bit(y, 0);
    if w > 1 {
      forall k | 0 <= k < w - 1 ensures Bit(x / 2, k) == Bit(y / 2, k) {
        assert Bit(x, k + 1) == Bit(y, k + 1);
      }
      BitsDetermine(x / 2, y / 2, w - 1);
    }
  }

  /** Masking with 2^w - 1 keeps the value modulo 2^w. */
  lemma {:induction false} MaskIsMod(x: int, w: nat)
    ensures Bitwise(BitAnd, x, Pow2(w) - 1) == x % Pow2(w)
    decreases w
  {
    if w == 0 {
      AndZero(x);
    } else {
      var m := Pow2(w - 1);
      assert Pow2(w) == 2 * m;
      MaskIsMod(x / 2, w - 1);
      hide Pow2, Bitwise;
      MaskStep(x, m);
    }
  }

  lemma MaskStep(x: int, m: int)
    requires m >= 1 && Bitwise(BitAnd, x / 2, m - 1) == x / 2 % m
    ensures Bitwise(BitAnd, x, 2 * m - 1) == x % (2 * m)
  {
    assert (2 * m - 1) / 2 == m - 1 && (2 * m - 1) % 2 == 1;
    HalfMod(x, m);
  }

  lemma HalfMod(x: int, m: int)
    requires m >= 1
    ensures x % (2 * m) == 2 * (x / 2 % m) + x % 2
  {
    var q, r := x / 2 / m, x / 2 % m;
    assert x / 2 == q * m + r;
    assert q * (2 * m) == 2 * (q * m);
    DivModUnique(x, 2 * m, q, 2 * r + x % 2);
  }

  lemma {:induction false} AndZero(x: int)
    ensures Bitwise(BitAnd, x, 0) == 0
    decreases Size(x)
  {
    if !(-1 <= x <= 0) { AndZero(x / 2); }
  }

  /** Or of a multiple of 2^s with a number below 2^s is their sum. */
  lemma {:induction false} OrDisjoint(x: int, y: nat, s: nat)
    requires x >= 0 && y < Pow2(s)
    ensures Bitwise(BitOr, x * Pow2(s), y) == x * Pow2(s) + y
  {
    if s == 0 {
      OrZero(x);
    } else {
      var p := Pow2(s - 1);
      assert Pow2(s) == 2 * p;
      OrDisjoint(x, y / 2, s - 1);
      hide Pow2, Bitwise;
      Double(x, p);
      OrStep(x * p, y);
    }
  }

  lemma Double(x: int, p: int)
    requires x >= 0 && p >= 1
    ensures x * (2 * p) == 2 * (x * p) && x * p >= 0
  {
  }

  lemma OrStep(h: nat, y: nat)
    requires Bitwise(BitOr, h, y / 2) == h + y / 2
    ensures Bitwise(BitOr, 2 * h, y) == 2 * h + y
  {
    assert 2 * h / 2 == h && 2 * h % 2 == 0;
  }

  lemma {:induction false} OrZero(x: int)
    requires x >= 0
    ensures Bitwise(BitOr, x, 0) == x
    decreases x
  {
    if x > 0 { OrZero(x / 2); }
  }

  // ---------------------------------------------------------------- what the operations mean

  /** Division rounds toward zero, as in C. */
  function TruncDiv(a: int, b: int): int
    requires b != 0
  {
    if (a >= 0) == (b > 0) then Abs(a) / Abs(b) else -(Abs(a) / Abs(b))
  }

  function TruncRem(a: int, b: int): int
    requires b != 0
  {
    if a >= 0 then Abs(a) % Abs(b) else -(Abs(a) % Abs(b))
  }

  function Abs(a: int): nat {
    if a < 0 then -a else a
  }

  function Shl(u: int, s: nat): (r: int)
    ensures u >= 0 ==> r >= 0
  {
    u * Pow2(s)
  }

  function Shr(u: int, s: nat): (r: int)
    ensures u >= 0 ==> r >= 0
  {
    DivNonNegative(u, Pow2(s));
    u / Pow2(s)
  }

  lemma DivNonNegative(u: int, p: int)
    requires p >= 1
    ensures u >= 0 ==> u / p >= 0
  {
  }

  function RotL(u: nat, s: nat, w: nat): int
    requires s <= w
  {
    Unsigned(Shl(u, s), w) + Shr(u, w - s)
  }

  function RotR(u: nat, s: nat, w: nat): int
    requires s <= w
  {
    Shr(u, s) + Unsigned(Shl(u, w - s), w)
  }

  function EvalUnary(op: Opcode, a: int, w: nat): (r: Option<int>)
    requires w > 0
  {
    match op
    case NEG => Some(Sext(-Sext(a, w), w))
    case NOT => Some(Sext(-Sext(a, w) - 1, w))
    case _ => None
  }

  /** The w-bit two's-complement operation; None where it traps. */
  function EvalBinary(op: Opcode, a: int, b: int, w: nat): (r: Option<int>)
    requires w > 0
  {
    var x, y, ux, uy := Sext(a, w), Sext(b, w), Unsigned(a, w), Unsigned(b, w);
    var s := y % w;
    match op
    case ADD => Some(Sext(x + y, w))
    case SUB => Some(Sext(x - y, w))
    case MUL => Some(Sext(x * y, w))
    case DIV_S => if y == 0 || (w == 64 && x == -Pow2(63) && y == -1) then None else Some(Sext(TruncDiv(x, y), w))
    case DIV_U => if uy == 0 then None else Some(Sext(ux / uy, w))
    case REM_S => if y == 0 then None else Some(Sext(TruncRem(x, y), w))
    case REM_U => if uy == 0 then None else Some(Sext(ux % uy, w))
    case AND => Some(Bitwise(BitAnd, x, y))
    case OR => Some(Bitwise(BitOr, x, y))
    case XOR => Some(Bitwise(BitXor, x, y))
    case SHL => Some(Sext(Shl(x, s), w))
    case SHR => Some(Sext(Shr(ux, s), w))
    case SAR => Some(Shr(x, s))
    case ROTL => Some(Sext(RotL(ux, s, w), w))
    case ROTR => Some(Sext(RotR(ux, s, w), w))
    case _ => None
  }

  function EvalCmp(op: Opcode, a: int, b: int, w: nat): (r: Option<int>)
    requires w > 0
  {
    var x, y, ux, uy := Sext(a, w), Sext(b, w), Unsigned(a, w), Unsigned(b, w);
    match op
    case CMP_EQ => Some(Flag(x == y))
    case CMP_NE => Some(Flag(x != y))
    case CMP_LT_S => Some(Flag(x < y))
    case CMP_LT_U => Some(Flag(ux < uy))
    case CMP_LE_S => Some(Flag(x <= y))
    case CMP_LE_U => Some(Flag(ux <= uy))
    case CMP_GT_S => Some(Flag(x > y))
    case CMP_GT_U => Some(Flag(ux > uy))
    case CMP_GE_S => Some(Flag(x >= y))
    case CMP_GE_U => Some(Flag(ux >= uy))
    case _ => None
  }

  function Flag(c: bool): int {
    if c then 1 else 0
  }

  // ---------------------------------------------------------------- the C code on int64 values

  const INT64_MIN := -Pow2(63)

  /** Wrap-around of an int64 result. */
  function Wrap64(x: int): int {
    Sext(x, 64)
  }

  /** A conversion to uint64. */
  function U64(x: int): nat {
    Unsigned(x, 64)
  }

  /** ny_opt_sign_extend_width: shift left, then arithmetically right. */
  function SignExtendWidth(v: int, w: nat): int {
    if w >= 64 then v else Wrap64(v * Pow2(64 - w)) / Pow2(64 - w)
  }

  /** ny_opt_mask_to_width. */
  function MaskToWidth(v: int, w: nat): int {
    if w >= 64 then v else Bitwise(BitAnd, v, Pow2(w) - 1)
  }

  /** ny_fold_int_unary. */
  function FoldUnary(op: Opcode, a: int, w: nat): (r: Option<int>) {
    match op
    case NEG => Some(SignExtendWidth(Wrap64(-a), w))
    case NOT => Some(SignExtendWidth(-a - 1, w))
    case _ => None
  }

  /** The shift amount (uint32_t)b % width. */
  function ShiftAmount(b: int, w: nat): nat
    requires w > 0
  {
    Unsigned(b, 32) % w
  }

  function RotateLeft64(ua: nat, sh: nat, w: nat): int
    requires sh < w
  {
    if sh == 0 then ua else Bitwise(BitOr, U64(Shl(ua, sh)), Shr(ua, w - sh))
  }

  function RotateRight64(ua: nat, sh: nat, w: nat): int
    requires sh < w
  {
    if sh == 0 then ua else Bitwise(BitOr, Shr(ua, sh), U64(Shl(ua, w - sh)))
  }

  /** ny_fold_int_binary; None when the fold is refused. */
  function FoldBinary(op: Opcode, a: int, b: int, width: nat): (r: Option<int>) {
    var w := if width == 0 then 32 else width;
    var ua, ub := U64(MaskToWidth(a, w)), U64(MaskToWidth(b, w));
    var sh := ShiftAmount(b, w);
    match op
    case ADD => Some(SignExtendWidth(Wrap64(a + b), w))
    case SUB => Some(SignExtendWidth(Wrap64(a - b), w))
    case MUL => Some(SignExtendWidth(Wrap64(a * b), w))
    case DIV_S =>
      if b == 0 || (w == 64 && a == INT64_MIN && b == -1) then None
      else Some(SignExtendWidth(Wrap64(TruncDiv(a, b)), w))
    case DIV_U => if ub == 0 then None else Some(SignExtendWidth(Wrap64(ua / ub), w))
    case REM_S => if b == 0 then None else Some(SignExtendWidth(TruncRem(a, b), w))
    case REM_U => if ub == 0 then None else Some(SignExtendWidth(Wrap64(ua % ub), w))
    case AND => Some(Bitwise(BitAnd, a, b))
    case OR => Some(Bitwise(BitOr, a, b))
    case XOR => Some(Bitwise(BitXor, a, b))
    case SHL => Some(SignExtendWidth(Wrap64(Shl(a, sh)), w))
    case SHR => Some(SignExtendWidth(Wrap64(Shr(ua, sh)), w))
    case SAR => Some(SignExtendWidth(Shr(SignExtendWidth(a, w), sh), w))
    case ROTL => Some(SignExtendWidth(Wrap64(RotateLeft64(ua, sh, w)), w))
    case ROTR => Some(SignExtendWidth(Wrap64(RotateRight64(ua, sh, w)), w))
    case _ => None
  }

  /** ny_fold_int_cmp. */
  function FoldCmp(op: Opcode, a: int, b: int, width: nat): (r: Option<int>) {
    var w := if width == 0 then 32 else width;
    var sa, sb := SignExtendWidth(a, w), SignExtendWidth(b, w);
    var ua, ub := U64(MaskToWidth(a, w)), U64(MaskToWidth(b, w));
    match op
    case CMP_EQ => Some(Flag(sa == sb))
    case CMP_NE => Some(Flag(sa != sb))
    case CMP_LT_S => Some(Flag(sa < sb))
    case CMP_LT_U => Some(Flag(ua < ub))
    case CMP_LE_S => Some(Flag(sa <= sb))
    case CMP_LE_U => Some(Flag(ua <= ub))
    case CMP_GT_S => Some(Flag(sa > sb))
    case CMP_GT_U => Some(Flag(ua > ub))
    case CMP_GE_S => Some(Flag(sa >= sb))
    case CMP_GE_U => Some(Flag(ua >= ub))
    case _ => None
  }

  // ---------------------------------------------------------------- the code computes the meaning

  /** The two shifts of ny_opt_sign_extend_width read the low w bits as a signed number. */
  lemma SignExtendMeans(v: int, w: nat)
    requires 0 < w <= 64 && Fits(v, 64)
    ensures SignExtendWidth(v, w) == Sext(v, w)
  {
    if w == 64 {
      SextFits(v, 64);
    } else {
      SextScaled(v, w, 64 - w);
      DivModUnique(Sext(v, w) * Pow2(64 - w), Pow2(64 - w), Sext(v, w), 0);
    }
  }

  /** Shifting left by k scales the signed reading. */
  lemma SextScaled(v: int, w: nat, k: nat)
    requires w > 0
    ensures Sext(v * Pow2(k), w + k) == Sext(v, w) * Pow2(k)
  {
    var d, h, m := Pow2(k), Pow2(w - 1), Pow2(w);
    Pow2Add(w, k);
    Pow2Add(w - 1, k);
    hide Pow2;
    ScaleMod(v + h, m, d);
    Distribute(v, h, (v + h) % m, d);
  }

  lemma Distribute(v: int, h: int, r: int, k: int)
    ensures (v + h) * k == v * k + h * k && r * k - h * k == (r - h) * k
  {
  }

  lemma SignExtendWrapMeans(x: int, w: nat)
    requires 0 < w <= 64
    ensures SignExtendWidth(Wrap64(x), w) == Sext(x, w)
  {
    hide SignExtendWidth, Pow2;
    SextRange(x);
    SignExtendMeans(Wrap64(x), w);
    NarrowAfterWide(x, w);
  }

  lemma SextRange(x: int)
    ensures Fits(Sext(x, 64), 64)
  {
  }

  /** As a uint64, the masked value is the unsigned reading. */
  lemma MaskMeans(v: int, w: nat)
    requires 0 < w <= 64
    ensures U64(MaskToWidth(v, w)) == Unsigned(v, w)
  {
    if w < 64 {
      MaskIsMod(v, w);
      Pow2Monotone(w, 64);
      DivModUnique(v % Pow2(w), Pow2(64), 0, v % Pow2(w));
    }
  }

  lemma FitsWider(x: int, w: nat)
    requires 0 < w <= 64 && Fits(x, w)
    ensures Fits(x, 64)
  {
    Pow2Monotone(w - 1, 63);
  }

  lemma ShiftMeans(b: int, w: nat)
    requires IsWidth(w)
    ensures ShiftAmount(b, w) == b % w
  {
    assert Pow2(32) == 4294967296 by {
      assert Pow2(8) == 256;
      Pow2Add(8, 8);
      Pow2Add(16, 16);
    }
    hide Pow2;
    if {
      case w == 8 => ModOfMod(b, 536870912, 8);
      case w == 16 => ModOfMod(b, 268435456, 16);
      case w == 32 => ModOfMod(b, 134217728, 32);
      case w == 64 => ModOfMod(b, 67108864, 64);
    }
  }

  lemma ModOfMod(b: int, d: int, w: int)
    requires w > 0 && d > 0
    ensures d * w > 0 && (b % (d * w)) % w == b % w
  {
    MulAtLeast(d, w);
    var m := d * w;
    var q, r := DivParts(b, m);
    Refactor(q, d, w);
    ModCongruent(r, w, q * d);
  }

  lemma DivParts(b: int, m: int) returns (q: int, r: int)
    requires m > 0
    ensures b == q * m + r && r == b % m
  {
    q, r := b / m, b % m;
  }

  // ---------------------------------------------------------------- operands of any width

  /** x is its w-bit reading and a multiple of 2^w. */
  lemma SextParts(x: int, w: nat) returns (k: int)
    requires w > 0
    ensures x == Sext(x, w) + k * Pow2(w)
  {
    k := (x + Pow2(w - 1)) / Pow2(w);
  }

  lemma Expand(x: int, y: int, k: int, l: int, p: int)
    ensures (x + k * p) + (y + l * p) == (x + y) + (k + l) * p
    ensures (x + k * p) - (y + l * p) == (x - y) + (k - l) * p
    ensures (x + k * p) * (y + l * p) == x * y + (k * y + l * x + k * l * p) * p
    ensures (x + k * p) * y == x * y + (k * y) * p
  {
    assert (k * y) * p == k * p * y && (l * x) * p == l * p * x && (k * l * p) * p == (k * p) * (l * p);
  }

  /** Sums, products and left shifts at w bits depend on the low w bits of their operands only. */
  lemma SextOfArith(a: int, b: int, s: nat, w: nat)
    requires w > 0
    ensures Sext(Sext(a, w) + Sext(b, w), w) == Sext(a + b, w)
    ensures Sext(Sext(a, w) - Sext(b, w), w) == Sext(a - b, w)
    ensures Sext(Sext(a, w) * Sext(b, w), w) == Sext(a * b, w)
    ensures Sext(Shl(Sext(a, w), s), w) == Sext(Shl(a, s), w)
  {
    var k := SextParts(a, w);
    var l := SextParts(b, w);
    var x, y, p, q := Sext(a, w), Sext(b, w), Pow2(w), Pow2(s);
    hide Pow2, Sext;
    Expand(x, y, k, l, p);
    Expand(x, q, k, 0, p);
    SextCongruent(a + b, x + y, w, k + l);
    SextCongruent(a - b, x - y, w, k - l);
    SextCongruent(a * b, x * y, w, k * y + l * x + k * l * p);
    SextCongruent(a * q, x * q, w, k * q);
  }

  lemma WidthDivides(w: nat)
    requires IsWidth(w)
    ensures Pow2(w) == Pow2(w) / w * w
  {
    var e := if w == 8 then 3 else if w == 16 then 4 else if w == 32 then 5 else 6;
    assert Pow2(1) == 2 && Pow2(2) == 4 && Pow2(3) == 8 && Pow2(4) == 16;
    assert Pow2(5) == 32 && Pow2(6) == 64;
    hide Pow2;
    Pow2Add(w - e, e);
    DivModUnique(Pow2(w), w, Pow2(w - e), 0);
  }

  /** The shift amount depends on the low w bits only. */
  lemma ShiftOfSext(b: int, w: nat)
    requires IsWidth(w)
    ensures Sext(b, w) % w == b % w
  {
    var k := SextParts(b, w);
    WidthDivides(w);
    hide Pow2, Sext;
    var d := Pow2(w) / w;
    Refactor(k, d, w);
    ModCongruent(Sext(b, w), w, k * d);
  }

  lemma {:induction false} BitCongruent(x: int, m: int, w: nat, k: nat)
    requires k < w
    ensures Bit(x + m * Pow2(w), k) == Bit(x, k)
    decreases k
  {
    var p := Pow2(w - 1);
    assert Pow2(w) == 2 * p;
    hide Pow2;
    HalfOf(x, m, p);
    if k > 0 { BitCongruent(x / 2, m, w - 1, k - 1); }
  }

  lemma HalfOf(x: int, m: int, p: int)
    ensures (x + m * (2 * p)) / 2 == x / 2 + m * p && (x + m * (2 * p)) % 2 == x % 2
  {
    assert m * (2 * p) == 2 * (m * p);
  }

  /** The low w bits of x are those of its w-bit reading. */
  lemma SextBit(x: int, w: nat, k: nat)
    requires k < w
    ensures Bit(Sext(x, w), k) == Bit(x, k)
  {
    var m := SextParts(x, w);
    hide Pow2, Sext, Bit;
    BitCongruent(Sext(x, w), m, w, k);
  }

  /** A bitwise operation at w bits is the operation, read at w bits. */
  lemma SextOfBitwise(op: BitOp, a: int, b: int, w: nat)
    requires w > 0
    ensures Bitwise(op, Sext(a, w), Sext(b, w)) == Sext(Bitwise(op, a, b), w)
  {
    hide Pow2, Sext, Bitwise, Bit, Fits, Combine;
    var x, y, z := Sext(a, w), Sext(b, w), Bitwise(op, a, b);
    SextFitsWidth(a, w);
    SextFitsWidth(b, w);
    SextFitsWidth(z, w);
    BitwiseFits(op, x, y, w);
    forall k: nat | k < w ensures Bit(Bitwise(op, x, y), k) == Bit(Sext(z, w), k) {
      SextBit(a, w, k);
      SextBit(b, w, k);
      SextBit(z, w, k);
      BitwiseBit(op, a, b, k);
      BitwiseBit(op, x, y, k);
    }
    BitsDetermine(Bitwise(op, x, y), Sext(z, w), w);
  }

  lemma SextOfNegated(a: int, w: nat)
    requires w > 0
    ensures Sext(-Sext(a, w), w) == Sext(-a, w) && Sext(-Sext(a, w) - 1, w) == Sext(-a - 1, w)
  {
    var k := SextParts(a, w);
    var x, p := Sext(a, w), Pow2(w);
    hide Pow2, Sext;
    assert (-k) * p == -(k * p);
    SextCongruent(-a, -x, w, -k);
    SextCongruent(-a - 1, -x - 1, w, -k);
  }

  lemma NotFits(a: int)
    requires Fits(a, 64)
    ensures Fits(-a - 1, 64)
  {
    hide Pow2;
  }

  /** Negation and complement of any int64 operand are those of its low w bits. */
  lemma UnaryMeans(op: Opcode, a: int, w: nat)
    requires IsWidth(w) && Fits(a, 64)
    ensures FoldUnary(op, a, w) == EvalUnary(op, a, w)
  {
    NotFits(a);
    hide Pow2, Sext, SignExtendWidth, Fits;
    SextOfNegated(a, w);
    SignExtendWrapMeans(-a, w);
    SignExtendMeans(-a - 1, w);
  }

  /** A shift left or a product that wraps at 64 bits is right at w bits. */
  lemma BinaryMeansArith(op: Opcode, a: int, b: int, w: nat)
    requires IsWidth(w) && op in {ADD, SUB, MUL, SHL}
    ensures FoldBinary(op, a, b, w) == EvalBinary(op, a, b, w)
  {
    hide Pow2, Sext, SignExtendWidth, Bitwise, Shl;
    ShiftOfSext(b, w);
    SextOfArith(a, b, b % w, w);
    ShiftMeans(b, w);
    SignExtendWrapMeans(a + b, w);
    SignExtendWrapMeans(a - b, w);
    SignExtendWrapMeans(a * b, w);
    SignExtendWrapMeans(Shl(a, b % w), w);
  }

  lemma BinaryMeansSar(a: int, b: int, w: nat)
    requires IsWidth(w) && Fits(a, 64)
    ensures FoldBinary(SAR, a, b, w) == EvalBinary(SAR, a, b, w)
  {
    hide Pow2, Sext, SignExtendWidth, Bitwise, Shr;
    ShiftOfSext(b, w);
    ShiftMeans(b, w);
    SignExtendMeans(a, w);
    SextFitsWidth(a, w);
    var q := Shr(Sext(a, w), b % w);
    ShrFits(Sext(a, w), b % w, w);
    FitsWider(q, w);
    SignExtendMeans(q, w);
    SextFits(q, w);
  }

  /** The bitwise folds do not cut their result: they are right exactly when it is a w-bit number. */
  lemma BinaryMeansBitwise(op: Opcode, a: int, b: int, w: nat)
    requires IsWidth(w) && op in {AND, OR, XOR}
    ensures FoldBinary(op, a, b, w).Some?
    ensures FoldBinary(op, a, b, w) == EvalBinary(op, a, b, w) <==> Fits(FoldBinary(op, a, b, w).value, w)
  {
    var bit := if op == AND then BitAnd else if op == OR then BitOr else BitXor;
    var z := Bitwise(bit, a, b);
    SextOfBitwise(bit, a, b, w);
    SextFitsWidth(z, w);
    if Fits(z, w) { SextFits(z, w); }
    hide Pow2, Sext, SignExtendWidth, Bitwise, Fits;
  }

  lemma TruncBounds(a: int, b: int, w: nat)
    requires 0 < w && Fits(a, w) && Fits(b, w) && b != 0
    ensures Fits(TruncRem(a, b), w)
  {
    assert Abs(a) % Abs(b) <= Abs(a) by { ModAtMost(Abs(a), Abs(b)); }
  }

  lemma ModAtMost(a: nat, b: nat)
    requires b > 0
    ensures a % b <= a
  {
    if a < b { DivModUnique(a, b, 0, a); }
  }

  lemma BinaryMeansSigned(op: Opcode, a: int, b: int, w: nat)
    requires IsWidth(w) && Fits(a, w) && Fits(b, w) && op in {DIV_S, REM_S}
    ensures FoldBinary(op, a, b, w) == EvalBinary(op, a, b, w)
  {
    hide Pow2, Sext, SignExtendWidth, Bitwise, TruncDiv, TruncRem;
    SextFits(a, w);
    SextFits(b, w);
    if b != 0 {
      SignExtendWrapMeans(TruncDiv(a, b), w);
      TruncBounds(a, b, w);
      FitsWider(TruncRem(a, b), w);
      SignExtendMeans(TruncRem(a, b), w);
    }
  }

  lemma DivFits(a: int, d: int, w: nat)
    requires w > 0 && Fits(a, w) && d >= 1
    ensures Fits(a / d, w)
  {
    var q := a / d;
    assert a == q * d + a % d;
    if q >= 0 { MulAtLeast(d, q); } else { MulAtLeast(d, -q - 1); assert (-q - 1) * d == -(q * d) - d; }
  }

  lemma BinaryMeansUnsigned(op: Opcode, a: int, b: int, w: nat)
    requires IsWidth(w) && op in {DIV_U, REM_U, SHR}
    ensures FoldBinary(op, a, b, w) == EvalBinary(op, a, b, w)
  {
    hide Pow2, Sext, SignExtendWidth, Unsigned, U64, Shr, Shl, RotL, RotR, Bitwise, TruncDiv, TruncRem;
    ShiftOfSext(b, w);
    ShiftMeans(b, w);
    MaskMeans(a, w);
    MaskMeans(b, w);
    var ua, ub := Unsigned(a, w), Unsigned(b, w);
    if ub != 0 {
      SignExtendWrapMeans(ua / ub, w);
      SignExtendWrapMeans(ua % ub, w);
    }
    SignExtendWrapMeans(Shr(ua, b % w), w);
  }

  // ---------------------------------------------------------------- rotations

  lemma MulMonotone(a: int, b: int, c: int)
    requires a <= b && c >= 0
    ensures a * c <= b * c
  {
  }

  lemma SplitBounds(u: int, d: int, e: int)
    requires d >= 1 && e >= 1 && 0 <= u < d * e
    ensures var hi, lo := u / d, u % d;
            && u == hi * d + lo && 0 <= hi < e && 0 <= lo < d
            && (u * e) % (d * e) == lo * e && 0 <= lo * e + hi < d * e
  {
    var hi, lo := u / d, u % d;
    assert u == hi * d + lo;
    if hi >= e { MulMonotone(e, hi, d); }
    if hi < 0 { MulMonotone(hi, -1, d); }
    ScaleMod(u, d, e);
    MulMonotone(lo, d - 1, e);
    MulMonotone(0, lo, e);
    assert (d - 1) * e == d * e - e;
  }

  /** An unsigned number split at position s: hi bits above, lo bits below. */
  lemma Split(u: nat, s: nat, w: nat)
    requires s <= w && u < Pow2(w)
    ensures var hi, lo := u / Pow2(w - s), u % Pow2(w - s);
            && u == hi * Pow2(w - s) + lo && 0 <= hi < Pow2(s) && 0 <= lo < Pow2(w - s)
            && RotL(u, s, w) == lo * Pow2(s) + hi && 0 <= lo * Pow2(s) + hi < Pow2(w)
  {
    Pow2Add(w - s, s);
    hide Pow2;
    SplitBounds(u, Pow2(w - s), Pow2(s));
  }

  /** Rotating right undoes rotating left by the same amount, and both stay within w bits. */
  lemma RotRUndoesRotL(u: nat, s: nat, w: nat)
    requires s <= w && u < Pow2(w)
    ensures 0 <= RotL(u, s, w) < Pow2(w) && RotR(RotL(u, s, w), s, w) == u
  {
    Split(u, s, w);
    var d, e := Pow2(w - s), Pow2(s);
    var hi, lo := u / d, u % d;
    Pow2Add(s, w - s);
    hide Pow2;
    var v := RotL(u, s, w);
    DivModUnique(v, e, lo, hi);
    ScaleMod(v, e, d);
  }

  /** The wrapped left shift, or-ed with bits below it, is a sum. */
  lemma WrappedShiftOr(u: nat, y: nat, s: nat)
    requires s <= 64 && y < Pow2(s)
    ensures Bitwise(BitOr, U64(Shl(u, s)), y) == U64(Shl(u, s)) + y
  {
    Pow2Add(64 - s, s);
    hide Pow2;
    ScaleMod(u, Pow2(64 - s), Pow2(s));
    OrDisjoint(u % Pow2(64 - s), y, s);
  }

  lemma HighBits(u: nat, s: nat, w: nat)
    requires s <= w && u < Pow2(w)
    ensures 0 <= Shr(u, w - s) < Pow2(s)
  {
    Split(u, s, w);
  }

  lemma NoRotation(u: nat, w: nat)
    requires u < Pow2(w)
    ensures RotL(u, 0, w) == u && RotR(u, 0, w) == u
  {
    assert Shl(u, 0) == u;
    assert Shr(u, 0) == u;
    ShiftOut(u, w);
    UnsignedFits(u, w);
    hide Shl, Shr, Unsigned;
  }

  lemma ShiftOut(u: nat, w: nat)
    requires u < Pow2(w)
    ensures Shr(u, w) == 0 && Unsigned(Shl(u, w), w) == 0
  {
    hide Pow2;
    DivModUnique(u, Pow2(w), 0, u);
    DivModUnique(u * Pow2(w), Pow2(w), u, 0);
  }

  lemma RotateLeftMeans(ua: nat, sh: nat, w: nat)
    requires 0 < w <= 64 && sh < w && ua < Pow2(w)
    ensures Sext(RotateLeft64(ua, sh, w), w) == Sext(RotL(ua, sh, w), w)
  {
    hide Pow2, Sext, Unsigned, U64, Bitwise, Shl, Shr;
    HighBits(ua, sh, w);
    if sh == 0 {
      NoRotation(ua, w);
    } else {
      WrappedShiftOr(ua, Shr(ua, w - sh), sh);
      SumMeans(Shl(ua, sh), Shr(ua, w - sh), w);
    }
  }

  lemma RotateRightMeans(ua: nat, sh: nat, w: nat)
    requires 0 < w <= 64 && sh < w && ua < Pow2(w)
    ensures Sext(RotateRight64(ua, sh, w), w) == Sext(RotR(ua, sh, w), w)
  {
    hide Pow2, Sext, Unsigned, U64, Bitwise, Shl, Shr;
    HighBits(ua, w - sh, w);
    assert w - (w - sh) == sh;
    if sh == 0 {
      NoRotation(ua, w);
    } else {
      OrCommutes(Shr(ua, sh), U64(Shl(ua, w - sh)));
      WrappedShiftOr(ua, Shr(ua, sh), w - sh);
      SumMeans(Shl(ua, w - sh), Shr(ua, sh), w);
    }
  }

  lemma {:induction false} OrCommutes(x: int, y: int)
    ensures Bitwise(BitOr, x, y) == Bitwise(BitOr, y, x)
    decreases Size(x) + Size(y)
  {
    if !(-1 <= x <= 0 && -1 <= y <= 0) { OrCommutes(x / 2, y / 2); }
  }

  lemma UnsignedSum(x: int, y: int, w: nat)
    requires w > 0
    ensures Sext(Unsigned(x, w) + y, w) == Sext(x + y, w)
  {
    var q := x / Pow2(w);
    hide Pow2;
    assert x == q * Pow2(w) + Unsigned(x, w);
    SextCongruent(x + y, Unsigned(x, w) + y, w, q);
  }

  /** At w bits it does not matter whether the high summand wrapped at 64 or at w bits. */
  lemma SumMeans(x: int, y: int, w: nat)
    requires 0 < w <= 64
    ensures Sext(U64(x) + y, w) == Sext(Unsigned(x, w) + y, w)
  {
    hide Pow2, Sext, Unsigned;
    UnsignedSum(x, y, w);
    UnsignedSum(x, y, 64);
    NarrowAfterWide(U64(x) + y, w);
    NarrowAfterWide(x + y, w);
  }

  lemma BinaryMeansRotate(op: Opcode, a: int, b: int, w: nat)
    requires IsWidth(w) && op in {ROTL, ROTR}
    ensures FoldBinary(op, a, b, w) == EvalBinary(op, a, b, w)
  {
    hide Pow2, Sext, SignExtendWidth, RotateLeft64, RotateRight64, RotL, RotR, Bitwise;
    ShiftOfSext(b, w);
    ShiftMeans(b, w);
    MaskMeans(a, w);
    var ua, sh := Unsigned(a, w), b % w;
    RotateLeftMeans(ua, sh, w);
    RotateRightMeans(ua, sh, w);
    SignExtendWrapMeans(RotateLeft64(ua, sh, w), w);
    SignExtendWrapMeans(RotateRight64(ua, sh, w), w);
  }

  // ---------------------------------------------------------------- main results

  /**
   * For any int64 operands the fold is the w-bit operation of their low w bits; the bitwise operations are exactly
   * when their result is a w-bit number, and signed division and remainder are left to the next lemma.
   */
  lemma FoldBinaryOfInt64(op: Opcode, a: int, b: int, w: nat)
    requires IsWidth(w) && Fits(a, 64) && Fits(b, 64) && op != DIV_S && op != REM_S
    ensures FoldBinary(op, a, b, w) == EvalBinary(op, a, b, w) <==>
              (op in {AND, OR, XOR} ==> Fits(FoldBinary(op, a, b, w).value, w))
  {
    hide Pow2, Sext, Fits, FoldBinary, EvalBinary;
    if op in {ADD, SUB, MUL, SHL} { BinaryMeansArith(op, a, b, w); }
    if op in {AND, OR, XOR} { BinaryMeansBitwise(op, a, b, w); }
    if op in {DIV_U, REM_U, SHR} { BinaryMeansUnsigned(op, a, b, w); }
    if op in {ROTL, ROTR} { BinaryMeansRotate(op, a, b, w); }
    if op == SAR { BinaryMeansSar(a, b, w); }
    if !IsIntBinary(op) { OthersRefused(op, a, b, w); }
  }

  lemma OthersRefused(op: Opcode, a: int, b: int, w: nat)
    requires w > 0 && !IsIntBinary(op)
    ensures FoldBinary(op, a, b, w) == None && EvalBinary(op, a, b, w) == None
  {
  }

  lemma BitwiseFoldFits(op: Opcode, a: int, b: int, w: nat)
    requires IsWidth(w) && Fits(a, w) && Fits(b, w) && op in {AND, OR, XOR}
    ensures FoldBinary(op, a, b, w).Some? && Fits(FoldBinary(op, a, b, w).value, w)
  {
    hide Pow2, Fits, Bitwise;
    BitwiseFits(if op == AND then BitAnd else if op == OR then BitOr else BitXor, a, b, w);
  }

  /** On w-bit operands the fold is the w-bit operation, and it is refused exactly where that traps. */
  lemma FoldBinaryIsTwosComplement(op: Opcode, a: int, b: int, w: nat)
    requires IsWidth(w) && Fits(a, w) && Fits(b, w)
    ensures FoldBinary(op, a, b, w) == EvalBinary(op, a, b, w)
  {
    hide Pow2, Sext, Fits, FoldBinary, EvalBinary, Bitwise;
    if op in {DIV_S, REM_S} {
      BinaryMeansSigned(op, a, b, w);
    } else {
      FitsWider(a, w);
      FitsWider(b, w);
      FoldBinaryOfInt64(op, a, b, w);
      if op in {AND, OR, XOR} { BitwiseFoldFits(op, a, b, w); }
    }
  }

  /** The compare fold needs no condition on its operands. */
  lemma FoldCmpIsTwosComplement(op: Opcode, a: int, b: int, w: nat)
    requires IsWidth(w) && Fits(a, 64) && Fits(b, 64)
    ensures FoldCmp(op, a, b, w) == EvalCmp(op, a, b, w)
  {
    hide Pow2, Sext, SignExtendWidth;
    SignExtendMeans(a, w);
    SignExtendMeans(b, w);
    MaskMeans(a, w);
    MaskMeans(b, w);
  }

  lemma SextFitsWidth(x: int, w: nat)
    requires w > 0
    ensures Fits(Sext(x, w), w)
  {
  }

  lemma ShrFits(x: int, s: nat, w: nat)
    requires w > 0 && Fits(x, w)
    ensures Fits(Shr(x, s), w)
  {
    DivFits(x, Pow2(s), w);
  }

  lemma FlagFits(c: bool, w: nat)
    requires IsWidth(w)
    ensures Fits(Flag(c), w)
  {
    Pow2Monotone(1, w - 1);
  }

  /** Results are sign-extended to the width again. */
  lemma BinaryFits(op: Opcode, a: int, b: int, w: nat)
    requires IsWidth(w)
    ensures EvalBinary(op, a, b, w).Some? ==> Fits(EvalBinary(op, a, b, w).value, w)
  {
    hide Pow2, Fits, Sext, Unsigned, Bitwise, Shl, Shr, RotL, RotR, TruncDiv, TruncRem;
    var x, y, ux, uy := Sext(a, w), Sext(b, w), Unsigned(a, w), Unsigned(b, w);
    var s := y % w;
    SextFitsWidth(a, w);
    SextFitsWidth(b, w);
    match op
    case ADD => SextFitsWidth(x + y, w);
    case SUB => SextFitsWidth(x - y, w);
    case MUL => SextFitsWidth(x * y, w);
    case DIV_S => if y != 0 { SextFitsWidth(TruncDiv(x, y), w); }
    case DIV_U => if uy != 0 { SextFitsWidth(ux / uy, w); }
    case REM_S => if y != 0 { SextFitsWidth(TruncRem(x, y), w); }
    case REM_U => if uy != 0 { SextFitsWidth(ux % uy, w); }
    case AND => BitwiseFits(BitAnd, x, y, w);
    case OR => BitwiseFits(BitOr, x, y, w);
    case XOR => BitwiseFits(BitXor, x, y, w);
    case SHL => SextFitsWidth(Shl(x, s), w);
    case SHR => SextFitsWidth(Shr(ux, s), w);
    case SAR => ShrFits(x, s, w);
    case ROTL => SextFitsWidth(RotL(ux, s, w), w);
    case ROTR => SextFitsWidth(RotR(ux, s, w), w);
    case _ =>
  }

  lemma UnaryFits(op: Opcode, a: int, w: nat)
    requires IsWidth(w)
    ensures EvalUnary(op, a, w).Some? ==> Fits(EvalUnary(op, a, w).value, w)
  {
  }

  lemma CmpFits(op: Opcode, a: int, b: int, w: nat, v: nat)
    requires IsWidth(w) && v > 0
    ensures EvalCmp(op, a, b, v).Some? ==> Fits(EvalCmp(op, a, b, v).value, w)
  {
    hide Pow2, Fits, Sext, Unsigned;
    FlagFits(true, w);
    FlagFits(false, w);
  }

  /** Folding a left rotation and then a right one by the same amount gives the operand back. */
  lemma FoldRotrUndoesRotl(a: int, b: int, w: nat)
    requires IsWidth(w) && Fits(a, w) && Fits(b, 64)
    ensures FoldBinary(ROTL, a, b, w).Some?
    ensures FoldBinary(ROTR, FoldBinary(ROTL, a, b, w).value, b, w) == Some(a)
  {
    var u, s := Unsigned(a, w), Sext(b, w) % w;
    RotRUndoesRotL(u, s, w);
    var v := RotL(u, s, w);
    var r := Sext(v, w);
    EvalRotations(a, b, w);
    EvalRotations(r, b, w);
    hide Pow2, FoldBinary, EvalBinary, RotL, RotR, Sext, Unsigned;
    BinaryMeansRotate(ROTL, a, b, w);
    BinaryMeansRotate(ROTR, r, b, w);
    SextUnsigned(v, w);
    UnsignedFits(v, w);
    SextUnsigned(a, w);
    SextFits(a, w);
  }

  lemma EvalRotations(a: int, b: int, w: nat)
    requires w > 0
    ensures EvalBinary(ROTL, a, b, w) == Some(Sext(RotL(Unsigned(a, w), Sext(b, w) % w, w), w))
    ensures EvalBinary(ROTR, a, b, w) == Some(Sext(RotR(Unsigned(a, w), Sext(b, w) % w, w), w))
  {
  }

  lemma UnsignedFits(v: int, w: nat)
    requires 0 <= v < Pow2(w)
    ensures Unsigned(v, w) == v
  {
    DivModUnique(v, Pow2(w), 0, v);
  }

  /** Signed division needs sign-extended operands: 200 is -56 at 8 bits, and the fold halves 200. */
  lemma FoldNeedsSignExtendedOperands()
    ensures FoldBinary(DIV_S, 200, 2, 8) == Some(100)
    ensures EvalBinary(DIV_S, 200, 2, 8) == Some(-28)
  {
    hide Pow2, SignExtendWidth, Sext, Unsigned, U64, MaskToWidth, ShiftAmount, Bitwise, Shl, Shr, RotL, RotR;
    SextAt8(100);
    SextAt8(200);
    SextAt8(2);
    SextAt8(-28);
    SignExtendWrapMeans(100, 8);
  }

  lemma SextAt8(x: int)
    ensures Sext(x, 8) == (x + 128) % 256 - 128
  {
    assert Pow2(7) == 128 && Pow2(8) == 256;
  }
}
