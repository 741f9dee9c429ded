/** The value of the hash of src/nylink/nylink_layout.c: what one step computes, its range, and short names. */
module HashValue {
  import opened IntFold
  import opened Bytes
  import opened HashTable

  const LIMIT := 0x1000_0000

  // ---------------------------------------------------------------- splitting a number into high and low bits

  lemma BitwiseUnfolds(op: BitOp, x: int, y: int)
    ensures Bitwise(op, x, y) == 2 * Bitwise(op, x / 2, y / 2) + if Combine(op, x % 2 == 1, y % 2 == 1) then 1 else 0
  {
  }

  lemma SplitStep(op: BitOp, high: int, high': int, r: nat, s: nat, z: int)
    requires Bitwise(op, high + r / 2, high' + s / 2) == z + Bitwise(op, r / 2, s / 2)
    ensures Bitwise(op, 2 * high + r, 2 * high' + s) == 2 * z + Bitwise(op, r, s)
  {
    hide Bitwise, Combine;
    BitwiseUnfolds(op, 2 * high + r, 2 * high' + s);
    BitwiseUnfolds(op, r, s);
    assert (2 * high + r) / 2 == high + r / 2 && (2 * high' + s) / 2 == high' + s / 2;
    assert (2 * high + r) % 2 == r % 2 && (2 * high' + s) % 2 == s % 2;
  }

  /** a, with k zero bits below it. */
  function Raised(a: int, k: nat): int {
    a * Pow2(k)
  }

  lemma RaisedTwice(a: int, k: nat)
    requires k > 0
    ensures Raised(a, k) == 2 * Raised(a, k - 1)
  {
    var h := Pow2(k - 1);
    assert a * (2 * h) == 2 * (a * h);
  }

  /** Bitwise operations work on the high and on the low bits by themselves. */
  lemma {:induction false} SplitBits(op: BitOp, a: int, r: nat, b: int, s: nat, k: nat)
    requires r < Pow2(k) && s < Pow2(k)
    ensures Bitwise(op, Raised(a, k) + r, Raised(b, k) + s) == Raised(Bitwise(op, a, b), k) + Bitwise(op, r, s)
    decreases k
  {
    if k > 0 {
      assert Pow2(k) == 2 * Pow2(k - 1);
      hide Bitwise, Pow2, Raised;
      SplitBits(op, a, r / 2, b, s / 2, k - 1);
      RaisedTwice(a, k);
      RaisedTwice(b, k);
      RaisedTwice(Bitwise(op, a, b), k);
      SplitStep(op, Raised(a, k - 1), Raised(b, k - 1), r, s, Raised(Bitwise(op, a, b), k - 1));
    }
  }

  lemma {:induction false} BitwiseOfNats(op: BitOp, x: nat, y: nat)
    ensures Bitwise(op, x, y) >= 0
    decreases x + y
  {
    BitwiseUnfolds(op, x, y);
    if x + y > 0 { BitwiseOfNats(op, x / 2, y / 2); }
  }

  /** No bit is in a number and in its complement. */
  lemma {:induction false} AndComplement(x: int)
    requires x >= 0
    ensures Bitwise(BitAnd, x, -x - 1) == 0
    decreases x
  {
    BitwiseUnfolds(BitAnd, x, -x - 1);
    if x > 0 {
      assert (-x - 1) / 2 == -(x / 2) - 1 && (x % 2 == 1 <==> (-x - 1) % 2 == 0);
      AndComplement(x / 2);
    }
  }

  lemma {:induction false} XorZero(x: nat)
    ensures Bitwise(BitXor, x, 0) == x
    decreases x
  {
    if x > 0 { XorZero(x / 2); }
  }

  lemma SmallPowers()
    ensures Pow2(8) == 0x100 && Pow2(28) == LIMIT && Pow2(4) == 16
  {
    assert Pow2(4) == 16;
    hide Pow2;
    Pow2Add(4, 4);
    Pow2Add(8, 8);
    Pow2Add(8, 4);
    Pow2Add(16, 12);
  }

  // ---------------------------------------------------------------- one step

  /** What is shifted out at the top comes back 24 bits lower. */
  function Folded(h: int, c: byte): int {
    var shifted := (16 * h + c) % U32_LIMIT;
    Bitwise(BitXor, shifted % LIMIT, 16 * (shifted / LIMIT))
  }

  /** Clearing the top four bits of a 32-bit number. */
  lemma ClearTop(t: int, r: nat)
    requires t >= 0 && r < LIMIT
    ensures Bitwise(BitAnd, t * LIMIT + r, -(t * LIMIT) - 1) == r
  {
    SmallPowers();
    hide Pow2, Bitwise;
    SplitBits(BitAnd, t, r, -t - 1, LIMIT - 1, 28);
    AndComplement(t);
    MaskIsMod(r, 28);
  }

  /** The two branches of a step, for the shifted number t * 2^28 + r. */
  lemma TopFolds(t: nat, r: nat)
    requires t < 16 && r < LIMIT
    ensures var x := t * LIMIT + r;
            && Bitwise(BitXor, x, 16 * t) == t * LIMIT + Bitwise(BitXor, r, 16 * t)
            && 0 <= Bitwise(BitXor, r, 16 * t) < LIMIT
            && Bitwise(BitAnd, t * LIMIT + Bitwise(BitXor, r, 16 * t), -(t * LIMIT) - 1) == Bitwise(BitXor, r, 16 * t)
            && (t == 0 ==> Bitwise(BitXor, r, 16 * t) == r)
  {
    SmallPowers();
    hide Pow2, Bitwise;
    SplitBits(BitXor, t, r, 0, 16 * t, 28);
    XorZero(t);
    BitwiseOfNats(BitXor, r, 16 * t);
    XorBelow(r, 16 * t);
    ClearTop(t, Bitwise(BitXor, r, 16 * t));
    if t == 0 { XorZero(r); }
  }

  lemma StepMeans(h: int, c: byte)
    ensures HashStep(h, c) == Folded(h, c)
    ensures 0 <= Folded(h, c) < LIMIT
  {
    hide Bitwise;
    var x := (h * 16 + c) % U32_LIMIT;
    var t, r := x / LIMIT, x % LIMIT;
    TopFolds(t, r);
    assert TopNibble(x) == t * LIMIT && t * LIMIT / 0x100_0000 == 16 * t;
  }

  lemma XorBelow(x: nat, y: nat)
    requires x < LIMIT && y < LIMIT
    ensures Bitwise(BitXor, x, y) < LIMIT
  {
    SmallPowers();
    hide Pow2, Bitwise;
    BitwiseFits(BitXor, x, y, 29);
  }

  // ---------------------------------------------------------------- names

  /** The name read as a number in base 16, its bytes as digits. */
  function Sum(name: Name): nat {
    if name == [] then 0 else 16 * Sum(name[..|name| - 1]) + name[|name| - 1]
  }

  /** The hash has 28 bits, and of a name whose digits do not reach further it is their number. */
  lemma {:induction false} HashMeans(name: Name)
    ensures 0 <= HashOf(name) < LIMIT
    ensures Sum(name) < LIMIT ==> HashOf(name) == Sum(name)
    ensures name != [] ==> HashOf(name) == Folded(HashOf(name[..|name| - 1]), name[|name| - 1])
  {
    hide HashStep, Folded;
    if name != [] {
      var head, last := name[..|name| - 1], name[|name| - 1];
      HashMeans(head);
      StepMeans(HashOf(head), last);
      if Sum(name) < LIMIT { NothingFolded(HashOf(head), last); }
    }
  }

  lemma NothingFolded(h: nat, c: byte)
    requires 16 * h + c < LIMIT
    ensures Folded(h, c) == 16 * h + c
  {
    var x := 16 * h + c;
    assert x % U32_LIMIT == x && x % LIMIT == x && x / LIMIT == 0;
    hide Bitwise;
    XorZero(x);
  }

  /** "syscall", whose digits reach further. */
  const LONG_NAME: Name := [0x73, 0x79, 0x73, 0x63, 0x61, 0x6C, 0x6C]

  lemma LongPrefix()
    ensures LONG_NAME[..6] == [0x73, 0x79, 0x73, 0x63, 0x61, 0x6C] && Sum(LONG_NAME[..6]) == 0x7B0_997C
  {
    var p := LONG_NAME;
    assert p[..6][..5] == p[..5] && p[..5][..4] == p[..4] && p[..4][..3] == p[..3] && p[..3][..2] == p[..2]
           && p[..2][..1] == p[..1] && p[..1][..0] == p[..0];
    assert Sum(p[..1]) == 0x73;
    assert Sum(p[..2]) == 0x7A9;
    assert Sum(p[..3]) == 0x7B03;
    assert Sum(p[..4]) == 0x7_B093;
    assert Sum(p[..5]) == 0x7B_0991;
  }

  lemma LowXor()
    ensures Bitwise(BitXor, 0x2C, 0x70) == 0x5C
  {
    assert Bitwise(BitXor, 0x2, 0x7) == 0x5;
    SmallPowers();
    hide Pow2, Bitwise;
    SplitBits(BitXor, 0x2, 0xC, 0x7, 0, 4);
    XorZero(0xC);
  }

  lemma LongXor()
    ensures Bitwise(BitXor, 0xB09_982C, 0x70) == 0xB09_985C
  {
    SmallPowers();
    hide Pow2, Bitwise;
    LowXor();
    SplitBits(BitXor, 0xB_0998, 0x2C, 0, 0x70, 8);
    XorZero(0xB_0998);
  }

  lemma LongHash()
    ensures HashOf(LONG_NAME) == 0xB09_985C
  {
    hide Bitwise, HashOf, Sum;
    LongPrefix();
    HashMeans(LONG_NAME[..6]);
    HashMeans(LONG_NAME);
    LongXor();
  }
}
