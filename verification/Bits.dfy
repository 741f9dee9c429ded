/** The bit rows of src/analysis/liveness.c: one row of 64-bit words per block, one bit per value. */
module Bits {
  import opened IntFold

  predicate IsWord(x: int) {
    0 <= x < Pow2(64)
  }

  function Or(x: int, y: int): int {
    Bitwise(BitOr, x, y)
  }

  /** x & ~y */
  function AndNot(x: int, y: int): int {
    Bitwise(BitAnd, x, -y - 1)
  }

  lemma {:induction false} NotBit(y: int, k: nat)
    ensures Bit(-y - 1, k) == !Bit(y, k)
    decreases k
  {
    if k > 0 {
      NotBit(y / 2, k - 1);
      assert (-y - 1) / 2 == -(y / 2) - 1;
    }
  }

  lemma {:induction false} OneBit(s: nat, k: nat)
    ensures Bit(Pow2(s), k) == (k == s)
    decreases s
  {
    if s > 0 {
      assert Pow2(s) == 2 * Pow2(s - 1);
      if k > 0 { OneBit(s - 1, k - 1); }
    } else if k > 0 {
      ZeroBit(k - 1);
    }
  }

  lemma {:induction false} ZeroBit(k: nat)
    ensures !Bit(0, k)
    decreases k
  {
    if k > 0 { ZeroBit(k - 1); }
  }

  lemma {:induction false} BitwiseSign(op: BitOp, x: int, y: int)
    ensures Bitwise(op, x, y) < 0 <==> Combine(op, x < 0, y < 0)
    decreases Size(x) + Size(y)
  {
    if !(-1 <= x <= 0 && -1 <= y <= 0) { BitwiseSign(op, x / 2, y / 2); }
  }

  lemma WordFits(x: int)
    ensures IsWord(x) <==> 0 <= x && Fits(x, 65)
  {
    hide Pow2;
  }

  lemma OrWord(x: int, y: int)
    requires IsWord(x) && IsWord(y)
    ensures IsWord(Or(x, y))
  {
    WordFits(x);
    WordFits(y);
    WordFits(Or(x, y));
    BitwiseSign(BitOr, x, y);
    BitwiseFits(BitOr, x, y, 65);
  }

  lemma AndNotWord(x: int, y: int)
    requires IsWord(x) && IsWord(y)
    ensures IsWord(AndNot(x, y))
  {
    WordFits(x);
    WordFits(y);
    WordFits(AndNot(x, y));
    BitwiseSign(BitAnd, x, -y - 1);
    assert Fits(-y - 1, 65) by { hide Pow2; }
    BitwiseFits(BitAnd, x, -y - 1, 65);
  }

  lemma PowerWord(s: nat)
    requires s < 64
    ensures IsWord(Pow2(s))
  {
    Pow2Monotone(s, 63);
    assert Pow2(64) == 2 * Pow2(63);
    hide Pow2;
  }

  /** Words with the same 64 bits are equal. */
  lemma WordsDetermined(x: int, y: int)
    requires IsWord(x) && IsWord(y) && forall k :: 0 <= k < 64 ==> Bit(x, k) == Bit(y, k)
    ensures x == y
  {
    WordFits(x);
    WordFits(y);
    HighBitClear(x);
    HighBitClear(y);
    BitsDetermine(x, y, 65);
  }

  lemma HighBitClear(x: int)
    requires IsWord(x)
    ensures !Bit(x, 64)
  {
    TopBit(x, 64);
  }

  lemma {:induction false} TopBit(x: int, k: nat)
    requires 0 <= x < Pow2(k)
    ensures !Bit(x, k)
    decreases k
  {
    if k > 0 {
      assert Pow2(k) == 2 * Pow2(k - 1);
      TopBit(x / 2, k - 1);
    }
  }

  // ---------------------------------------------------------------- rows

  function Cell(words: nat, b: nat, w: nat): nat {
    b * words + w
  }

  lemma Scaled(x: nat, y: nat, m: nat)
    requires x <= y
    ensures x * m <= y * m
  {
  }

  lemma CellInRange(words: nat, n: nat, b: nat, w: nat)
    requires b < n && w < words
    ensures Cell(words, b, w) < n * words
  {
    assert (b + 1) * words <= n * words;
  }

  lemma CellInjective(words: nat, b: nat, w: nat, c: nat, u: nat)
    requires w < words && u < words && Cell(words, b, w) == Cell(words, c, u)
    ensures b == c && w == u
  {
    if b < c { Scaled(b + 1, c, words); }
    if c < b { Scaled(c + 1, b, words); }
  }

  ghost predicate RowsOk(bits: seq<int>, words: nat, n: nat) {
    |bits| == n * words && forall c :: 0 <= c < |bits| ==> IsWord(bits[c])
  }

  /** bitset_test. */
  predicate Test(bits: seq<int>, words: nat, b: nat, v: nat) {
    Cell(words, b, v / 64) < |bits| && Bit(bits[Cell(words, b, v / 64)], v % 64)
  }

  /** Row b as a set. */
  ghost function Row(bits: seq<int>, words: nat, b: nat): (s: set<nat>) {
    set v: nat | v < 64 * words && Test(bits, words, b, v)
  }

  ghost function Rows(bits: seq<int>, words: nat, n: nat): (r: seq<set<nat>>)
    ensures |r| == n && forall b :: 0 <= b < n ==> r[b] == Row(bits, words, b)
  {
    seq(n, b requires 0 <= b < n => Row(bits, words, b))
  }

  lemma EmptyRow(bits: seq<int>, words: nat, b: nat)
    requires forall c :: 0 <= c < |bits| ==> bits[c] == 0
    ensures Row(bits, words, b) == {}
  {
    forall v: nat ensures !Test(bits, words, b, v) {
      ZeroBit(v % 64);
    }
  }

  lemma RowMember(bits: seq<int>, words: nat, b: nat, v: nat)
    requires v < 64 * words
    ensures v in Row(bits, words, b) <==> Test(bits, words, b, v)
  {
  }

  /** Replacing one word changes 64 values of one row. */
  lemma WordUpdate(bits: seq<int>, words: nat, n: nat, b: nat, w: nat, x: int, c: nat, v: nat)
    requires RowsOk(bits, words, n) && b < n && w < words && c < n && v < 64 * words
    ensures Cell(words, b, w) < |bits|
    ensures Test(bits[Cell(words, b, w) := x], words, c, v) <==>
              if c == b && v / 64 == w then Bit(x, v % 64) else Test(bits, words, c, v)
  {
    CellInRange(words, n, b, w);
    CellInRange(words, n, c, v / 64);
    if Cell(words, c, v / 64) == Cell(words, b, w) { CellInjective(words, b, w, c, v / 64); }
    hide Cell, Bit;
  }

  /** bitset_set. */
  method SetBit(bits: array<int>, words: nat, n: nat, b: nat, v: nat)
    requires RowsOk(bits[..], words, n) && b < n && v < 64 * words
    modifies bits
    ensures RowsOk(bits[..], words, n)
    ensures Rows(bits[..], words, n) == Rows(old(bits[..]), words, n)[b := Rows(old(bits[..]), words, n)[b] + {v}]
  {
    CellInRange(words, n, b, v / 64);
    var at := Cell(words, b, v / 64);
    ghost var was := bits[..];
    var x := Or(bits[at], Pow2(v % 64));
    PowerWord(v % 64);
    OrWord(bits[at], Pow2(v % 64));
    SetRows(was, words, n, b, v);
    hide Cell, Or, IsWord, Pow2;
    bits[at] := x;
    assert bits[..] == was[at := x];
  }

  lemma SetRows(bits: seq<int>, words: nat, n: nat, b: nat, v: nat)
    requires RowsOk(bits, words, n) && b < n && v < 64 * words
    ensures Cell(words, b, v / 64) < |bits|
    ensures Rows(bits[Cell(words, b, v / 64) := Or(bits[Cell(words, b, v / 64)], Pow2(v % 64))], words, n) ==
            Rows(bits, words, n)[b := Row(bits, words, b) + {v}]
  {
    CellInRange(words, n, b, v / 64);
    var at := Cell(words, b, v / 64);
    var x := Or(bits[at], Pow2(v % 64));
    var bits' := bits[at := x];
    forall c: nat, u: nat | c < n && u < 64 * words
      ensures Test(bits', words, c, u) <==> Test(bits, words, c, u) || (c == b && u == v)
    {
      WordUpdate(bits, words, n, b, v / 64, x, c, u);
      BitwiseBit(BitOr, bits[at], Pow2(v % 64), u % 64);
      OneBit(v % 64, u % 64);
    }
    hide Test;
    assert Row(bits', words, b) == Row(bits, words, b) + {v};
    forall c: nat | c < n && c != b ensures Row(bits', words, c) == Row(bits, words, c) {}
  }

  // ---------------------------------------------------------------- word loops

  /** The first k words of row b hold the set s. */
  ghost predicate WordsAre(bits: seq<int>, words: nat, b: nat, k: nat, s: set<nat>) {
    forall v: nat :: v < 64 * k ==> (Test(bits, words, b, v) <==> v in s)
  }

  /** A word loop over row b has done k words: they hold s, and nothing else has changed. */
  ghost predicate RowDone(was: seq<int>, bits: seq<int>, words: nat, n: nat, b: nat, k: nat, s: set<nat>) {
    && RowsOk(bits, words, n) && |was| == |bits| && b < n && k <= words && WordsAre(bits, words, b, k, s)
    && (forall c: nat :: c < |bits| && !(Cell(words, b, 0) <= c < Cell(words, b, 0) + k) ==> bits[c] == was[c])
  }

  lemma RowStart(bits: seq<int>, words: nat, n: nat, b: nat, s: set<nat>)
    requires RowsOk(bits, words, n) && b < n
    ensures RowDone(bits, bits, words, n, b, 0, s)
  {
  }

  lemma RowStep(was: seq<int>, bits: seq<int>, words: nat, n: nat, b: nat, k: nat, s: set<nat>, x: int)
    requires RowDone(was, bits, words, n, b, k, s) && k < words && IsWord(x)
    requires forall j: nat :: j < 64 ==> (Bit(x, j) <==> 64 * k + j in s)
    ensures Cell(words, b, k) < |bits| && bits[Cell(words, b, k)] == was[Cell(words, b, k)]
    ensures RowDone(was, bits[Cell(words, b, k) := x], words, n, b, k + 1, s)
  {
    CellInRange(words, n, b, k);
    assert Cell(words, b, k) == Cell(words, b, 0) + k;
    var bits' := bits[Cell(words, b, k) := x];
    forall v: nat | v < 64 * (k + 1) ensures Test(bits', words, b, v) <==> v in s {
      WordUpdate(bits, words, n, b, k, x, b, v);
      if v / 64 == k { assert v == 64 * k + v % 64; }
    }
    hide Bit, IsWord, Test;
  }

  lemma RowCell(was: seq<int>, bits: seq<int>, words: nat, n: nat, b: nat, k: nat, s: set<nat>)
    requires RowDone(was, bits, words, n, b, k, s) && k < words
    ensures Cell(words, b, k) < |bits| && bits[Cell(words, b, k)] == was[Cell(words, b, k)]
  {
    CellInRange(words, n, b, k);
  }

  lemma RowEnd(was: seq<int>, bits: seq<int>, words: nat, n: nat, b: nat, s: set<nat>)
    requires RowDone(was, bits, words, n, b, words, s) && forall v :: v in s ==> v < 64 * words
    ensures Rows(bits, words, n) == Rows(was, words, n)[b := s]
  {
    assert Row(bits, words, b) == s;
    forall c: nat | c < n && c != b ensures Row(bits, words, c) == Row(was, words, c) {
      forall v: nat | v < 64 * words ensures Test(bits, words, c, v) <==> Test(was, words, c, v) {
        CellInRange(words, n, c, v / 64);
        OtherRow(words, b, c, v / 64);
      }
    }
  }

  lemma OtherRow(words: nat, b: nat, c: nat, u: nat)
    requires b != c && u < words
    ensures !(Cell(words, b, 0) <= Cell(words, c, u) < Cell(words, b, 0) + words)
  {
    if b < c { Scaled(b + 1, c, words); } else { Scaled(c + 1, b, words); }
  }

  lemma RowBit(bits: seq<int>, words: nat, n: nat, b: nat, k: nat, j: nat)
    requires RowsOk(bits, words, n) && b < n && k < words && j < 64
    ensures Cell(words, b, k) < |bits| && IsWord(bits[Cell(words, b, k)])
    ensures Bit(bits[Cell(words, b, k)], j) <==> 64 * k + j in Row(bits, words, b)
  {
    CellInRange(words, n, b, k);
    assert (64 * k + j) / 64 == k && (64 * k + j) % 64 == j;
  }

  /** cur |= src & ~mask, for row s of src and mask. */
  method MergeRow(cur: array<int>, src: array<int>, mask: array<int>, words: nat, n: nat, s: nat)
    requires RowsOk(cur[..], words, 1) && RowsOk(src[..], words, n) && RowsOk(mask[..], words, n) && s < n
    requires cur != src && cur != mask
    modifies cur
    ensures RowsOk(cur[..], words, 1)
    ensures Row(cur[..], words, 0) == Row(old(cur[..]), words, 0) + (Row(src[..], words, s) - Row(mask[..], words, s))
  {
    ghost var was := cur[..];
    ghost var goal := Row(was, words, 0) + (Row(src[..], words, s) - Row(mask[..], words, s));
    hide RowsOk, RowDone, IsWord, Row, Cell, Bitwise, Pow2;
    RowStart(was, words, 1, 0, goal);
    var w := 0;
    while w < words
      invariant 0 <= w <= words && RowDone(was, cur[..], words, 1, 0, w, goal)
    {
      MergeWord(was, cur[..], src[..], mask[..], words, n, s, w, goal);
      cur[Cell(words, 0, w)] := Or(cur[Cell(words, 0, w)], AndNot(src[Cell(words, s, w)], mask[Cell(words, s, w)]));
      w := w + 1;
    }
    RowBounds(was, words, 0);
    RowBounds(src[..], words, s);
    RowEnd(was, cur[..], words, 1, 0, goal);
    DoneOk(was, cur[..], words, 1, 0, goal);
  }

  lemma RowBounds(bits: seq<int>, words: nat, b: nat)
    ensures forall v :: v in Row(bits, words, b) ==> v < 64 * words
  {
  }

  lemma DoneOk(was: seq<int>, bits: seq<int>, words: nat, n: nat, b: nat, s: set<nat>)
    requires RowDone(was, bits, words, n, b, words, s) && Rows(bits, words, n) == Rows(was, words, n)[b := s]
    ensures RowsOk(bits, words, n) && Row(bits, words, b) == s
  {
    assert Rows(bits, words, n)[b] == s;
  }

  lemma MergeWord(was: seq<int>, cur: seq<int>, src: seq<int>, mask: seq<int>, words: nat, n: nat, s: nat, w: nat,
                  goal: set<nat>)
    requires RowsOk(was, words, 1) && RowsOk(src, words, n) && RowsOk(mask, words, n) && s < n && w < words
    requires RowDone(was, cur, words, 1, 0, w, goal)
    requires goal == Row(was, words, 0) + (Row(src, words, s) - Row(mask, words, s))
    ensures Cell(words, 0, w) < |cur| && Cell(words, s, w) < |src| && Cell(words, s, w) < |mask|
    ensures RowDone(was, cur[Cell(words, 0, w) := Or(cur[Cell(words, 0, w)],
                                                     AndNot(src[Cell(words, s, w)], mask[Cell(words, s, w)]))],
                    words, 1, 0, w + 1, goal)
  {
    RowCell(was, cur, words, 1, 0, w, goal);
    RowBit(was, words, 1, 0, w, 0);
    RowBit(src, words, n, s, w, 0);
    RowBit(mask, words, n, s, w, 0);
    var a, x, y := was[Cell(words, 0, w)], src[Cell(words, s, w)], mask[Cell(words, s, w)];
    var z := AndNot(x, y);
    AndNotWord(x, y);
    OrWord(a, z);
    forall j: nat | j < 64 ensures Bit(Or(a, z), j) <==> 64 * w + j in goal {
      RowBit(was, words, 1, 0, w, j);
      RowBit(src, words, n, s, w, j);
      RowBit(mask, words, n, s, w, j);
      OrAndNotBit(a, x, y, j);
    }
    hide RowDone, Row, Bit, IsWord, Bitwise, RowsOk;
    RowStep(was, cur, words, 1, 0, w, goal, Or(a, z));
  }

  lemma OrAndNotBit(a: int, x: int, y: int, j: nat)
    ensures Bit(Or(a, AndNot(x, y)), j) <==> Bit(a, j) || (Bit(x, j) && !Bit(y, j))
  {
    BitwiseBit(BitOr, a, AndNot(x, y), j);
    BitwiseBit(BitAnd, x, -y - 1, j);
    NotBit(y, j);
    hide Bitwise, Bit;
  }

  /** Row b of bits becomes the one row of cur. */
  method CopyRow(bits: array<int>, cur: array<int>, words: nat, n: nat, b: nat)
    requires RowsOk(bits[..], words, n) && RowsOk(cur[..], words, 1) && b < n && bits != cur
    modifies bits
    ensures RowsOk(bits[..], words, n)
            && Rows(bits[..], words, n) == Rows(old(bits[..]), words, n)[b := Row(cur[..], words, 0)]
  {
    ghost var was := bits[..];
    ghost var goal := Row(cur[..], words, 0);
    hide RowsOk, RowDone, IsWord, Row, Cell, Bitwise, Pow2;
    RowStart(was, words, n, b, goal);
    var w := 0;
    while w < words
      invariant 0 <= w <= words && RowDone(was, bits[..], words, n, b, w, goal)
    {
      CopyWord(was, bits[..], cur[..], words, n, b, w, goal);
      bits[Cell(words, b, w)] := cur[Cell(words, 0, w)];
      w := w + 1;
    }
    RowBounds(cur[..], words, 0);
    RowEnd(was, bits[..], words, n, b, goal);
    DoneOk(was, bits[..], words, n, b, goal);
  }

  lemma CopyWord(was: seq<int>, bits: seq<int>, cur: seq<int>, words: nat, n: nat, b: nat, w: nat, goal: set<nat>)
    requires RowsOk(cur, words, 1) && w < words && RowDone(was, bits, words, n, b, w, goal)
             && goal == Row(cur, words, 0)
    ensures Cell(words, b, w) < |bits| && Cell(words, 0, w) < |cur|
    ensures RowDone(was, bits[Cell(words, b, w) := cur[Cell(words, 0, w)]], words, n, b, w + 1, goal)
  {
    RowBit(cur, words, 1, 0, w, 0);
    forall j: nat | j < 64
      ensures Bit(cur[Cell(words, 0, w)], j) <==> 64 * w + j in goal
    {
      RowBit(cur, words, 1, 0, w, j);
    }
    hide RowDone, Row, Bit, IsWord, RowsOk;
    RowStep(was, bits, words, n, b, w, goal, cur[Cell(words, 0, w)]);
  }

  /** live_in[b] = gen[b] | (cur & ~kill[b]); changed tells whether a word differed. */
  method UpdateRow(bits: array<int>, gen: array<int>, kill: array<int>, cur: array<int>, words: nat, n: nat, b: nat)
    returns (changed: bool)
    requires RowsOk(bits[..], words, n) && RowsOk(gen[..], words, n) && RowsOk(kill[..], words, n)
             && RowsOk(cur[..], words, 1)
    requires b < n && bits != gen && bits != kill && bits != cur
    modifies bits
    ensures RowsOk(bits[..], words, n)
    ensures var s := Row(gen[..], words, b) + (Row(cur[..], words, 0) - Row(kill[..], words, b));
            && Rows(bits[..], words, n) == Rows(old(bits[..]), words, n)[b := s]
            && (changed <==> s != Row(old(bits[..]), words, b))
  {
    ghost var was := bits[..];
    ghost var goal := Row(gen[..], words, b) + (Row(cur[..], words, 0) - Row(kill[..], words, b));
    hide RowsOk, RowDone, IsWord, Row, Cell, Bitwise, Pow2;
    RowStart(was, words, n, b, goal);
    changed := false;
    var w := 0;
    while w < words
      invariant 0 <= w <= words && RowDone(was, bits[..], words, n, b, w, goal)
      invariant !changed <==> bits[..] == was
    {
      UpdateWord(was, bits[..], gen[..], kill[..], cur[..], words, n, b, w, goal);
      var at := Cell(words, b, w);
      var newIn := Or(gen[at], AndNot(cur[Cell(words, 0, w)], kill[at]));
      ghost var before := bits[..];
      if newIn != bits[at] {
        bits[at] := newIn;
        assert bits[..][at] != was[at];
        changed := true;
      }
      assert bits[..] == before[at := newIn];
      w := w + 1;
    }
    RowBounds(gen[..], words, b);
    RowBounds(cur[..], words, 0);
    RowEnd(was, bits[..], words, n, b, goal);
    DoneOk(was, bits[..], words, n, b, goal);
    RowUnchanged(was, bits[..], words, n, b, goal);
  }

  /** A row that holds the same set holds the same words. */
  lemma RowUnchanged(was: seq<int>, bits: seq<int>, words: nat, n: nat, b: nat, s: set<nat>)
    requires RowsOk(was, words, n) && RowDone(was, bits, words, n, b, words, s) && forall v :: v in s ==> v < 64 * words
    ensures bits == was <==> s == Row(was, words, b)
  {
    assert Row(bits, words, b) == s;
    if s == Row(was, words, b) {
      forall c: nat | c < |bits| ensures bits[c] == was[c] {
        if Cell(words, b, 0) <= c < Cell(words, b, 0) + words {
          var w := c - Cell(words, b, 0);
          assert c == Cell(words, b, w);
          forall j: nat | j < 64 ensures Bit(bits[c], j) == Bit(was[c], j) {
            RowBit(bits, words, n, b, w, j);
            RowBit(was, words, n, b, w, j);
          }
          WordsDetermined(bits[c], was[c]);
        }
      }
    }
  }

  lemma UpdateWord(was: seq<int>, bits: seq<int>, gen: seq<int>, kill: seq<int>, cur: seq<int>, words: nat, n: nat,
                   b: nat, w: nat, goal: set<nat>)
    requires RowsOk(gen, words, n) && RowsOk(kill, words, n) && RowsOk(cur, words, 1) && b < n && w < words
    requires RowDone(was, bits, words, n, b, w, goal)
    requires goal == Row(gen, words, b) + (Row(cur, words, 0) - Row(kill, words, b))
    ensures Cell(words, b, w) < |bits| && |gen| == |bits| && |kill| == |bits| && |was| == |bits|
            && Cell(words, 0, w) < |cur|
    ensures bits[Cell(words, b, w)] == was[Cell(words, b, w)]
    ensures RowDone(was, bits[Cell(words, b, w) := Or(gen[Cell(words, b, w)],
                                                      AndNot(cur[Cell(words, 0, w)], kill[Cell(words, b, w)]))],
                    words, n, b, w + 1, goal)
  {
    RowCell(was, bits, words, n, b, w, goal);
    RowBit(gen, words, n, b, w, 0);
    RowBit(kill, words, n, b, w, 0);
    RowBit(cur, words, 1, 0, w, 0);
    var a, x, y := gen[Cell(words, b, w)], cur[Cell(words, 0, w)], kill[Cell(words, b, w)];
    AndNotWord(x, y);
    OrWord(a, AndNot(x, y));
    forall j: nat | j < 64 ensures Bit(Or(a, AndNot(x, y)), j) <==> 64 * w + j in goal {
      RowBit(gen, words, n, b, w, j);
      RowBit(kill, words, n, b, w, j);
      RowBit(cur, words, 1, 0, w, j);
      OrAndNotBit(a, x, y, j);
    }
    hide RowDone, Row, Bit, IsWord, Bitwise;
    RowStep(was, bits, words, n, b, w, goal, Or(a, AndNot(x, y)));
  }
}
