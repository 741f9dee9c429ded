/**
 * The SysV hash table of src/nylink/nylink_layout.c, and the lookup a dynamic linker makes in it
 * ("Hash Table", chapter 5 of the System V ABI).
 */
module HashTable {
  import opened IntFold
  import opened Bytes

  type Name = seq<byte>

  // ---------------------------------------------------------------- the hash

  /** The top four bits of a 32-bit number, in place. */
  function TopNibble(h: int): int {
    h / 0x1000_0000 * 0x1000_0000
  }

  function HashStep(h: int, c: byte): int {
    var h1 := (h * 16 + c) % U32_LIMIT;
    var g := TopNibble(h1);
    var h2 := if g != 0 then Bitwise(BitXor, h1, g / 0x100_0000) else h1;
    Bitwise(BitAnd, h2, -g - 1)
  }

  function HashOf(name: Name): int {
    if name == [] then 0 else HashStep(HashOf(name[..|name| - 1]), name[|name| - 1])
  }

  lemma HashNext(name: Name, i: nat)
    requires i < |name|
    ensures HashOf(name[..i + 1]) == HashStep(HashOf(name[..i]), name[i])
  {
    assert name[..i + 1][..i] == name[..i];
    hide HashStep;
  }

  /** elf_sysv_hash. */
  method SysvHash(name: Name) returns (h: int)
    ensures h == HashOf(name)
  {
    hide HashOf, Bitwise, TopNibble;
    h := 0;
    var i := 0;
    assert name[..0] == [];
    HashEmpty();
    while i < |name|
      invariant 0 <= i <= |name| && h == HashOf(name[..i])
    {
      HashNext(name, i);
      h := (h * 16 + name[i]) % U32_LIMIT;
      var g := TopNibble(h);
      if g != 0 { h := Bitwise(BitXor, h, g / 0x100_0000); }
      h := Bitwise(BitAnd, h, -g - 1);
      i := i + 1;
    }
    assert name[..i] == name;
  }

  lemma HashEmpty()
    ensures HashOf([]) == 0
  {
  }

  // ---------------------------------------------------------------- chains

  /** The bucket of a name. */
  function BucketOf(name: Name, nbucket: nat): (b: nat)
    requires nbucket > 0
    ensures b < nbucket
  {
    HashOf(name) % nbucket
  }

  /** The last dynsym index before d, other than 0, whose name falls into bucket b; 0 when there is none. */
  function Before(names: seq<Name>, nbucket: nat, b: nat, d: nat): (p: nat)
    requires nbucket > 0 && d <= |names|
    ensures p > 0 ==> p < d
  {
    if d <= 1 then 0
    else if BucketOf(names[d - 1], nbucket) == b then d - 1
    else Before(names, nbucket, b, d - 1)
  }

  lemma {:induction false} BeforeMeans(names: seq<Name>, nbucket: nat, b: nat, d: nat)
    requires nbucket > 0 && d <= |names|
    ensures var p := Before(names, nbucket, b, d);
            && (p > 0 ==> BucketOf(names[p], nbucket) == b)
            && (forall q :: p < q < d ==> BucketOf(names[q], nbucket) != b)
  {
    hide BucketOf;
    if d > 1 && BucketOf(names[d - 1], nbucket) != b { BeforeMeans(names, nbucket, b, d - 1); }
  }

  /** The two counts, the bucket heads and the chain links, as one array of words. */
  datatype Table = Table(words: seq<nat>) {
    predicate Shaped() {
      |words| >= 2 && words[0] > 0 && |words| == 2 + words[0] + words[1]
    }

    function Bucket(b: nat): nat
      requires Shaped() && b < words[0]
    {
      words[2 + b]
    }

    function Link(d: nat): nat
      requires Shaped() && d < words[1]
    {
      words[2 + words[0] + d]
    }
  }

  /** Heads and links name the nearest earlier index of their bucket. */
  ghost predicate Indexes(t: Table, names: seq<Name>) {
    && t.Shaped() && t.words[1] == |names|
    && (forall b: nat {:trigger t.Bucket(b)} :: b < t.words[0] ==> t.Bucket(b) == Before(names, t.words[0], b, |names|))
    && (forall d: nat {:trigger t.Link(d)} :: 0 < d < |names| ==>
        t.Link(d) == Before(names, t.words[0], BucketOf(names[d], t.words[0]), d))
  }

  /** Indices below d are in: each bucket's head and each link. */
  ghost predicate BuiltTo(words: seq<nat>, names: seq<Name>, nbucket: nat, d: nat) {
    && nbucket > 0 && d <= |names| && |words| == 2 + nbucket + |names| && words[0] == nbucket && words[1] == |names|
    && (forall b: nat {:trigger HeadIs(words, names, nbucket, b, d)} :: b < nbucket ==>
        HeadIs(words, names, nbucket, b, d))
    && (forall e: nat {:trigger LinkIs(words, names, nbucket, e)} :: 0 < e < d ==> LinkIs(words, names, nbucket, e))
  }

  ghost predicate HeadIs(words: seq<nat>, names: seq<Name>, nbucket: nat, b: nat, d: nat)
    requires b < nbucket && d <= |names| && |words| == 2 + nbucket + |names|
  {
    words[2 + b] == Before(names, nbucket, b, d)
  }

  ghost predicate LinkIs(words: seq<nat>, names: seq<Name>, nbucket: nat, e: nat)
    requires nbucket > 0 && 0 < e < |names| && |words| == 2 + nbucket + |names|
  {
    words[2 + nbucket + e] == Before(names, nbucket, BucketOf(names[e], nbucket), e)
  }

  lemma StartTable(words: seq<nat>, names: seq<Name>, nbucket: nat)
    requires nbucket > 0 && |words| == 2 + nbucket + |names| && words[0] == nbucket && words[1] == |names|
    requires forall k :: 2 <= k < |words| ==> words[k] == 0
    ensures BuiltTo(words, names, nbucket, if |names| > 0 then 1 else 0)
  {
    hide BucketOf;
    var d := if |names| > 0 then 1 else 0;
    forall b: nat | b < nbucket ensures HeadIs(words, names, nbucket, b, d) { assert words[2 + b] == 0; }
  }

  /** One index goes to the head of its bucket. */
  lemma PushIndex(words: seq<nat>, names: seq<Name>, nbucket: nat, d: nat)
    requires BuiltTo(words, names, nbucket, d) && 0 < d < |names|
    ensures var b := BucketOf(names[d], nbucket);
            BuiltTo(words[2 + nbucket + d := words[2 + b]][2 + b := d], names, nbucket, d + 1)
  {
    var b := BucketOf(names[d], nbucket);
    var words' := words[2 + nbucket + d := words[2 + b]][2 + b := d];
    assert HeadIs(words, names, nbucket, b, d);
    var next := d + 1;
    forall c: nat | c < nbucket
      ensures HeadIs(words', names, nbucket, c, next)
    {
      assert HeadIs(words, names, nbucket, c, d);
    }
    forall e: nat | 0 < e < d + 1 ensures LinkIs(words', names, nbucket, e) {
      if e < d { assert LinkIs(words, names, nbucket, e); }
    }
    hide BucketOf, Before;
  }

  lemma EndTable(words: seq<nat>, names: seq<Name>, nbucket: nat)
    requires BuiltTo(words, names, nbucket, |names|)
    ensures Indexes(Table(words), names) && words[0] == nbucket
  {
    var t := Table(words);
    hide BucketOf, Before;
    forall b: nat | b < t.words[0] ensures t.Bucket(b) == Before(names, t.words[0], b, |names|) {
      assert HeadIs(words, names, nbucket, b, |names|);
    }
    forall d: nat | 0 < d < |names| ensures t.Link(d) == Before(names, t.words[0], BucketOf(names[d], t.words[0]), d) {
      assert LinkIs(words, names, nbucket, d);
    }
  }

  /** The construction loop: each index goes to the head of its bucket's chain. */
  method BuildTable(names: seq<Name>) returns (t: Table)
    ensures Indexes(t, names) && t.words[0] == if |names| > 1 then |names| else 1
  {
    var nbucket := if |names| > 1 then |names| else 1;
    var nchain := |names|;
    var words := new nat[2 + nbucket + nchain](_ => 0);
    words[0], words[1] := nbucket, nchain;
    StartTable(words[..], names, nbucket);
    hide BucketOf, HashOf, BuiltTo, Indexes;
    var d := 1;
    while d < nchain
      invariant 1 <= d && (d <= nchain || nchain == 0)
      invariant BuiltTo(words[..], names, nbucket, if nchain == 0 then 0 else d)
    {
      var b := FindBucket(names[d], nbucket);
      PushIndex(words[..], names, nbucket, d);
      ghost var was: seq<nat> := words[..];
      words[2 + nbucket + d] := words[2 + b];
      words[2 + b] := d;
      assert words[..] == was[2 + nbucket + d := was[2 + b]][2 + b := d];
      d := d + 1;
    }
    EndTable(words[..], names, nbucket);
    t := Table(words[..]);
  }

  /** elf_sysv_hash(name) % nbucket. */
  method FindBucket(name: Name, nbucket: nat) returns (b: nat)
    requires nbucket > 0
    ensures b == BucketOf(name, nbucket)
  {
    hide HashOf;
    var h := SysvHash(name);
    b := h % nbucket;
  }

  /** Following the links from y. */
  ghost function Chain(t: Table, names: seq<Name>, y: nat): (c: seq<nat>)
    requires Indexes(t, names) && (y > 0 ==> y < |names|)
    decreases y
  {
    if y == 0 then [] else [y] + Chain(t, names, t.Link(y))
  }

  /** A chain is strictly decreasing and holds exactly the indices of its bucket. */
  lemma {:induction false} ChainExact(t: Table, names: seq<Name>, b: nat, n: nat)
    requires Indexes(t, names) && b < t.words[0] && n <= |names|
    ensures var y := Before(names, t.words[0], b, n);
            var c := Chain(t, names, y);
            && (forall d: nat :: d in c <==> 0 < d < n && BucketOf(names[d], t.words[0]) == b)
            && (forall j, k :: 0 <= j < k < |c| ==> c[j] > c[k])
    decreases n
  {
    assert t.Shaped();
    hide BucketOf, HashOf, Before, Indexes;
    var y := Before(names, t.words[0], b, n);
    BeforeMeans(names, t.words[0], b, n);
    if y > 0 {
      LinkIsBefore(t, names, b, y);
      ChainExact(t, names, b, y);
      assert Chain(t, names, y) == [y] + Chain(t, names, t.Link(y));
      hide Chain;
      ChainLonger(names, t.words[0], b, Chain(t, names, t.Link(y)), y, n);
    }
  }

  lemma ChainLonger(names: seq<Name>, nbucket: nat, b: nat, rest: seq<nat>, y: nat, n: nat)
    requires nbucket > 0 && 0 < y < n <= |names| && BucketOf(names[y], nbucket) == b
    requires forall q :: y < q < n ==> BucketOf(names[q], nbucket) != b
    requires forall d: nat :: d in rest <==> 0 < d < y && BucketOf(names[d], nbucket) == b
    requires forall j, k :: 0 <= j < k < |rest| ==> rest[j] > rest[k]
    ensures forall d: nat :: d in [y] + rest <==> 0 < d < n && BucketOf(names[d], nbucket) == b
    ensures forall j, k :: 0 <= j < k < |rest| + 1 ==> ([y] + rest)[j] > ([y] + rest)[k]
  {
    hide BucketOf;
    assert forall k :: 0 <= k < |rest| ==> rest[k] in rest;
  }

  lemma LinkIsBefore(t: Table, names: seq<Name>, b: nat, y: nat)
    requires Indexes(t, names) && b < t.words[0] && 0 < y < |names| && BucketOf(names[y], t.words[0]) == b
    ensures t.Shaped() && t.words[1] == |names| && t.Link(y) == Before(names, t.words[0], b, y)
  {
    hide Before, BucketOf;
  }

  /** Every index but 0 lies in exactly one bucket's chain. */
  lemma OneChain(t: Table, names: seq<Name>, d: nat, b: nat)
    requires Indexes(t, names) && 0 < d < |names| && b < t.words[0]
    ensures d in Chain(t, names, t.Bucket(b)) <==> b == BucketOf(names[d], t.words[0])
  {
    ChainExact(t, names, b, |names|);
    hide Chain;
  }

  // ---------------------------------------------------------------- lookup

  /** dynsym_has_name: a scan of all symbols but the first. */
  method HasName(names: seq<Name>, name: Name) returns (found: bool)
    ensures found <==> exists d :: 0 < d < |names| && names[d] == name
  {
    var d := 1;
    while d < |names|
      invariant 1 <= d && forall e :: 0 < e < d && e < |names| ==> names[e] != name
    {
      if names[d] == name { return true; }
      d := d + 1;
    }
    return false;
  }

  /** Between the head and the bound no name of this bucket stands. */
  lemma GapHasNoName(names: seq<Name>, nbucket: nat, name: Name, bound: nat)
    requires nbucket > 0 && bound <= |names|
    ensures forall e :: Before(names, nbucket, BucketOf(name, nbucket), bound) < e < bound ==> names[e] != name
  {
    BeforeMeans(names, nbucket, BucketOf(name, nbucket), bound);
    hide BucketOf, Before;
  }

  /** d heads what is left of the chain below bound; the name stands nowhere above d. */
  ghost predicate Searching(names: seq<Name>, nbucket: nat, name: Name, bound: nat, d: nat) {
    && nbucket > 0 && bound <= |names| && d == Before(names, nbucket, BucketOf(name, nbucket), bound)
    && (d > 0 ==> d < |names|) && forall e :: d < e < |names| ==> names[e] != name
  }

  lemma SearchStart(t: Table, names: seq<Name>, name: Name)
    requires Indexes(t, names)
    ensures Searching(names, t.words[0], name, |names|, t.Bucket(BucketOf(name, t.words[0])))
  {
    GapHasNoName(names, t.words[0], name, |names|);
    hide BucketOf, Before;
  }

  lemma SearchStep(t: Table, names: seq<Name>, name: Name, bound: nat, d: nat)
    requires Indexes(t, names) && Searching(names, t.words[0], name, bound, d) && d > 0 && names[d] != name
    ensures t.Link(d) < d && Searching(names, t.words[0], name, d, t.Link(d))
  {
    BeforeMeans(names, t.words[0], BucketOf(name, t.words[0]), bound);
    GapHasNoName(names, t.words[0], name, d);
    assert t.Link(d) == Before(names, t.words[0], BucketOf(name, t.words[0]), d);
    hide BucketOf, Before;
  }

  /** The lookup of the ABI: from the bucket's head along the chain. It ends, and agrees with the scan. */
  method Lookup(t: Table, names: seq<Name>, name: Name) returns (d: nat)
    requires Indexes(t, names)
    ensures d > 0 <==> exists e :: 0 < e < |names| && names[e] == name
    ensures d > 0 ==> d < |names| && names[d] == name && forall e :: d < e < |names| ==> names[e] != name
  {
    assert t.Shaped() && t.words[1] == |names|;
    hide BucketOf, HashOf, Before, Indexes;
    var nbucket := t.words[0];
    var b := FindBucket(name, nbucket);
    d := t.Bucket(b);
    ghost var bound: nat := |names|;
    SearchStart(t, names, name);
    while d != 0
      invariant Searching(names, nbucket, name, bound, d)
      decreases d
    {
      if names[d] == name { return; }
      SearchStep(t, names, name, bound, d);
      bound := d;
      d := t.Link(d);
    }
  }
}
