/**
 * PE base relocations: src/nylink/nylink_emit_pe.c sorts the list of RVAs, removes duplicates in place and packs
 * what is left by 4 KB page. The blocks are read back as section ".reloc Section (Image Only)" of Microsoft's
 * PE Format specification says.
 */
module BaseRelocs {
  import opened Bytes
  import opened IntFold

  const PAGE := 0x1000
  const DIR64 := 10

  function PageOf(rva: nat): (p: nat)
  {
    rva - rva % PAGE
  }

  // ---------------------------------------------------------------- sorting and removing duplicates

  predicate Sorted(s: seq<nat>) {
    forall i, j :: 0 <= i < j < |s| ==> s[i] <= s[j]
  }

  predicate Ascending(s: seq<nat>) {
    forall i, j :: 0 <= i < j < |s| ==> s[i] < s[j]
  }

  predicate AllU32(s: seq<nat>) {
    forall i :: 0 <= i < |s| ==> s[i] < U32_LIMIT
  }

  ghost predicate SameElements(s: seq<nat>, t: seq<nat>) {
    forall x :: x in s <==> x in t
  }

  function Insert(x: nat, s: seq<nat>): seq<nat> {
    if s == [] || x <= s[0] then [x] + s else [s[0]] + Insert(x, s[1..])
  }

  /** qsort with uint32_cmp. */
  function SortedOf(s: seq<nat>): seq<nat> {
    if s == [] then [] else Insert(s[0], SortedOf(s[1..]))
  }

  lemma {:induction false} InsertElements(x: nat, s: seq<nat>)
    ensures multiset(Insert(x, s)) == multiset{x} + multiset(s)
  {
    if s != [] && x > s[0] {
      InsertElements(x, s[1..]);
      assert [s[0]] + s[1..] == s;
    }
  }

  lemma {:induction false} InsertSorted(x: nat, s: seq<nat>)
    requires Sorted(s)
    ensures Sorted(Insert(x, s))
  {
    if s != [] && x > s[0] {
      InsertSorted(x, s[1..]);
      var t := Insert(x, s[1..]);
      forall k | 0 <= k < |t| ensures s[0] <= t[k] { InsertElement(x, s[1..], t[k]); }
    }
  }

  lemma InsertElement(x: nat, s: seq<nat>, y: nat)
    requires y in Insert(x, s)
    ensures y == x || y in s
  {
    InsertElements(x, s);
    assert y in multiset(Insert(x, s));
  }

  lemma {:induction false} SortedOfIsSorted(s: seq<nat>)
    ensures Sorted(SortedOf(s)) && multiset(SortedOf(s)) == multiset(s)
  {
    if s != [] {
      SortedOfIsSorted(s[1..]);
      InsertSorted(s[0], SortedOf(s[1..]));
      InsertElements(s[0], SortedOf(s[1..]));
      assert s == [s[0]] + s[1..];
    }
  }

  /** The first of each run of equal neighbours. */
  function Unique(s: seq<nat>): (r: seq<nat>)
    ensures |r| <= |s|
  {
    if |s| <= 1 then s
    else
      var most := Unique(s[..|s| - 1]);
      if s[|s| - 1] == s[|s| - 2] then most else most + [s[|s| - 1]]
  }

  lemma {:induction false} UniqueIsAscending(s: seq<nat>)
    requires Sorted(s)
    ensures Ascending(Unique(s)) && SameElements(Unique(s), s)
    ensures s != [] ==> Unique(s) != [] && Unique(s)[|Unique(s)| - 1] == s[|s| - 1]
  {
    if |s| > 1 {
      var t, x := s[..|s| - 1], s[|s| - 1];
      assert s == t + [x];
      assert t[|t| - 1] <= x;
      UniqueIsAscending(t);
      UniqueNext(t, x);
      hide Unique;
      if x == t[|t| - 1] { SameWithLast(Unique(t), t, x); } else { AscendingMore(Unique(t), t, x); }
    } else {
      assert Unique(s) == s;
    }
  }

  lemma UniqueNext(t: seq<nat>, x: nat)
    requires t != []
    ensures Unique(t + [x]) == if x == t[|t| - 1] then Unique(t) else Unique(t) + [x]
  {
    assert (t + [x])[..|t|] == t;
  }

  lemma SameWithLast(u: seq<nat>, t: seq<nat>, x: nat)
    requires SameElements(u, t) && x in t
    ensures SameElements(u, t + [x])
  {
  }

  lemma AscendingMore(u: seq<nat>, t: seq<nat>, x: nat)
    requires Ascending(u) && SameElements(u, t) && u != [] && u[|u| - 1] < x
    ensures Ascending(u + [x]) && SameElements(u + [x], t + [x])
  {
  }

  // ---------------------------------------------------------------- blocks

  /** How many leading RVAs lie on the page. */
  function OnPage(s: seq<nat>, page: nat): (n: nat)
    ensures n <= |s|
    ensures s != [] && PageOf(s[0]) == page ==> n > 0
  {
    if s != [] && PageOf(s[0]) == page then 1 + OnPage(s[1..], page) else 0
  }

  /** OnPage, one RVA at a time. */
  lemma OnPageNext(s: seq<nat>, k: nat, page: nat)
    requires k <= |s|
    ensures OnPage(s[k..], page) == if k < |s| && PageOf(s[k]) == page then 1 + OnPage(s[k + 1..], page) else 0
  {
    if k < |s| { assert s[k..][0] == s[k] && s[k..][1..] == s[k + 1..]; }
    hide PageOf;
  }

  lemma {:induction false} OnPageEnds(s: seq<nat>, page: nat)
    ensures forall k :: 0 <= k < OnPage(s, page) ==> PageOf(s[k]) == page
    ensures OnPage(s, page) < |s| ==> PageOf(s[OnPage(s, page)]) != page
  {
    if s != [] && PageOf(s[0]) == page { OnPageEnds(s[1..], page); }
  }

  function Words(ws: seq<nat>): (d: seq<byte>)
    ensures |d| == 2 * |ws|
  {
    if ws == [] then [] else ToBytes(ws[0], 2) + Words(ws[1..])
  }

  /** The entries of a block: type in the top four bits, offset below, and an ABSOLUTE entry to even the count. */
  function Entries(rvas: seq<nat>): (ws: seq<nat>)
    ensures |ws| == |rvas| + |rvas| % 2
  {
    var used := seq(|rvas|, k requires 0 <= k < |rvas| => DIR64 * PAGE + rvas[k] % PAGE);
    if |rvas| % 2 == 0 then used else used + [0]
  }

  function BlockBytes(page: nat, rvas: seq<nat>): (d: seq<byte>)
    ensures |d| == 8 + 2 * (|rvas| + |rvas| % 2)
  {
    ToBytes(page, 4) + ToBytes(8 + 2 * |Entries(rvas)|, 4) + Words(Entries(rvas))
  }

  /** The section's bytes. */
  function Packed(s: seq<nat>): seq<byte>
    decreases |s|
  {
    if s == [] then []
    else
      var page := PageOf(s[0]);
      var n := OnPage(s, page);
      BlockBytes(page, s[..n]) + Packed(s[n..])
  }

  // ---------------------------------------------------------------- reading the section

  datatype BlockRead = BlockRead(page: nat, size: nat, rvas: seq<nat>)

  /** What the entries relocate; None for an entry type other than ABSOLUTE and DIR64. */
  function Relocated(page: nat, ws: seq<nat>): Option<seq<nat>> {
    if ws == [] then Some([])
    else
      var more :- Relocated(page, ws[1..]);
      if ws[0] / PAGE == DIR64 then Some([page + ws[0] % PAGE] + more)
      else if ws[0] / PAGE == 0 then Some(more)
      else None
  }

  function ReadWords(d: seq<byte>): seq<nat> {
    if |d| < 2 then [] else [FromBytes(d[..2])] + ReadWords(d[2..])
  }

  /** The loader's walk: a block says where the next one starts. */
  function ReadBlocks(d: seq<byte>): Option<seq<BlockRead>>
    decreases |d|
  {
    if d == [] then Some([])
    else if |d| < 8 then None
    else
      var page, size := FromBytes(d[..4]), FromBytes(d[4..8]);
      if size < 8 || size > |d| then None
      else
        var rvas :- Relocated(page, ReadWords(d[8..size]));
        var more :- ReadBlocks(d[size..]);
        Some([BlockRead(page, size, rvas)] + more)
  }

  function AllRvas(bs: seq<BlockRead>): seq<nat> {
    if bs == [] then [] else bs[0].rvas + AllRvas(bs[1..])
  }

  function SizeSum(bs: seq<BlockRead>): nat {
    if bs == [] then 0 else bs[0].size + SizeSum(bs[1..])
  }

  /** A block is a 4-byte multiple, starts on a page boundary and holds what belongs to its page. */
  predicate BlockOk(b: BlockRead) {
    b.size % 4 == 0 && b.page % PAGE == 0 && b.rvas != [] && forall r :: r in b.rvas ==> PageOf(r) == b.page
  }

  /** One block a page, pages ascending. */
  predicate WellFormed(bs: seq<BlockRead>) {
    && (forall k :: 0 <= k < |bs| ==> BlockOk(bs[k]))
    && (forall j, k :: 0 <= j < k < |bs| ==> bs[j].page < bs[k].page)
  }

  // ---------------------------------------------------------------- the round trip

  lemma {:induction false} WordsBack(ws: seq<nat>)
    requires forall k :: 0 <= k < |ws| ==> ws[k] < U16_LIMIT
    ensures ReadWords(Words(ws)) == ws
  {
    if ws != [] {
      WordsBack(ws[1..]);
      Limits();
      NumberRoundTrip(ws[0], 2);
      hide FromBytes, ToBytes, Limit;
      var d := Words(ws);
      assert d[..2] == ToBytes(ws[0], 2) && d[2..] == Words(ws[1..]);
    }
  }

  lemma WordHolds(r: nat)
    ensures (DIR64 * PAGE + r % PAGE) / PAGE == DIR64 && (DIR64 * PAGE + r % PAGE) % PAGE == r % PAGE
    ensures DIR64 * PAGE + r % PAGE < U16_LIMIT && PageOf(r) + r % PAGE == r
  {
  }

  lemma {:induction false} EntriesBack(page: nat, rvas: seq<nat>)
    requires forall k :: 0 <= k < |rvas| ==> PageOf(rvas[k]) == page
    ensures Relocated(page, Entries(rvas)) == Some(rvas)
    decreases |rvas|
  {
    if |rvas| == 1 {
      WordHolds(rvas[0]);
      var ws := Entries(rvas);
      assert ws[1..][1..] == [] && ws[1..][0] == 0;
      assert Relocated(page, ws[1..][1..]) == Some([]);
      assert Relocated(page, ws[1..]) == Some([]);
      assert [rvas[0]] + [] == rvas;
    } else if |rvas| > 1 {
      var rest := rvas[2..];
      EntriesBack(page, rest);
      WordHolds(rvas[0]);
      WordHolds(rvas[1]);
      var ws := Entries(rvas);
      assert |rest| % 2 == |rvas| % 2;
      assert ws[1..][1..] == Entries(rest);
      assert Relocated(page, ws[1..]) == Some([rvas[1]] + rest);
      assert [rvas[0]] + ([rvas[1]] + rest) == rvas;
    }
  }

  /** Distinct RVAs of one page are at most as many as the page has bytes. */
  lemma {:induction false} PageIsSmall(s: seq<nat>, low: nat)
    requires Ascending(s) && s != [] && low <= s[0]
    ensures |s| <= s[|s| - 1] - low + 1
  {
    if |s| > 1 { PageIsSmall(s[1..], low + 1); }
  }

  lemma OnePageFits(s: seq<nat>, page: nat)
    requires Ascending(s) && forall k :: 0 <= k < |s| ==> PageOf(s[k]) == page
    ensures |s| <= PAGE
  {
    if s != [] { PageIsSmall(s, page); }
  }

  lemma BlockBack(page: nat, rvas: seq<nat>, rest: seq<byte>)
    requires page < U32_LIMIT && Ascending(rvas)
    requires forall k :: 0 <= k < |rvas| ==> PageOf(rvas[k]) == page
    ensures var d := BlockBytes(page, rvas) + rest;
            var size := |BlockBytes(page, rvas)|;
            && FromBytes(d[..4]) == page && FromBytes(d[4..8]) == size && d[size..] == rest
            && Relocated(page, ReadWords(d[8..size])) == Some(rvas)
  {
    hide Relocated, ReadWords, Entries, FromBytes, ToBytes, Limit, PageOf, Words;
    OnePageFits(rvas, page);
    EntriesBack(page, rvas);
    EntriesAreWords(rvas);
    Limits();
    var ws := Entries(rvas);
    WordsBack(ws);
    NumberRoundTrip(page, 4);
    NumberRoundTrip(8 + 2 * |ws|, 4);
    BlockParts(ToBytes(page, 4), ToBytes(8 + 2 * |ws|, 4), Words(ws), rest);
  }

  lemma BlockParts(page: seq<byte>, size: seq<byte>, words: seq<byte>, rest: seq<byte>)
    requires |page| == |size| == 4
    ensures var d := page + size + words + rest;
            d[..4] == page && d[4..8] == size && d[8..8 + |words|] == words && d[8 + |words|..] == rest
  {
  }

  lemma EntriesAreWords(rvas: seq<nat>)
    ensures forall k :: 0 <= k < |Entries(rvas)| ==> Entries(rvas)[k] < U16_LIMIT
  {
  }

  /** What a section read back as bs says about the RVAs it was packed from. */
  predicate Recovers(s: seq<nat>, d: seq<byte>, bs: seq<BlockRead>) {
    && AllRvas(bs) == s && SizeSum(bs) == |d| && WellFormed(bs)
    && (bs == [] <==> s == []) && (bs != [] ==> bs[0].page == PageOf(s[0]))
  }

  lemma {:induction false} PackedReadsBack(s: seq<nat>)
    requires Ascending(s) && AllU32(s)
    ensures ReadBlocks(Packed(s)).Some? && Recovers(s, Packed(s), ReadBlocks(Packed(s)).value)
    decreases |s|
  {
    if s != [] {
      var page := PageOf(s[0]);
      var n := OnPage(s, page);
      PackedReadsBack(s[n..]);
      var more := ReadBlocks(Packed(s[n..])).value;
      OneBlockRead(s, page, n, more);
      OneBlockRecovers(s, page, n, more);
    }
  }

  lemma OneBlockRecovers(s: seq<nat>, page: nat, n: nat, more: seq<BlockRead>)
    requires s != [] && page == PageOf(s[0]) && n == OnPage(s, page)
    requires Ascending(s) && Recovers(s[n..], Packed(s[n..]), more)
    ensures Recovers(s, Packed(s), [BlockRead(page, |BlockBytes(page, s[..n])|, s[..n])] + more)
  {
    hide BlockBytes, OnPage, PageOf, BlockOk, Ascending, Packed;
    var first := BlockRead(page, |BlockBytes(page, s[..n])|, s[..n]);
    FirstBlockOk(s, page, n);
    if more != [] { NextPage(s, page, n); }
    WellFormedMore(first, more);
    assert s[..n] + s[n..] == s;
    assert ([first] + more)[1..] == more;
    PackedNext(s);
  }

  lemma PackedNext(s: seq<nat>)
    requires s != []
    ensures var page := PageOf(s[0]);
            var n := OnPage(s, page);
            Packed(s) == BlockBytes(page, s[..n]) + Packed(s[n..])
  {
  }

  lemma FirstBlockOk(s: seq<nat>, page: nat, n: nat)
    requires s != [] && page == PageOf(s[0]) && n == OnPage(s, page)
    ensures BlockOk(BlockRead(page, |BlockBytes(page, s[..n])|, s[..n]))
  {
    hide BlockBytes, PageOf;
    PageMultiple(s[0]);
    OnPageEnds(s, page);
    EvenUp(n);
    assert s[..n] != [];
  }

  lemma EvenUp(n: nat)
    ensures (8 + 2 * (n + n % 2)) % 4 == 0
  {
  }

  lemma PageBelow(r: nat)
    ensures PageOf(r) <= r
  {
  }

  lemma PageMultiple(r: nat)
    ensures PageOf(r) % PAGE == 0
  {
  }

  lemma NextPage(s: seq<nat>, page: nat, n: nat)
    requires s != [] && page == PageOf(s[0]) && n == OnPage(s, page) && n < |s| && Ascending(s)
    ensures page < PageOf(s[n..][0])
  {
    hide PageOf;
    OnPageEnds(s, page);
    assert s[n..][0] == s[n] && s[0] < s[n];
    PagesOrdered(s[0], s[n]);
  }

  lemma OneBlockRead(s: seq<nat>, page: nat, n: nat, more: seq<BlockRead>)
    requires s != [] && page == PageOf(s[0]) && n == OnPage(s, page)
    requires Ascending(s) && AllU32(s) && ReadBlocks(Packed(s[n..])) == Some(more)
    ensures ReadBlocks(Packed(s)) == Some([BlockRead(page, |BlockBytes(page, s[..n])|, s[..n])] + more)
  {
    hide Relocated, ReadWords, FromBytes, BlockBytes, PageOf, OnPage;
    OnPageEnds(s, page);
    PageBelow(s[0]);
    BlockBack(page, s[..n], Packed(s[n..]));
  }

  lemma WellFormedMore(first: BlockRead, more: seq<BlockRead>)
    requires BlockOk(first) && WellFormed(more) && (more != [] ==> first.page < more[0].page)
    ensures WellFormed([first] + more)
  {
    hide BlockOk;
  }

  lemma PagesOrdered(a: nat, b: nat)
    requires a < b
    ensures PageOf(a) <= PageOf(b)
  {
  }

  lemma SameThroughSort(list: seq<nat>, t: seq<nat>, s: seq<nat>)
    requires multiset(t) == multiset(list) && SameElements(s, t) && AllU32(list)
    ensures SameElements(s, list) && AllU32(s)
  {
    forall x ensures x in t <==> x in list { assert x in multiset(t) <==> x in multiset(list); }
    forall i | 0 <= i < |s| ensures s[i] < U32_LIMIT { assert s[i] in t; assert s[i] in list; }
  }

  /** Every list of RVAs survives: the section relocates the same addresses, in ascending order, each once. */
  lemma SectionKeepsRvas(list: seq<nat>)
    requires AllU32(list)
    ensures var s := Unique(SortedOf(list));
            var d := Packed(s);
            && Ascending(s) && SameElements(s, list) && |d| % 4 == 0
            && ReadBlocks(d).Some? && AllRvas(ReadBlocks(d).value) == s
            && WellFormed(ReadBlocks(d).value) && SizeSum(ReadBlocks(d).value) == |d|
  {
    hide Packed, ReadBlocks, SortedOf, Unique, Sorted, Ascending, SameElements, AllU32, WellFormed, AllRvas, SizeSum;
    var t := SortedOf(list);
    var s := Unique(t);
    SortedOfIsSorted(list);
    UniqueIsAscending(t);
    SameThroughSort(list, t, s);
    PackedReadsBack(s);
    SumIsMultiple(ReadBlocks(Packed(s)).value);
  }

  lemma {:induction false} SumIsMultiple(bs: seq<BlockRead>)
    requires WellFormed(bs)
    ensures SizeSum(bs) % 4 == 0
  {
    if bs != [] { SumIsMultiple(bs[1..]); }
  }

  // ---------------------------------------------------------------- the code

  class Linker {
    var relocs: array<nat>
    var count: nat

    ghost predicate Valid()
      reads this
    {
      count <= relocs.Length
    }

    constructor (list: seq<nat>)
      ensures Valid() && fresh(relocs) && relocs[..count] == list
    {
      count := |list|;
      relocs := new nat[|list|](k requires 0 <= k < |list| => list[k]);
    }

    method Sort()
      requires Valid()
      modifies relocs
      ensures relocs[..count] == SortedOf(old(relocs[..count]))
      ensures relocs[count..] == old(relocs[count..])
    {
      ghost var was := relocs[..count];
      SortedLength(was);
      var sorted := SortedOf(relocs[..count]);
      forall k | 0 <= k < count { relocs[k] := sorted[k]; }
      assert relocs[..count] == sorted;
    }

    /** The in-place pass: it compares neighbours in the array it is overwriting. */
    method RemoveDuplicates()
      requires Valid()
      modifies relocs, `count
      ensures Valid() && relocs == old(relocs) && relocs[..count] == Unique(old(relocs[..count]))
    {
      ghost var was := relocs[..count];
      var unique, i := 0, 0;
      while i < count
        invariant 0 <= unique <= i <= count == old(count) && relocs == old(relocs)
        invariant forall k {:trigger relocs[k]} :: unique <= k < count ==> relocs[k] == was[k]
        invariant i > 0 ==> unique > 0 && relocs[i - 1] == was[i - 1]
        invariant relocs[..unique] == Unique(was[..i])
      {
        assert was[..i + 1][..i] == was[..i];
        if i == 0 || relocs[i] != relocs[i - 1] {
          relocs[unique] := relocs[i];
          unique := unique + 1;
          assert relocs[..unique] == relocs[..unique - 1] + [was[i]];
        }
        i := i + 1;
      }
      assert was[..count] == was;
      count := unique;
    }

    /** The padded entries of one block, appended. */
    method WriteEntries(buf: seq<byte>, start: nat, n: nat) returns (out: seq<byte>)
      requires Valid() && start + n <= count
      ensures out == buf + Words(Entries(relocs[start..start + n]))
    {
      ghost var ws := Entries(relocs[start..start + n]);
      out := buf;
      var k := 0;
      while k < n
        invariant 0 <= k <= n && out + Words(ws[k..]) == buf + Words(ws)
      {
        var entry := DIR64 * PAGE + relocs[start + k] % PAGE;
        assert entry == ws[k];
        WordsNext(ws, k, out);
        out := out + ToBytes(entry, 2);
        k := k + 1;
      }
      if n % 2 != 0 {
        WordsNext(ws, n, out);
        out := out + ToBytes(0, 2);
      }
    }

    /** One block, appended. */
    method WriteBlock(buf: seq<byte>, start: nat, n: nat, page: nat) returns (out: seq<byte>)
      requires Valid() && start + n <= count
      ensures out == buf + BlockBytes(page, relocs[start..start + n])
    {
      hide Entries, Words, ToBytes;
      var entries := n;
      if entries % 2 != 0 { entries := entries + 1; }
      out := buf + ToBytes(page, 4);
      out := out + ToBytes(8 + entries * 2, 4);
      out := WriteEntries(out, start, n);
    }

    /** pe_build_base_relocs. */
    method Build() returns (out: seq<byte>)
      requires Valid()
      modifies relocs, `count
      ensures Valid() && relocs[..count] == Unique(SortedOf(old(relocs[..count])))
      ensures out == Packed(relocs[..count])
    {
      hide BlockBytes, OnPage, PageOf, SortedOf, Unique, Packed;
      if count == 0 {
        NothingToPack();
        return [];
      }
      Sort();
      RemoveDuplicates();
      ghost var s := relocs[..count];
      out := [];
      NothingToPack();
      assert s[0..] == s && s[|s|..] == [];
      var i := 0;
      while i < count
        invariant 0 <= i <= count && Valid() && count == |s| && relocs[..count] == s
        invariant out + Packed(s[i..]) == Packed(s)
      {
        var page := PageOf(relocs[i]);
        var start := i;
        i := PageEnd(start, page);
        ghost var was, rest := out, s[start..];
        assert rest == relocs[start..count] && rest[..i - start] == relocs[start..start + (i - start)]
               && rest[i - start..] == s[i..];
        out := WriteBlock(out, start, i - start, page);
        PackedNext(rest);
        assert out + Packed(s[i..]) == was + Packed(rest);
      }
    }

    /** The loop that finds where the page ends. */
    method PageEnd(start: nat, page: nat) returns (i: nat)
      requires Valid() && start < count && page == PageOf(relocs[start])
      ensures start < i <= count && i - start == OnPage(relocs[start..count], page)
    {
      hide OnPage, PageOf;
      ghost var s := relocs[start..count];
      OnPageNext(s, 0, page);
      i := start;
      while i < count && PageOf(relocs[i]) == page
        invariant start <= i <= count
        invariant (i - start) + OnPage(s[i - start..], page) == OnPage(s, page)
      {
        OnPageNext(s, i - start, page);
        i := i + 1;
      }
      OnPageNext(s, i - start, page);
      assert s[0..] == s;
    }
  }

  lemma NothingToPack()
    ensures Packed([]) == [] && Unique(SortedOf([])) == []
  {
  }

  lemma {:induction false} SortedLength(s: seq<nat>)
    ensures |SortedOf(s)| == |s|
  {
    SortedOfIsSorted(s);
    assert |multiset(SortedOf(s))| == |multiset(s)|;
  }

  lemma WordsNext(ws: seq<nat>, k: nat, out: seq<byte>)
    requires k < |ws|
    ensures out + Words(ws[k..]) == (out + ToBytes(ws[k], 2)) + Words(ws[k + 1..])
  {
    assert ws[k..][1..] == ws[k + 1..];
  }
}
