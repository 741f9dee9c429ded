/** Symbol resolution and symbol lookup of src/nylink/nylink_context.c, written apart and shown to agree. */
module Resolve {
  import opened IntFold

  datatype Binding = LocalBinding | GlobalBinding | WeakBinding

  datatype Symbol = Symbol(name: string, binding: Binding, isDefined: bool, isDynamic: bool, objIndex: nat)

  /** Resolved_Ref. */
  datatype Ref = Ref(name: string, symId: nat, isDefined: bool, binding: Binding, objIndex: nat)

  datatype Diagnostic =
    | Duplicate(name: string, firstObj: nat, secondObj: nat)
    | Undefined(name: string, obj: nat)

  predicate IsStaticGlobal(s: Symbol) {
    s.isDefined && !s.isDynamic && s.binding == GlobalBinding
  }

  // ---------------------------------------------------------------- lookup

  /** How good a symbol is as the meaning of its name; less is better. */
  function Rank(s: Symbol): nat {
    if IsStaticGlobal(s) then 0
    else if s.isDefined && !s.isDynamic && s.binding == WeakBinding then 1
    else if s.isDefined && s.isDynamic then 2
    else 3
  }

  /** Among the first n symbols called name, i is the first of the best. */
  ghost predicate IsBest(syms: seq<Symbol>, name: string, n: nat, i: nat) {
    && i < n <= |syms| && syms[i].name == name
    && forall j :: 0 <= j < n && syms[j].name == name ==>
         Rank(syms[i]) < Rank(syms[j]) || (Rank(syms[i]) == Rank(syms[j]) && i <= j)
  }

  ghost predicate Absent(syms: seq<Symbol>, name: string, n: nat) {
    n <= |syms| && forall j :: 0 <= j < n ==> syms[j].name != name
  }

  lemma BestIsUnique(syms: seq<Symbol>, name: string, n: nat, i: nat, j: nat)
    requires IsBest(syms, name, n, i) && IsBest(syms, name, n, j)
    ensures i == j
  {
  }

  /** A defined static local symbol; the search keeps the first one it meets as if it were the best. */
  predicate IsStaticLocal(s: Symbol) {
    s.isDefined && !s.isDynamic && s.binding == LocalBinding
  }

  ghost predicate NoStaticLocal(syms: seq<Symbol>, name: string) {
    forall j :: 0 <= j < |syms| && syms[j].name == name ==> !IsStaticLocal(syms[j])
  }

  /** Whether sym takes the place of the candidate c. */
  predicate Takes(syms: seq<Symbol>, c: Option<nat>, sym: Symbol)
    requires c.Some? ==> c.value < |syms|
  {
    c.None?
    || (Rank(sym) == 1 && (!syms[c.value].isDefined || syms[c.value].isDynamic))
    || (Rank(sym) == 2 && !syms[c.value].isDefined)
  }

  /** The candidate after the first n symbols, none of which is a static global called name. */
  function Candidate(syms: seq<Symbol>, name: string, n: nat): (c: Option<nat>)
    requires n <= |syms|
    ensures c.Some? ==> c.value < n && syms[c.value].name == name
    ensures c.None? ==> Absent(syms, name, n)
  {
    if n == 0 then None
    else
      var c := Candidate(syms, name, n - 1);
      if syms[n - 1].name == name && Takes(syms, c, syms[n - 1]) then Some(n - 1) else c
  }

  /** The first static global called name among symbols from n on. */
  function FirstGlobal(syms: seq<Symbol>, name: string, n: nat): (g: nat)
    requires n <= |syms|
    ensures n <= g <= |syms|
    ensures g < |syms| ==> syms[g].name == name && IsStaticGlobal(syms[g])
    ensures forall j :: n <= j < g ==> !(syms[j].name == name && IsStaticGlobal(syms[j]))
    decreases |syms| - n
  {
    if n == |syms| || (syms[n].name == name && IsStaticGlobal(syms[n])) then n else FirstGlobal(syms, name, n + 1)
  }

  function Found(syms: seq<Symbol>, name: string): Option<nat> {
    var g := FirstGlobal(syms, name, 0);
    if g < |syms| then Some(g) else Candidate(syms, name, |syms|)
  }

  /** nylink_find_symbol: the first static global definition ends the search, else the candidate so far. */
  method FindSymbol(syms: seq<Symbol>, name: string) returns (found: Option<nat>)
    ensures found == Found(syms, name)
  {
    found := None;
    var i := 0;
    while i < |syms|
      invariant 0 <= i <= |syms| && found == Candidate(syms, name, i)
      invariant FirstGlobal(syms, name, 0) == FirstGlobal(syms, name, i)
    {
      var sym := syms[i];
      if sym.name == name {
        if sym.isDefined && !sym.isDynamic && sym.binding == GlobalBinding {
          return Some(i);
        }
        if sym.isDefined && !sym.isDynamic && sym.binding == WeakBinding {
          if found.None? || !syms[found.value].isDefined || syms[found.value].isDynamic { found := Some(i); }
        } else if sym.isDefined && sym.isDynamic {
          if found.None? || !syms[found.value].isDefined { found := Some(i); }
        } else if found.None? {
          found := Some(i);
        }
      }
      i := i + 1;
    }
  }

  /** Symbol i is the first called name, and a static local. */
  ghost predicate LocalComesFirst(syms: seq<Symbol>, name: string, i: nat) {
    i < |syms| && syms[i].name == name && IsStaticLocal(syms[i]) && Absent(syms, name, i)
  }

  /** The definitions of the name are hidden: none is a static global, and a static local comes before all of them. */
  ghost predicate Hidden(syms: seq<Symbol>, name: string) {
    && (exists i: nat :: LocalComesFirst(syms, name, i))
    && (forall j :: 0 <= j < |syms| ==> !(syms[j].name == name && IsStaticGlobal(syms[j])))
    && (exists j :: 0 <= j < |syms| && syms[j].name == name && Rank(syms[j]) < 3)
  }

  /** The candidate is the local that came first, or else the best so far. */
  lemma {:induction false} CandidateIs(syms: seq<Symbol>, name: string, n: nat)
    requires n <= |syms|
    requires forall j :: 0 <= j < n ==> !(syms[j].name == name && IsStaticGlobal(syms[j]))
    ensures var c := Candidate(syms, name, n);
            c.Some? ==>
              || LocalComesFirst(syms, name, c.value)
              || (IsBest(syms, name, n, c.value) && !IsStaticLocal(syms[c.value]))
  {
    if n > 0 { CandidateIs(syms, name, n - 1); }
  }

  /** The search finds the best symbol of the name exactly when its definitions are not hidden by a local. */
  lemma FoundIsBestIff(syms: seq<Symbol>, name: string)
    ensures var found := Found(syms, name);
            && (found.None? <==> Absent(syms, name, |syms|))
            && (found.Some? ==> (IsBest(syms, name, |syms|, found.value) <==> !Hidden(syms, name)))
  {
    var n := |syms|;
    var g := FirstGlobal(syms, name, 0);
    if g == n {
      CandidateIs(syms, name, n);
      var c := Candidate(syms, name, n);
      if c.Some? {
        if LocalComesFirst(syms, name, c.value) {
          assert Rank(syms[c.value]) == 3;
        } else if Hidden(syms, name) {
          var i: nat :| LocalComesFirst(syms, name, i);
          CandidateStays(syms, name, i, n);
        }
      }
    }
  }

  /** A static local that comes first stays the candidate. */
  lemma {:induction false} CandidateStays(syms: seq<Symbol>, name: string, i: nat, n: nat)
    requires LocalComesFirst(syms, name, i) && i < n <= |syms|
    ensures Candidate(syms, name, n) == Some(i)
  {
    if n == i + 1 {
      NoCandidate(syms, name, i);
    } else {
      CandidateStays(syms, name, i, n - 1);
    }
  }

  lemma {:induction false} NoCandidate(syms: seq<Symbol>, name: string, n: nat)
    requires Absent(syms, name, n)
    ensures Candidate(syms, name, n) == None
  {
    if n > 0 { NoCandidate(syms, name, n - 1); }
  }

  /** Without static locals of the name nothing is hidden. */
  lemma FoundIsBest(syms: seq<Symbol>, name: string)
    requires NoStaticLocal(syms, name) && Found(syms, name).Some?
    ensures IsBest(syms, name, |syms|, Found(syms, name).value)
  {
    FoundIsBestIff(syms, name);
  }

  /** Such a local hides the definitions after it that are not static globals. */
  lemma LocalHides(name: string, local: Symbol, weak: Symbol)
    requires local.name == name && weak.name == name && IsStaticLocal(local) && Rank(weak) == 1
    ensures Found([local, weak], name) == Some(0) && !IsBest([local, weak], name, 2, 0)
  {
    var syms := [local, weak];
    assert FirstGlobal(syms, name, 2) == 2;
    assert FirstGlobal(syms, name, 1) == 2;
    assert FirstGlobal(syms, name, 0) == 2;
    assert Candidate(syms, name, 0) == None;
    assert Candidate(syms, name, 1) == Some(0);
  }

  // ---------------------------------------------------------------- resolution

  /** The symbols resolution looks at under this name. */
  predicate Counts(s: Symbol, name: string) {
    s.binding != LocalBinding && s.name == name && name != ""
  }

  /** The symbol kept for a name when symbol i comes after symbol k. */
  function Keep(syms: seq<Symbol>, k: nat, i: nat): (r: nat)
    requires k < |syms| && i < |syms|
    ensures r == k || r == i
  {
    var cur, sym := syms[k], syms[i];
    if !cur.isDefined then (if sym.isDefined then i else k)
    else if !sym.isDefined then k
    else if cur.isDynamic && !sym.isDynamic then i
    else if !cur.isDynamic && !sym.isDynamic && cur.binding == WeakBinding && sym.binding == GlobalBinding then i
    else k
  }

  function Kept(syms: seq<Symbol>, name: string, n: nat): (k: Option<nat>)
    requires n <= |syms|
    ensures k.Some? ==> k.value < n && Counts(syms[k.value], name)
    ensures k.None? <==> forall j :: 0 <= j < n ==> !Counts(syms[j], name)
  {
    if n == 0 then None
    else
      var k := Kept(syms, name, n - 1);
      if !Counts(syms[n - 1], name) then k
      else if k.None? then Some(n - 1)
      else Some(Keep(syms, k.value, n - 1))
  }

  /** Symbol i is a second strong definition of its name. */
  predicate Clashes(syms: seq<Symbol>, i: nat)
    requires i < |syms|
  {
    var k := Kept(syms, syms[i].name, i);
    Counts(syms[i], syms[i].name) && k.Some? && IsStaticGlobal(syms[k.value]) && IsStaticGlobal(syms[i])
  }

  function DuplicatesUpTo(syms: seq<Symbol>, n: nat): seq<Diagnostic>
    requires n <= |syms|
  {
    if n == 0 then []
    else
      DuplicatesUpTo(syms, n - 1) +
      if Clashes(syms, n - 1) then
        [Duplicate(syms[n - 1].name, syms[Kept(syms, syms[n - 1].name, n - 1).value].objIndex, syms[n - 1].objIndex)]
      else []
  }

  function RefOf(syms: seq<Symbol>, k: nat): Ref
    requires k < |syms|
  {
    Ref(syms[k].name, k, syms[k].isDefined, syms[k].binding, syms[k].objIndex)
  }

  /** refs holds one entry for each name seen, namely the symbol kept for it. */
  ghost predicate RefsOk(syms: seq<Symbol>, refs: seq<Ref>, n: nat) {
    && n <= |syms| && (forall r :: 0 <= r < |refs| ==> EntryOk(syms, refs[r], n)) && NamesDistinct(refs)
    && (forall j :: 0 <= j < n && Counts(syms[j], syms[j].name) ==> HasRef(refs, syms[j].name))
  }

  ghost predicate EntryOk(syms: seq<Symbol>, r: Ref, n: nat) {
    r.symId < n <= |syms| && r == RefOf(syms, r.symId) && Kept(syms, r.name, n) == Some(r.symId)
  }

  ghost predicate NamesDistinct(refs: seq<Ref>) {
    forall r, q :: 0 <= r < q < |refs| ==> refs[r].name != refs[q].name
  }

  ghost predicate HasRef(refs: seq<Ref>, name: string) {
    exists r :: 0 <= r < |refs| && refs[r].name == name
  }

  /** The search for a name among the entries. */
  method MatchRef(refs: seq<Ref>, name: string) returns (m: Option<nat>)
    ensures m.Some? ==> m.value < |refs| && refs[m.value].name == name
    ensures m.None? ==> !HasRef(refs, name)
  {
    var r := 0;
    while r < |refs|
      invariant 0 <= r <= |refs| && forall q :: 0 <= q < r ==> refs[q].name != name
    {
      if refs[r].name == name { return Some(r); }
      r := r + 1;
    }
    return None;
  }

  lemma KeptNext(syms: seq<Symbol>, name: string, i: nat)
    requires i < |syms|
    ensures Kept(syms, name, i + 1) ==
            if !Counts(syms[i], name) then Kept(syms, name, i)
            else if Kept(syms, name, i).None? then Some(i) else Some(Keep(syms, Kept(syms, name, i).value, i))
  {
  }

  /** An entry for another name is untouched by symbol i. */
  lemma EntryStays(syms: seq<Symbol>, r: Ref, i: nat)
    requires i < |syms| && EntryOk(syms, r, i) && !Counts(syms[i], r.name)
    ensures EntryOk(syms, r, i + 1)
  {
    KeptNext(syms, r.name, i);
    hide Kept;
  }

  lemma NewRef(syms: seq<Symbol>, refs: seq<Ref>, i: nat)
    requires i < |syms| && RefsOk(syms, refs, i) && Counts(syms[i], syms[i].name) && !HasRef(refs, syms[i].name)
    ensures RefsOk(syms, refs + [RefOf(syms, i)], i + 1) && !Clashes(syms, i)
  {
    var refs' := refs + [RefOf(syms, i)];
    forall j | 0 <= j < i ensures !Counts(syms[j], syms[i].name) {
      assert Counts(syms[j], syms[j].name) ==> HasRef(refs, syms[j].name);
    }
    assert Kept(syms, syms[i].name, i).None?;
    KeptNext(syms, syms[i].name, i);
    assert EntryOk(syms, RefOf(syms, i), i + 1);
    forall r | 0 <= r < |refs| ensures EntryOk(syms, refs[r], i + 1) {
      assert refs[r].name != syms[i].name;
      EntryStays(syms, refs[r], i);
    }
    hide EntryOk, Kept;
    forall j | 0 <= j < i + 1 && Counts(syms[j], syms[j].name) ensures HasRef(refs', syms[j].name) {
      if j < i {
        var r :| 0 <= r < |refs| && refs[r].name == syms[j].name;
        assert refs'[r].name == syms[j].name;
      } else {
        assert refs'[|refs|].name == syms[j].name;
      }
    }
  }

  lemma OldEntry(syms: seq<Symbol>, r: Ref, i: nat)
    requires i < |syms| && EntryOk(syms, r, i) && Counts(syms[i], r.name)
    ensures EntryOk(syms, RefOf(syms, Keep(syms, r.symId, i)), i + 1)
    ensures RefOf(syms, Keep(syms, r.symId, i)).name == r.name
  {
    KeptNext(syms, r.name, i);
    hide Kept;
  }

  lemma OldRef(syms: seq<Symbol>, refs: seq<Ref>, i: nat, m: nat)
    requires i < |syms| && RefsOk(syms, refs, i) && Counts(syms[i], syms[i].name)
    requires m < |refs| && refs[m].name == syms[i].name
    ensures refs[m].symId < |syms| && Kept(syms, syms[i].name, i) == Some(refs[m].symId)
    ensures RefsOk(syms, refs[m := RefOf(syms, Keep(syms, refs[m].symId, i))], i + 1)
  {
    assert EntryOk(syms, refs[m], i);
    OldEntry(syms, refs[m], i);
    var was := refs[m];
    assert was.symId < |syms| && Kept(syms, syms[i].name, i) == Some(was.symId);
    var now := RefOf(syms, Keep(syms, was.symId, i));
    assert EntryOk(syms, now, i + 1) && now.name == was.name;
    hide Keep, Kept, EntryOk, RefOf, Counts;
    OldEntries(syms, refs, i, m, now);
    OldNames(syms, refs, i, m, now);
  }

  lemma OldEntries(syms: seq<Symbol>, refs: seq<Ref>, i: nat, m: nat, now: Ref)
    requires i < |syms| && RefsOk(syms, refs, i) && m < |refs| && refs[m].name == syms[i].name == now.name
    requires EntryOk(syms, now, i + 1)
    ensures var refs' := refs[m := now];
            NamesDistinct(refs') && forall r :: 0 <= r < |refs'| ==> EntryOk(syms, refs'[r], i + 1)
  {
    hide EntryOk, HasRef;
    var refs' := refs[m := now];
    forall r | 0 <= r < |refs'| ensures EntryOk(syms, refs'[r], i + 1) {
      if r != m {
        OtherName(refs, r, m);
        EntryStays(syms, refs[r], i);
      }
    }
  }

  lemma OldNames(syms: seq<Symbol>, refs: seq<Ref>, i: nat, m: nat, now: Ref)
    requires i < |syms| && RefsOk(syms, refs, i) && m < |refs| && refs[m].name == syms[i].name == now.name
    ensures forall j :: 0 <= j < i + 1 && Counts(syms[j], syms[j].name) ==> HasRef(refs[m := now], syms[j].name)
  {
    hide EntryOk, HasRef, Counts;
    forall j | 0 <= j < i + 1 && Counts(syms[j], syms[j].name) ensures HasRef(refs[m := now], syms[j].name) {
      KeepsRef(refs, m, now, syms[j].name);
    }
  }

  lemma KeepsRef(refs: seq<Ref>, m: nat, r: Ref, name: string)
    requires m < |refs| && r.name == refs[m].name && (HasRef(refs, name) || name == r.name)
    ensures HasRef(refs[m := r], name)
  {
    if name == r.name {
      assert refs[m := r][m].name == name;
    } else {
      var k :| 0 <= k < |refs| && refs[k].name == name;
      assert refs[m := r][k].name == name;
    }
  }

  lemma OtherName(refs: seq<Ref>, r: nat, m: nat)
    requires NamesDistinct(refs) && r < |refs| && m < |refs| && r != m
    ensures refs[r].name != refs[m].name
  {
  }

  lemma SkippedSymbol(syms: seq<Symbol>, refs: seq<Ref>, i: nat)
    requires i < |syms| && RefsOk(syms, refs, i) && !Counts(syms[i], syms[i].name)
    ensures RefsOk(syms, refs, i + 1)
  {
    forall r | 0 <= r < |refs| ensures EntryOk(syms, refs[r], i + 1) {
      EntryStays(syms, refs[r], i);
    }
    hide EntryOk;
  }

  /** The first loop of nylink_resolve_symbols. */
  method Collect(syms: seq<Symbol>) returns (refs: seq<Ref>, diags: seq<Diagnostic>)
    ensures RefsOk(syms, refs, |syms|) && diags == DuplicatesUpTo(syms, |syms|)
  {
    hide RefsOk, Kept;
    refs, diags := [], [];
    assert RefsOk(syms, refs, 0) by { NoRefs(syms); }
    var i := 0;
    while i < |syms|
      invariant 0 <= i <= |syms| && RefsOk(syms, refs, i) && diags == DuplicatesUpTo(syms, i)
    {
      var sym := syms[i];
      if sym.binding == LocalBinding || sym.name == "" {
        SkippedSymbol(syms, refs, i);
        i := i + 1;
        continue;
      }
      var m := MatchRef(refs, sym.name);
      if m.None? {
        NewRef(syms, refs, i);
        refs := refs + [Ref(sym.name, i, sym.isDefined, sym.binding, sym.objIndex)];
        i := i + 1;
        continue;
      }
      OldRef(syms, refs, i, m.value);
      KeptRef(syms, refs, i, m.value);
      var curr := refs[m.value];
      var currSym := syms[curr.symId];
      var next := curr;
      if !curr.isDefined {
        if sym.isDefined { next := Ref(curr.name, i, true, sym.binding, sym.objIndex); }
      } else if sym.isDefined {
        if currSym.isDynamic && !sym.isDynamic {
          next := Ref(curr.name, i, true, sym.binding, sym.objIndex);
        } else if !currSym.isDynamic && sym.isDynamic {
        } else if currSym.isDynamic && sym.isDynamic {
        } else if curr.binding == GlobalBinding && sym.binding == GlobalBinding {
          diags := diags + [Duplicate(sym.name, curr.objIndex, sym.objIndex)];
        } else if curr.binding == WeakBinding && sym.binding == GlobalBinding {
          next := Ref(curr.name, i, true, sym.binding, sym.objIndex);
        }
      }
      refs := refs[m.value := next];
      i := i + 1;
    }
  }

  lemma NoRefs(syms: seq<Symbol>)
    ensures RefsOk(syms, [], 0)
  {
  }

  lemma KeptRef(syms: seq<Symbol>, refs: seq<Ref>, i: nat, m: nat)
    requires i <= |syms| && RefsOk(syms, refs, i) && m < |refs|
    ensures refs[m].symId < i && refs[m] == RefOf(syms, refs[m].symId)
  {
  }

  // ---------------------------------------------------------------- agreement

  /** The kept symbol is the best of those resolution looks at. */
  ghost predicate BestCounted(syms: seq<Symbol>, name: string, n: nat, k: nat) {
    && k < n <= |syms| && Counts(syms[k], name)
    && forall j :: 0 <= j < n && Counts(syms[j], name) ==>
         Rank(syms[k]) < Rank(syms[j]) || (Rank(syms[k]) == Rank(syms[j]) && k <= j)
  }

  lemma {:induction false} KeptIsBest(syms: seq<Symbol>, name: string, n: nat)
    requires n <= |syms| && Kept(syms, name, n).Some?
    ensures BestCounted(syms, name, n, Kept(syms, name, n).value)
  {
    if Kept(syms, name, n - 1).Some? { KeptIsBest(syms, name, n - 1); }
  }

  ghost predicate NoLocal(syms: seq<Symbol>, name: string) {
    forall j :: 0 <= j < |syms| && syms[j].name == name ==> syms[j].binding != LocalBinding
  }

  /** For a name without local symbols, resolution ends on the symbol lookup finds. */
  lemma ResolutionIsLookup(syms: seq<Symbol>, name: string)
    requires name != "" && NoLocal(syms, name)
    ensures Kept(syms, name, |syms|) == Found(syms, name)
  {
    FoundIsBestIff(syms, name);
    assert !Hidden(syms, name);
    hide Kept, Found;
    if Kept(syms, name, |syms|).Some? {
      KeptIsBest(syms, name, |syms|);
      var k := Kept(syms, name, |syms|).value;
      assert IsBest(syms, name, |syms|, k);
      BestIsUnique(syms, name, |syms|, k, Found(syms, name).value);
    }
  }

  /** Two different static global definitions of the name. */
  ghost predicate TwoStrong(syms: seq<Symbol>, name: string, n: nat) {
    exists i, j :: 0 <= i < j < n <= |syms| && Counts(syms[i], name) && Counts(syms[j], name)
                   && IsStaticGlobal(syms[i]) && IsStaticGlobal(syms[j])
  }

  ghost predicate Reported(diags: seq<Diagnostic>, name: string) {
    exists d :: 0 <= d < |diags| && diags[d].Duplicate? && diags[d].name == name
  }

  lemma StrongIsKept(syms: seq<Symbol>, name: string, n: nat, i: nat)
    requires i < n <= |syms| && Counts(syms[i], name) && IsStaticGlobal(syms[i])
    ensures Kept(syms, name, n).Some? && IsStaticGlobal(syms[Kept(syms, name, n).value])
  {
    KeptIsBest(syms, name, n);
  }

  lemma ReportedMore(diags: seq<Diagnostic>, d: Diagnostic, name: string)
    ensures Reported(diags + [d], name) <==> Reported(diags, name) || (d.Duplicate? && d.name == name)
  {
    var more := diags + [d];
    if Reported(diags, name) {
      var k :| 0 <= k < |diags| && diags[k].Duplicate? && diags[k].name == name;
      assert more[k] == diags[k];
    }
    if d.Duplicate? && d.name == name { assert more[|diags|] == d; }
  }

  /** Symbol n-1 is a second static global of the name exactly when it clashes with the symbol kept for it. */
  lemma TwoStrongNext(syms: seq<Symbol>, name: string, n: nat)
    requires 0 < n <= |syms| && name != ""
    ensures TwoStrong(syms, name, n)
            <==> TwoStrong(syms, name, n - 1) || (Clashes(syms, n - 1) && syms[n - 1].name == name)
  {
    hide Kept;
    if TwoStrong(syms, name, n) && !TwoStrong(syms, name, n - 1) {
      var i, j :| 0 <= i < j < n && Counts(syms[i], name) && Counts(syms[j], name)
                  && IsStaticGlobal(syms[i]) && IsStaticGlobal(syms[j]);
      StrongIsKept(syms, name, n - 1, i);
    }
  }

  /** A duplicate is reported for a name exactly when it has two static global definitions. */
  lemma {:induction false} DuplicateIff(syms: seq<Symbol>, name: string, n: nat)
    requires n <= |syms| && name != ""
    ensures Reported(DuplicatesUpTo(syms, n), name) <==> TwoStrong(syms, name, n)
  {
    if n > 0 {
      DuplicateIff(syms, name, n - 1);
      TwoStrongNext(syms, name, n);
      hide Reported, TwoStrong, Kept;
      var before, after := DuplicatesUpTo(syms, n - 1), DuplicatesUpTo(syms, n);
      if Clashes(syms, n - 1) {
        var d := Duplicate(syms[n - 1].name, syms[Kept(syms, syms[n - 1].name, n - 1).value].objIndex,
                           syms[n - 1].objIndex);
        ReportedMore(before, d, name);
        assert after == before + [d];
      } else {
        assert after == before;
      }
    }
  }

  // ---------------------------------------------------------------- undefined names

  predicate IsMissing(r: Ref, isShared: bool) {
    !r.isDefined && !isShared && r.binding != WeakBinding
  }

  function MissingUpTo(refs: seq<Ref>, isShared: bool, n: nat): seq<Diagnostic>
    requires n <= |refs|
  {
    if n == 0 then []
    else
      MissingUpTo(refs, isShared, n - 1) +
      if IsMissing(refs[n - 1], isShared) then [Undefined(refs[n - 1].name, refs[n - 1].objIndex)] else []
  }

  /** How symbol i is resolved: as its name's kept symbol, or by itself when it is local or has no name. */
  function Resolution(syms: seq<Symbol>, i: nat): (bool, bool)
    requires i < |syms|
  {
    var k := Kept(syms, syms[i].name, |syms|);
    if Counts(syms[i], syms[i].name) && k.Some? then
      (syms[k.value].isDefined, syms[k.value].isDefined && syms[k.value].isDynamic)
    else (syms[i].isDefined, syms[i].isDynamic)
  }

  /** The name is only referenced: by a strong reference first. */
  ghost predicate FirstStrong(syms: seq<Symbol>, name: string, n: nat, i: nat) {
    && i < n <= |syms| && Counts(syms[i], name) && syms[i].binding == GlobalBinding
    && (forall j :: 0 <= j < i ==> !Counts(syms[j], name))
    && (forall j :: 0 <= j < n && Counts(syms[j], name) ==> !syms[j].isDefined)
  }

  lemma {:induction false} UndefinedKeepsFirst(syms: seq<Symbol>, name: string, n: nat)
    requires n <= |syms| && Kept(syms, name, n).Some? && !syms[Kept(syms, name, n).value].isDefined
    ensures forall j :: 0 <= j < n && Counts(syms[j], name) ==> !syms[j].isDefined
    ensures forall j :: 0 <= j < Kept(syms, name, n).value ==> !Counts(syms[j], name)
  {
    if Kept(syms, name, n - 1).Some? { UndefinedKeepsFirst(syms, name, n - 1); }
  }

  lemma {:induction false} FirstIsKept(syms: seq<Symbol>, name: string, n: nat, i: nat)
    requires i < n <= |syms| && Counts(syms[i], name) && (forall j :: 0 <= j < i ==> !Counts(syms[j], name))
    requires forall j :: 0 <= j < n && Counts(syms[j], name) ==> !syms[j].isDefined
    ensures Kept(syms, name, n) == Some(i)
  {
    if i < n - 1 { FirstIsKept(syms, name, n - 1, i); }
  }

  /** The kept symbol is a missing one exactly when there is no definition and the first reference is strong. */
  lemma MissingIff(syms: seq<Symbol>, name: string, isShared: bool)
    requires Kept(syms, name, |syms|).Some?
    ensures IsMissing(RefOf(syms, Kept(syms, name, |syms|).value), isShared) <==>
              !isShared && exists i :: FirstStrong(syms, name, |syms|, i)
  {
    var k := Kept(syms, name, |syms|).value;
    if !syms[k].isDefined {
      UndefinedKeepsFirst(syms, name, |syms|);
      if syms[k].binding == GlobalBinding { assert FirstStrong(syms, name, |syms|, k); }
    }
    if i :| FirstStrong(syms, name, |syms|, i) { FirstIsKept(syms, name, |syms|, i); }
  }

  lemma {:induction false} MissingListed(refs: seq<Ref>, isShared: bool, n: nat, d: Diagnostic)
    requires n <= |refs|
    ensures d in MissingUpTo(refs, isShared, n) <==>
              exists r :: 0 <= r < n && IsMissing(refs[r], isShared) && d == Undefined(refs[r].name, refs[r].objIndex)
  {
    if n > 0 {
      MissingListed(refs, isShared, n - 1, d);
      var was := MissingUpTo(refs, isShared, n - 1);
      assert d in MissingUpTo(refs, isShared, n) <==>
               d in was || (IsMissing(refs[n - 1], isShared) && d == Undefined(refs[n - 1].name, refs[n - 1].objIndex));
    }
  }

  /**
   * The list reports a name for an object exactly when nothing defines it and that object's strong reference is the
   * first.
   */
  lemma UndefinedIff(syms: seq<Symbol>, refs: seq<Ref>, name: string, isShared: bool, obj: nat)
    requires RefsOk(syms, refs, |syms|)
    ensures Undefined(name, obj) in MissingUpTo(refs, isShared, |refs|) <==>
              !isShared && exists i: nat :: FirstStrong(syms, name, |syms|, i) && syms[i].objIndex == obj
  {
    hide RefsOk, MissingUpTo, Counts, Kept;
    if Undefined(name, obj) in MissingUpTo(refs, isShared, |refs|) {
      var i := ListedIsFirstStrong(syms, refs, name, isShared, obj);
    }
    if !isShared {
      forall i: nat | FirstStrong(syms, name, |syms|, i) && syms[i].objIndex == obj
        ensures Undefined(name, obj) in MissingUpTo(refs, isShared, |refs|)
      {
        FirstStrongListed(syms, refs, name, i);
      }
    }
  }

  lemma ListedIsFirstStrong(syms: seq<Symbol>, refs: seq<Ref>, name: string, isShared: bool, obj: nat) returns (i: nat)
    requires RefsOk(syms, refs, |syms|) && Undefined(name, obj) in MissingUpTo(refs, isShared, |refs|)
    ensures !isShared && FirstStrong(syms, name, |syms|, i) && syms[i].objIndex == obj
  {
    MissingListed(refs, isShared, |refs|, Undefined(name, obj));
    hide MissingUpTo, Kept;
    var r :| 0 <= r < |refs| && IsMissing(refs[r], isShared)
        && Undefined(name, obj) == Undefined(refs[r].name, refs[r].objIndex);
    assert EntryOk(syms, refs[r], |syms|);
    MissingIff(syms, name, isShared);
    i :| FirstStrong(syms, name, |syms|, i);
    FirstIsKept(syms, name, |syms|, i);
  }

  lemma FirstStrongListed(syms: seq<Symbol>, refs: seq<Ref>, name: string, i: nat)
    requires RefsOk(syms, refs, |syms|) && FirstStrong(syms, name, |syms|, i)
    ensures Undefined(name, syms[i].objIndex) in MissingUpTo(refs, false, |refs|)
  {
    FirstIsKept(syms, name, |syms|, i);
    hide Kept, MissingUpTo;
    assert HasRef(refs, name);
    var r :| 0 <= r < |refs| && refs[r].name == name;
    assert EntryOk(syms, refs[r], |syms|);
    assert IsMissing(refs[r], false);
    MissingListed(refs, false, |refs|, Undefined(name, syms[i].objIndex));
  }

  /** So the order of two references decides whether a missing definition is an error. */
  lemma ReferenceOrderMatters(weak: Symbol, strong: Symbol)
    requires Counts(weak, weak.name) && Counts(strong, weak.name) && weak.binding == WeakBinding
             && strong.binding == GlobalBinding
    requires !weak.isDefined && !strong.isDefined
    ensures Kept([weak, strong], weak.name, 2) == Some(0) && !IsMissing(RefOf([weak, strong], 0), false)
    ensures Kept([strong, weak], weak.name, 2) == Some(0) && IsMissing(RefOf([strong, weak], 0), false)
  {
    FirstIsKept([weak, strong], weak.name, 2, 0);
    FirstIsKept([strong, weak], weak.name, 2, 0);
  }

  /** nylink_resolve_symbols, from the first loop to the resolution of every symbol. */
  method ResolveSymbols(syms: seq<Symbol>, isShared: bool)
    returns (success: bool, diags: seq<Diagnostic>, resolved: seq<(bool, bool)>, ghost refs: seq<Ref>)
    ensures RefsOk(syms, refs, |syms|)
    ensures diags == DuplicatesUpTo(syms, |syms|) + MissingUpTo(refs, isShared, |refs|)
    ensures success <==> diags == []
    ensures success ==> |resolved| == |syms| && forall i :: 0 <= i < |syms| ==> resolved[i] == Resolution(syms, i)
  {
    hide RefsOk, Kept, DuplicatesUpTo, Resolution;
    var table, duplicates := Collect(syms);
    refs := table;
    var missing: seq<Diagnostic> := [];
    var r := 0;
    while r < |table|
      invariant 0 <= r <= |table| && missing == MissingUpTo(table, isShared, r)
    {
      if !table[r].isDefined {
        if !(isShared || table[r].binding == WeakBinding) {
          missing := missing + [Undefined(table[r].name, table[r].objIndex)];
        }
      }
      r := r + 1;
    }
    diags := duplicates + missing;
    success := diags == [];
    resolved := [];
    if !success { return; }
    var i := 0;
    while i < |syms|
      invariant 0 <= i <= |syms| && |resolved| == i
      invariant forall j :: 0 <= j < i ==> resolved[j] == Resolution(syms, j)
    {
      var sym := syms[i];
      var own := (sym.isDefined, sym.isDynamic);
      if sym.binding != LocalBinding && sym.name != "" {
        var m := MatchRef(table, sym.name);
        if m.Some? {
          KeptRef(syms, table, |syms|, m.value);
          own := (table[m.value].isDefined, table[m.value].isDefined && syms[table[m.value].symId].isDynamic);
        }
        ResolutionIs(syms, table, i, m);
      } else {
        OwnResolution(syms, i);
      }
      resolved := resolved + [own];
      i := i + 1;
    }
  }

  lemma OwnResolution(syms: seq<Symbol>, i: nat)
    requires i < |syms| && (syms[i].binding == LocalBinding || syms[i].name == "")
    ensures Resolution(syms, i) == (syms[i].isDefined, syms[i].isDynamic)
  {
  }

  lemma ResolutionIs(syms: seq<Symbol>, refs: seq<Ref>, i: nat, m: Option<nat>)
    requires i < |syms| && RefsOk(syms, refs, |syms|) && Counts(syms[i], syms[i].name)
    requires m.Some? ==> m.value < |refs| && refs[m.value].name == syms[i].name
    requires m.None? ==> !HasRef(refs, syms[i].name)
    ensures m.Some? && refs[m.value].symId < |syms|
    ensures var r := refs[m.value];
            Resolution(syms, i) == (r.isDefined, r.isDefined && syms[r.symId].isDynamic)
  {
    hide Kept;
  }
}
