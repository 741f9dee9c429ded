/** Definitions and uses of every value (src/analysis/use_def.c): a counting pass, prefix sums, a filling pass. */
module UseDef {
  import opened Opcodes
  import opened IntFold
  import opened Ir
  import opened Slices
  import opened Sccp

  /** Ny_Use. */
  datatype Use = Use(inst: nat, opIdx: nat)

  datatype UseDefs = UseDefs(defInst: seq<Option<nat>>, uses: Table<Use>)

  /** The uses of v among the first k operands of instruction i. */
  function OpUses(i: nat, ops: seq<Operand>, v: nat, k: nat): seq<Use>
    requires k <= |ops|
  {
    if k == 0 then []
    else OpUses(i, ops, v, k - 1) + if ops[k - 1] == OpValue(v) then [Use(i, k - 1)] else []
  }

  /** The uses of v in the live instructions below n, in order. */
  function UsesBelow(f: Function, v: nat, n: nat): seq<Use>
    requires n <= |f.insts|
  {
    if n == 0 then []
    else
      UsesBelow(f, v, n - 1) +
      if f.insts[n - 1].opcode == NONE then [] else OpUses(n - 1, f.insts[n - 1].ops, v, |f.insts[n - 1].ops|)
  }

  /** The last live instruction below n with result v. */
  function DefBelow(f: Function, v: nat, n: nat): (d: Option<nat>)
    requires n <= |f.insts|
    ensures d.Some? ==> d.value < n && f.insts[d.value].opcode != NONE && f.insts[d.value].result == Some(v)
    ensures d.None? ==> forall i :: 0 <= i < n && f.insts[i].opcode != NONE ==> f.insts[i].result != Some(v)
  {
    if n == 0 then None
    else if f.insts[n - 1].opcode != NONE && f.insts[n - 1].result == Some(v) then Some(n - 1)
    else DefBelow(f, v, n - 1)
  }

  lemma {:induction false} OpUsesGrow(i: nat, ops: seq<Operand>, v: nat, j: nat, k: nat)
    requires j <= k <= |ops|
    ensures OpUses(i, ops, v, j) <= OpUses(i, ops, v, k)
    decreases k
  {
    if j < k { OpUsesGrow(i, ops, v, j, k - 1); }
  }

  lemma {:induction false} UsesGrow(f: Function, v: nat, m: nat, n: nat)
    requires m <= n <= |f.insts|
    ensures UsesBelow(f, v, m) <= UsesBelow(f, v, n)
    decreases n
  {
    hide OpUses;
    if m < n {
      UsesGrow(f, v, m, n - 1);
      NextUses(f, v, n - 1);
    }
  }

  /** The table names each use. */
  lemma {:induction false} OpUsesExact(i: nat, ops: seq<Operand>, v: nat, k: nat, u: Use)
    requires k <= |ops|
    ensures u in OpUses(i, ops, v, k) <==> u.inst == i && u.opIdx < k && ops[u.opIdx] == OpValue(v)
  {
    if k > 0 { OpUsesExact(i, ops, v, k - 1, u); }
  }

  lemma {:induction false} UsesExact(f: Function, v: nat, n: nat, u: Use)
    requires n <= |f.insts|
    ensures u in UsesBelow(f, v, n) <==>
              && u.inst < n && f.insts[u.inst].opcode != NONE
              && u.opIdx < |f.insts[u.inst].ops| && f.insts[u.inst].ops[u.opIdx] == OpValue(v)
  {
    hide OpUses;
    if n > 0 {
      UsesExact(f, v, n - 1, u);
      OpUsesExact(n - 1, f.insts[n - 1].ops, v, |f.insts[n - 1].ops|, u);
    }
  }

  /** Uses are listed in order of instruction, then of operand; so each once. */
  ghost predicate Ordered(s: seq<Use>) {
    forall j, k :: 0 <= j < k < |s| ==> s[j].inst < s[k].inst || (s[j].inst == s[k].inst && s[j].opIdx < s[k].opIdx)
  }

  lemma {:induction false} OpUsesOrdered(i: nat, ops: seq<Operand>, v: nat, k: nat)
    requires k <= |ops|
    ensures Ordered(OpUses(i, ops, v, k))
    ensures forall u :: u in OpUses(i, ops, v, k) ==> u.inst == i && u.opIdx < k
  {
    if k > 0 { OpUsesOrdered(i, ops, v, k - 1); }
  }

  lemma {:induction false} UsesOrdered(f: Function, v: nat, n: nat)
    requires n <= |f.insts|
    ensures Ordered(UsesBelow(f, v, n)) && forall u :: u in UsesBelow(f, v, n) ==> u.inst < n
  {
    hide OpUses, UsesBelow, Ordered;
    if n == 0 {
      UsesStart(f, v);
    } else {
      UsesOrdered(f, v, n - 1);
      var ops := f.insts[n - 1].ops;
      OpUsesOrdered(n - 1, ops, v, |ops|);
      NextUses(f, v, n - 1);
      assert UsesBelow(f, v, n - 1) + [] == UsesBelow(f, v, n - 1);
      OrderedJoin(UsesBelow(f, v, n - 1), OpUses(n - 1, ops, v, |ops|), n - 1);
    }
  }

  lemma UsesStart(f: Function, v: nat)
    ensures UsesBelow(f, v, 0) == [] && Ordered([])
  {
  }

  lemma OrderedJoin(a: seq<Use>, b: seq<Use>, n: nat)
    requires Ordered(a) && Ordered(b)
    requires (forall u :: u in a ==> u.inst < n) && (forall u :: u in b ==> u.inst == n)
    ensures Ordered(a + b)
  {
    assert forall j :: 0 <= j < |a| ==> a[j] in a;
    assert forall j :: 0 <= j < |b| ==> b[j] in b;
  }

  // ---------------------------------------------------------------- counting

  /** The counting pass over the operands of one instruction. */
  method CountOps(count: array<nat>, f: Function, i: nat)
    requires i < |f.insts| && f.insts[i].opcode != NONE && count.Length == |f.vals|
    requires forall v {:trigger count[v]} :: 0 <= v < |f.vals| ==> count[v] == |UsesBelow(f, v, i)|
    modifies count
    ensures forall v {:trigger count[v]} :: 0 <= v < |f.vals| ==> count[v] == |UsesBelow(f, v, i + 1)|
  {
    hide UsesBelow;
    var ops := f.insts[i].ops;
    var k := 0;
    while k < |ops|
      invariant 0 <= k <= |ops|
      invariant forall v {:trigger count[v]} :: 0 <= v < |f.vals| ==>
                count[v] == |UsesBelow(f, v, i)| + |OpUses(i, ops, v, k)|
    {
      if ops[k].OpValue? && ops[k].val < |f.vals| {
        count[ops[k].val] := count[ops[k].val] + 1;
      }
      k := k + 1;
    }
    forall v {:trigger count[v]} | 0 <= v < |f.vals| ensures count[v] == |UsesBelow(f, v, i + 1)| { NextUses(f, v, i); }
  }

  lemma NextUses(f: Function, v: nat, i: nat)
    requires i < |f.insts|
    ensures UsesBelow(f, v, i + 1) ==
            UsesBelow(f, v, i) + if f.insts[i].opcode == NONE then []
              else OpUses(i, f.insts[i].ops, v, |f.insts[i].ops|)
  {
  }

  /** The filling pass over the operands of one instruction. */
  method FillOps(packer: Packer<Use>, f: Function, i: nat)
    requires packer.Valid() && i < |f.insts| && f.insts[i].opcode != NONE && |packer.count| == |f.vals|
    requires forall v {:trigger packer.count[v]} :: 0 <= v < |f.vals| ==>
             packer.count[v] == |UsesBelow(f, v, |f.insts|)|
    requires forall v {:trigger packer.Contents(v)} :: 0 <= v < |f.vals| ==> packer.Contents(v) == UsesBelow(f, v, i)
    modifies packer.cursor, packer.items
    ensures packer.Valid()
    ensures forall v {:trigger packer.Contents(v)} :: 0 <= v < |f.vals| ==> packer.Contents(v) == UsesBelow(f, v, i + 1)
  {
    hide Packer.Valid, Packer.Contents, IsPrefixSum, Sum, UsesBelow;
    var ops := f.insts[i].ops;
    var k := 0;
    while k < |ops|
      invariant 0 <= k <= |ops| && packer.Valid()
      invariant forall v {:trigger packer.Contents(v)} :: 0 <= v < |f.vals| ==>
        packer.Contents(v) == UsesBelow(f, v, i) + OpUses(i, ops, v, k)
    {
      if ops[k].OpValue? && ops[k].val < |f.vals| {
        RoomForUse(f, i, ops[k].val, k);
        packer.Put(ops[k].val, Use(i, k));
      }
      k := k + 1;
    }
    forall v {:trigger packer.Contents(v)} | 0 <= v < |f.vals| ensures packer.Contents(v) == UsesBelow(f, v, i + 1) {
      NextUses(f, v, i);
    }
  }

  lemma RoomForUse(f: Function, i: nat, v: nat, k: nat)
    requires i < |f.insts| && f.insts[i].opcode != NONE && k < |f.insts[i].ops| && f.insts[i].ops[k] == OpValue(v)
    ensures |UsesBelow(f, v, i) + OpUses(i, f.insts[i].ops, v, k)| < |UsesBelow(f, v, |f.insts|)|
  {
    NextUses(f, v, i);
    OpUsesGrow(i, f.insts[i].ops, v, k + 1, |f.insts[i].ops|);
    UsesGrow(f, v, i + 1, |f.insts|);
  }

  /** The first pass: definitions and counts. */
  method CountUses(f: Function) returns (defs: array<Option<nat>>, count: array<nat>)
    ensures defs.Length == |f.vals| && count.Length == |f.vals|
    ensures forall v {:trigger defs[v]} :: 0 <= v < |f.vals| ==> defs[v] == DefBelow(f, v, |f.insts|)
    ensures forall v {:trigger count[v]} :: 0 <= v < |f.vals| ==> count[v] == |UsesBelow(f, v, |f.insts|)|
  {
    hide UsesBelow;
    var n := |f.vals|;
    defs := new Option<nat>[n](_ => None);
    count := new nat[n](_ => 0);
    forall v: nat ensures UsesBelow(f, v, 0) == [] { NoUsesYet(f, v); }
    var i := 0;
    while i < |f.insts|
      invariant 0 <= i <= |f.insts|
      invariant forall v {:trigger defs[v]} :: 0 <= v < n ==> defs[v] == DefBelow(f, v, i)
      invariant forall v {:trigger count[v]} :: 0 <= v < n ==> count[v] == |UsesBelow(f, v, i)|
    {
      var inst := f.insts[i];
      if inst.opcode != NONE {
        if inst.result.Some? && inst.result.value < n { defs[inst.result.value] := Some(i); }
        CountOps(count, f, i);
      } else {
        forall v: nat ensures UsesBelow(f, v, i + 1) == UsesBelow(f, v, i) { NextUses(f, v, i); }
      }
      i := i + 1;
    }
  }

  /** The second pass: the packed uses. */
  method FillUses(f: Function, count: seq<nat>) returns (table: Table<Use>)
    requires |count| == |f.vals|
    requires forall v {:trigger count[v]} :: 0 <= v < |f.vals| ==> count[v] == |UsesBelow(f, v, |f.insts|)|
    ensures table.Valid() && |table.start| == |f.vals|
    ensures forall v: nat {:trigger table.Slice(v)} :: v < |f.vals| ==> table.Slice(v) == UsesBelow(f, v, |f.insts|)
  {
    hide Packer.Valid, Packer.Contents, IsPrefixSum, Sum, UsesBelow;
    var packer := new Packer<Use>(count);
    forall v: nat ensures UsesBelow(f, v, 0) == [] { NoUsesYet(f, v); }
    var i := 0;
    while i < |f.insts|
      invariant 0 <= i <= |f.insts| && packer.Valid() && packer.count == count && fresh(packer.cursor)
                && fresh(packer.items)
      invariant forall v {:trigger packer.Contents(v)} :: 0 <= v < |f.vals| ==> packer.Contents(v) == UsesBelow(f, v, i)
    {
      if f.insts[i].opcode != NONE {
        FillOps(packer, f, i);
      } else {
        forall v: nat ensures UsesBelow(f, v, i + 1) == UsesBelow(f, v, i) { NextUses(f, v, i); }
      }
      i := i + 1;
    }
    table := packer.Finish();
  }

  /** ny_use_def_init. */
  method Build(f: Function) returns (ud: UseDefs)
    ensures |ud.defInst| == |f.vals| && |ud.uses.start| == |f.vals| && ud.uses.Valid()
    ensures forall v :: 0 <= v < |f.vals| ==> ud.defInst[v] == DefBelow(f, v, |f.insts|)
    ensures forall v: nat {:trigger ud.uses.Slice(v)} :: v < |f.vals| ==> ud.uses.Slice(v) == UsesBelow(f, v, |f.insts|)
  {
    hide UsesBelow;
    var defs, count := CountUses(f);
    var table := FillUses(f, count[..]);
    ud := UseDefs(defs[..], table);
  }

  lemma NoUsesYet(f: Function, v: nat)
    ensures UsesBelow(f, v, 0) == []
  {
  }

  // ---------------------------------------------------------------- feeding the solver

  function Insts(uses: seq<Use>): (s: seq<nat>)
    ensures |s| == |uses| && forall k :: 0 <= k < |s| ==> s[k] == uses[k].inst
  {
    seq(|uses|, k requires 0 <= k < |uses| => uses[k].inst)
  }

  function UsersOf(f: Function): (users: seq<seq<nat>>)
    ensures |users| == |f.vals|
  {
    seq(|f.vals|, v requires 0 <= v < |f.vals| => Insts(UsesBelow(f, v, |f.insts|)))
  }

  /** Where live instructions are the listed ones, these are the users the constant propagation asks for. */
  lemma UsersAreUsers(f: Function)
    requires forall i: nat :: i < |f.insts| ==> (f.insts[i].opcode != NONE <==> Listed(f, i))
    ensures UsersOk(f, UsersOf(f))
  {
    var users := UsersOf(f);
    hide UsesBelow;
    forall v: nat, i: nat | v < |users|
      ensures i in users[v] <==> Listed(f, i) && OpValue(v) in f.insts[i].ops
    {
      var uses := UsesBelow(f, v, |f.insts|);
      if i in users[v] {
        var k :| 0 <= k < |users[v]| && users[v][k] == i;
        UsesExact(f, v, |f.insts|, uses[k]);
      }
      if Listed(f, i) && OpValue(v) in f.insts[i].ops {
        var k :| 0 <= k < |f.insts[i].ops| && f.insts[i].ops[k] == OpValue(v);
        UsesExact(f, v, |f.insts|, Use(i, k));
        var m :| 0 <= m < |uses| && uses[m] == Use(i, k);
        assert users[v][m] == i;
      }
    }
  }
}
