/** Dead-code elimination keeps no instruction that a run can neither observe nor read the result of. */
module DceSilent {
  import opened Opcodes
  import opened Ir
  import opened Dce

  /** The state is about to execute position n of block b, and does not get stuck there. */
  ghost predicate Executes(f: Function, o: Oracle, st: State, b: nat, n: nat) {
    st.blk == b && st.pc == n && Step(f, o, st) != Stuck
  }

  /** Whatever state executes it, nothing is seen from outside and the next position of the block follows. */
  ghost predicate IsSilent(f: Function, b: nat, n: nat) {
    forall o: Oracle, st: State :: Executes(f, o, st, b, n) ==>
      Step(f, o, st).Running? && Step(f, o, st).s == st.(pc := n + 1, env := Step(f, o, st).s.env)
  }

  ghost predicate CanExecute(f: Function, b: nat, n: nat) {
    exists o: Oracle, st: State :: Executes(f, o, st, b, n)
  }

  /** A silent instruction that is not volatile but has a result. */
  ghost predicate IsIdle(f: Function, b: nat, n: nat) {
    && HasInst(f, b, n) && CanExecute(f, b, n) && IsSilent(f, b, n) && !InstAt(f, b, n).isVolatile
    && InstAt(f, b, n).result.Some? && InstAt(f, b, n).result.value < |f.vals|
  }

  lemma EffectIsPlain(op: Opcode)
    requires IsEffect(op) && !IsTerminator(op)
    ensures op != PHI && op != NONE
  {
  }

  /** Terminators leave the position or the run, effects are seen. */
  lemma EffectIsHeard(f: Function, o: Oracle, st: State)
    requires HasInst(f, st.blk, st.pc) && Step(f, o, st) != Stuck
    requires IsTerminator(InstAt(f, st.blk, st.pc).opcode) || IsEffect(InstAt(f, st.blk, st.pc).opcode)
    ensures Step(f, o, st).Running? ==> Step(f, o, st).s.pc == 0 || Step(f, o, st).s.trace != st.trace
  {
    var inst := InstAt(f, st.blk, st.pc);
    if IsTerminator(inst.opcode) {
      hide IsTerminator, IsBranch, IsBranchIf;
    } else {
      EffectIsPlain(inst.opcode);
      PlainStepIs(f, o, st);
      hide Step, ComputeAt, Store, AllReadable, IsEffect;
    }
  }

  /** An idle instruction is one the pass may remove. */
  lemma IdleIsPure(f: Function, b: nat, n: nat)
    requires IsIdle(f, b, n)
    ensures InstAt(f, b, n).opcode != NONE ==> IsPure(f, f.blocks[b].code[n])
  {
    hide Step, IsTerminator, IsEffect;
    var o, st :| Executes(f, o, st, b, n);
    if IsTerminator(InstAt(f, b, n).opcode) || IsEffect(InstAt(f, b, n).opcode) { EffectIsHeard(f, o, st); }
  }

  /** Every idle member of the set has a reader in it. */
  ghost predicate OnlyNeeded(f: Function, s: set<nat>) {
    forall b: nat, n: nat :: IsIdle(f, b, n) && f.blocks[b].code[n] in s ==>
      HasReader(f, s, InstAt(f, b, n).result.value)
  }

  lemma ClosedIsNeeded(f: Function, s: set<nat>)
    requires Closed(f, s)
    ensures OnlyNeeded(f, s)
  {
    hide IsSilent, CanExecute, IsPure, HasReader;
    forall b: nat, n: nat | IsIdle(f, b, n) && f.blocks[b].code[n] in s
      ensures HasReader(f, s, InstAt(f, b, n).result.value)
    {
      IdleIsPure(f, b, n);
      assert Live(f, f.blocks[b].code[n]);
    }
  }

  lemma GreatestIsNeeded(f: Function, s: set<nat>)
    requires IsGreatestClosed(f, s)
    ensures OnlyNeeded(f, s)
  {
    hide OnlyNeeded, Closed;
    ClosedIsNeeded(f, s);
  }
}
