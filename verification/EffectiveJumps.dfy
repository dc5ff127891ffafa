/** Jumping through words assembled by the EJA directive. */
module EffectiveJumps {
  import opened Words
  import opened Wrappers
  import opened Ast
  import opened Memory
  import opened Machine
  import opened Records
  import Arch
  import ArchTables

  /** EJA stores the address before its operand, because the counter moves on before a word is fetched. */
  lemma EjaWord(t: Word)
    ensures CodeWord("EJA", t) == Some(Wrap(t as int - 1))
  {
    assert Arch.MNEMONICS[10] == Directive("EJA", EJA);
    ArchTables.SameNameFinds(Arch.MNEMONICS[10]);
  }

  /** Jumping through a word that the assembler makes of `EJA t` continues at t, and jumping relatively through
      one continues t words after the jump, both modulo the store size. */
  lemma EffectiveJumpLands(s: State, t: Word)
    requires 0 < |s.store| < TWO32 && IsPow2(|s.store|)
    requires CodeWord("EJA", t) == Some(Load(s.store, Arch.Decode(Load(s.store, NextFetch(s))).operand))
    ensures var op := Arch.Decode(Load(s.store, NextFetch(s))).opcode;
      && (op == Arch.OP_JMP ==> NextFetch(Step(s)) == t % |s.store|)
      && (op == Arch.OP_JRP ==> NextFetch(Step(s)) == (NextFetch(s) + t) % |s.store|)
  {
    hide CodeWord, Store, Arch.Decode, BitAnd, IsPow2, Negate, Subtract, Signed;
    var size := |s.store|;
    var ci := Wrap(s.ci + 1);
    EjaWord(t);
    assert Load(s.store, NextFetch(s)) == Load(s.store, ci) by { SmallMod(ci % size, size); }
    BackAndForth(ci, t, size);
  }

  lemma BackAndForth(ci: Word, t: Word, size: nat)
    requires 0 < size < TWO32 && IsPow2(size)
    ensures Wrap(Wrap(t - 1) + 1) == t
    ensures Wrap(Wrap(ci + Wrap(t - 1)) + 1) % size == (ci % size + t) % size
  {
    JumpThenFetch(ci, t);
    WrapMod(ci + t, size);
    hide Wrap, IsPow2;
    var r := ci % size;
    SmallMod(r, size);
    var q := SameRemainder(ci, r, size);
    ModOfMultiple(r + t, q, size);
  }

  lemma JumpThenFetch(ci: Word, t: Word)
    ensures Wrap(Wrap(t - 1) + 1) == t
    ensures Wrap(Wrap(ci + Wrap(t - 1)) + 1) == Wrap(ci + t)
  {}
}
