/** The instruction set: word layout, mnemonics, encoding and decoding (arch.h, arch.c). */
module Arch {
  import opened Words
  import opened Wrappers
  import opened Ast
  import Libc

  const OP_JMP := 0
  const OP_JRP := 1
  const OP_LDN := 2
  const OP_STO := 3
  const OP_SUB := 4
  const OP_SUB_ALIAS := 5
  const OP_SKN := 6
  const OP_HLT := 7

  const OPCODE_MASK := 0x0000_E000
  const OPERAND_MASK := 0x0000_1FFF
  const OPDATA_MASK := 0xFFFF_0000
  const OPCODE_POS := 13
  const OPERAND_POS := 0
  const OPDATA_POS := 16

  /** `baby_mnemonics`. */
  const MNEMONICS: seq<Mnemonic> := [
    Instruction("JMP", OP_JMP, 1),
    Instruction("JRP", OP_JRP, 1),
    Instruction("SUB", OP_SUB, 1),
    Instruction("LDN", OP_LDN, 1),
    Instruction("SKN", OP_SKN, 0),
    Instruction("STO", OP_STO, 1),
    Instruction("HLT", OP_HLT, 0),
    Instruction("CMP", OP_SKN, 0),
    Instruction("STP", OP_HLT, 0),
    Directive("NUM", NUM),
    Directive("EJA", EJA)
  ]

  function FindIn(table: seq<Mnemonic>, name: string): Option<Mnemonic> {
    if table == [] then None
    else if Libc.StrCaseCmp(name, table[0].name) == 0 then Some(table[0])
    else FindIn(table[1..], name)
  }

  /** The built-in mnemonic of that name, in any case. */
  function FindInstr(name: string): Option<Mnemonic> {
    FindIn(MNEMONICS, name)
  }

  lemma {:induction false} FindInMember(table: seq<Mnemonic>, name: string)
    ensures FindIn(table, name).Some? ==> FindIn(table, name).value in table
  {
    if table != [] && Libc.StrCaseCmp(name, table[0].name) != 0 {
      FindInMember(table[1..], name);
    }
  }

  /** Every built-in mnemonic is an instruction of the machine other than opcode 5, or a directive. */
  lemma FindInstrKind(name: string)
    ensures FindInstr(name).Some? ==>
      var m := FindInstr(name).value;
      && !m.Macro?
      && (m.Instruction? ==> m.opcode < 8 && m.opcode != OP_SUB_ALIAS
                             && m.operands == if m.opcode == OP_SKN || m.opcode == OP_HLT then 0 else 1)
  {
    FindInMember(MNEMONICS, name);
    if FindInstr(name).Some? {
      var i :| 0 <= i < |MNEMONICS| && MNEMONICS[i] == FindInstr(name).value;
      assert i <= 10;
    }
  }

  datatype Decoded = Decoded(opcode: nat, operand: nat, data: nat)

  /** `arch_decode`. */
  function Decode(w: Word): Decoded {
    Decoded(ShiftRight(BitAnd(w, OPCODE_MASK), OPCODE_POS),
            ShiftRight(BitAnd(w, OPERAND_MASK), OPERAND_POS),
            ShiftRight(BitAnd(w, OPDATA_MASK), OPDATA_POS))
  }

  /** The word `assemble_one` builds for an instruction. */
  function EncodeInstruction(opcode: nat, operands: nat, operand: Word): nat {
    var word := BitAnd(ShiftLeft(opcode, OPCODE_POS), OPCODE_MASK);
    if operands == 1 then BitOr(word, BitAnd(ShiftLeft(operand, OPERAND_POS), OPERAND_MASK)) else word
  }

  lemma {:induction false} ShiftBack(a: nat, k: nat)
    ensures ShiftRight(ShiftLeft(a, k), k) == a
  {
    if k > 0 {
      ShiftBack(a, k - 1);
      assert ShiftLeft(a, k) / 2 == ShiftLeft(a, k - 1);
    }
  }

  lemma {:induction false} ShiftRightIsDiv(a: nat, k: nat)
    ensures Pow2(k) > 0 && ShiftRight(a, k) == a / Pow2(k)
  {
    Pow2Monotonic(k, k);
    if k > 0 {
      ShiftRightIsDiv(a / 2, k - 1);
      HalveDiv(a, Pow2(k - 1));
    }
  }

  lemma {:induction false} ShiftLeftIsMul(a: nat, k: nat)
    ensures ShiftLeft(a, k) == a * Pow2(k)
  {
    if k > 0 {
      ShiftLeftIsMul(a, k - 1);
      assert a * (2 * Pow2(k - 1)) == 2 * (a * Pow2(k - 1));
    }
  }

  lemma MaskField(a: nat, bits: nat, pos: nat)
    ensures Pow2(bits) > 0 && Pow2(pos) > 0
    ensures ShiftRight(BitAnd(a, ShiftLeft(Pow2(bits) - 1, pos)), pos) == (a / Pow2(pos)) % Pow2(bits)
  {
    AndLowMask(ShiftRight(a, pos), bits);
    AndShiftedMask(a, Pow2(bits) - 1, pos);
    ShiftBack(BitAnd(ShiftRight(a, pos), Pow2(bits) - 1), pos);
    ShiftRightIsDiv(a, pos);
  }

  lemma Masks()
    ensures OPCODE_MASK == ShiftLeft(Pow2(3) - 1, OPCODE_POS)
    ensures OPERAND_MASK == ShiftLeft(Pow2(13) - 1, OPERAND_POS)
    ensures OPDATA_MASK == ShiftLeft(Pow2(16) - 1, OPDATA_POS)
  {
    Pow2Of32();
    assert ShiftLeft(7, 8) == 7 * 256;
    assert ShiftLeft(7, 13) == 0xE000;
    assert ShiftLeft(0xFFFF, 8) == 0xFFFF00;
    assert ShiftLeft(0xFFFF, 16) == 0xFFFF_0000;
  }

  /** The three fields tile the word: bits 15..13, bits 12..0 and bits 31..16. */
  lemma DecodeFields(w: Word)
    ensures Decode(w).opcode == (w / 0x2000) % 8
    ensures Decode(w).operand == w % 0x2000
    ensures Decode(w).data == w / 0x1_0000
    ensures w == Decode(w).data * 0x1_0000 + Decode(w).opcode * 0x2000 + Decode(w).operand
  {
    hide ShiftRight, ShiftLeft, BitAnd;
    Masks();
    Pow2Of32();
    MaskField(w, 3, 13);
    MaskField(w, 13, 0);
    MaskField(w, 16, 16);
    assert Pow2(3) == 8;
    FieldsTile(w);
  }

  lemma FieldsTile(w: Word)
    ensures (w / 0x1_0000) % 0x1_0000 == w / 0x1_0000
    ensures w / 0x1_0000 * 0x1_0000 + (w / 0x2000) % 8 * 0x2000 + w % 0x2000 == w
  {
    var h := w / 0x2000;
    assert w == 0x2000 * h + w % 0x2000;
    assert h == 8 * (h / 8) + h % 8;
    DivModUnique(w, 0x1_0000, h / 8, h % 8 * 0x2000 + w % 0x2000);
    SmallMod(w / 0x1_0000, 0x1_0000);
  }

  lemma EncodeValue(opcode: nat, operands: nat, operand: Word)
    requires opcode < 8
    ensures EncodeInstruction(opcode, operands, operand)
         == opcode * 0x2000 + (if operands == 1 then operand % 0x2000 else 0)
  {
    OpcodeField(opcode);
    AndLowMask(operand, 13);
    assert Pow2(13) == 0x2000 by { Pow2Of32(); }
    var lo := BitAnd(operand, OPERAND_MASK);
    if operands == 1 {
      LowFieldMissesOpcode(opcode, lo);
      OrDisjoint(ShiftLeft(opcode, 13), lo);
    }
  }

  lemma OpcodeField(opcode: nat)
    requires opcode < 8
    ensures ShiftLeft(opcode, OPCODE_POS) == opcode * 0x2000
    ensures BitAnd(ShiftLeft(opcode, OPCODE_POS), OPCODE_MASK) == ShiftLeft(opcode, OPCODE_POS)
  {
    assert Pow2(13) == 0x2000 by { Pow2Of32(); }
    ShiftLeftIsMul(opcode, 13);
    assert OPCODE_MASK == ShiftLeft(7, 13) by { Masks(); }
    AndShiftedMask(ShiftLeft(opcode, 13), 7, 13);
    assert ShiftRight(ShiftLeft(opcode, 13), 13) == opcode by { ShiftBack(opcode, 13); }
    assert BitAnd(opcode, 7) == opcode by {
      AndLowMask(opcode, 3);
      SmallMod(opcode, 8);
    }
  }

  lemma LowFieldMissesOpcode(opcode: nat, lo: nat)
    requires lo < 0x2000
    ensures BitAnd(ShiftLeft(opcode, OPCODE_POS), lo) == 0
  {
    AndShiftedMask(lo, opcode, 13);
    AndComm(lo, ShiftLeft(opcode, 13));
    ShiftRightIsDiv(lo, 13);
    assert Pow2(13) == 0x2000 by { Pow2Of32(); }
    ShiftLeftIsMul(0, 13);
  }

  lemma {:induction false} AndComm(a: nat, b: nat)
    ensures BitAnd(a, b) == BitAnd(b, a)
  {
    if a > 0 && b > 0 {
      AndComm(a / 2, b / 2);
    }
  }
}
