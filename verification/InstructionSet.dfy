/** The mnemonics of the assembler, in any case of letters, and the words they make. */
module InstructionSet {
  import opened Words
  import opened Wrappers
  import opened Ast
  import opened Arch
  import opened ArchTables
  import opened Records
  import opened Libc

  /** A name finds a built-in mnemonic if and only if it is that mnemonic's name but for the case of letters. */
  lemma RespellingFinds(name: string, m: Mnemonic)
    requires m in MNEMONICS
    ensures FindInstr(name) == Some(m) <==>
      |name| == |m.name| && forall i :: 0 <= i < |name| ==>
        || name[i] == m.name[i]
        || ('A' <= name[i] <= 'Z' && m.name[i] as int == name[i] as int + 32)
        || ('A' <= m.name[i] <= 'Z' && name[i] as int == m.name[i] as int + 32)
  {
    hide MNEMONICS, FindInstr;
    CaseCompare(name, m.name);
    if StrCaseCmp(name, m.name) == 0 {
      FindOwnName(name, m);
    } else if FindInstr(name) == Some(m) {
      FoundNamed(name);
    }
  }

  lemma FoundNamed(name: string)
    requires FindInstr(name).Some?
    ensures StrCaseCmp(name, FindInstr(name).value.name) == 0
  {
    FoundIn(MNEMONICS, name);
  }

  lemma {:induction false} FoundIn(table: seq<Mnemonic>, name: string)
    requires FindIn(table, name).Some?
    ensures StrCaseCmp(name, FindIn(table, name).value.name) == 0
  {
    if StrCaseCmp(name, table[0].name) != 0 {
      FoundIn(table[1..], name);
    }
  }

  /** Respelling a mnemonic changes neither what it is nor the words it makes. */
  lemma RespellingSame(a: string, b: string, v: Word)
    requires StrCaseCmp(a, b) == 0
    ensures FindInstr(a) == FindInstr(b) && CodeWord(a, v) == CodeWord(b, v)
  {
    hide MNEMONICS;
    CaseCompare(a, b);
    SameFind(MNEMONICS, a, b);
  }

  lemma {:induction false} SameFind(table: seq<Mnemonic>, a: string, b: string)
    requires Fold(a) == Fold(b)
    ensures FindIn(table, a) == FindIn(table, b)
  {
    hide Fold;
    if table != [] {
      SameFind(table[1..], a, b);
    }
  }

  /** The words of the instructions: three bits of opcode above thirteen of operand, which instructions without
      an operand leave zero; and of the directives. */
  lemma InstructionWords(v: Word)
    ensures CodeWord("JMP", v) == Some(v % 0x2000) && CodeWord("JRP", v) == Some(0x2000 + v % 0x2000)
    ensures CodeWord("LDN", v) == Some(0x4000 + v % 0x2000) && CodeWord("STO", v) == Some(0x6000 + v % 0x2000)
    ensures CodeWord("SUB", v) == Some(0x8000 + v % 0x2000)
    ensures CodeWord("SKN", v) == CodeWord("CMP", v) == Some(0xC000)
    ensures CodeWord("HLT", v) == CodeWord("STP", v) == Some(0xE000)
    ensures CodeWord("NUM", v) == Some(v) && CodeWord("EJA", v) == Some((v + 0xFFFF_FFFF) % 0x1_0000_0000)
  {
    hide FindInstr, EncodeInstruction;
    OneWord(0, v);
    OneWord(1, v);
    OneWord(2, v);
    OneWord(3, v);
    OneWord(4, v);
    OneWord(5, v);
    OneWord(6, v);
    OneWord(7, v);
    OneWord(8, v);
    SameNameFinds(MNEMONICS[9]);
    SameNameFinds(MNEMONICS[10]);
  }

  lemma OneWord(i: nat, v: Word)
    requires i <= 8
    ensures var m := MNEMONICS[i];
      && m.Instruction? && m.opcode < 8
      && CodeWord(m.name, v) == Some(m.opcode * 0x2000 + if m.operands == 1 then v % 0x2000 else 0)
  {
    hide FindInstr, EncodeInstruction;
    var m := MNEMONICS[i];
    SameNameFinds(m);
    EncodeValue(m.opcode, m.operands, v);
  }

  const NAMES := ["JMP", "JRP", "SUB", "LDN", "SKN", "STO", "HLT", "CMP", "STP", "NUM", "EJA"]

  /** Nothing else is a mnemonic before macros are defined. */
  lemma KnownNames(name: string)
    ensures FindInstr(name).Some? <==>
      exists n :: n in ["JMP", "JRP", "SUB", "LDN", "SKN", "STO", "HLT", "CMP", "STP", "NUM", "EJA"]
                  && StrCaseCmp(name, n) == 0
  {
    hide FindInstr, MNEMONICS;
    NamesOfTable();
    if FindInstr(name).Some? {
      FoundNamed(name);
      Found(name);
      var i :| 0 <= i < |MNEMONICS| && MNEMONICS[i] == FindInstr(name).value;
      assert NAMES[i] in NAMES;
    }
    if n :| n in NAMES && StrCaseCmp(name, n) == 0 {
      var i :| 0 <= i < |NAMES| && NAMES[i] == n;
      FindOwnName(name, MNEMONICS[i]);
    }
  }

  lemma NamesOfTable()
    ensures |MNEMONICS| == |NAMES| && forall i :: 0 <= i < |MNEMONICS| ==> MNEMONICS[i].name == NAMES[i]
  {
    assert |MNEMONICS| == 11;
    forall i | 0 <= i < 11 ensures MNEMONICS[i].name == NAMES[i] {
      assert i <= 10;
    }
  }

  lemma Found(name: string)
    requires FindInstr(name).Some?
    ensures FindInstr(name).value in MNEMONICS
  {
    FindInMember(MNEMONICS, name);
  }

  /** Only mnemonics make words. */
  lemma CodedOnly(name: string, v: Word)
    requires CodeWord(name, v).Some?
    ensures FindInstr(name).Some?
  {
    hide FindInstr;
  }
}
