/** The disassembler, and the round trip through the assembler (bdump.c). */
module Disassembler {
  import opened Words
  import opened Wrappers
  import opened Ast
  import opened Arch
  import opened ArchTables
  import opened Memory
  import opened ObjectFormat
  import opened Records
  import Libc

  /** One reading of a word: a mnemonic and its operand. */
  datatype Shown = Shown(mnemonic: string, nOperands: nat, operand: Word)

  /** The record of an address: its label and origin flags, the reading it is printed as, and the other one,
      which is printed after it as a comment. */
  datatype Line = Line(tag: bool, org: bool, main: Shown, alternative: Shown)

  /** The operands of the instructions with an opcode. */
  function Operands(opcode: int): nat {
    if opcode == OP_SKN || opcode == OP_HLT then 0 else 1
  }

  /** A word shown as data: its upper half is used, an operand that would be lost is, or it is zero. */
  predicate IsData(w: Word) {
    var d := Decode(w);
    d.data != 0 || (Operands(d.opcode) == 0 && d.operand != 0) || w == 0
  }

  ghost predicate ShowsData(s: Shown, w: Word) {
    s == Shown("NUM", 1, w)
  }

  /** The word's opcode, under whichever mnemonic it has, and the operand field. */
  ghost predicate ShowsInstr(s: Shown, w: Word) {
    exists m :: m in MNEMONICS && m.Instruction? && m.opcode == Decode(w).opcode
           && s.mnemonic == m.name && s.nOperands == m.operands && s.operand == Decode(w).operand
  }

  /** The line shows the word as what it was taken for, and then as the other. */
  ghost predicate Shows(l: Line, w: Word) {
    if IsData(w) then ShowsData(l.main, w) && ShowsInstr(l.alternative, w)
    else ShowsInstr(l.main, w) && ShowsData(l.alternative, w)
  }

  /** The mark before a line: address 1 is the start; elsewhere an origin where code and data meet. */
  ghost predicate Marked(l: Line, words: seq<Word>, a: nat)
    requires a < |words|
  {
    && (l.tag <==> a == 1)
    && (l.org <==> a == 1 || IsData(words[a]) != (a == 0 || IsData(words[a - 1])))
  }

  ghost predicate IsListing(lines: seq<Line>, words: seq<Word>) {
    |lines| == |words| && forall a :: 0 <= a < |lines| ==> Shows(lines[a], words[a]) && Marked(lines[a], words, a)
  }

  /** No word has opcode 5, which has no mnemonic. */
  predicate Listable(words: seq<Word>) {
    forall a :: 0 <= a < |words| ==> Decode(words[a]).opcode != OP_SUB_ALIAS
  }

  lemma ListableExact(words: seq<Word>)
    ensures Listable(words) <==> forall a :: 0 <= a < |words| ==> words[a] / 0x2000 % 8 != 5
  {
    forall a | 0 <= a < |words| ensures Decode(words[a]).opcode == words[a] / 0x2000 % 8 {
      DecodeFields(words[a]);
    }
  }

  /** Some instruction, with an operand of 13 bits if it takes one and without one otherwise, is assembled to the
      word. */
  ghost predicate Assemblable(w: Word) {
    exists m, v: Word :: m in MNEMONICS && m.Instruction? && v < 0x2000 && (m.operands == 0 ==> v == 0)
                         && CodeWord(m.name, v) == Some(w)
  }

  lemma CodeOfInstruction(m: Mnemonic, v: Word)
    requires m in MNEMONICS && m.Instruction? && v < 0x2000
    ensures m.opcode < 8 && m.opcode != 5 && (m.operands == 0 <==> m.opcode == 6 || m.opcode == 7)
    ensures CodeWord(m.name, v) == Some(m.opcode * 0x2000 + if m.operands == 0 then 0 else v)
  {
    hide MNEMONICS, FindInstr, EncodeInstruction;
    SameNameFinds(m);
    OpcodeRange(m);
    EncodeValue(m.opcode, m.operands, v);
  }

  lemma Fields(opcode: nat, v: nat, w: Word)
    requires w == opcode * 0x2000 + v && v < 0x2000 && opcode < 8
    ensures Decode(w) == Decoded(opcode, v, 0)
  {
    hide Decode;
    DecodeFields(w);
    DivModUnique(w, 0x2000, opcode, v);
    SmallMod(opcode, 8);
    DivModUnique(w, 0x1_0000, 0, w);
  }

  /** A word is taken for an instruction exactly if it is not zero and some instruction is assembled to it. */
  lemma DataExact(w: Word)
    requires w / 0x2000 % 8 != 5
    ensures !IsData(w) <==>
      w != 0 && exists m, v: Word :: m in MNEMONICS && m.Instruction? && v < 0x2000 && (m.operands == 0 ==> v == 0)
                                     && CodeWord(m.name, v) == Some(w)
  {
    hide MNEMONICS, CodeWord, Decode;
    DecodeFields(w);
    if m, v: Word :| m in MNEMONICS && m.Instruction? && v < 0x2000 && (m.operands == 0 ==> v == 0)
                     && CodeWord(m.name, v) == Some(w) {
      CodeOfInstruction(m, v);
      Fields(m.opcode, if m.operands == 0 then 0 else v, w);
    }
    if !IsData(w) {
      var d := Decode(w);
      var m := SomeMnemonic(d.opcode);
      CodeOfInstruction(m, d.operand);
    }
  }

  /** The words read from the first `length` addresses of a page. */
  function FirstWords(s: seq<Word>, length: nat): (r: seq<Word>)
    requires |s| > 0
    ensures |r| == length && forall a :: 0 <= a < length ==> r[a] == Load(s, a)
  {
    seq(length, a requires 0 <= a < length => Load(s, a))
  }

  /** The word is not zero and is what some instruction is assembled to. */
  ghost predicate IsCode(w: Word) {
    w != 0 && Assemblable(w)
  }

  /** What a line tells of its word, in the terms of the assembler: a word that some instruction is assembled to
      is shown as that, with the number it is as a comment; any other word the other way round. The start is
      marked at address 1, and an origin there and wherever code and data meet. */
  ghost predicate Tells(lines: seq<Line>, words: seq<Word>, a: nat)
    requires |lines| == |words|
  {
    a < |words| &&
    var l, w, data := lines[a], words[a], Shown("NUM", 1, words[a]);
    && (if IsCode(w) then l.main != data && l.alternative == data else l.main == data && l.alternative != data)
    && (exists m :: m in MNEMONICS && m.Instruction? && m.opcode == w / 0x2000 % 8
                    && (if IsCode(w) then l.main else l.alternative) == Shown(m.name, m.operands, w % 0x2000))
    && (l.tag <==> a == 1)
    && (l.org <==> a == 1 || IsCode(w) != (a > 0 && IsCode(words[a - 1])))
  }

  lemma ListingTells(lines: seq<Line>, words: seq<Word>)
    requires IsListing(lines, words) && Listable(words)
    ensures forall a :: 0 <= a < |words| ==> Tells(lines, words, a)
  {
    hide MNEMONICS, Decode, Assemblable;
    forall a | 0 <= a < |words| ensures Tells(lines, words, a) {
      assert Shows(lines[a], words[a]) && Marked(lines[a], words, a);
      CodeIsNoData(words, a);
      if a > 0 {
        CodeIsNoData(words, a - 1);
      }
      DecodeFields(words[a]);
      NotData(if IsData(words[a]) then lines[a].alternative else lines[a].main, words[a]);
    }
  }

  /** Read off the lines alone: which words are shown as instructions, and where the marks are. */
  lemma LinesTell(lines: seq<Line>, words: seq<Word>, a: nat)
    requires a < |lines| == |words| && Tells(lines, words, a) && (a > 0 ==> Tells(lines, words, a - 1))
    ensures lines[a].main == Shown("NUM", 1, words[a]) <==>
      words[a] == 0 || !exists m, v: Word :: m in MNEMONICS && m.Instruction? && v < 0x2000
                                            && (m.operands == 0 ==> v == 0) && CodeWord(m.name, v) == Some(words[a])
    ensures lines[a].main == Shown("NUM", 1, words[a]) || lines[a].alternative == Shown("NUM", 1, words[a])
    ensures lines[a].tag <==> a == 1
    ensures lines[a].org <==> a == 1 || (lines[a].main == Shown("NUM", 1, words[a]))
                                        != (a == 0 || lines[a - 1].main == Shown("NUM", 1, words[a - 1]))
  {
    hide MNEMONICS, CodeWord;
  }

  /** The instruction shown is one with the word's opcode, and the operand its low 13 bits. */
  lemma LineShows(lines: seq<Line>, words: seq<Word>, a: nat)
    requires a < |lines| == |words| && Tells(lines, words, a)
    ensures exists m, s :: s in {lines[a].main, lines[a].alternative} && s.mnemonic != "NUM"
                           && m in MNEMONICS && m.Instruction? && m.opcode == words[a] / 0x2000 % 8
                           && s.mnemonic == m.name && s.nOperands == m.operands && s.operand == words[a] % 0x2000
  {
    hide MNEMONICS, CodeWord, Assemblable;
    var w, l := words[a], lines[a];
    var m :| m in MNEMONICS && m.Instruction? && m.opcode == w / 0x2000 % 8
      && (if IsCode(w) then l.main else l.alternative) == Shown(m.name, m.operands, w % 0x2000);
    NotNum(m);
    var s := if IsCode(w) then l.main else l.alternative;
    assert s in {lines[a].main, lines[a].alternative};
  }

  lemma NotNum(m: Mnemonic)
    requires m in MNEMONICS && m.Instruction?
    ensures m.name != "NUM"
  {
    hide MNEMONICS;
    NumFinds();
    SameNameFinds(m);
  }

  lemma CodeIsNoData(words: seq<Word>, a: nat)
    requires Listable(words) && a < |words|
    ensures IsCode(words[a]) <==> !IsData(words[a])
  {
    hide IsData;
    ListableExact(words);
    DataExact(words[a]);
  }

  lemma NotData(s: Shown, w: Word)
    requires ShowsInstr(s, w)
    ensures s.mnemonic != "NUM"
    ensures exists m :: m in MNEMONICS && m.Instruction? && m.opcode == Decode(w).opcode
                        && s == Shown(m.name, m.operands, Decode(w).operand)
  {
    hide Decode, MNEMONICS;
    var m :| m in MNEMONICS && m.Instruction? && m.opcode == Decode(w).opcode
      && s.mnemonic == m.name && s.nOperands == m.operands && s.operand == Decode(w).operand;
    assert s == Shown(m.name, m.operands, Decode(w).operand);
    NotNum(m);
  }

  /** `disassemble_section`, up to printing. */
  method DisassembleSection(arch: ArchState, length: Word, page: Page) returns (lines: seq<Line>)
    requires arch.Valid() && page.Valid() && Listable(FirstWords(page.data[..], length))
    ensures IsListing(lines, FirstWords(page.data[..], length))
    ensures forall a :: 0 <= a < length ==> Tells(lines, FirstWords(page.data[..], length), a)
  {
    hide Decode, Shows, Marked, IsData, Load, Found, MNEMONICS, IndexOk, Libc.SortedBy, Tells, Assemblable;
    ghost var words := FirstWords(page.data[..], length);
    var instrs := FindAll(arch, length, page);
    lines := [];
    var dataType := true;
    var addr := 0;
    while addr < length
      invariant 0 <= addr == |lines| <= length
      invariant dataType == (addr == 0 || IsData(words[addr - 1]))
      invariant forall a :: 0 <= a < addr ==> Shows(lines[a], words[a]) && Marked(lines[a], words, a)
    {
      var line;
      line, dataType := Classify(addr, page.ReadWord(addr), instrs[addr], dataType, words);
      lines := lines + [line];
      addr := addr + 1;
    }
    ListingTells(lines, words);
  }

  /** The first loop of `disassemble_section`. */
  method FindAll(arch: ArchState, length: Word, page: Page) returns (instrs: seq<seq<Mnemonic>>)
    requires arch.Valid() && page.Valid() && Listable(FirstWords(page.data[..], length))
    ensures |instrs| == length
    ensures forall a :: 0 <= a < length ==> Found(instrs[a], FirstWords(page.data[..], length)[a])
  {
    hide Decode, Load, Found, MNEMONICS, IndexOk, Libc.SortedBy;
    ghost var words := FirstWords(page.data[..], length);
    instrs := [];
    var addr := 0;
    while addr < length
      invariant 0 <= addr == |instrs| <= length
      invariant forall a :: 0 <= a < addr ==> Found(instrs[a], words[a])
    {
      assert page.ReadWord(addr) == words[addr];
      var results := FindMnemonics(arch, page.ReadWord(addr));
      instrs := instrs + [results];
      addr := addr + 1;
    }
  }

  ghost predicate Found(results: seq<Mnemonic>, w: Word) {
    results != [] && forall i :: 0 <= i < |results| ==>
      results[i] in MNEMONICS && results[i].Instruction? && results[i].opcode == Decode(w).opcode
  }

  /** `disassemble_instruction`. */
  method FindMnemonics(arch: ArchState, word: Word) returns (results: seq<Mnemonic>)
    requires arch.Valid() && Decode(word).opcode != OP_SUB_ALIAS
    ensures Found(results, word)
  {
    DecodeFields(word);
    results := arch.FindOpcode(Decode(word).opcode, 2);
  }

  /** One word: `dataType` is type[0] of the source, carried from word to word. */
  method Classify(addr: nat, w: Word, instrs: seq<Mnemonic>, wasData: bool, ghost words: seq<Word>)
    returns (line: Line, isData: bool)
    requires Found(instrs, w) && addr < |words| && words[addr] == w
    requires wasData == (addr == 0 || IsData(words[addr - 1]))
    ensures isData == IsData(w) && Shows(line, w) && Marked(line, words, addr)
  {
    hide Decode, MNEMONICS;
    var parts := Decode(w);
    var m := instrs[0];
    OpcodeRange(m);
    var autoLabel := false;
    if parts.data != 0 || (m.operands == 0 && parts.operand != 0) || w == 0 {
      autoLabel := !wasData;
      isData := true;
    } else {
      autoLabel := wasData;
      isData := false;
    }
    var tag := addr == 1;
    var org := addr == 1 || autoLabel;
    DecodeFields(w);
    var data := Shown("NUM", 1, w);
    var instr := Shown(m.name, m.operands, parts.operand);
    assert ShowsInstr(instr, w);
    line := if isData then Line(tag, org, data, instr) else Line(tag, org, instr, data);
  }

  // ----- the operand as text -----

  /** `%d` of a word. */
  function SignedDecimal(n: int): string {
    if n < 0 then "-" + Decimal(-n) else Decimal(n)
  }

  /** A decimal token of the assembler: an optional sign and digits. */
  predicate IsDecimalToken(s: string) {
    if s != [] && s[0] == '-' then |s| > 1 && forall i :: 0 <= i < |s[1..]| ==> IsDigit(s[1..][i])
    else s != [] && forall i :: 0 <= i < |s| ==> IsDigit(s[i])
  }

  /** Its value, as strtol computes it for numbers of this size. */
  function TokenValue(s: string): int
    requires IsDecimalToken(s)
  {
    if s[0] == '-' then -(DecimalValue(s[1..]) as int) else DecimalValue(s)
  }

  /** The sign, if there is one, and the digits of the number without superfluous zeros. */
  lemma SignedLaw(n: int)
    ensures SignedDecimal(n) == if n < 0 then "-" + Decimal(-n) else Decimal(n)
    ensures var d := Decimal(if n < 0 then -n else n);
      && d != "" && (forall i :: 0 <= i < |d| ==> '0' <= d[i] <= '9') && (d[0] == '0' <==> n == 0)
      && (n == 0 ==> d == "0")
  {
    DecimalRoundTrip(if n < 0 then -n else n);
    LeadingDigit(if n < 0 then -n else n);
  }

  lemma {:induction false} LeadingDigit(n: nat)
    ensures Decimal(n) != "" && (Decimal(n)[0] == '0' <==> n == 0)
  {
    if n >= 10 {
      LeadingDigit(n / 10);
    }
  }

  /** An operand is printed as a token that reads back as the same word. */
  lemma OperandRoundTrip(w: Word)
    ensures IsDecimalToken(SignedDecimal(Signed(w))) && Wrap(TokenValue(SignedDecimal(Signed(w)))) == w
  {
    var n := Signed(w);
    DecimalRoundTrip(if n < 0 then -n else n);
    WrapSigned(w);
    if n < 0 {
      assert SignedDecimal(n)[1..] == Decimal(-n);
    } else {
      assert IsDigit(Decimal(n)[0]);
    }
  }
}
