/** test/ldiv.asm from its source text to the quotient: assembled, written, loaded and run. */
module LongDivisionSource {
  import opened Words
  import opened Wrappers
  import opened Ast
  import opened Arch
  import opened ArchTables
  import opened Startup
  import opened Memory
  import opened Machine
  import opened Layout
  import opened Macros
  import opened Records
  import opened BabyAssembler
  import opened Listings
  import opened ObjectFormat
  import opened LongDivision

  /** A line without a line number. */
  function Bare(mnemonic: string, e: Expr): SourceLine {
    SourceLine(None, false, mnemonic, [e])
  }

  /** A line that starts with its own address. */
  function Numbered(mnemonic: string, e: Expr): SourceLine {
    SourceLine(None, true, mnemonic, [e])
  }

  /** A labelled word. */
  function Variable(name: string, value: Word): SourceLine {
    SourceLine(Some(name), false, "NUM", [Number(value)])
  }

  /** Line c of the program, with its three inputs. */
  function SourceLineOf(c: nat, divisor: Word, dividend: Word, d: Word): SourceLine
    requires c < 32
  {
    match c
    case 0 => Numbered("NUM", Number(19))
    case 1 => Bare("LDN", Name("dividend"))
    case 2 => Bare("STO", Name("dividend"))
    case 3 => Numbered("LDN", Name("dividend"))
    case 4 => Bare("SUB", Name("divisor_fp"))
    case 5 => SourceLine(None, false, "SKN", [])
    case 6 => Numbered("JMP", Number(0))
    case 7 => Bare("LDN", Name("dividend"))
    case 8 => Bare("STO", Name("dividend"))
    case 9 => Bare("LDN", Name("quotient"))
    case 10 => Bare("SUB", Name("quotient"))
    case 11 => Bare("STO", Name("quotient"))
    case 12 => Numbered("LDN", Name("dividend"))
    case 13 => Bare("SUB", Name("dividend"))
    case 14 => Bare("STO", Name("dividend"))
    case 15 => Bare("LDN", Name("quotient"))
    case 16 => Bare("STO", Name("quotient"))
    case 17 => SourceLine(None, false, "SKN", [])
    case 18 => Numbered("JMP", Number(26))
    case 19 => SourceLine(None, true, "HLT", [])
    case 20 => Numbered("STO", Name("dividend"))
    case 21 => Bare("LDN", Name("d"))
    case 22 => Bare("SUB", Name("quotient"))
    case 23 => Bare("SUB", Name("quotient"))
    case 24 => Bare("STO", Name("quotient"))
    case 25 => Bare("JMP", Number(27))
    case 26 => Numbered("EJA", Number(3))
    case 27 => Numbered("EJA", Number(12))
    case 28 => Variable("quotient", 0)
    case 29 => Variable("d", d)
    case 30 => Variable("divisor_fp", divisor)
    case 31 => Variable("dividend", dividend)
  }

  function Program(divisor: Word, dividend: Word, d: Word): (r: seq<SourceLine>)
    ensures |r| == 32 && forall c :: 0 <= c < 32 ==> r[c] == SourceLineOf(c, divisor, dividend, d)
  {
    seq(32, c requires 0 <= c < 32 => SourceLineOf(c, divisor, dividend, d))
  }

  /** The labels stand for the last four lines. */
  ghost predicate Variables(env: map<Ident, Word>) {
    && User("quotient") in env && env[User("quotient")] == QUOTIENT
    && User("d") in env && env[User("d")] == BIT
    && User("divisor_fp") in env && env[User("divisor_fp")] == DIVISOR
    && User("dividend") in env && env[User("dividend")] == DIVIDEND
  }

  /** Only the last four lines carry a label. */
  lemma LabelOfLine(c: nat, divisor: Word, dividend: Word, d: Word)
    requires c < 32
    ensures SourceLineOf(c, divisor, dividend, d).tag
         == if c == 28 then Some("quotient") else if c == 29 then Some("d") else if c == 30 then Some("divisor_fp")
            else if c == 31 then Some("dividend") else None
  {}

  lemma ProgramVariables(divisor: Word, dividend: Word, d: Word)
    ensures var lines := Program(divisor, dividend, d);
      Variables(Env(Items(lines, OperandLists(lines)), 0))
  {
    hide Items, Env, SourceLineOf, OperandLists;
    var lines := Program(divisor, dividend, d);
    var lists := OperandLists(lines);
    forall c | 0 <= c < 32
      ensures lines[c].tag == if c == 28 then Some("quotient") else if c == 29 then Some("d")
                                else if c == 30 then Some("divisor_fp") else if c == 31 then Some("dividend") else None
    {
      LabelOfLine(c, divisor, dividend, d);
    }
    LabelIsLine(lines, lists, 28, "quotient");
    LabelIsLine(lines, lists, 29, "d");
    LabelIsLine(lines, lists, 30, "divisor_fp");
    LabelIsLine(lines, lists, 31, "dividend");
  }

  /** The mnemonics the program uses. */
  lemma Mnemonics()
    ensures FindInstr("LDN") == Some(Instruction("LDN", OP_LDN, 1))
    ensures FindInstr("STO") == Some(Instruction("STO", OP_STO, 1))
    ensures FindInstr("SUB") == Some(Instruction("SUB", OP_SUB, 1))
    ensures FindInstr("SKN") == Some(Instruction("SKN", OP_SKN, 0))
    ensures FindInstr("JMP") == Some(Instruction("JMP", OP_JMP, 1))
    ensures FindInstr("HLT") == Some(Instruction("HLT", OP_HLT, 0))
    ensures FindInstr("NUM") == Some(Directive("NUM", NUM))
    ensures FindInstr("EJA") == Some(Directive("EJA", EJA))
  {
    hide FindInstr;
    SameNameFinds(MNEMONICS[0]);
    SameNameFinds(MNEMONICS[2]);
    SameNameFinds(MNEMONICS[3]);
    SameNameFinds(MNEMONICS[4]);
    SameNameFinds(MNEMONICS[5]);
    SameNameFinds(MNEMONICS[6]);
    SameNameFinds(MNEMONICS[9]);
    SameNameFinds(MNEMONICS[10]);
  }

  /** An instruction with a small operand assembles to the machine word. */
  lemma Encodes(opcode: nat, operands: nat, v: Word)
    requires opcode < 8 && operands <= 1 && v < 0x2000 && (operands == 0 ==> v == 0)
    ensures Wrap(EncodeInstruction(opcode, operands, v)) == Ins(opcode, v)
  {
    hide EncodeInstruction;
    EncodeValue(opcode, operands, v);
  }

  /** The value of an operand of the program. */
  function Meant(e: seq<Expr>): Word {
    if e == [] then 0
    else match e[0]
      case Number(v) => v
      case Name(n) => if n == "quotient" then QUOTIENT else if n == "d" then BIT
                      else if n == "divisor_fp" then DIVISOR else DIVIDEND
      case _ => 0
  }

  predicate Simple(e: seq<Expr>) {
    |e| <= 1 && (e != [] ==> e[0].Number? || (e[0].Name? && e[0].name in {"quotient", "d", "divisor_fp", "dividend"}))
  }

  lemma OperandMeant(env: map<Ident, Word>, at: Word, e: seq<Expr>)
    requires Variables(env) && Simple(e)
    ensures OperandValue(env, at, LiftAll(e)) == Some(Meant(e))
  {
    if e != [] {
      assert LiftAll(e)[0] == Lift(e[0]);
    }
  }

  /** The mnemonic of every line applied to what its operand means is the word of the image. */
  lemma ProgramWords(divisor: Word, dividend: Word, d: Word, c: nat)
    requires c < 32
    ensures var l := SourceLineOf(c, divisor, dividend, d);
      && Simple(l.operands) && FindInstr(l.mnemonic).Some?
      && CodeWord(l.mnemonic, Meant(l.operands)) == Some(LongDivision.Image(divisor, dividend, d)[c])
  {
    hide FindInstr, EncodeInstruction, Ins, MNEMONICS;
    var l := SourceLineOf(c, divisor, dividend, d);
    Mnemonics();
    var m := FindInstr(l.mnemonic).value;
    if m.Instruction? {
      Encodes(m.opcode, m.operands, Meant(l.operands));
    }
  }

  /** Every line of the program assembles to the word of the image. */
  lemma ProgramGives(divisor: Word, dividend: Word, d: Word, c: Word)
    requires c < 32
    ensures LineWord(Program(divisor, dividend, d), c) == Some(LongDivision.Image(divisor, dividend, d)[c])
  {
    hide Items, Env, FindInstr, LiftAll, Variables, OperandValue, SourceLineOf, LongDivision.Image, CodeWord, Simple,
         Meant;
    var lines := Program(divisor, dividend, d);
    ProgramVariables(divisor, dividend, d);
    ProgramWords(divisor, dividend, d, c);
    OperandMeant(Env(Items(lines, OperandLists(lines)), 0), c, lines[c].operands);
    SimpleAtMostOne(lines[c].operands);
  }

  lemma SimpleAtMostOne(e: seq<Expr>)
    requires Simple(e)
    ensures |e| <= 1
  {}

  lemma RunBeyond(s: State, n: nat, more: nat)
    requires |s.store| > 0 && n <= more && Run(s, n).stopped
    ensures Run(s, more) == Run(s, n)
  {
    RunAdd(s, n, more - n);
  }

  /** The program is assembled, written in any object format and loaded into a power-of-two store, which then
      starts with the image. */
  method LoadProgram(divisor: Word, dividend: Word, d: Word, f: Flags, size: nat) returns (page: Page)
    requires 32 <= size < TWO32 && IsPow2(size)
    ensures fresh(page) && fresh(page.data) && page.data.Length == size
    ensures page.data[..32] == LongDivision.Image(divisor, dividend, d)
  {
    hide LineWord, SourceLineOf, IsPow2, LongDivision.Image;
    var lines := Program(divisor, dividend, d);
    ghost var words := LongDivision.Image(divisor, dividend, d);
    forall c | 0 <= c < 32 ensures LineWord(lines, c) == Some(words[c]) {
      ProgramGives(divisor, dividend, d, c);
    }
    var ok, section := AssembleSource(lines);
    page := new Page(size);
    WriteThenLoad(section, f, page);
    forall c | 0 <= c < 32 ensures page.data[c] == words[c] {
      assert page.ReadWord(c) == section.data[c].value == section.At(c).value;
      SmallMod(c, size);
    }
  }

  /** From source text to quotient: the program is assembled, written in any object format, loaded into a
      power-of-two store and run; the machine stops, and the quotient and the dividend are as in
      LongDivisionCorrect. */
  method AssembleAndRun(divisor: Word, dividend: Word, d: Word, f: Flags, size: nat, ghost e: nat)
    returns (mc: Mc, ghost m: nat)
    requires 0 < divisor < 0x4000_0000 && 0 < dividend < 2 * divisor && e <= 30 && d == Pow2(e)
    requires 32 <= size < TWO32 && IsPow2(size)
    ensures mc.stopped && mc.page.data.Length == size
    ensures IsLastRound(dividend, divisor, e, m)
    ensures mc.page.data[QUOTIENT] == Pow2(e) * Quotient(dividend, divisor, m)
    ensures mc.page.data[DIVIDEND] == Wrap(-2 * Remainder(dividend, divisor, m))
  {
    hide LongDivision.Image, Run, IsLastRound, Quotient, Remainder, IsPow2;
    var page := LoadProgram(divisor, dividend, d, f, size);
    mc := new Mc(page);
    ghost var st := page.data[..];
    assert st[..32] == page.data[..32];
    ghost var n;
    m, n := LongDivisionCorrect(st, divisor, dividend, e);
    mc.Simulate(1100);
    RunBeyond(State(st, 0, 0, 0, 0, false), n, 1100);
  }
}
