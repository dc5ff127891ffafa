/** A disassembly listing, fed back to the assembler, gives the image it was made from. */
module Reassembly {
  import opened Words
  import opened Wrappers
  import opened Ast
  import opened Arch
  import opened ArchTables
  import opened Startup
  import opened Sections
  import opened Memory
  import opened Layout
  import opened Macros
  import opened Records
  import opened BabyAssembler
  import opened Disassembler
  import opened Listings
  import Libc

  /** A printed line as source: `_start:`, `NN:` and the instruction with its operand as the token reads. */
  function SourceOf(l: Line): SourceLine {
    OperandRoundTrip(l.main.operand);
    SourceLine(if l.tag then Some("_start") else None, l.org, l.main.mnemonic,
               if l.main.nOperands == 0 then [] else [Number(Wrap(TokenValue(SignedDecimal(Signed(l.main.operand)))))])
  }

  /** The token printed for an operand reads as the operand; a line without one has none. */
  lemma SourceExact(l: Line)
    ensures var s := SourceOf(l);
      && s.mnemonic == l.main.mnemonic && s.org == l.org
      && s.tag == (if l.tag then Some("_start") else None)
      && s.operands == (if l.main.nOperands == 0 then [] else [Number(l.main.operand)])
  {
    hide SignedDecimal, TokenValue, IsDecimalToken;
    OperandRoundTrip(l.main.operand);
  }

  function Source(lines: seq<Line>): (r: seq<SourceLine>)
    ensures |r| == |lines| && forall a :: 0 <= a < |lines| ==> r[a] == SourceOf(lines[a])
  {
    seq(|lines|, a requires 0 <= a < |lines| => SourceOf(lines[a]))
  }

  /** A line assembles to the word it shows, whichever mnemonic alias was picked for it. */
  lemma LineAssembles(l: Line, w: Word, env: map<Ident, Word>, at: Word)
    requires Shows(l, w)
    ensures var v := OperandValue(env, at, LiftAll(SourceOf(l).operands));
      v.Some? && CodeWord(l.main.mnemonic, v.value) == Some(w) && FindInstr(l.main.mnemonic).Some?
  {
    hide MNEMONICS, FindInstr, Decode, EncodeInstruction, SignedDecimal, TokenValue, IsDecimalToken;
    DecodeFields(w);
    OperandRoundTrip(l.main.operand);
    var ops := LiftAll(SourceOf(l).operands);
    assert l.main.nOperands != 0 ==> ops[0] == FNumber(l.main.operand);
    if IsData(w) {
      NumFinds();
    } else {
      assert ShowsInstr(l.main, w);
      var m :| m in MNEMONICS && m.Instruction? && m.opcode == Decode(w).opcode
        && l.main.mnemonic == m.name && l.main.nOperands == m.operands && l.main.operand == Decode(w).operand;
      SameNameFinds(m);
      OpcodeRange(m);
      EncodeValue(m.opcode, m.operands, if m.operands == 0 then 0 else l.main.operand);
      CodeSmall(Decode(w).opcode, Decode(w).operand, w);
    }
  }

  lemma CodeSmall(opcode: nat, operand: nat, w: Word)
    requires w == opcode * 0x2000 + operand && operand < 0x2000
    ensures Wrap(opcode * 0x2000 + operand) == w && operand % 0x2000 == operand
  {}

  lemma ListingGives(lines: seq<Line>, words: seq<Word>, a: Word)
    requires IsListing(lines, words) && a < |lines| < TWO32
    ensures LineWord(Source(lines), a) == Some(words[a])
  {
    hide CodeWord, Shows, Marked, FindInstr, Env, Items, IsData;
    var s := Source(lines);
    LineAssembles(lines[a], words[a], Env(Items(s, OperandLists(s)), 0), a);
  }

  /** Disassembling an image without opcode 5 and assembling the listing rebuilds it word for word. */
  method DisassembleThenAssemble(arch: ArchState, length: Word, page: Page, ghost words: seq<Word>)
    returns (ok: bool, section: Section)
    requires arch.Valid() && page.Valid() && words == FirstWords(page.data[..], length) && Listable(words)
    requires length + 0x400 < TWO32
    ensures ok && section.length == length
    ensures forall a :: 0 <= a < length ==> section.At(a).value == words[a]
  {
    hide Libc.SortedBy, IndexOk, MNEMONICS, Shows, Marked, Listable, LineWord;
    var lines := DisassembleSection(arch, length, page);
    forall a | 0 <= a < length ensures LineWord(Source(lines), a) == Some(words[a]) {
      ListingGives(lines, words, a);
    }
    ok, section := AssembleSource(Source(lines));
  }
}
