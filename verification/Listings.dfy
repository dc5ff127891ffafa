/** Straight-line source: one instruction a line, at consecutive addresses from 0, with labels and
    origins that agree with them. Such programs assemble line by line. */
module Listings {
  import opened Words
  import opened Wrappers
  import opened Ast
  import opened Layout
  import opened Overlap
  import opened Macros
  import opened Hygiene
  import opened ParseSteps
  import opened CallContexts
  import opened BabyAssembler
  import opened Symbols
  import opened Sections
  import opened Records
  import Arch

  /** A line: a label, an origin equal to the line's address, and an instruction. */
  datatype SourceLine = SourceLine(tag: Option<string>, org: bool, mnemonic: string, operands: seq<Expr>)

  /** The statements of line a; its operands are operand list a. */
  function LineStmts(l: SourceLine, a: Word): seq<Stmt> {
    (if l.tag.Some? then [LabelStmt(l.tag.value)] else []) + (if l.org then [OrgStmt(a)] else [])
    + [InstrStmt(l.mnemonic, a)]
  }

  function Statements(lines: seq<SourceLine>): seq<Stmt>
    requires |lines| < TWO32
  {
    if lines == [] then []
    else var n := |lines| - 1; Statements(lines[..n]) + LineStmts(lines[n], n)
  }

  function OperandLists(lines: seq<SourceLine>): (r: seq<seq<Expr>>)
    ensures |r| == |lines| && forall a :: 0 <= a < |lines| ==> r[a] == lines[a].operands
  {
    seq(|lines|, a requires 0 <= a < |lines| => lines[a].operands)
  }

  // ----- programs without macros expand to themselves -----

  ghost predicate NoMacros(T: MnemonicTable) {
    forall k :: k in T && T[k].MnemSym? ==> !T[k].mnemonic.Macro?
  }

  ghost predicate Plain(stmts: seq<Stmt>, lists: nat) {
    forall i :: 0 <= i < |stmts| ==> !stmts[i].MacroStmt? && (stmts[i].InstrStmt? ==> stmts[i].cell < lists)
  }

  function ItemOf(lists: seq<seq<Expr>>, s: Stmt): FlatItem
    requires !s.MacroStmt? && (s.InstrStmt? ==> s.cell < |lists|)
  {
    match s
    case LabelStmt(n) => Label(User(n))
    case OrgStmt(at) => Org(at)
    case InstrStmt(m, cell) => Instr(FlatInstr(m, cell, LiftAll(lists[cell])))
  }

  function ItemsOf(lists: seq<seq<Expr>>, stmts: seq<Stmt>): (r: seq<FlatItem>)
    requires Plain(stmts, |lists|)
    ensures |r| == |stmts| && forall i :: 0 <= i < |stmts| ==> r[i] == ItemOf(lists, stmts[i])
  {
    seq(|stmts|, i requires 0 <= i < |stmts| => ItemOf(lists, stmts[i]))
  }

  ghost predicate EndsInInstr(stmts: seq<Stmt>) {
    stmts != [] ==> stmts[|stmts| - 1].InstrStmt?
  }

  lemma PlainRanked(T: MnemonicTable, lists: nat, stmts: seq<Stmt>)
    requires NoMacros(T) && Plain(stmts, lists)
    ensures TableRanked(T, map[], lists) && Ranked(map[], 0, lists, stmts)
  {}

  lemma {:induction false} PlainLater(stmts: seq<Stmt>, lists: nat)
    requires Plain(stmts, lists) && stmts != []
    ensures Later(stmts)
  {}

  lemma {:induction false} PlainExpands(T: MnemonicTable, lists: seq<seq<Expr>>, stmts: seq<Stmt>, k: nat)
    requires NoMacros(T) && Plain(stmts, |lists|) && EndsInInstr(stmts)
    ensures TableRanked(T, map[], |lists|) && Ranked(map[], 0, |lists|, stmts)
    ensures Expand(T, lists, map[], 0, stmts, k) == Some(Expansion(ItemsOf(lists, stmts), k))
    decreases |stmts|
  {
    hide Ranked, TableRanked, StmtRanked, NoMacros, Later, MacroOf, Define;
    PlainRanked(T, |lists|, stmts);
    if stmts == [] {
      assert ItemsOf(lists, stmts) == [];
    } else {
      var rest := stmts[1..];
      assert stmts[0] == stmts[..1][0];
      PlainExpands(T, lists, rest, k);
      assert ItemsOf(lists, stmts) == [ItemOf(lists, stmts[0])] + ItemsOf(lists, rest);
      if !stmts[0].InstrStmt? {
        PlainLater(rest, |lists|);
      } else {
        NoMacroOf(T, stmts[0].mnemonic);
      }
    }
  }

  lemma NoMacroOf(T: MnemonicTable, mnemonic: string)
    requires NoMacros(T)
    ensures MacroOf(T, mnemonic).None?
  {}

  lemma {:induction false} PlainHygienic(T: MnemonicTable, lists: seq<seq<Expr>>, stmts: seq<Stmt>, chain: seq<Frame>)
    requires NoMacros(T) && Plain(stmts, |lists|)
    ensures TableRanked(T, map[], |lists|) && Ranked(map[], 0, |lists|, stmts)
    ensures Hygienic(T, lists, map[], 0, stmts, chain)
    decreases |stmts|
  {
    PlainRanked(T, |lists|, stmts);
    if stmts != [] {
      PlainHygienic(T, lists, stmts[1..], chain);
      if stmts[0].InstrStmt? {
        assert MacroOf(T, stmts[0].mnemonic).None?;
      }
    }
  }

  // ----- the layout of a listing -----

  lemma {:induction false} StatementsPlain(lines: seq<SourceLine>, lists: nat)
    requires |lines| <= lists && |lines| < TWO32
    ensures Plain(Statements(lines), lists) && EndsInInstr(Statements(lines))
  {
    if lines != [] {
      StatementsPlain(lines[..|lines| - 1], lists);
    }
  }

  /** The items of a listing's first lines. */
  function Items(lines: seq<SourceLine>, lists: seq<seq<Expr>>): seq<FlatItem>
    requires |lines| <= |lists| && |lines| < TWO32
  {
    StatementsPlain(lines, |lists|);
    ItemsOf(lists, Statements(lines))
  }

  /** Instruction j of the items is line c, at address c; and it is the only one. */
  ghost predicate InPlace(items: seq<FlatItem>, lines: seq<SourceLine>, lists: seq<seq<Expr>>, j: nat)
    requires j < |items| && items[j].Instr? && |lines| <= |lists|
  {
    var c := items[j].payload.cell;
    && c < |lines| && Address(items, 0, j) == c
    && items[j].payload == FlatInstr(lines[c].mnemonic, c, LiftAll(lists[c]))
  }

  /** Line c has its instruction. */
  ghost predicate HasLine(items: seq<FlatItem>, c: nat) {
    exists j :: 0 <= j < |items| && items[j].Instr? && items[j].payload.cell == c
  }

  ghost predicate LaidOut(items: seq<FlatItem>, lines: seq<SourceLine>, lists: seq<seq<Expr>>)
    requires |lines| <= |lists| && |lines| < TWO32
  {
    && Cursor(items, 0) == |lines| && Length(items, 0) == |lines|
    && (forall j :: 0 <= j < |items| && items[j].Instr? ==> InPlace(items, lines, lists, j))
    && (forall j, k :: 0 <= j < k < |items| && items[j].Instr? && items[k].Instr? ==>
          items[j].payload.cell < items[k].payload.cell)
    && (forall c: nat :: c < |lines| ==> HasLine(items, c))
  }

  lemma HasLineStill(items: seq<FlatItem>, it: FlatItem, c: nat)
    requires HasLine(items, c) || (it.Instr? && it.payload.cell == c)
    ensures HasLine(items + [it], c)
  {
    if HasLine(items, c) {
      var j :| 0 <= j < |items| && items[j].Instr? && items[j].payload.cell == c;
      assert (items + [it])[j] == items[j];
    } else {
      assert (items + [it])[|items|] == it;
    }
  }

  lemma LineStill(items: seq<FlatItem>, it: FlatItem, lines: seq<SourceLine>, more: seq<SourceLine>,
                  lists: seq<seq<Expr>>, j: nat)
    requires j < |items| && items[j].Instr? && |lines| <= |more| <= |lists| && lines <= more
    requires InPlace(items, lines, lists, j)
    ensures InPlace(items + [it], more, lists, j)
  {
    AddressOfPrefix(items, [it], 0, j);
    assert (items + [it])[j] == items[j];
  }

  /** Adding an item that is not an instruction and does not move the cursor. */
  lemma AddMark(items: seq<FlatItem>, lines: seq<SourceLine>, lists: seq<seq<Expr>>, it: FlatItem)
    requires |lines| <= |lists| && |lines| < TWO32 && LaidOut(items, lines, lists)
    requires it.Label? || it == Org(|lines|)
    ensures LaidOut(items + [it], lines, lists)
  {
    hide InPlace, HasLine, Cursor, Length;
    CursorSnoc(items, it, 0);
    forall j | 0 <= j < |items + [it]| && (items + [it])[j].Instr? ensures InPlace(items + [it], lines, lists, j) {
      LineStill(items, it, lines, lines, lists, j);
    }
    forall c: nat | c < |lines| ensures HasLine(items + [it], c) {
      HasLineStill(items, it, c);
    }
  }

  /** Adding the instruction of the next line. */
  lemma AddLine(items: seq<FlatItem>, lines: seq<SourceLine>, lists: seq<seq<Expr>>, l: SourceLine)
    requires |lines| < |lists| && |lines| + 1 < TWO32 && LaidOut(items, lines, lists)
    ensures LaidOut(items + [Instr(FlatInstr(l.mnemonic, |lines|, LiftAll(lists[|lines|])))], lines + [l], lists)
  {
    hide HasLine, Cursor, Length, InPlace;
    var it: FlatItem := Instr(FlatInstr(l.mnemonic, |lines|, LiftAll(lists[|lines|])));
    var more, all := items + [it], lines + [l];
    CursorSnoc(items, it, 0);
    forall j | 0 <= j < |more| && more[j].Instr? ensures InPlace(more, all, lists, j) {
      if j < |items| {
        LineStill(items, it, lines, all, lists, j);
      } else {
        NewLine(items, lines, lists, l);
      }
    }
    forall j, k | 0 <= j < k < |more| && more[j].Instr? && more[k].Instr?
      ensures more[j].payload.cell < more[k].payload.cell
    {
      CellInRange(items, lines, lists, j);
    }
    forall c: nat | c < |all| ensures HasLine(more, c) {
      HasLineStill(items, it, c);
    }
  }

  lemma CellInRange(items: seq<FlatItem>, lines: seq<SourceLine>, lists: seq<seq<Expr>>, j: nat)
    requires |lines| <= |lists| && |lines| < TWO32 && LaidOut(items, lines, lists) && j < |items| && items[j].Instr?
    ensures items[j].payload.cell < |lines|
  {
    assert InPlace(items, lines, lists, j);
  }

  lemma NewLine(items: seq<FlatItem>, lines: seq<SourceLine>, lists: seq<seq<Expr>>, l: SourceLine)
    requires |lines| < |lists| && |lines| + 1 < TWO32 && Cursor(items, 0) == |lines|
    ensures var it: FlatItem := Instr(FlatInstr(l.mnemonic, |lines|, LiftAll(lists[|lines|])));
      InPlace(items + [it], lines + [l], lists, |items|)
  {
    var it: FlatItem := Instr(FlatInstr(l.mnemonic, |lines|, LiftAll(lists[|lines|])));
    assert (items + [it])[..|items|] == items;
  }

  /** The items of one line. */
  function LineItems(l: SourceLine, a: Word, lists: seq<seq<Expr>>): seq<FlatItem>
    requires a < |lists|
  {
    (if l.tag.Some? then [Label(User(l.tag.value))] else []) + (if l.org then [Org(a)] else [])
    + [Instr(FlatInstr(l.mnemonic, a, LiftAll(lists[a])))]
  }

  lemma AddLineItems(items: seq<FlatItem>, lines: seq<SourceLine>, lists: seq<seq<Expr>>, l: SourceLine)
    requires |lines| < |lists| && |lines| + 1 < TWO32 && LaidOut(items, lines, lists)
    ensures LaidOut(items + LineItems(l, |lines|, lists), lines + [l], lists)
  {
    hide LaidOut;
    var P := items;
    var n: Word := |lines|;
    if l.tag.Some? {
      AddMark(P, lines, lists, Label(User(l.tag.value)));
      P := P + [Label(User(l.tag.value))];
    }
    if l.org {
      AddMark(P, lines, lists, Org(n));
      P := P + [Org(n)];
    }
    AddLine(P, lines, lists, l);
    assert items + LineItems(l, n, lists) == P + [Instr(FlatInstr(l.mnemonic, n, LiftAll(lists[n])))];
  }

  lemma ItemsAppend(lists: seq<seq<Expr>>, a: seq<Stmt>, b: seq<Stmt>)
    requires Plain(a, |lists|) && Plain(b, |lists|)
    ensures Plain(a + b, |lists|) && ItemsOf(lists, a + b) == ItemsOf(lists, a) + ItemsOf(lists, b)
  {
    hide ItemOf;
  }

  lemma ItemsOfLine(lists: seq<seq<Expr>>, l: SourceLine, a: Word)
    requires a < |lists|
    ensures Plain(LineStmts(l, a), |lists|) && ItemsOf(lists, LineStmts(l, a)) == LineItems(l, a, lists)
  {
    hide LiftAll;
  }

  lemma ItemsOfLines(lines: seq<SourceLine>, lists: seq<seq<Expr>>)
    requires 0 < |lines| <= |lists| && |lines| < TWO32
    ensures var n := |lines| - 1;
      Items(lines, lists) == Items(lines[..n], lists) + LineItems(lines[n], n, lists)
  {
    hide LineItems, ItemsOf, LineStmts;
    var n := |lines| - 1;
    StatementsPlain(lines[..n], |lists|);
    ItemsOfLine(lists, lines[n], n);
    ItemsAppend(lists, Statements(lines[..n]), LineStmts(lines[n], n));
  }

  lemma NothingLaidOut(lists: seq<seq<Expr>>)
    ensures LaidOut(Items([], lists), [], lists)
  {
    NoItems<Ident, FlatInstr>(0);
    assert Items([], lists) == [];
  }

  lemma {:induction false} LinesLaidOut(lines: seq<SourceLine>, lists: seq<seq<Expr>>)
    requires |lines| <= |lists| && |lines| < TWO32
    ensures LaidOut(Items(lines, lists), lines, lists)
  {
    hide *;
    if lines == [] {
      NothingLaidOut(lists);
    } else {
      var n := |lines| - 1;
      LinesLaidOut(lines[..n], lists);
      AddLineItems(Items(lines[..n], lists), lines[..n], lists, lines[n]);
      ItemsOfLines(lines, lists);
      assert lines[..n] + [lines[n]] == lines;
    }
  }

  // ----- what the lines assemble to -----

  /** The value of a line's operand. */
  function LineValue(lines: seq<SourceLine>, a: Word): Option<Word>
    requires a < |lines| < TWO32
  {
    OperandValue(Env(Items(lines, OperandLists(lines)), 0), a, LiftAll(lines[a].operands))
  }

  /** Some instruction lies at the address. */
  ghost predicate Occupied(items: seq<FlatItem>, a: nat) {
    exists j :: 0 <= j < |items| && items[j].Instr? && Address(items, 0, j) == a
  }

  lemma LinesDistinct(lines: seq<SourceLine>, lists: seq<seq<Expr>>)
    requires |lines| <= |lists| && |lines| + 0x400 < TWO32
    ensures var items := Items(lines, lists);
      DistinctAddresses(items, 0) && InRange(items, 0) && Length(items, 0) == |lines|
    ensures forall a: nat :: a < |lines| ==> Occupied(Items(lines, lists), a)
  {
    hide Items, Cursor, Length;
    var items := Items(lines, lists);
    LinesLaidOut(lines, lists);
    forall j | 0 <= j < |items| && items[j].Instr? ensures Address(items, 0, j) == items[j].payload.cell < |lines| {
      assert InPlace(items, lines, lists, j);
    }
    forall a: nat | a < |lines| ensures Occupied(items, a) {
      assert HasLine(items, a);
      var j :| 0 <= j < |items| && items[j].Instr? && items[j].payload.cell == a;
      assert Address(items, 0, j) == a;
    }
  }

  /** Every line assembles to its mnemonic applied to its operand, at its own address. */
  lemma LineWords(lines: seq<SourceLine>, j: nat)
    requires |lines| + 0x400 < TWO32
    requires var items := Items(lines, OperandLists(lines)); j < |items| && items[j].Instr?
    ensures var items := Items(lines, OperandLists(lines));
      var c := Address(items, 0, j);
      && c < |lines|
      && items[j].payload.mnemonic == lines[c].mnemonic && |items[j].payload.operands| == |lines[c].operands|
      && SharedValue(items, 0, j) == LineValue(lines, c) && !Refused(items, 0, j)
  {
    hide Items, Cursor, Length, Env, HasLine, Landing;
    var lists := OperandLists(lines);
    var items := Items(lines, lists);
    LinesLaidOut(lines, lists);
    LinesDistinct(lines, lists);
    DistinctLocations(items, 0);
    assert InPlace(items, lines, lists, j);
    var c := items[j].payload.cell;
    FlatFirstUseIs(items, c, j);
    assert FlatFirstUse(items, c) == j;
  }

  /** Straight-line source captures nothing, does not overlap, and expands to itself. */
  lemma LinesWellBehaved(lines: seq<SourceLine>, T: MnemonicTable)
    requires NoMacros(T) && |lines| + 0x400 < TWO32
    ensures var J := RootJob(T, OperandLists(lines), map[], 0, Statements(lines));
      && WellBehaved(J) && CaptureFree(J) && Goal(J) == Some(Expansion(Items(lines, OperandLists(lines)), 1))
      && DistinctAddresses(Items(lines, OperandLists(lines)), 0)
  {
    hide Hygienic, Expand, DistinctAddresses, InRange;
    var lists, stmts := OperandLists(lines), Statements(lines);
    var J := RootJob(T, lists, map[], 0, stmts);
    StatementsPlain(lines, |lists|);
    PlainRanked(T, |lists|, stmts);
    PlainExpands(T, lists, stmts, 1);
    assert stmts[0..] == stmts;
    PlainHygienic(T, lists, stmts, [Frame({}, Labels(stmts))]);
    LinesDistinct(lines, lists);
  }

  /** The word of line a, if it assembles: at most one operand, which resolves, and a known mnemonic. */
  function LineWord(lines: seq<SourceLine>, a: Word): Option<Word>
    requires a < |lines| < TWO32
  {
    if |lines[a].operands| <= 1 && LineValue(lines, a).Some? then CodeWord(lines[a].mnemonic, LineValue(lines, a).value)
    else None
  }

  /** A line assembles if it has at most one operand, which has a value, and a known mnemonic; without an operand
      the value is zero, and `$` is the line's own address. */
  lemma LineWordExact(lines: seq<SourceLine>, a: Word)
    requires a < |lines| < TWO32
    ensures var l, env := lines[a], Env(Items(lines, OperandLists(lines)), 0);
      && (|l.operands| > 1 ==> LineWord(lines, a) == None)
      && (Arch.FindInstr(l.mnemonic) == None ==> LineWord(lines, a) == None)
      && (l.operands == [] ==> LineWord(lines, a) == CodeWord(l.mnemonic, 0))
      && (|l.operands| == 1 ==>
            LineWord(lines, a) == match DenFlat(env, a, Lift(l.operands[0])) case None => None
                                                                             case Some(v) => CodeWord(l.mnemonic, v))
    ensures DenFlat(Env(Items(lines, OperandLists(lines)), 0), a, Lift(Name("$"))) == Some(a)
  {
    hide Items, Env, Arch.FindInstr;
  }

  /** Instruction j of a listing does what its line says. */
  lemma LineDecides(lines: seq<SourceLine>, j: nat)
    requires |lines| + 0x400 < TWO32
    requires var items := Items(lines, OperandLists(lines)); j < |items| && items[j].Instr?
    ensures var items := Items(lines, OperandLists(lines));
      && Address(items, 0, j) < |lines|
      && (FlatAssembles(items, 0, j) <==> LineWord(lines, Address(items, 0, j)).Some?)
      && (FlatAssembles(items, 0, j) ==> FlatWord(items, 0, j) == LineWord(lines, Address(items, 0, j)))
  {
    hide Items, LineValue, SharedValue, Address, Refused, Arch.FindInstr, Arch.EncodeInstruction;
    LineWords(lines, j);
    Arch.FindInstrKind(Items(lines, OperandLists(lines))[j].payload.mnemonic);
  }

  /** Straight-line source assembles exactly if each of its lines does, and then to the lines' words, one
      after the other from address 0. */
  method AssembleLines(syms: SymbolStore, lines: seq<SourceLine>, ghost T: MnemonicTable)
    returns (ok: bool, section: Section)
    requires Initial(syms, T) && NoMacros(T) && |lines| + 0x400 < TWO32
    modifies syms
    ensures fresh(section) && fresh(section.data)
    ensures ok <==> forall a :: 0 <= a < |lines| ==> LineWord(lines, a).Some?
    ensures ok ==> section.Valid() && section.org == 0 && section.length == |lines|
    ensures ok ==> forall a :: 0 <= a < |lines| ==> Some(section.At(a).value) == LineWord(lines, a)
  {
    hide Address, Initial, Items, FlatWord, FlatAssembles, Goal, WellBehaved, CaptureFree, NoMacros, Length, LineWord,
         Statements, DistinctAddresses, Owned, Written, FlatAcceptable;
    var lists, stmts := OperandLists(lines), Statements(lines);
    LinesWellBehaved(lines, T);
    ghost var items := Items(lines, lists);
    forall j | 0 <= j < |items| && items[j].Instr?
      ensures Address(items, 0, j) < |lines|
      ensures FlatAssembles(items, 0, j) <==> LineWord(lines, Address(items, 0, j)).Some?
      ensures FlatAssembles(items, 0, j) ==> FlatWord(items, 0, j) == LineWord(lines, Address(items, 0, j))
    {
      LineDecides(lines, j);
    }
    LinesDistinct(lines, lists);
    ghost var puts;
    ok, section, puts := Assemble(syms, stmts, lists, RootJob(T, lists, map[], 0, stmts));
    forall a | 0 <= a < |lines|
      ensures AllAssemble(items) ==> LineWord(lines, a).Some?
      ensures ok ==> Some(section.At(a).value) == LineWord(lines, a)
    {
      assert Occupied(items, a);
      var j :| 0 <= j < |items| && items[j].Instr? && Address(items, 0, j) == a;
    }
  }

  // ----- labels -----

  /** The label of line a stands for a, if no later line has the same. */
  lemma {:induction false} LabelIsLine(lines: seq<SourceLine>, lists: seq<seq<Expr>>, a: nat, n: string)
    requires |lines| <= |lists| && |lines| < TWO32 && a < |lines| && lines[a].tag == Some(n)
    requires forall b :: a < b < |lines| ==> lines[b].tag != Some(n)
    ensures var env := Env(Items(lines, lists), 0); User(n) in env && env[User(n)] == a
    decreases |lines|
  {
    hide Items, Cursor, LaidOut;
    var k := |lines| - 1;
    var P := Items(lines[..k], lists);
    ItemsOfLines(lines, lists);
    LinesLaidOut(lines[..k], lists);
    CursorOfLines(lines[..k], lists);
    if a < k {
      LabelIsLine(lines[..k], lists, a, n);
    }
    EnvOfLine(P, lines[k], k, lists);
  }

  lemma CursorOfLines(lines: seq<SourceLine>, lists: seq<seq<Expr>>)
    requires |lines| <= |lists| && |lines| < TWO32
    ensures Cursor(Items(lines, lists), 0) == |lines|
  {
    LinesLaidOut(lines, lists);
  }

  lemma EnvOfLine(P: seq<FlatItem>, l: SourceLine, a: Word, lists: seq<seq<Expr>>)
    requires a < |lists| && Cursor(P, 0) == a
    ensures Env(P + LineItems(l, a, lists), 0) == if l.tag.Some? then Env(P, 0)[User(l.tag.value) := a] else Env(P, 0)
  {
    hide LiftAll, Env;
    var Q := P;
    if l.tag.Some? {
      EnvSnoc(Q, Label(User(l.tag.value)), 0);
      Q := Q + [Label(User(l.tag.value))];
    }
    if l.org {
      EnvSnoc(Q, Org(a), 0);
      Q := Q + [Org(a)];
    }
    var it: FlatItem := Instr(FlatInstr(l.mnemonic, a, LiftAll(lists[a])));
    EnvSnoc(Q, it, 0);
    assert P + LineItems(l, a, lists) == Q + [it];
  }
}
