/** Programs on which the assembler does not do what the substituted text says: their statements, what they
    mean and what parse_stmts makes of them. */
module FailingPrograms {
  import opened Words
  import opened Wrappers
  import opened Ast
  import opened Sections
  import opened Layout
  import opened Overlap
  import opened Macros
  import opened Hygiene
  import opened Records
  import opened Traces
  import opened Listings
  import opened BabyAssembler
  import opened Programs
  import Arch
  import ArchTables
  import Libc

  /** `NUM` with an operand, from operand list `cell`. */
  function Num(cell: nat, operand: FlatExpr): FlatItem {
    Instr(FlatInstr("NUM", cell, [operand]))
  }

  lemma LowerCase()
    ensures Libc.Fold("pair") == "pair" && Libc.Fold("inner") == "inner" && Libc.Fold("outer") == "outer"
    ensures Libc.Fold("loop") == "loop" && Libc.Fold("word") == "word"
    ensures |Libc.Fold("NUM")| == 3 && |Libc.Fold("JMP")| == 3 && |Libc.Fold("SKN")| == 3
  {}

  /** Defining one macro in a table without any. */
  lemma OneMacro(T: MnemonicTable, name: string, formals: seq<string>, body: seq<Stmt>, other: string)
    requires NoMacros(T) && Libc.Fold(other) != Libc.Fold(name)
    ensures MacroOf(Define(T, name, formals, body), name) == Some(Macro(name, formals, body))
    ensures MacroOf(Define(T, name, formals, body), other).None?
  {}

  /** A statement `NUM e` in front of the rest. */
  lemma NumFirst(T: MnemonicTable, lists: seq<seq<Expr>>, rank: map<string, nat>, r: nat, cell: nat, rest: seq<Stmt>,
                 ctx: nat, k: nat, x: Expansion, t: Trace)
    requires Parses(T, lists, rank, r, rest, ctx, k, x, t)
    requires MacroOf(T, "NUM").None? && Libc.Fold("NUM") !in rank && cell < |lists| && |lists[cell]| == 1
    ensures var stmts := [InstrStmt("NUM", cell)] + rest;
      && Later(stmts) && Labels(stmts) == Labels(rest)
      && Parses(T, lists, rank, r, stmts, ctx, k, Expansion([Num(cell, Lift(lists[cell][0]))] + x.items, x.next),
                Trace(t.info, [Instr(Use(ctx, "NUM", cell))] + t.events))
  {
    hide Parses;
    ParsesInstr(T, lists, rank, r, "NUM", cell, rest, ctx, k, x, t);
    assert LiftAll(lists[cell]) == [Lift(lists[cell][0])];
  }

  /** A label and `NUM e` in front of the rest. */
  lemma MarkedFirst(T: MnemonicTable, lists: seq<seq<Expr>>, rank: map<string, nat>, r: nat, n: string, cell: nat,
                    rest: seq<Stmt>, ctx: nat, k: nat, x: Expansion, t: Trace)
    requires Parses(T, lists, rank, r, rest, ctx, k, x, t)
    requires MacroOf(T, "NUM").None? && Libc.Fold("NUM") !in rank && cell < |lists| && |lists[cell]| == 1
    ensures var stmts := [LabelStmt(n), InstrStmt("NUM", cell)] + rest;
      && Labels(stmts) == {n} + Labels(rest)
      && Parses(T, lists, rank, r, stmts, ctx, k,
                Expansion([Label(User(n)), Num(cell, Lift(lists[cell][0]))] + x.items, x.next),
                Trace(t.info, [Label(Tag(ctx, n)), Instr(Use(ctx, "NUM", cell))] + t.events))
  {
    hide Parses, Labels, Later, Lift;
    NumFirst(T, lists, rank, r, cell, rest, ctx, k, x, t);
    var num: FlatItem := Num(cell, Lift(lists[cell][0]));
    var use: Event := Instr(Use(ctx, "NUM", cell));
    ParsesMark(T, lists, rank, r, LabelStmt(n), [InstrStmt("NUM", cell)] + rest, ctx, k,
               Expansion([num] + x.items, x.next), Trace(t.info, [use] + t.events));
    assert [LabelStmt(n)] + ([InstrStmt("NUM", cell)] + rest) == [LabelStmt(n), InstrStmt("NUM", cell)] + rest;
    assert [Label(User(n))] + ([num] + x.items) == [Label(User(n)), num] + x.items;
    assert [Label(Tag(ctx, n))] + ([use] + t.events) == [Label(Tag(ctx, n)), use] + t.events;
  }

  /** Addresses without origins, one step at a time. */
  lemma Steps<L, P>(items: seq<Item<L, P>>, j: nat)
    requires j < |items| && !items[j].Org?
    ensures Address(items, 0, 0) == 0
    ensures Address(items, 0, j) + 1 < TWO32 ==>
      Address(items, 0, j + 1) == Address(items, 0, j) + if items[j].Instr? then 1 else 0
  {
    AddressStep(items, 0, j);
  }

  /** The value of `NUM n` for a label n that occurs once. */
  lemma LabelValue(items: seq<FlatItem>, start: Word, i: nat, j: nat)
    requires i < |items| && items[i].Instr? && j < |items| && items[j].Label? && items[j].name != User("$")
    requires items[i].payload.operands == [FName(items[j].name)]
    requires forall k :: j < k < |items| ==> items[k] != items[j]
    ensures OwnValue(items, start, i) == Some(Address(items, start, j))
  {
    EnvLast(items, start, j);
  }

  // ----- a macro with two formals: `NUM x` and `NUM y` -----

  const PAIR_FORMALS := ["x", "y"]
  const PAIR_BODY := [InstrStmt("NUM", 0), InstrStmt("NUM", 1)]
  const PAIR_RANK: map<string, nat> := map["pair" := 0]

  /** The macro, one application with operand list 2, and the rest of the program. */
  function PairProgram(rest: seq<Stmt>): seq<Stmt> {
    [MacroStmt("pair", PAIR_FORMALS, PAIR_BODY)] + ([InstrStmt("pair", 2)] + rest)
  }

  ghost predicate PairLists(lists: seq<seq<Expr>>) {
    |lists| > 3 && lists[0] == [Name("x")] && lists[1] == [Name("y")] && |lists[2]| == 2
  }

  lemma PairRanked(T: MnemonicTable, lists: seq<seq<Expr>>)
    requires NoMacros(T) && PairLists(lists)
    ensures TableRanked(T, PAIR_RANK, |lists|)
    ensures StmtRanked(PAIR_RANK, 1, |lists|, MacroStmt("pair", PAIR_FORMALS, PAIR_BODY))
    ensures StmtRanked(PAIR_RANK, 1, |lists|, InstrStmt("pair", 2))
    ensures TableRanked(Define(T, "pair", PAIR_FORMALS, PAIR_BODY), PAIR_RANK, |lists|)
    ensures Libc.Fold("NUM") !in PAIR_RANK
  {
    LowerCase();
  }

  function PairUses(k: nat): seq<Event> {
    [Instr(Use(k, "NUM", 0)), Instr(Use(k, "NUM", 1))]
  }

  lemma PairBody(T: MnemonicTable, lists: seq<seq<Expr>>, k: nat)
    requires NoMacros(T) && PairLists(lists)
    requires TableRanked(Define(T, "pair", PAIR_FORMALS, PAIR_BODY), PAIR_RANK, |lists|)
    ensures Labels(PAIR_BODY) == {}
    ensures Parses(Define(T, "pair", PAIR_FORMALS, PAIR_BODY), lists, PAIR_RANK, 0, PAIR_BODY, k, k + 1,
                   Expansion([Num(0, FName(User("x"))), Num(1, FName(User("y")))], k + 1), Trace([], PairUses(k)))
  {
    hide TableRanked, Define, Parses;
    LowerCase();
    var U := Define(T, "pair", PAIR_FORMALS, PAIR_BODY);
    OneMacro(T, "pair", PAIR_FORMALS, PAIR_BODY, "NUM");
    var second := [InstrStmt("NUM", 1)] + [];
    assert PAIR_BODY == [InstrStmt("NUM", 0)] + second;
    ParsesNothing(U, lists, PAIR_RANK, 0, k, k + 1);
    NumFirst(U, lists, PAIR_RANK, 0, 1, [], k, k + 1, Expansion([], k + 1), Trace([], []));
    NumFirst(U, lists, PAIR_RANK, 0, 0, second, k, k + 1, Expansion([Num(1, FName(User("y")))] + [], k + 1),
             Trace([], [Instr(Use(k, "NUM", 1))] + []));
    var x, y := Num(0, FName(User("x"))), Num(1, FName(User("y")));
    assert Lift(lists[0][0]) == FName(User("x")) && Lift(lists[1][0]) == FName(User("y"));
    assert [x] + ([y] + []) == [x, y];
    assert [Instr(Use(k, "NUM", 0))] + ([Instr(Use(k, "NUM", 1))] + []) == PairUses(k);
  }

  function PairItems(lists: seq<seq<Expr>>): seq<FlatItem>
    requires PairLists(lists)
  {
    [Num(0, Lift(lists[2][0])), Num(1, Lift(lists[2][1]))]
  }

  lemma PairSubst(lists: seq<seq<Expr>>, k: nat)
    requires PairLists(lists)
    ensures SubstItems(k, FormalMap(PAIR_FORMALS, lists[2]), {}, [Num(0, FName(User("x"))), Num(1, FName(User("y")))])
         == PairItems(lists)
  {
    var m := FormalMap(PAIR_FORMALS, lists[2]);
    assert PAIR_FORMALS[..1] == ["x"] && lists[2][..1] == [lists[2][0]];
    assert FormalMap(["x"], [lists[2][0]]) == map["x" := lists[2][0]] by {
      assert ["x"][..0] == [] && [lists[2][0]][..0] == [];
    }
    assert m["x"] == lists[2][0] && m["y"] == lists[2][1];
    assert SubstAll(k, m, {}, [FName(User("x"))]) == [Lift(lists[2][0])];
    assert SubstAll(k, m, {}, [FName(User("y"))]) == [Lift(lists[2][1])];
  }

  lemma PairParses(T: MnemonicTable, lists: seq<seq<Expr>>, rest: seq<Stmt>, x: Expansion, t: Trace)
    requires NoMacros(T) && PairLists(lists) && t.info == []
    requires Parses(Define(T, "pair", PAIR_FORMALS, PAIR_BODY), lists, PAIR_RANK, 1, rest, 0, 2, x, t)
    ensures Parses(T, lists, PAIR_RANK, 1, PairProgram(rest), 0, 1, Expansion(PairItems(lists) + x.items, x.next),
                   Trace([Applying(0, PAIR_FORMALS, lists[2], {})], PairUses(1) + t.events))
    ensures Labels(PairProgram(rest)) == Labels(rest)
  {
    hide TableRanked, StmtRanked, SubstItems, FormalMap, Parses, Labels;
    LowerCase();
    PairRanked(T, lists);
    var U := Define(T, "pair", PAIR_FORMALS, PAIR_BODY);
    OneMacro(T, "pair", PAIR_FORMALS, PAIR_BODY, "NUM");
    PairBody(T, lists, 1);
    PairSubst(lists, 1);
    var added := Applying(0, PAIR_FORMALS, lists[2], {});
    ParsesCall(U, lists, PAIR_RANK, 1, InstrStmt("pair", 2), Macro("pair", PAIR_FORMALS, PAIR_BODY),
               Expansion([Num(0, FName(User("x"))), Num(1, FName(User("y")))], 2), Trace([], PairUses(1)), rest, 0, 1,
               x, t);
    assert [added] + [] + t.info == [added];
    ParsesMacro(T, lists, PAIR_RANK, 1, MacroStmt("pair", PAIR_FORMALS, PAIR_BODY), [InstrStmt("pair", 2)] + rest, 0, 1,
                Expansion(PairItems(lists) + x.items, x.next), Trace([added], PairUses(1) + t.events));
  }

  // ----- an earlier formal captures a later argument -----

  /** `pair 1, x` and then `x: NUM 7`. */
  const CAPTURE_LISTS: seq<seq<Expr>> := [[Name("x")], [Name("y")], [Number(1), Name("x")], [Number(7)]]
  const CAPTURE_REST := [LabelStmt("x"), InstrStmt("NUM", 3)]

  function CaptureItems(): seq<FlatItem> {
    [Num(0, FNumber(1)), Num(1, FName(User("x"))), Label(User("x")), Num(3, FNumber(7))]
  }

  function CaptureTrace(): Trace {
    Trace([Applying(0, PAIR_FORMALS, [Number(1), Name("x")], {})],
          [Instr(Use(1, "NUM", 0)), Instr(Use(1, "NUM", 1)), Label(Tag(0, "x")), Instr(Use(0, "NUM", 3))])
  }

  lemma CaptureParses(T: MnemonicTable)
    requires NoMacros(T)
    ensures Parses(T, CAPTURE_LISTS, PAIR_RANK, 1, PairProgram(CAPTURE_REST), 0, 1, Expansion(CaptureItems(), 2),
                   CaptureTrace())
    ensures Labels(PairProgram(CAPTURE_REST)) == {"x"}
  {
    hide TableRanked, Parses, Define, Labels;
    PairRanked(T, CAPTURE_LISTS);
    var U := Define(T, "pair", PAIR_FORMALS, PAIR_BODY);
    LowerCase();
    OneMacro(T, "pair", PAIR_FORMALS, PAIR_BODY, "NUM");
    ParsesNothing(U, CAPTURE_LISTS, PAIR_RANK, 1, 0, 2);
    NoLabels();
    MarkedFirst(U, CAPTURE_LISTS, PAIR_RANK, 1, "x", 3, [], 0, 2, Expansion([], 2), Trace([], []));
    var x2 := Expansion([Label(User("x")), Num(3, FNumber(7))] + [], 2);
    var t2 := Trace([], [Label(Tag(0, "x")), Instr(Use(0, "NUM", 3))] + []);
    assert CAPTURE_REST == [LabelStmt("x"), InstrStmt("NUM", 3)] + [];
    PairParses(T, CAPTURE_LISTS, CAPTURE_REST, x2, t2);
    assert CaptureItems() == PairItems(CAPTURE_LISTS) + x2.items;
    assert CaptureTrace().events == PairUses(1) + t2.events;
  }

  lemma NoLabels()
    ensures Labels([]) == {}
  {}

  /** The words should be 1, 2, the address of the label, and 7. */
  lemma CaptureMeans()
    ensures OwnWord(CaptureItems(), 0, 1) == Some(2)
  {
    var items := CaptureItems();
    Steps(items, 0);
    Steps(items, 1);
    LabelValue(items, 0, 1, 2);
    ArchTables.NumFinds();
  }

  // ----- recording one formal's word changes another argument -----

  /** `pair a, x` and then `a: NUM 7` and `x: NUM 8`. */
  const RECORD_LISTS: seq<seq<Expr>> := [[Name("x")], [Name("y")], [Name("a"), Name("x")], [Number(7)], [Number(8)]]
  const RECORD_REST := [LabelStmt("a"), InstrStmt("NUM", 3), LabelStmt("x"), InstrStmt("NUM", 4)]

  function RecordItems(): seq<FlatItem> {
    [Num(0, FName(User("a"))), Num(1, FName(User("x"))), Label(User("a")), Num(3, FNumber(7)), Label(User("x")),
     Num(4, FNumber(8))]
  }

  function RecordTrace(): Trace {
    Trace([Applying(0, PAIR_FORMALS, [Name("a"), Name("x")], {})],
          [Instr(Use(1, "NUM", 0)), Instr(Use(1, "NUM", 1)), Label(Tag(0, "a")), Instr(Use(0, "NUM", 3)),
           Label(Tag(0, "x")), Instr(Use(0, "NUM", 4))])
  }

  lemma RecordParses(T: MnemonicTable)
    requires NoMacros(T)
    ensures Parses(T, RECORD_LISTS, PAIR_RANK, 1, PairProgram(RECORD_REST), 0, 1, Expansion(RecordItems(), 2),
                   RecordTrace())
    ensures Labels(PairProgram(RECORD_REST)) == {"a", "x"}
  {
    hide TableRanked, Parses, Define, Labels;
    PairRanked(T, RECORD_LISTS);
    hide Libc.Fold, NoMacros, MacroOf, FormalMap, Later;
    var U := Define(T, "pair", PAIR_FORMALS, PAIR_BODY);
    LowerCase();
    OneMacro(T, "pair", PAIR_FORMALS, PAIR_BODY, "NUM");
    ParsesNothing(U, RECORD_LISTS, PAIR_RANK, 1, 0, 2);
    NoLabels();
    MarkedFirst(U, RECORD_LISTS, PAIR_RANK, 1, "x", 4, [], 0, 2, Expansion([], 2), Trace([], []));
    var s2 := [LabelStmt("x"), InstrStmt("NUM", 4)] + [];
    var x2 := Expansion([Label(User("x")), Num(4, FNumber(8))] + [], 2);
    var t2 := Trace([], [Label(Tag(0, "x")), Instr(Use(0, "NUM", 4))] + []);
    MarkedFirst(U, RECORD_LISTS, PAIR_RANK, 1, "a", 3, s2, 0, 2, x2, t2);
    var x4 := Expansion([Label(User("a")), Num(3, FNumber(7))] + x2.items, 2);
    var t4 := Trace([], [Label(Tag(0, "a")), Instr(Use(0, "NUM", 3))] + t2.events);
    assert RECORD_REST == [LabelStmt("a"), InstrStmt("NUM", 3)] + s2;
    PairParses(T, RECORD_LISTS, RECORD_REST, x4, t4);
    assert RecordItems() == PairItems(RECORD_LISTS) + x4.items;
    assert RecordTrace().events == PairUses(1) + t4.events;
  }

  /** The second word should be 3, the address of the second label. */
  lemma RecordMeans()
    ensures OwnWord(RecordItems(), 0, 1) == Some(3)
  {
    var items := RecordItems();
    Steps(items, 0);
    Steps(items, 1);
    Steps(items, 2);
    Steps(items, 3);
    LabelValue(items, 0, 1, 4);
    ArchTables.NumFinds();
  }

  // ----- a label hides the formal it is called like -----

  /** `inner v: NUM v`; `outer n: inner n`, and then the label n at a word of its own; `outer 3`. */
  const INNER_BODY := [InstrStmt("NUM", 0)]
  const OUTER_BODY := [InstrStmt("inner", 1), LabelStmt("n"), InstrStmt("NUM", 2)]
  const HIDING_LISTS: seq<seq<Expr>> := [[Name("v")], [Name("n")], [Number(0)], [Number(3)]]
  const HIDING_RANK: map<string, nat> := map["inner" := 0, "outer" := 1]

  function HidingProgram(): seq<Stmt> {
    [MacroStmt("inner", ["v"], INNER_BODY)]
    + ([MacroStmt("outer", ["n"], OUTER_BODY)] + ([InstrStmt("outer", 3)] + []))
  }

  function HidingItems(): seq<FlatItem> {
    [Num(0, FName(Local(1, "n"))), Label(Local(1, "n")), Num(2, FNumber(0))]
  }

  function HidingTrace(): Trace {
    Trace([Applying(0, ["n"], [Number(3)], {"n"}), Applying(1, ["v"], [Name("n")], {})],
          [Instr(Use(2, "NUM", 0)), Label(Tag(1, "n")), Instr(Use(1, "NUM", 2))])
  }

  /** The table after both definitions. */
  function HidingTable(T: MnemonicTable): MnemonicTable {
    Define(Define(T, "inner", ["v"], INNER_BODY), "outer", ["n"], OUTER_BODY)
  }

  lemma HidingBodiesRanked()
    ensures Libc.Fold("NUM") !in HIDING_RANK
    ensures Ranked(HIDING_RANK, 0, 4, INNER_BODY) && Ranked(HIDING_RANK, 1, 4, OUTER_BODY)
    ensures PlainBody(INNER_BODY) && PlainBody(OUTER_BODY)
    ensures StmtRanked(HIDING_RANK, 2, 4, InstrStmt("outer", 3)) && StmtRanked(HIDING_RANK, 1, 4, InstrStmt("inner", 1))
  {
    LowerCase();
  }

  /** Defining a ranked macro keeps the table ranked. */
  lemma DefinedRanked(T: MnemonicTable, name: string, formals: seq<string>, body: seq<Stmt>)
    requires TableRanked(T, HIDING_RANK, 4) && Libc.Fold(name) in HIDING_RANK && PlainBody(body)
    requires Ranked(HIDING_RANK, HIDING_RANK[Libc.Fold(name)], 4, body)
    ensures TableRanked(Define(T, name, formals, body), HIDING_RANK, 4)
    ensures StmtRanked(HIDING_RANK, 2, 4, MacroStmt(name, formals, body))
  {}

  lemma HidingRanked(T: MnemonicTable)
    requires NoMacros(T)
    ensures TableRanked(T, HIDING_RANK, 4) && TableRanked(Define(T, "inner", ["v"], INNER_BODY), HIDING_RANK, 4)
    ensures TableRanked(HidingTable(T), HIDING_RANK, 4)
    ensures StmtRanked(HIDING_RANK, 2, 4, MacroStmt("inner", ["v"], INNER_BODY))
    ensures StmtRanked(HIDING_RANK, 2, 4, MacroStmt("outer", ["n"], OUTER_BODY))
  {
    LowerCase();
    HidingBodiesRanked();
    assert TableRanked(T, HIDING_RANK, 4);
    hide TableRanked, Ranked, Define, Libc.Fold;
    DefinedRanked(T, "inner", ["v"], INNER_BODY);
    DefinedRanked(Define(T, "inner", ["v"], INNER_BODY), "outer", ["n"], OUTER_BODY);
  }

  lemma HidingMacros(T: MnemonicTable)
    requires NoMacros(T)
    ensures MacroOf(HidingTable(T), "inner") == Some(Macro("inner", ["v"], INNER_BODY))
    ensures MacroOf(HidingTable(T), "outer") == Some(Macro("outer", ["n"], OUTER_BODY))
    ensures MacroOf(HidingTable(T), "NUM").None?
  {
    LowerCase();
  }

  lemma InnerParses(T: MnemonicTable, k: nat)
    requires NoMacros(T)
    ensures Labels(INNER_BODY) == {}
    ensures Parses(HidingTable(T), HIDING_LISTS, HIDING_RANK, 0, INNER_BODY, k, k + 1,
                   Expansion([Num(0, FName(User("v")))], k + 1), Trace([], [Instr(Use(k, "NUM", 0))]))
  {
    hide TableRanked, Parses, HidingTable;
    HidingRanked(T);
    HidingBodiesRanked();
    HidingMacros(T);
    ParsesNothing(HidingTable(T), HIDING_LISTS, HIDING_RANK, 0, k, k + 1);
    NumFirst(HidingTable(T), HIDING_LISTS, HIDING_RANK, 0, 0, [], k, k + 1, Expansion([], k + 1), Trace([], []));
    assert INNER_BODY == [InstrStmt("NUM", 0)] + [];
    assert [Num(0, FName(User("v")))] + [] == [Num(0, FName(User("v")))];
    var use: Event := Instr(Use(k, "NUM", 0));
    assert [use] + [] == [use];
  }

  function OuterItems(): seq<FlatItem> {
    [Num(0, FName(User("n"))), Label(User("n")), Num(2, FNumber(0))]
  }

  lemma OuterParses(T: MnemonicTable)
    requires NoMacros(T)
    ensures Labels(OUTER_BODY) == {"n"}
    ensures Parses(HidingTable(T), HIDING_LISTS, HIDING_RANK, 1, OUTER_BODY, 1, 2, Expansion(OuterItems(), 3),
                   Trace([Applying(1, ["v"], [Name("n")], {})], HidingTrace().events))
  {
    hide TableRanked, Parses, StmtRanked, HidingTable, Labels, FormalMap, SubstItems;
    LowerCase();
    HidingRanked(T);
    HidingBodiesRanked();
    HidingMacros(T);
    InnerParses(T, 2);
    var U := HidingTable(T);
    ParsesNothing(U, HIDING_LISTS, HIDING_RANK, 1, 1, 3);
    NoLabels();
    MarkedFirst(U, HIDING_LISTS, HIDING_RANK, 1, "n", 2, [], 1, 3, Expansion([], 3), Trace([], []));
    var s2 := [LabelStmt("n"), InstrStmt("NUM", 2)] + [];
    var x2 := Expansion([Label(User("n")), Num(2, FNumber(0))] + [], 3);
    var t2 := Trace([], [Label(Tag(1, "n")), Instr(Use(1, "NUM", 2))] + []);
    ParsesCall(U, HIDING_LISTS, HIDING_RANK, 1, InstrStmt("inner", 1), Macro("inner", ["v"], INNER_BODY),
               Expansion([Num(0, FName(User("v")))], 3), Trace([], [Instr(Use(2, "NUM", 0))]), s2, 1, 2, x2, t2);
    InnerSubst(2);
    assert OUTER_BODY == [InstrStmt("inner", 1)] + s2;
    assert [Num(0, FName(User("n")))] + x2.items == OuterItems();
    var added := Applying(1, ["v"], [Name("n")], {});
    assert [added] + [] + t2.info == [added];
    assert [Instr(Use(2, "NUM", 0))] + t2.events == HidingTrace().events;
  }

  lemma InnerSubst(k: nat)
    ensures SubstItems(k, FormalMap(["v"], [Name("n")]), {}, [Num(0, FName(User("v")))]) == [Num(0, FName(User("n")))]
  {
    assert ["v"][..0] == [] && [Name("n")][..0] == [];
    assert FormalMap(["v"], [Name("n")]) == map["v" := Name("n")];
    assert SubstAll(k, map["v" := Name("n")], {}, [FName(User("v"))]) == [FName(User("n"))];
  }

  lemma OuterSubst()
    ensures SubstItems(1, FormalMap(["n"], [Number(3)]), {"n"}, OuterItems()) == HidingItems()
  {
    assert ["n"][..0] == [] && [Number(3)][..0] == [];
    var m := FormalMap(["n"], [Number(3)]);
    assert SubstAll(1, m, {"n"}, [FName(User("n"))]) == [FName(Local(1, "n"))];
    assert SubstAll(1, m, {"n"}, [FNumber(0)]) == [FNumber(0)];
  }

  lemma HidingParses(T: MnemonicTable)
    requires NoMacros(T)
    ensures Parses(T, HIDING_LISTS, HIDING_RANK, 2, HidingProgram(), 0, 1, Expansion(HidingItems(), 3), HidingTrace())
    ensures Labels(HidingProgram()) == {}
  {
    hide TableRanked, Parses, StmtRanked, SubstItems, FormalMap, Labels;
    LowerCase();
    HidingRanked(T);
    HidingBodiesRanked();
    HidingMacros(T);
    OuterParses(T);
    OuterSubst();
    NoLabels();
    var U := HidingTable(T);
    ParsesNothing(U, HIDING_LISTS, HIDING_RANK, 2, 0, 3);
    var inner := Applying(1, ["v"], [Name("n")], {});
    ParsesCall(U, HIDING_LISTS, HIDING_RANK, 2, InstrStmt("outer", 3), Macro("outer", ["n"], OUTER_BODY),
               Expansion(OuterItems(), 3), Trace([inner], HidingTrace().events), [], 0, 1, Expansion([], 3),
               Trace([], []));
    assert HidingItems() + [] == HidingItems() && HidingTrace().events + [] == HidingTrace().events;
    assert [Applying(0, ["n"], [Number(3)], {"n"})] + [inner] + [] == HidingTrace().info;
    var call := [InstrStmt("outer", 3)] + [];
    ParsesMacro(Define(T, "inner", ["v"], INNER_BODY), HIDING_LISTS, HIDING_RANK, 2,
                MacroStmt("outer", ["n"], OUTER_BODY), call, 0, 1, Expansion(HidingItems(), 3), HidingTrace());
    ParsesMacro(T, HIDING_LISTS, HIDING_RANK, 2, MacroStmt("inner", ["v"], INNER_BODY),
                [MacroStmt("outer", ["n"], OUTER_BODY)] + call, 0, 1, Expansion(HidingItems(), 3), HidingTrace());
  }

  /** The first word should be the address of the label, 1. */
  lemma HidingMeans()
    ensures OwnWord(HidingItems(), 0, 0) == Some(1)
  {
    var items := HidingItems();
    Steps(items, 0);
    LabelValue(items, 0, 0, 1);
    ArchTables.NumFinds();
  }

  // ----- one formal: `$` as an argument, and a macro applied twice -----

  /** `word x: NUM x`. */
  const WORD_BODY := [InstrStmt("NUM", 0)]
  const WORD_RANK: map<string, nat> := map["word" := 0]

  lemma WordRanked(T: MnemonicTable, lists: nat)
    requires NoMacros(T) && lists > 0
    ensures TableRanked(T, WORD_RANK, lists) && TableRanked(Define(T, "word", ["x"], WORD_BODY), WORD_RANK, lists)
    ensures StmtRanked(WORD_RANK, 1, lists, MacroStmt("word", ["x"], WORD_BODY))
    ensures forall cell: nat :: cell < lists ==> StmtRanked(WORD_RANK, 1, lists, InstrStmt("word", cell))
    ensures Libc.Fold("NUM") !in WORD_RANK
  {
    LowerCase();
  }

  lemma WordBody(T: MnemonicTable, lists: seq<seq<Expr>>, k: nat)
    requires NoMacros(T) && lists != [] && lists[0] == [Name("x")]
    ensures Labels(WORD_BODY) == {}
    ensures Parses(Define(T, "word", ["x"], WORD_BODY), lists, WORD_RANK, 0, WORD_BODY, k, k + 1,
                   Expansion([Num(0, FName(User("x")))], k + 1), Trace([], [Instr(Use(k, "NUM", 0))]))
  {
    hide TableRanked, Parses, Define;
    LowerCase();
    WordRanked(T, |lists|);
    var U := Define(T, "word", ["x"], WORD_BODY);
    OneMacro(T, "word", ["x"], WORD_BODY, "NUM");
    ParsesNothing(U, lists, WORD_RANK, 0, k, k + 1);
    NumFirst(U, lists, WORD_RANK, 0, 0, [], k, k + 1, Expansion([], k + 1), Trace([], []));
    assert WORD_BODY == [InstrStmt("NUM", 0)] + [];
    assert [Num(0, FName(User("x")))] + [] == [Num(0, FName(User("x")))];
    var use: Event := Instr(Use(k, "NUM", 0));
    assert [use] + [] == [use];
  }

  lemma WordSubst(k: nat, e: Expr)
    ensures SubstItems(k, FormalMap(["x"], [e]), {}, [Num(0, FName(User("x")))]) == [Num(0, Lift(e))]
  {
    assert ["x"][..0] == [] && [e][..0] == [];
    assert FormalMap(["x"], [e]) == map["x" := e];
    assert SubstAll(k, map["x" := e], {}, [FName(User("x"))]) == [Lift(e)];
  }

  /** An application `word e` in front of the rest. */
  lemma WordFirst(T: MnemonicTable, lists: seq<seq<Expr>>, cell: nat, e: Expr, rest: seq<Stmt>, k: nat, x: Expansion,
                  t: Trace)
    requires NoMacros(T) && 0 < cell < |lists| && lists[0] == [Name("x")] && lists[cell] == [e]
    requires Parses(Define(T, "word", ["x"], WORD_BODY), lists, WORD_RANK, 1, rest, 0, k + 1, x, t)
    ensures var stmts := [InstrStmt("word", cell)] + rest;
      && Labels(stmts) == Labels(rest)
      && Parses(Define(T, "word", ["x"], WORD_BODY), lists, WORD_RANK, 1, stmts, 0, k,
                Expansion([Num(0, Lift(e))] + x.items, x.next),
                Trace([Applying(0, ["x"], [e], {})] + t.info, [Instr(Use(k, "NUM", 0))] + t.events))
  {
    hide TableRanked, Parses, StmtRanked, SubstItems, FormalMap, Define, Labels;
    LowerCase();
    WordRanked(T, |lists|);
    WordBody(T, lists, k);
    WordSubst(k, e);
    var U := Define(T, "word", ["x"], WORD_BODY);
    OneMacro(T, "word", ["x"], WORD_BODY, "NUM");
    ParsesCall(U, lists, WORD_RANK, 1, InstrStmt("word", cell), Macro("word", ["x"], WORD_BODY),
               Expansion([Num(0, FName(User("x")))], k + 1), Trace([], [Instr(Use(k, "NUM", 0))]), rest, 0, k, x, t);
    var added := Applying(0, ["x"], [e], {});
    assert [added] + [] + t.info == [added] + t.info;
  }

  lemma WordDefined(T: MnemonicTable, lists: seq<seq<Expr>>, rest: seq<Stmt>, x: Expansion, t: Trace)
    requires NoMacros(T) && lists != []
    requires Parses(Define(T, "word", ["x"], WORD_BODY), lists, WORD_RANK, 1, rest, 0, 1, x, t)
    ensures var stmts := [MacroStmt("word", ["x"], WORD_BODY)] + rest;
      Labels(stmts) == Labels(rest) && Parses(T, lists, WORD_RANK, 1, stmts, 0, 1, x, t)
  {
    hide TableRanked, Parses, StmtRanked, Define, Labels;
    WordRanked(T, |lists|);
    ParsesMacro(T, lists, WORD_RANK, 1, MacroStmt("word", ["x"], WORD_BODY), rest, 0, 1, x, t);
  }

  /** `word $`. */
  const DOLLAR_LISTS: seq<seq<Expr>> := [[Name("x")], [Name("$")]]

  function DollarProgram(): seq<Stmt> {
    [MacroStmt("word", ["x"], WORD_BODY)] + ([InstrStmt("word", 1)] + [])
  }

  function DollarItems(): seq<FlatItem> {
    [Num(0, FName(User("$")))]
  }

  function DollarTrace(): Trace {
    Trace([Applying(0, ["x"], [Name("$")], {})], [Instr(Use(1, "NUM", 0))])
  }

  lemma DollarParses(T: MnemonicTable)
    requires NoMacros(T)
    ensures Parses(T, DOLLAR_LISTS, WORD_RANK, 1, DollarProgram(), 0, 1, Expansion(DollarItems(), 2), DollarTrace())
    ensures Labels(DollarProgram()) == {}
  {
    hide TableRanked, Parses, Define, Labels;
    WordRanked(T, 2);
    NoLabels();
    var U := Define(T, "word", ["x"], WORD_BODY);
    ParsesNothing(U, DOLLAR_LISTS, WORD_RANK, 1, 0, 2);
    WordFirst(T, DOLLAR_LISTS, 1, Name("$"), [], 1, Expansion([], 2), Trace([], []));
    var added := Applying(0, ["x"], [Name("$")], {});
    assert [added] + [] == DollarTrace().info && [Instr(Use(1, "NUM", 0))] + [] == DollarTrace().events;
    assert [Num(0, FName(User("$")))] + [] == DollarItems();
    WordDefined(T, DOLLAR_LISTS, [InstrStmt("word", 1)] + [], Expansion(DollarItems(), 2), DollarTrace());
  }

  /** The word should be its own address, 0. */
  lemma DollarMeans()
    ensures AllAssemble(DollarItems()) && OwnWord(DollarItems(), 0, 0) == Some(0)
  {
    var items := DollarItems();
    assert items[..0] == [];
    ArchTables.NumFinds();
    FlatFirstUseIs(items, 0, 0);
  }

  /** `word 1` and `word 2`. */
  const TWICE_LISTS: seq<seq<Expr>> := [[Name("x")], [Number(1)], [Number(2)]]

  function TwiceProgram(): seq<Stmt> {
    [MacroStmt("word", ["x"], WORD_BODY)] + ([InstrStmt("word", 1)] + ([InstrStmt("word", 2)] + []))
  }

  function TwiceItems(): seq<FlatItem> {
    [Num(0, FNumber(1)), Num(0, FNumber(2))]
  }

  function TwiceTrace(): Trace {
    Trace([Applying(0, ["x"], [Number(1)], {}), Applying(0, ["x"], [Number(2)], {})],
          [Instr(Use(1, "NUM", 0)), Instr(Use(2, "NUM", 0))])
  }

  lemma TwiceParses(T: MnemonicTable)
    requires NoMacros(T)
    ensures Parses(T, TWICE_LISTS, WORD_RANK, 1, TwiceProgram(), 0, 1, Expansion(TwiceItems(), 3), TwiceTrace())
    ensures Labels(TwiceProgram()) == {}
  {
    hide TableRanked, Parses, Define, Labels;
    WordRanked(T, 3);
    NoLabels();
    var U := Define(T, "word", ["x"], WORD_BODY);
    ParsesNothing(U, TWICE_LISTS, WORD_RANK, 1, 0, 3);
    WordFirst(T, TWICE_LISTS, 2, Number(2), [], 2, Expansion([], 3), Trace([], []));
    var second := Applying(0, ["x"], [Number(2)], {});
    var s1 := [InstrStmt("word", 2)] + [];
    var x1, t1 := Expansion([Num(0, FNumber(2))] + [], 3), Trace([second] + [], [Instr(Use(2, "NUM", 0))] + []);
    WordFirst(T, TWICE_LISTS, 1, Number(1), s1, 1, x1, t1);
    var first := Applying(0, ["x"], [Number(1)], {});
    assert [first] + t1.info == TwiceTrace().info && [Instr(Use(1, "NUM", 0))] + t1.events == TwiceTrace().events;
    assert [Num(0, FNumber(1))] + x1.items == TwiceItems();
    WordDefined(T, TWICE_LISTS, [InstrStmt("word", 1)] + s1, Expansion(TwiceItems(), 3), TwiceTrace());
  }

  /** The second word should be 2, and is that of the first application, 1. */
  lemma TwiceMeans()
    ensures AllAssemble(TwiceItems())
    ensures OwnWord(TwiceItems(), 0, 1) == Some(2) && FlatWord(TwiceItems(), 0, 1) == Some(1)
  {
    hide Refused;
    var items := TwiceItems();
    ArchTables.NumFinds();
    assert FlatFirstUse(items, 0) == 0;
    TwiceAddresses();
    DistinctLocations(items, 0);
  }

  lemma TwiceAddresses()
    ensures var items := TwiceItems();
      && Address(items, 0, 0) == 0 && Address(items, 0, 1) == 1 && InRange(items, 0) && DistinctAddresses(items, 0)
  {
    hide Address;
    Steps(TwiceItems(), 0);
  }

  // ----- two applications share a local label -----

  /** `loop: here: JMP here`, applied twice. */
  const LOOP_BODY := [LabelStmt("here"), InstrStmt("JMP", 0)]
  const LOOP_LISTS: seq<seq<Expr>> := [[Name("here")], []]
  const LOOP_RANK: map<string, nat> := map["loop" := 0]

  function LoopProgram(): seq<Stmt> {
    [MacroStmt("loop", [], LOOP_BODY)] + ([InstrStmt("loop", 1)] + ([InstrStmt("loop", 1)] + []))
  }

  function LoopItems(here: Ident): seq<FlatItem> {
    [Label(here), Instr(FlatInstr("JMP", 0, [FName(here)]))]
  }

  function LoopEvents(k: nat): seq<Event> {
    [Label(Tag(k, "here")), Instr(Use(k, "JMP", 0))]
  }

  function TwoLoops(): seq<FlatItem> {
    LoopItems(Local(1, "here")) + LoopItems(Local(2, "here"))
  }

  function LoopTrace(): Trace {
    Trace([Applying(0, [], [], {"here"}), Applying(0, [], [], {"here"})], LoopEvents(1) + LoopEvents(2))
  }

  lemma LoopRanked(T: MnemonicTable)
    requires NoMacros(T)
    ensures TableRanked(T, LOOP_RANK, 2) && TableRanked(Define(T, "loop", [], LOOP_BODY), LOOP_RANK, 2)
    ensures StmtRanked(LOOP_RANK, 1, 2, MacroStmt("loop", [], LOOP_BODY))
    ensures StmtRanked(LOOP_RANK, 1, 2, InstrStmt("loop", 1)) && StmtRanked(LOOP_RANK, 0, 2, InstrStmt("JMP", 0))
    ensures Ranked(LOOP_RANK, 0, 2, LOOP_BODY)
  {
    LowerCase();
  }

  lemma LoopBody(T: MnemonicTable, k: nat)
    requires NoMacros(T)
    ensures Labels(LOOP_BODY) == {"here"}
    ensures Parses(Define(T, "loop", [], LOOP_BODY), LOOP_LISTS, LOOP_RANK, 0, LOOP_BODY, k, k + 1,
                   Expansion(LoopItems(User("here")), k + 1), Trace([], LoopEvents(k)))
  {
    hide TableRanked, Parses, StmtRanked, Define, Labels;
    LowerCase();
    LoopRanked(T);
    NoLabels();
    var U := Define(T, "loop", [], LOOP_BODY);
    OneMacro(T, "loop", [], LOOP_BODY, "JMP");
    ParsesNothing(U, LOOP_LISTS, LOOP_RANK, 0, k, k + 1);
    ParsesInstr(U, LOOP_LISTS, LOOP_RANK, 0, "JMP", 0, [], k, k + 1, Expansion([], k + 1), Trace([], []));
    var last := [InstrStmt("JMP", 0)] + [];
    var jump: FlatItem := Instr(FlatInstr("JMP", 0, [FName(User("here"))]));
    assert LiftAll(LOOP_LISTS[0]) == [FName(User("here"))];
    var use: Event := Instr(Use(k, "JMP", 0));
    ParsesMark(U, LOOP_LISTS, LOOP_RANK, 0, LabelStmt("here"), last, k, k + 1, Expansion([jump] + [], k + 1),
               Trace([], [use] + []));
    assert LOOP_BODY == [LabelStmt("here")] + last;
    assert [Label(User("here"))] + ([jump] + []) == LoopItems(User("here"));
    assert [Label(Tag(k, "here"))] + ([use] + []) == LoopEvents(k);
  }

  lemma LoopSubst(k: nat)
    ensures SubstItems(k, FormalMap([], []), {"here"}, LoopItems(User("here"))) == LoopItems(Local(k, "here"))
  {
    assert FormalMap([], []) == map[];
    assert SubstAll(k, map[], {"here"}, [FName(User("here"))]) == [FName(Local(k, "here"))];
  }

  /** The program expands to the two loops. */
  lemma TwoLoopsParse(T: MnemonicTable)
    requires NoMacros(T)
    ensures Parses(T, LOOP_LISTS, LOOP_RANK, 1, LoopProgram(), 0, 1, Expansion(TwoLoops(), 3), LoopTrace())
  {
    hide TableRanked, Parses, StmtRanked, SubstItems, FormalMap, Define, LoopItems, LoopEvents, Labels;
    LowerCase();
    LoopRanked(T);
    var U := Define(T, "loop", [], LOOP_BODY);
    OneMacro(T, "loop", [], LOOP_BODY, "JMP");
    var call, m, added := InstrStmt("loop", 1), Macro("loop", [], LOOP_BODY), Applying(0, [], [], {"here"});
    ParsesNothing(U, LOOP_LISTS, LOOP_RANK, 1, 0, 3);
    LoopBody(T, 2);
    LoopSubst(2);
    ParsesCall(U, LOOP_LISTS, LOOP_RANK, 1, call, m, Expansion(LoopItems(User("here")), 3), Trace([], LoopEvents(2)),
               [], 0, 2, Expansion([], 3), Trace([], []));
    var x1, t1 := Expansion(LoopItems(Local(2, "here")) + [], 3), Trace([added] + [] + [], LoopEvents(2) + []);
    LoopBody(T, 1);
    LoopSubst(1);
    ParsesCall(U, LOOP_LISTS, LOOP_RANK, 1, call, m, Expansion(LoopItems(User("here")), 2), Trace([], LoopEvents(1)),
               [call] + [], 0, 1, x1, t1);
    assert LoopItems(Local(1, "here")) + x1.items == TwoLoops();
    assert [added] + [] + t1.info == LoopTrace().info && LoopEvents(1) + t1.events == LoopTrace().events;
    ParsesMacro(T, LOOP_LISTS, LOOP_RANK, 1, MacroStmt("loop", [], LOOP_BODY), [call] + ([call] + []), 0, 1,
                Expansion(TwoLoops(), 3), LoopTrace());
  }

  /** The second loop should jump to its own label, at 1, but jumps to the first's, at 0. */
  lemma SharedOperandGoesWrong()
    ensures var items := TwoLoops();
      OwnValue(items, 0, 1) == Some(0) && OwnValue(items, 0, 3) == Some(1) && SharedValue(items, 0, 3) == Some(0)
  {
    var items := TwoLoops();
    Steps(items, 0);
    Steps(items, 1);
    LabelValue(items, 0, 1, 0);
    LabelValue(items, 0, 3, 2);
    assert FlatFirstUse(items, 0) == 1;
  }


  // ----- instructions overlap -----

  /** Three instructions, at 0, again at 0 and at 1. */
  function OverlappingProgram(): seq<Stmt> {
    [OrgStmt(0)] + ([InstrStmt("SKN", 0)] + ([OrgStmt(0)] + ([InstrStmt("SKN", 1)] + ([InstrStmt("SKN", 2)] + []))))
  }

  function Skn(cell: nat): FlatItem {
    Instr(FlatInstr("SKN", cell, []))
  }

  function OverlappingItems(): seq<FlatItem> {
    [Org(0), Skn(0), Org(0), Skn(1), Skn(2)]
  }

  function OverlappingTrace(): Trace {
    Trace([], [Org(0), Instr(Use(0, "SKN", 0)), Org(0), Instr(Use(0, "SKN", 1)), Instr(Use(0, "SKN", 2))])
  }

  lemma SknFirst(T: MnemonicTable, cell: nat, rest: seq<Stmt>, x: Expansion, t: Trace)
    requires NoMacros(T) && Parses(T, [[], [], []], map[], 0, rest, 0, 1, x, t) && cell < 3
    ensures var stmts := [InstrStmt("SKN", cell)] + rest;
      && Later(stmts)
      && Parses(T, [[], [], []], map[], 0, stmts, 0, 1, Expansion([Skn(cell)] + x.items, x.next),
                Trace(t.info, [Instr(Use(0, "SKN", cell))] + t.events))
  {
    hide Parses;
    NoMacroOf(T, "SKN");
    ParsesInstr(T, [[], [], []], map[], 0, "SKN", cell, rest, 0, 1, x, t);
    assert LiftAll([[], [], []][cell]) == [];
  }

  lemma OverlappingParses(T: MnemonicTable)
    requires NoMacros(T)
    ensures Parses(T, [[], [], []], map[], 0, OverlappingProgram(), 0, 1, Expansion(OverlappingItems(), 1),
                   OverlappingTrace())
  {
    hide Parses;
    var lists: seq<seq<Expr>> := [[], [], []];
    assert TableRanked(T, map[], 3);
    ParsesNothing(T, lists, map[], 0, 0, 1);
    SknFirst(T, 2, [], Expansion([], 1), Trace([], []));
    var s2, x2, t2 := [InstrStmt("SKN", 2)] + [], Expansion([Skn(2)] + [], 1), [Instr(Use(0, "SKN", 2))] + [];
    SknFirst(T, 1, s2, x2, Trace([], t2));
    var s1, x1, t1 := [InstrStmt("SKN", 1)] + s2, Expansion([Skn(1)] + x2.items, 1), [Instr(Use(0, "SKN", 1))] + t2;
    ParsesMark(T, lists, map[], 0, OrgStmt(0), s1, 0, 1, x1, Trace([], t1));
    var s0, x0, t0 := [OrgStmt(0)] + s1, Expansion([Org(0)] + x1.items, 1), [Org(0)] + t1;
    SknFirst(T, 0, s0, x0, Trace([], t0));
    ParsesMark(T, lists, map[], 0, OrgStmt(0), [InstrStmt("SKN", 0)] + s0, 0, 1, Expansion([Skn(0)] + x0.items, 1),
               Trace([], [Instr(Use(0, "SKN", 0))] + t0));
    assert [Org(0)] + ([Skn(0)] + x0.items) == OverlappingItems();
    assert [Org(0)] + ([Instr(Use(0, "SKN", 0))] + t0) == OverlappingTrace().events;
  }

  /** Every instruction is acceptable, so the program assembles; but whatever the words put, only the first
      arrives, and the word laid out at 1 is lost as well. */
  lemma OverlapLosesWords(puts: seq<Cell>)
    requires Owned(OverlappingItems(), puts)
    ensures var items := OverlappingItems();
      && AllAssemble(items) && Length(items, 0) == 2 && Address(items, 0, 4) == 1
      && Written(items, puts, 0, 2).cells == map[0 := puts[1]]
  {
    OverlapWritten(puts);
    OverlapLaidOut();
    OverlapAssembles();
  }

  lemma {:induction false} OverlapWritten(puts: seq<Cell>)
    requires Owned(OverlappingItems(), puts)
    ensures Written(OverlappingItems(), puts, 0, 2).cells == map[0 := puts[1]]
  {
    var items := OverlappingItems();
    var s0 := Image(map[], 2, 0);
    assert items[..1] == [Org(0)] && items[..2] == [Org(0), Skn(0)] && items[..3] == [Org(0), Skn(0), Org(0)];
    assert items[..4] == [Org(0), Skn(0), Org(0), Skn(1)] && items[..5] == items;
    WrittenLast(items[..1], puts[..1], 0, 2);
    assert items[..1][..0] == [] && puts[..1][..0] == [];
    WrittenLast(items[..2], puts[..2], 0, 2);
    assert items[..2][..1] == items[..1] && puts[..2][..1] == puts[..1];
    WrittenLast(items[..3], puts[..3], 0, 2);
    assert items[..3][..2] == items[..2] && puts[..3][..2] == puts[..2];
    WrittenLast(items[..4], puts[..4], 0, 2);
    assert items[..4][..3] == items[..3] && puts[..4][..3] == puts[..3];
    WrittenLast(items, puts, 0, 2);
  }

  lemma WrittenLast(items: seq<FlatItem>, puts: seq<Cell>, start: Word, length: nat)
    requires |items| == |puts| && items != []
    ensures var n := |items| - 1;
      var s := Written(items[..n], puts[..n], start, length);
      Written(items, puts, start, length) == match items[n]
                                             case Org(at) => s.(cursor := at)
                                             case Label(_) => s
                                             case Instr(_) => Sections.Apply(s, Put(puts[n].value, puts[n].owner))
  {}

  lemma OverlapLaidOut()
    ensures Length(OverlappingItems(), 0) == 2 && Address(OverlappingItems(), 0, 4) == 1
  {
    var items := OverlappingItems();
    assert items == [] + [Org(0)] + [Skn(0)] + [Org(0)] + [Skn(1)] + [Skn(2)];
    var none: seq<FlatItem> := [];
    var i1 := none + [Org(0)];
    var i2 := i1 + [Skn(0)];
    var i3 := i2 + [Org(0)];
    var i4 := i3 + [Skn(1)];
    CursorSnoc(none, Org(0), 0);
    CursorSnoc(i1, Skn(0), 0);
    CursorSnoc(i2, Org(0), 0);
    CursorSnoc(i3, Skn(1), 0);
    CursorSnoc(i4, Skn(2), 0);
    assert items == i4 + [Skn(2)] && items[..4] == i4;
  }

  lemma OverlapAssembles()
    ensures AllAssemble(OverlappingItems())
  {
    hide Refused, FlatFirstUse, Arch.FindInstr;
    var items := OverlappingItems();
    ArchTables.SameNameFinds(Arch.MNEMONICS[4]);
    forall j | 0 <= j < |items| && items[j].Instr? ensures FlatAssembles(items, 0, j) {
      FlatFirstUseIs(items, items[j].payload.cell, j);
      assert items[j].payload.mnemonic == "SKN" && items[j].payload.operands == [];
    }
  }

  /** A directive in the place of the second instruction is an error instead. */
  lemma OverlappingDirectiveFails(items: seq<FlatItem>, j: nat)
    requires j < |items| && items[j].Instr? && Refused(items, 0, j)
    requires items[j].payload.mnemonic == "NUM"
    ensures !AllAssemble(items)
  {
    ArchTables.NumFinds();
    assert !FlatAssembles(items, 0, j);
  }
}
