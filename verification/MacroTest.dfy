/** The program test/macro.asm: its macros, one of which is called before it is defined and in another case of
    letters, and what it is assembled to. */
module MacroTest {
  import opened Words
  import opened Wrappers
  import opened Ast
  import opened Scopes
  import opened Sections
  import opened Layout
  import opened Overlap
  import opened Macros
  import opened Hygiene
  import opened Records
  import opened Passes
  import opened ParseSteps
  import opened CallContexts
  import opened BabyAssembler
  import opened CleanPrograms
  import opened Startup
  import InstructionSet
  import Arithmetic
  import Libc

  // ----- the source -----

  const LISTS: seq<seq<Expr>> := [
    [Name("x")], [],
    [Name("tmp")], [Name("tmp")], [Name("x")], [],
    [Name("tmp")], [Name("tmp")],
    [Name("x")], [Name("y")], [],
    [Number(0)], [Number(0)],
    [Name("a")], [Name("b")], [Name("c")], [Name("a"), Name("b")], [Name("d")], [],
    [Number(3)], [Minus(Number(8), Number(3))], [Number(0)], [Number(0)]]

  const MLD := [InstrStmt("ldn", 0), InstrStmt("mneg", 1)]
  const MADD := [InstrStmt("sto", 2), InstrStmt("ldn", 3), InstrStmt("sub", 4), InstrStmt("mneg", 5)]
  const MNEG := [InstrStmt("sto", 6), InstrStmt("ldn", 7)]
  const MADD2 := [InstrStmt("LDN", 8), InstrStmt("SUB", 9), InstrStmt("MNEG", 10)]

  const DATA_END := [LabelStmt("c"), InstrStmt("num", 21)] + ([LabelStmt("d"), InstrStmt("num", 22)] + [])
  const DATA := [LabelStmt("a"), InstrStmt("num", 19)] + ([LabelStmt("b"), InstrStmt("num", 20)] + DATA_END)
  const CODE_END := [InstrStmt("sto", 15)] + ([InstrStmt("madd2", 16)] + ([InstrStmt("sto", 17)]
                    + ([InstrStmt("hlt", 18)] + DATA)))
  const CODE := [OrgStmt(1)] + ([LabelStmt("start")] + ([InstrStmt("mld", 13)] + ([InstrStmt("madd", 14)] + CODE_END)))
  const MAIN := [OrgStmt(28)] + ([LabelStmt("zero"), InstrStmt("num", 11)] + ([LabelStmt("tmp"), InstrStmt("num", 12)]
                + CODE))

  function Program(): seq<Stmt> {
    [MacroStmt("mld", ["x"], MLD)] + ([MacroStmt("madd", ["x"], MADD)] + ([MacroStmt("mneg", [], MNEG)]
    + ([MacroStmt("madd2", ["x", "y"], MADD2)] + MAIN)))
  }

  const RANK: map<string, nat> := map["mneg" := 0, "mld" := 1, "madd" := 1, "madd2" := 1]

  // ----- its macros -----

  lemma Lower()
    ensures Libc.Fold("mld") == "mld" && Libc.Fold("madd") == "madd" && Libc.Fold("mneg") == "mneg"
    ensures Libc.Fold("madd2") == "madd2" && Libc.Fold("MNEG") == "mneg"
  {
    assert forall i :: 0 <= i < 4 ==> Libc.Fold("MNEG")[i] == "mneg"[i];
  }

  lemma LowerInstr()
    ensures Libc.Fold("ldn") == "ldn" && Libc.Fold("sto") == "sto" && Libc.Fold("sub") == "sub"
    ensures Libc.Fold("num") == "num" && Libc.Fold("hlt") == "hlt"
    ensures Libc.Fold("LDN") == "ldn" && Libc.Fold("SUB") == "sub"
  {
    assert forall i :: 0 <= i < 3 ==> Libc.Fold("LDN")[i] == "ldn"[i];
    assert forall i :: 0 <= i < 3 ==> Libc.Fold("SUB")[i] == "sub"[i];
  }

  function T1(): MnemonicTable {
    Define(map[], "mld", ["x"], MLD)
  }

  function T2(): MnemonicTable {
    Define(T1(), "madd", ["x"], MADD)
  }

  function T3(): MnemonicTable {
    Define(T2(), "mneg", [], MNEG)
  }

  /** The table when all four have been defined. */
  function T4(): MnemonicTable {
    Define(T3(), "madd2", ["x", "y"], MADD2)
  }

  lemma Found()
    ensures MacroOf(T4(), "mld") == Some(Macro("mld", ["x"], MLD))
    ensures MacroOf(T4(), "madd") == Some(Macro("madd", ["x"], MADD))
    ensures MacroOf(T4(), "madd2") == Some(Macro("madd2", ["x", "y"], MADD2))
    ensures MacroOf(T4(), "mneg") == MacroOf(T4(), "MNEG") == Some(Macro("mneg", [], MNEG))
  {
    Lower();
    hide Libc.Fold;
  }

  lemma NotFound(name: string)
    requires name in ["ldn", "sto", "sub", "num", "hlt", "LDN", "SUB"]
    ensures MacroOf(T4(), name).None? && Libc.Fold(name) !in RANK
  {
    Lower();
    LowerInstr();
    hide Libc.Fold;
  }

  lemma Ranked4()
    ensures Ranked(RANK, 1, 23, MLD) && Ranked(RANK, 1, 23, MADD)
    ensures Ranked(RANK, 0, 23, MNEG) && Ranked(RANK, 1, 23, MADD2)
    ensures PlainBody(MLD) && PlainBody(MADD) && PlainBody(MNEG) && PlainBody(MADD2)
  {
    Lower();
    LowerInstr();
    hide Libc.Fold;
  }

  lemma Defining(T: MnemonicTable, name: string, formals: seq<string>, body: seq<Stmt>)
    requires TableRanked(T, RANK, 23) && Libc.Fold(name) in RANK && PlainBody(body)
    requires Ranked(RANK, RANK[Libc.Fold(name)], 23, body)
    ensures TableRanked(Define(T, name, formals, body), RANK, 23)
    ensures StmtRanked(RANK, 2, 23, MacroStmt(name, formals, body))
  {}

  lemma TablesRanked()
    ensures TableRanked(map[], RANK, 23) && TableRanked(T1(), RANK, 23) && TableRanked(T2(), RANK, 23)
    ensures TableRanked(T3(), RANK, 23) && TableRanked(T4(), RANK, 23)
    ensures StmtRanked(RANK, 2, 23, MacroStmt("mld", ["x"], MLD))
    ensures StmtRanked(RANK, 2, 23, MacroStmt("madd", ["x"], MADD))
    ensures StmtRanked(RANK, 2, 23, MacroStmt("mneg", [], MNEG))
    ensures StmtRanked(RANK, 2, 23, MacroStmt("madd2", ["x", "y"], MADD2))
  {
    Lower();
    Ranked4();
    assert TableRanked(map[], RANK, 23);
    hide Libc.Fold, TableRanked, Ranked, StmtRanked, Define, PlainBody;
    Defining(map[], "mld", ["x"], MLD);
    Defining(T1(), "madd", ["x"], MADD);
    Defining(T2(), "mneg", [], MNEG);
    Defining(T3(), "madd2", ["x", "y"], MADD2);
  }

  // ----- its expansion -----

  function Op(mnemonic: string, cell: nat, name: string): FlatItem {
    Instr(FlatInstr(mnemonic, cell, [FName(User(name))]))
  }

  function Word0(cell: nat): FlatItem {
    Instr(FlatInstr("num", cell, [FNumber(0)]))
  }

  /** Item j of the expanded program. */
  function ItemAt(j: nat): FlatItem {
    match j
    case 0 => Org(28)
    case 1 => Label(User("zero"))
    case 2 => Word0(11)
    case 3 => Label(User("tmp"))
    case 4 => Word0(12)
    case 5 => Org(1)
    case 6 => Label(User("start"))
    case 7 => Op("ldn", 0, "a")
    case 8 => Op("sto", 6, "tmp")
    case 9 => Op("ldn", 7, "tmp")
    case 10 => Op("sto", 2, "tmp")
    case 11 => Op("ldn", 3, "tmp")
    case 12 => Op("sub", 4, "b")
    case 13 => Op("sto", 6, "tmp")
    case 14 => Op("ldn", 7, "tmp")
    case 15 => Op("sto", 15, "c")
    case 16 => Op("LDN", 8, "a")
    case 17 => Op("SUB", 9, "b")
    case 18 => Op("sto", 6, "tmp")
    case 19 => Op("ldn", 7, "tmp")
    case 20 => Op("sto", 17, "d")
    case 21 => Instr(FlatInstr("hlt", 18, []))
    case 22 => Label(User("a"))
    case 23 => Instr(FlatInstr("num", 19, [FNumber(3)]))
    case 24 => Label(User("b"))
    case 25 => Instr(FlatInstr("num", 20, [FMinus(FNumber(8), FNumber(3))]))
    case 26 => Label(User("c"))
    case 27 => Word0(21)
    case 28 => Label(User("d"))
    case _ => Word0(22)
  }

  function Items(): (items: seq<FlatItem>)
    ensures |items| == 30 && forall j :: 0 <= j < 30 ==> items[j] == ItemAt(j)
  {
    seq(30, j requires 0 <= j < 30 => ItemAt(j))
  }

  const NEGATION := [Op("sto", 6, "tmp"), Op("ldn", 7, "tmp")]

  /** A statement with a name as its operand, in front of the rest. */
  lemma OpFirst(mnemonic: string, cell: nat, name: string, r: nat, rest: seq<Stmt>, chain: seq<Frame>, k: nat,
                items: seq<FlatItem>, next: nat)
    requires mnemonic in ["ldn", "sto", "sub", "LDN", "SUB"] && cell < 23 && LISTS[cell] == [Name(name)]
    requires Expands(T4(), LISTS, RANK, r, rest, chain, k, items, next)
    ensures var stmts := [InstrStmt(mnemonic, cell)] + rest;
      && Expands(T4(), LISTS, RANK, r, stmts, chain, k, [Op(mnemonic, cell, name)] + items, next)
      && Labels(stmts) == Labels(rest) && Later(stmts)
  {
    hide Expands, T4, Libc.Fold;
    NotFound(mnemonic);
    ExpandsInstr(T4(), LISTS, RANK, r, mnemonic, cell, rest, chain, k, items, next);
    assert LiftAll(LISTS[cell]) == [FName(User(name))];
  }

  lemma MnegExpands(chain: seq<Frame>, k: nat)
    ensures Expands(T4(), LISTS, RANK, 0, MNEG, chain, k, NEGATION, k) && Labels(MNEG) == {}
  {
    hide Expands, TableRanked, Libc.Fold, T4, Labels;
    TablesRanked();
    ExpandsNothing(T4(), LISTS, RANK, 0, chain, k);
    OpFirst("ldn", 7, "tmp", 0, [], chain, k, [], k);
    var last := [InstrStmt("ldn", 7)] + [];
    OpFirst("sto", 6, "tmp", 0, last, chain, k, [Op("ldn", 7, "tmp")] + [], k);
    assert MNEG == [InstrStmt("sto", 6)] + last;
    assert [Op("sto", 6, "tmp")] + ([Op("ldn", 7, "tmp")] + []) == NEGATION;
  }

  /** An application of the macro without formals, in front of the rest. */
  lemma MnegCall(name: string, cell: nat, r: nat, rest: seq<Stmt>, chain: seq<Frame>, k: nat, items: seq<FlatItem>,
                 next: nat)
    requires name == "mneg" || name == "MNEG"
    requires cell < 23 && LISTS[cell] == [] && r > 0
    requires Expands(T4(), LISTS, RANK, r, rest, chain, k + 1, items, next)
    ensures Expands(T4(), LISTS, RANK, r, [InstrStmt(name, cell)] + rest, chain, k, NEGATION + items, next)
    ensures Labels([InstrStmt(name, cell)] + rest) == Labels(rest)
  {
    hide Expands, TableRanked, T4, MNEG, Labels;
    Lower();
    hide Libc.Fold;
    Found();
    var none: map<string, Expr> := map[];
    assert FormalMap([], []) == none;
    var inner := chain + [Frame(none.Keys, {})];
    MnegExpands(inner, k + 1);
    ExpandsCall(T4(), LISTS, RANK, r, InstrStmt(name, cell), Macro("mneg", [], MNEG), NEGATION, k + 1, rest, chain, k,
                items, next);
    assert SubstItems(k, none, {}, NEGATION) == NEGATION by { NothingSubstituted(k); }
  }

  lemma NothingSubstituted(k: nat)
    ensures SubstItems(k, map[], {}, NEGATION) == NEGATION
  {
    assert SubstAll(k, map[], {}, [FName(User("tmp"))]) == [FName(User("tmp"))];
  }

  lemma MldExpands(chain: seq<Frame>, k: nat)
    ensures Expands(T4(), LISTS, RANK, 1, MLD, chain, k, [Op("ldn", 0, "x")] + NEGATION, k + 1) && Labels(MLD) == {}
  {
    hide Expands, TableRanked, Libc.Fold, T4, Labels;
    TablesRanked();
    ExpandsNothing(T4(), LISTS, RANK, 1, chain, k + 1);
    MnegCall("mneg", 1, 1, [], chain, k, [], k + 1);
    assert NEGATION + [] == NEGATION;
    OpFirst("ldn", 0, "x", 1, [InstrStmt("mneg", 1)] + [], chain, k, NEGATION, k + 1);
    assert MLD == [InstrStmt("ldn", 0)] + ([InstrStmt("mneg", 1)] + []);
  }

  lemma MaddExpands(chain: seq<Frame>, k: nat)
    ensures Expands(T4(), LISTS, RANK, 1, MADD, chain, k,
                    [Op("sto", 2, "tmp"), Op("ldn", 3, "tmp"), Op("sub", 4, "x")] + NEGATION, k + 1)
    ensures Labels(MADD) == {}
  {
    hide Expands, TableRanked, Libc.Fold, T4, Labels;
    TablesRanked();
    ExpandsNothing(T4(), LISTS, RANK, 1, chain, k + 1);
    MnegCall("mneg", 5, 1, [], chain, k, [], k + 1);
    assert NEGATION + [] == NEGATION;
    var s1 := [InstrStmt("mneg", 5)] + [];
    OpFirst("sub", 4, "x", 1, s1, chain, k, NEGATION, k + 1);
    var s2, x2 := [InstrStmt("sub", 4)] + s1, [Op("sub", 4, "x")] + NEGATION;
    OpFirst("ldn", 3, "tmp", 1, s2, chain, k, x2, k + 1);
    var s3, x3 := [InstrStmt("ldn", 3)] + s2, [Op("ldn", 3, "tmp")] + x2;
    OpFirst("sto", 2, "tmp", 1, s3, chain, k, x3, k + 1);
    assert MADD == [InstrStmt("sto", 2)] + s3;
    assert [Op("sto", 2, "tmp")] + x3 == [Op("sto", 2, "tmp"), Op("ldn", 3, "tmp"), Op("sub", 4, "x")] + NEGATION;
  }

  lemma Madd2Expands(chain: seq<Frame>, k: nat)
    ensures Expands(T4(), LISTS, RANK, 1, MADD2, chain, k, [Op("LDN", 8, "x"), Op("SUB", 9, "y")] + NEGATION, k + 1)
    ensures Labels(MADD2) == {}
  {
    hide Expands, TableRanked, Libc.Fold, T4, Labels;
    TablesRanked();
    ExpandsNothing(T4(), LISTS, RANK, 1, chain, k + 1);
    MnegCall("MNEG", 10, 1, [], chain, k, [], k + 1);
    assert NEGATION + [] == NEGATION;
    var s1 := [InstrStmt("MNEG", 10)] + [];
    OpFirst("SUB", 9, "y", 1, s1, chain, k, NEGATION, k + 1);
    var s2, x2 := [InstrStmt("SUB", 9)] + s1, [Op("SUB", 9, "y")] + NEGATION;
    OpFirst("LDN", 8, "x", 1, s2, chain, k, x2, k + 1);
    assert MADD2 == [InstrStmt("LDN", 8)] + s2;
    assert [Op("LDN", 8, "x")] + x2 == [Op("LDN", 8, "x"), Op("SUB", 9, "y")] + NEGATION;
  }

  // ----- the statements outside the macros -----

  const LABELS := {"zero", "tmp", "start", "a", "b", "c", "d"}
  const OUTSIDE := [Frame({}, LABELS)]

  /** The statements from some place on expand to the items from j on. */
  ghost predicate From(stmts: seq<Stmt>, k: nat, j: nat) {
    j <= 30 && Later(stmts) && Expands(T4(), LISTS, RANK, 2, stmts, OUTSIDE, k, Items()[j..], 7)
  }

  lemma ItemFirst(j: nat)
    requires j < 30
    ensures [ItemAt(j)] + Items()[j + 1..] == Items()[j..]
  {
    hide ItemAt;
  }

  lemma OpFrom(mnemonic: string, cell: nat, name: string, rest: seq<Stmt>, k: nat, j: nat)
    requires mnemonic in ["ldn", "sto", "sub", "LDN", "SUB"] && cell < 23 && LISTS[cell] == [Name(name)]
    requires j < 30 && From(rest, k, j + 1) && ItemAt(j) == Op(mnemonic, cell, name)
    ensures From([InstrStmt(mnemonic, cell)] + rest, k, j) && Labels([InstrStmt(mnemonic, cell)] + rest) == Labels(rest)
  {
    hide Expands, ItemAt, T4;
    OpFirst(mnemonic, cell, name, 2, rest, OUTSIDE, k, Items()[j + 1..], 7);
    ItemFirst(j);
  }

  lemma MarkFrom(s: Stmt, rest: seq<Stmt>, k: nat, j: nat)
    requires j < 30 && From(rest, k, j + 1) && (s.LabelStmt? || s.OrgStmt?)
    requires ItemAt(j) == if s.LabelStmt? then Label(User(s.name)) else Org(s.at)
    ensures From([s] + rest, k, j)
    ensures Labels([s] + rest) == if s.LabelStmt? then {s.name} + Labels(rest) else Labels(rest)
  {
    hide Expands, ItemAt, T4;
    ExpandsMark(T4(), LISTS, RANK, 2, s, rest, OUTSIDE, k, Items()[j + 1..], 7);
    ItemFirst(j);
  }

  /** A label and a number, in front of the rest, which may be nothing. */
  lemma NumFrom(name: string, cell: nat, rest: seq<Stmt>, k: nat, j: nat)
    requires j + 2 <= 30 && cell < 23 && Expands(T4(), LISTS, RANK, 2, rest, OUTSIDE, k, Items()[j + 2..], 7)
    requires ItemAt(j) == Label(User(name)) && ItemAt(j + 1) == Instr(FlatInstr("num", cell, LiftAll(LISTS[cell])))
    ensures var stmts := [LabelStmt(name), InstrStmt("num", cell)] + rest;
      From(stmts, k, j) && Labels(stmts) == {name} + Labels(rest)
  {
    hide Expands, ItemAt, T4, Libc.Fold, LiftAll;
    NotFound("num");
    ExpandsInstr(T4(), LISTS, RANK, 2, "num", cell, rest, OUTSIDE, k, Items()[j + 2..], 7);
    ItemFirst(j + 1);
    MarkFrom(LabelStmt(name), [InstrStmt("num", cell)] + rest, k, j);
    assert [LabelStmt(name)] + ([InstrStmt("num", cell)] + rest) == [LabelStmt(name), InstrStmt("num", cell)] + rest;
  }

  lemma Numbers()
    ensures LiftAll([Number(0)]) == [FNumber(0)] && LiftAll([Number(3)]) == [FNumber(3)]
    ensures LiftAll([Minus(Number(8), Number(3))]) == [FMinus(FNumber(8), FNumber(3))]
  {}

  lemma DataExpands(k: nat)
    requires k == 7
    ensures From(DATA, k, 22) && Labels(DATA) == {"a", "b", "c", "d"}
  {
    hide From, Expands, TableRanked, T4, Labels, LiftAll;
    TablesRanked();
    Numbers();
    ExpandsNothing(T4(), LISTS, RANK, 2, OUTSIDE, k);
    assert Items()[30..] == [];
    NumFrom("d", 22, [], k, 28);
    FromExpands([LabelStmt("d"), InstrStmt("num", 22)] + [], k, 28);
    NumFrom("c", 21, [LabelStmt("d"), InstrStmt("num", 22)] + [], k, 26);
    FromExpands(DATA_END, k, 26);
    NumFrom("b", 20, DATA_END, k, 24);
    FromExpands([LabelStmt("b"), InstrStmt("num", 20)] + DATA_END, k, 24);
    NumFrom("a", 19, [LabelStmt("b"), InstrStmt("num", 20)] + DATA_END, k, 22);
  }

  lemma FromExpands(stmts: seq<Stmt>, k: nat, j: nat)
    requires From(stmts, k, j)
    ensures j <= 30 && Expands(T4(), LISTS, RANK, 2, stmts, OUTSIDE, k, Items()[j..], 7)
  {}

  /** An application of a macro without labels, in front of the rest. */
  lemma CallFrom(name: string, cell: nat, m: Mnemonic, body: seq<FlatItem>, rest: seq<Stmt>, k: nat, j: nat, n: nat)
    requires name in ["mld", "madd", "madd2"] && MacroOf(T4(), name) == Some(m) && m.Macro? && Labels(m.body) == {}
    requires cell < 23 && |LISTS[cell]| == |m.formals| && CleanCall(m.formals, {}, LISTS[cell], OUTSIDE)
    requires Expands(T4(), LISTS, RANK, 1, m.body, OUTSIDE + [Frame(FormalMap(m.formals, LISTS[cell]).Keys, {})], k + 1,
                     body, k + 2)
    requires j + n <= 30 && From(rest, k + 2, j + n)
    requires SubstItems(k, FormalMap(m.formals, LISTS[cell]), {}, body) == Items()[j..j + n]
    ensures From([InstrStmt(name, cell)] + rest, k, j) && Labels([InstrStmt(name, cell)] + rest) == Labels(rest)
  {
    hide Expands, ItemAt, T4, FormalMap, SubstItems, CleanCall, Labels;
    Lower();
    ExpandsCall(T4(), LISTS, RANK, 2, InstrStmt(name, cell), m, body, k + 2, rest, OUTSIDE, k, Items()[j + n..], 7);
    assert Items()[j..j + n] + Items()[j + n..] == Items()[j..];
  }

  lemma OneClean(n: string)
    requires n in LABELS && n != "x"
    ensures CleanCall(["x"], {}, [Name(n)], OUTSIDE) && FormalMap(["x"], [Name(n)]) == map["x" := Name(n)]
  {
    assert ["x"][..0] == [] && [Name(n)][..0] == [];
    assert CleanArgument(["x"], {}, 0, Name(n), OUTSIDE);
  }

  lemma TwoClean()
    ensures CleanCall(["x", "y"], {}, [Name("a"), Name("b")], OUTSIDE)
    ensures FormalMap(["x", "y"], [Name("a"), Name("b")]) == map["x" := Name("a"), "y" := Name("b")]
  {
    var formals, actuals := ["x", "y"], [Name("a"), Name("b")];
    assert formals[..1] == ["x"] && actuals[..1] == [Name("a")] && ["x"][..0] == [] && [Name("a")][..0] == [];
    assert CleanArgument(formals, {}, 0, actuals[0], OUTSIDE);
    assert CleanArgument(formals, {}, 1, actuals[1], OUTSIDE);
  }

  /** What substitution makes of one instruction. */
  lemma OpSubst(k: nat, formals: map<string, Expr>, mnemonic: string, cell: nat, name: string)
    requires name != "$" && (name in formals ==> formals[name].Name?)
    ensures SubstItem(k, formals, {}, Op(mnemonic, cell, name))
         == Op(mnemonic, cell, if name in formals then formals[name].name else name)
  {
    var n := if name in formals then formals[name].name else name;
    assert SubstAll(k, formals, {}, [FName(User(name))]) == [FName(User(n))];
  }

  lemma MldSubst(k: nat)
    ensures SubstItems(k, map["x" := Name("a")], {}, [Op("ldn", 0, "x")] + NEGATION) == Items()[7..10]
  {
    var m := map["x" := Name("a")];
    hide SubstItem;
    OpSubst(k, m, "ldn", 0, "x");
    OpSubst(k, m, "sto", 6, "tmp");
    OpSubst(k, m, "ldn", 7, "tmp");
  }

  lemma MaddSubst(k: nat)
    ensures SubstItems(k, map["x" := Name("b")], {},
                       [Op("sto", 2, "tmp"), Op("ldn", 3, "tmp"), Op("sub", 4, "x")] + NEGATION) == Items()[10..15]
  {
    var m := map["x" := Name("b")];
    hide SubstItem;
    OpSubst(k, m, "sto", 2, "tmp");
    OpSubst(k, m, "ldn", 3, "tmp");
    OpSubst(k, m, "sub", 4, "x");
    OpSubst(k, m, "sto", 6, "tmp");
    OpSubst(k, m, "ldn", 7, "tmp");
  }

  lemma Madd2Subst(k: nat)
    ensures SubstItems(k, map["x" := Name("a"), "y" := Name("b")], {},
                       [Op("LDN", 8, "x"), Op("SUB", 9, "y")] + NEGATION)
         == Items()[16..20]
  {
    var m := map["x" := Name("a"), "y" := Name("b")];
    hide SubstItem;
    OpSubst(k, m, "LDN", 8, "x");
    OpSubst(k, m, "SUB", 9, "y");
    OpSubst(k, m, "sto", 6, "tmp");
    OpSubst(k, m, "ldn", 7, "tmp");
  }

  lemma CodeEndExpands()
    ensures From(CODE_END, 5, 15) && Labels(CODE_END) == {"a", "b", "c", "d"}
  {
    hide Expands, T4, Labels, FormalMap, SubstItems, CleanCall, From, Libc.Fold, DATA, MADD2;
    DataExpands(7);
    HltFrom(DATA, 7);
    var s1 := [InstrStmt("hlt", 18)] + DATA;
    OpFrom("sto", 17, "d", s1, 7, 20);
    var s2 := [InstrStmt("sto", 17)] + s1;
    Found();
    TwoClean();
    Madd2Subst(5);
    Madd2Expands(OUTSIDE + [Frame(map["x" := Name("a"), "y" := Name("b")].Keys, {})], 6);
    CallFrom("madd2", 16, Macro("madd2", ["x", "y"], MADD2), [Op("LDN", 8, "x"), Op("SUB", 9, "y")] + NEGATION, s2,
             5, 16,
             4);
    OpFrom("sto", 15, "c", [InstrStmt("madd2", 16)] + s2, 5, 15);
  }

  lemma HltFrom(rest: seq<Stmt>, k: nat)
    requires From(rest, k, 22)
    ensures From([InstrStmt("hlt", 18)] + rest, k, 21) && Labels([InstrStmt("hlt", 18)] + rest) == Labels(rest)
  {
    hide Expands, T4, Libc.Fold;
    NotFound("hlt");
    ExpandsInstr(T4(), LISTS, RANK, 2, "hlt", 18, rest, OUTSIDE, k, Items()[22..], 7);
    assert LiftAll(LISTS[18]) == [];
    ItemFirst(21);
  }

  lemma CodeExpands()
    ensures From(CODE, 1, 5) && Labels(CODE) == {"start", "a", "b", "c", "d"}
  {
    hide Expands, T4, Labels, FormalMap, SubstItems, CleanCall, From, Libc.Fold, CODE_END, MLD, MADD;
    CodeEndExpands();
    Found();
    OneClean("b");
    MaddSubst(3);
    MaddExpands(OUTSIDE + [Frame(map["x" := Name("b")].Keys, {})], 4);
    CallFrom("madd", 14, Macro("madd", ["x"], MADD),
             [Op("sto", 2, "tmp"), Op("ldn", 3, "tmp"), Op("sub", 4, "x")] + NEGATION, CODE_END, 3, 10, 5);
    var s1 := [InstrStmt("madd", 14)] + CODE_END;
    OneClean("a");
    MldSubst(1);
    MldExpands(OUTSIDE + [Frame(map["x" := Name("a")].Keys, {})], 2);
    CallFrom("mld", 13, Macro("mld", ["x"], MLD), [Op("ldn", 0, "x")] + NEGATION, s1, 1, 7, 3);
    var s2 := [InstrStmt("mld", 13)] + s1;
    MarkFrom(LabelStmt("start"), s2, 1, 6);
    MarkFrom(OrgStmt(1), [LabelStmt("start")] + s2, 1, 5);
  }

  lemma MainExpands()
    ensures From(MAIN, 1, 0) && Labels(MAIN) == LABELS
  {
    hide Expands, T4, Labels, From, CODE, LiftAll;
    CodeExpands();
    Numbers();
    FromExpands(CODE, 1, 5);
    NumFrom("tmp", 12, CODE, 1, 3);
    var s1 := [LabelStmt("tmp"), InstrStmt("num", 12)] + CODE;
    FromExpands(s1, 1, 3);
    NumFrom("zero", 11, s1, 1, 1);
    MarkFrom(OrgStmt(28), [LabelStmt("zero"), InstrStmt("num", 11)] + s1, 1, 0);
  }

  /** The program captures nothing and expands to the items. */
  lemma ProgramExpands()
    ensures Expands(map[], LISTS, RANK, 2, Program(), OUTSIDE, 1, Items(), 7) && Labels(Program()) == LABELS
  {
    hide Expands, TableRanked, Labels, From, Define, MAIN, StmtRanked;
    MainExpands();
    FromExpands(MAIN, 1, 0);
    assert Items()[0..] == Items();
    TablesRanked();
    ExpandsMacro(T3(), LISTS, RANK, 2, MacroStmt("madd2", ["x", "y"], MADD2), MAIN, OUTSIDE, 1, Items(), 7);
    var s1 := [MacroStmt("madd2", ["x", "y"], MADD2)] + MAIN;
    ExpandsMacro(T2(), LISTS, RANK, 2, MacroStmt("mneg", [], MNEG), s1, OUTSIDE, 1, Items(), 7);
    var s2 := [MacroStmt("mneg", [], MNEG)] + s1;
    ExpandsMacro(T1(), LISTS, RANK, 2, MacroStmt("madd", ["x"], MADD), s2, OUTSIDE, 1, Items(), 7);
    ExpandsMacro(map[], LISTS, RANK, 2, MacroStmt("mld", ["x"], MLD), [MacroStmt("madd", ["x"], MADD)] + s2, OUTSIDE, 1,
                 Items(), 7);
  }

  // ----- its layout -----

  /** Where item j lies. */
  function AddressAt(j: nat): nat {
    if j == 0 then 0
    else if j <= 2 then 28
    else if j <= 4 then 29
    else if j == 5 then 30
    else if j == 6 then 1
    else if j <= 22 then j - 6
    else 16 + (j - 22) / 2
  }

  lemma Kinds(j: nat)
    requires j < 30
    ensures ItemAt(j).Org? <==> j == 0 || j == 5
    ensures ItemAt(j).Label? <==> j in {1, 3, 6, 22, 24, 26, 28}
    ensures j == 0 ==> ItemAt(j).at == 28
    ensures j == 5 ==> ItemAt(j).at == 1
  {}

  lemma {:induction false} PlacedAt(j: nat)
    requires j <= 30
    ensures Address(Items(), 0, j) == AddressAt(j)
  {
    if j == 0 {
      assert Items()[..0] == [];
    } else {
      hide ItemAt, Address, Items;
      PlacedAt(j - 1);
      Kinds(j - 1);
      AddressStep(Items(), 0, j - 1);
      SmallMod(AddressAt(j - 1) + 1, TWO32);
    }
  }

  lemma LaidOut()
    ensures InRange(Items(), 0) && DistinctAddresses(Items(), 0) && Length(Items(), 0) == 30
  {
    hide ItemAt, Address, Items, Length;
    forall j | 0 <= j <= 30 ensures Address(Items(), 0, j) == AddressAt(j) {
      PlacedAt(j);
    }
    forall j | 0 <= j < 30 ensures Items()[j].Instr? <==> j !in {0, 5, 1, 3, 6, 22, 24, 26, 28} {
      Kinds(j);
    }
    LengthBounds(Items(), 0);
    assert Items()[4].Instr? && Address(Items(), 0, 4) == 29;
  }

  lemma FirstUseOf(cell: nat, f: nat)
    requires f < 30 && ItemAt(f).Instr? && ItemAt(f).payload.cell == cell
    requires forall i :: 0 <= i < f ==> !(ItemAt(i).Instr? && ItemAt(i).payload.cell == cell)
    ensures FlatFirstUse(Items(), cell) == f
  {
    hide ItemAt;
    FlatFirstUseIs(Items(), cell, f);
  }

  /** A label that is not repeated. */
  lemma LabelAt(name: string, p: nat)
    requires p < 30 && ItemAt(p) == Label(User(name)) && forall i :: p < i < 30 ==> ItemAt(i) != ItemAt(p)
    ensures var env := Env(Items(), 0); User(name) in env && env[User(name)] == AddressAt(p)
  {
    hide ItemAt, Env, Address;
    EnvLast(Items(), 0, p);
    PlacedAt(p);
  }

  lemma Labelled()
    ensures var env := Env(Items(), 0);
      && User("tmp") in env && env[User("tmp")] == 29 && User("a") in env && env[User("a")] == 16
      && User("b") in env && env[User("b")] == 17 && User("c") in env && env[User("c")] == 18
      && User("d") in env && env[User("d")] == 19
  {
    hide Env, Items;
    LabelAt("tmp", 3);
    LabelAt("a", 22);
    LabelAt("b", 24);
    LabelAt("c", 26);
    LabelAt("d", 28);
  }

  // ----- its words -----

  /** The value that operand list `cell` comes to, which is that of its one statement. */
  function CellValue(cell: nat): Word {
    if cell in {2, 3, 6, 7} then 29
    else if cell in {0, 8} then 16
    else if cell in {4, 9} then 17
    else if cell == 15 then 18
    else if cell == 17 then 19
    else if cell == 19 then 3
    else if cell == 20 then 5
    else 0
  }

  /** The first item with an operand list. */
  function FirstAt(j: nat): nat {
    if j == 13 || j == 18 then 8 else if j == 14 || j == 19 then 9 else j
  }

  lemma SharedAt(j: nat)
    requires j < 30 && ItemAt(j).Instr?
    ensures FlatFirstUse(Items(), ItemAt(j).payload.cell) == FirstAt(j) < 30 && ItemAt(FirstAt(j)) == ItemAt(j)
  {
    FirstUseOf(ItemAt(j).payload.cell, FirstAt(j));
  }

  lemma OperandOf(env: map<Ident, Word>, at: Word, j: nat)
    requires j < 30 && ItemAt(j).Instr?
    requires User("tmp") in env && env[User("tmp")] == 29 && User("a") in env && env[User("a")] == 16
    requires User("b") in env && env[User("b")] == 17 && User("c") in env && env[User("c")] == 18
    requires User("d") in env && env[User("d")] == 19
    ensures OperandValue(env, at, ItemAt(j).payload.operands) == Some(CellValue(ItemAt(j).payload.cell))
  {
    if j == 25 {
      Difference(env, at);
    } else if ItemAt(j).payload.operands != [] {
      var e := ItemAt(j).payload.operands[0];
      assert e.FNumber? || (e.FName? && e.id.User? && e.id.text in {"tmp", "a", "b", "c", "d"});
    }
  }

  /** Eight less three. */
  lemma Difference(env: map<Ident, Word>, at: Word)
    ensures DenFlat(env, at, FMinus(FNumber(8), FNumber(3))) == Some(5)
  {
    hide Combine;
    Arithmetic.FlatSums(env, at, FNumber(8), FNumber(3));
  }

  lemma ValueAt(j: nat)
    requires j < 30 && ItemAt(j).Instr?
    ensures SharedValue(Items(), 0, j) == OwnValue(Items(), 0, j) == Some(CellValue(ItemAt(j).payload.cell))
  {
    hide ItemAt, Env, Location, OperandValue, CellValue;
    SharedAt(j);
    Labelled();
    OperandOf(Env(Items(), 0), Location(Items(), 0, j), j);
    OperandOf(Env(Items(), 0), Location(Items(), 0, FirstAt(j)), FirstAt(j));
  }

  /** The word at each address. */
  function WordAt(a: nat): Word {
    match a
    case 1 => 0x4000 + 16
    case 2 => 0x6000 + 29
    case 3 => 0x4000 + 29
    case 4 => 0x6000 + 29
    case 5 => 0x4000 + 29
    case 6 => 0x8000 + 17
    case 7 => 0x6000 + 29
    case 8 => 0x4000 + 29
    case 9 => 0x6000 + 18
    case 10 => 0x4000 + 16
    case 11 => 0x8000 + 17
    case 12 => 0x6000 + 29
    case 13 => 0x4000 + 29
    case 14 => 0x6000 + 19
    case 15 => 0xE000
    case 16 => 3
    case 17 => 5
    case _ => 0
  }

  lemma Codes(v: Word)
    ensures CodeWord("ldn", v) == CodeWord("LDN", v) == Some(0x4000 + v % 0x2000)
    ensures CodeWord("sto", v) == Some(0x6000 + v % 0x2000)
    ensures CodeWord("sub", v) == CodeWord("SUB", v) == Some(0x8000 + v % 0x2000)
    ensures CodeWord("num", v) == Some(v) && CodeWord("hlt", v) == Some(0xE000)
  {
    hide CodeWord, Libc.Fold, Libc.StrCaseCmp;
    Spelled();
    InstructionSet.InstructionWords(v);
    InstructionSet.RespellingSame("ldn", "LDN", v);
    InstructionSet.RespellingSame("sto", "STO", v);
    InstructionSet.RespellingSame("sub", "SUB", v);
    InstructionSet.RespellingSame("num", "NUM", v);
    InstructionSet.RespellingSame("hlt", "HLT", v);
  }

  lemma Spelled()
    ensures Libc.StrCaseCmp("ldn", "LDN") == 0 && Libc.StrCaseCmp("sto", "STO") == 0
    ensures Libc.StrCaseCmp("sub", "SUB") == 0 && Libc.StrCaseCmp("num", "NUM") == 0
    ensures Libc.StrCaseCmp("hlt", "HLT") == 0
  {
    hide Libc.StrCaseCmp;
    Libc.CaseCompare("ldn", "LDN");
    Libc.CaseCompare("sto", "STO");
    Libc.CaseCompare("sub", "SUB");
    Libc.CaseCompare("num", "NUM");
    Libc.CaseCompare("hlt", "HLT");
  }

  lemma CodeAt(j: nat)
    requires j < 30 && ItemAt(j).Instr?
    ensures CodeWord(ItemAt(j).payload.mnemonic, CellValue(ItemAt(j).payload.cell)) == Some(WordAt(AddressAt(j)))
  {
    hide CodeWord;
    Codes(CellValue(ItemAt(j).payload.cell));
  }

  lemma OneOperand(j: nat)
    requires j < 30 && ItemAt(j).Instr?
    ensures |ItemAt(j).payload.operands| <= 1
  {}

  lemma Assembled()
    ensures AllAssemble(Items())
    ensures forall j :: 0 <= j < 30 && ItemAt(j).Instr? ==> FlatWord(Items(), 0, j) == Some(WordAt(AddressAt(j)))
  {
    hide ItemAt, SharedValue, OwnValue, CodeWord, WordAt, AddressAt, CellValue, Refused;
    LaidOut();
    DistinctLocations(Items(), 0);
    forall j | 0 <= j < 30 && ItemAt(j).Instr?
      ensures FlatWord(Items(), 0, j) == Some(WordAt(AddressAt(j))) && FlatAssembles(Items(), 0, j)
    {
      ValueAt(j);
      CodeAt(j);
      OneOperand(j);
      InstructionSet.CodedOnly(ItemAt(j).payload.mnemonic, CellValue(ItemAt(j).payload.cell));
    }
  }

  /** Which item lies at an address. */
  function ItemOf(a: nat): nat
    requires a < 20 || a == 28 || a == 29
  {
    if a == 28 then 2 else if a == 29 then 4 else if a <= 15 then a + 6 else 23 + 2 * (a - 16)
  }

  lemma ItemLies(a: nat)
    requires 1 <= a < 20 || a == 28 || a == 29
    ensures ItemOf(a) < 30 && ItemAt(ItemOf(a)).Instr? && AddressAt(ItemOf(a)) == a
  {
    hide ItemAt;
    Kinds(ItemOf(a));
  }

  lemma Ready()
    ensures WellBehaved(ProgramJob(LISTS, RANK, 2, Program())) && CaptureFree(ProgramJob(LISTS, RANK, 2, Program()))
    ensures Goal(ProgramJob(LISTS, RANK, 2, Program())) == Some(Expansion(Items(), 7))
  {
    hide Program, TableRanked, Ranked, Expand, Hygienic, InRange, Items, Labels;
    ProgramExpands();
    LaidOut();
  }

  /** From program start, the program is assembled to these words, the difference being 5; the rest of the
      section is blank. */
  method AssembleTest() returns (section: Section)
    ensures section.Valid() && section.org == 0 && section.length == 30
    ensures forall a :: 0 <= a < 30 ==> section.At(a).value == WordAt(a)
  {
    hide Program, WellBehaved, CaptureFree, Goal, WordsOf, Placing, PutsAre, AllAssemble, Holds, Items,
         DistinctAddresses,
         InRange, WordAt, Length;
    Ready();
    LaidOut();
    Assembled();
    var ok;
    ghost var puts;
    ok, section, puts := AssembleProgram(Program(), LISTS, RANK, 2);
    HeldWords(section, puts);
  }

  lemma HeldWords(section: Section, puts: seq<Cell>)
    requires Holds(section, Items(), 0) && Placing(section, Items(), puts)
    ensures section.Valid() && section.org == 0 && section.length == 30
    ensures forall a :: 0 <= a < 30 ==> section.At(a).value == WordAt(a)
  {
    hide ItemAt, WordAt, AddressAt, ItemOf, Address, FlatWord, Written, FlatAcceptable, Length;
    LaidOut();
    Assembled();
    forall a | 0 <= a < 30 ensures section.At(a).value == WordAt(a) {
      HeldWord(section, a);
    }
  }

  lemma HeldWord(section: Section, a: nat)
    requires Holds(section, Items(), 0) && a < 30
    ensures section.At(a).value == WordAt(a)
  {
    hide ItemAt, Address, FlatWord, Length;
    Assembled();
    if 1 <= a < 20 || a == 28 || a == 29 {
      ItemLies(a);
      PlacedAt(ItemOf(a));
    } else {
      forall j | 0 <= j < 30 && ItemAt(j).Instr? ensures Address(Items(), 0, j) != a {
        PlacedAt(j);
        Kinds(j);
      }
      assert section.At(a) == BLANK;
    }
  }
}
