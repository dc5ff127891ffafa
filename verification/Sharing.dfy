/** When every instruction gets the word of its own operand, although a macro body shares its operand lists
    with every application of the macro. */
module Sharing {
  import opened Words
  import opened Wrappers
  import opened Ast
  import opened Sections
  import opened Layout
  import opened Overlap
  import opened Macros
  import opened Records
  import opened Traces
  import opened ParseSteps
  import opened BabyAssembler
  import Libc

  // ----- an operand list stands in one statement -----

  /** Every operand list that is not empty stands with the mnemonic that home gives it. */
  ghost predicate HomedStmt(home: map<nat, string>, lists: seq<seq<Expr>>, s: Stmt)
    decreases s
  {
    match s
    case InstrStmt(m, cell) => cell < |lists| && lists[cell] != [] ==> cell in home && home[cell] == m
    case MacroStmt(_, _, body) => forall i :: 0 <= i < |body| ==> HomedStmt(home, lists, body[i])
    case _ => true
  }

  ghost predicate Homed(home: map<nat, string>, lists: seq<seq<Expr>>, stmts: seq<Stmt>) {
    forall i :: 0 <= i < |stmts| ==> HomedStmt(home, lists, stmts[i])
  }

  ghost predicate TableHomed(home: map<nat, string>, lists: seq<seq<Expr>>, T: MnemonicTable) {
    forall k :: k in T && T[k].MnemSym? && T[k].mnemonic.Macro? ==> Homed(home, lists, T[k].mnemonic.body)
  }

  ghost predicate ItemsHomed(home: map<nat, string>, lists: seq<seq<Expr>>, items: seq<FlatItem>) {
    forall j :: 0 <= j < |items| && items[j].Instr? ==> ItemHomed(home, lists, items[j].payload)
  }

  ghost predicate ItemHomed(home: map<nat, string>, lists: seq<seq<Expr>>, f: FlatInstr) {
    && f.cell < |lists| && |f.operands| == |lists[f.cell]|
    && (f.operands != [] ==> f.cell in home && home[f.cell] == f.mnemonic)
  }

  lemma HomedNext(home: map<nat, string>, lists: seq<seq<Expr>>, items: seq<FlatItem>, more: seq<FlatItem>)
    requires ItemsHomed(home, lists, items) && ItemsHomed(home, lists, more)
    ensures ItemsHomed(home, lists, items + more)
  {}

  lemma HomedSubst(home: map<nat, string>, lists: seq<seq<Expr>>, items: seq<FlatItem>, k: nat,
                   formals: map<string, Expr>, labels: set<string>)
    requires ItemsHomed(home, lists, items)
    ensures ItemsHomed(home, lists, SubstItems(k, formals, labels, items))
  {}

  /** Expansion copies statements with their operand lists. */
  lemma {:induction false} ExpandHomed(T: MnemonicTable, lists: seq<seq<Expr>>, rank: map<string, nat>, r: nat,
                                       stmts: seq<Stmt>, k: nat, home: map<nat, string>)
    requires TableRanked(T, rank, |lists|) && Ranked(rank, r, |lists|, stmts)
    requires TableHomed(home, lists, T) && Homed(home, lists, stmts)
    ensures var x := Expand(T, lists, rank, r, stmts, k); x.Some? ==> ItemsHomed(home, lists, x.value.items)
    decreases r, |stmts|
  {
    hide TableRanked, SubstItems, FormalMap, Labels, Later, ItemsHomed, TableHomed;
    if stmts == [] {
      NoneHomed(home, lists);
    } else {
      var rest, s := stmts[1..], stmts[0];
      assert StmtRanked(rank, r, |lists|, s) && HomedStmt(home, lists, s);
      assert Homed(home, lists, rest);
      if s.MacroStmt? {
        DefineRanked(T, rank, |lists|, r, s);
        DefineHomed(home, lists, T, s);
        ExpandHomed(Define(T, s.name, s.formals, s.body), lists, rank, r, rest, k, home);
      } else if s.InstrStmt? && MacroOf(T, s.mnemonic).Some? {
        var m, key := MacroOf(T, s.mnemonic).value, Libc.Fold(s.mnemonic);
        CalledRanked(T, rank, r, |lists|, s);
        BodyHomed(home, lists, T, s.mnemonic);
        var x := Macros.Apply(T, lists, rank, r, m, key, lists[s.cell], k);
        if x.Some? {
          ExpandHomed(T, lists, rank, rank[key], m.body, k + 1, home);
          var body := Expand(T, lists, rank, rank[key], m.body, k + 1).value;
          HomedSubst(home, lists, body.items, k, FormalMap(m.formals, lists[s.cell]), Labels(m.body));
          ExpandHomed(T, lists, rank, r, rest, x.value.next, home);
          FirstHomed(home, lists, x.value.items, Expand(T, lists, rank, r, rest, x.value.next));
        }
      } else {
        ExpandHomed(T, lists, rank, r, rest, k, home);
        NoneHomed(home, lists);
        var first: seq<FlatItem> := match s
          case LabelStmt(n) => if Later(rest) then [Label(User(n))] else []
          case OrgStmt(at) => if Later(rest) then [Org(at)] else []
          case InstrStmt(m, cell) => [Instr(FlatInstr(m, cell, LiftAll(lists[cell])))]
          case MacroStmt(_, _, _) => [];
        OneHomed(home, lists, first);
        FirstHomed(home, lists, first, Expand(T, lists, rank, r, rest, k));
      }
    }
  }

  lemma NoneHomed(home: map<nat, string>, lists: seq<seq<Expr>>)
    ensures ItemsHomed(home, lists, [])
  {}

  lemma OneHomed(home: map<nat, string>, lists: seq<seq<Expr>>, items: seq<FlatItem>)
    requires |items| <= 1 && (items != [] && items[0].Instr? ==> ItemHomed(home, lists, items[0].payload))
    ensures ItemsHomed(home, lists, items)
  {}

  lemma FirstHomed(home: map<nat, string>, lists: seq<seq<Expr>>, items: seq<FlatItem>, e: Option<Expansion>)
    requires ItemsHomed(home, lists, items) && (e.Some? ==> ItemsHomed(home, lists, e.value.items))
    ensures Prepend(items, e).Some? ==> ItemsHomed(home, lists, Prepend(items, e).value.items)
  {
    if e.Some? {
      HomedNext(home, lists, items, e.value.items);
    }
  }

  lemma DefineHomed(home: map<nat, string>, lists: seq<seq<Expr>>, T: MnemonicTable, s: Stmt)
    requires TableHomed(home, lists, T) && s.MacroStmt? && HomedStmt(home, lists, s)
    ensures TableHomed(home, lists, Define(T, s.name, s.formals, s.body))
  {}

  lemma BodyHomed(home: map<nat, string>, lists: seq<seq<Expr>>, T: MnemonicTable, mnemonic: string)
    requires TableHomed(home, lists, T) && MacroOf(T, mnemonic).Some?
    ensures Homed(home, lists, MacroOf(T, mnemonic).value.body)
  {}

  /** Instructions that share an operand list come from one statement: they have one mnemonic, unless there is
      no operand. */
  ghost predicate OneStatement(items: seq<FlatItem>) {
    forall j, k :: Share(items, j, k) ==>
      && |items[j].payload.operands| == |items[k].payload.operands|
      && (items[j].payload.operands != [] ==> items[j].payload.mnemonic == items[k].payload.mnemonic)
  }

  /** Where each operand list stands in one statement, so it does in the expansion. */
  lemma ExpansionHasOneStatement(J: Job, home: map<nat, string>)
    requires JobOk(J) && TableHomed(home, J.lists, J.T) && Homed(home, J.lists, J.stmts)
    ensures Goal(J).Some? ==> OneStatement(Goal(J).value.items)
  {
    hide TableRanked, Ranked, Expand;
    ExpandHomed(J.T, J.lists, J.rank, J.r, J.stmts, J.k, home);
  }

  // ----- own words -----

  /** Instructions that share an operand agree on their words. */
  ghost predicate SharersAgree(items: seq<FlatItem>, start: Word) {
    forall j, k :: Share(items, j, k) && items[j].payload.operands != [] ==>
      OwnWord(items, start, j) == OwnWord(items, start, k)
  }

  /** Every instruction gets its own word if and only if instructions that share an operand agree on
      theirs. */
  lemma OwnWordsExact(items: seq<FlatItem>, start: Word)
    requires OneStatement(items)
    ensures (forall j :: 0 <= j < |items| && items[j].Instr? ==> FlatWord(items, start, j) == OwnWord(items, start, j))
       <==> SharersAgree(items, start)
  {
    hide Location, Env, CodeWord;
    forall j | 0 <= j < |items| && items[j].Instr?
      ensures var f := FlatFirstUse(items, items[j].payload.cell);
        && f <= j && items[f].Instr? && (f == j || Share(items, f, j))
        && (items[j].payload.operands == [] ==> FlatWord(items, start, j) == OwnWord(items, start, j))
        && (items[j].payload.operands != [] ==> FlatWord(items, start, j) == OwnWord(items, start, f))
    {
      FlatFirstUseIs(items, items[j].payload.cell, j);
    }
  }

  /** A section that holds the program holds its own words if and only if instructions that share an operand
      agree on theirs. */
  lemma HoldsOwnExact(section: Section, items: seq<FlatItem>)
    requires Holds(section, items, 0) && OneStatement(items)
    ensures (forall j :: 0 <= j < |items| && items[j].Instr? ==>
               Some(section.At(Address(items, 0, j)).value) == OwnWord(items, 0, j))
       <==> SharersAgree(items, 0)
  {
    hide FlatWord, OwnWord, Address, Length, OneStatement, SharersAgree;
    OwnWordsExact(items, 0);
  }
}
