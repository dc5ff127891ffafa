/** Concrete programs without capture, statement by statement: what they expand to. */
module CleanPrograms {
  import opened Wrappers
  import opened Ast
  import opened Layout
  import opened Macros
  import opened Hygiene
  import opened Traces
  import opened CallContexts
  import opened Programs
  import Libc

  /** Within the frames of chain the list captures nothing, and it expands to the items; the applications are
      numbered from k to next. */
  ghost predicate Expands(T: MnemonicTable, lists: seq<seq<Expr>>, rank: map<string, nat>, r: nat, stmts: seq<Stmt>,
                          chain: seq<Frame>, k: nat, items: seq<FlatItem>, next: nat)
  {
    && TableRanked(T, rank, |lists|) && Ranked(rank, r, |lists|, stmts)
    && Expand(T, lists, rank, r, stmts, k) == Some(Expansion(items, next))
    && Hygienic(T, lists, rank, r, stmts, chain)
  }

  lemma ExpandsNothing(T: MnemonicTable, lists: seq<seq<Expr>>, rank: map<string, nat>, r: nat, chain: seq<Frame>,
                       k: nat)
    requires TableRanked(T, rank, |lists|)
    ensures Expands(T, lists, rank, r, [], chain, k, [], k) && Labels([]) == {}
  {}

  lemma ExpandsMark(T: MnemonicTable, lists: seq<seq<Expr>>, rank: map<string, nat>, r: nat, s: Stmt, rest: seq<Stmt>,
                    chain: seq<Frame>, k: nat, items: seq<FlatItem>, next: nat)
    requires Expands(T, lists, rank, r, rest, chain, k, items, next) && Later(rest) && (s.LabelStmt? || s.OrgStmt?)
    ensures var item: FlatItem := if s.LabelStmt? then Label(User(s.name)) else Org(s.at);
      Expands(T, lists, rank, r, [s] + rest, chain, k, [item] + items, next)
    ensures Later([s] + rest) && Labels([s] + rest) == if s.LabelStmt? then {s.name} + Labels(rest) else Labels(rest)
  {
    hide TableRanked;
    FirstRanked(rank, r, |lists|, s, rest);
  }

  lemma ExpandsInstr(T: MnemonicTable, lists: seq<seq<Expr>>, rank: map<string, nat>, r: nat, mnemonic: string,
                     cell: nat, rest: seq<Stmt>, chain: seq<Frame>, k: nat, items: seq<FlatItem>, next: nat)
    requires Expands(T, lists, rank, r, rest, chain, k, items, next)
    requires MacroOf(T, mnemonic).None? && Libc.Fold(mnemonic) !in rank && cell < |lists|
    ensures var stmts := [InstrStmt(mnemonic, cell)] + rest;
      && Later(stmts) && Labels(stmts) == Labels(rest)
      && Expands(T, lists, rank, r, stmts, chain, k, [Instr(FlatInstr(mnemonic, cell, LiftAll(lists[cell])))] + items,
                 next)
  {
    hide TableRanked, Libc.Fold;
    FirstRanked(rank, r, |lists|, InstrStmt(mnemonic, cell), rest);
  }

  lemma ExpandsMacro(T: MnemonicTable, lists: seq<seq<Expr>>, rank: map<string, nat>, r: nat, s: Stmt, rest: seq<Stmt>,
                     chain: seq<Frame>, k: nat, items: seq<FlatItem>, next: nat)
    requires s.MacroStmt? && TableRanked(T, rank, |lists|) && StmtRanked(rank, r, |lists|, s)
    requires Expands(Define(T, s.name, s.formals, s.body), lists, rank, r, rest, chain, k, items, next)
    ensures Expands(T, lists, rank, r, [s] + rest, chain, k, items, next) && Labels([s] + rest) == Labels(rest)
  {
    hide TableRanked, Define;
    FirstRanked(rank, r, |lists|, s, rest);
  }

  lemma ExpandsCall(T: MnemonicTable, lists: seq<seq<Expr>>, rank: map<string, nat>, r: nat, s: Stmt, m: Mnemonic,
                    body: seq<FlatItem>, mid: nat, rest: seq<Stmt>, chain: seq<Frame>, k: nat, items: seq<FlatItem>,
                    next: nat)
    requires s.InstrStmt? && StmtRanked(rank, r, |lists|, s) && MacroOf(T, s.mnemonic) == Some(m)
    requires |lists[s.cell]| == |m.formals| && Libc.Fold(s.mnemonic) in rank
    requires CleanCall(m.formals, Labels(m.body), lists[s.cell], chain)
    requires Expands(T, lists, rank, rank[Libc.Fold(s.mnemonic)], m.body,
                     chain + [Frame(FormalMap(m.formals, lists[s.cell]).Keys, Labels(m.body))], k + 1, body, mid)
    requires Expands(T, lists, rank, r, rest, chain, mid, items, next)
    ensures Expands(T, lists, rank, r, [s] + rest, chain, k,
                    SubstItems(k, FormalMap(m.formals, lists[s.cell]), Labels(m.body), body) + items, next)
    ensures Later([s] + rest) && Labels([s] + rest) == Labels(rest)
  {
    hide SubstItems, FormalMap, TableRanked, CleanCall, MacroOf, Libc.Fold;
    FirstRanked(rank, r, |lists|, s, rest);
    CalledRanked(T, rank, r, |lists|, s);
    var key, actuals := Libc.Fold(s.mnemonic), lists[s.cell];
    assert Macros.Apply(T, lists, rank, r, m, key, actuals, k)
        == Some(Expansion(SubstItems(k, FormalMap(m.formals, actuals), Labels(m.body), body), mid));
    assert HygienicCall(T, lists, rank, r, m, key, actuals, chain);
  }
}
