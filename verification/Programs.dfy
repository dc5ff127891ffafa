/** Concrete programs, statement by statement: what they mean and what parse_stmts makes of them. */
module Programs {
  import opened Wrappers
  import opened Ast
  import opened Layout
  import opened Macros
  import opened Records
  import opened Hygiene
  import opened Traces
  import Libc

  /** The list expands to x, and its trace is t. */
  ghost predicate Parses(T: MnemonicTable, lists: seq<seq<Expr>>, rank: map<string, nat>, r: nat, stmts: seq<Stmt>,
                         ctx: nat, k: nat, x: Expansion, t: Trace)
  {
    && TableRanked(T, rank, |lists|) && Ranked(rank, r, |lists|, stmts)
    && Expand(T, lists, rank, r, stmts, k) == Some(x) && Traced(T, lists, rank, r, stmts, ctx, k) == Some(t)
  }

  lemma ParsesNothing(T: MnemonicTable, lists: seq<seq<Expr>>, rank: map<string, nat>, r: nat, ctx: nat, k: nat)
    requires TableRanked(T, rank, |lists|)
    ensures Parses(T, lists, rank, r, [], ctx, k, Expansion([], k), Trace([], []))
  {}

  /** A label or an origin in front of a list that does not only define macros. */
  lemma ParsesMark(T: MnemonicTable, lists: seq<seq<Expr>>, rank: map<string, nat>, r: nat, s: Stmt, rest: seq<Stmt>,
                   ctx: nat, k: nat, x: Expansion, t: Trace)
    requires Parses(T, lists, rank, r, rest, ctx, k, x, t) && Later(rest) && (s.LabelStmt? || s.OrgStmt?)
    ensures var item: FlatItem := if s.LabelStmt? then Label(User(s.name)) else Org(s.at);
      var ev: Event := if s.LabelStmt? then Label(Tag(ctx, s.name)) else Org(s.at);
      Parses(T, lists, rank, r, [s] + rest, ctx, k, Expansion([item] + x.items, x.next),
             Trace(t.info, [ev] + t.events))
    ensures Later([s] + rest) && Labels([s] + rest) == if s.LabelStmt? then {s.name} + Labels(rest) else Labels(rest)
  {
    hide TableRanked;
    FirstRanked(rank, r, |lists|, s, rest);
    assert [] + t.info == t.info;
  }

  lemma FirstRanked(rank: map<string, nat>, r: nat, lists: nat, s: Stmt, rest: seq<Stmt>)
    requires StmtRanked(rank, r, lists, s) && Ranked(rank, r, lists, rest)
    ensures Ranked(rank, r, lists, [s] + rest) && ([s] + rest)[0] == s && ([s] + rest)[1..] == rest
  {
    assert ([s] + rest)[1..] == rest;
  }

  /** An instruction in front of a list. */
  lemma ParsesInstr(T: MnemonicTable, lists: seq<seq<Expr>>, rank: map<string, nat>, r: nat, mnemonic: string,
                    cell: nat, rest: seq<Stmt>, ctx: nat, k: nat, x: Expansion, t: Trace)
    requires Parses(T, lists, rank, r, rest, ctx, k, x, t)
    requires MacroOf(T, mnemonic).None? && StmtRanked(rank, r, |lists|, InstrStmt(mnemonic, cell))
    ensures cell < |lists|
    ensures Parses(T, lists, rank, r, [InstrStmt(mnemonic, cell)] + rest, ctx, k,
                   Expansion([Instr(FlatInstr(mnemonic, cell, LiftAll(lists[cell])))] + x.items, x.next),
                   Trace(t.info, [Instr(Use(ctx, mnemonic, cell))] + t.events))
    ensures var stmts := [InstrStmt(mnemonic, cell)] + rest; Later(stmts) && Labels(stmts) == Labels(rest)
  {
    hide TableRanked;
    FirstRanked(rank, r, |lists|, InstrStmt(mnemonic, cell), rest);
    assert [] + t.info == t.info;
  }

  /** A macro definition in front of a list. */
  lemma ParsesMacro(T: MnemonicTable, lists: seq<seq<Expr>>, rank: map<string, nat>, r: nat, s: Stmt, rest: seq<Stmt>,
                    ctx: nat, k: nat, x: Expansion, t: Trace)
    requires s.MacroStmt? && TableRanked(T, rank, |lists|) && StmtRanked(rank, r, |lists|, s)
    requires Parses(Define(T, s.name, s.formals, s.body), lists, rank, r, rest, ctx, k, x, t)
    ensures Parses(T, lists, rank, r, [s] + rest, ctx, k, x, t) && Labels([s] + rest) == Labels(rest)
  {
    hide TableRanked;
    FirstRanked(rank, r, |lists|, s, rest);
  }

  /** An application in front of a list. */
  lemma ParsesCall(T: MnemonicTable, lists: seq<seq<Expr>>, rank: map<string, nat>, r: nat, s: Stmt, m: Mnemonic,
                   body: Expansion, inner: Trace, rest: seq<Stmt>, ctx: nat, k: nat, x: Expansion, t: Trace)
    requires s.InstrStmt? && StmtRanked(rank, r, |lists|, s) && MacroOf(T, s.mnemonic) == Some(m)
    requires |lists[s.cell]| == |m.formals| && Libc.Fold(s.mnemonic) in rank
    requires Parses(T, lists, rank, rank[Libc.Fold(s.mnemonic)], m.body, k, k + 1, body, inner)
    requires body.next == k + 1 + |inner.info| && Parses(T, lists, rank, r, rest, ctx, body.next, x, t)
    ensures Parses(T, lists, rank, r, [s] + rest, ctx, k,
                   Expansion(SubstItems(k, FormalMap(m.formals, lists[s.cell]), Labels(m.body), body.items) + x.items,
                             x.next),
                   Trace([Applying(ctx, m.formals, lists[s.cell], Labels(m.body))] + inner.info + t.info,
                         inner.events + t.events))
    ensures Later([s] + rest) && Labels([s] + rest) == Labels(rest)
  {
    hide SubstItems, FormalMap, TableRanked;
    FirstRanked(rank, r, |lists|, s, rest);
    CalledRanked(T, rank, r, |lists|, s);
    var key := Libc.Fold(s.mnemonic);
    assert [] + inner.events == inner.events;
    assert Macros.Apply(T, lists, rank, r, m, key, lists[s.cell], k)
        == Some(Expansion(SubstItems(k, FormalMap(m.formals, lists[s.cell]), Labels(m.body), body.items), body.next));
    assert TracedCall(T, lists, rank, r, m, key, lists[s.cell], ctx, k)
        == Some(Trace([Applying(ctx, m.formals, lists[s.cell], Labels(m.body))] + inner.info, inner.events));
  }
}
