/** Writing mnemonics and macro names in another case of letters changes nothing a program assembles to. */
module Respelling {
  import opened Words
  import opened Wrappers
  import opened Ast
  import opened Scopes
  import opened Layout
  import opened Overlap
  import opened Macros
  import opened Hygiene
  import opened Records
  import opened SecondPass
  import opened Traces
  import opened ParseSteps
  import opened CallContexts
  import opened BabyAssembler
  import InstructionSet
  import Arch
  import Libc

  /** Two names differ only in the case of letters (Libc.CaseCompare). */
  predicate Respelled(a: string, b: string) {
    Libc.StrCaseCmp(a, b) == 0
  }

  /** The same statement, its mnemonics and macro names respelled; labels and formals are as they are. */
  ghost predicate SameStmt(s: Stmt, t: Stmt)
    decreases s
  {
    match s
    case LabelStmt(_) => t == s
    case OrgStmt(_) => t == s
    case InstrStmt(m, cell) => t.InstrStmt? && t.cell == cell && Respelled(m, t.mnemonic)
    case MacroStmt(n, formals, body) =>
      && t.MacroStmt? && Respelled(n, t.name) && t.formals == formals && |t.body| == |body|
      && forall i :: 0 <= i < |body| ==> SameStmt(body[i], t.body[i])
  }

  ghost predicate SameStmts(a: seq<Stmt>, b: seq<Stmt>) {
    |a| == |b| && forall i :: 0 <= i < |a| ==> SameStmt(a[i], b[i])
  }

  ghost predicate SameItem(x: FlatItem, y: FlatItem) {
    match x
    case Instr(f) =>
      && y.Instr? && y.payload.cell == f.cell && y.payload.operands == f.operands
      && Respelled(f.mnemonic, y.payload.mnemonic)
    case _ => y == x
  }

  ghost predicate SameItems(x: seq<FlatItem>, y: seq<FlatItem>) {
    |x| == |y| && forall i :: 0 <= i < |x| ==> SameItem(x[i], y[i])
  }

  ghost predicate SameEvent(x: Event, y: Event) {
    match x
    case Instr(u) =>
      y.Instr? && y.payload.ctx == u.ctx && y.payload.cell == u.cell && Respelled(u.mnemonic, y.payload.mnemonic)
    case _ => y == x
  }

  ghost predicate SameEvents(x: seq<Event>, y: seq<Event>) {
    |x| == |y| && forall i :: 0 <= i < |x| ==> SameEvent(x[i], y[i])
  }

  ghost predicate SameExpansion(x: Option<Expansion>, y: Option<Expansion>) {
    match x
    case None => y == None
    case Some(a) => y.Some? && y.value.next == a.next && SameItems(a.items, y.value.items)
  }

  ghost predicate SameTrace(x: Option<Trace>, y: Option<Trace>) {
    match x
    case None => y == None
    case Some(a) => y.Some? && y.value.info == a.info && SameEvents(a.events, y.value.events)
  }

  /** The macros of two tables are the same but for spelling. */
  ghost predicate SameTables(T: MnemonicTable, U: MnemonicTable) {
    forall name: string :: SameMacro(MacroOf(T, name), MacroOf(U, name))
  }

  ghost predicate SameMacro(m: Option<Mnemonic>, n: Option<Mnemonic>) {
    match m
    case None => n == None
    case Some(a) =>
      && a.Macro? && n.Some? && n.value.Macro? && n.value.formals == a.formals && SameStmts(a.body, n.value.body)
  }

  lemma RespelledKey(a: string, b: string)
    requires Respelled(a, b)
    ensures Libc.Fold(a) == Libc.Fold(b)
  {
    Libc.CaseCompare(a, b);
  }

  lemma TablesFind(T: MnemonicTable, U: MnemonicTable, a: string, b: string)
    requires SameTables(T, U) && Respelled(a, b)
    ensures SameMacro(MacroOf(T, a), MacroOf(U, b))
  {
    hide SameMacro;
    RespelledKey(a, b);
    assert MacroOf(U, a) == MacroOf(U, b);
    assert SameMacro(MacroOf(T, a), MacroOf(U, a));
  }

  lemma TablesDefine(T: MnemonicTable, U: MnemonicTable, s: Stmt, t: Stmt)
    requires SameTables(T, U) && s.MacroStmt? && SameStmt(s, t)
    ensures SameTables(Define(T, s.name, s.formals, s.body), Define(U, t.name, t.formals, t.body))
  {
    hide Libc.Fold;
    RespelledKey(s.name, t.name);
    var T', U' := Define(T, s.name, s.formals, s.body), Define(U, t.name, t.formals, t.body);
    forall name: string ensures SameMacro(MacroOf(T', name), MacroOf(U', name)) {
      assert SameMacro(MacroOf(T, name), MacroOf(U, name));
    }
  }

  lemma {:induction false} RankedSame(rank: map<string, nat>, r: nat, lists: nat, s: Stmt, t: Stmt)
    requires StmtRanked(rank, r, lists, s) && SameStmt(s, t)
    ensures StmtRanked(rank, r, lists, t)
    decreases s
  {
    hide Libc.Fold;
    match s
    case InstrStmt(m, _) =>
      RespelledKey(m, t.mnemonic);
    case MacroStmt(n, _, body) =>
      RespelledKey(n, t.name);
      assert PlainBody(t.body) by {
        forall i | 0 <= i < |t.body| ensures !t.body[i].MacroStmt? { assert SameStmt(body[i], t.body[i]); }
      }
      forall i | 0 <= i < |t.body| ensures StmtRanked(rank, rank[Libc.Fold(n)], lists, t.body[i]) {
        RankedSame(rank, rank[Libc.Fold(n)], lists, body[i], t.body[i]);
      }
    case _ =>
  }

  lemma StmtsRanked(rank: map<string, nat>, r: nat, lists: nat, a: seq<Stmt>, b: seq<Stmt>)
    requires Ranked(rank, r, lists, a) && SameStmts(a, b)
    ensures Ranked(rank, r, lists, b)
  {
    hide StmtRanked, SameStmt;
    forall i | 0 <= i < |b| ensures StmtRanked(rank, r, lists, b[i]) {
      RankedSame(rank, r, lists, a[i], b[i]);
    }
  }

  lemma {:induction false} LaterSame(a: seq<Stmt>, b: seq<Stmt>)
    requires SameStmts(a, b)
    ensures Later(a) == Later(b) && Labels(a) == Labels(b)
    decreases |a|
  {
    if a != [] {
      assert SameStmt(a[0], b[0]);
      LaterSame(a[1..], b[1..]);
    }
  }

  lemma SubstSame(x: seq<FlatItem>, y: seq<FlatItem>, k: nat, formals: map<string, Expr>, labels: set<string>)
    requires SameItems(x, y)
    ensures SameItems(SubstItems(k, formals, labels, x), SubstItems(k, formals, labels, y))
  {}

  lemma PrependSame(x: seq<FlatItem>, y: seq<FlatItem>, a: Option<Expansion>, b: Option<Expansion>)
    requires SameItems(x, y) && SameExpansion(a, b)
    ensures SameExpansion(Prepend(x, a), Prepend(y, b))
  {}

  lemma ThenSame(x: Trace, y: Trace, a: Option<Trace>, b: Option<Trace>)
    requires x.info == y.info && SameEvents(x.events, y.events) && SameTrace(a, b)
    ensures SameTrace(Then(x, a), Then(y, b))
  {}

  // ----- expansion and trace -----

  /** Respelling a list changes its expansion and its trace only in the spelling of mnemonics. */
  lemma {:induction false} CourseSame(T: MnemonicTable, U: MnemonicTable, lists: seq<seq<Expr>>,
                                      rank: map<string, nat>, r: nat, a: seq<Stmt>, b: seq<Stmt>, ctx: nat, k: nat)
    requires TableRanked(T, rank, |lists|) && TableRanked(U, rank, |lists|) && Ranked(rank, r, |lists|, a)
    requires SameTables(T, U) && SameStmts(a, b)
    ensures Ranked(rank, r, |lists|, b)
    ensures SameExpansion(Expand(T, lists, rank, r, a, k), Expand(U, lists, rank, r, b, k))
    ensures SameTrace(Traced(T, lists, rank, r, a, ctx, k), Traced(U, lists, rank, r, b, ctx, k))
    decreases r, |a|, 1
  {
    hide TableRanked, SameTables, MacroOf, Define, Later, Then, Prepend, SameExpansion, SameTrace, Ranked, StmtRanked,
         SameStmts, SameStmt, SameMacro;
    StmtsRanked(rank, r, |lists|, a, b);
    if a == [] {
      NothingSame(T, U, lists, rank, r, a, b, ctx, k);
    } else {
      FirstSame(rank, r, |lists|, a, b);
      var s, t := a[0], b[0];
      if s.MacroStmt? {
        DefineRanked(T, rank, |lists|, r, s);
        DefineRanked(U, rank, |lists|, r, t);
        TablesDefine(T, U, s, t);
        CourseSame(Define(T, s.name, s.formals, s.body), Define(U, t.name, t.formals, t.body), lists, rank, r, a[1..],
                   b[1..], ctx, k);
      } else if s.InstrStmt? && MacroOf(T, s.mnemonic).Some? {
        CallsSame(T, U, lists, rank, r, a, b, ctx, k);
      } else {
        CourseSame(T, U, lists, rank, r, a[1..], b[1..], ctx, k);
        PlainSame(T, U, lists, rank, r, a, b, ctx, k);
      }
    }
  }

  lemma NothingSame(T: MnemonicTable, U: MnemonicTable, lists: seq<seq<Expr>>, rank: map<string, nat>, r: nat,
                    a: seq<Stmt>, b: seq<Stmt>, ctx: nat, k: nat)
    requires TableRanked(T, rank, |lists|) && TableRanked(U, rank, |lists|)
    requires Ranked(rank, r, |lists|, a) && Ranked(rank, r, |lists|, b) && a == [] && SameStmts(a, b)
    ensures SameExpansion(Expand(T, lists, rank, r, a, k), Expand(U, lists, rank, r, b, k))
    ensures SameTrace(Traced(T, lists, rank, r, a, ctx, k), Traced(U, lists, rank, r, b, ctx, k))
  {}

  /** The first statements, and that there are as many after them. */
  lemma FirstSame(rank: map<string, nat>, r: nat, lists: nat, a: seq<Stmt>, b: seq<Stmt>)
    requires Ranked(rank, r, lists, a) && Ranked(rank, r, lists, b) && SameStmts(a, b) && a != []
    ensures b != [] && SameStmt(a[0], b[0]) && SameStmts(a[1..], b[1..])
    ensures StmtRanked(rank, r, lists, a[0]) && StmtRanked(rank, r, lists, b[0])
    ensures Ranked(rank, r, lists, a[1..]) && Ranked(rank, r, lists, b[1..])
    ensures a[0].MacroStmt? <==> b[0].MacroStmt?
    ensures Later(a[1..]) == Later(b[1..])
  {
    hide StmtRanked;
    assert SameStmt(a[0], b[0]);
    LaterSame(a[1..], b[1..]);
  }

  /** A statement that is neither a definition nor a call. */
  lemma PlainSame(T: MnemonicTable, U: MnemonicTable, lists: seq<seq<Expr>>, rank: map<string, nat>, r: nat,
                  a: seq<Stmt>, b: seq<Stmt>, ctx: nat, k: nat)
    requires TableRanked(T, rank, |lists|) && TableRanked(U, rank, |lists|)
    requires Ranked(rank, r, |lists|, a) && Ranked(rank, r, |lists|, b) && SameStmts(a, b) && SameTables(T, U)
    requires a != [] && !a[0].MacroStmt? && (a[0].InstrStmt? ==> MacroOf(T, a[0].mnemonic) == None)
    requires b != [] && Ranked(rank, r, |lists|, a[1..]) && Ranked(rank, r, |lists|, b[1..])
    requires SameExpansion(Expand(T, lists, rank, r, a[1..], k), Expand(U, lists, rank, r, b[1..], k))
    requires SameTrace(Traced(T, lists, rank, r, a[1..], ctx, k), Traced(U, lists, rank, r, b[1..], ctx, k))
    ensures SameExpansion(Expand(T, lists, rank, r, a, k), Expand(U, lists, rank, r, b, k))
    ensures SameTrace(Traced(T, lists, rank, r, a, ctx, k), Traced(U, lists, rank, r, b, ctx, k))
  {
    FirstSame(rank, r, |lists|, a, b);
    var s, t := a[0], b[0];
    var more := Later(a[1..]);
    if s.InstrStmt? {
      TablesFind(T, U, s.mnemonic, t.mnemonic);
    }
    hide TableRanked, SameTables, MacroOf, Later, Then, Prepend, SameExpansion, SameTrace, Ranked, SameStmts, Respelled;
    assert StmtRanked(rank, r, |lists|, s) && StmtRanked(rank, r, |lists|, t);
    var x: seq<FlatItem> := match s
      case LabelStmt(n) => if more then [Label(User(n))] else []
      case OrgStmt(at) => if more then [Org(at)] else []
      case InstrStmt(m, cell) => [Instr(FlatInstr(m, cell, LiftAll(lists[cell])))]
      case MacroStmt(_, _, _) => [];
    var y: seq<FlatItem> := if s.InstrStmt? then [Instr(FlatInstr(t.mnemonic, s.cell, LiftAll(lists[s.cell])))] else x;
    var v: seq<Event> := match s
      case LabelStmt(n) => if more then [Label(Tag(ctx, n))] else []
      case OrgStmt(at) => if more then [Org(at)] else []
      case InstrStmt(m, cell) => [Instr(Use(ctx, m, cell))]
      case MacroStmt(_, _, _) => [];
    var w: seq<Event> := if s.InstrStmt? then [Instr(Use(ctx, t.mnemonic, s.cell))] else v;
    assert SameItems(x, y) && SameEvents(v, w);
    PrependSame(x, y, Expand(T, lists, rank, r, a[1..], k), Expand(U, lists, rank, r, b[1..], k));
    ThenSame(Trace([], v), Trace([], w), Traced(T, lists, rank, r, a[1..], ctx, k),
             Traced(U, lists, rank, r, b[1..], ctx, k));
  }

  /** An application and what follows it. */
  lemma CallsSame(T: MnemonicTable, U: MnemonicTable, lists: seq<seq<Expr>>, rank: map<string, nat>, r: nat,
                  a: seq<Stmt>, b: seq<Stmt>, ctx: nat, k: nat)
    requires TableRanked(T, rank, |lists|) && TableRanked(U, rank, |lists|)
    requires Ranked(rank, r, |lists|, a) && Ranked(rank, r, |lists|, b) && SameStmts(a, b) && SameTables(T, U)
    requires a != [] && a[0].InstrStmt? && MacroOf(T, a[0].mnemonic).Some?
    ensures SameExpansion(Expand(T, lists, rank, r, a, k), Expand(U, lists, rank, r, b, k))
    ensures SameTrace(Traced(T, lists, rank, r, a, ctx, k), Traced(U, lists, rank, r, b, ctx, k))
    decreases r, |a|, 0
  {
    hide TableRanked, SameTables, MacroOf, Later, Then, Prepend, SameExpansion, SameTrace, Ranked, SameStmts,
         SubstItems, FormalMap, Labels, Respelled, Libc.Fold;
    FirstSame(rank, r, |lists|, a, b);
    var s, t := a[0], b[0];
    RespelledKey(s.mnemonic, t.mnemonic);
    TablesFind(T, U, s.mnemonic, t.mnemonic);
    CalledRanked(T, rank, r, |lists|, s);
    CalledRanked(U, rank, r, |lists|, t);
    var m, n, key, actuals := MacroOf(T, s.mnemonic).value, MacroOf(U, t.mnemonic).value, Libc.Fold(s.mnemonic),
                              lists[s.cell];
    CourseSame(T, U, lists, rank, rank[key], m.body, n.body, k, k + 1);
    LaterSame(m.body, n.body);
    AppliedSame(T, U, lists, rank, r, m, n, key, actuals, ctx, k);
    var x := Macros.Apply(T, lists, rank, r, m, key, actuals, k);
    var y := Macros.Apply(U, lists, rank, r, n, key, actuals, k);
    var u := TracedCall(T, lists, rank, r, m, key, actuals, ctx, k);
    var v := TracedCall(U, lists, rank, r, n, key, actuals, ctx, k);
    if x.Some? {
      SameParts(x, y);
      CourseSame(T, U, lists, rank, r, a[1..], b[1..], ctx, x.value.next);
      PrependSame(x.value.items, y.value.items, Expand(T, lists, rank, r, a[1..], x.value.next),
                  Expand(U, lists, rank, r, b[1..], x.value.next));
    } else {
      assert y == None by { SameNothing(x, y, u, v); }
      NothingAlike();
    }
    if u.Some? {
      TraceParts(u, v);
      CourseSame(T, U, lists, rank, r, a[1..], b[1..], ctx, k + |u.value.info|);
      ThenSame(u.value, v.value, Traced(T, lists, rank, r, a[1..], ctx, k + |u.value.info|),
               Traced(U, lists, rank, r, b[1..], ctx, k + |u.value.info|));
    } else {
      assert v == None by { SameNothing(x, y, u, v); }
      NothingAlike();
    }
  }

  lemma NothingAlike()
    ensures SameExpansion(None, None) && SameTrace(None, None)
  {}

  lemma SameNothing(x: Option<Expansion>, y: Option<Expansion>, u: Option<Trace>, v: Option<Trace>)
    requires SameExpansion(x, y) && SameTrace(u, v)
    ensures (x == None ==> y == None) && (u == None ==> v == None)
  {}

  lemma SameParts(x: Option<Expansion>, y: Option<Expansion>)
    requires SameExpansion(x, y) && x.Some?
    ensures y.Some? && y.value.next == x.value.next && SameItems(x.value.items, y.value.items)
  {}

  lemma TraceParts(u: Option<Trace>, v: Option<Trace>)
    requires SameTrace(u, v) && u.Some?
    ensures v.Some? && v.value.info == u.value.info && SameEvents(u.value.events, v.value.events)
  {}

  lemma AppliedSame(T: MnemonicTable, U: MnemonicTable, lists: seq<seq<Expr>>, rank: map<string, nat>, r: nat,
                    m: Mnemonic, n: Mnemonic, key: string, actuals: seq<Expr>, ctx: nat, k: nat)
    requires TableRanked(T, rank, |lists|) && TableRanked(U, rank, |lists|) && key in rank && rank[key] < r
    requires m.Macro? && key in T && T[key] == MnemSym(m) && n.Macro? && key in U && U[key] == MnemSym(n)
    requires m.formals == n.formals && Labels(m.body) == Labels(n.body)
    requires SameExpansion(Expand(T, lists, rank, rank[key], m.body, k + 1),
                           Expand(U, lists, rank, rank[key], n.body, k + 1))
    requires SameTrace(Traced(T, lists, rank, rank[key], m.body, k, k + 1),
                       Traced(U, lists, rank, rank[key], n.body, k, k + 1))
    ensures SameExpansion(Macros.Apply(T, lists, rank, r, m, key, actuals, k),
                          Macros.Apply(U, lists, rank, r, n, key, actuals, k))
    ensures SameTrace(TracedCall(T, lists, rank, r, m, key, actuals, ctx, k),
                      TracedCall(U, lists, rank, r, n, key, actuals, ctx, k))
  {
    assert Ranked(rank, rank[key], |lists|, m.body) && Ranked(rank, rank[key], |lists|, n.body);
    hide TableRanked, Ranked, SubstItems, FormalMap, Labels, Then, SameItems, SameEvents, Expand, Traced;
    if |actuals| == |m.formals| {
      var x, y := Expand(T, lists, rank, rank[key], m.body, k + 1), Expand(U, lists, rank, rank[key], n.body, k + 1);
      if x.Some? {
        SubstSame(x.value.items, y.value.items, k, FormalMap(m.formals, actuals), Labels(m.body));
      }
      var added := Trace([Applying(ctx, m.formals, actuals, Labels(m.body))], []);
      assert SameEvents([], []) by { NoEventsSame(); }
      ThenSame(added, added, Traced(T, lists, rank, rank[key], m.body, k, k + 1),
               Traced(U, lists, rank, rank[key], n.body, k, k + 1));
    }
  }

  lemma NoEventsSame()
    ensures SameEvents([], [])
  {}

  // ----- the words -----

  lemma EventsShape(F: seq<Event>, G: seq<Event>)
    requires SameEvents(F, G)
    ensures SameShape(F, G)
    ensures forall j :: 0 <= j < |F| ==> F[j].Label? ==> G[j] == F[j]
  {
    forall j | 0 <= j < |F|
      ensures F[j].Org? == G[j].Org? && F[j].Label? == G[j].Label? && (F[j].Org? ==> F[j].at == G[j].at)
      ensures F[j].Label? ==> G[j] == F[j]
    {
      assert SameEvent(F[j], G[j]);
    }
  }

  lemma {:induction false} EnvSame(F: seq<Event>, G: seq<Event>, start: Word)
    requires SameEvents(F, G)
    ensures Env(F, start) == Env(G, start)
    decreases |F|
  {
    if F != [] {
      var n := |F| - 1;
      EnvSame(F[..n], G[..n], start);
      EventsShape(F[..n], G[..n]);
      ShapeDecidesLayout(F[..n], G[..n], start);
      assert SameEvent(F[n], G[n]);
    }
  }

  lemma OneSame(p: Pass, u: Use, v: Use, at: Word, refused: bool)
    requires Chained(p.scopes) && u.ctx < |p.scopes| && u.cell < |p.lists|
    requires v.ctx == u.ctx && v.cell == u.cell && Respelled(u.mnemonic, v.mnemonic)
    ensures AssembleOne(p, u, at, refused) == AssembleOne(p, v, at, refused)
  {
    hide CodeWord, Arch.FindInstr, FirstOf;
    var o := FirstOf(p.scopes, u.ctx, at, p.lists[u.cell]);
    InstructionSet.RespellingSame(u.mnemonic, v.mnemonic, if o.tree.Number? then o.tree.value else 0);
  }

  lemma StepSame(S: seq<Scope>, L: seq<seq<Expr>>, F: seq<Event>, G: seq<Event>, start: Word, m: nat, p: Pass)
    requires Chained(S) && WellFormed(F, |S|, |L|) && WellFormed(G, |S|, |L|) && SameEvents(F, G) && m < |F|
    requires Passed(S, L, F, start, m) == Some(p) && Passed(S, L, G, start, m) == Some(p)
    requires Location(F, start, m) == Location(G, start, m) && Refused(F, start, m) == Refused(G, start, m)
    ensures Passed(S, L, F, start, m + 1) == Passed(S, L, G, start, m + 1)
  {
    assert SameEvent(F[m], G[m]);
    assert Fitting(p, |S|, |L|, m);
    hide AssembleOne, Passed, Location, Refused, Respelled;
    PassedNext(S, L, F, start, m);
    PassedNext(S, L, G, start, m);
    if F[m].Instr? {
      OneSame(p, F[m].payload, G[m].payload, Location(F, start, m), Refused(F, start, m));
    }
  }

  lemma {:induction false} PassedSame(S: seq<Scope>, L: seq<seq<Expr>>, F: seq<Event>, G: seq<Event>, start: Word,
                                      m: nat)
    requires Chained(S) && WellFormed(F, |S|, |L|) && WellFormed(G, |S|, |L|) && SameEvents(F, G) && m <= |F|
    ensures |F| == |G| && Passed(S, L, F, start, m) == Passed(S, L, G, start, m)
  {
    SameLengthEvents(F, G);
    if m > 0 {
      hide Passed, Chained, Location, Refused, WellFormed, SameEvents;
      PassedSame(S, L, F, G, start, m - 1);
      EventsShape(F, G);
      ShapeDecidesLocations(F, G, start);
      var p := Passed(S, L, F, start, m - 1);
      if p.Some? {
        StepSame(S, L, F, G, start, m - 1, p.value);
      } else {
        PassStops(S, L, F, start, m - 1, m);
        PassStops(S, L, G, start, m - 1, m);
      }
    } else {
      hide Chained, WellFormed, SameEvents;
    }
  }

  /** Two runs whose traces differ only in the spelling of mnemonics. */
  lemma RunsSame(J: Job, K: Job, root: Scope)
    requires Outermost(J) && Outermost(K) && J.lists == K.lists && Labels(J.stmts) == Labels(K.stmts)
    requires SameTrace(Course(J), Course(K)) && root.parent == None
    ensures WordsOf(J, root) == WordsOf(K, root)
  {
    hide TableRanked, Ranked, Traced, Labels, ContextScopes, Passed, BindAll, Env, Made, SameEvents, Chained,
         WellFormed;
    if Course(J).Some? {
      CourseOk(J);
      CourseOk(K);
      var F, G := Course(J).value.events, Course(K).value.events;
      EnvSame(F, G, 0);
      SameLengthEvents(F, G);
      var bound := Assembled(J, root).bound;
      assert Assembled(K, root).bound == bound;
      PassedSame(bound, J.lists, F, G, 0, |F|);
    }
  }

  /** A respelled program has the same words, or fails as the other does; and its expansion is the same but for
      the spelling of mnemonics. */
  lemma ProgramSame(lists: seq<seq<Expr>>, rank: map<string, nat>, r: nat, a: seq<Stmt>, b: seq<Stmt>, root: Scope)
    requires Ranked(rank, r, |lists|, a) && SameStmts(a, b) && root.parent == None
    ensures var J, K := ProgramJob(lists, rank, r, a), ProgramJob(lists, rank, r, b);
      && Outermost(J) && Outermost(K)
      && SameExpansion(Goal(J), Goal(K)) && WordsOf(J, root) == WordsOf(K, root)
  {
    var J, K := ProgramJob(lists, rank, r, a), ProgramJob(lists, rank, r, b);
    assert TableRanked(map[], rank, |lists|) && SameTables(map[], map[]);
    CourseSame(map[], map[], lists, rank, r, a, b, 0, 1);
    LaterSame(a, b);
    hide TableRanked, Ranked, Expand, Traced, SameExpansion, SameTrace, Labels, WordsOf, SameStmts;
    RunsSame(J, K, root);
  }

  lemma SameLengthEvents(F: seq<Event>, G: seq<Event>)
    requires SameEvents(F, G)
    ensures |F| == |G|
  {}
}
