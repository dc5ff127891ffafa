/** What parse_stmts makes of a list, call for call: the contexts in the order in which they are made and the
    events of the records in the order in which they are pushed; and that this is the expansion. */
module Traces {
  import opened Wrappers
  import opened Ast
  import opened Scopes
  import opened Layout
  import opened Macros
  import opened Records
  import opened Hygiene
  import opened Expansions
  import Libc

  datatype Trace = Trace(info: seq<Info>, events: seq<Event>)

  function Then(a: Trace, b: Option<Trace>): Option<Trace> {
    match b case None => None case Some(t) => Some(Trace(a.info + t.info, a.events + t.events))
  }

  /** The contexts and events of a list in context ctx when there are k contexts; None if some application
      has the wrong number of arguments. */
  ghost function Traced(T: MnemonicTable, lists: seq<seq<Expr>>, rank: map<string, nat>, r: nat, stmts: seq<Stmt>,
                        ctx: nat, k: nat): Option<Trace>
    requires TableRanked(T, rank, |lists|) && Ranked(rank, r, |lists|, stmts)
    decreases r, |stmts|
  {
    if stmts == [] then Some(Trace([], []))
    else
      var rest := stmts[1..];
      assert StmtRanked(rank, r, |lists|, stmts[0]);
      match stmts[0]
      case LabelStmt(n) =>
        Then(Trace([], if Later(rest) then [Label(Tag(ctx, n))] else []), Traced(T, lists, rank, r, rest, ctx, k))
      case OrgStmt(at) =>
        Then(Trace([], if Later(rest) then [Org(at)] else []), Traced(T, lists, rank, r, rest, ctx, k))
      case MacroStmt(name, formals, body) =>
        Traced(Define(T, name, formals, body), lists, rank, r, rest, ctx, k)
      case InstrStmt(mnemonic, cell) =>
        match MacroOf(T, mnemonic)
        case None =>
          Then(Trace([], [Instr(Use(ctx, mnemonic, cell))]), Traced(T, lists, rank, r, rest, ctx, k))
        case Some(m) =>
          match TracedCall(T, lists, rank, r, m, Libc.Fold(mnemonic), lists[cell], ctx, k)
          case None => None
          case Some(t) => Then(t, Traced(T, lists, rank, r, rest, ctx, k + |t.info|))
  }

  /** One application: its context, and then those of its body. */
  ghost function TracedCall(T: MnemonicTable, lists: seq<seq<Expr>>, rank: map<string, nat>, r: nat, m: Mnemonic,
                            key: string, actuals: seq<Expr>, ctx: nat, k: nat): Option<Trace>
    requires TableRanked(T, rank, |lists|)
    requires m.Macro? && key in T && T[key] == MnemSym(m) && key in rank && rank[key] < r
    decreases r, 0
  {
    if |actuals| != |m.formals| then None
    else
      Then(Trace([Applying(ctx, m.formals, actuals, Labels(m.body))], []),
           Traced(T, lists, rank, rank[key], m.body, k, k + 1))
  }

  lemma ThenNothing(t: Option<Trace>)
    ensures Then(Trace([], []), t) == t
  {
    if t.Some? {
      assert [] + t.value.info == t.value.info && [] + t.value.events == t.value.events;
    }
  }

  lemma ThenTwice(a: Trace, b: Trace, t: Option<Trace>)
    ensures Then(a, Then(b, t)) == Then(Trace(a.info + b.info, a.events + b.events), t)
  {
    if t.Some? {
      assert a.info + (b.info + t.value.info) == a.info + b.info + t.value.info;
      assert a.events + (b.events + t.value.events) == a.events + b.events + t.value.events;
    }
  }

  // ----- the events are the expansion -----

  /** Every label of context c is bound by some event. */
  ghost predicate Present(labels: set<string>, c: nat, evs: seq<Event>) {
    forall n :: n in labels ==> Label(Tag(c, n)) in evs
  }

  /** After the contexts of info, the trace t of a list in context ctx realises the expansion x: read in ctx,
      its events are the items, every label is where it belongs and none is missing. */
  ghost predicate Realises(info: seq<Info>, t: Trace, lists: seq<seq<Expr>>, ctx: nat, labels: set<string>,
                           x: Expansion)
    requires ctx < |info|
  {
    var all := info + t.info;
    && InfoOk(all) && WellFormed(t.events, |all|, |lists|)
    && x == Expansion(Rel(all, lists, ctx, t.events), |all|)
    && Placed(all, ctx, t.events) && Present(labels, ctx, t.events)
    && forall c :: |info| <= c < |all| ==> Present(all[c].labels, c, t.events)
  }

  lemma NothingRealised(info: seq<Info>, lists: seq<seq<Expr>>, ctx: nat)
    requires InfoOk(info) && ctx < |info|
    ensures Realises(info, Trace([], []), lists, ctx, {}, Expansion([], |info|))
  {
    assert info + [] == info;
    assert Rel(info, lists, ctx, []) == [];
  }

  lemma MarkRealised(info: seq<Info>, lists: seq<seq<Expr>>, ctx: nat, ev: Event)
    requires InfoOk(info) && ctx < |info| && WellFormed([ev], |info|, |lists|) && !ev.Instr?
    requires ev.Label? ==> ev.name.ctx == ctx && ev.name.name in info[ctx].labels
    ensures Realises(info, Trace([], [ev]), lists, ctx, if ev.Label? then {ev.name.name} else {},
                     Expansion([if ev.Label? then Label(User(ev.name.name)) else Org(ev.at)], |info|))
  {
    assert info + [] == info;
    assert [ev][0] == ev;
    assert Rel(info, lists, ctx, [ev]) == [if ev.Label? then Label(User(ev.name.name)) else Org(ev.at)];
  }

  lemma InstrRealised(info: seq<Info>, lists: seq<seq<Expr>>, ctx: nat, mnemonic: string, cell: nat)
    requires InfoOk(info) && ctx < |info| && cell < |lists|
    ensures Realises(info, Trace([], [Instr(Use(ctx, mnemonic, cell))]), lists, ctx, {},
                     Expansion([Instr(FlatInstr(mnemonic, cell, LiftAll(lists[cell])))], |info|))
  {
    var evs: seq<Event> := [Instr(Use(ctx, mnemonic, cell))];
    assert info + [] == info;
    assert OutwardAll(info, ctx, ctx, lists[cell]) == LiftAll(lists[cell]);
    assert Rel(info, lists, ctx, evs) == [Instr(FlatInstr(mnemonic, cell, LiftAll(lists[cell])))];
  }

  lemma PresentMore(labels: set<string>, c: nat, evs: seq<Event>, more: seq<Event>)
    requires Present(labels, c, evs) || Present(labels, c, more)
    ensures Present(labels, c, evs + more)
  {}

  /** One trace after the other. */
  lemma RealisesThen(info: seq<Info>, a: Trace, b: Trace, lists: seq<seq<Expr>>, ctx: nat, la: set<string>,
                     lb: set<string>, x: Expansion, y: Expansion)
    requires ctx < |info| && Realises(info, a, lists, ctx, la, x) && Realises(info + a.info, b, lists, ctx, lb, y)
    ensures Realises(info, Trace(a.info + b.info, a.events + b.events), lists, ctx, la + lb,
                     Expansion(x.items + y.items, y.next))
  {
    hide Rel, Placed, WellFormed, Present;
    var mid, all := info + a.info, info + (a.info + b.info);
    assert all == mid + b.info;
    RelPrefix(mid, all, lists, ctx, a.events);
    RelAppend(all, lists, ctx, a.events, b.events);
    PlacedPrefix(mid, all, ctx, a.events);
    PlacedAppend(all, ctx, a.events, b.events);
    PresentBoth(la, lb, ctx, a.events, b.events);
    forall c | |info| <= c < |all| ensures Present(all[c].labels, c, a.events + b.events) {
      if c < |mid| {
        assert all[c] == mid[c];
      }
      PresentMore(all[c].labels, c, a.events, b.events);
    }
  }

  lemma PresentBoth(la: set<string>, lb: set<string>, c: nat, a: seq<Event>, b: seq<Event>)
    requires Present(la, c, a) && Present(lb, c, b)
    ensures Present(la + lb, c, a + b)
  {}

  lemma PlacedAppend(info: seq<Info>, ctx: nat, a: seq<Event>, b: seq<Event>)
    requires InfoOk(info) && ctx < |info| && Placed(info, ctx, a) && Placed(info, ctx, b)
    ensures Placed(info, ctx, a + b)
  {
    hide Below;
    forall j | 0 <= j < |a + b|
      ensures var c := EventContext((a + b)[j], ctx);
        c < |info| && Below(info, ctx, c) && ((a + b)[j].Label? ==> (a + b)[j].name.name in info[c].labels)
    {
      assert (a + b)[j] == if j < |a| then a[j] else b[j - |a|];
      if j < |a| {
        assert EventContext(a[j], ctx) < |info|;
      } else {
        assert EventContext(b[j - |a|], ctx) < |info|;
      }
    }
  }

  /** The events of an application, read in the caller, are the substituted body. */
  lemma CallRealised(info: seq<Info>, added: Info, body: Trace, lists: seq<seq<Expr>>, x: Expansion)
    requires added.parent < |info| && Realises(info + [added], body, lists, |info|, added.labels, x)
    ensures Realises(info, Trace([added] + body.info, body.events), lists, added.parent, {},
                     Expansion(SubstItems(|info|, added.formals, added.labels, x.items), x.next))
  {
    hide Rel, Placed, WellFormed, SubstItems;
    var all := info + ([added] + body.info);
    assert all == info + [added] + body.info;
    assert all[|info|] == added;
    RelSubst(all, lists, |info|, body.events);
    PlacedParent(all, |info|, body.events);
  }

  /** What a list expands to, given what its tail does. */
  ghost predicate TraceMatches(info: seq<Info>, t: Option<Trace>, lists: seq<seq<Expr>>, ctx: nat, labels: set<string>,
                               x: Option<Expansion>)
    requires ctx < |info|
  {
    match t case None => x == None case Some(u) => x.Some? && Realises(info, u, lists, ctx, labels, x.value)
  }

  lemma MatchesThen(info: seq<Info>, a: Trace, t: Option<Trace>, lists: seq<seq<Expr>>, ctx: nat, la: set<string>,
                    lb: set<string>, x: Expansion, y: Option<Expansion>)
    requires ctx < |info| && Realises(info, a, lists, ctx, la, x)
    requires TraceMatches(info + a.info, t, lists, ctx, lb, y)
    ensures TraceMatches(info, Then(a, t), lists, ctx, la + lb, Prepend(x.items, y))
  {
    hide Realises;
    if t.Some? {
      RealisesThen(info, a, t.value, lists, ctx, la, lb, x, y.value);
    }
  }

  lemma PrependNothing(e: Option<Expansion>)
    ensures Prepend([], e) == e
  {
    if e.Some? {
      assert [] + e.value.items == e.value.items;
    }
  }

  /** What parse_stmts does to a list is its expansion, event by event; and the one fails where the other
      does. */
  lemma {:induction false} TraceExpands(T: MnemonicTable, lists: seq<seq<Expr>>, rank: map<string, nat>, r: nat,
                                        stmts: seq<Stmt>, ctx: nat, info: seq<Info>)
    requires TableRanked(T, rank, |lists|) && Ranked(rank, r, |lists|, stmts)
    requires InfoOk(info) && ctx < |info| && Labels(stmts) <= info[ctx].labels
    ensures TraceMatches(info, Traced(T, lists, rank, r, stmts, ctx, |info|), lists, ctx, Labels(stmts),
                         Expand(T, lists, rank, r, stmts, |info|))
    decreases r, |stmts|, 1
  {
    hide TableRanked, Realises, TraceMatches, Later, MacroOf, Define, InfoOk;
    if stmts == [] {
      NothingMatches(info, lists, ctx);
    } else {
      var rest := stmts[1..];
      assert StmtRanked(rank, r, |lists|, stmts[0]);
      assert info + [] == info;
      match stmts[0]
      case LabelStmt(n) =>
        TraceExpands(T, lists, rank, r, rest, ctx, info);
        MarkMatches(T, lists, rank, r, stmts, ctx, info);
      case OrgStmt(at) =>
        TraceExpands(T, lists, rank, r, rest, ctx, info);
        MarkMatches(T, lists, rank, r, stmts, ctx, info);
      case MacroStmt(name, formals, body) =>
        DefineRanked(T, rank, |lists|, r, stmts[0]);
        TraceExpands(Define(T, name, formals, body), lists, rank, r, rest, ctx, info);
      case InstrStmt(mnemonic, cell) =>
        if MacroOf(T, mnemonic).None? {
          TraceExpands(T, lists, rank, r, rest, ctx, info);
          InstrRealised(info, lists, ctx, mnemonic, cell);
          MatchesThen(info, Trace([], [Instr(Use(ctx, mnemonic, cell))]), Traced(T, lists, rank, r, rest, ctx, |info|),
                      lists, ctx, {}, Labels(rest),
                      Expansion([Instr(FlatInstr(mnemonic, cell, LiftAll(lists[cell])))], |info|),
                      Expand(T, lists, rank, r, rest, |info|));
          assert {} + Labels(rest) == Labels(stmts);
        } else {
          TraceCalls(T, lists, rank, r, stmts, ctx, info);
        }
    }
  }

  lemma DefineRanked(T: MnemonicTable, rank: map<string, nat>, lists: nat, r: nat, s: Stmt)
    requires TableRanked(T, rank, lists) && s.MacroStmt? && StmtRanked(rank, r, lists, s)
    ensures TableRanked(Define(T, s.name, s.formals, s.body), rank, lists)
  {}

  lemma NothingMatches(info: seq<Info>, lists: seq<seq<Expr>>, ctx: nat)
    requires InfoOk(info) && ctx < |info|
    ensures TraceMatches(info, Some(Trace([], [])), lists, ctx, {}, Some(Expansion([], |info|)))
  {
    NothingRealised(info, lists, ctx);
  }

  /** The cases AST_LABEL and AST_ORG. */
  lemma MarkMatches(T: MnemonicTable, lists: seq<seq<Expr>>, rank: map<string, nat>, r: nat, stmts: seq<Stmt>, ctx: nat,
                    info: seq<Info>)
    requires TableRanked(T, rank, |lists|) && Ranked(rank, r, |lists|, stmts) && stmts != []
    requires stmts[0].LabelStmt? || stmts[0].OrgStmt?
    requires InfoOk(info) && ctx < |info| && Labels(stmts) <= info[ctx].labels
    requires TraceMatches(info, Traced(T, lists, rank, r, stmts[1..], ctx, |info|), lists, ctx, Labels(stmts[1..]),
                          Expand(T, lists, rank, r, stmts[1..], |info|))
    ensures TraceMatches(info, Traced(T, lists, rank, r, stmts, ctx, |info|), lists, ctx, Labels(stmts),
                         Expand(T, lists, rank, r, stmts, |info|))
  {
    hide TableRanked, Realises, TraceMatches, Later, InfoOk;
    var rest := stmts[1..];
    var t, x := Traced(T, lists, rank, r, rest, ctx, |info|), Expand(T, lists, rank, r, rest, |info|);
    assert info + [] == info;
    if Later(rest) {
      var ev: Event := if stmts[0].LabelStmt? then Label(Tag(ctx, stmts[0].name)) else Org(stmts[0].at);
      var labels := if ev.Label? then {ev.name.name} else {};
      MarkRealised(info, lists, ctx, ev);
      MatchesThen(info, Trace([], [ev]), t, lists, ctx, labels, Labels(rest),
                  Expansion([if ev.Label? then Label(User(ev.name.name)) else Org(ev.at)], |info|), x);
      assert labels + Labels(rest) == Labels(stmts);
    } else {
      ThenNothing(t);
      PrependNothing(x);
    }
  }

  /** An application and what follows it. */
  lemma TraceCalls(T: MnemonicTable, lists: seq<seq<Expr>>, rank: map<string, nat>, r: nat, stmts: seq<Stmt>, ctx: nat,
                   info: seq<Info>)
    requires TableRanked(T, rank, |lists|) && Ranked(rank, r, |lists|, stmts) && stmts != []
    requires stmts[0].InstrStmt? && MacroOf(T, stmts[0].mnemonic).Some?
    requires InfoOk(info) && ctx < |info| && Labels(stmts) <= info[ctx].labels
    ensures TraceMatches(info, Traced(T, lists, rank, r, stmts, ctx, |info|), lists, ctx, Labels(stmts),
                         Expand(T, lists, rank, r, stmts, |info|))
    decreases r, |stmts|, 0
  {
    hide TableRanked, Realises, Later, InfoOk, SubstItems, FormalMap;
    var rest, s := stmts[1..], stmts[0];
    assert StmtRanked(rank, r, |lists|, s);
    var m, key := MacroOf(T, s.mnemonic).value, Libc.Fold(s.mnemonic);
    CalledRanked(T, rank, r, |lists|, s);
    TraceApplied(T, lists, rank, r, m, key, lists[s.cell], ctx, info);
    var t := TracedCall(T, lists, rank, r, m, key, lists[s.cell], ctx, |info|);
    if t.Some? {
      var x := Apply(T, lists, rank, r, m, key, lists[s.cell], |info|).value;
      var mid := info + t.value.info;
      RealisedInfo(info, t.value, lists, ctx, {}, x);
      TraceExpands(T, lists, rank, r, rest, ctx, mid);
      MatchesThen(info, t.value, Traced(T, lists, rank, r, rest, ctx, |mid|), lists, ctx, {}, Labels(rest), x,
                  Expand(T, lists, rank, r, rest, |mid|));
      assert {} + Labels(rest) == Labels(stmts);
    }
  }

  lemma CalledRanked(T: MnemonicTable, rank: map<string, nat>, r: nat, lists: nat, s: Stmt)
    requires TableRanked(T, rank, lists) && s.InstrStmt? && StmtRanked(rank, r, lists, s)
    requires MacroOf(T, s.mnemonic).Some?
    ensures var key := Libc.Fold(s.mnemonic); var m := MacroOf(T, s.mnemonic).value;
      && m.Macro? && key in T && T[key] == MnemSym(m) && key in rank && rank[key] < r
      && Ranked(rank, rank[key], lists, m.body)
  {}

  lemma RealisedInfo(info: seq<Info>, t: Trace, lists: seq<seq<Expr>>, ctx: nat, labels: set<string>, x: Expansion)
    requires ctx < |info| && Realises(info, t, lists, ctx, labels, x)
    ensures InfoOk(info + t.info) && x.next == |info| + |t.info|
  {}

  lemma TraceApplied(T: MnemonicTable, lists: seq<seq<Expr>>, rank: map<string, nat>, r: nat, m: Mnemonic, key: string,
                     actuals: seq<Expr>, ctx: nat, info: seq<Info>)
    requires TableRanked(T, rank, |lists|) && InfoOk(info) && ctx < |info|
    requires m.Macro? && key in T && T[key] == MnemSym(m) && key in rank && rank[key] < r
    ensures TraceMatches(info, TracedCall(T, lists, rank, r, m, key, actuals, ctx, |info|), lists, ctx, {},
                         Apply(T, lists, rank, r, m, key, actuals, |info|))
    decreases r, 0
  {
    hide Realises, SubstItems, FormalMap, Labels;
    if |actuals| == |m.formals| {
      var added := Applying(ctx, m.formals, actuals, Labels(m.body));
      assert InfoOk(info + [added]) && (info + [added])[|info|] == added;
      TraceExpands(T, lists, rank, rank[key], m.body, |info|, info + [added]);
      var t := Traced(T, lists, rank, rank[key], m.body, |info|, |info| + 1);
      if t.Some? {
        CallRealised(info, added, t.value, lists, Expand(T, lists, rank, rank[key], m.body, |info| + 1).value);
        assert [] + t.value.events == t.value.events;
      }
    }
  }

  // ----- wrong numbers of arguments -----

  /** The macros known after the statements. */
  function Defined(T: MnemonicTable, stmts: seq<Stmt>): MnemonicTable
    decreases |stmts|
  {
    if stmts == [] then T
    else
      var s := stmts[0];
      Defined(if s.MacroStmt? then Define(T, s.name, s.formals, s.body) else T, stmts[1..])
  }

  /** A list fails if some statement applies a macro known by then to more or fewer arguments than it has formals. */
  lemma {:induction false} WrongArity(T: MnemonicTable, lists: seq<seq<Expr>>, rank: map<string, nat>, r: nat,
                                      stmts: seq<Stmt>, i: nat, ctx: nat, k: nat)
    requires TableRanked(T, rank, |lists|) && Ranked(rank, r, |lists|, stmts) && i < |stmts|
    requires stmts[i].InstrStmt? && stmts[i].cell < |lists|
    requires var m := MacroOf(Defined(T, stmts[..i]), stmts[i].mnemonic);
      m.Some? && |lists[stmts[i].cell]| != |m.value.formals|
    ensures Traced(T, lists, rank, r, stmts, ctx, k) == None && Expand(T, lists, rank, r, stmts, k) == None
    decreases i
  {
    hide TableRanked, MacroOf, Define, Later, SubstItems, FormalMap, Labels;
    assert StmtRanked(rank, r, |lists|, stmts[0]);
    var s, rest := stmts[0], stmts[1..];
    if i > 0 {
      assert stmts[..i][0] == s && stmts[..i][1..] == rest[..i - 1];
      if s.MacroStmt? {
        DefineRanked(T, rank, |lists|, r, s);
        WrongArity(Define(T, s.name, s.formals, s.body), lists, rank, r, rest, i - 1, ctx, k);
      } else if s.InstrStmt? && MacroOf(T, s.mnemonic).Some? {
        WrongLater(T, lists, rank, r, stmts, i, ctx, k);
      } else {
        WrongArity(T, lists, rank, r, rest, i - 1, ctx, k);
      }
    } else {
      CalledRanked(T, rank, r, |lists|, s);
    }
  }

  /** The same after an application. */
  lemma WrongLater(T: MnemonicTable, lists: seq<seq<Expr>>, rank: map<string, nat>, r: nat, stmts: seq<Stmt>, i: nat,
                   ctx: nat, k: nat)
    requires TableRanked(T, rank, |lists|) && Ranked(rank, r, |lists|, stmts) && 0 < i < |stmts|
    requires stmts[0].InstrStmt? && MacroOf(T, stmts[0].mnemonic).Some?
    requires stmts[i].InstrStmt? && stmts[i].cell < |lists|
    requires var m := MacroOf(Defined(T, stmts[1..][..i - 1]), stmts[i].mnemonic);
      m.Some? && |lists[stmts[i].cell]| != |m.value.formals|
    ensures Traced(T, lists, rank, r, stmts, ctx, k) == None && Expand(T, lists, rank, r, stmts, k) == None
    decreases i, 0
  {
    hide TableRanked, MacroOf, Define, Defined, Later, SubstItems, FormalMap, Labels, Apply, TracedCall;
    var s, rest := stmts[0], stmts[1..];
    assert StmtRanked(rank, r, |lists|, s);
    CalledRanked(T, rank, r, |lists|, s);
    var m, key, actuals := MacroOf(T, s.mnemonic).value, Libc.Fold(s.mnemonic), lists[s.cell];
    var x, t := Apply(T, lists, rank, r, m, key, actuals, k), TracedCall(T, lists, rank, r, m, key, actuals, ctx, k);
    if x.Some? {
      WrongArity(T, lists, rank, r, rest, i - 1, ctx, x.value.next);
    }
    if t.Some? {
      WrongArity(T, lists, rank, r, rest, i - 1, ctx, k + |t.value.info|);
    }
  }
}
