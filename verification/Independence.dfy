/** The run of a program depends neither on what the mnemonic table holds besides macros, nor on which names
    without values the root has. */
module Independence {
  import opened Words
  import opened Wrappers
  import opened Ast
  import opened Scopes
  import opened Evaluation
  import opened Layout
  import opened Overlap
  import opened Macros
  import opened Hygiene
  import opened Records
  import opened SecondPass
  import opened Traces
  import opened ParseSteps
  import opened CallContexts
  import opened BabyAssembler
  import Arch
  import Libc

  // ----- mnemonics -----

  ghost predicate SameMacros(T: MnemonicTable, U: MnemonicTable) {
    forall name: string :: MacroOf(T, name) == MacroOf(U, name)
  }

  lemma SameMacrosDefine(T: MnemonicTable, U: MnemonicTable, name: string, formals: seq<string>, body: seq<Stmt>)
    requires SameMacros(T, U)
    ensures SameMacros(Define(T, name, formals, body), Define(U, name, formals, body))
  {
    forall other: string
      ensures MacroOf(Define(T, name, formals, body), other) == MacroOf(Define(U, name, formals, body), other)
    {
      assert MacroOf(T, other) == MacroOf(U, other);
    }
  }

  /** Expansion and trace look at the macros only, and so does freedom from capture. */
  lemma {:induction false} SameCourse(T: MnemonicTable, U: MnemonicTable, lists: seq<seq<Expr>>,
                                      rank: map<string, nat>, r: nat, stmts: seq<Stmt>, ctx: nat, k: nat)
    requires TableRanked(T, rank, |lists|) && TableRanked(U, rank, |lists|) && Ranked(rank, r, |lists|, stmts)
    requires SameMacros(T, U)
    ensures Expand(T, lists, rank, r, stmts, k) == Expand(U, lists, rank, r, stmts, k)
    ensures Traced(T, lists, rank, r, stmts, ctx, k) == Traced(U, lists, rank, r, stmts, ctx, k)
    decreases r, |stmts|, 1
  {
    hide TableRanked, SameMacros, MacroOf, Define, Later, Then, Prepend;
    if stmts != [] {
      var rest, s := stmts[1..], stmts[0];
      assert StmtRanked(rank, r, |lists|, s);
      if s.MacroStmt? {
        DefineRanked(T, rank, |lists|, r, s);
        DefineRanked(U, rank, |lists|, r, s);
        SameMacrosDefine(T, U, s.name, s.formals, s.body);
        SameCourse(Define(T, s.name, s.formals, s.body), Define(U, s.name, s.formals, s.body), lists, rank, r, rest,
                   ctx, k);
      } else if s.InstrStmt? && MacroOf(T, s.mnemonic).Some? {
        SameMacroOf(T, U, s.mnemonic);
        SameCalls(T, U, lists, rank, r, stmts, ctx, k);
      } else {
        if s.InstrStmt? {
          SameMacroOf(T, U, s.mnemonic);
        }
        SameCourse(T, U, lists, rank, r, rest, ctx, k);
      }
    }
  }

  lemma SameMacroOf(T: MnemonicTable, U: MnemonicTable, name: string)
    requires SameMacros(T, U)
    ensures MacroOf(T, name) == MacroOf(U, name)
  {}

  lemma SameCalls(T: MnemonicTable, U: MnemonicTable, lists: seq<seq<Expr>>, rank: map<string, nat>, r: nat,
                  stmts: seq<Stmt>, ctx: nat, k: nat)
    requires TableRanked(T, rank, |lists|) && TableRanked(U, rank, |lists|) && Ranked(rank, r, |lists|, stmts)
    requires SameMacros(T, U) && stmts != [] && stmts[0].InstrStmt?
    requires MacroOf(T, stmts[0].mnemonic).Some? && MacroOf(T, stmts[0].mnemonic) == MacroOf(U, stmts[0].mnemonic)
    ensures Expand(T, lists, rank, r, stmts, k) == Expand(U, lists, rank, r, stmts, k)
    ensures Traced(T, lists, rank, r, stmts, ctx, k) == Traced(U, lists, rank, r, stmts, ctx, k)
    decreases r, |stmts|, 0
  {
    hide TableRanked, SameMacros, MacroOf, Later, Then, Prepend, SubstItems, FormalMap, Labels;
    var rest, s := stmts[1..], stmts[0];
    assert StmtRanked(rank, r, |lists|, s);
    CalledRanked(T, rank, r, |lists|, s);
    CalledRanked(U, rank, r, |lists|, s);
    var m, key, actuals := MacroOf(T, s.mnemonic).value, Libc.Fold(s.mnemonic), lists[s.cell];
    SameCourse(T, U, lists, rank, rank[key], m.body, k, k + 1);
    var x := Macros.Apply(T, lists, rank, r, m, key, actuals, k);
    var t := TracedCall(T, lists, rank, r, m, key, actuals, ctx, k);
    assert x == Macros.Apply(U, lists, rank, r, m, key, actuals, k);
    assert t == TracedCall(U, lists, rank, r, m, key, actuals, ctx, k);
    if x.Some? {
      SameCourse(T, U, lists, rank, r, rest, ctx, x.value.next);
    }
    if t.Some? {
      SameCourse(T, U, lists, rank, r, rest, ctx, k + |t.value.info|);
    }
  }

  lemma {:induction false} SameHygienic(T: MnemonicTable, U: MnemonicTable, lists: seq<seq<Expr>>,
                                        rank: map<string, nat>, r: nat, stmts: seq<Stmt>, chain: seq<Frame>)
    requires TableRanked(T, rank, |lists|) && TableRanked(U, rank, |lists|) && Ranked(rank, r, |lists|, stmts)
    requires SameMacros(T, U)
    ensures Hygienic(T, lists, rank, r, stmts, chain) <==> Hygienic(U, lists, rank, r, stmts, chain)
    decreases r, |stmts|
  {
    hide TableRanked, SameMacros, MacroOf, Define, CleanCall, FormalMap, Labels;
    if stmts != [] {
      var rest, s := stmts[1..], stmts[0];
      assert StmtRanked(rank, r, |lists|, s);
      if s.MacroStmt? {
        DefineRanked(T, rank, |lists|, r, s);
        DefineRanked(U, rank, |lists|, r, s);
        SameMacrosDefine(T, U, s.name, s.formals, s.body);
        SameHygienic(Define(T, s.name, s.formals, s.body), Define(U, s.name, s.formals, s.body), lists, rank, r, rest,
                     chain);
      } else {
        SameHygienic(T, U, lists, rank, r, rest, chain);
        if s.InstrStmt? {
          SameMacroOf(T, U, s.mnemonic);
          if MacroOf(T, s.mnemonic).Some? {
            CalledRanked(T, rank, r, |lists|, s);
            CalledRanked(U, rank, r, |lists|, s);
            var m, key, actuals := MacroOf(T, s.mnemonic).value, Libc.Fold(s.mnemonic), lists[s.cell];
            if |actuals| == |m.formals| {
              SameHygienic(T, U, lists, rank, rank[key], m.body,
                           chain + [Frame(FormalMap(m.formals, actuals).Keys, Labels(m.body))]);
            }
          }
        }
      }
    }
  }

  // ----- names without values -----

  /** The value of a symbol of one scope, if it has one. */
  function Known(s: Scope, n: string): Option<SymVal> {
    if n in s.syms && !s.syms[n].UndefSym? then Some(s.syms[n]) else None
  }

  /** The scopes differ at most in names without values of the root. */
  ghost predicate Alike(S: seq<Scope>, T: seq<Scope>) {
    && Chained(S) && Chained(T) && |S| == |T| > 0
    && (forall c :: 0 < c < |S| ==> S[c] == T[c])
    && S[0].parent == T[0].parent == None && forall n :: Known(S[0], n) == Known(T[0], n)
  }

  lemma AlikeChained(S: seq<Scope>, T: seq<Scope>)
    requires Alike(S, T)
    ensures Chained(S) && Chained(T) && |S| == |T|
  {}

  /** Where a name has its value, if the scope found has one for it. */
  function Deciding(S: seq<Scope>, d: Option<nat>, n: string): Option<nat>
    requires d.Some? ==> d.value < |S| && n in S[d.value].syms
  {
    if d.Some? && !S[d.value].syms[n].UndefSym? then d else None
  }

  lemma {:induction false} FindAnyAlike(S: seq<Scope>, T: seq<Scope>, c: nat, n: string)
    requires Alike(S, T) && c < |S|
    ensures Deciding(S, FindAny(S, c, n), n) == Deciding(T, FindAny(T, c, n), n)
    decreases c
  {
    if c == 0 {
      assert Known(S[0], n) == Known(T[0], n);
    } else if n !in S[c].syms && S[c].parent.Some? {
      FindAnyAlike(S, T, S[c].parent.value, n);
    }
  }

  lemma ValueAlike(S: seq<Scope>, T: seq<Scope>, d: nat, n: string)
    requires Alike(S, T) && d < |S| && n in S[d].syms && !S[d].syms[n].UndefSym?
    ensures n in T[d].syms && T[d].syms[n] == S[d].syms[n]
  {
    if d == 0 {
      assert Known(S[0], n) == Known(T[0], n);
    }
  }

  lemma FindAlike(S: seq<Scope>, T: seq<Scope>, c: nat, n: string)
    requires Alike(S, T) && c < |S|
    ensures var d := Deciding(S, Find(S, c, n), n);
      && d == Deciding(T, Find(T, c, n), n)
      && (d.Some? ==> n in T[d.value].syms && T[d.value].syms[n] == S[d.value].syms[n])
  {
    if c == 0 {
      assert Known(S[0], n) == Known(T[0], n);
    } else if S[c].parent.Some? {
      FindAnyAlike(S, T, S[c].parent.value, n);
    }
    var d := Deciding(S, Find(S, c, n), n);
    if d.Some? {
      ValueAlike(S, T, d.value, n);
    }
  }

  lemma {:induction false} ResidualAlike(S: seq<Scope>, T: seq<Scope>, c: nat, e: Expr)
    requires Alike(S, T) && c < |S|
    ensures Residual(S, c, e) == Residual(T, c, e)
    decreases e
  {
    AlikeChained(S, T);
    hide Alike;
    match e
    case Number(_) =>
    case Name(n) =>
      FindAlike(S, T, c, n);
    case Minus(l, r) =>
      ResidualAlike(S, T, c, l);
      ResidualAlike(S, T, c, r);
    case Plus(l, r) =>
      ResidualAlike(S, T, c, l);
      ResidualAlike(S, T, c, r);
  }

  lemma RecordAlike(S: seq<Scope>, T: seq<Scope>, c: nat, n: string, e: Expr)
    requires Alike(S, T) && c < |S|
    ensures Alike(RecordTree(S, c, n, e), RecordTree(T, c, n, e))
  {
    var S', T' := RecordTree(S, c, n, e), RecordTree(T, c, n, e);
    forall k ensures Known(S'[0], k) == Known(T'[0], k) {
      assert Known(S[0], k) == Known(T[0], k);
    }
  }

  lemma {:induction false} EvaluateAlike(S: seq<Scope>, T: seq<Scope>, c: nat, e: Expr)
    requires Alike(S, T) && c < |S|
    ensures Evaluate(S, c, e).tree == Evaluate(T, c, e).tree
    ensures Alike(Evaluate(S, c, e).scopes, Evaluate(T, c, e).scopes)
    decreases c, e, 1
  {
    AlikeChained(S, T);
    hide Alike;
    match e
    case Number(_) =>
    case Minus(_, _) => BothAlike(S, T, c, e);
    case Plus(_, _) => BothAlike(S, T, c, e);
    case Name(n) =>
      FindAlike(S, T, c, n);
      var d := Deciding(S, Find(S, c, n), n);
      if d.Some? && S[d.value].syms[n].AstSym? {
        var a := S[d.value].syms[n].expr;
        EvaluateAlike(S, T, d.value, a);
        RecordAlike(Evaluate(S, d.value, a).scopes, Evaluate(T, d.value, a).scopes, d.value, n,
                    Evaluate(S, d.value, a).tree);
      }
  }

  lemma BothAlike(S: seq<Scope>, T: seq<Scope>, c: nat, e: Expr)
    requires Alike(S, T) && c < |S| && (e.Minus? || e.Plus?)
    ensures Evaluate(S, c, e).tree == Evaluate(T, c, e).tree
    ensures Alike(Evaluate(S, c, e).scopes, Evaluate(T, c, e).scopes)
    decreases c, e, 0
  {
    AlikeChained(S, T);
    hide Alike, Chained;
    EvaluateAlike(S, T, c, e.left);
    EvaluateAlike(Evaluate(S, c, e.left).scopes, Evaluate(T, c, e.left).scopes, c, e.right);
  }

  lemma MoreAlike(S: seq<Scope>, T: seq<Scope>, top: Scope)
    requires Alike(S, T) && top.parent.Some? && top.parent.value < |S|
    ensures Alike(S + [top], T + [top])
  {}

  lemma FewerAlike(S: seq<Scope>, T: seq<Scope>, n: nat)
    requires Alike(S, T) && 0 < n <= |S|
    ensures Alike(S[..n], T[..n])
  {}

  lemma {:induction false} BoundAlike(S: seq<Scope>, T: seq<Scope>, p: nat, formals: seq<string>, actuals: seq<Expr>)
    requires Alike(S, T) && p < |S| && |formals| == |actuals|
    ensures BoundArguments(S, p, formals, actuals) == BoundArguments(T, p, formals, actuals)
  {
    if formals != [] {
      hide Alike, Residual;
      var n := |formals| - 1;
      BoundAlike(S, T, p, formals[..n], actuals[..n]);
      var top := Scope(Some(p), BoundArguments(S, p, formals[..n], actuals[..n]));
      MoreAlike(S, T, top);
      ResidualAlike(S + [top], T + [top], |S|, actuals[n]);
    }
  }

  lemma {:induction false} ContextsAlike(root: Scope, other: Scope, info: seq<Info>)
    requires Made(info) && Unbound(root) && Unbound(other)
    ensures Alike(ContextScopes(root, info), ContextScopes(other, info))
  {
    var n := |info| - 1;
    if n > 0 {
      hide Alike, Unbound, BoundArguments, FormalMap;
      assert Made(info[..n]);
      ContextsAlike(root, other, info[..n]);
      var S, T, p := ContextScopes(root, info[..n]), ContextScopes(other, info[..n]), info[n].parent;
      BoundAlike(S, T, p, info[n].names, info[n].actuals);
      MoreAlike(S, T, Scope(Some(p), BoundArguments(S, p, info[n].names, info[n].actuals)));
    }
  }

  lemma BindAlike(S: seq<Scope>, T: seq<Scope>, env: map<Tag, Word>)
    requires Alike(S, T)
    ensures Alike(BindAll(S, env), BindAll(T, env))
  {
    var S', T' := BindAll(S, env), BindAll(T, env);
    forall c | 0 < c < |S| ensures S'[c] == T'[c] {
      assert S[c] == T[c];
    }
    forall n ensures Known(S'[0], n) == Known(T'[0], n) {
      assert Known(S[0], n) == Known(T[0], n);
    }
  }

  lemma OneAlike(p: Pass, q: Pass, u: Use, at: Word, refused: bool)
    requires Alike(p.scopes, q.scopes) && p.lists == q.lists && p.words == q.words
    requires u.ctx < |p.scopes| && u.cell < |p.lists|
    ensures PassAlike(AssembleOne(p, u, at, refused), AssembleOne(q, u, at, refused))
  {
    AlikeChained(p.scopes, q.scopes);
    hide Alike, Evaluate, CodeWord, Arch.FindInstr;
    var es := p.lists[u.cell];
    if es != [] {
      var top := Top(u.ctx, at);
      var n := |p.scopes|;
      MoreAlike(p.scopes, q.scopes, top);
      TopChained(p.scopes, top);
      TopChained(q.scopes, top);
      EvaluateAlike(p.scopes + [top], q.scopes + [top], n, es[0]);
      FewerAlike(Evaluate(p.scopes + [top], n, es[0]).scopes, Evaluate(q.scopes + [top], n, es[0]).scopes, n);
    }
  }

  /** Two passes have put the same words. */
  ghost predicate PassAlike(p: Option<Pass>, q: Option<Pass>) {
    match p
    case None => q == None
    case Some(a) =>
      q.Some? && Alike(a.scopes, q.value.scopes) && a.lists == q.value.lists && a.words == q.value.words
  }

  lemma StepAlike(S: seq<Scope>, T: seq<Scope>, L: seq<seq<Expr>>, F: seq<Event>, start: Word, m: nat, p: Pass, q: Pass)
    requires Chained(S) && Chained(T) && |S| == |T| && WellFormed(F, |S|, |L|) && m < |F|
    requires Passed(S, L, F, start, m) == Some(p) && Passed(T, L, F, start, m) == Some(q)
    requires PassAlike(Some(p), Some(q))
    ensures PassAlike(Passed(S, L, F, start, m + 1), Passed(T, L, F, start, m + 1))
  {
    assert Fitting(p, |S|, |L|, m) && Fitting(q, |S|, |L|, m);
    hide Alike, AssembleOne, Passed, Chained, Location, Refused;
    PassedNext(S, L, F, start, m);
    PassedNext(T, L, F, start, m);
    if F[m].Instr? {
      OneAlike(p, q, F[m].payload, Location(F, start, m), Refused(F, start, m));
    }
  }

  lemma {:induction false} PassedAlike(S: seq<Scope>, T: seq<Scope>, L: seq<seq<Expr>>, F: seq<Event>, start: Word,
                                       m: nat)
    requires Alike(S, T) && WellFormed(F, |S|, |L|) && m <= |F|
    ensures PassAlike(Passed(S, L, F, start, m), Passed(T, L, F, start, m))
  {
    AlikeChained(S, T);
    if m == 0 {
      assert Passed(S, L, F, start, 0) == Some(Pass(S, L, [])) && Passed(T, L, F, start, 0) == Some(Pass(T, L, []));
    } else {
      hide Alike, Passed, Chained, WellFormed, Fitting;
      PassedAlike(S, T, L, F, start, m - 1);
      var p, q := Passed(S, L, F, start, m - 1), Passed(T, L, F, start, m - 1);
      if p.Some? {
        StepAlike(S, T, L, F, start, m - 1, p.value, q.value);
      } else {
        PassStops(S, L, F, start, m - 1, m);
        PassStops(T, L, F, start, m - 1, m);
      }
    }
  }

  /** The words of a run do not depend on the names without values. */
  lemma WordsAlike(J: Job, root: Scope, other: Scope)
    requires Outermost(J) && Unbound(root) && Unbound(other)
    ensures WordsOf(J, root) == WordsOf(J, other)
  {
    hide Course, Alike, Unbound, Env, ContextScopes, BindAll, Passed, Made;
    if Course(J).Some? {
      CourseOk(J);
      var info := [RootInfo(J.stmts)] + Course(J).value.info;
      var events := Course(J).value.events;
      ContextsAlike(root, other, info);
      var S, T := ContextScopes(root, info), ContextScopes(other, info);
      BindAlike(S, T, Env(events, 0));
      PassedAlike(BindAll(S, Env(events, 0)), BindAll(T, Env(events, 0)), J.lists, events, 0, |events|);
    }
  }
}
