/** Making the context of a macro application, on values: the scopes and what is known of them. */
module CallContexts {
  import opened Wrappers
  import opened Ast
  import opened Scopes
  import opened Macros
  import opened Evaluation
  import opened Hygiene
  import opened Layout
  import opened Records
  import opened Traces
  import Libc

  /** The formals with what partial evaluation leaves of their arguments. */
  function Arguments(S: seq<Scope>, p: nat, formals: map<string, Expr>): (m: map<string, SymVal>)
    requires Chained(S) && p < |S|
  {
    map n | n in formals :: ExprToSymVal(ResidualFrom(S, p, formals[n]))
  }

  /** In the new context an argument sees nothing of it, so its residual is that of the caller. */
  lemma {:induction false} ArgumentResidual(S: seq<Scope>, top: Scope, e: Expr)
    requires Chained(S) && top.parent.Some? && top.parent.value < |S|
    requires forall n :: n in Names(e) ==> n !in top.syms
    ensures Chained(S + [top])
    ensures Residual(S + [top], |S|, e) == ResidualFrom(S, top.parent.value, e)
    decreases e
  {
    var S' := S + [top];
    assert Chained(S');
    assert S'[|S|] == top;
    match e
    case Number(_) =>
    case Name(n) =>
      assert n in Names(e);
      FindAnyPrefix(S, [top], top.parent.value, n);
      var d := FindAny(S, top.parent.value, n);
      if d.Some? {
        assert S'[d.value] == S[d.value];
      }
    case Minus(l, r) =>
      assert Names(l) <= Names(e) && Names(r) <= Names(e);
      ArgumentResidual(S, top, l);
      ArgumentResidual(S, top, r);
    case Plus(l, r) =>
      assert Names(l) <= Names(e) && Names(r) <= Names(e);
      ArgumentResidual(S, top, l);
      ArgumentResidual(S, top, r);
  }

  lemma {:induction false} FormalMapKeys(formals: seq<string>, actuals: seq<Expr>)
    requires |formals| == |actuals|
    ensures forall n :: n in FormalMap(formals, actuals) ==>
      exists i :: 0 <= i < |formals| && formals[i] == n && FormalMap(formals, actuals)[n] == actuals[i]
    ensures forall i :: 0 <= i < |formals| ==> formals[i] in FormalMap(formals, actuals)
  {
    if formals != [] {
      var k := |formals| - 1;
      FormalMapKeys(formals[..k], actuals[..k]);
      forall n | n in FormalMap(formals, actuals)
        ensures exists i :: 0 <= i < |formals| && formals[i] == n && FormalMap(formals, actuals)[n] == actuals[i]
      {
        if n == formals[k] {
        } else {
          var i :| 0 <= i < k && formals[..k][i] == n && FormalMap(formals[..k], actuals[..k])[n] == actuals[..k][i];
          assert formals[i] == n;
        }
      }
      forall i | 0 <= i < |formals| ensures formals[i] in FormalMap(formals, actuals) {
        if i < k {
          assert formals[i] == formals[..k][i];
        }
      }
    }
  }

  lemma ArgumentsNext(S: seq<Scope>, p: nat, m: map<string, Expr>, n: string, a: Expr)
    requires Chained(S) && p < |S|
    ensures Arguments(S, p, m[n := a]) == Arguments(S, p, m)[n := ExprToSymVal(ResidualFrom(S, p, a))]
  {}

  /** No argument mentions an earlier formal. */
  lemma ActualMentionsNone(S: seq<Scope>, p: nat, formals: seq<string>, labels: set<string>, actuals: seq<Expr>,
                           chain: seq<Frame>, i: nat)
    requires Chained(S) && p < |S| && |formals| == |actuals| && i < |formals|
    requires CleanCall(formals, labels, actuals, chain)
    ensures forall n :: n in Names(actuals[i]) ==> n !in Arguments(S, p, FormalMap(formals[..i], actuals[..i]))
  {
    FormalMapKeys(formals[..i], actuals[..i]);
  }

  /** One more argument bound. */
  lemma BindOne(S: seq<Scope>, p: nat, formals: seq<string>, labels: set<string>, actuals: seq<Expr>, chain: seq<Frame>,
                i: nat)
    requires Chained(S) && p < |S| && |formals| == |actuals| && i < |formals|
    requires CleanCall(formals, labels, actuals, chain)
    ensures var before := Arguments(S, p, FormalMap(formals[..i], actuals[..i]));
      && Chained(S + [Scope(Some(p), before)])
      && before[formals[i] := ExprToSymVal(Residual(S + [Scope(Some(p), before)], |S|, actuals[i]))]
      == Arguments(S, p, FormalMap(formals[..i + 1], actuals[..i + 1]))
  {
    hide CleanCall, Arguments;
    var m := FormalMap(formals[..i], actuals[..i]);
    ActualMentionsNone(S, p, formals, labels, actuals, chain, i);
    ArgumentsNext(S, p, m, formals[i], actuals[i]);
    ArgumentResidual(S, Scope(Some(p), Arguments(S, p, m)), actuals[i]);
    assert formals[..i + 1][..i] == formals[..i] && actuals[..i + 1][..i] == actuals[..i];
  }

  lemma NewChained(S: seq<Scope>, p: nat, m: map<string, SymVal>)
    requires Chained(S) && p < |S|
    ensures Chained(S + [Scope(Some(p), m)])
  {}

  /** What a call binds, whatever its arguments: each is evaluated as far as possible in the new context,
      which by then holds the formals before it. */
  function BoundArguments(S: seq<Scope>, p: nat, formals: seq<string>, actuals: seq<Expr>): (m: map<string, SymVal>)
    requires Chained(S) && p < |S| && |formals| == |actuals|
    ensures m.Keys == FormalMap(formals, actuals).Keys
  {
    if formals == [] then map[]
    else
      var n := |formals| - 1;
      var m := BoundArguments(S, p, formals[..n], actuals[..n]);
      NewChained(S, p, m);
      m[formals[n] := ExprToSymVal(Residual(S + [Scope(Some(p), m)], |S|, actuals[n]))]
  }

  /** Where a call is free of capture, every formal holds the residual of its argument in the caller. */
  lemma {:induction false} CleanArguments(S: seq<Scope>, p: nat, formals: seq<string>, labels: set<string>,
                                          actuals: seq<Expr>, chain: seq<Frame>, i: nat)
    requires Chained(S) && p < |S| && |formals| == |actuals| && i <= |formals|
    requires CleanCall(formals, labels, actuals, chain)
    ensures BoundArguments(S, p, formals[..i], actuals[..i]) == Arguments(S, p, FormalMap(formals[..i], actuals[..i]))
    decreases i
  {
    if i > 0 {
      hide CleanCall, FormalMap, Residual, Arguments;
      CleanArguments(S, p, formals, labels, actuals, chain, i - 1);
      BindOne(S, p, formals, labels, actuals, chain, i - 1);
      assert formals[..i][..i - 1] == formals[..i - 1] && actuals[..i][..i - 1] == actuals[..i - 1];
    } else {
      assert Arguments(S, p, FormalMap(formals[..0], actuals[..0])) == map[];
    }
  }

  // ----- the scopes while parsing -----

  /** Every context but the root is that of an application. */
  ghost predicate Made(info: seq<Info>) {
    InfoOk(info) && forall c :: 0 < c < |info| ==>
      |info[c].names| == |info[c].actuals| && info[c].formals == FormalMap(info[c].names, info[c].actuals)
  }

  /** The scopes of the contexts: every application's arguments are bound one after the other, each evaluated
      as far as possible with those before it bound, whatever they capture. */
  function ContextScopes(root: Scope, info: seq<Info>): (S: seq<Scope>)
    requires Made(info) && root.parent == None
    ensures |S| == |info| && Chained(S) && S[0] == root
  {
    var n := |info| - 1;
    if n == 0 then [root]
    else
      assert Made(info[..n]);
      var S := ContextScopes(root, info[..n]);
      NewChained(S, info[n].parent, BoundArguments(S, info[n].parent, info[n].names, info[n].actuals));
      S + [Scope(Some(info[n].parent), BoundArguments(S, info[n].parent, info[n].names, info[n].actuals))]
  }

  lemma ContextScopesAdded(root: Scope, info: seq<Info>, p: nat, names: seq<string>, actuals: seq<Expr>,
                           labels: set<string>)
    requires Made(info) && root.parent == None && p < |info| && |names| == |actuals|
    ensures var S := ContextScopes(root, info);
      && Made(info + [Applying(p, names, actuals, labels)])
      && ContextScopes(root, info + [Applying(p, names, actuals, labels)])
         == S + [Scope(Some(p), BoundArguments(S, p, names, actuals))]
  {
    hide FormalMap, BoundArguments;
    var more := info + [Applying(p, names, actuals, labels)];
    assert Made(more);
    assert more[..|info|] == info;
  }

  lemma MadeAdded(info: seq<Info>, p: nat, names: seq<string>, actuals: seq<Expr>, labels: set<string>)
    requires Made(info) && p < |info| && |names| == |actuals|
    ensures Made(info + [Applying(p, names, actuals, labels)])
  {}

  /** The contexts a list makes are those of applications. */
  lemma {:induction false} TraceMade(T: MnemonicTable, lists: seq<seq<Expr>>, rank: map<string, nat>, r: nat,
                                     stmts: seq<Stmt>, ctx: nat, info: seq<Info>)
    requires TableRanked(T, rank, |lists|) && Ranked(rank, r, |lists|, stmts) && Made(info) && ctx < |info|
    ensures Traced(T, lists, rank, r, stmts, ctx, |info|).Some? ==>
      Made(info + Traced(T, lists, rank, r, stmts, ctx, |info|).value.info)
    decreases r, |stmts|
  {
    hide TableRanked, Made, Later, Define, FormalMap, Labels;
    if stmts == [] {
      assert info + [] == info;
    } else {
      var rest, s := stmts[1..], stmts[0];
      assert StmtRanked(rank, r, |lists|, s);
      if s.MacroStmt? {
        DefineRanked(T, rank, |lists|, r, s);
        TraceMade(Define(T, s.name, s.formals, s.body), lists, rank, r, rest, ctx, info);
      } else if s.InstrStmt? && MacroOf(T, s.mnemonic).Some? {
        var m, key, actuals := MacroOf(T, s.mnemonic).value, Libc.Fold(s.mnemonic), lists[s.cell];
        CalledRanked(T, rank, r, |lists|, s);
        if Traced(T, lists, rank, r, stmts, ctx, |info|).Some? {
          var x := TracedCall(T, lists, rank, r, m, key, actuals, ctx, |info|);
          assert x.Some? && |actuals| == |m.formals|;
          var added := Applying(ctx, m.formals, actuals, Labels(m.body));
          MadeAdded(info, ctx, m.formals, actuals, Labels(m.body));
          TraceMade(T, lists, rank, rank[key], m.body, |info|, info + [added]);
          var body := Traced(T, lists, rank, rank[key], m.body, |info|, |info| + 1).value;
          var mid := info + ([added] + body.info);
          assert info + [added] + body.info == mid;
          TraceMade(T, lists, rank, r, rest, ctx, mid);
          var more := Traced(T, lists, rank, r, rest, ctx, |mid|).value;
          assert mid + more.info == info + (([added] + body.info) + more.info);
        }
      } else {
        TraceMade(T, lists, rank, r, rest, ctx, info);
        if s.LabelStmt? {
          SameInfo(Trace([], if Later(rest) then [Label(Tag(ctx, s.name))] else []),
                   Traced(T, lists, rank, r, rest, ctx, |info|));
        } else if s.OrgStmt? {
          SameInfo(Trace([], if Later(rest) then [Org(s.at)] else []), Traced(T, lists, rank, r, rest, ctx, |info|));
        } else {
          SameInfo(Trace([], [Instr(Use(ctx, s.mnemonic, s.cell))]), Traced(T, lists, rank, r, rest, ctx, |info|));
        }
      }
    }
  }

  /** A root without values. */
  ghost predicate Unbound(root: Scope) {
    root.parent == None && forall n :: n in root.syms ==> root.syms[n].UndefSym?
  }

  /** The label scopes are those of the contexts over the root. */
  ghost predicate Arranged(S: seq<Scope>, root: Scope, info: seq<Info>) {
    Made(info) && Unbound(root) && S == ContextScopes(root, info)
  }

  lemma ArrangedOk(S: seq<Scope>, root: Scope, info: seq<Info>)
    requires Arranged(S, root, info)
    ensures |S| == |info| && InfoOk(info) && Chained(S) && S[0] == root
  {}

  lemma ArrangedAdded(S: seq<Scope>, root: Scope, info: seq<Info>, p: nat, names: seq<string>, labels: set<string>,
                      actuals: seq<Expr>)
    requires Arranged(S, root, info) && p < |info| && |names| == |actuals|
    ensures Chained(S) && p < |S|
    ensures Arranged(S + [Scope(Some(p), BoundArguments(S, p, names, actuals))], root,
                     info + [Applying(p, names, actuals, labels)])
  {
    hide ContextScopes, BoundArguments;
    ContextScopesAdded(root, info, p, names, actuals, labels);
  }

  // ----- the new context is clean and properly built -----

  lemma {:induction false} ChainPrefix(info: seq<Info>, more: seq<Info>, c: nat)
    requires InfoOk(info) && InfoOk(more) && info <= more && c < |info|
    ensures Chain(more, c) == Chain(info, c)
    decreases c
  {
    assert more[c] == info[c];
    if c > 0 {
      ChainPrefix(info, more, info[c].parent);
    }
  }

  /** A clean call says of the map of its formals what cleanliness of its context needs. */
  lemma CleanCallMap(formals: seq<string>, labels: set<string>, actuals: seq<Expr>, chain: seq<Frame>, k: string,
                     n: string)
    requires |formals| == |actuals| && CleanCall(formals, labels, actuals, chain)
    requires k in FormalMap(formals, actuals) && n in Names(FormalMap(formals, actuals)[k])
    ensures n != "$" && n !in labels && (n in FormalMap(formals, actuals) ==> n == k) && !Hides(chain, n)
  {
    hide Hides, Names, FormalMap;
    FormalMapKeys(formals, actuals);
    var m := FormalMap(formals, actuals);
    var i :| 0 <= i < |formals| && formals[i] == k && m[k] == actuals[i];
    assert CleanArgument(formals, labels, i, actuals[i], chain);
    assert CleanName(formals, labels, i, n, chain);
    if n in m {
      var j :| 0 <= j < |formals| && formals[j] == n;
    }
  }

  lemma CleanAdded(info: seq<Info>, p: nat, formals: seq<string>, labels: set<string>, actuals: seq<Expr>)
    requires Clean(info) && p < |info| && |formals| == |actuals|
    requires CleanCall(formals, labels, actuals, Chain(info, p))
    ensures Clean(info + [Applying(p, formals, actuals, labels)])
  {
    hide Chain, Hides, CleanCall, Names, FormalMap;
    var added := Applying(p, formals, actuals, labels);
    var more := info + [added];
    assert InfoOk(more);
    ChainPrefix(info, more, p);
    assert more[|info|] == added;
    forall k, n | k in added.formals && n in Names(added.formals[k]) ensures CleanMention(more, |info|, k, n) {
      CleanCallMap(formals, labels, actuals, Chain(info, p), k, n);
    }
    forall c | 0 < c < |info| ensures CleanContext(more, c) {
      CleanStill(info, added, c);
    }
  }

  lemma CleanStill(info: seq<Info>, added: Info, c: nat)
    requires Clean(info) && 0 < c < |info| && added.parent < |info|
    ensures InfoOk(info + [added]) && CleanContext(info + [added], c)
  {
    hide Chain, Hides, Names;
    var more := info + [added];
    assert InfoOk(more);
    assert more[c] == info[c];
    ChainPrefix(info, more, info[c].parent);
    forall k, n | k in info[c].formals && n in Names(info[c].formals[k]) ensures CleanMention(more, c, k, n) {
      assert CleanContext(info, c);
      assert CleanMention(info, c, k, n);
    }
  }

  lemma {:induction false} ResidualPrefix(S: seq<Scope>, X: seq<Scope>, p: nat, e: Expr)
    requires Chained(S) && Chained(S + X) && p < |S|
    ensures ResidualFrom(S + X, p, e) == ResidualFrom(S, p, e)
    decreases e
  {
    match e
    case Number(_) =>
    case Name(n) =>
      FindAnyPrefix(S, X, p, n);
      var d := FindAny(S, p, n);
      if d.Some? {
        assert (S + X)[d.value] == S[d.value];
      }
    case Minus(l, r) =>
      ResidualPrefix(S, X, p, l);
      ResidualPrefix(S, X, p, r);
    case Plus(l, r) =>
      ResidualPrefix(S, X, p, l);
      ResidualPrefix(S, X, p, r);
  }

  lemma BuiltAdded(S: seq<Scope>, info: seq<Info>, added: Info)
    requires Built(S, info) && added.parent < |info|
    ensures var top := Scope(Some(added.parent), Arguments(S, added.parent, added.formals));
      Built(S + [top], info + [added])
  {
    hide FindAny;
    var p := added.parent;
    var top := Scope(Some(p), Arguments(S, p, added.formals));
    var S', more := S + [top], info + [added];
    assert InfoOk(more) && Chained(S');
    assert S'[0] == S[0];
    forall c | 0 < c < |S'| ensures BuiltContext(S', more, c) {
      assert c < |S| ==> BuiltContext(S, info, c) && S'[c] == S[c] && more[c] == info[c];
      forall n | n in S'[c].syms
        ensures n in more[c].formals
        ensures S'[c].syms[n] == ExprToSymVal(ResidualFrom(S', more[c].parent, more[c].formals[n]))
      {
        assert n in more[c].formals;
        ResidualPrefix(S, [top], more[c].parent, more[c].formals[n]);
      }
    }
  }

  // ----- programs free of capture -----

  /** Every application reached while expanding the statements within the frames of chain is free of capture. */
  ghost predicate Hygienic(T: MnemonicTable, lists: seq<seq<Expr>>, rank: map<string, nat>, r: nat, stmts: seq<Stmt>,
                           chain: seq<Frame>)
    requires TableRanked(T, rank, |lists|) && Ranked(rank, r, |lists|, stmts)
    decreases r, |stmts|
  {
    stmts == [] ||
    var rest := stmts[1..];
    assert StmtRanked(rank, r, |lists|, stmts[0]);
    match stmts[0]
    case MacroStmt(name, formals, body) =>
      Hygienic(Define(T, name, formals, body), lists, rank, r, rest, chain)
    case InstrStmt(mnemonic, cell) =>
      && Hygienic(T, lists, rank, r, rest, chain)
      && (MacroOf(T, mnemonic).Some? ==>
            HygienicCall(T, lists, rank, r, MacroOf(T, mnemonic).value, Libc.Fold(mnemonic), lists[cell], chain))
    case _ => Hygienic(T, lists, rank, r, rest, chain)
  }

  ghost predicate HygienicCall(T: MnemonicTable, lists: seq<seq<Expr>>, rank: map<string, nat>, r: nat, m: Mnemonic,
                               key: string, actuals: seq<Expr>, chain: seq<Frame>)
    requires TableRanked(T, rank, |lists|)
    requires m.Macro? && key in T && T[key] == MnemSym(m) && key in rank && rank[key] < r
    decreases r, 0
  {
    |actuals| == |m.formals| ==>
      && CleanCall(m.formals, Labels(m.body), actuals, chain)
      && Hygienic(T, lists, rank, rank[key], m.body,
                  chain + [Frame(FormalMap(m.formals, actuals).Keys, Labels(m.body))])
  }

  /** The contexts are clean, and their formals hold what is left of their arguments in the caller. */
  ghost predicate Sound(root: Scope, info: seq<Info>)
    requires root.parent == None
  {
    Made(info) && Clean(info) && Built(ContextScopes(root, info), info)
  }

  lemma SoundAdded(root: Scope, info: seq<Info>, p: nat, names: seq<string>, actuals: seq<Expr>, labels: set<string>)
    requires root.parent == None && Sound(root, info) && p < |info| && |names| == |actuals|
    requires CleanCall(names, labels, actuals, Chain(info, p))
    ensures Sound(root, info + [Applying(p, names, actuals, labels)])
  {
    assert InfoOk(info);
    hide Chain, CleanCall, FormalMap, Built, Clean, Arguments, BoundArguments, ContextScopes, Made;
    var S, added := ContextScopes(root, info), Applying(p, names, actuals, labels);
    ContextScopesAdded(root, info, p, names, actuals, labels);
    CleanAdded(info, p, names, labels, actuals);
    BuiltAdded(S, info, added);
    CleanArguments(S, p, names, labels, actuals, Chain(info, p), |names|);
    assert names[..|names|] == names && actuals[..|names|] == actuals;
  }

  lemma CallChain(info: seq<Info>, added: Info)
    requires InfoOk(info) && added.parent < |info|
    ensures InfoOk(info + [added])
    ensures Chain(info + [added], |info|) == Chain(info, added.parent) + [Frame(added.formals.Keys, added.labels)]
  {
    assert InfoOk(info + [added]);
    assert (info + [added])[|info|] == added;
    ChainPrefix(info, info + [added], added.parent);
  }

  /** Without capture, the contexts a list makes are sound. */
  lemma {:induction false} TraceSound(T: MnemonicTable, lists: seq<seq<Expr>>, rank: map<string, nat>, r: nat,
                                      stmts: seq<Stmt>, ctx: nat, info: seq<Info>, root: Scope)
    requires TableRanked(T, rank, |lists|) && Ranked(rank, r, |lists|, stmts)
    requires root.parent == None && Sound(root, info) && ctx < |info| && InfoOk(info)
    requires Hygienic(T, lists, rank, r, stmts, Chain(info, ctx))
    ensures Traced(T, lists, rank, r, stmts, ctx, |info|).Some? ==>
      Sound(root, info + Traced(T, lists, rank, r, stmts, ctx, |info|).value.info)
    decreases r, |stmts|, 1
  {
    hide TableRanked, Sound, Chain, Later, MacroOf, Define;
    if stmts == [] {
      assert info + [] == info;
    } else {
      var rest := stmts[1..];
      assert StmtRanked(rank, r, |lists|, stmts[0]);
      match stmts[0]
      case LabelStmt(_) =>
        TraceSound(T, lists, rank, r, rest, ctx, info, root);
        SameInfo(Trace([], if Later(rest) then [Label(Tag(ctx, stmts[0].name))] else []),
                 Traced(T, lists, rank, r, rest, ctx, |info|));
      case OrgStmt(at) =>
        TraceSound(T, lists, rank, r, rest, ctx, info, root);
        SameInfo(Trace([], if Later(rest) then [Org(at)] else []), Traced(T, lists, rank, r, rest, ctx, |info|));
      case MacroStmt(name, formals, body) =>
        DefineRanked(T, rank, |lists|, r, stmts[0]);
        TraceSound(Define(T, name, formals, body), lists, rank, r, rest, ctx, info, root);
      case InstrStmt(mnemonic, cell) =>
        if MacroOf(T, mnemonic).None? {
          TraceSound(T, lists, rank, r, rest, ctx, info, root);
          SameInfo(Trace([], [Instr(Use(ctx, mnemonic, cell))]), Traced(T, lists, rank, r, rest, ctx, |info|));
        } else {
          CallsSound(T, lists, rank, r, stmts, ctx, info, root);
        }
    }
  }

  lemma SameInfo(a: Trace, t: Option<Trace>)
    requires a.info == []
    ensures Then(a, t).Some? == t.Some? && (t.Some? ==> Then(a, t).value.info == t.value.info)
  {}

  lemma SoundOk(root: Scope, info: seq<Info>)
    requires root.parent == None && Sound(root, info)
    ensures InfoOk(info)
  {}

  /** An application and what follows it. */
  lemma CallsSound(T: MnemonicTable, lists: seq<seq<Expr>>, rank: map<string, nat>, r: nat, stmts: seq<Stmt>, ctx: nat,
                   info: seq<Info>, root: Scope)
    requires TableRanked(T, rank, |lists|) && Ranked(rank, r, |lists|, stmts) && stmts != []
    requires stmts[0].InstrStmt? && MacroOf(T, stmts[0].mnemonic).Some?
    requires root.parent == None && Sound(root, info) && ctx < |info| && InfoOk(info)
    requires Hygienic(T, lists, rank, r, stmts, Chain(info, ctx))
    ensures Traced(T, lists, rank, r, stmts, ctx, |info|).Some? ==>
      Sound(root, info + Traced(T, lists, rank, r, stmts, ctx, |info|).value.info)
    decreases r, |stmts|, 0
  {
    hide TableRanked, Sound, Chain, Later, FormalMap, Labels, CleanCall;
    var rest, s := stmts[1..], stmts[0];
    assert StmtRanked(rank, r, |lists|, s);
    var m, key, actuals := MacroOf(T, s.mnemonic).value, Libc.Fold(s.mnemonic), lists[s.cell];
    CalledRanked(T, rank, r, |lists|, s);
    assert HygienicCall(T, lists, rank, r, m, key, actuals, Chain(info, ctx));
    var x := TracedCall(T, lists, rank, r, m, key, actuals, ctx, |info|);
    assert Traced(T, lists, rank, r, stmts, ctx, |info|) ==
             match x case None => None
                     case Some(t) => Then(t, Traced(T, lists, rank, r, rest, ctx, |info| + |t.info|));
    if Traced(T, lists, rank, r, stmts, ctx, |info|).Some? {
      assert x.Some? && |actuals| == |m.formals|;
      var added := Applying(ctx, m.formals, actuals, Labels(m.body));
      SoundAdded(root, info, ctx, m.formals, actuals, Labels(m.body));
      CallChain(info, added);
      TraceSound(T, lists, rank, rank[key], m.body, |info|, info + [added], root);
      var body := Traced(T, lists, rank, rank[key], m.body, |info|, |info| + 1).value;
      var mid := info + ([added] + body.info);
      assert info + [added] + body.info == mid;
      SoundOk(root, mid);
      ChainPrefix(info, mid, ctx);
      TraceSound(T, lists, rank, r, rest, ctx, mid, root);
      var more := Traced(T, lists, rank, r, rest, ctx, |mid|).value;
      assert mid + more.info == info + (([added] + body.info) + more.info);
    }
  }

  // ----- mnemonics -----

  /** Mnemonics live in the root only, from where every context reaches them. */
  ghost predicate MnemonicsAtRoot(M: seq<Scope>, T: MnemonicTable) {
    && |M| > 0 && Chained(M) && M[0] == Scope(None, T)
    && forall c :: 0 < c < |M| ==> M[c].parent.Some? && M[c].syms == map[]
  }

  lemma {:induction false} RootMnemonic(M: seq<Scope>, T: MnemonicTable, c: nat, key: string)
    requires MnemonicsAtRoot(M, T) && c < |M|
    ensures FindAny(M, c, key) == if key in T then Some(0) else None
    decreases c
  {
    if c > 0 {
      RootMnemonic(M, T, M[c].parent.value, key);
    }
  }
}
