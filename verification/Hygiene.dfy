/** When evaluating in a chain of symbol contexts agrees with evaluating the substituted text. */
module Hygiene {
  import opened Words
  import opened Wrappers
  import opened Ast
  import opened Scopes
  import opened Macros
  import opened Records
  import opened Evaluation

  /** What is known of the context of an application: the context it was made in, what stands for each formal,
      the labels of the macro's body, and the formals and the actual arguments as written. Context 0 is the
      root. */
  datatype Info = Info(parent: nat, formals: map<string, Expr>, labels: set<string>, names: seq<string>,
                       actuals: seq<Expr>)

  function Applying(parent: nat, names: seq<string>, actuals: seq<Expr>, labels: set<string>): Info
    requires |names| == |actuals|
  {
    Info(parent, FormalMap(names, actuals), labels, names, actuals)
  }

  ghost predicate InfoOk(info: seq<Info>) {
    |info| > 0 && forall c :: 0 < c < |info| ==> info[c].parent < c
  }

  // ----- the conditions on macro calls -----

  /** The names a context binds, as formals and as labels. */
  datatype Frame = Frame(formals: set<string>, labels: set<string>)

  ghost predicate FormalAbove(chain: seq<Frame>, n: string) {
    exists i :: 0 <= i < |chain| && n in chain[i].formals
  }

  /** The nearest binding of n is a label that hides a formal of its own or of an enclosing application. */
  ghost predicate Hides(chain: seq<Frame>, n: string) {
    chain != [] &&
    var f, outer := chain[|chain| - 1], chain[..|chain| - 1];
    if n in f.labels then n in f.formals || FormalAbove(outer, n)
    else if n in f.formals then false
    else Hides(outer, n)
  }

  /** An argument e of formal number i mentions no `$`, no local label, no formal but its own, and no label
      of the calling text that hides a formal. */
  ghost predicate CleanArgument(formals: seq<string>, labels: set<string>, i: nat, e: Expr, chain: seq<Frame>) {
    forall n :: n in Names(e) ==> CleanName(formals, labels, i, n, chain)
  }

  ghost predicate CleanName(formals: seq<string>, labels: set<string>, i: nat, n: string, chain: seq<Frame>) {
    n != "$" && n !in labels && !Hides(chain, n) && forall j :: 0 <= j < |formals| && j != i ==> formals[j] != n
  }

  /** A call made within the frames of chain is free of capture. */
  ghost predicate CleanCall(formals: seq<string>, labels: set<string>, actuals: seq<Expr>, chain: seq<Frame>)
    requires |formals| == |actuals|
  {
    forall i :: 0 <= i < |actuals| ==> CleanArgument(formals, labels, i, actuals[i], chain)
  }

  function Chain(info: seq<Info>, c: nat): seq<Frame>
    requires InfoOk(info) && c < |info|
    decreases c
  {
    var f := Frame(info[c].formals.Keys, info[c].labels);
    if c == 0 then [f] else Chain(info, info[c].parent) + [f]
  }

  /** The same for a context that has been made. */
  ghost predicate CleanContext(info: seq<Info>, c: nat)
    requires InfoOk(info) && 0 < c < |info|
  {
    forall k, n :: k in info[c].formals && n in Names(info[c].formals[k]) ==> CleanMention(info, c, k, n)
  }

  ghost predicate CleanMention(info: seq<Info>, c: nat, k: string, n: string)
    requires InfoOk(info) && 0 < c < |info|
  {
    && n != "$" && n !in info[c].labels && (n in info[c].formals ==> n == k)
    && !Hides(Chain(info, info[c].parent), n)
  }

  ghost predicate Clean(info: seq<Info>) {
    InfoOk(info) && info[0].formals == map[]
    && forall c :: 0 < c < |info| ==> CleanContext(info, c)
  }

  // ----- the meaning of expanded programs -----

  function Lookup(env: map<Ident, Word>, id: Ident): Option<Word> {
    if id in env then Some(env[id]) else None
  }

  /** The value of an expanded expression at an address. */
  function DenFlat(env: map<Ident, Word>, at: Word, e: FlatExpr): Option<Word> {
    match e
    case FNumber(v) => Some(v)
    case FName(id) => if id == User("$") then Some(at) else Lookup(env, id)
    case FMinus(l, r) => Combine(true, DenFlat(env, at, l), DenFlat(env, at, r))
    case FPlus(l, r) => Combine(false, DenFlat(env, at, l), DenFlat(env, at, r))
  }

  /** e, used in context c, after the substitutions of the applications from c out to base. */
  function Outward(info: seq<Info>, base: nat, c: nat, e: FlatExpr): FlatExpr
    requires InfoOk(info) && c < |info|
    decreases c
  {
    if c <= base then e
    else Outward(info, base, info[c].parent, Subst(c, info[c].formals, info[c].labels, e))
  }

  lemma {:induction false} OutwardSplits(info: seq<Info>, base: nat, c: nat, e: FlatExpr)
    requires InfoOk(info) && c < |info|
    ensures e.FNumber? || (e.FName? && e.id.Local?) ==> Outward(info, base, c, e) == e
    ensures e.FMinus? ==>
      Outward(info, base, c, e) == FMinus(Outward(info, base, c, e.left), Outward(info, base, c, e.right))
    ensures e.FPlus? ==>
      Outward(info, base, c, e) == FPlus(Outward(info, base, c, e.left), Outward(info, base, c, e.right))
    decreases c
  {
    if c > base {
      OutwardSplits(info, base, info[c].parent, Subst(c, info[c].formals, info[c].labels, e));
    }
  }

  /** What cleanliness says of one argument. */
  lemma CleanFormal(info: seq<Info>, c: nat, k: string)
    requires Clean(info) && 0 < c < |info| && k in info[c].formals
    ensures forall n :: n in Names(info[c].formals[k]) ==>
      && n != "$" && n !in info[c].labels && (n in info[c].formals ==> n == k)
      && !Hides(Chain(info, info[c].parent), n)
  {
    hide Hides, Chain;
    assert CleanContext(info, c);
    forall n | n in Names(info[c].formals[k])
      ensures n != "$" && n !in info[c].labels && (n in info[c].formals ==> n == k)
              && !Hides(Chain(info, info[c].parent), n)
    {
      assert CleanMention(info, c, k, n);
    }
  }

  /** The meaning of e in context c read off the contexts directly. */
  function DenIn(info: seq<Info>, env: map<Ident, Word>, at: Word, c: nat, e: Expr): Option<Word>
    requires InfoOk(info) && c < |info|
    decreases c, e
  {
    match e
    case Number(v) => Some(v)
    case Minus(l, r) => Combine(true, DenIn(info, env, at, c, l), DenIn(info, env, at, c, r))
    case Plus(l, r) => Combine(false, DenIn(info, env, at, c, l), DenIn(info, env, at, c, r))
    case Name(n) =>
      if n == "$" then Some(at)
      else if c == 0 then Lookup(env, User(n))
      else if n in info[c].labels then Lookup(env, Local(c, n))
      else if n in info[c].formals then DenIn(info, env, at, info[c].parent, info[c].formals[n])
      else DenIn(info, env, at, info[c].parent, e)
  }

  /** Substituting outwards and then evaluating is evaluating in the contexts. */
  lemma {:induction false} SubstitutionMeans(info: seq<Info>, env: map<Ident, Word>, at: Word, c: nat, e: Expr)
    requires Clean(info) && c < |info|
    ensures DenFlat(env, at, Outward(info, 0, c, Lift(e))) == DenIn(info, env, at, c, e)
    decreases c, e
  {
    OutwardSplits(info, 0, c, Lift(e));
    match e
    case Number(_) =>
    case Minus(l, r) =>
      SubstitutionMeans(info, env, at, c, l);
      SubstitutionMeans(info, env, at, c, r);
    case Plus(l, r) =>
      SubstitutionMeans(info, env, at, c, l);
      SubstitutionMeans(info, env, at, c, r);
    case Name(n) =>
      if c > 0 {
        assert CleanContext(info, c);
        var p := info[c].parent;
        if n == "$" {
          SubstitutionMeans(info, env, at, p, e);
        } else if n in info[c].labels {
          OutwardSplits(info, 0, p, FName(Local(c, n)));
        } else if n in info[c].formals {
          SubstitutionMeans(info, env, at, p, info[c].formals[n]);
        } else {
          SubstitutionMeans(info, env, at, p, e);
        }
      }
  }

  // ----- the contexts as built, and as bound -----

  /** Like `Residual`, but with names looked up from p outwards in the ordinary way. */
  function ResidualFrom(S: seq<Scope>, p: nat, e: Expr): Expr
    requires Chained(S) && p < |S|
  {
    match e
    case Number(_) => e
    case Name(n) =>
      var d := FindAny(S, p, n);
      if d.Some? && S[d.value].syms[n].WordSym? then Number(S[d.value].syms[n].word) else e
    case Minus(l, r) => FoldSum(true, ResidualFrom(S, p, l), ResidualFrom(S, p, r))
    case Plus(l, r) => FoldSum(false, ResidualFrom(S, p, l), ResidualFrom(S, p, r))
  }

  /** The scopes after parsing: every formal holds what partial evaluation left of its argument, and the
      root has no values yet. */
  ghost predicate Built(S: seq<Scope>, info: seq<Info>) {
    && InfoOk(info) && |S| == |info| && Chained(S)
    && S[0].parent == None
    && (forall n :: n in S[0].syms ==> !S[0].syms[n].WordSym? && !S[0].syms[n].AstSym?)
    && forall c :: 0 < c < |S| ==> BuiltContext(S, info, c)
  }

  ghost predicate BuiltContext(S: seq<Scope>, info: seq<Info>, c: nat)
    requires InfoOk(info) && |S| == |info| && Chained(S) && 0 < c < |S|
  {
    && S[c].parent == Some(info[c].parent)
    && S[c].syms.Keys == info[c].formals.Keys
    && forall n :: n in S[c].syms ==> S[c].syms[n] == ExprToSymVal(ResidualFrom(S, info[c].parent, info[c].formals[n]))
  }

  /** The name of a label in the expanded program. */
  function Absolute(c: nat, n: string): Ident {
    if c == 0 then User(n) else Local(c, n)
  }

  /** env binds exactly the labels of the contexts. */
  ghost predicate BindsLabels(info: seq<Info>, env: map<Ident, Word>) {
    && (forall c, n :: 0 <= c < |info| ==> (n in info[c].labels <==> Absolute(c, n) in env))
  }

  /** T is S with the labels bound as in env. */
  ghost predicate LabelsBound(S: seq<Scope>, T: seq<Scope>, info: seq<Info>, env: map<Ident, Word>)
    requires |S| == |info|
  {
    && |T| == |S|
    && forall c :: 0 <= c < |S| ==>
      && T[c].parent == S[c].parent
      && (forall n :: n in T[c].syms <==> n in S[c].syms || n in info[c].labels)
      && forall n :: n in T[c].syms ==>
        if n in info[c].labels then Absolute(c, n) in env && T[c].syms[n] == WordSym(env[Absolute(c, n)])
        else T[c].syms[n] == S[c].syms[n]
  }

  /** A word found while parsing for a name that no label hides is what the name means in the end. */
  lemma {:induction false} EarlyWord(S: seq<Scope>, info: seq<Info>, env: map<Ident, Word>, at: Word, p: nat, n: string)
    requires Built(S, info) && Clean(info) && p < |S| && n != "$" && !Hides(Chain(info, p), n)
    requires FindAny(S, p, n).Some? && S[FindAny(S, p, n).value].syms[n].WordSym?
    ensures DenIn(info, env, at, p, Name(n)) == Some(S[FindAny(S, p, n).value].syms[n].word)
    decreases p, 1, Name(n)
  {
    if p > 0 {
      var q := info[p].parent;
      assert CleanContext(info, p) && BuiltContext(S, info, p);
      ChainEnds(info, p);
      if n in info[p].labels {
        FoundFormal(S, info, p, n);
        assert false;
      } else if n in info[p].formals {
        CleanFormal(info, p, n);
        ResidualMeans(S, info, env, at, q, info[p].formals[n]);
      } else {
        EarlyWord(S, info, env, at, q, n);
      }
    }
  }

  lemma ChainEnds(info: seq<Info>, p: nat)
    requires InfoOk(info) && 0 < p < |info|
    ensures var ch := Chain(info, p);
      && |ch| > 0 && ch[|ch| - 1] == Frame(info[p].formals.Keys, info[p].labels)
      && ch[..|ch| - 1] == Chain(info, info[p].parent)
  {}

  /** Whatever has a word while parsing is a formal. */
  lemma {:induction false} FoundFormal(S: seq<Scope>, info: seq<Info>, p: nat, n: string)
    requires Built(S, info) && p < |S|
    requires FindAny(S, p, n).Some? && S[FindAny(S, p, n).value].syms[n].WordSym?
    ensures FormalAbove(Chain(info, p), n)
    decreases p
  {
    if p > 0 {
      assert BuiltContext(S, info, p);
      ChainEnds(info, p);
      var ch := Chain(info, p);
      if n in info[p].formals {
        assert n in ch[|ch| - 1].formals;
      } else {
        FoundFormal(S, info, info[p].parent, n);
        var i :| 0 <= i < |ch| - 1 && n in ch[..|ch| - 1][i].formals;
        assert n in ch[i].formals;
      }
    }
  }

  /** Partial evaluation of an argument keeps its meaning. */
  lemma {:induction false} ResidualMeans(S: seq<Scope>, info: seq<Info>, env: map<Ident, Word>, at: Word, p: nat,
                                         e: Expr)
    requires Built(S, info) && Clean(info) && p < |S|
    requires forall n :: n in Names(e) ==> n != "$" && !Hides(Chain(info, p), n)
    ensures DenIn(info, env, at, p, ResidualFrom(S, p, e)) == DenIn(info, env, at, p, e)
    ensures Names(ResidualFrom(S, p, e)) <= Names(e)
    decreases p, 2, e
  {
    match e
    case Number(_) =>
    case Name(n) =>
      assert n in Names(e);
      var d := FindAny(S, p, n);
      if d.Some? && S[d.value].syms[n].WordSym? {
        EarlyWord(S, info, env, at, p, n);
      }
    case Minus(l, r) =>
      assert Names(l) <= Names(e) && Names(r) <= Names(e);
      ResidualMeans(S, info, env, at, p, l);
      ResidualMeans(S, info, env, at, p, r);
    case Plus(l, r) =>
      assert Names(l) <= Names(e) && Names(r) <= Names(e);
      ResidualMeans(S, info, env, at, p, l);
      ResidualMeans(S, info, env, at, p, r);
  }

  // ----- evaluation in the bound contexts -----

  /** The meaning of e with every name looked up from c outwards, `$` apart. */
  function DenFrom(T: seq<Scope>, at: Word, c: nat, e: Expr): Option<Word>
    requires Chained(T) && c < |T|
  {
    match e
    case Number(v) => Some(v)
    case Minus(l, r) => Combine(true, DenFrom(T, at, c, l), DenFrom(T, at, c, r))
    case Plus(l, r) => Combine(false, DenFrom(T, at, c, l), DenFrom(T, at, c, r))
    case Name(n) =>
      if n == "$" then Some(at)
      else
        var d := FindAny(T, c, n);
        if d.None? then None
        else match T[d.value].syms[n]
          case WordSym(w) => Some(w)
          case AstSym(a) => Den(T, d.value, a)
          case _ => None
  }

  /** The assembler's own context adds `$` and nothing else. */
  lemma {:induction false} DenAtIsDenFrom(T: seq<Scope>, at: Word, c: nat, e: Expr)
    requires Chained(T) && c < |T|
    ensures DenAt(T, c, at, e) == DenFrom(T, at, c, e)
    decreases e
  {
    var top := Top(c, at);
    TopChained(T, top);
    match e
    case Number(_) =>
    case Minus(l, r) =>
      DenAtIsDenFrom(T, at, c, l);
      DenAtIsDenFrom(T, at, c, r);
    case Plus(l, r) =>
      DenAtIsDenFrom(T, at, c, l);
      DenAtIsDenFrom(T, at, c, r);
    case Name(n) =>
      assert (T + [top])[|T|] == top;
      if n != "$" {
        FindAnyPrefix(T, [top], c, n);
        var d := FindAny(T, c, n);
        if d.Some? {
          assert (T + [top])[d.value] == T[d.value];
          if T[d.value].syms[n].AstSym? {
            DenPrefix(T, [top], d.value, T[d.value].syms[n].expr);
          }
        }
      }
  }

  /** An argument kept in context d means what it means from d's parent on. */
  lemma {:induction false} ArgumentFromParent(T: seq<Scope>, at: Word, d: nat, e: Expr)
    requires Chained(T) && d < |T| && T[d].parent.Some?
    requires forall n :: n in Names(e) ==> n != "$" && !(n in T[d].syms && T[d].syms[n].WordSym?)
    ensures Den(T, d, e) == DenFrom(T, at, T[d].parent.value, e)
    decreases e
  {
    match e
    case Number(_) =>
    case Name(n) => assert n in Names(e);
    case Minus(l, r) =>
      assert Names(l) <= Names(e) && Names(r) <= Names(e);
      ArgumentFromParent(T, at, d, l);
      ArgumentFromParent(T, at, d, r);
    case Plus(l, r) =>
      assert Names(l) <= Names(e) && Names(r) <= Names(e);
      ArgumentFromParent(T, at, d, l);
      ArgumentFromParent(T, at, d, r);
  }

  /** Evaluating in the contexts, labels bound, is evaluating in the program as written. */
  lemma {:induction false} ContextsMean(S: seq<Scope>, T: seq<Scope>, info: seq<Info>, env: map<Ident, Word>, at: Word,
                                        c: nat, e: Expr)
    requires Built(S, info) && Clean(info) && BindsLabels(info, env) && LabelsBound(S, T, info, env) && c < |S|
    requires Chained(T)
    ensures DenFrom(T, at, c, e) == DenIn(info, env, at, c, e)
    decreases c, e
  {
    match e
    case Number(_) =>
    case Minus(l, r) =>
      ContextsMean(S, T, info, env, at, c, l);
      ContextsMean(S, T, info, env, at, c, r);
    case Plus(l, r) =>
      ContextsMean(S, T, info, env, at, c, l);
      ContextsMean(S, T, info, env, at, c, r);
    case Name(n) =>
      if n != "$" {
        if c == 0 {
          assert n in info[0].labels <==> Absolute(0, n) in env;
        } else {
          var p := info[c].parent;
          assert CleanContext(info, c) && BuiltContext(S, info, c);
          if n in info[c].labels {
            assert Absolute(c, n) in env;
          } else if n in info[c].formals {
            FormalMeans(S, T, info, env, at, c, n);
          } else {
            ContextsMean(S, T, info, env, at, p, e);
          }
        }
      }
  }

  lemma FormalMeans(S: seq<Scope>, T: seq<Scope>, info: seq<Info>, env: map<Ident, Word>, at: Word, c: nat, n: string)
    requires Built(S, info) && Clean(info) && BindsLabels(info, env) && LabelsBound(S, T, info, env) && 0 < c < |S|
    requires Chained(T) && n in info[c].formals && n !in info[c].labels && n != "$"
    ensures DenFrom(T, at, c, Name(n)) == DenIn(info, env, at, info[c].parent, info[c].formals[n])
    decreases c, Name(n), 0
  {
    var p := info[c].parent;
    var a := info[c].formals[n];
    var r := ResidualFrom(S, p, a);
    assert BuiltContext(S, info, c);
    CleanFormal(info, c, n);
    ResidualMeans(S, info, env, at, p, a);
    assert T[c].syms[n] == ExprToSymVal(r);
    if !r.Number? {
      forall m | m in Names(r) ensures m != "$" && !(m in T[c].syms && T[c].syms[m].WordSym?) {
        assert m in Names(a);
      }
      ArgumentFromParent(T, at, c, r);
      ContextsMean(S, T, info, env, at, p, r);
    }
  }

  /** In the bound contexts no argument mentions another formal. */
  lemma BoundNoCapture(S: seq<Scope>, T: seq<Scope>, info: seq<Info>, env: map<Ident, Word>)
    requires Built(S, info) && Clean(info) && LabelsBound(S, T, info, env)
    ensures NoCapture(T) && Chained(T) && Harmless(T)
  {
    hide Harmless, FindAny;
    assert Chained(T);
    forall c: nat, k, n | Mentions(T, c, k, n) ensures !(n in T[c].syms && T[c].syms[n].AstSym?) {
      if c > 0 {
        assert BuiltContext(S, info, c);
        CleanFormal(info, c, k);
        ResidualMeans(S, info, map[], 0, info[c].parent, info[c].formals[k]);
      }
    }
    NoCaptureHarmless(T);
  }

  /** What an operand means in the assembled program is what its substituted form means. */
  lemma OperandMeans(S: seq<Scope>, T: seq<Scope>, info: seq<Info>, env: map<Ident, Word>, at: Word, c: nat, e: Expr)
    requires Built(S, info) && Clean(info) && BindsLabels(info, env) && LabelsBound(S, T, info, env) && c < |S|
    requires Chained(T)
    ensures DenAt(T, c, at, e) == DenFlat(env, at, Outward(info, 0, c, Lift(e)))
  {
    DenAtIsDenFrom(T, at, c, e);
    ContextsMean(S, T, info, env, at, c, e);
    SubstitutionMeans(info, env, at, c, e);
  }
}
