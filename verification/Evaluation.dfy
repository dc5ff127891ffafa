/** What full evaluation computes (eval_expr of bas.c without partial results): the tree it leaves, and the
    scopes, in which expressions have been overwritten in the order of evaluation. */
module Evaluation {
  import opened Words
  import opened Wrappers
  import opened Ast
  import opened Scopes

  /** The scopes and the tree afterwards; a number if the evaluation succeeded. */
  datatype Evaluated = Evaluated(scopes: seq<Scope>, tree: Expr) {
    function Value(): Option<Word> {
      if tree.Number? then Some(tree.value) else None
    }
  }

  /** `expr_to_symval`. */
  function ExprToSymVal(e: Expr): SymVal {
    if e.Number? then WordSym(e.value) else AstSym(e)
  }

  /** S with the tree of symbol n of scope c overwritten; a number is its word. */
  function RecordTree(S: seq<Scope>, c: nat, n: string, e: Expr): seq<Scope>
    requires c < |S|
  {
    S[c := S[c].(syms := S[c].syms[n := ExprToSymVal(e)])]
  }

  /** A symbol that holds an expression is evaluated where it was found, and its tree is overwritten, and
      becomes a word if that succeeds. The operands of a sum are both evaluated, the left one first. */
  function Evaluate(S: seq<Scope>, c: nat, e: Expr): (o: Evaluated)
    requires Chained(S) && c < |S|
    ensures |o.scopes| == |S| && Chained(o.scopes)
    decreases c, e
  {
    match e
    case Number(_) => Evaluated(S, e)
    case Minus(l, r) =>
      var a := Evaluate(S, c, l);
      var b := Evaluate(a.scopes, c, r);
      Evaluated(b.scopes, FoldSum(true, a.tree, b.tree))
    case Plus(l, r) =>
      var a := Evaluate(S, c, l);
      var b := Evaluate(a.scopes, c, r);
      Evaluated(b.scopes, FoldSum(false, a.tree, b.tree))
    case Name(n) =>
      match Find(S, c, n)
      case None => Evaluated(S, e)
      case Some(d) =>
        match S[d].syms[n]
        case WordSym(w) => Evaluated(S, Number(w))
        case AstSym(a) =>
          var o := Evaluate(S, d, a);
          Evaluated(RecordTree(o.scopes, d, n, o.tree), if o.tree.Number? then o.tree else e)
        case _ => Evaluated(S, e)
  }

  // ----- what evaluation leaves alone -----

  /** Scopes, names and words stay; only expressions may have been overwritten. */
  ghost predicate Rewritten(S: seq<Scope>, T: seq<Scope>) {
    && |S| == |T|
    && (forall c :: 0 <= c < |S| ==> T[c].parent == S[c].parent && T[c].syms.Keys == S[c].syms.Keys)
    && forall c, k :: 0 <= c < |S| && k in S[c].syms ==>
      && k in T[c].syms
      && (T[c].syms[k] == S[c].syms[k]
          || (S[c].syms[k].AstSym? && (T[c].syms[k].WordSym? || T[c].syms[k].AstSym?)))
  }

  lemma RewrittenCompose(S: seq<Scope>, T: seq<Scope>, U: seq<Scope>)
    requires Rewritten(S, T) && Rewritten(T, U)
    ensures Rewritten(S, U)
  {
    forall c, k | 0 <= c < |S| && k in S[c].syms
      ensures k in U[c].syms
      ensures U[c].syms[k] == S[c].syms[k] || (S[c].syms[k].AstSym? && (U[c].syms[k].WordSym? || U[c].syms[k].AstSym?))
    {
      assert k in T[c].syms;
    }
  }

  lemma RewrittenNothing(S: seq<Scope>)
    ensures Rewritten(S, S)
  {}

  /** Only strict ancestors of c may differ. */
  ghost predicate SameFrom(S: seq<Scope>, T: seq<Scope>, c: nat) {
    |S| == |T| && forall d :: c <= d < |S| ==> T[d] == S[d]
  }

  /** Evaluation overwrites expressions only, and only in strict ancestors of c. */
  lemma {:induction false} EvaluateRewrites(S: seq<Scope>, c: nat, e: Expr)
    requires Chained(S) && c < |S|
    ensures Rewritten(S, Evaluate(S, c, e).scopes) && SameFrom(S, Evaluate(S, c, e).scopes, c)
    decreases c, e, 1
  {
    hide Rewritten;
    match e
    case Number(_) => RewrittenNothing(S);
    case Minus(_, _) => BothRewrite(S, c, e);
    case Plus(_, _) => BothRewrite(S, c, e);
    case Name(n) =>
      RewrittenNothing(S);
      var d := Find(S, c, n);
      if d.Some? && S[d.value].syms[n].AstSym? {
        var o := Evaluate(S, d.value, S[d.value].syms[n].expr);
        EvaluateRewrites(S, d.value, S[d.value].syms[n].expr);
        RewrittenStep(S, o.scopes, d.value, n, o.tree);
      }
  }

  lemma BothRewrite(S: seq<Scope>, c: nat, e: Expr)
    requires Chained(S) && c < |S| && (e.Minus? || e.Plus?)
    ensures var T := Evaluate(Evaluate(S, c, e.left).scopes, c, e.right).scopes; Rewritten(S, T) && SameFrom(S, T, c)
    decreases c, e, 0
  {
    hide Rewritten, Evaluate;
    var a := Evaluate(S, c, e.left);
    EvaluateRewrites(S, c, e.left);
    EvaluateRewrites(a.scopes, c, e.right);
    RewrittenCompose(S, a.scopes, Evaluate(a.scopes, c, e.right).scopes);
  }

  lemma RewrittenStep(S: seq<Scope>, T: seq<Scope>, d: nat, n: string, e: Expr)
    requires Rewritten(S, T) && SameFrom(S, T, d) && d < |S| && n in S[d].syms && S[d].syms[n].AstSym?
    ensures Rewritten(S, RecordTree(T, d, n, e)) && SameFrom(S, RecordTree(T, d, n, e), d + 1)
  {
    var U := RecordTree(T, d, n, e);
    assert T[d] == S[d];
    forall c | 0 <= c < |S| ensures U[c].parent == S[c].parent && U[c].syms.Keys == S[c].syms.Keys {
      assert T[c].syms.Keys == S[c].syms.Keys;
    }
  }

  // ----- where recording is harmless -----

  /** The value is what the expression means; and if it has one, what has been overwritten are expressions by
      their words. */
  ghost predicate Means(S: seq<Scope>, c: nat, e: Expr, o: Evaluated)
    requires Chained(S) && c < |S|
  {
    && o.Value() == Den(S, c, e)
    && (o.tree.Number? ==> Memo(S, o.scopes) && Chained(o.scopes) && Harmless(o.scopes))
  }

  lemma MemoNothing(S: seq<Scope>)
    requires Chained(S)
    ensures Memo(S, S)
  {}

  /** Where arguments are harmless, evaluation computes meanings. */
  lemma {:induction false} EvaluateMeans(S: seq<Scope>, c: nat, e: Expr)
    requires Chained(S) && Harmless(S) && c < |S|
    ensures Means(S, c, e, Evaluate(S, c, e))
    decreases c, e, 1
  {
    hide Memo, Harmless;
    match e
    case Number(_) => MemoNothing(S);
    case Minus(_, _) => BothMean(S, c, e);
    case Plus(_, _) => BothMean(S, c, e);
    case Name(n) =>
      MemoNothing(S);
      var d := Find(S, c, n);
      if d.Some? && S[d.value].syms[n].AstSym? {
        var o := Evaluate(S, d.value, S[d.value].syms[n].expr);
        EvaluateMeans(S, d.value, S[d.value].syms[n].expr);
        EvaluateRewrites(S, d.value, S[d.value].syms[n].expr);
        if o.tree.Number? {
          MemoStep(S, o.scopes, d.value, n, o.tree.value);
        }
      }
  }

  lemma BothMean(S: seq<Scope>, c: nat, e: Expr)
    requires Chained(S) && Harmless(S) && c < |S| && (e.Minus? || e.Plus?)
    ensures var a := Evaluate(S, c, e.left); var b := Evaluate(a.scopes, c, e.right);
      a.Value() == Den(S, c, e.left) && (a.tree.Number? ==> Means(S, c, e.right, b))
    decreases c, e, 0
  {
    hide Memo, Harmless, Evaluate;
    var a := Evaluate(S, c, e.left);
    EvaluateMeans(S, c, e.left);
    EvaluateRewrites(S, c, e.left);
    if a.tree.Number? {
      EvaluateMeans(a.scopes, c, e.right);
      SequentialEval(S, a.scopes, c, e.right, Evaluate(a.scopes, c, e.right));
    }
  }

  /** Evaluating the left operand does not disturb the right one. */
  lemma SequentialEval(S: seq<Scope>, T: seq<Scope>, c: nat, e: Expr, o: Evaluated)
    requires Chained(S) && Harmless(S) && Chained(T) && c < |S|
    requires Memo(S, T) && SameFrom(S, T, c) && Means(T, c, e, o)
    ensures Means(S, c, e, o)
  {
    hide Harmless;
    assert Undisturbed(S, T, c, e) by { assert T[c] == S[c]; }
    MemoTransparent(S, T, c, e);
    if o.tree.Number? {
      MemoCompose(S, T, o.scopes);
    }
  }

  /** Recording the word of an expression symbol keeps every meaning. */
  lemma MemoStep(S: seq<Scope>, T: seq<Scope>, d: nat, n: string, v: Word)
    requires Chained(S) && Harmless(S) && Chained(T) && d < |S|
    requires Memo(S, T) && SameFrom(S, T, d)
    requires n in S[d].syms && S[d].syms[n].AstSym? && Den(S, d, S[d].syms[n].expr) == Some(v)
    ensures var U := RecordWord(T, d, n, v); Memo(S, U) && Chained(U) && Harmless(U)
  {
    hide Harmless;
    var U := RecordWord(T, d, n, v);
    assert T[d] == S[d];
    forall c | 0 <= c < |S| ensures U[c].parent == S[c].parent && U[c].syms.Keys == S[c].syms.Keys {
      assert T[c].syms.Keys == S[c].syms.Keys;
    }
    forall c, k | 0 <= c < |S| && k in S[c].syms ensures k in U[c].syms && Memoised(S, U, c, k) {
      assert k in U[c].syms by { assert U[c].syms.Keys == S[c].syms.Keys; }
      assert Memoised(S, T, c, k);
    }
    HarmlessKept(S, U);
  }
}
