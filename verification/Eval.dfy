/** The expression evaluator of the assembler (bas.c, eval_expr). */
module Eval {
  import opened Words
  import opened Wrappers
  import opened Ast
  import opened Scopes
  import opened Evaluation
  import opened Symbols

  datatype EvalResult = EvalOk | EvalPartial | EvalError

  /** The contract of `eval_expr` over the label scopes before and after: with partial results allowed, the
      tree becomes its residual and the scopes are untouched; otherwise tree and scopes become what Evaluate
      computes, and the call succeeds exactly when the tree becomes a number. */
  ghost predicate EvalPost(S: seq<Scope>, T: seq<Scope>, c: nat, e: Expr, partial: bool, rc: EvalResult, r: Expr)
    requires Chained(S) && c < |S|
  {
    if partial then T == S && r == Residual(S, c, e) && rc == (if r.Number? then EvalOk else EvalPartial)
    else Evaluated(T, r) == Evaluate(S, c, e) && rc == (if r.Number? then EvalOk else EvalError)
  }

  /** `eval_expr`: the tree is returned as the call leaves it. It ends on every chain of contexts. */
  method EvalExpr(syms: SymbolStore, c: nat, e: Expr, partial: bool) returns (rc: EvalResult, r: Expr)
    requires syms.Valid() && c < |syms.contexts|
    modifies syms
    ensures syms.Valid() && Stable(old(syms.contexts), syms.contexts)
    ensures syms.Scopes(MnemonicType) == old(syms.Scopes(MnemonicType))
    ensures EvalPost(old(syms.Scopes(LabelType)), syms.Scopes(LabelType), c, e, partial, rc, r)
    decreases c, e, 1
  {
    match e
    case Name(_) => rc, r := EvalName(syms, c, e, partial);
    case Number(_) => rc, r := EvalOk, e;
    case Minus(_, _) => rc, r := EvalSum(syms, c, e, partial);
    case Plus(_, _) => rc, r := EvalSum(syms, c, e, partial);
  }

  /** A symbol that holds an expression is evaluated where it was found: its tree is overwritten, and the
      symbol takes the word if there is one. */
  method EvalSymbol(syms: SymbolStore, sym: SymPtr, ghost n: string) returns (rc: EvalResult)
    requires syms.Valid() && syms.Points(sym, LabelType, n) && syms.Deref(sym, LabelType).val.AstSym?
    modifies syms
    ensures syms.Valid() && Stable(old(syms.contexts), syms.contexts)
    ensures syms.Scopes(MnemonicType) == old(syms.Scopes(MnemonicType))
    ensures syms.Points(sym, LabelType, n)
    ensures var o := Evaluate(old(syms.Scopes(LabelType)), sym.c, old(syms.Deref(sym, LabelType).val.expr));
      && syms.Scopes(LabelType) == RecordTree(o.scopes, sym.c, n, o.tree)
      && syms.Deref(sym, LabelType).val == ExprToSymVal(o.tree)
      && rc == if o.tree.Number? then EvalOk else EvalError
    decreases sym.c, syms.Deref(sym, LabelType).val.expr, 2
  {
    hide ScopesOf, ContextsOk, Stable, Evaluate;
    ghost var cs := syms.contexts;
    StableRefl(cs);
    PointerKept(cs, cs, sym, LabelType, n);
    var a: Expr;
    rc, a := EvalExpr(syms, sym.c, syms.Deref(sym, LabelType).val.expr, false);
    ghost var ds := syms.contexts;
    PointerKept(cs, ds, sym, LabelType, n);
    LabelKey(ds, sym, n);
    syms.SetVal(sym.c, LabelType, syms.Deref(sym, LabelType).name, ExprToSymVal(a));
    StableCompose(cs, ds, syms.contexts);
    PointerKept(ds, syms.contexts, sym, LabelType, n);
  }

  lemma StableRefl(cs: seq<Context>)
    ensures Stable(cs, cs)
  {}

  /** Label tables compare names as they are. */
  lemma LabelKey(cs: seq<Context>, p: SymPtr, n: string)
    requires ContextsOk(cs) && PointsIn(cs, p, LabelType, n)
    ensures cs[p.c].labels.value.symbols[p.i].name == n
  {
    assert TableOk(cs[p.c].Get(LabelType).value, LabelType);
  }

  /** The cases AST_SYMBOL and AST_LABEL. */
  method EvalName(syms: SymbolStore, c: nat, e: Expr, partial: bool) returns (rc: EvalResult, r: Expr)
    requires e.Name? && syms.Valid() && c < |syms.contexts|
    modifies syms
    ensures syms.Valid() && Stable(old(syms.contexts), syms.contexts)
    ensures syms.Scopes(MnemonicType) == old(syms.Scopes(MnemonicType))
    ensures EvalPost(old(syms.Scopes(LabelType)), syms.Scopes(LabelType), c, e, partial, rc, r)
    decreases c, e, 0
  {
    hide ScopesOf, ContextsOk, Stable;
    ghost var S, cs := syms.Scopes(LabelType), syms.contexts;
    WalkExcluding(S, c, e.name);
    var sym := syms.LookupWithContext(Some(c), LabelType, e.name, ExcludeSpecifiedUndef, Some(c));
    ghost var ds := syms.contexts;
    if sym.Some? && syms.Deref(sym.value, LabelType).val.AstSym? && !partial {
      var rcA := EvalSymbol(syms, sym.value, e.name);
      StableCompose(cs, ds, syms.contexts);
      if rcA == EvalError {
        return EvalError, e;
      }
    }
    if sym.Some? && syms.Deref(sym.value, LabelType).val.WordSym? {
      return EvalOk, Number(syms.Deref(sym.value, LabelType).val.word);
    } else if !partial {
      return EvalError, e;
    } else {
      return EvalPartial, e;
    }
  }

  /** What becomes of a sum whose operands have been evaluated to a and b. */
  function SumResult(minus: bool, partial: bool, rcA: EvalResult, rcB: EvalResult, a: Expr, b: Expr): (EvalResult, Expr)
    requires (rcA == EvalOk ==> a.Number?) && (rcB == EvalOk ==> b.Number?)
  {
    if rcA == EvalOk && rcB == EvalOk then
      (EvalOk, Number(if minus then Wrap(a.value as int - b.value as int) else Wrap(a.value as int + b.value as int)))
    else
      (if partial && (rcA == EvalPartial || rcB == EvalPartial) then EvalPartial else EvalError,
       if minus then Minus(a, b) else Plus(a, b))
  }

  /** The operands' evaluations, one after the other, make that of the whole. */
  lemma BothSides(S: seq<Scope>, T: seq<Scope>, U: seq<Scope>, c: nat, e: Expr, partial: bool, rcA: EvalResult,
                  rcB: EvalResult, a: Expr, b: Expr)
    requires Chained(S) && Chained(T) && c < |S| == |T| && (e.Minus? || e.Plus?)
    requires EvalPost(S, T, c, e.left, partial, rcA, a) && EvalPost(T, U, c, e.right, partial, rcB, b)
    ensures (rcA == EvalOk ==> a.Number?) && (rcB == EvalOk ==> b.Number?)
    ensures var (rc, r) := SumResult(e.Minus?, partial, rcA, rcB, a, b); EvalPost(S, U, c, e, partial, rc, r)
  {}

  /** The cases AST_MINUS and AST_PLUS. */
  method EvalSum(syms: SymbolStore, c: nat, e: Expr, partial: bool) returns (rc: EvalResult, r: Expr)
    requires (e.Minus? || e.Plus?) && syms.Valid() && c < |syms.contexts|
    modifies syms
    ensures syms.Valid() && Stable(old(syms.contexts), syms.contexts)
    ensures syms.Scopes(MnemonicType) == old(syms.Scopes(MnemonicType))
    ensures EvalPost(old(syms.Scopes(LabelType)), syms.Scopes(LabelType), c, e, partial, rc, r)
    decreases c, e, 0
  {
    hide ScopesOf, ContextsOk, Stable, EvalPost;
    ghost var S, cs := syms.Scopes(LabelType), syms.contexts;
    var rcA, left := EvalExpr(syms, c, e.left, partial);
    ghost var T, ds := syms.Scopes(LabelType), syms.contexts;
    var rcB, right := EvalExpr(syms, c, e.right, partial);
    StableCompose(cs, ds, syms.contexts);
    BothSides(S, T, syms.Scopes(LabelType), c, e, partial, rcA, rcB, left, right);
    if rcA == EvalOk && rcB == EvalOk {
      var a, b := left.value, right.value;
      return EvalOk, Number(if e.Minus? then Wrap(a as int - b as int) else Wrap(a as int + b as int));
    }
    r := if e.Minus? then Minus(left, right) else Plus(left, right);
    rc := if partial && (rcA == EvalPartial || rcB == EvalPartial) then EvalPartial else EvalError;
  }
}
