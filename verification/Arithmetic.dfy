/** What operands come to, as equations on words: sums and differences (bas.c, eval_expr, AST_MINUS and AST_PLUS),
    the location, and no operand at all. */
module Arithmetic {
  import opened Words
  import opened Wrappers
  import opened Ast
  import opened Scopes
  import opened Evaluation
  import opened Macros
  import opened Hygiene
  import opened Records
  import opened SecondPass
  import opened BabyAssembler

  /** A folded difference and a folded sum. */
  lemma FoldLaw(x: Expr, y: Expr)
    ensures FoldSum(true, x, y).Number? <==> x.Number? && y.Number?
    ensures FoldSum(false, x, y).Number? <==> x.Number? && y.Number?
    ensures x.Number? && y.Number? ==>
      && (FoldSum(true, x, y).value as int + y.value as int) % 0x1_0000_0000 == x.value
      && FoldSum(false, x, y).value == (x.value as int + y.value as int) % 0x1_0000_0000
    ensures !x.Number? || !y.Number? ==> FoldSum(true, x, y) == Minus(x, y) && FoldSum(false, x, y) == Plus(x, y)
  {}

  lemma ModSum(x: int, y: int)
    ensures (x % TWO32 + y % TWO32) % TWO32 == (x + y) % TWO32
    ensures (x % TWO32 - y % TWO32) % TWO32 == (x - y) % TWO32
  {
    var p, q := x / TWO32, y / TWO32;
    assert x == x % TWO32 + TWO32 * p && y == y % TWO32 + TWO32 * q;
    ModOfMultiple(x % TWO32 + y % TWO32, p + q, TWO32);
    ModOfMultiple(x % TWO32 - y % TWO32, p - q, TWO32);
  }

  lemma InOrder(S: seq<Scope>, c: nat, l: Expr, r: Expr)
    requires Chained(S) && c < |S|
    ensures var a := Evaluate(S, c, l); var b := Evaluate(a.scopes, c, r);
      && Evaluate(S, c, Minus(l, r)) == Evaluated(b.scopes, FoldSum(true, a.tree, b.tree))
      && Evaluate(S, c, Plus(l, r)) == Evaluated(b.scopes, FoldSum(false, a.tree, b.tree))
  {
    hide FoldSum, Find, RecordTree;
  }

  /** The two operands are evaluated one after the other; if both become numbers, adding the second to the
      difference gives the first, and otherwise there is no number. */
  lemma EvaluateMinus(S: seq<Scope>, c: nat, l: Expr, r: Expr)
    requires Chained(S) && c < |S|
    ensures var a := Evaluate(S, c, l); var b := Evaluate(a.scopes, c, r); var o := Evaluate(S, c, Minus(l, r));
      && o.scopes == b.scopes
      && (o.tree.Number? <==> a.tree.Number? && b.tree.Number?)
      && (o.tree.Number? ==> (o.tree.value as int + b.tree.value as int) % 0x1_0000_0000 == a.tree.value)
  {
    hide Evaluate, FoldSum;
    InOrder(S, c, l, r);
    var a := Evaluate(S, c, l);
    FoldLaw(a.tree, Evaluate(a.scopes, c, r).tree);
  }

  /** The same for sums. */
  lemma EvaluatePlus(S: seq<Scope>, c: nat, l: Expr, r: Expr)
    requires Chained(S) && c < |S|
    ensures var a := Evaluate(S, c, l); var b := Evaluate(a.scopes, c, r); var o := Evaluate(S, c, Plus(l, r));
      && o.scopes == b.scopes
      && (o.tree.Number? <==> a.tree.Number? && b.tree.Number?)
      && (o.tree.Number? ==> o.tree.value == (a.tree.value as int + b.tree.value as int) % 0x1_0000_0000)
  {
    hide Evaluate, FoldSum;
    InOrder(S, c, l, r);
    var a := Evaluate(S, c, l);
    FoldLaw(a.tree, Evaluate(a.scopes, c, r).tree);
  }

  /** Where recording is harmless, a difference of what means a and b evaluates to the word that with b makes
      a, and their sum to the word of a + b. */
  lemma HarmlessSums(S: seq<Scope>, c: nat, l: Expr, r: Expr, a: Word, b: Word)
    requires Chained(S) && Harmless(S) && c < |S| && Den(S, c, l) == Some(a) && Den(S, c, r) == Some(b)
    ensures var d := Evaluate(S, c, Minus(l, r)).tree;
      d.Number? && (d.value as int + b as int) % 0x1_0000_0000 == a && Den(S, c, Minus(l, r)) == Some(d.value)
    ensures var s := Evaluate(S, c, Plus(l, r)).tree;
      s.Number? && s.value == (a as int + b as int) % 0x1_0000_0000 && Den(S, c, Plus(l, r)) == Some(s.value)
  {
    hide Harmless, Evaluate;
    EvaluateMeans(S, c, Minus(l, r));
    EvaluateMeans(S, c, Plus(l, r));
  }

  /** What partial evaluation makes of numbers. */
  lemma ResidualSums(S: seq<Scope>, c: nat, a: Word, b: Word)
    requires Chained(S) && c < |S|
    ensures var d := Residual(S, c, Minus(Number(a), Number(b)));
      d.Number? && (d.value as int + b as int) % 0x1_0000_0000 == a
    ensures Residual(S, c, Plus(Number(a), Number(b))) == Number((a as int + b as int) % 0x1_0000_0000)
  {}

  lemma CombineLaw(a: Option<Word>, b: Option<Word>)
    ensures Combine(true, a, b).Some? <==> a.Some? && b.Some?
    ensures Combine(false, a, b).Some? <==> a.Some? && b.Some?
    ensures a.Some? && b.Some? ==>
      && (Combine(true, a, b).value as int + b.value as int) % 0x1_0000_0000 == a.value
      && Combine(false, a, b).value == (a.value as int + b.value as int) % 0x1_0000_0000
  {}

  /** What expanded text means. */
  lemma FlatSums(env: map<Ident, Word>, at: Word, l: FlatExpr, r: FlatExpr)
    ensures DenFlat(env, at, FMinus(l, r)).Some? <==> DenFlat(env, at, l).Some? && DenFlat(env, at, r).Some?
    ensures DenFlat(env, at, FPlus(l, r)).Some? <==> DenFlat(env, at, l).Some? && DenFlat(env, at, r).Some?
    ensures DenFlat(env, at, l).Some? && DenFlat(env, at, r).Some? ==>
      var a, b := DenFlat(env, at, l).value, DenFlat(env, at, r).value;
      && (DenFlat(env, at, FMinus(l, r)).value as int + b as int) % 0x1_0000_0000 == a
      && DenFlat(env, at, FPlus(l, r)).value == (a as int + b as int) % 0x1_0000_0000
  {
    hide Combine;
    CombineLaw(DenFlat(env, at, l), DenFlat(env, at, r));
  }

  // ----- other operands -----

  /** `$` is the address of the instruction, and an instruction without an operand has zero for one; on the tables
      and in the expanded text. */
  lemma LocationAndNone(S: seq<Scope>, ctx: nat, at: Word, env: map<Ident, Word>)
    requires Chained(S) && ctx < |S|
    ensures OperandAt(S, ctx, at, Name("$")) == Evaluated(S, Number(at))
    ensures FirstOf(S, ctx, at, []) == Evaluated(S, Number(0))
    ensures OperandValue(env, at, [FName(User("$"))]) == Some(at) && OperandValue(env, at, []) == Some(0)
  {
    TopChained(S, Top(ctx, at));
    assert Evaluate(S + [Top(ctx, at)], |S|, Name("$")) == Evaluated(S + [Top(ctx, at)], Number(at));
  }

  // ----- whole expressions -----

  /** An expression over the integers, with integers for its names. */
  function Total(e: Expr, v: map<string, int>): int
    requires Names(e) <= v.Keys
  {
    match e
    case Number(n) => n
    case Name(n) => v[n]
    case Minus(l, r) => Total(l, v) - Total(r, v)
    case Plus(l, r) => Total(l, v) + Total(r, v)
  }

  /** An expression means what it comes to over the integers, modulo 2^32. */
  lemma {:induction false} MeaningIsTotal(S: seq<Scope>, c: nat, e: Expr, v: map<string, int>)
    requires Chained(S) && c < |S| && Names(e) <= v.Keys
    requires forall n :: n in Names(e) ==> Den(S, c, Name(n)) == Some(v[n] % 0x1_0000_0000)
    ensures Den(S, c, e) == Some(Total(e, v) % 0x1_0000_0000)
    decreases e
  {
    hide Find;
    match e
    case Number(n) =>
      SmallMod(n, TWO32);
    case Name(n) =>
      assert n in Names(e);
    case Minus(l, r) =>
      MeaningIsTotal(S, c, l, v);
      MeaningIsTotal(S, c, r, v);
      ModSum(Total(l, v), Total(r, v));
    case Plus(l, r) =>
      MeaningIsTotal(S, c, l, v);
      MeaningIsTotal(S, c, r, v);
      ModSum(Total(l, v), Total(r, v));
  }
}
