/** What expressions mean in a chain of symbol scopes, independently of any evaluation order.

    A scope is the contents of the label table of one `struct sym_context`; scopes are numbered in
    order of creation, so a parent has a smaller number than its children. */
module Scopes {
  import opened Words
  import opened Wrappers
  import opened Ast

  /** The value of a symbol with its subtype. */
  datatype SymVal =
    | UndefSym
    | MnemSym(mnemonic: Mnemonic)
    | WordSym(word: Word)
    | AstSym(expr: Expr)

  datatype Scope = Scope(parent: Option<nat>, syms: map<string, SymVal>)

  ghost predicate Chained(S: seq<Scope>) {
    forall c :: 0 <= c < |S| && S[c].parent.Some? ==> S[c].parent.value < c
  }

  /** The nearest scope, from c outwards, that has the name. */
  function FindAny(S: seq<Scope>, c: nat, name: string): (r: Option<nat>)
    requires Chained(S) && c < |S|
    ensures r.Some? ==> r.value <= c && name in S[r.value].syms
    decreases c
  {
    if name in S[c].syms then Some(c)
    else if S[c].parent.None? then None
    else FindAny(S, S[c].parent.value, name)
  }

  /** The scope that decides a name used in scope c: in c itself only words count
      (SYM_LU_SCOPE_EXCLUDE_SPECIFIED_UNDEF with c as the specified context). */
  function Find(S: seq<Scope>, c: nat, name: string): (r: Option<nat>)
    requires Chained(S) && c < |S|
    ensures r.Some? ==> r.value <= c && name in S[r.value].syms
    ensures r.Some? && !S[r.value].syms[name].WordSym? ==> r.value < c
  {
    if name in S[c].syms && S[c].syms[name].WordSym? then Some(c)
    else if S[c].parent.None? then None
    else FindAny(S, S[c].parent.value, name)
  }

  function Combine(minus: bool, a: Option<Word>, b: Option<Word>): Option<Word> {
    if a.None? || b.None? then None
    else if minus then Some(Wrap(a.value as int - b.value as int))
    else Some(Wrap(a.value as int + b.value as int))
  }

  /** The value of an expression in scope c, if every name it reaches resolves to a word. */
  function Den(S: seq<Scope>, c: nat, e: Expr): Option<Word>
    requires Chained(S) && c < |S|
    decreases c, e
  {
    match e
    case Number(v) => Some(v)
    case Minus(l, r) => Combine(true, Den(S, c, l), Den(S, c, r))
    case Plus(l, r) => Combine(false, Den(S, c, l), Den(S, c, r))
    case Name(n) =>
      match Find(S, c, n)
      case None => None
      case Some(d) =>
        match S[d].syms[n]
        case WordSym(w) => Some(w)
        case AstSym(a) => Den(S, d, a)
        case _ => None
  }

  /** Recording the word of symbol n of scope c would not change what n means to an argument kept there. */
  ghost predicate Neutral(S: seq<Scope>, c: nat, n: string)
    requires Chained(S) && c < |S|
  {
    n in S[c].syms && S[c].syms[n].AstSym? && Den(S, c, S[c].syms[n].expr).Some? ==>
      Den(S, c, Name(n)) == Den(S, c, S[c].syms[n].expr)
  }

  /** The expression kept as symbol k of scope c mentions symbol n of the same scope. */
  predicate Mentions(S: seq<Scope>, c: nat, k: string, n: string) {
    c < |S| && k in S[c].syms && S[c].syms[k].AstSym? && n in Names(S[c].syms[k].expr) && n != k
  }

  /** Wherever an argument mentions another formal of the same call that stays an expression, the two mean
      the same. */
  ghost predicate Harmless(S: seq<Scope>)
    requires Chained(S)
  {
    forall c: nat, k, n :: Mentions(S, c, k, n) ==> Neutral(S, c, n)
  }

  /** No argument mentions another formal of the same call that stays an expression. */
  ghost predicate NoCapture(S: seq<Scope>) {
    forall c: nat, k, n :: Mentions(S, c, k, n) && n in S[c].syms ==> !S[c].syms[n].AstSym?
  }

  lemma NoCaptureHarmless(S: seq<Scope>)
    requires Chained(S) && NoCapture(S)
    ensures Harmless(S)
  {}

  /** The symbol k of scope c is unchanged, or was an expression and is now that expression's word. */
  ghost predicate Memoised(S: seq<Scope>, T: seq<Scope>, c: nat, k: string)
    requires Chained(S) && c < |S| == |T| && k in S[c].syms && k in T[c].syms
  {
    T[c].syms[k] == S[c].syms[k]
    || (S[c].syms[k].AstSym? && T[c].syms[k].WordSym? && Den(S, c, S[c].syms[k].expr) == Some(T[c].syms[k].word))
  }

  /** T is S after some expression symbols have been replaced by their words. */
  ghost predicate Memo(S: seq<Scope>, T: seq<Scope>)
    requires Chained(S)
  {
    && |S| == |T|
    && (forall c :: 0 <= c < |S| ==> T[c].parent == S[c].parent && T[c].syms.Keys == S[c].syms.Keys)
    && forall c, k :: 0 <= c < |S| && k in S[c].syms ==> Memoised(S, T, c, k)
  }

  /** The names of e that scope c has recorded in T mean what they meant. */
  ghost predicate Undisturbed(S: seq<Scope>, T: seq<Scope>, c: nat, e: Expr)
    requires Chained(S) && c < |S| == |T|
  {
    forall n :: n in Names(e) && n in S[c].syms && n in T[c].syms && S[c].syms[n].AstSym? && T[c].syms[n].WordSym? ==>
      Neutral(S, c, n)
  }

  lemma {:induction false} FindAnyStable(S: seq<Scope>, T: seq<Scope>, c: nat, n: string)
    requires Chained(S) && Chained(T) && c < |S| == |T|
    requires forall d :: 0 <= d <= c ==> T[d].parent == S[d].parent && T[d].syms.Keys == S[d].syms.Keys
    ensures FindAny(S, c, n) == FindAny(T, c, n)
    decreases c
  {
    assert n in S[c].syms <==> n in T[c].syms by { assert S[c].syms.Keys == T[c].syms.Keys; }
    if n !in S[c].syms && S[c].parent.Some? {
      FindAnyStable(S, T, S[c].parent.value, n);
    }
  }

  /** Replacing expression symbols by their words changes no other expression's meaning, anywhere. */
  lemma {:induction false} MemoTransparent(S: seq<Scope>, T: seq<Scope>, c: nat, e: Expr)
    requires Chained(S) && Chained(T) && Harmless(S) && Memo(S, T) && c < |S|
    requires Undisturbed(S, T, c, e)
    ensures Den(S, c, e) == Den(T, c, e)
    decreases c, e
  {
    hide Harmless, Neutral;
    match e
    case Number(_) =>
    case Minus(l, r) =>
      MemoTransparent(S, T, c, l);
      MemoTransparent(S, T, c, r);
    case Plus(l, r) =>
      MemoTransparent(S, T, c, l);
      MemoTransparent(S, T, c, r);
    case Name(n) =>
      if n in S[c].syms && S[c].syms[n].AstSym? && !T[c].syms[n].AstSym? {
        NeutralName(S, T, c, n);
      } else {
        NameTransparent(S, T, c, n);
      }
  }

  /** A name recorded here. */
  lemma NeutralName(S: seq<Scope>, T: seq<Scope>, c: nat, n: string)
    requires Chained(S) && Chained(T) && Memo(S, T) && c < |S|
    requires n in S[c].syms && n in T[c].syms && S[c].syms[n].AstSym? && !T[c].syms[n].AstSym?
    requires Undisturbed(S, T, c, Name(n))
    ensures Den(S, c, Name(n)) == Den(T, c, Name(n))
  {
    assert Memoised(S, T, c, n);
    assert n in Names(Name(n));
    assert Neutral(S, c, n);
  }

  /** A name that is not recorded here. */
  lemma NameTransparent(S: seq<Scope>, T: seq<Scope>, c: nat, n: string)
    requires Chained(S) && Chained(T) && Harmless(S) && Memo(S, T) && c < |S|
    requires n in S[c].syms && S[c].syms[n].AstSym? ==> T[c].syms[n].AstSym?
    ensures Den(S, c, Name(n)) == Den(T, c, Name(n))
    decreases c, Name(n), 0
  {
    hide Harmless, Neutral, Undisturbed;
    assert n in S[c].syms <==> n in T[c].syms by { assert S[c].syms.Keys == T[c].syms.Keys; }
    if n in S[c].syms {
      assert Memoised(S, T, c, n);
    }
    if S[c].parent.Some? {
      FindAnyStable(S, T, S[c].parent.value, n);
    }
    assert Find(S, c, n) == Find(T, c, n);
    if Find(S, c, n).Some? {
      var d := Find(S, c, n).value;
      assert n in T[d].syms by { assert S[d].syms.Keys == T[d].syms.Keys; }
      assert Memoised(S, T, d, n);
      if S[d].syms[n].AstSym? && T[d].syms[n].AstSym? {
        KeptUndisturbed(S, T, d, n);
        MemoTransparent(S, T, d, S[d].syms[n].expr);
      }
    }
  }

  /** An argument that is still an expression mentions no formal that recording has disturbed. */
  lemma KeptUndisturbed(S: seq<Scope>, T: seq<Scope>, c: nat, k: string)
    requires Chained(S) && Harmless(S) && c < |S| == |T|
    requires k in S[c].syms && k in T[c].syms && S[c].syms[k].AstSym? && T[c].syms[k].AstSym?
    ensures Undisturbed(S, T, c, S[c].syms[k].expr)
  {
    hide Neutral;
    forall n | n in Names(S[c].syms[k].expr) && n in S[c].syms && n in T[c].syms && S[c].syms[n].AstSym?
      && T[c].syms[n].WordSym?
      ensures Neutral(S, c, n)
    {
      assert Mentions(S, c, k, n);
    }
  }

  lemma MemoChained(S: seq<Scope>, T: seq<Scope>)
    requires Chained(S) && Memo(S, T)
    ensures Chained(T)
  {}

  /** Recording words leaves harmless what was harmless. */
  lemma HarmlessKept(S: seq<Scope>, T: seq<Scope>)
    requires Chained(S) && Harmless(S) && Memo(S, T)
    ensures Chained(T) && Harmless(T)
  {
    MemoChained(S, T);
    forall c: nat, k, n | Mentions(T, c, k, n) ensures Neutral(T, c, n) {
      HarmlessKeptAt(S, T, c, k, n);
    }
  }

  lemma HarmlessKeptAt(S: seq<Scope>, T: seq<Scope>, c: nat, k: string, n: string)
    requires Chained(S) && Chained(T) && Harmless(S) && Memo(S, T) && Mentions(T, c, k, n)
    ensures Neutral(T, c, n)
  {
    hide Harmless;
    if n in T[c].syms && T[c].syms[n].AstSym? {
      assert S[c].syms.Keys == T[c].syms.Keys;
      assert k in S[c].syms && n in S[c].syms;
      assert Memoised(S, T, c, k) && Memoised(S, T, c, n);
      assert Mentions(S, c, k, n);
      assert Neutral(S, c, n) by { HarmlessAt(S, c, k, n); }
      KeptUndisturbed(S, T, c, n);
      MemoTransparent(S, T, c, S[c].syms[n].expr);
      NameTransparent(S, T, c, n);
    }
  }

  lemma HarmlessAt(S: seq<Scope>, c: nat, k: string, n: string)
    requires Chained(S) && Harmless(S) && Mentions(S, c, k, n)
    ensures Neutral(S, c, n)
  {}

  lemma MemoCompose(S: seq<Scope>, T: seq<Scope>, U: seq<Scope>)
    requires Chained(S) && Harmless(S) && Memo(S, T) && Chained(T) && Memo(T, U)
    ensures Memo(S, U)
  {
    hide Harmless, Den;
    forall c, k | 0 <= c < |S| && k in S[c].syms
      ensures k in U[c].syms && Memoised(S, U, c, k)
    {
      assert S[c].syms.Keys == T[c].syms.Keys == U[c].syms.Keys;
      assert k in T[c].syms && k in U[c].syms;
      assert Memoised(S, T, c, k) && Memoised(T, U, c, k);
      if S[c].syms[k].AstSym? && T[c].syms[k].AstSym? && U[c].syms[k].WordSym? {
        KeptUndisturbed(S, T, c, k);
        MemoTransparent(S, T, c, S[c].syms[k].expr);
      }
    }
  }

  // ----- exactly when recording is harmless -----

  /** S with the word v recorded for symbol n of scope c. */
  function RecordWord(S: seq<Scope>, c: nat, n: string, v: Word): seq<Scope>
    requires c < |S|
  {
    S[c := S[c].(syms := S[c].syms[n := WordSym(v)])]
  }

  lemma RecordIsMemo(S: seq<Scope>, c: nat, n: string, v: Word)
    requires Chained(S) && c < |S| && n in S[c].syms && S[c].syms[n].AstSym?
    requires Den(S, c, S[c].syms[n].expr) == Some(v)
    ensures Memo(S, RecordWord(S, c, n, v)) && Chained(RecordWord(S, c, n, v))
    ensures Den(RecordWord(S, c, n, v), c, Name(n)) == Some(v)
  {
    hide Den;
    var T := RecordWord(S, c, n, v);
    forall d, k | 0 <= d < |S| && k in S[d].syms ensures k in T[d].syms && Memoised(S, T, d, k) {}
    assert Den(T, c, Name(n)) == Some(v) by { NameOfWord(T, c, n, v); }
  }

  lemma NameOfWord(T: seq<Scope>, c: nat, n: string, v: Word)
    requires Chained(T) && c < |T| && n in T[c].syms && T[c].syms[n] == WordSym(v)
    ensures Den(T, c, Name(n)) == Some(v)
  {}

  /** Recording one formal's word changes what its name means to the arguments beside it unless it meant
      that word already. */
  lemma RecordNameExact(S: seq<Scope>, c: nat, n: string, v: Word)
    requires Chained(S) && c < |S| && n in S[c].syms && S[c].syms[n].AstSym?
    requires Den(S, c, S[c].syms[n].expr) == Some(v)
    ensures Den(RecordWord(S, c, n, v), c, Name(n)) == Den(S, c, Name(n)) <==> Den(S, c, Name(n)) == Some(v)
  {
    RecordIsMemo(S, c, n, v);
  }

  /** Every name mentioned by an argument that is still kept means in T what it means in S. */
  ghost predicate KeepsNames(S: seq<Scope>, T: seq<Scope>)
    requires Chained(S) && Chained(T) && |S| == |T|
  {
    forall c: nat, k, n :: c < |T| && k in T[c].syms && T[c].syms[k].AstSym? && n in Names(T[c].syms[k].expr) ==>
      Den(T, c, Name(n)) == Den(S, c, Name(n))
  }

  /** No recording, of any symbols in any order, changes the meaning of a name that a kept argument mentions,
      if and only if arguments that mention each other's formals mean the same. */
  lemma MemoExact(S: seq<Scope>)
    requires Chained(S)
    ensures (forall T :: Memo(S, T) && Chained(T) ==> KeepsNames(S, T)) <==> Harmless(S)
  {
    hide Memoised, KeepsNames;
    if Harmless(S) {
      forall T | Memo(S, T) && Chained(T) ensures KeepsNames(S, T) {
        HarmlessKeepsNames(S, T);
      }
    } else {
      var c: nat, k, n :| Mentions(S, c, k, n) && !Neutral(S, c, n);
      var v := Den(S, c, S[c].syms[n].expr).value;
      var T := RecordWord(S, c, n, v);
      RecordIsMemo(S, c, n, v);
      assert !KeepsNames(S, T) by { CapturedName(S, c, k, n, v); }
    }
  }

  lemma CapturedName(S: seq<Scope>, c: nat, k: string, n: string, v: Word)
    requires Chained(S) && Mentions(S, c, k, n) && !Neutral(S, c, n)
    requires Den(S, c, S[c].syms[n].expr) == Some(v) && Chained(RecordWord(S, c, n, v))
    ensures !KeepsNames(S, RecordWord(S, c, n, v))
  {
    var T := RecordWord(S, c, n, v);
    NameOfWord(T, c, n, v);
    assert k in T[c].syms && T[c].syms[k].AstSym? && n in Names(T[c].syms[k].expr);
    assert Den(T, c, Name(n)) != Den(S, c, Name(n));
  }

  lemma HarmlessKeepsNames(S: seq<Scope>, T: seq<Scope>)
    requires Chained(S) && Harmless(S) && Memo(S, T) && Chained(T)
    ensures KeepsNames(S, T)
  {
    hide Harmless, Neutral, Den;
    forall c: nat, k, n | c < |T| && k in T[c].syms && T[c].syms[k].AstSym? && n in Names(T[c].syms[k].expr)
      ensures Den(T, c, Name(n)) == Den(S, c, Name(n))
    {
      assert S[c].syms.Keys == T[c].syms.Keys;
      assert k in S[c].syms && Memoised(S, T, c, k);
      KeptUndisturbed(S, T, c, k);
      assert Undisturbed(S, T, c, Name(n));
      MemoTransparent(S, T, c, Name(n));
    }
  }

  /** What `eval_expr` leaves of a tree when partial results are allowed: words replaced, sums folded. */
  function Residual(S: seq<Scope>, c: nat, e: Expr): Expr
    requires Chained(S) && c < |S|
  {
    match e
    case Number(_) => e
    case Name(n) =>
      var d := Find(S, c, n);
      if d.Some? && S[d.value].syms[n].WordSym? then Number(S[d.value].syms[n].word) else e
    case Minus(l, r) => FoldSum(true, Residual(S, c, l), Residual(S, c, r))
    case Plus(l, r) => FoldSum(false, Residual(S, c, l), Residual(S, c, r))
  }

  function FoldSum(minus: bool, l: Expr, r: Expr): Expr {
    if l.Number? && r.Number? then Number(Combine(minus, Some(l.value), Some(r.value)).value)
    else if minus then Minus(l, r)
    else Plus(l, r)
  }

  /** In T the name still has the word it has in S, if it has one there. */
  ghost predicate StillBound(S: seq<Scope>, T: seq<Scope>, c: nat, n: string)
    requires Chained(S) && Chained(T) && c < |S| <= |T|
  {
    Residual(S, c, Name(n)).Number? ==> Den(T, c, Name(n)) == Some(Residual(S, c, Name(n)).value)
  }

  /** Evaluating partially now and fully later is evaluating fully later, as long as no name resolved
      now means something else then. */
  lemma {:induction false} PartialThenFull(S: seq<Scope>, T: seq<Scope>, c: nat, e: Expr)
    requires Chained(S) && Chained(T) && c < |S| <= |T|
    requires forall n :: n in Names(e) ==> StillBound(S, T, c, n)
    ensures Den(T, c, Residual(S, c, e)) == Den(T, c, e)
    ensures Names(Residual(S, c, e)) <= Names(e)
    decreases e
  {
    match e
    case Number(_) =>
    case Name(n) =>
      assert StillBound(S, T, c, n);
    case Minus(l, r) =>
      PartialThenFull(S, T, c, l);
      PartialThenFull(S, T, c, r);
    case Plus(l, r) =>
      PartialThenFull(S, T, c, l);
      PartialThenFull(S, T, c, r);
  }

  /** An expression has a meaning exactly if each of its names has. */
  lemma {:induction false} NamesDecide(S: seq<Scope>, c: nat, e: Expr)
    requires Chained(S) && c < |S|
    ensures Den(S, c, e).Some? <==> forall n :: n in Names(e) ==> Den(S, c, Name(n)).Some?
    decreases e
  {
    match e
    case Number(_) =>
    case Name(_) =>
    case Minus(l, r) =>
      NamesDecide(S, c, l);
      NamesDecide(S, c, r);
    case Plus(l, r) =>
      NamesDecide(S, c, l);
      NamesDecide(S, c, r);
  }

  // ----- younger scopes do not matter -----

  lemma {:induction false} FindAnyPrefix(S: seq<Scope>, X: seq<Scope>, c: nat, n: string)
    requires Chained(S) && Chained(S + X) && c < |S|
    ensures FindAny(S + X, c, n) == FindAny(S, c, n)
    decreases c
  {
    assert (S + X)[c] == S[c];
    if n !in S[c].syms && S[c].parent.Some? {
      FindAnyPrefix(S, X, S[c].parent.value, n);
    }
  }

  lemma {:induction false} DenPrefix(S: seq<Scope>, X: seq<Scope>, c: nat, e: Expr)
    requires Chained(S) && Chained(S + X) && c < |S|
    ensures Den(S + X, c, e) == Den(S, c, e)
    decreases c, e
  {
    assert (S + X)[c] == S[c];
    match e
    case Number(_) =>
    case Minus(l, r) =>
      DenPrefix(S, X, c, l);
      DenPrefix(S, X, c, r);
    case Plus(l, r) =>
      DenPrefix(S, X, c, l);
      DenPrefix(S, X, c, r);
    case Name(n) =>
      if S[c].parent.Some? {
        FindAnyPrefix(S, X, S[c].parent.value, n);
      }
      var d := Find(S, c, n);
      if d.Some? {
        assert (S + X)[d.value] == S[d.value];
        if S[d.value].syms[n].AstSym? {
          DenPrefix(S, X, d.value, S[d.value].syms[n].expr);
        }
      }
  }

  /** Memoisation below a younger scope that holds only words. */
  lemma MemoExtend(S: seq<Scope>, T: seq<Scope>, top: Scope)
    requires Chained(S) && Chained(T) && Memo(S, T) && Harmless(S)
    requires top.parent.Some? ==> top.parent.value < |S|
    requires forall k :: k in top.syms ==> top.syms[k].WordSym?
    ensures Chained(S + [top]) && Chained(T + [top]) && Memo(S + [top], T + [top]) && Harmless(S + [top])
  {
    hide Harmless, Den;
    var S', T' := S + [top], T + [top];
    forall c | 0 <= c < |S'| ensures T'[c].parent == S'[c].parent && T'[c].syms.Keys == S'[c].syms.Keys {}
    forall c, k | 0 <= c < |S'| && k in S'[c].syms ensures k in T'[c].syms && Memoised(S', T', c, k) {
      assert k in T'[c].syms by { assert T'[c].syms.Keys == S'[c].syms.Keys; }
      if c < |S| {
        assert Memoised(S, T, c, k);
        if S[c].syms[k].AstSym? {
          DenPrefix(S, [top], c, S[c].syms[k].expr);
        }
      }
    }
    assert Harmless(S') by { HarmlessExtend(S, top); }
  }

  lemma HarmlessExtend(S: seq<Scope>, top: Scope)
    requires Chained(S) && Harmless(S)
    requires top.parent.Some? ==> top.parent.value < |S|
    requires forall k :: k in top.syms ==> top.syms[k].WordSym?
    ensures Chained(S + [top]) && Harmless(S + [top])
  {
    hide Den;
    var S' := S + [top];
    assert Chained(S');
    forall c: nat, k, n | Mentions(S', c, k, n) ensures Neutral(S', c, n) {
      assert c < |S| && S'[c] == S[c];
      assert Mentions(S, c, k, n);
      if n in S[c].syms && S[c].syms[n].AstSym? {
        DenPrefix(S, [top], c, S[c].syms[n].expr);
        DenPrefix(S, [top], c, Name(n));
      }
    }
  }

  lemma MemoRestrict(S: seq<Scope>, X: seq<Scope>, T: seq<Scope>)
    requires Chained(S) && Chained(S + X) && Memo(S + X, T)
    ensures Memo(S, T[..|S|])
  {
    var S', T' := S + X, T[..|S|];
    forall c | 0 <= c < |S| ensures T'[c].parent == S[c].parent && T'[c].syms.Keys == S[c].syms.Keys {
      assert S'[c] == S[c];
      assert T[c].syms.Keys == S'[c].syms.Keys;
    }
    forall c, k | 0 <= c < |S| && k in S[c].syms ensures k in T'[c].syms && Memoised(S, T', c, k) {
      assert S'[c] == S[c];
      assert k in T'[c].syms by { assert T[c].syms.Keys == S'[c].syms.Keys; }
      assert Memoised(S', T, c, k);
      if S[c].syms[k].AstSym? {
        DenPrefix(S, X, c, S[c].syms[k].expr);
      }
    }
  }
}
