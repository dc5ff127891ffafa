/** Why the conditions on macro calls and layout are needed: programs on which the code does something else
    than the substituted text says, and exactly when it does. */
module SideConditions {
  import opened Words
  import opened Wrappers
  import opened Ast
  import opened Scopes
  import opened Macros
  import opened Hygiene
  import opened Records
  import opened CallContexts

  // ----- `$` in an argument -----

  /** `$` is a label or nothing, never a formal that stays an expression. */
  ghost predicate DollarIsLabel(S: seq<Scope>) {
    forall d :: 0 <= d < |S| && "$" in S[d].syms ==> !S[d].syms["$"].AstSym?
  }

  /** The symbol that decides `$` in scope d is a label with a word. */
  predicate DollarBound(S: seq<Scope>, d: nat)
    requires Chained(S) && d < |S|
  {
    Find(S, d, "$").Some? && S[Find(S, d, "$").value].syms["$"].WordSym?
  }

  /** The formal is an argument kept as an expression, found from scope c. */
  predicate Kept(S: seq<Scope>, c: nat, formal: string)
    requires Chained(S) && c < |S|
  {
    FindAny(S, c, formal).Some? && S[FindAny(S, c, formal).value].syms[formal].AstSym?
  }

  /** An argument that mentions `$` is evaluated in the scope it was found in, out of reach of the
      assembler's own context, so its value does not depend on the location. Unless a formal is called `$`,
      it has a value if and only if some label outward of it is, and its other names resolve. */
  lemma DollarInArgument(S: seq<Scope>, c: nat, at: Word, other: Word, formal: string)
    requires Chained(S) && c < |S| && formal != "$" && Kept(S, c, formal)
    requires "$" in Names(S[FindAny(S, c, formal).value].syms[formal].expr)
    ensures DenAt(S, c, at, Name(formal)) == DenAt(S, c, other, Name(formal))
    ensures var d := FindAny(S, c, formal).value; var e := S[d].syms[formal].expr;
      DollarIsLabel(S) ==>
        (DenAt(S, c, at, Name(formal)).Some? <==>
           DollarBound(S, d) && forall n :: n in Names(e) && n != "$" ==> Den(S, d, Name(n)).Some?)
  {
    DenAtIsDenFrom(S, at, c, Name(formal));
    DenAtIsDenFrom(S, other, c, Name(formal));
    var d := FindAny(S, c, formal).value;
    NamesDecide(S, d, S[d].syms[formal].expr);
  }

  // ----- capture at the call -----

  /** m has the symbols of syms, with any words in place of its words. */
  ghost predicate SameButWords(syms: map<string, SymVal>, m: map<string, SymVal>) {
    m.Keys == syms.Keys
    && forall k :: k in syms ==> if syms[k].WordSym? then m[k].WordSym? else m[k] == syms[k]
  }

  /** An argument that is a name is bound to what it means to the caller, whatever words the formals before
      it hold, if and only if none of those is a word under that name. */
  lemma ArgumentNameExact(S: seq<Scope>, p: nat, syms: map<string, SymVal>, n: string)
    requires Chained(S) && p < |S|
    ensures (forall m :: SameButWords(syms, m) ==>
               Chained(S + [Scope(Some(p), m)])
               && Residual(S + [Scope(Some(p), m)], |S|, Name(n)) == ResidualFrom(S, p, Name(n)))
       <==> !(n in syms && syms[n].WordSym?)
  {
    if n in syms && syms[n].WordSym? {
      var r := ResidualFrom(S, p, Name(n));
      var w: Word := if r == Number(0) then 1 else 0;
      var m := syms[n := WordSym(w)];
      assert SameButWords(syms, m);
      NewChained(S, p, m);
      assert (S + [Scope(Some(p), m)])[|S|].syms[n] == WordSym(w);
      assert Residual(S + [Scope(Some(p), m)], |S|, Name(n)) == Number(w);
    } else {
      forall m | SameButWords(syms, m)
        ensures Chained(S + [Scope(Some(p), m)])
        ensures Residual(S + [Scope(Some(p), m)], |S|, Name(n)) == ResidualFrom(S, p, Name(n))
      {
        var T := S + [Scope(Some(p), m)];
        NewChained(S, p, m);
        assert T[|S|].syms == m;
        FindAnyPrefix(S, [Scope(Some(p), m)], p, n);
        var d := FindAny(S, p, n);
        assert d.Some? ==> T[d.value] == S[d.value];
      }
    }
  }

  /** The labels of the first contexts, bound to one word. */
  function AllLabelsAt(info: seq<Info>, w: Word): map<Ident, Word> {
    if info == [] then map[]
    else
      var c := |info| - 1;
      AllLabelsAt(info[..c], w) + LabelsAt(c, info[c].labels, w)
  }

  function LabelsAt(c: nat, labels: set<string>, w: Word): (env: map<Ident, Word>)
    ensures forall d, n :: Absolute(d, n) in env <==> d == c && n in labels
    ensures forall id :: id in env ==> env[id] == w
  {
    var ids := set n | n in labels :: Absolute(c, n);
    assert forall n :: n in labels ==> Absolute(c, n) in ids;
    map id | id in ids :: w
  }

  lemma {:induction false} AllLabelsBound(info: seq<Info>, w: Word, c: nat, n: string)
    ensures Absolute(c, n) in AllLabelsAt(info, w) <==> c < |info| && n in info[c].labels
    ensures Absolute(c, n) in AllLabelsAt(info, w) ==> AllLabelsAt(info, w)[Absolute(c, n)] == w
    decreases |info|
  {
    if info != [] {
      AllLabelsBound(info[..|info| - 1], w, c, n);
    }
  }

  /** A label that hides a formal is what its name means. */
  lemma {:induction false} HiddenIsLabel(info: seq<Info>, env: map<Ident, Word>, at: Word, p: nat, n: string)
    returns (c: nat)
    requires InfoOk(info) && p < |info| && n != "$" && Hides(Chain(info, p), n) && info[0].formals == map[]
    ensures 0 < c < |info| && n in info[c].labels && DenIn(info, env, at, p, Name(n)) == Lookup(env, Local(c, n))
    decreases p
  {
    c := p;
    if p == 0 {
      assert false;
    } else {
      ChainEnds(info, p);
      if n !in info[p].labels {
        c := HiddenIsLabel(info, env, at, info[p].parent, n);
      }
    }
  }

  /** Binding a name at the call to the word it has there is right, wherever the labels end up, if and only
      if no label of the calling text hides a formal of that name. */
  lemma EarlyWordExact(S: seq<Scope>, info: seq<Info>, at: Word, p: nat, n: string)
    requires Built(S, info) && Clean(info) && p < |S| && n != "$"
    requires FindAny(S, p, n).Some? && S[FindAny(S, p, n).value].syms[n].WordSym?
    ensures (forall env :: BindsLabels(info, env) ==>
               DenIn(info, env, at, p, Name(n)) == Some(S[FindAny(S, p, n).value].syms[n].word))
       <==> !Hides(Chain(info, p), n)
  {
    hide AllLabelsAt, FindAny, BuiltContext, CleanContext, Hides;
    var w := S[FindAny(S, p, n).value].syms[n].word;
    if Hides(Chain(info, p), n) {
      var other: Word := if w == 0 then 1 else 0;
      var env := AllLabelsAt(info, other);
      forall c, m | 0 <= c < |info| ensures m in info[c].labels <==> Absolute(c, m) in env {
        AllLabelsBound(info, other, c, m);
      }
      var c := HiddenIsLabel(info, env, at, p, n);
      AllLabelsBound(info, other, c, n);
    } else {
      forall env | BindsLabels(info, env) ensures DenIn(info, env, at, p, Name(n)) == Some(w) {
        EarlyWord(S, info, env, at, p, n);
      }
    }
  }
}
