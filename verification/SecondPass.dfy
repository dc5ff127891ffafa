/** The second pass on values: what assemble computes, item by item, with every expression it overwrites on
    the way (bas.c, assemble_one and assemble). */
module SecondPass {
  import opened Words
  import opened Wrappers
  import opened Ast
  import opened Scopes
  import opened Evaluation
  import opened Overlap
  import opened Records
  import Arch

  /** The label scopes without the assembler's own, the operand lists, and the words put, one for each item
      (zero for a mark). */
  datatype Pass = Pass(scopes: seq<Scope>, lists: seq<seq<Expr>>, words: seq<Word>)

  /** As many scopes, lists and words as there are contexts, lists and items. */
  ghost predicate Fitting(p: Pass, contexts: nat, lists: nat, m: nat) {
    |p.scopes| == contexts && Chained(p.scopes) && |p.lists| == lists && |p.words| == m
  }

  /** One operand, in the assembler's context set above that of the record. */
  function OperandAt(S: seq<Scope>, ctx: nat, at: Word, e: Expr): (o: Evaluated)
    requires Chained(S) && ctx < |S|
    ensures |o.scopes| == |S| && Chained(o.scopes)
  {
    TopChained(S, Top(ctx, at));
    var o := Evaluate(S + [Top(ctx, at)], |S|, e);
    KeepsChains(S, Top(ctx, at), e);
    Evaluated(o.scopes[..|S|], o.tree)
  }

  lemma KeepsChains(S: seq<Scope>, top: Scope, e: Expr)
    requires Chained(S) && Chained(S + [top])
    ensures Chained(Evaluate(S + [top], |S|, e).scopes[..|S|])
  {
    EvaluateRewrites(S + [top], |S|, e);
    assert forall c :: 0 <= c < |S| ==> (S + [top])[c] == S[c];
  }

  /** The operand of a list; zero if it has none. */
  function FirstOf(S: seq<Scope>, ctx: nat, at: Word, es: seq<Expr>): (o: Evaluated)
    requires Chained(S) && ctx < |S|
    ensures |o.scopes| == |S| && Chained(o.scopes)
  {
    if es == [] then Evaluated(S, Number(0)) else OperandAt(S, ctx, at, es[0])
  }

  /** One instruction: the operand list is overwritten by its number, and the word is put; a directive that
      is refused its cell is an error. */
  function AssembleOne(p: Pass, u: Use, at: Word, refused: bool): Option<Pass>
    requires Chained(p.scopes) && u.ctx < |p.scopes| && u.cell < |p.lists|
  {
    var es := p.lists[u.cell];
    var o := FirstOf(p.scopes, u.ctx, at, es);
    var word := if |es| <= 1 && o.tree.Number? then CodeWord(u.mnemonic, o.tree.value) else None;
    if word.None? || (Arch.FindInstr(u.mnemonic).value.Directive? && refused) then None
    else Some(Pass(o.scopes, if es == [] then p.lists else p.lists[u.cell := [o.tree]], p.words + [word.value]))
  }

  /** The pass over the first m items; None once an instruction does not assemble. */
  ghost function Passed(S: seq<Scope>, L: seq<seq<Expr>>, F: seq<Event>, start: Word, m: nat): (p: Option<Pass>)
    requires Chained(S) && WellFormed(F, |S|, |L|) && m <= |F|
    ensures p.Some? ==> Fitting(p.value, |S|, |L|, m)
  {
    if m == 0 then Some(Pass(S, L, []))
    else
      match Passed(S, L, F, start, m - 1)
      case None => None
      case Some(p) =>
        match F[m - 1]
        case Instr(u) => AssembleOne(p, u, Location(F, start, m - 1), Refused(F, start, m - 1))
        case _ => Some(p.(words := p.words + [0]))
  }

  lemma PassedNext(S: seq<Scope>, L: seq<seq<Expr>>, F: seq<Event>, start: Word, m: nat)
    requires Chained(S) && WellFormed(F, |S|, |L|) && m < |F|
    ensures Passed(S, L, F, start, m + 1) ==
              match Passed(S, L, F, start, m)
              case None => None
              case Some(p) =>
                assert Fitting(p, |S|, |L|, m);
                if F[m].Instr? then AssembleOne(p, F[m].payload, Location(F, start, m), Refused(F, start, m))
                else Some(p.(words := p.words + [0]))
  {
    hide Location, Refused, AssembleOne;
  }

  lemma {:induction false} PassStops(S: seq<Scope>, L: seq<seq<Expr>>, F: seq<Event>, start: Word, m: nat, n: nat)
    requires Chained(S) && WellFormed(F, |S|, |L|) && m <= n <= |F| && Passed(S, L, F, start, m) == None
    ensures Passed(S, L, F, start, n) == None
    decreases n
  {
    if m < n {
      hide Passed, Location, Refused, AssembleOne, Chained, WellFormed, Fitting;
      PassStops(S, L, F, start, m, n - 1);
      PassedNext(S, L, F, start, n - 1);
    }
  }

  /** The lists have kept their lengths. */
  ghost predicate SameLengths(L: seq<seq<Expr>>, M: seq<seq<Expr>>) {
    |M| == |L| && forall k :: 0 <= k < |L| ==> |M[k]| == |L[k]|
  }

  lemma OneAccepts(p: Pass, u: Use, at: Word, refused: bool)
    requires Chained(p.scopes) && u.ctx < |p.scopes| && u.cell < |p.lists| && AssembleOne(p, u, at, refused).Some?
    ensures |p.lists[u.cell]| <= 1 && Arch.FindInstr(u.mnemonic).Some?
    ensures Arch.FindInstr(u.mnemonic).value.Directive? ==> !refused
    ensures SameLengths(p.lists, AssembleOne(p, u, at, refused).value.lists)
  {
    hide FirstOf;
  }

  lemma SameLengthsCompose(L: seq<seq<Expr>>, M: seq<seq<Expr>>, N: seq<seq<Expr>>)
    requires SameLengths(L, M) && SameLengths(M, N)
    ensures SameLengths(L, N)
  {}

  lemma {:induction false} PassKeepsLengths(S: seq<Scope>, L: seq<seq<Expr>>, F: seq<Event>, start: Word, m: nat)
    requires Chained(S) && WellFormed(F, |S|, |L|) && m <= |F| && Passed(S, L, F, start, m).Some?
    ensures SameLengths(L, Passed(S, L, F, start, m).value.lists)
  {
    if m > 0 {
      hide Location, Refused, Passed, AssembleOne, Chained, SameLengths;
      PassedNext(S, L, F, start, m - 1);
      PassKeepsLengths(S, L, F, start, m - 1);
      var p := Passed(S, L, F, start, m - 1).value;
      if F[m - 1].Instr? {
        OneAccepts(p, F[m - 1].payload, Location(F, start, m - 1), Refused(F, start, m - 1));
        SameLengthsCompose(L, p.lists, Passed(S, L, F, start, m).value.lists);
      }
    } else {
      assert Passed(S, L, F, start, 0).value.lists == L;
    }
  }

  /** Whatever the names mean, only acceptable instructions are passed. */
  lemma PassAccepts(S: seq<Scope>, L: seq<seq<Expr>>, F: seq<Event>, start: Word, m: nat, j: nat)
    requires Chained(S) && WellFormed(F, |S|, |L|) && j < m <= |F| && Passed(S, L, F, start, m).Some? && F[j].Instr?
    ensures Acceptable(L, F, start, j)
    ensures |L[F[j].payload.cell]| <= 1 && Arch.FindInstr(F[j].payload.mnemonic).Some?
    ensures Arch.FindInstr(F[j].payload.mnemonic).value.Directive? ==> !Refused(F, start, j)
  {
    hide Location, Refused, Passed, AssembleOne, Chained, SameLengths;
    if Passed(S, L, F, start, j + 1) == None {
      PassStops(S, L, F, start, j + 1, m);
      assert false;
    }
    PassedNext(S, L, F, start, j);
    PassKeepsLengths(S, L, F, start, j);
    var p := Passed(S, L, F, start, j).value;
    LengthOf(L, p.lists, F[j].payload.cell);
    OneAccepts(p, F[j].payload, Location(F, start, j), Refused(F, start, j));
  }

  lemma LengthOf(L: seq<seq<Expr>>, M: seq<seq<Expr>>, k: nat)
    requires SameLengths(L, M) && k < |L|
    ensures |M[k]| == |L[k]|
  {}

  // ----- where recording is harmless -----

  /** M is L with the lists used by the first m items replaced by their words. */
  ghost predicate UsedLists(S: seq<Scope>, L: seq<seq<Expr>>, F: seq<Event>, start: Word, m: nat, M: seq<seq<Expr>>)
    requires Chained(S) && WellFormed(F, |S|, |L|)
  {
    && |M| == |L|
    && (forall k :: 0 <= k < |L| && FirstUse(F, k) >= m ==> M[k] == L[k])
    && (forall k :: 0 <= k < |L| && FirstUse(F, k) < m ==> (
          && |L[k]| <= 1 && ListValue(S, L, F, start, k).Some?
          && M[k] == if |L[k]| == 0 then [] else [Number(ListValue(S, L, F, start, k).value)]))
  }

  /** The operand's scopes, with the assembler's context on top. */
  lemma OperandHarmless(S: seq<Scope>, T: seq<Scope>, top: Scope)
    requires Chained(S) && Harmless(S) && Memo(S, T)
    requires top.parent.Some? ==> top.parent.value < |S|
    requires forall k :: k in top.syms ==> top.syms[k].WordSym?
    ensures Chained(T) && Chained(S + [top]) && Chained(T + [top]) && Memo(S + [top], T + [top])
    ensures Harmless(S + [top]) && Harmless(T + [top])
  {
    hide Harmless, Memo;
    HarmlessKept(S, T);
    MemoExtend(S, T, top);
    HarmlessKept(S + [top], T + [top]);
  }

  /** An operand has its meaning, whatever has been recorded before. */
  lemma OperandComputed(S: seq<Scope>, T: seq<Scope>, ctx: nat, at: Word, e: Expr)
    requires Chained(S) && Harmless(S) && Memo(S, T) && Chained(T) && ctx < |S| == |T|
    ensures var o := OperandAt(T, ctx, at, e);
      o.Value() == DenAt(S, ctx, at, e) && (o.tree.Number? ==> Memo(S, o.scopes))
  {
    hide Harmless, Memo, Evaluate, Den;
    var top := Top(ctx, at);
    OperandHarmless(S, T, top);
    var o := Evaluate(T + [top], |S|, e);
    EvaluateMeans(T + [top], |S|, e);
    UndisturbedTop(S, T, top, e);
    MemoTransparent(S + [top], T + [top], |S|, e);
    if o.tree.Number? {
      MemoRestrict(T, [top], o.scopes);
      MemoCompose(S, T, o.scopes[..|S|]);
    }
  }

  lemma UndisturbedTop(S: seq<Scope>, T: seq<Scope>, top: Scope, e: Expr)
    requires Chained(S + [top]) && |S| == |T|
    ensures Undisturbed(S + [top], T + [top], |S|, e)
  {}

  /** An operand list has its value, whatever has been recorded and overwritten before. */
  lemma ListMeans(S: seq<Scope>, L: seq<seq<Expr>>, F: seq<Event>, start: Word, j: nat, p: Pass)
    requires Chained(S) && Harmless(S) && WellFormed(F, |S|, |L|) && j < |F| && F[j].Instr?
    requires Memo(S, p.scopes) && Chained(p.scopes) && |p.scopes| == |S|
    requires UsedLists(S, L, F, start, j, p.lists) && SameLengths(L, p.lists)
    ensures var u := F[j].payload; var es := p.lists[u.cell];
      var o := FirstOf(p.scopes, u.ctx, Location(F, start, j), es);
      && o.Value() == ListValue(S, L, F, start, u.cell)
      && (o.tree.Number? ==> Memo(S, o.scopes))
      && (o.tree.Number? && |es| <= 1 ==>
            UsedLists(S, L, F, start, j + 1, if es == [] then p.lists else p.lists[u.cell := [o.tree]]))
  {
    hide Harmless, Memo, OperandAt, DenAt, Location, Chained;
    var u := F[j].payload;
    var es := p.lists[u.cell];
    var f := FirstUse(F, u.cell);
    assert f <= j;
    forall k | 0 <= k < |L| && FirstUse(F, k) == j ensures k == u.cell {}
    if es != [] {
      OperandComputed(S, p.scopes, u.ctx, Location(F, start, j), es[0]);
      if f < j {
        NumberAt(S, u.ctx, Location(F, start, j), ListValue(S, L, F, start, u.cell).value);
      }
    }
  }

  lemma NumberAt(S: seq<Scope>, ctx: nat, at: Word, v: Word)
    requires Chained(S) && ctx < |S|
    ensures DenAt(S, ctx, at, Number(v)) == Some(v)
  {}

  /** One instruction is put exactly if it assembles, and its word is that of its operand's meaning. */
  lemma OneMeans(S: seq<Scope>, L: seq<seq<Expr>>, F: seq<Event>, start: Word, j: nat, p: Pass)
    requires Chained(S) && Harmless(S) && WellFormed(F, |S|, |L|) && j < |F| && F[j].Instr?
    requires Memo(S, p.scopes) && Chained(p.scopes) && |p.scopes| == |S|
    requires UsedLists(S, L, F, start, j, p.lists) && SameLengths(L, p.lists)
    ensures var q := AssembleOne(p, F[j].payload, Location(F, start, j), Refused(F, start, j));
      && (q.Some? <==> Assembles(S, L, F, start, j))
      && (q.Some? ==>
            && Memo(S, q.value.scopes) && UsedLists(S, L, F, start, j + 1, q.value.lists)
            && q.value.words == p.words + [q.value.words[|p.words|]]
            && Some(q.value.words[|p.words|]) == ItemWord(S, L, F, start, j))
  {
    hide Harmless, Memo, Location, Refused, UsedLists, ListValue, FirstOf, CodeWord, Arch.FindInstr;
    ListMeans(S, L, F, start, j, p);
    Coded(F[j].payload.mnemonic);
  }

  /** The first m instructions assemble, and p is the pass over them. */
  ghost predicate Meant(S: seq<Scope>, L: seq<seq<Expr>>, F: seq<Event>, start: Word, m: nat, p: Pass)
    requires Chained(S) && WellFormed(F, |S|, |L|) && m <= |F|
  {
    && Memo(S, p.scopes) && UsedLists(S, L, F, start, m, p.lists) && |p.words| == m
    && forall j :: 0 <= j < m && F[j].Instr? ==>
      Assembles(S, L, F, start, j) && Some(p.words[j]) == ItemWord(S, L, F, start, j)
  }

  lemma MeantNext(S: seq<Scope>, L: seq<seq<Expr>>, F: seq<Event>, start: Word, m: nat, p: Pass)
    requires Chained(S) && Harmless(S) && WellFormed(F, |S|, |L|) && m < |F| && Meant(S, L, F, start, m, p)
    requires Chained(p.scopes) && |p.scopes| == |S| && SameLengths(L, p.lists)
    ensures !F[m].Instr? ==> Meant(S, L, F, start, m + 1, p.(words := p.words + [0]))
    ensures F[m].Instr? ==>
      var q := AssembleOne(p, F[m].payload, Location(F, start, m), Refused(F, start, m));
      (q.Some? <==> Assembles(S, L, F, start, m)) && (q.Some? ==> Meant(S, L, F, start, m + 1, q.value))
  {
    hide Harmless, Memo, Location, Refused, UsedLists, Assembles, ItemWord, AssembleOne, SameLengths, Chained;
    if F[m].Instr? {
      OneMeans(S, L, F, start, m, p);
    } else {
      UsedByMark(S, L, F, start, m, p.lists);
    }
  }

  /** The first m instructions assemble. */
  ghost predicate AllAssembles(S: seq<Scope>, L: seq<seq<Expr>>, F: seq<Event>, start: Word, m: nat)
    requires Chained(S) && WellFormed(F, |S|, |L|) && m <= |F|
  {
    forall j :: 0 <= j < m && F[j].Instr? ==> Assembles(S, L, F, start, j)
  }

  lemma AllNext(S: seq<Scope>, L: seq<seq<Expr>>, F: seq<Event>, start: Word, m: nat)
    requires Chained(S) && WellFormed(F, |S|, |L|) && m < |F|
    ensures AllAssembles(S, L, F, start, m + 1)
       <==> AllAssembles(S, L, F, start, m) && (F[m].Instr? ==> Assembles(S, L, F, start, m))
  {
    hide Assembles;
  }

  lemma MeantNothing(S: seq<Scope>, L: seq<seq<Expr>>, F: seq<Event>, start: Word)
    requires Chained(S) && WellFormed(F, |S|, |L|)
    ensures Passed(S, L, F, start, 0).Some? && Meant(S, L, F, start, 0, Passed(S, L, F, start, 0).value)
    ensures AllAssembles(S, L, F, start, 0)
  {
    hide Memo, ListValue, Assembles, ItemWord;
    MemoNothing(S);
  }

  /** Where arguments are harmless, the pass succeeds exactly when every instruction assembles, and puts the
      words of their operands' meanings. */
  lemma {:induction false} PassMeans(S: seq<Scope>, L: seq<seq<Expr>>, F: seq<Event>, start: Word, m: nat)
    requires Chained(S) && Harmless(S) && WellFormed(F, |S|, |L|) && m <= |F|
    ensures Passed(S, L, F, start, m).Some? <==> AllAssembles(S, L, F, start, m)
    ensures Passed(S, L, F, start, m).Some? ==> Meant(S, L, F, start, m, Passed(S, L, F, start, m).value)
  {
    hide Harmless, Meant, Location, Refused, Assembles, AllAssembles, AssembleOne, SameLengths, Passed, Chained;
    if m == 0 {
      MeantNothing(S, L, F, start);
    } else {
      PassedNext(S, L, F, start, m - 1);
      AllNext(S, L, F, start, m - 1);
      PassMeans(S, L, F, start, m - 1);
      if Passed(S, L, F, start, m - 1).Some? {
        PassKeepsLengths(S, L, F, start, m - 1);
        MeantNext(S, L, F, start, m - 1, Passed(S, L, F, start, m - 1).value);
      }
    }
  }

  /** The mnemonics that have words. */
  lemma Coded(mnemonic: string)
    ensures forall v :: CodeWord(mnemonic, v).Some? <==> Arch.FindInstr(mnemonic).Some?
  {
    Arch.FindInstrKind(mnemonic);
  }

  lemma UsedByMark(S: seq<Scope>, L: seq<seq<Expr>>, F: seq<Event>, start: Word, m: nat, M: seq<seq<Expr>>)
    requires Chained(S) && WellFormed(F, |S|, |L|) && m < |F| && !F[m].Instr? && UsedLists(S, L, F, start, m, M)
    ensures UsedLists(S, L, F, start, m + 1, M)
  {}
}
