/** Computing the run of a concrete program: its contexts, the labels in them, and the second pass. */
module ProgramRuns {
  import opened Words
  import opened Wrappers
  import opened Ast
  import opened Scopes
  import opened Evaluation
  import opened Layout
  import opened Overlap
  import opened Macros
  import opened Records
  import opened SecondPass
  import opened Traces
  import opened ParseSteps
  import opened CallContexts
  import opened BabyAssembler
  import opened Programs
  import ArchTables

  // ----- operands -----

  lemma NumberOperand(S: seq<Scope>, c: nat, at: Word, v: Word)
    requires Chained(S) && c < |S|
    ensures OperandAt(S, c, at, Number(v)) == Evaluated(S, Number(v))
  {}

  /** The assembler's context hides nothing but `$`. */
  lemma FoundBelow(S: seq<Scope>, c: nat, at: Word, n: string)
    requires Chained(S) && c < |S| && n != "$"
    ensures Chained(S + [Top(c, at)]) && Find(S + [Top(c, at)], |S|, n) == FindAny(S, c, n)
  {
    TopChained(S, Top(c, at));
    FindAnyPrefix(S, [Top(c, at)], c, n);
  }

  /** A formal that holds a word. */
  lemma WordOperand(S: seq<Scope>, c: nat, at: Word, n: string, w: Word)
    requires Chained(S) && c < |S| && n in S[c].syms && S[c].syms[n] == WordSym(w) && n != "$"
    ensures OperandAt(S, c, at, Name(n)) == Evaluated(S, Number(w))
  {
    FoundBelow(S, c, at, n);
    assert (S + [Top(c, at)])[c] == S[c];
  }

  /** A formal that holds a name, which is resolved, and whose word is recorded. */
  lemma NameOperand(S: seq<Scope>, c: nat, at: Word, n: string, m: string, d: nat, w: Word)
    requires Chained(S) && c < |S| && n in S[c].syms && S[c].syms[n] == AstSym(Name(m)) && n != "$"
    requires Find(S, c, m) == Some(d) && S[d].syms[m] == WordSym(w)
    ensures OperandAt(S, c, at, Name(n)) == Evaluated(RecordWord(S, c, n, w), Number(w))
  {
    FoundBelow(S, c, at, n);
    var T := S + [Top(c, at)];
    assert T[c] == S[c] && T[d] == S[d];
    assert Find(T, c, m) == Find(S, c, m) by {
      if S[c].parent.Some? {
        FindAnyPrefix(S, [Top(c, at)], S[c].parent.value, m);
      }
    }
    assert Evaluate(T, c, Name(m)) == Evaluated(T, Number(w));
    assert RecordTree(T, c, n, Number(w))[..|S|] == RecordWord(S, c, n, w);
  }

  /** A formal that holds a name without a word. */
  lemma StuckOperand(S: seq<Scope>, c: nat, at: Word, n: string, m: string)
    requires Chained(S) && c < |S| && n in S[c].syms && S[c].syms[n] == AstSym(Name(m)) && n != "$"
    requires Find(S, c, m).Some? ==> S[Find(S, c, m).value].syms[m].UndefSym?
    ensures !OperandAt(S, c, at, Name(n)).tree.Number?
  {
    FoundBelow(S, c, at, n);
    var T := S + [Top(c, at)];
    assert T[c] == S[c];
    assert Find(T, c, m) == Find(S, c, m) by {
      if S[c].parent.Some? {
        FindAnyPrefix(S, [Top(c, at)], S[c].parent.value, m);
      }
    }
    if Find(S, c, m).Some? {
      assert T[Find(S, c, m).value] == S[Find(S, c, m).value];
    }
    assert Evaluate(T, c, Name(m)) == Evaluated(T, Name(m));
  }

  // ----- the second pass -----

  lemma StartPass(S: seq<Scope>, L: seq<seq<Expr>>, F: seq<Event>)
    requires Chained(S) && WellFormed(F, |S|, |L|)
    ensures Passed(S, L, F, 0, 0) == Some(Pass(S, L, []))
  {}

  /** `NUM e` where the operand has a value. */
  lemma NextNum(S: seq<Scope>, L: seq<seq<Expr>>, F: seq<Event>, m: nat, c: nat, cell: nat, p: Pass, e: Expr,
                o: Evaluated)
    requires Chained(S) && WellFormed(F, |S|, |L|) && m < |F| && Passed(S, L, F, 0, m) == Some(p)
    requires F[m] == Instr(Use(c, "NUM", cell)) && !Refused(F, 0, m)
    requires Fitting(p, |S|, |L|, m) && c < |S| && cell < |L| && p.lists[cell] == [e]
    requires o == OperandAt(p.scopes, c, Location(F, 0, m), e) && o.tree.Number?
    ensures Passed(S, L, F, 0, m + 1)
         == Some(Pass(o.scopes, p.lists[cell := [o.tree]], p.words + [o.tree.value]))
  {
    hide Passed, OperandAt, Location, Refused;
    PassedNext(S, L, F, 0, m);
    ArchTables.NumFinds();
  }

  /** `NUM e` where it has none. */
  lemma NextFails(S: seq<Scope>, L: seq<seq<Expr>>, F: seq<Event>, m: nat, c: nat, cell: nat, p: Pass, e: Expr)
    requires Chained(S) && WellFormed(F, |S|, |L|) && m < |F| && Passed(S, L, F, 0, m) == Some(p)
    requires F[m].Instr? && F[m].payload.ctx == c && F[m].payload.cell == cell
    requires Fitting(p, |S|, |L|, m) && c < |S| && cell < |L| && p.lists[cell] == [e]
    requires !OperandAt(p.scopes, c, Location(F, 0, m), e).tree.Number?
    ensures Passed(S, L, F, 0, |F|) == None
  {
    hide Passed, OperandAt, Location, Refused;
    PassedNext(S, L, F, 0, m);
    PassStops(S, L, F, 0, m + 1, |F|);
  }

  lemma NextMark(S: seq<Scope>, L: seq<seq<Expr>>, F: seq<Event>, m: nat, p: Pass)
    requires Chained(S) && WellFormed(F, |S|, |L|) && m < |F| && Passed(S, L, F, 0, m) == Some(p) && !F[m].Instr?
    ensures Passed(S, L, F, 0, m + 1) == Some(p.(words := p.words + [0]))
  {
    hide Passed;
    PassedNext(S, L, F, 0, m);
  }

  /** A label and `NUM v`. */
  lemma NextMarked(S: seq<Scope>, L: seq<seq<Expr>>, F: seq<Event>, m: nat, c: nat, cell: nat, p: Pass, v: Word)
    requires Chained(S) && WellFormed(F, |S|, |L|) && m + 1 < |F| && Passed(S, L, F, 0, m) == Some(p)
    requires !F[m].Instr? && F[m + 1] == Instr(Use(c, "NUM", cell)) && !Refused(F, 0, m + 1)
    requires Fitting(p, |S|, |L|, m) && c < |S| && cell < |L| && p.lists[cell] == [Number(v)]
    ensures Passed(S, L, F, 0, m + 2) == Some(Pass(p.scopes, p.lists, p.words + [0, v]))
  {
    hide Passed, OperandAt, Location, Refused;
    NextMark(S, L, F, m, p);
    var q := p.(words := p.words + [0]);
    NumberOperand(p.scopes, c, Location(F, 0, m + 1), v);
    NextNum(S, L, F, m + 1, c, cell, q, Number(v), Evaluated(p.scopes, Number(v)));
    assert p.lists[cell := [Number(v)]] == p.lists;
    assert p.words + [0] + [v] == p.words + [0, v];
  }

  // ----- the run -----

  /** A parsed program: its statements and operand lists, and a ranking of its macros. */
  datatype Source = Source(stmts: seq<Stmt>, lists: seq<seq<Expr>>, rank: map<string, nat>, r: nat) {
    function Root(): Job {
      ProgramJob(lists, rank, r, stmts)
    }
  }

  /** The program expands to the items, and its run puts the words, or fails. */
  ghost predicate Runs(src: Source, items: seq<FlatItem>, words: Option<seq<Word>>) {
    var J := src.Root();
    WellBehaved(J) && Goal(J).Some? && Goal(J).value.items == items && WordsOf(J, NO_NAMES) == words
  }

  function WordsPut(p: Option<Pass>): Option<seq<Word>> {
    match p case None => None case Some(q) => Some(q.words)
  }

  /** A program that parses has the run of its trace. */
  lemma RunOf(src: Source, x: Expansion, t: Trace, P: seq<Scope>, B: seq<Scope>)
    requires Parses(map[], src.lists, src.rank, src.r, src.stmts, 0, 1, x, t) && InRange(x.items, 0)
    requires Made([RootInfo(src.stmts)] + t.info) && ContextScopes(NO_NAMES, [RootInfo(src.stmts)] + t.info) == P
    requires Bound(P, B, Env(t.events, 0))
    ensures var J := src.Root(); Outermost(J) && Course(J).Some? && Assembled(J, NO_NAMES).bound == B
    ensures Chained(B) && WellFormed(t.events, |B|, |src.lists|)
    ensures Runs(src, x.items, WordsPut(Passed(B, src.lists, t.events, 0, |t.events|)))
  {
    hide TableRanked, Ranked, Expand, Traced, ContextScopes, Env, Labels, Passed;
    var J := src.Root();
    BoundUnique(P, B, Env(t.events, 0));
    assert Assembled(J, NO_NAMES) == Assembly([RootInfo(src.stmts)] + t.info, P, B, t.events);
  }

  /** The contexts of a program that makes none, and of one more application. */
  lemma {:induction false} RootScopes(root: Scope, stmts: seq<Stmt>)
    requires root.parent == None
    ensures Made([RootInfo(stmts)]) && ContextScopes(root, [RootInfo(stmts)]) == [root]
  {}
}
