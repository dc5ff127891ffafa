/** The failing programs, assembled: what the section holds afterwards, from program start. */
module FailingRuns {
  import opened Words
  import opened Wrappers
  import opened Ast
  import opened Scopes
  import opened Evaluation
  import opened Sections
  import opened Layout
  import opened Overlap
  import opened Macros
  import opened Hygiene
  import opened Records
  import opened SecondPass
  import opened Traces
  import opened Passes
  import opened ParseSteps
  import opened CallContexts
  import opened Listings
  import opened BabyAssembler
  import opened Startup
  import opened Programs
  import opened ProgramRuns
  import opened FailingPrograms
  import Arch
  import ArchTables
  import Libc

  // ----- assembling a program whose run is known -----

  /** The assembler does what the run says, from program start. */
  method AssembleKnown(src: Source, ghost items: seq<FlatItem>, ghost words: Option<seq<Word>>)
    returns (ok: bool, section: Section, ghost puts: seq<Cell>)
    requires Runs(src, items, words)
    ensures ok <==> words.Some?
    ensures ok ==> Placing(section, items, puts) && PutsAre(puts, words.value)
  {
    hide Goal, WordsOf, Placing, PutsAre, CaptureFree, AllAssemble, Holds, DistinctAddresses, WellBehaved;
    ok, section, puts := AssembleProgram(src.stmts, src.lists, src.rank, src.r);
  }

  lemma NothingDefined()
    ensures NoMacros(map[]) && Unbound(NO_NAMES)
  {}

  /** The words of a program laid out like its events. */
  lemma PlacedLike(section: Section, F: seq<Event>, items: seq<FlatItem>, puts: seq<Cell>, words: seq<Word>)
    requires Placing(section, items, puts) && PutsAre(puts, words) && SameShape(F, items)
    requires InRange(F, 0) && DistinctAddresses(F, 0)
    ensures section.Valid() && section.org == 0 && |words| == |items|
    ensures forall j :: 0 <= j < |F| && F[j].Instr? ==> section.At(Address(F, 0, j)).value == words[j]
  {
    hide PutsAre, Address, InRange, DistinctAddresses, Written, FlatAcceptable, Owned;
    ShapeDecidesAddresses(F, items, 0);
    PlacedWords(section, items, puts, words);
    forall j | 0 <= j < |F| && F[j].Instr? ensures section.At(Address(F, 0, j)).value == words[j] {
      assert items[j].Instr?;
    }
  }

  // ----- contexts and labels -----

  /** The label of a program that has one. */
  lemma {:induction false} OneLabel(F: seq<Event>, j: nat)
    requires j < |F| && F[j].Label? && forall k :: 0 <= k < |F| && k != j ==> !F[k].Label?
    ensures Env(F, 0) == map[F[j].name := Address(F, 0, j)]
  {
    hide Env, Address;
    EnvLast(F, 0, j);
    forall l ensures l in Env(F, 0) <==> l == F[j].name {
      EnvKeys(F, 0, l);
    }
  }

  /** The scopes of a program that applies one macro to words or to names without values. */
  lemma {:induction false} OneCall(stmts: seq<Stmt>, names: seq<string>, actuals: seq<Expr>,
                                   labels: set<string>)
    requires |names| == |actuals|
    ensures var info := [RootInfo(stmts)] + [Applying(0, names, actuals, labels)];
      && Made(info)
      && ContextScopes(NO_NAMES, info) == [NO_NAMES, Scope(Some(0), BoundArguments([NO_NAMES], 0, names, actuals))]
  {
    hide BoundArguments, FormalMap, ContextScopes;
    RootScopes(NO_NAMES, stmts);
    ContextScopesAdded(NO_NAMES, [RootInfo(stmts)], 0, names, actuals, labels);
  }

  /** The formal of a call with one. */
  lemma {:induction false} OneArgument(S: seq<Scope>, p: nat, n: string, a: Expr)
    requires Chained(S) && p < |S|
    ensures Chained(S + [Scope(Some(p), map[])])
    ensures BoundArguments(S, p, [n], [a])
         == map[n := ExprToSymVal(Residual(S + [Scope(Some(p), map[])], |S|, a))]
  {
    assert [n][..0] == [] && [a][..0] == [];
    assert BoundArguments(S, p, [], []) == map[];
  }

  lemma {:induction false} TwoArguments(S: seq<Scope>, p: nat, a: Expr, b: Expr)
    requires Chained(S) && p < |S|
    ensures var m := BoundArguments(S, p, ["x"], [a]);
      && Chained(S + [Scope(Some(p), m)])
      && BoundArguments(S, p, PAIR_FORMALS, [a, b])
         == m["y" := ExprToSymVal(Residual(S + [Scope(Some(p), m)], |S|, b))]
  {
    assert PAIR_FORMALS[..1] == ["x"] && [a, b][..1] == [a];
  }

  // ----- an earlier formal captures a later argument -----

  /** The root with the label x at 2, and the call: both formals hold 1. */
  function CaptureBound(): seq<Scope> {
    [Scope(None, map["x" := WordSym(2)]), Scope(Some(0), map["x" := WordSym(1), "y" := WordSym(1)])]
  }

  lemma {:induction false} CaptureScopes()
    ensures BoundArguments([NO_NAMES], 0, PAIR_FORMALS, [Number(1), Name("x")])
         == map["x" := WordSym(1), "y" := WordSym(1)]
  {
    OneArgument([NO_NAMES], 0, "x", Number(1));
    TwoArguments([NO_NAMES], 0, Number(1), Name("x"));
  }

  lemma {:induction false} CaptureLayout()
    ensures var F := CaptureTrace().events;
      && Address(F, 0, 0) == 0 && Address(F, 0, 1) == 1 && Address(F, 0, 2) == 2 && Address(F, 0, 3) == 2
      && InRange(F, 0) && DistinctAddresses(F, 0) && Env(F, 0) == map[Tag(0, "x") := 2]
    ensures var F := CaptureTrace().events;
      SameShape(F, CaptureItems()) && |F| == 4 && F[0].Instr? && F[1].Instr? && F[3].Instr?
  {
    hide Address, Env;
    var F := CaptureTrace().events;
    Steps(F, 0);
    Steps(F, 1);
    Steps(F, 2);
    OneLabel(F, 2);
  }

  lemma {:induction false} CaptureWords()
    ensures var B, F := CaptureBound(), CaptureTrace().events;
      && Chained(B) && WellFormed(F, 2, 4)
      && Passed(B, CAPTURE_LISTS, F, 0, 4).Some? && Passed(B, CAPTURE_LISTS, F, 0, 4).value.words == [1, 1, 0, 7]
  {
    hide Passed, Address, Location, Refused, OperandAt;
    var B, F, L0 := CaptureBound(), CaptureTrace().events, CAPTURE_LISTS;
    CaptureLayout();
    DistinctLocations(F, 0);
    assert Chained(B);
    var p0 := Pass(B, L0, []);
    assert Passed(B, L0, F, 0, 0) == Some(p0) by { StartPass(B, L0, F); }
    WordOperand(B, 1, 0, "x", 1);
    NextNum(B, L0, F, 0, 1, 0, p0, Name("x"), Evaluated(B, Number(1)));
    var p1 := Pass(B, L0[0 := [Number(1)]], [] + [1]);
    WordOperand(B, 1, 1, "y", 1);
    NextNum(B, L0, F, 1, 1, 1, p1, Name("y"), Evaluated(B, Number(1)));
    NextMarked(B, L0, F, 2, 0, 3, Pass(B, p1.lists[1 := [Number(1)]], p1.words + [1]), 7);
  }

  function CaptureSource(): Source {
    Source(PairProgram(CAPTURE_REST), CAPTURE_LISTS, PAIR_RANK, 1)
  }

  /** The words put are 1, 1 and 7; the second should be 2. */
  lemma {:induction false} CaptureRun()
    ensures Runs(CaptureSource(), CaptureItems(), Some([1, 1, 0, 7]))
  {
    NothingDefined();
    hide Parses, Env, Address, InRange, DistinctAddresses, Passed, BoundArguments, ContextScopes, FormalMap, Runs;
    CaptureParses(map[]);
    CaptureLayout();
    CaptureScopes();
    CaptureWords();
    var stmts, F := PairProgram(CAPTURE_REST), CaptureTrace().events;
    OneCall(stmts, PAIR_FORMALS, [Number(1), Name("x")], {});
    var P := [NO_NAMES, Scope(Some(0), map["x" := WordSym(1), "y" := WordSym(1)])];
    assert Bound(P, CaptureBound(), Env(F, 0));
    ShapeDecidesAddresses(F, CaptureItems(), 0);
    RunOf(CaptureSource(), Expansion(CaptureItems(), 2), CaptureTrace(), P, CaptureBound());
  }

  /** `pair 1, x` assembles, to 1 where the text says 2. */
  method AssembleCapture() returns (ok: bool, section: Section)
    ensures ok && section.Valid() && section.org == 0
    ensures section.At(0).value == 1 && section.At(1).value == 1 && section.At(2).value == 7
    ensures OwnWord(CaptureItems(), 0, 1) == Some(2)
  {
    hide *;
    CaptureRun();
    ghost var puts;
    ok, section, puts := AssembleKnown(CaptureSource(), CaptureItems(), Some([1, 1, 0, 7]));
    CaptureMeans();
    CaptureLayout();
    PlacedLike(section, CaptureTrace().events, CaptureItems(), puts, [1, 1, 0, 7]);
  }

  // ----- recording one formal's word changes another argument -----

  /** The call keeps both names. */
  function RecordParsed(): seq<Scope> {
    [NO_NAMES, Scope(Some(0), map["x" := AstSym(Name("a")), "y" := AstSym(Name("x"))])]
  }

  /** The labels a and x are at 2 and 3. */
  function RecordBound(): seq<Scope> {
    [Scope(None, map["a" := WordSym(2), "x" := WordSym(3)]), RecordParsed()[1]]
  }

  lemma {:induction false} RecordScopes()
    ensures BoundArguments([NO_NAMES], 0, PAIR_FORMALS, [Name("a"), Name("x")])
         == map["x" := AstSym(Name("a")), "y" := AstSym(Name("x"))]
  {
    OneArgument([NO_NAMES], 0, "x", Name("a"));
    TwoArguments([NO_NAMES], 0, Name("a"), Name("x"));
  }

  lemma {:induction false} RecordLayout()
    ensures var F := RecordTrace().events;
      && Address(F, 0, 0) == 0 && Address(F, 0, 1) == 1 && Address(F, 0, 2) == 2 && Address(F, 0, 3) == 2
      && Address(F, 0, 4) == 3 && Address(F, 0, 5) == 3
      && InRange(F, 0) && DistinctAddresses(F, 0) && Env(F, 0) == map[Tag(0, "a") := 2, Tag(0, "x") := 3]
    ensures var F := RecordTrace().events;
      SameShape(F, RecordItems()) && |F| == 6 && F[0].Instr? && F[1].Instr? && F[3].Instr? && F[5].Instr?
  {
    hide Address, Env;
    var F := RecordTrace().events;
    Steps(F, 0);
    Steps(F, 1);
    Steps(F, 2);
    Steps(F, 3);
    Steps(F, 4);
    EnvLast(F, 0, 2);
    EnvLast(F, 0, 4);
    forall l ensures l in Env(F, 0) <==> l == Tag(0, "a") || l == Tag(0, "x") {
      EnvKeys(F, 0, l);
    }
  }

  /** After both uses of formals. */
  function RecordLeft(): seq<Scope> {
    RecordWord(RecordWord(RecordBound(), 1, "x", 2), 1, "y", 2)
  }

  lemma {:induction false} RecordOperands()
    ensures var B := RecordBound();
      var C := RecordWord(B, 1, "x", 2);
      && Chained(B) && Chained(C) && Chained(RecordLeft()) && |RecordLeft()| == 2
      && OperandAt(B, 1, 0, Name("x")) == Evaluated(C, Number(2))
      && OperandAt(C, 1, 1, Name("y")) == Evaluated(RecordLeft(), Number(2))
  {
    hide OperandAt;
    var B := RecordBound();
    assert Chained(B);
    NameOperand(B, 1, 0, "x", "a", 0, 2);
    NameOperand(RecordWord(B, 1, "x", 2), 1, 1, "y", "x", 1, 2);
  }

  /** The uses of the formals: both are recorded as they are evaluated. */
  lemma {:induction false} RecordFormals(F: seq<Event>, L: seq<seq<Expr>>)
    requires |F| > 2 && |L| > 2 && WellFormed(F, 2, |L|)
    requires F[0] == Instr(Use(1, "NUM", 0)) && F[1] == Instr(Use(1, "NUM", 1))
    requires L[0] == [Name("x")] && L[1] == [Name("y")]
    requires Location(F, 0, 0) == 0 && Location(F, 0, 1) == 1 && !Refused(F, 0, 0) && !Refused(F, 0, 1)
    ensures var B, M := RecordBound(), L[0 := [Number(2)]][1 := [Number(2)]];
      |B| == 2 && Chained(B) && Passed(B, L, F, 0, 2) == Some(Pass(RecordLeft(), M, [2, 2]))
  {
    RecordOperands();
    var B, C, D := RecordBound(), RecordWord(RecordBound(), 1, "x", 2), RecordLeft();
    assert |B| == |C| == |D| == 2;
    hide Passed, Location, Refused, OperandAt, Chained, Unbound, WellFormed, RecordBound, RecordLeft, RecordWord;
    StartPass(B, L, F);
    NextNum(B, L, F, 0, 1, 0, Pass(B, L, []), Name("x"), Evaluated(C, Number(2)));
    NextNum(B, L, F, 1, 1, 1, Pass(C, L[0 := [Number(2)]], [] + [2]), Name("y"), Evaluated(D, Number(2)));
    assert [] + [2] + [2] == [2, 2];
  }

  lemma {:induction false} RecordMarked(S: seq<Scope>, D: seq<Scope>, F: seq<Event>, L: seq<seq<Expr>>,
                                        M: seq<seq<Expr>>)
    requires |S| == |D| == 2 && Chained(S) && Chained(D) && |F| == 6 && |L| == |M| == 5 && WellFormed(F, 2, 5)
    requires Passed(S, L, F, 0, 2) == Some(Pass(D, M, [2, 2])) && M[3] == [Number(7)] && M[4] == [Number(8)]
    requires !F[2].Instr? && F[3] == Instr(Use(0, "NUM", 3)) && !F[4].Instr? && F[5] == Instr(Use(0, "NUM", 4))
    requires !Refused(F, 0, 3) && !Refused(F, 0, 5)
    ensures WordsPut(Passed(S, L, F, 0, 6)) == Some([2, 2, 0, 7, 0, 8])
  {
    hide Passed, Refused, Chained, WellFormed;
    NextMarked(S, L, F, 2, 0, 3, Pass(D, M, [2, 2]), 7);
    assert [2, 2] + [0, 7] == [2, 2, 0, 7];
    NextMarked(S, L, F, 4, 0, 4, Pass(D, M, [2, 2, 0, 7]), 8);
    assert [2, 2, 0, 7] + [0, 8] == [2, 2, 0, 7, 0, 8];
  }

  lemma {:induction false} RecordWords()
    ensures var B, F := RecordBound(), RecordTrace().events;
      && Chained(B) && |B| == 2 && WellFormed(F, 2, 5)
      && WordsPut(Passed(B, RECORD_LISTS, F, 0, 6)) == Some([2, 2, 0, 7, 0, 8])
  {
    hide Passed, Location, Refused, Address, Env, Unbound, RecordBound, RecordLeft;
    var F, L := RecordTrace().events, RECORD_LISTS;
    RecordLayout();
    DistinctLocations(F, 0);
    RecordFormals(F, L);
    RecordOperands();
    RecordMarked(RecordBound(), RecordLeft(), F, L, L[0 := [Number(2)]][1 := [Number(2)]]);
  }

  lemma {:induction false} RecordLabels()
    ensures Bound(RecordParsed(), RecordBound(), map[Tag(0, "a") := 2, Tag(0, "x") := 3])
  {}

  function RecordSource(): Source {
    Source(PairProgram(RECORD_REST), RECORD_LISTS, PAIR_RANK, 1)
  }

  /** The words put are 2, 2, 7 and 8, and the second should be 3: these contexts are not harmless. */
  lemma {:induction false} RecordRun()
    ensures Runs(RecordSource(), RecordItems(), Some([2, 2, 0, 7, 0, 8]))
    ensures var J := RecordSource().Root();
      Outermost(J) && Course(J).Some? && !Harmless(Assembled(J, NO_NAMES).bound)
  {
    NothingDefined();
    hide Parses, Bound, Env, Address, InRange, DistinctAddresses, Passed, BoundArguments, ContextScopes, FormalMap,
         Runs, Harmless;
    RecordParses(map[]);
    RecordLayout();
    RecordScopes();
    RecordWords();
    RecordHarms();
    var stmts, F := PairProgram(RECORD_REST), RecordTrace().events;
    OneCall(stmts, PAIR_FORMALS, [Name("a"), Name("x")], {});
    RecordLabels();
    ShapeDecidesAddresses(F, RecordItems(), 0);
    RunOf(RecordSource(), Expansion(RecordItems(), 2), RecordTrace(), RecordParsed(), RecordBound());
  }

  /** The kept y means 3 by its x, and would mean 2 once the formal x is a word. */
  lemma {:induction false} RecordHarms()
    ensures Chained(RecordBound()) && !Harmless(RecordBound())
  {
    var B := RecordBound();
    assert Chained(B);
    assert Mentions(B, 1, "y", "x");
    assert Den(B, 1, Name("a")) == Some(2) && Den(B, 1, Name("x")) == Some(3);
  }

  /** `pair a, x` assembles, to 2 where the text says 3. */
  method AssembleRecord() returns (ok: bool, section: Section)
    ensures ok && section.Valid() && section.org == 0
    ensures section.At(0).value == 2 && section.At(1).value == 2
    ensures section.At(2).value == 7 && section.At(3).value == 8
    ensures OwnWord(RecordItems(), 0, 1) == Some(3)
  {
    hide *;
    RecordRun();
    ghost var puts;
    ok, section, puts := AssembleKnown(RecordSource(), RecordItems(), Some([2, 2, 0, 7, 0, 8]));
    RecordMeans();
    RecordLayout();
    PlacedLike(section, RecordTrace().events, RecordItems(), puts, [2, 2, 0, 7, 0, 8]);
  }

  // ----- a label hides the formal it is called like -----

  /** The inner call binds its formal to 3 while it is being parsed. */
  function HidingParsed(): seq<Scope> {
    [NO_NAMES, Scope(Some(0), map["n" := WordSym(3)]), Scope(Some(1), map["v" := WordSym(3)])]
  }

  /** The label n, at 1, then takes the place of the outer formal. */
  function HidingBound(): seq<Scope> {
    [NO_NAMES, Scope(Some(0), map["n" := WordSym(1)]), Scope(Some(1), map["v" := WordSym(3)])]
  }

  lemma {:induction false} HidingContexts(stmts: seq<Stmt>)
    ensures var info := [RootInfo(stmts)] + HidingTrace().info;
      Made(info) && ContextScopes(NO_NAMES, info) == HidingParsed()
  {
    hide FormalMap, ContextScopes;
    var one := [RootInfo(stmts)] + [Applying(0, ["n"], [Number(3)], {"n"})];
    OneArgument([NO_NAMES], 0, "n", Number(3));
    OneCall(stmts, ["n"], [Number(3)], {"n"});
    var S := [NO_NAMES, Scope(Some(0), map["n" := WordSym(3)])];
    OneArgument(S, 1, "v", Name("n"));
    ContextScopesAdded(NO_NAMES, one, 1, ["v"], [Name("n")], {});
    assert [RootInfo(stmts)] + HidingTrace().info == one + [Applying(1, ["v"], [Name("n")], {})];
  }

  lemma {:induction false} HidingLayout()
    ensures var F := HidingTrace().events;
      && Address(F, 0, 0) == 0 && Address(F, 0, 1) == 1 && Address(F, 0, 2) == 1
      && InRange(F, 0) && DistinctAddresses(F, 0) && Env(F, 0) == map[Tag(1, "n") := 1]
    ensures var F := HidingTrace().events;
      SameShape(F, HidingItems()) && |F| == 3 && F[0].Instr? && F[2].Instr?
  {
    hide Address, Env;
    var F := HidingTrace().events;
    Steps(F, 0);
    Steps(F, 1);
    OneLabel(F, 1);
  }

  lemma {:induction false} HidingWords()
    ensures var B, F := HidingBound(), HidingTrace().events;
      && Chained(B) && WellFormed(F, 3, 4)
      && Passed(B, HIDING_LISTS, F, 0, 3).Some? && Passed(B, HIDING_LISTS, F, 0, 3).value.words == [3, 0, 0]
  {
    hide Passed, Address, Location, Refused, OperandAt;
    var B, F, L0 := HidingBound(), HidingTrace().events, HIDING_LISTS;
    HidingLayout();
    DistinctLocations(F, 0);
    assert Chained(B);
    var p0 := Pass(B, L0, []);
    StartPass(B, L0, F);
    WordOperand(B, 2, 0, "v", 3);
    NextNum(B, L0, F, 0, 2, 0, p0, Name("v"), Evaluated(B, Number(3)));
    var p1 := Pass(B, L0[0 := [Number(3)]], [] + [3]);
    NextMarked(B, L0, F, 1, 1, 2, p1, 0);
  }

  lemma {:induction false} HidingLabels()
    ensures Bound(HidingParsed(), HidingBound(), map[Tag(1, "n") := 1])
  {}

  function HidingSource(): Source {
    Source(HidingProgram(), HIDING_LISTS, HIDING_RANK, 2)
  }

  /** The first word put is 3, and should be 1. */
  lemma {:induction false} HidingRun()
    ensures Runs(HidingSource(), HidingItems(), Some([3, 0, 0]))
  {
    NothingDefined();
    hide Parses, Bound, Env, Address, InRange, DistinctAddresses, Passed, BoundArguments, ContextScopes, FormalMap,
         Runs, HidingProgram;
    HidingParses(map[]);
    HidingLayout();
    HidingWords();
    var stmts, F := HidingProgram(), HidingTrace().events;
    HidingContexts(stmts);
    HidingLabels();
    ShapeDecidesAddresses(F, HidingItems(), 0);
    RunOf(HidingSource(), Expansion(HidingItems(), 3), HidingTrace(), HidingParsed(), HidingBound());
  }

  /** `outer 3` assembles, to 3 where the text says 1. */
  method AssembleHiding() returns (ok: bool, section: Section)
    ensures ok && section.Valid() && section.org == 0
    ensures section.At(0).value == 3 && section.At(1).value == 0 && OwnWord(HidingItems(), 0, 0) == Some(1)
  {
    hide *;
    HidingRun();
    ghost var puts;
    ok, section, puts := AssembleKnown(HidingSource(), HidingItems(), Some([3, 0, 0]));
    HidingMeans();
    HidingLayout();
    PlacedLike(section, HidingTrace().events, HidingItems(), puts, [3, 0, 0]);
  }

  // ----- `$` as an argument -----

  function DollarParsed(): seq<Scope> {
    [NO_NAMES, Scope(Some(0), map["x" := AstSym(Name("$"))])]
  }

  /** The operand has no value in the context of the call, which is outside that of the location. */
  lemma {:induction false} DollarPass()
    ensures var B, F := DollarParsed(), DollarTrace().events;
      Chained(B) && WellFormed(F, 2, 2) && Passed(B, DOLLAR_LISTS, F, 0, 1) == None
  {
    hide Passed, Location, Refused, OperandAt;
    var B, F, L0 := DollarParsed(), DollarTrace().events, DOLLAR_LISTS;
    assert Chained(B);
    StartPass(B, L0, F);
    StuckOperand(B, 1, Location(F, 0, 0), "x", "$");
    NextFails(B, L0, F, 0, 1, 0, Pass(B, L0, []), Name("x"));
  }

  lemma {:induction false} DollarLayout()
    ensures var F := DollarTrace().events; Env(F, 0) == map[] && InRange(F, 0) && SameShape(F, DollarItems())
  {
    hide Address, Env;
    var F := DollarTrace().events;
    Steps(F, 0);
    forall l ensures l !in Env(F, 0) {
      EnvKeys(F, 0, l);
    }
  }

  function DollarSource(): Source {
    Source(DollarProgram(), DOLLAR_LISTS, WORD_RANK, 1)
  }

  /** The run fails, although every instruction of the expansion assembles. */
  lemma {:induction false} DollarRun()
    ensures Runs(DollarSource(), DollarItems(), None)
  {
    NothingDefined();
    hide Parses, Env, Address, InRange, Passed, BoundArguments, ContextScopes, FormalMap, Runs, DollarProgram;
    DollarParses(map[]);
    DollarLayout();
    DollarPass();
    var stmts, F := DollarProgram(), DollarTrace().events;
    OneArgument([NO_NAMES], 0, "x", Name("$"));
    OneCall(stmts, ["x"], [Name("$")], {});
    BoundNothing(DollarParsed());
    ShapeDecidesAddresses(F, DollarItems(), 0);
    RunOf(DollarSource(), Expansion(DollarItems(), 2), DollarTrace(), DollarParsed(), DollarParsed());
  }

  /** `word $` is rejected, although the text it stands for, `NUM $`, is not. */
  method AssembleDollar() returns (ok: bool, section: Section)
    ensures !ok && AllAssemble(DollarItems()) && OwnWord(DollarItems(), 0, 0) == Some(0)
  {
    hide *;
    DollarRun();
    ghost var puts;
    ok, section, puts := AssembleKnown(DollarSource(), DollarItems(), None);
    DollarMeans();
  }

  // ----- a macro applied to two words -----

  function TwiceParsed(): seq<Scope> {
    [NO_NAMES, Scope(Some(0), map["x" := WordSym(1)]), Scope(Some(0), map["x" := WordSym(2)])]
  }

  lemma {:induction false} TwiceContexts(stmts: seq<Stmt>)
    ensures var info := [RootInfo(stmts)] + TwiceTrace().info;
      Made(info) && ContextScopes(NO_NAMES, info) == TwiceParsed()
  {
    hide FormalMap, ContextScopes;
    var one := [RootInfo(stmts)] + [Applying(0, ["x"], [Number(1)], {})];
    OneArgument([NO_NAMES], 0, "x", Number(1));
    OneCall(stmts, ["x"], [Number(1)], {});
    var S := [NO_NAMES, Scope(Some(0), map["x" := WordSym(1)])];
    OneArgument(S, 0, "x", Number(2));
    ContextScopesAdded(NO_NAMES, one, 0, ["x"], [Number(2)], {});
    assert [RootInfo(stmts)] + TwiceTrace().info == one + [Applying(0, ["x"], [Number(2)], {})];
  }

  lemma {:induction false} TwiceLayout()
    ensures var F := TwiceTrace().events;
      && Address(F, 0, 0) == 0 && Address(F, 0, 1) == 1 && InRange(F, 0) && DistinctAddresses(F, 0)
      && Env(F, 0) == map[] && SameShape(F, TwiceItems()) && |F| == 2 && F[0].Instr? && F[1].Instr?
  {
    hide Address, Env;
    var F := TwiceTrace().events;
    Steps(F, 0);
    forall l ensures l !in Env(F, 0) {
      EnvKeys(F, 0, l);
    }
  }

  /** The first application's word has taken the operand's place when the second comes to it. */
  lemma {:induction false} TwiceWords()
    ensures var B, F := TwiceParsed(), TwiceTrace().events;
      && Chained(B) && WellFormed(F, 3, 3)
      && Passed(B, TWICE_LISTS, F, 0, 2).Some? && Passed(B, TWICE_LISTS, F, 0, 2).value.words == [1, 1]
  {
    hide Passed, Address, Location, Refused, OperandAt;
    var B, F, L0 := TwiceParsed(), TwiceTrace().events, TWICE_LISTS;
    TwiceLayout();
    DistinctLocations(F, 0);
    assert Chained(B);
    StartPass(B, L0, F);
    WordOperand(B, 1, 0, "x", 1);
    NextNum(B, L0, F, 0, 1, 0, Pass(B, L0, []), Name("x"), Evaluated(B, Number(1)));
    var p1 := Pass(B, L0[0 := [Number(1)]], [] + [1]);
    NumberOperand(B, 2, 1, 1);
    NextNum(B, L0, F, 1, 2, 0, p1, Number(1), Evaluated(B, Number(1)));
  }

  function TwiceSource(): Source {
    Source(TwiceProgram(), TWICE_LISTS, WORD_RANK, 1)
  }

  /** Both words put are 1, and the second should be 2. */
  lemma {:induction false} TwiceRun()
    ensures Runs(TwiceSource(), TwiceItems(), Some([1, 1]))
  {
    NothingDefined();
    hide Parses, Env, Address, InRange, DistinctAddresses, Passed, BoundArguments, ContextScopes, FormalMap, Runs,
         TwiceProgram;
    TwiceParses(map[]);
    TwiceLayout();
    TwiceWords();
    var stmts, F := TwiceProgram(), TwiceTrace().events;
    TwiceContexts(stmts);
    BoundNothing(TwiceParsed());
    ShapeDecidesAddresses(F, TwiceItems(), 0);
    RunOf(TwiceSource(), Expansion(TwiceItems(), 3), TwiceTrace(), TwiceParsed(), TwiceParsed());
  }

  /** `word 1` and `word 2` assemble to 1 and 1. */
  method AssembleTwice() returns (ok: bool, section: Section)
    ensures ok && section.Valid() && section.org == 0
    ensures section.At(0).value == 1 && section.At(1).value == 1 && OwnWord(TwiceItems(), 0, 1) == Some(2)
  {
    hide *;
    TwiceRun();
    ghost var puts;
    ok, section, puts := AssembleKnown(TwiceSource(), TwiceItems(), Some([1, 1]));
    TwiceMeans();
    TwiceLayout();
    PlacedLike(section, TwiceTrace().events, TwiceItems(), puts, [1, 1]);
  }

  // ----- overlapping instructions -----

  const NO_OPERANDS: seq<seq<Expr>> := [[], [], []]

  lemma SmallInRange(items: seq<FlatItem>)
    requires Length(items, 0) + 0x400 < TWO32
    ensures InRange(items, 0)
  {
    LengthBounds(items, 0);
  }

  lemma OverlappingFits()
    ensures Ranked(map[], 0, 3, OverlappingProgram())
    ensures var J := ProgramJob(NO_OPERANDS, map[], 0, OverlappingProgram());
      WellBehaved(J) && CaptureFree(J) && Goal(J) == Some(Expansion(OverlappingItems(), 1))
  {
    hide Hygienic, Expand, Traced, InRange;
    NothingDefined();
    OverlappingParses(map[]);
    OverlapLaidOut();
    SmallInRange(OverlappingItems());
    var stmts := OverlappingProgram();
    assert stmts[0..] == stmts;
    PlainHygienic(map[], NO_OPERANDS, stmts, [Frame({}, Labels(stmts))]);
  }

  /** Three instructions are assembled without complaint; the section has room for two words, of which the
      second is blank. */
  method AssembleOverlapping() returns (ok: bool, section: Section)
    ensures ok && section.Valid() && section.org == 0 && section.length == 2
    ensures section.At(0).owner.Some? && section.At(1) == BLANK
  {
    hide OverlappingProgram, OverlappingItems, WellBehaved, CaptureFree, Ranked, Goal, Owned,
         FlatAcceptable, AllAssemble, Address, Written, Length, DistinctAddresses, PutsWords, PutsAre, WordsOf, Holds;
    OverlappingFits();
    ghost var puts;
    ok, section, puts := AssembleProgram(OverlappingProgram(), NO_OPERANDS, map[], 0);
    OverlapAssembles();
    OverlapLosesWords(puts);
    FirstOwned(puts);
    OverlapLength(puts);
  }

  lemma OverlapLength(puts: seq<Cell>)
    requires Owned(OverlappingItems(), puts)
    ensures Written(OverlappingItems(), puts, 0, 2).length == 2
  {
    hide Written, Landing, Length;
    OverlapLaidOut();
    SmallInRange(OverlappingItems());
    WrittenLands(OverlappingItems(), puts, 0, 2);
  }

  lemma FirstOwned(puts: seq<Cell>)
    requires Owned(OverlappingItems(), puts)
    ensures puts[1].owner.Some?
  {
    assert OverlappingItems()[1].Instr?;
  }

  // ----- a loop applied twice -----

  /** Whether a list is free of capture, from whether its tail is. */
  lemma HygienicFirst(T: MnemonicTable, lists: seq<seq<Expr>>, rank: map<string, nat>, r: nat, s: Stmt, rest: seq<Stmt>,
                      chain: seq<Frame>)
    requires TableRanked(T, rank, |lists|) && StmtRanked(rank, r, |lists|, s) && Ranked(rank, r, |lists|, rest)
    ensures Ranked(rank, r, |lists|, [s] + rest)
    ensures s.LabelStmt? || (s.InstrStmt? && MacroOf(T, s.mnemonic).None?) ==>
      (Hygienic(T, lists, rank, r, [s] + rest, chain) <==> Hygienic(T, lists, rank, r, rest, chain))
    ensures s.MacroStmt? ==>
      && TableRanked(Define(T, s.name, s.formals, s.body), rank, |lists|)
      && (Hygienic(T, lists, rank, r, [s] + rest, chain)
          <==> Hygienic(Define(T, s.name, s.formals, s.body), lists, rank, r, rest, chain))
  {
    var stmts := [s] + rest;
    assert stmts[0] == s && stmts[1..] == rest;
    assert Ranked(rank, r, |lists|, stmts);
  }

  lemma HygienicApplied(T: MnemonicTable, lists: seq<seq<Expr>>, rank: map<string, nat>, r: nat, s: Stmt, m: Mnemonic,
                        rest: seq<Stmt>, chain: seq<Frame>)
    requires TableRanked(T, rank, |lists|) && StmtRanked(rank, r, |lists|, s) && Ranked(rank, r, |lists|, rest)
    requires s.InstrStmt? && MacroOf(T, s.mnemonic) == Some(m) && lists[s.cell] == [] && m.formals == []
    requires Libc.Fold(s.mnemonic) in rank && Ranked(rank, rank[Libc.Fold(s.mnemonic)], |lists|, m.body)
    requires Hygienic(T, lists, rank, rank[Libc.Fold(s.mnemonic)], m.body, chain + [Frame({}, Labels(m.body))])
    requires Hygienic(T, lists, rank, r, rest, chain)
    ensures Ranked(rank, r, |lists|, [s] + rest) && Hygienic(T, lists, rank, r, [s] + rest, chain)
  {
    var stmts := [s] + rest;
    assert stmts[0] == s && stmts[1..] == rest;
    assert Ranked(rank, r, |lists|, stmts);
    assert T[Libc.Fold(s.mnemonic)] == MnemSym(m);
    assert FormalMap([], []).Keys == {};
  }

  lemma LoopsHygienic(T: MnemonicTable, chain: seq<Frame>)
    requires NoMacros(T)
    ensures TableRanked(T, LOOP_RANK, 2) && Ranked(LOOP_RANK, 1, 2, LoopProgram())
    ensures Hygienic(T, LOOP_LISTS, LOOP_RANK, 1, LoopProgram(), chain)
  {
    hide TableRanked, Ranked, StmtRanked, Hygienic, Define;
    LowerCase();
    LoopRanked(T);
    var U := Define(T, "loop", [], LOOP_BODY);
    OneMacro(T, "loop", [], LOOP_BODY, "JMP");
    var call, m, inner := InstrStmt("loop", 1), Macro("loop", [], LOOP_BODY), chain + [Frame({}, Labels(LOOP_BODY))];
    NoneHygienic(U, LOOP_RANK, 0, inner);
    HygienicFirst(U, LOOP_LISTS, LOOP_RANK, 0, InstrStmt("JMP", 0), [], inner);
    HygienicFirst(U, LOOP_LISTS, LOOP_RANK, 0, LabelStmt("here"), [InstrStmt("JMP", 0)] + [], inner);
    assert LOOP_BODY == [LabelStmt("here")] + ([InstrStmt("JMP", 0)] + []);
    NoneHygienic(U, LOOP_RANK, 1, chain);
    HygienicApplied(U, LOOP_LISTS, LOOP_RANK, 1, call, m, [], chain);
    HygienicApplied(U, LOOP_LISTS, LOOP_RANK, 1, call, m, [call] + [], chain);
    HygienicFirst(T, LOOP_LISTS, LOOP_RANK, 1, MacroStmt("loop", [], LOOP_BODY), [call] + ([call] + []), chain);
  }

  lemma NoneHygienic(T: MnemonicTable, rank: map<string, nat>, r: nat, chain: seq<Frame>)
    requires TableRanked(T, rank, 2)
    ensures Ranked(rank, r, 2, []) && Hygienic(T, LOOP_LISTS, rank, r, [], chain)
  {}

  lemma LoopAddresses()
    ensures var items := TwoLoops();
      && Address(items, 0, 1) == 0 && Address(items, 0, 3) == 1
      && InRange(items, 0) && DistinctAddresses(items, 0)
  {
    hide Address;
    var items := TwoLoops();
    Steps(items, 0);
    Steps(items, 1);
    Steps(items, 2);
  }

  lemma LoopsFit()
    ensures Ranked(LOOP_RANK, 1, 2, LoopProgram())
    ensures var J := ProgramJob(LOOP_LISTS, LOOP_RANK, 1, LoopProgram());
      WellBehaved(J) && CaptureFree(J) && Goal(J) == Some(Expansion(TwoLoops(), 3))
  {
    hide Hygienic, Expand, Traced, InRange, TableRanked, Ranked, LoopProgram, TwoLoops;
    NothingDefined();
    TwoLoopsParse(map[]);
    LoopAddresses();
    var stmts := LoopProgram();
    assert stmts[0..] == stmts;
    LoopsHygienic(map[], [Frame({}, Labels(stmts))]);
  }

  /** A jump to a small address is that address. */
  lemma JumpWord(at: Word)
    requires at < 0x2000
    ensures Arch.FindInstr("JMP") == Some(Arch.MNEMONICS[0]) && CodeWord("JMP", at) == Some(at)
  {
    ArchTables.SameNameFinds(Arch.MNEMONICS[0]);
    Arch.EncodeValue(Arch.OP_JMP, 1, at);
    SmallMod(at, 0x2000);
    SmallMod(at, TWO32);
  }

  lemma LoopsAssemble()
    ensures var items := TwoLoops();
      && AllAssemble(items) && FlatWord(items, 0, 1) == Some(0) && FlatWord(items, 0, 3) == Some(0)
      && OwnWord(items, 0, 3) == Some(1)
  {
    hide OwnValue, SharedValue, CodeWord, Refused, Arch.FindInstr;
    SharedOperandGoesWrong();
    JumpWord(0);
    JumpWord(1);
    var items := TwoLoops();
    assert SharedValue(items, 0, 1) == Some(0) by { FirstLoop(); }
    forall j | 0 <= j < |items| && items[j].Instr? ensures FlatAssembles(items, 0, j) {
      assert j == 1 || j == 3;
    }
  }

  lemma FirstLoop()
    ensures SharedValue(TwoLoops(), 0, 1) == OwnValue(TwoLoops(), 0, 1)
  {
    FlatFirstUseIs(TwoLoops(), 0, 1);
  }

  /** The second loop, which should jump to 1, its own address, jumps to 0. */
  method AssembleLoops() returns (ok: bool, section: Section)
    ensures ok && section.Valid() && section.org == 0
    ensures section.At(0).value == 0 && section.At(1).value == 0 && OwnWord(TwoLoops(), 0, 3) == Some(1)
  {
    hide LoopProgram, TwoLoops, WellBehaved, CaptureFree, Ranked, Goal, Owned, FlatAcceptable,
         AllAssemble, FlatWord, OwnWord, Address, InRange, DistinctAddresses, Written, Length, WordsOf, PutsAre;
    LoopsFit();
    ghost var puts;
    ok, section, puts := AssembleProgram(LoopProgram(), LOOP_LISTS, LOOP_RANK, 1);
    LoopsAssemble();
    LoopAddresses();
    LoopShape();
  }

  lemma LoopShape()
    ensures |TwoLoops()| == 4 && TwoLoops()[1].Instr? && TwoLoops()[3].Instr?
  {}
}
