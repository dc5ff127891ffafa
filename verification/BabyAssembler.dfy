/** The assembler as a whole: macro expansion and both passes against the meaning of the expanded text. */
module BabyAssembler {
  import opened Words
  import opened Wrappers
  import opened Ast
  import opened Scopes
  import opened Symbols
  import opened Sections
  import opened Layout
  import opened Overlap
  import opened Macros
  import opened Records
  import opened SecondPass
  import opened Passes
  import opened Hygiene
  import opened Expansions
  import opened Traces
  import opened ParseSteps
  import opened CallContexts
  import opened StatementParser
  import Arch

  // ----- the meaning of an expanded program -----

  /** The first instruction of the expansion that came from the given operand list. */
  function FlatFirstUse(items: seq<FlatItem>, cell: nat): (f: nat)
    ensures f <= |items|
  {
    if items == [] then 0
    else if items[0].Instr? && items[0].payload.cell == cell then 0
    else 1 + FlatFirstUse(items[1..], cell)
  }

  /** The operand of an instruction of the expansion; zero if it has none. */
  function OperandValue(env: map<Ident, Word>, at: Word, operands: seq<FlatExpr>): Option<Word> {
    if operands == [] then Some(0) else DenFlat(env, at, operands[0])
  }

  /** The value instruction j should have. */
  function OwnValue(items: seq<FlatItem>, start: Word, j: nat): Option<Word>
    requires j < |items| && items[j].Instr?
  {
    OperandValue(Env(items, start), Location(items, start, j), items[j].payload.operands)
  }

  /** The value instruction j gets: that of the first instruction to share its operand list. */
  function SharedValue(items: seq<FlatItem>, start: Word, j: nat): Option<Word>
    requires j < |items| && items[j].Instr?
  {
    var f := FlatFirstUse(items, items[j].payload.cell);
    if f < |items| && items[f].Instr? then OwnValue(items, start, f) else None
  }

  /** Whatever its operand means, instruction j can be assembled. */
  ghost predicate FlatAcceptable(items: seq<FlatItem>, start: Word, j: nat)
    requires j < |items| && items[j].Instr?
  {
    var f := items[j].payload;
    && |f.operands| <= 1
    && Arch.FindInstr(f.mnemonic).Some?
    && (Arch.FindInstr(f.mnemonic).value.Directive? ==> !Refused(items, start, j))
  }

  /** Instruction j assembles. */
  ghost predicate FlatAssembles(items: seq<FlatItem>, start: Word, j: nat)
    requires j < |items| && items[j].Instr?
  {
    FlatAcceptable(items, start, j) && SharedValue(items, start, j).Some?
  }

  /** The word instruction j assembles to. */
  function FlatWord(items: seq<FlatItem>, start: Word, j: nat): Option<Word>
    requires j < |items| && items[j].Instr?
  {
    var v := SharedValue(items, start, j);
    if v.None? then None else CodeWord(items[j].payload.mnemonic, v.value)
  }

  /** The word instruction j should assemble to. */
  function OwnWord(items: seq<FlatItem>, start: Word, j: nat): Option<Word>
    requires j < |items| && items[j].Instr?
  {
    var v := OwnValue(items, start, j);
    if v.None? then None else CodeWord(items[j].payload.mnemonic, v.value)
  }

  /** The section holds the program: each word at its address, zeros between, and nothing above. */
  ghost predicate Holds(section: Section, items: seq<FlatItem>, start: Word)
    reads section, section.data
  {
    && section.org == 0 && section.length == Length(items, start)
    && (forall j :: 0 <= j < |items| && items[j].Instr? ==>
          Some(section.At(Address(items, start, j)).value) == FlatWord(items, start, j))
    && forall a: nat :: section.At(a) != BLANK ==>
         exists j :: 0 <= j < |items| && items[j].Instr? && Address(items, start, j) == a
  }

  /** Instructions j < k come from one operand list. */
  ghost predicate Share(items: seq<FlatItem>, j: int, k: int) {
    0 <= j < k < |items| && items[j].Instr? && items[k].Instr? && items[j].payload.cell == items[k].payload.cell
  }

  /** The code gives every instruction its own operand's value if and only if instructions that share
      an operand list agree on it. */
  lemma SharingExact(items: seq<FlatItem>, start: Word)
    ensures (forall j :: 0 <= j < |items| && items[j].Instr? ==>
               SharedValue(items, start, j) == OwnValue(items, start, j))
       <==> (forall j, k :: Share(items, j, k) ==> OwnValue(items, start, j) == OwnValue(items, start, k))
  {
    forall j | 0 <= j < |items| && items[j].Instr?
      ensures var f := FlatFirstUse(items, items[j].payload.cell);
        f <= j && items[f].Instr? && (f == j || Share(items, f, j))
    {
      FlatFirstUseIs(items, items[j].payload.cell, j);
    }
  }

  function Ids(e: FlatExpr): set<Ident> {
    match e
    case FNumber(_) => {}
    case FName(id) => {id}
    case FMinus(l, r) => Ids(l) + Ids(r)
    case FPlus(l, r) => Ids(l) + Ids(r)
  }

  lemma {:induction false} NoLocation(env: map<Ident, Word>, a: Word, b: Word, e: FlatExpr)
    requires User("$") !in Ids(e)
    ensures DenFlat(env, a, e) == DenFlat(env, b, e)
    decreases e
  {
    match e
    case FNumber(_) =>
    case FName(_) =>
    case FMinus(l, r) =>
      NoLocation(env, a, b, l);
      NoLocation(env, a, b, r);
    case FPlus(l, r) =>
      NoLocation(env, a, b, l);
      NoLocation(env, a, b, r);
  }

  /** Sharing does no harm to operands that read the same in every application and do not mention `$`. */
  lemma SharingHarmless(items: seq<FlatItem>, start: Word)
    requires forall j, k :: Share(items, j, k) ==>
      && items[j].payload.operands == items[k].payload.operands
      && (items[j].payload.operands != [] ==> User("$") !in Ids(items[j].payload.operands[0]))
    ensures forall j :: 0 <= j < |items| && items[j].Instr? ==>
      SharedValue(items, start, j) == OwnValue(items, start, j)
  {
    hide SharedValue, Location, Env;
    forall j, k | Share(items, j, k) ensures OwnValue(items, start, j) == OwnValue(items, start, k)
    {
      if items[j].payload.operands != [] {
        NoLocation(Env(items, start), Location(items, start, j), Location(items, start, k),
                   items[j].payload.operands[0]);
      }
    }
    SharingExact(items, start);
  }

  lemma {:induction false} FlatFirstUseIs(items: seq<FlatItem>, cell: nat, j: nat)
    requires j < |items| && items[j].Instr? && items[j].payload.cell == cell
    ensures var f := FlatFirstUse(items, cell); f <= j && items[f].Instr? && items[f].payload.cell == cell
  {
    if !(items[0].Instr? && items[0].payload.cell == cell) {
      FlatFirstUseIs(items[1..], cell, j - 1);
    }
  }

  // ----- records and expansion side by side -----

  lemma {:induction false} EnvKeys<L, P>(items: seq<Item<L, P>>, start: Word, l: L)
    ensures l in Env(items, start) <==> Label(l) in items
  {
    if items != [] {
      var n := |items| - 1;
      EnvKeys(items[..n], start, l);
      assert items == items[..n] + [items[n]];
    }
  }

  lemma RelShape(info: seq<Info>, lists: seq<seq<Expr>>, F: seq<Event>)
    requires InfoOk(info) && WellFormed(F, |info|, |lists|)
    ensures SameShape(F, Rel(info, lists, 0, F))
  {
    var items := Rel(info, lists, 0, F);
    forall j | 0 <= j < |F|
      ensures F[j].Org? == items[j].Org? && F[j].Label? == items[j].Label? && (F[j].Org? ==> F[j].at == items[j].at)
    {
      assert items[j] == RelItem(info, lists, 0, F[j]);
    }
  }

  lemma RelInit(info: seq<Info>, lists: seq<seq<Expr>>, F: seq<Event>)
    requires InfoOk(info) && WellFormed(F, |info|, |lists|) && F != []
    ensures var n := |F| - 1;
      && WellFormed(F[..n], |info|, |lists|)
      && Rel(info, lists, 0, F)[..n] == Rel(info, lists, 0, F[..n])
  {
    assert WellFormed(F[..|F| - 1], |info|, |lists|);
  }

  /** The labels of the records and of the expansion have the same addresses. */
  lemma {:induction false} EnvAgrees(info: seq<Info>, lists: seq<seq<Expr>>, F: seq<Event>, start: Word, c: nat,
                                     n: string)
    requires InfoOk(info) && WellFormed(F, |info|, |lists|)
    ensures var env := Env(Rel(info, lists, 0, F), start);
      && (Tag(c, n) in Env(F, start) <==> Absolute(c, n) in env)
      && (Tag(c, n) in Env(F, start) ==> env[Absolute(c, n)] == Env(F, start)[Tag(c, n)])
    decreases |F|
  {
    if F != [] {
      hide RelItem, Cursor;
      var m := |F| - 1;
      RelInit(info, lists, F);
      EnvAgrees(info, lists, F[..m], start, c, n);
      RelShape(info, lists, F[..m]);
      ShapeDecidesLayout(F[..m], Rel(info, lists, 0, F[..m]), start);
      LastItem(info, lists, F[m]);
    }
  }

  lemma LastItem(info: seq<Info>, lists: seq<seq<Expr>>, ev: Event)
    requires InfoOk(info) && WellFormed([ev], |info|, |lists|)
    ensures ev.Label? ==> RelItem(info, lists, 0, ev) == Label(Absolute(ev.name.ctx, ev.name.name))
    ensures !ev.Label? ==> !RelItem(info, lists, 0, ev).Label?
  {}

  /** After pass_one the contexts hold exactly the labels of the expansion. */
  lemma PassOneBinds(S: seq<Scope>, T: seq<Scope>, info: seq<Info>, lists: seq<seq<Expr>>, F: seq<Event>, start: Word)
    requires InfoOk(info) && WellFormed(F, |info|, |lists|) && |S| == |info| && Bound(S, T, Env(F, start))
    requires Placed(info, 0, F)
    requires forall c :: 0 <= c < |info| ==> Present(info[c].labels, c, F)
    ensures var env := Env(Rel(info, lists, 0, F), start);
      BindsLabels(info, env) && LabelsBound(S, T, info, env)
  {
    var tags, env := Env(F, start), Env(Rel(info, lists, 0, F), start);
    forall c, n | 0 <= c < |info|
      ensures n in info[c].labels <==> Tag(c, n) in tags
      ensures Tag(c, n) in tags <==> Absolute(c, n) in env
      ensures Tag(c, n) in tags ==> env[Absolute(c, n)] == tags[Tag(c, n)]
    {
      hide Env;
      EnvAgrees(info, lists, F, start, c, n);
      EnvKeys(F, start, Tag(c, n));
      if n in info[c].labels {
        assert Present(info[c].labels, c, F);
      }
      if Label(Tag(c, n)) in F {
        var j :| 0 <= j < |F| && F[j] == Label(Tag(c, n));
        assert EventContext(F[j], 0) == c;
      }
    }
  }

  lemma {:induction false} SameFirstUse(info: seq<Info>, lists: seq<seq<Expr>>, F: seq<Event>, cell: nat)
    requires InfoOk(info) && WellFormed(F, |info|, |lists|)
    ensures FlatFirstUse(Rel(info, lists, 0, F), cell) == FirstUse(F, cell)
    decreases |F|
  {
    if F != [] {
      var items := Rel(info, lists, 0, F);
      assert items[0] == RelItem(info, lists, 0, F[0]);
      assert WellFormed(F[1..], |info|, |lists|);
      assert items[1..] == Rel(info, lists, 0, F[1..]);
      SameFirstUse(info, lists, F[1..], cell);
    }
  }

  /** An operand evaluated at item f has the value of its substituted form there. */
  lemma OperandAgrees(S: seq<Scope>, T: seq<Scope>, info: seq<Info>, lists: seq<seq<Expr>>, F: seq<Event>, start: Word,
                      f: nat)
    requires InfoOk(info) && Built(S, info) && Clean(info) && Chained(T) && |T| == |info| == |S|
    requires WellFormed(F, |info|, |lists|) && f < |F| && F[f].Instr? && lists[F[f].payload.cell] != []
    requires var env := Env(Rel(info, lists, 0, F), start); BindsLabels(info, env) && LabelsBound(S, T, info, env)
    ensures var items := Rel(info, lists, 0, F);
      items[f].Instr? && DenAt(T, F[f].payload.ctx, Location(F, start, f), lists[F[f].payload.cell][0])
                         == OwnValue(items, start, f)
  {
    hide Env, Location, BindsLabels, LabelsBound, Built, Clean, DenAt, DenFlat, Outward, Lift;
    var items, u := Rel(info, lists, 0, F), F[f].payload;
    assert items[f] == RelItem(info, lists, 0, F[f]);
    RelShape(info, lists, F);
    ShapeDecidesLocations(F, items, start);
    OperandMeans(S, T, info, Env(items, start), Location(F, start, f), u.ctx, lists[u.cell][0]);
  }

  /** What the second pass computes for an operand list is the value in the expansion. */
  lemma ValuesAgree(S: seq<Scope>, T: seq<Scope>, info: seq<Info>, lists: seq<seq<Expr>>, F: seq<Event>, start: Word,
                    j: nat)
    requires InfoOk(info) && Built(S, info) && Clean(info) && Chained(T) && |T| == |info| == |S|
    requires WellFormed(F, |info|, |lists|) && j < |F| && F[j].Instr?
    requires var env := Env(Rel(info, lists, 0, F), start); BindsLabels(info, env) && LabelsBound(S, T, info, env)
    ensures var items := Rel(info, lists, 0, F);
      && items[j].Instr? && items[j].payload.mnemonic == F[j].payload.mnemonic
      && |items[j].payload.operands| == |lists[F[j].payload.cell]|
      && ListValue(T, lists, F, start, F[j].payload.cell) == SharedValue(items, start, j)
  {
    hide Env, Location, BindsLabels, LabelsBound, Built, Clean, DenAt, DenFlat, Outward, OutwardAll, Lift;
    var items, cell := Rel(info, lists, 0, F), F[j].payload.cell;
    assert items[j] == RelItem(info, lists, 0, F[j]);
    SameFirstUse(info, lists, F, cell);
    var f := FirstUse(F, cell);
    assert f <= j;
    assert items[f] == RelItem(info, lists, 0, F[f]);
    if lists[cell] != [] {
      OperandAgrees(S, T, info, lists, F, start, f);
    }
  }

  /** Instruction by instruction, records and expansion are acceptable together. */
  lemma AcceptableAgree(info: seq<Info>, lists: seq<seq<Expr>>, F: seq<Event>, start: Word)
    requires InfoOk(info) && WellFormed(F, |info|, |lists|)
    ensures var items := Rel(info, lists, 0, F);
      && |items| == |F|
      && forall j :: 0 <= j < |F| ==>
           && F[j].Instr? == items[j].Instr?
           && (F[j].Instr? ==> (Acceptable(lists, F, start, j) <==> FlatAcceptable(items, start, j)))
  {
    hide Refused, OutwardAll, Arch.FindInstr;
    var items := Rel(info, lists, 0, F);
    RelShape(info, lists, F);
    ShapeDecidesLocations(F, items, start);
    forall j | 0 <= j < |F| && F[j].Instr?
      ensures items[j].Instr? && items[j].payload.mnemonic == F[j].payload.mnemonic
      ensures |items[j].payload.operands| == |lists[F[j].payload.cell]|
    {
      assert items[j] == RelItem(info, lists, 0, F[j]);
    }
  }

  lemma ProgramAgrees(S: seq<Scope>, T: seq<Scope>, info: seq<Info>, lists: seq<seq<Expr>>, F: seq<Event>, start: Word)
    requires InfoOk(info) && Built(S, info) && Clean(info) && Chained(T) && |T| == |info| == |S|
    requires WellFormed(F, |info|, |lists|)
    requires var env := Env(Rel(info, lists, 0, F), start); BindsLabels(info, env) && LabelsBound(S, T, info, env)
    ensures var items := Rel(info, lists, 0, F);
      && (forall j :: 0 <= j < |F| ==> F[j].Instr? == items[j].Instr?)
      && (forall j :: 0 <= j < |F| && F[j].Instr? ==>
            && (Assembles(T, lists, F, start, j) <==> FlatAssembles(items, start, j))
            && ItemWord(T, lists, F, start, j) == FlatWord(items, start, j))
  {
    hide Rel, Env, BindsLabels, LabelsBound, Built, Clean, ListValue, SharedValue, Acceptable, FlatAcceptable, CodeWord;
    var items := Rel(info, lists, 0, F);
    AcceptableAgree(info, lists, F, start);
    forall j | 0 <= j < |F| && F[j].Instr?
      ensures items[j].Instr?
      ensures Assembles(T, lists, F, start, j) <==> FlatAssembles(items, start, j)
      ensures ItemWord(T, lists, F, start, j) == FlatWord(items, start, j)
    {
      ValuesAgree(S, T, info, lists, F, start, j);
    }
  }

  // ----- the assembler -----

  /** The state the parser leaves: only the root context, with the mnemonics and no label defined. */
  ghost predicate Initial(syms: SymbolStore, T: MnemonicTable)
    reads syms
  {
    && syms.Valid() && |syms.contexts| == 1
    && syms.contexts[0].parent == None && syms.contexts[0].labels.Some? && syms.contexts[0].mnemonics.Some?
    && syms.Scopes(MnemonicType)[0].syms == T
    && forall n :: n in syms.Scopes(LabelType)[0].syms ==> syms.Scopes(LabelType)[0].syms[n].UndefSym?
  }

  function RootInfo(program: seq<Stmt>): Info {
    Applying(0, [], [], Labels(program))
  }

  /** The outermost call of parse_stmts. */
  function RootJob(T: MnemonicTable, lists: seq<seq<Expr>>, rank: map<string, nat>, r: nat, program: seq<Stmt>): Job {
    Job(T, lists, rank, r, 0, program, 1)
  }

  /** The same when nothing but machine instructions and directives is defined. */
  function ProgramJob(lists: seq<seq<Expr>>, rank: map<string, nat>, r: nat, program: seq<Stmt>): Job {
    RootJob(map[], lists, rank, r, program)
  }

  /** A root without names. */
  const NO_NAMES := Scope(None, map[])

  ghost predicate Outermost(J: Job) {
    JobOk(J) && J.ctx == 0 && J.k == 1
  }

  /** Macro calls can be ranked, and the expanded program is small enough for the section to hold it. */
  ghost predicate WellBehaved(J: Job) {
    Outermost(J) && (Goal(J).Some? ==> InRange(Goal(J).value.items, 0))
  }

  /** No call reached by the expansion captures a name. */
  ghost predicate CaptureFree(J: Job) {
    JobOk(J) && Hygienic(J.T, J.lists, J.rank, J.r, J.stmts, [Frame({}, Labels(J.stmts))])
  }

  // ----- a run of the assembler -----

  /** What a run goes through: the contexts, their scopes as parsed and with the labels bound, and the events
      of the records. */
  datatype Assembly = Assembly(info: seq<Info>, parsed: seq<Scope>, bound: seq<Scope>, events: seq<Event>)

  /** The run on a program, over the root the parser has left. */
  ghost function Assembled(J: Job, root: Scope): (run: Assembly)
    requires Outermost(J) && Course(J).Some? && root.parent == None
    ensures InfoOk(run.info) && |run.bound| == |run.parsed| == |run.info| && Chained(run.bound)
    ensures WellFormed(run.events, |run.bound|, |J.lists|)
  {
    var t := Course(J).value;
    var info := [RootInfo(J.stmts)] + t.info;
    CourseOk(J);
    var parsed := ContextScopes(root, info);
    var bound := BindAll(parsed, Env(t.events, 0));
    Assembly(info, parsed, bound, t.events)
  }

  lemma CourseOk(J: Job)
    requires Outermost(J) && Course(J).Some?
    ensures var info := [RootInfo(J.stmts)] + Course(J).value.info;
      && Made(info) && WellFormed(Course(J).value.events, |info|, |J.lists|)
      && Goal(J).Some? && Realises([RootInfo(J.stmts)], Course(J).value, J.lists, 0, Labels(J.stmts), Goal(J).value)
  {
    hide Traced, Expand, Labels, TableRanked, Ranked;
    var root := [RootInfo(J.stmts)];
    assert Made(root) && InfoOk(root);
    TraceMade(J.T, J.lists, J.rank, J.r, J.stmts, 0, root);
    CourseExpands(J, root);
  }

  lemma NoCourse(J: Job)
    requires Outermost(J) && Course(J) == None
    ensures Goal(J) == None
  {
    hide Traced, Expand, Labels, TableRanked, Ranked;
    assert InfoOk([RootInfo(J.stmts)]);
    CourseExpands(J, [RootInfo(J.stmts)]);
  }

  /** The words the run puts, one for each event; None if it fails. */
  ghost function WordsOf(J: Job, root: Scope): (words: Option<seq<Word>>)
    requires Outermost(J) && root.parent == None
    ensures words.Some? ==> Course(J).Some? && |words.value| == |Assembled(J, root).events|
  {
    if Course(J) == None then None
    else
      var run := Assembled(J, root);
      match Passed(run.bound, J.lists, run.events, 0, |run.events|)
      case None => None
      case Some(p) => Some(p.words)
  }

  /** The events of a run are the items of the expansion. */
  lemma RunExpands(J: Job, root: Scope)
    requires Outermost(J) && Course(J).Some? && root.parent == None
    ensures var run := Assembled(J, root);
      && Goal(J).Some? && Rel(run.info, J.lists, 0, run.events) == Goal(J).value.items
      && Placed(run.info, 0, run.events)
      && forall c :: 0 <= c < |run.info| ==> Present(run.info[c].labels, c, run.events)
  {
    hide Labels, TableRanked, Ranked, Rel, Placed, Present, WellFormed, ContextScopes;
    CourseOk(J);
    var run := Assembled(J, root);
    assert run.info[0] == RootInfo(J.stmts);
    forall c | 0 <= c < |run.info| ensures Present(run.info[c].labels, c, run.events) {
      assert c == 0 || 1 <= c;
    }
  }

  /** Where memoisation is harmless, the run succeeds exactly when every operand means something in the bound
      contexts, and puts the words of those meanings. */
  lemma HarmlessWords(J: Job, root: Scope)
    requires Outermost(J) && Course(J).Some? && root.parent == None && Harmless(Assembled(J, root).bound)
    ensures var run := Assembled(J, root);
      && (WordsOf(J, root).Some? <==> AllAssembles(run.bound, J.lists, run.events, 0, |run.events|))
      && (WordsOf(J, root).Some? ==> forall j :: 0 <= j < |run.events| && run.events[j].Instr? ==>
            Some(WordsOf(J, root).value[j]) == ItemWord(run.bound, J.lists, run.events, 0, j))
  {
    hide Assembled, Harmless, AllAssembles, ItemWord, Passed;
    var run := Assembled(J, root);
    PassMeans(run.bound, J.lists, run.events, 0, |run.events|);
  }

  /** Without capture, it succeeds exactly when every instruction of the expansion assembles, and puts those
      instructions' words. */
  lemma CaptureFreeWords(J: Job, root: Scope)
    requires Outermost(J) && Course(J).Some? && Unbound(root) && CaptureFree(J) && Goal(J).Some?
    ensures Harmless(Assembled(J, root).bound)
    ensures var items := Goal(J).value.items;
      && |items| == |Assembled(J, root).events|
      && (WordsOf(J, root).Some? <==> AllAssemble(items))
      && (WordsOf(J, root).Some? ==> PutsWords(items, WordsOf(J, root).value))
  {
    hide Harmless, WordsOf, Rel, Placed, Present, Clean, Built, Bound, Env, Assembles, ItemWord, FlatAssembles,
         FlatWord, BindsLabels, LabelsBound;
    var run := Assembled(J, root);
    RunSound(J, root);
    RunExpands(J, root);
    Ready(run.parsed, run.bound, run.info, J.lists, run.events);
    HarmlessWords(J, root);
    ProgramAgrees(run.parsed, run.bound, run.info, J.lists, run.events, 0);
  }

  lemma RunSound(J: Job, root: Scope)
    requires Outermost(J) && Course(J).Some? && Unbound(root) && CaptureFree(J)
    ensures var run := Assembled(J, root);
      Built(run.parsed, run.info) && Clean(run.info) && Bound(run.parsed, run.bound, Env(run.events, 0))
  {
    hide Traced, Labels, TableRanked, Ranked, Hygienic, Env;
    RootSound(J.stmts, root);
    RootChain(J.stmts);
    TraceSound(J.T, J.lists, J.rank, J.r, J.stmts, 0, [RootInfo(J.stmts)], root);
  }

  lemma RootSound(program: seq<Stmt>, root: Scope)
    requires Unbound(root)
    ensures Sound(root, [RootInfo(program)])
  {
    assert Made([RootInfo(program)]);
    assert ContextScopes(root, [RootInfo(program)]) == [root];
  }

  lemma RootChain(program: seq<Stmt>)
    ensures InfoOk([RootInfo(program)])
    ensures Chain([RootInfo(program)], 0) == [Frame({}, Labels(program))]
  {
    assert RootInfo(program).formals.Keys == {};
  }

  /** What the assembler guarantees of an expanded program whatever its names mean: the section is what
      putting one word an instruction makes it, and every instruction was acceptable. */
  ghost predicate Placing(section: Section, items: seq<FlatItem>, puts: seq<Cell>)
    reads section, section.data
  {
    && section.Valid() && Owned(items, puts)
    && section.Is(Written(items, puts, 0, Length(items, 0)))
    && forall j :: 0 <= j < |items| && items[j].Instr? ==> FlatAcceptable(items, 0, j)
  }

  /** Every instruction of the expansion assembles. */
  ghost predicate AllAssemble(items: seq<FlatItem>) {
    forall j :: 0 <= j < |items| && items[j].Instr? ==> FlatAssembles(items, 0, j)
  }

  /** The words are those the instructions assemble to. */
  ghost predicate PutsWords(items: seq<FlatItem>, words: seq<Word>) {
    |words| == |items| && forall j :: 0 <= j < |items| && items[j].Instr? ==> Some(words[j]) == FlatWord(items, 0, j)
  }

  /** Both passes over parsed records, against the items they stand for. */
  method TwoPasses(asm: Assembler, ghost S: seq<Scope>, ghost info: seq<Info>, ghost lists: seq<seq<Expr>>,
                   ghost F: seq<Event>)
    returns (ok: bool, ghost puts: seq<Cell>)
    requires asm.Valid() && S == asm.syms.Scopes(LabelType) && F == AllEvents(asm.records) && lists == asm.lists
    requires asm.section.org == 0 && asm.section.length == 0 && asm.section.cursor == 0
    requires forall a: nat :: asm.section.At(a) == BLANK
    requires InfoOk(info) && |S| == |info| && Chained(BindAll(S, Env(F, 0)))
    requires WellFormed(F, |info|, |lists|) && InRange(Rel(info, lists, 0, F), 0)
    modifies asm.syms, asm`lists, asm.section, asm.section.data
    ensures var p := Passed(BindAll(S, Env(F, 0)), lists, F, 0, |F|);
      (ok <==> p.Some?) && (ok ==> PutsAre(puts, p.value.words))
    ensures ok ==> Placing(asm.section, Rel(info, lists, 0, F), puts)
    ensures asm.section.data == old(asm.section.data) || fresh(asm.section.data)
  {
    hide ScopesOf, ContextsOk, Bound, Owned, FlatAcceptable, Acceptable, InRange, Rel, Length, Env, LabelTables,
         Written, Passed, BindAll, PutsAre;
    RelShape(info, lists, F);
    ShapeDecidesAddresses(F, Rel(info, lists, 0, F), 0);
    asm.PassOne();
    ghost var U := asm.syms.Scopes(LabelType);
    BoundUnique(S, U, Env(F, 0));
    var rc;
    rc, puts := asm.Assemble(U, lists, F, 0);
    if rc.Ok? {
      AcceptableAgree(info, lists, F, 0);
      forall j | 0 <= j < |F| && F[j].Instr? ensures Acceptable(lists, F, 0, j) {
        PassAccepts(U, lists, F, 0, |F|, j);
      }
      SamePlacing(F, Rel(info, lists, 0, F), puts, |asm.records|);
    }
    ok := rc.Ok?;
  }

  lemma {:induction false} ShapeDecidesWritten<L, P, M, Q>(a: seq<Item<L, P>>, b: seq<Item<M, Q>>, puts: seq<Cell>,
                                                           start: Word, length: nat)
    requires SameShape(a, b) && |puts| == |a|
    ensures Written(a, puts, start, length) == Written(b, puts, start, length)
  {
    if a != [] {
      var n := |a| - 1;
      ShapeDecidesWritten(a[..n], b[..n], puts[..n], start, length);
    }
  }

  lemma SamePlacing(F: seq<Event>, items: seq<FlatItem>, puts: seq<Cell>, bound: nat)
    requires SameShape(F, items) && Owners(F, puts, bound)
    ensures Owned(items, puts) && Length(items, 0) == Length(F, 0)
    ensures Written(items, puts, 0, Length(items, 0)) == Written(F, puts, 0, Length(F, 0))
  {
    ShapeDecidesWritten(F, items, puts, 0, Length(F, 0));
    ShapeDecidesLayout(F, items, 0);
  }

  /** The scopes pass_one leaves are ready for the second pass. */
  lemma Ready(S: seq<Scope>, U: seq<Scope>, info: seq<Info>, lists: seq<seq<Expr>>, F: seq<Event>)
    requires InfoOk(info) && Built(S, info) && Clean(info) && |S| == |info|
    requires WellFormed(F, |info|, |lists|) && Placed(info, 0, F)
    requires forall c :: 0 <= c < |info| ==> Present(info[c].labels, c, F)
    requires Bound(S, U, Env(F, 0))
    ensures |U| == |S| && Chained(U) && Harmless(U)
    ensures var env := Env(Rel(info, lists, 0, F), 0); BindsLabels(info, env) && LabelsBound(S, U, info, env)
  {
    hide Env, Built, Clean, Placed, Present, Rel, BindsLabels, LabelsBound, Harmless, NoCapture;
    PassOneBinds(S, U, info, lists, F, 0);
    BoundNoCapture(S, U, info, Env(Rel(info, lists, 0, F), 0));
  }

  lemma InitialContexts(syms: SymbolStore, T: MnemonicTable, program: seq<Stmt>)
    requires Initial(syms, T)
    ensures |syms.Scopes(LabelType)| == 1 && Unbound(syms.Scopes(LabelType)[0])
    ensures Contexts(syms, syms.Scopes(LabelType)[0], [RootInfo(program)], T)
  {
    var S := syms.Scopes(LabelType);
    assert Made([RootInfo(program)]);
    assert ContextScopes(S[0], [RootInfo(program)]) == [S[0]];
  }

  /** Everything `bas` does between parsing and writing, for every ranked program that fits.

      It ends, and it is the run on values: it succeeds exactly when that has words, puts them, and the section
      is what putting them makes it. Where no call captures a name it therefore succeeds exactly when every
      application expands and every instruction of the expansion assembles, and the words are those
      instructions' words; and where no addresses coincide either, each lies at its address. */
  method Assemble(syms: SymbolStore, program: seq<Stmt>, lists: seq<seq<Expr>>, ghost J: Job)
    returns (ok: bool, section: Section, ghost puts: seq<Cell>)
    requires Initial(syms, J.T) && J.stmts == program && J.lists == lists && WellBehaved(J)
    modifies syms
    ensures fresh(section) && fresh(section.data)
    ensures var root := old(syms.Scopes(LabelType)[0]);
      && Unbound(root) && (ok <==> WordsOf(J, root).Some?)
      && (ok ==> PutsAre(puts, WordsOf(J, root).value))
    ensures ok ==> Goal(J).Some? && Placing(section, Goal(J).value.items, puts)
    ensures CaptureFree(J) ==> (ok <==> Goal(J).Some? && AllAssemble(Goal(J).value.items))
    ensures CaptureFree(J) && ok && DistinctAddresses(Goal(J).value.items, 0) ==> Holds(section, Goal(J).value.items, 0)
  {
    hide ScopesOf, ContextsOk, Goal, Course, Labels, JobOk, Holds, FlatAssembles, InRange, DistinctAddresses, RecordsOk,
         WellFormed, Rel, Placed, Present, LabelTables, Initial, Arranged, Placing, AllAssemble, PutsWords, CaptureFree,
         Harmless, Passed, BindAll, Env, PutsAre, WordsOf, Assembled;
    section := new Section();
    var asm := new Assembler(syms, section, [], lists);
    InitialContexts(syms, J.T, program);
    ghost var root := syms.Scopes(LabelType)[0];
    var rc;
    ghost var info, T;
    rc, info, T := ParseStmts(asm, 0, program, J, root, [RootInfo(program)]);
    if !rc.Ok? {
      NoCourse(J);
      return false, section, [];
    }
    assert Since(asm.records, 0) == asm.records;
    ghost var run := Assembled(J, root);
    ParsedRun(asm, J, root, info, T);
    RunExpands(J, root);
    RunWords(J, root);
    ok, puts := TwoPasses(asm, run.parsed, run.info, lists, run.events);
    if CaptureFree(J) {
      CaptureFreeWords(J, root);
      if ok && DistinctAddresses(Goal(J).value.items, 0) {
        PlacingHolds(section, Goal(J).value.items, puts, WordsOf(J, root).value);
      }
    }
  }

  /** The words of a run are those of the pass over its events, the labels bound. */
  lemma RunWords(J: Job, root: Scope)
    requires Outermost(J) && Course(J).Some? && root.parent == None
    ensures var run := Assembled(J, root);
      && run.bound == BindAll(run.parsed, Env(run.events, 0))
      && WordsOf(J, root) == match Passed(run.bound, J.lists, run.events, 0, |run.events|)
                             case None => None
                             case Some(p) => Some(p.words)
  {}

  /** The parser has made the contexts of the run and pushed its events. */
  lemma ParsedRun(asm: Assembler, J: Job, root: Scope, info: seq<Info>, T: MnemonicTable)
    requires Outermost(J) && Parsed(asm, J, [], root, [RootInfo(J.stmts)], info, T)
    ensures Course(J).Some? && root.parent == None
    ensures var run := Assembled(J, root);
      && info == run.info && asm.syms.Scopes(LabelType) == run.parsed
      && AllEvents(asm.records) == run.events && RecordsOk(asm.records, |run.info|, |J.lists|)
  {
    hide Course, ContextScopes, Made;
    assert Since(asm.records, 0) == asm.records;
    assert info == [RootInfo(J.stmts)] + info[1..];
  }

  /** Where no addresses coincide, the words put lie where they were laid out, and nothing else does. */
  lemma PlacedWords(section: Section, items: seq<FlatItem>, puts: seq<Cell>, words: seq<Word>)
    requires Placing(section, items, puts) && PutsAre(puts, words)
    requires InRange(items, 0) && DistinctAddresses(items, 0)
    ensures |words| == |items|
    ensures forall j :: 0 <= j < |items| && items[j].Instr? ==> section.At(Address(items, 0, j)).value == words[j]
    ensures forall a: nat :: section.At(a) != BLANK ==>
      exists j :: 0 <= j < |items| && items[j].Instr? && Address(items, 0, j) == a
  {
    hide FlatAcceptable, Address, Written, Length, Landing;
    var n := Length(items, 0);
    var s := Written(items, puts, 0, n);
    DistinctIsFaithful(items, puts, 0, n);
    WrittenLands(items, puts, 0, n);
    DistinctLands(items, 0);
    forall j | 0 <= j < |items| && items[j].Instr? ensures section.At(Address(items, 0, j)).value == words[j] {
      assert Lands(items, puts, 0, s, j);
    }
    forall a: nat | section.At(a) != BLANK
      ensures exists j :: 0 <= j < |items| && items[j].Instr? && Address(items, 0, j) == a
    {
      assert OwnedAt(items, 0, a);
    }
  }

  lemma PlacingHolds(section: Section, items: seq<FlatItem>, puts: seq<Cell>, words: seq<Word>)
    requires Placing(section, items, puts) && PutsAre(puts, words) && PutsWords(items, words)
    requires InRange(items, 0) && DistinctAddresses(items, 0)
    ensures Holds(section, items, 0)
  {
    hide FlatWord, FlatAcceptable, Address, Written, Landing;
    PlacedWords(section, items, puts, words);
    WrittenLands(items, puts, 0, Length(items, 0));
  }
}
