/** The state the assembler starts from: the root tables, the built-in mnemonics registered in them, and
    a reference for every name the parser has met (symbols.c, sym_init; arch.c, arch_init; asm-parse.y). */
module Startup {
  import opened Words
  import opened Wrappers
  import opened Ast
  import opened Scopes
  import opened Symbols
  import opened Sections
  import opened Layout
  import opened Passes
  import opened ParseSteps
  import opened CallContexts
  import opened Macros
  import opened Hygiene
  import opened Records
  import opened SecondPass
  import opened Traces
  import opened Independence
  import opened Listings
  import opened BabyAssembler
  import opened Arch
  import opened ArchTables
  import Libc

  /** The symbols of the mnemonics registered so far. */
  function Registered(table: seq<Mnemonic>): MnemonicTable {
    if table == [] then map[]
    else var n := |table| - 1; Registered(table[..n])[Libc.Fold(table[n].name) := MnemSym(table[n])]
  }

  /** Looking a name up among the symbols and looking it up among the built-in mnemonics agree. */
  ghost predicate NamesBuiltIns(T: MnemonicTable) {
    forall name: string ::
      (if Libc.Fold(name) in T && T[Libc.Fold(name)].MnemSym? then Some(T[Libc.Fold(name)].mnemonic) else None)
      == FindInstr(name)
  }

  lemma {:induction false} RegisteredFinds(table: seq<Mnemonic>, key: string)
    ensures key in Registered(table) ==>
      exists m :: m in table && Libc.Fold(m.name) == key && Registered(table)[key] == MnemSym(m)
    ensures forall m :: m in table ==> Libc.Fold(m.name) in Registered(table)
  {
    if table != [] {
      var n := |table| - 1;
      RegisteredFinds(table[..n], key);
      assert table == table[..n] + [table[n]];
      assert table[n] in table;
    }
  }

  lemma RegisteredAreBuiltIns(table: seq<Mnemonic>)
    requires multiset(table) == multiset(MNEMONICS)
    ensures NamesBuiltIns(Registered(table)) && NoMacros(Registered(table))
  {
    hide MNEMONICS, FindInstr, Registered;
    var T := Registered(table);
    SameMembers(table);
    forall k | k in T && T[k].MnemSym? ensures !T[k].mnemonic.Macro? {
      RegisteredFinds(table, k);
      BuiltInsAreNoMacros(T[k].mnemonic);
    }
    forall name: string
      ensures (if Libc.Fold(name) in T && T[Libc.Fold(name)].MnemSym? then Some(T[Libc.Fold(name)].mnemonic) else None)
           == FindInstr(name)
    {
      NameRegistered(table, name);
    }
  }

  lemma SameMembers(table: seq<Mnemonic>)
    requires multiset(table) == multiset(MNEMONICS)
    ensures forall m :: m in table <==> m in MNEMONICS
  {
    hide MNEMONICS;
    forall m ensures m in table <==> m in MNEMONICS {
      assert m in table <==> m in multiset(table);
    }
  }

  lemma BuiltInsAreNoMacros(m: Mnemonic)
    requires m in MNEMONICS
    ensures !m.Macro?
  {
    hide FindInstr;
    SameNameFinds(m);
    FindInstrKind(m.name);
  }

  lemma NameRegistered(table: seq<Mnemonic>, name: string)
    requires forall m :: m in table <==> m in MNEMONICS
    ensures var T, key := Registered(table), Libc.Fold(name);
      (if key in T && T[key].MnemSym? then Some(T[key].mnemonic) else None) == FindInstr(name)
  {
    hide MNEMONICS, FindInstr, Registered;
    var T, key := Registered(table), Libc.Fold(name);
    RegisteredFinds(table, key);
    if key in T {
      var m :| m in table && Libc.Fold(m.name) == key && T[key] == MnemSym(m);
      Libc.StrCmpZero(Libc.Fold(name), Libc.Fold(m.name));
      FindOwnName(name, m);
    } else {
      forall m | m in MNEMONICS ensures Libc.StrCaseCmp(name, m.name) != 0 {
        Libc.StrCmpZero(Libc.Fold(name), Libc.Fold(m.name));
      }
      FindInNone(MNEMONICS, name);
      NoInstr(name);
    }
  }

  /** The registration loop of `arch_init`. */
  method Register(syms: SymbolStore, table: seq<Mnemonic>)
    requires syms.Valid() && |syms.contexts| == 1 && syms.contexts[0].mnemonics.Some? && syms.contexts[0].labels.Some?
    requires syms.Scopes(MnemonicType) == [Scope(None, map[])] && syms.Scopes(LabelType) == [Scope(None, map[])]
    modifies syms
    ensures Initial(syms, Registered(table))
  {
    hide ScopesOf, ContextsOk, TableStable;
    assert table[..0] == [];
    var i := 0;
    while i < |table|
      invariant 0 <= i <= |table|
      invariant syms.Valid() && |syms.contexts| == 1
      invariant forall u :: syms.contexts[0].Get(u).Some?
      invariant syms.Scopes(MnemonicType) == [Scope(None, Registered(table[..i]))]
      invariant syms.Scopes(LabelType) == [Scope(None, map[])]
    {
      var m := table[i];
      ghost var T, key := Registered(table[..i]), Libc.Fold(m.name);
      assert T[key := UndefSym][key := MnemSym(m)] == T[key := MnemSym(m)];
      syms.GetRef(0, MnemonicType, m.name);
      syms.SetVal(0, MnemonicType, m.name, MnemSym(m));
      assert table[..i + 1][..i] == table[..i];
      i := i + 1;
    }
    assert table[..i] == table;
    RootOnly(syms, Registered(table));
  }

  lemma RootOnly(syms: SymbolStore, T: MnemonicTable)
    requires syms.Valid() && |syms.contexts| == 1 && forall u :: syms.contexts[0].Get(u).Some?
    requires syms.Scopes(MnemonicType) == [Scope(None, T)] && syms.Scopes(LabelType) == [Scope(None, map[])]
    ensures Initial(syms, T)
  {
    assert syms.contexts[0].Get(LabelType).Some? && syms.contexts[0].Get(MnemonicType).Some?;
    assert syms.Scopes(LabelType)[0].parent == None;
  }

  /** `init`: every built-in mnemonic is a symbol, nothing else is, and no name has a value. */
  method Init() returns (syms: SymbolStore, arch: ArchState, ghost T: MnemonicTable)
    ensures fresh(syms) && fresh(arch) && arch.Valid()
    ensures Initial(syms, T) && NamesBuiltIns(T) && NoMacros(T)
  {
    hide Initial, NamesBuiltIns, NoMacros, MNEMONICS, Registered;
    syms := new SymbolStore();
    arch := new ArchState();
    T := Registered(arch.mnemonics);
    RegisteredAreBuiltIns(arch.mnemonics);
    Register(syms, arch.mnemonics);
  }

  /** `mk_symbol`: a name met by the parser gets a symbol without a value, if it has none yet. */
  method Reference(syms: SymbolStore, ty: SymType, name: string,
                   ghost T: MnemonicTable) returns (ghost U: MnemonicTable)
    requires Initial(syms, T)
    modifies syms
    ensures Initial(syms, U)
    ensures NamesBuiltIns(T) ==> NamesBuiltIns(U)
    ensures NoMacros(T) ==> NoMacros(U)
  {
    hide ScopesOf, ContextsOk, FindInstr;
    var key := Libc.Fold(name);
    U := if ty.MnemonicType? && key !in T then T[key := UndefSym] else T;
    syms.GetRef(0, ty, name);
  }

  /** The references made while a whole source is parsed. */
  method ReferenceAll(syms: SymbolStore, names: seq<(SymType, string)>, ghost T: MnemonicTable)
    returns (ghost U: MnemonicTable)
    requires Initial(syms, T) && NoMacros(T) && NamesBuiltIns(T)
    modifies syms
    ensures Initial(syms, U) && NoMacros(U) && NamesBuiltIns(U)
  {
    hide Initial, NoMacros, NamesBuiltIns;
    U := T;
    for i := 0 to |names|
      invariant Initial(syms, U) && NoMacros(U) && NamesBuiltIns(U)
    {
      U := Reference(syms, names[i].0, names[i].1, U);
    }
  }

  function ExprNames(e: Expr): seq<string> {
    match e
    case Number(_) => []
    case Name(n) => [n]
    case Minus(l, r) => ExprNames(l) + ExprNames(r)
    case Plus(l, r) => ExprNames(l) + ExprNames(r)
  }

  function LabelRefs(names: seq<string>): seq<(SymType, string)> {
    seq(|names|, i requires 0 <= i < |names| => (LabelType, names[i]))
  }

  function OperandRefs(es: seq<Expr>): seq<(SymType, string)> {
    if es == [] then [] else LabelRefs(ExprNames(es[0])) + OperandRefs(es[1..])
  }

  /** The references that parsing a statement makes. */
  function StmtRefs(lists: seq<seq<Expr>>, s: Stmt): seq<(SymType, string)>
    decreases s
  {
    match s
    case LabelStmt(n) => [(LabelType, n)]
    case OrgStmt(_) => []
    case InstrStmt(m, cell) => [(MnemonicType, m)] + if cell < |lists| then OperandRefs(lists[cell]) else []
    case MacroStmt(_, _, body) => StmtsRefs(lists, body)
  }

  function StmtsRefs(lists: seq<seq<Expr>>, stmts: seq<Stmt>): seq<(SymType, string)>
    decreases stmts
  {
    if stmts == [] then [] else StmtRefs(lists, stmts[0]) + StmtsRefs(lists, stmts[1..])
  }

  lemma OnlyMacros(T: MnemonicTable)
    requires NoMacros(T)
    ensures SameMacros(T, map[])
  {
    forall name: string ensures MacroOf(T, name) == MacroOf(map[], name) {
      NoMacroOf(T, name);
    }
  }

  /** Neither the built-ins nor the names that the parser has met matter to a run. */
  lemma StartsAlike(T: MnemonicTable, root: Scope, program: seq<Stmt>, lists: seq<seq<Expr>>, rank: map<string, nat>,
                    r: nat)
    requires NoMacros(T) && Unbound(root) && Ranked(rank, r, |lists|, program)
    ensures var J, P := RootJob(T, lists, rank, r, program), ProgramJob(lists, rank, r, program);
      && Outermost(J) && Outermost(P) && Goal(J) == Goal(P) && (CaptureFree(J) <==> CaptureFree(P))
      && WordsOf(J, root) == WordsOf(P, NO_NAMES)
  {
    var J, P := RootJob(T, lists, rank, r, program), ProgramJob(lists, rank, r, program);
    assert TableRanked(T, rank, |lists|) && TableRanked(map[], rank, |lists|);
    assert Unbound(NO_NAMES);
    hide NoMacros, TableRanked, Ranked, SameMacros, Unbound, Expand, Traced, Hygienic, Labels, ContextScopes, Passed,
         BindAll, Env, Made;
    OnlyMacros(T);
    SameCourse(T, map[], lists, rank, r, program, 0, 1);
    SameHygienic(T, map[], lists, rank, r, program, [Frame({}, Labels(program))]);
    WordsAlike(J, root, NO_NAMES);
  }

  /** A whole run of the assembler over a parsed program, from program start: what BabyAssembler.Assemble
      says, of the program alone. */
  method AssembleProgram(program: seq<Stmt>, lists: seq<seq<Expr>>, ghost rank: map<string, nat>, ghost r: nat)
    returns (ok: bool, section: Section, ghost puts: seq<Cell>)
    requires WellBehaved(ProgramJob(lists, rank, r, program))
    ensures fresh(section) && fresh(section.data)
    ensures var J := ProgramJob(lists, rank, r, program);
      && (ok <==> WordsOf(J, NO_NAMES).Some?) && (ok ==> PutsAre(puts, WordsOf(J, NO_NAMES).value))
      && (ok ==> Goal(J).Some? && Placing(section, Goal(J).value.items, puts))
      && (CaptureFree(J) ==> (ok <==> Goal(J).Some? && AllAssemble(Goal(J).value.items)))
      && (CaptureFree(J) && ok && DistinctAddresses(Goal(J).value.items, 0) ==> Holds(section, Goal(J).value.items, 0))
  {
    hide Initial, NamesBuiltIns, NoMacros, Ranked, Goal, Placing, CaptureFree, AllAssemble, Holds, DistinctAddresses,
         WordsOf, PutsAre, InRange;
    var syms, _, builtIns := Init();
    ghost var T := ReferenceAll(syms, StmtsRefs(lists, program), builtIns);
    InitialContexts(syms, T, program);
    StartsAlike(T, syms.Scopes(LabelType)[0], program, lists, rank, r);
    ok, section, puts := Assemble(syms, program, lists, RootJob(T, lists, rank, r, program));
  }

  /** A whole run of the assembler over straight-line source, from program start. */
  method AssembleSource(lines: seq<SourceLine>) returns (ok: bool, section: Section)
    requires |lines| + 0x400 < TWO32
    ensures fresh(section) && fresh(section.data)
    ensures ok <==> forall a :: 0 <= a < |lines| ==> LineWord(lines, a).Some?
    ensures ok ==> section.Valid() && section.org == 0 && section.length == |lines|
    ensures ok ==> forall a :: 0 <= a < |lines| ==> Some(section.At(a).value) == LineWord(lines, a)
  {
    hide Initial, NamesBuiltIns, NoMacros, LineWord;
    ghost var T;
    var syms, _, builtIns := Init();
    T := ReferenceAll(syms, StmtsRefs(OperandLists(lines), Statements(lines)), builtIns);
    ok, section := AssembleLines(syms, lines, T);
  }
}
