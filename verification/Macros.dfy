/** What a program with macros means: every application is replaced by the macro's body, with the
    actual arguments put in place of the formals and the body's own labels renamed apart. */
module Macros {
  import opened Words
  import opened Wrappers
  import opened Ast
  import opened Scopes
  import opened Layout
  import Libc

  /** A name in an expanded program: as written, or a local label of one application. */
  datatype Ident = User(text: string) | Local(application: nat, text: string)

  datatype FlatExpr =
    | FNumber(value: Word)
    | FName(id: Ident)
    | FMinus(left: FlatExpr, right: FlatExpr)
    | FPlus(left: FlatExpr, right: FlatExpr)

  datatype FlatInstr = FlatInstr(mnemonic: string, cell: nat, operands: seq<FlatExpr>)

  type FlatItem = Item<Ident, FlatInstr>

  function Lift(e: Expr): FlatExpr {
    match e
    case Number(v) => FNumber(v)
    case Name(n) => FName(User(n))
    case Minus(l, r) => FMinus(Lift(l), Lift(r))
    case Plus(l, r) => FPlus(Lift(l), Lift(r))
  }

  // ----- substitution -----

  /** e with the labels of application k renamed and its formals replaced; `$` is the location wherever it
      stands in a body. */
  function Subst(k: nat, formals: map<string, Expr>, labels: set<string>, e: FlatExpr): FlatExpr {
    match e
    case FNumber(_) => e
    case FName(Local(_, _)) => e
    case FName(User(n)) =>
      if n == "$" then e
      else if n in labels then FName(Local(k, n))
      else if n in formals then Lift(formals[n])
      else e
    case FMinus(l, r) => FMinus(Subst(k, formals, labels, l), Subst(k, formals, labels, r))
    case FPlus(l, r) => FPlus(Subst(k, formals, labels, l), Subst(k, formals, labels, r))
  }

  function SubstAll(k: nat, formals: map<string, Expr>, labels: set<string>, es: seq<FlatExpr>): (r: seq<FlatExpr>)
    ensures |r| == |es| && forall i :: 0 <= i < |es| ==> r[i] == Subst(k, formals, labels, es[i])
  {
    seq(|es|, i requires 0 <= i < |es| => Subst(k, formals, labels, es[i]))
  }

  function SubstItem(k: nat, formals: map<string, Expr>, labels: set<string>, it: FlatItem): FlatItem {
    match it
    case Org(_) => it
    case Label(Local(_, _)) => it
    case Label(User(n)) => if n in labels then Label(Local(k, n)) else it
    case Instr(f) => Instr(f.(operands := SubstAll(k, formals, labels, f.operands)))
  }

  function SubstItems(k: nat, formals: map<string, Expr>, labels: set<string>, items: seq<FlatItem>): (r: seq<FlatItem>)
    ensures |r| == |items| && forall i :: 0 <= i < |items| ==> r[i] == SubstItem(k, formals, labels, items[i])
  {
    seq(|items|, i requires 0 <= i < |items| => SubstItem(k, formals, labels, items[i]))
  }

  /** The formals with their actual arguments. */
  function FormalMap(formals: seq<string>, actuals: seq<Expr>): (m: map<string, Expr>)
    requires |formals| == |actuals|
  {
    if formals == [] then map[]
    else
      var n := |formals| - 1;
      FormalMap(formals[..n], actuals[..n])[formals[n] := actuals[n]]
  }

  // ----- statements -----

  /** Some statement other than a macro definition follows. */
  predicate Later(stmts: seq<Stmt>) {
    stmts != [] && (!stmts[0].MacroStmt? || Later(stmts[1..]))
  }

  /** The labels of a list; one that nothing follows is dropped by the assembler. */
  function Labels(stmts: seq<Stmt>): set<string> {
    if stmts == [] then {}
    else if stmts[0].LabelStmt? && Later(stmts[1..]) then {stmts[0].name} + Labels(stmts[1..])
    else Labels(stmts[1..])
  }

  /** A label survives exactly if some statement after it, other than a macro definition, does. */
  lemma {:induction false} LabelsExact(stmts: seq<Stmt>, n: string)
    ensures n in Labels(stmts) <==> exists i :: 0 <= i < |stmts| && stmts[i] == LabelStmt(n) && Later(stmts[i + 1..])
  {
    if stmts != [] {
      var rest := stmts[1..];
      LabelsExact(rest, n);
      if i :| 0 <= i < |rest| && rest[i] == LabelStmt(n) && Later(rest[i + 1..]) {
        assert stmts[i + 1] == LabelStmt(n) && stmts[i + 2..] == rest[i + 1..];
      }
      if i :| 0 <= i < |stmts| && stmts[i] == LabelStmt(n) && Later(stmts[i + 1..]) {
        assert i > 0 ==> rest[i - 1] == LabelStmt(n) && rest[i..] == stmts[i + 1..];
      }
    }
  }

  /** The mnemonic symbols by lower-case name. */
  type MnemonicTable = map<string, SymVal>

  /** The macro a mnemonic stands for, if it does. */
  function MacroOf(T: MnemonicTable, mnemonic: string): Option<Mnemonic> {
    var key := Libc.Fold(mnemonic);
    if key in T && T[key].MnemSym? && T[key].mnemonic.Macro? then Some(T[key].mnemonic) else None
  }

  function Define(T: MnemonicTable, name: string, formals: seq<string>, body: seq<Stmt>): MnemonicTable {
    T[Libc.Fold(name) := MnemSym(Macro(name, formals, body))]
  }

  /** Defining a macro makes its name, in any case of letters, stand for it, whatever it stood for before, and
      changes no other. */
  lemma DefineLaw(T: MnemonicTable, name: string, formals: seq<string>, body: seq<Stmt>, other: string)
    ensures MacroOf(Define(T, name, formals, body), other)
         == if Libc.StrCaseCmp(other, name) == 0 then Some(Macro(name, formals, body)) else MacroOf(T, other)
  {
    hide Libc.Fold, Libc.StrCaseCmp;
    Libc.CaseCompare(other, name);
  }

  /** Something follows exactly if some statement is not a macro definition. */
  lemma {:induction false} LaterExact(stmts: seq<Stmt>)
    ensures Later(stmts) <==> exists i :: 0 <= i < |stmts| && !stmts[i].MacroStmt?
  {
    if stmts != [] && stmts[0].MacroStmt? {
      LaterExact(stmts[1..]);
      if i :| 0 <= i < |stmts[1..]| && !stmts[1..][i].MacroStmt? {
        assert !stmts[i + 1].MacroStmt?;
      }
      if i :| 0 <= i < |stmts| && !stmts[i].MacroStmt? {
        assert !stmts[1..][i - 1].MacroStmt?;
      }
    }
  }

  /** The statements call macros of rank below r only; macro bodies define no macros, and call macros
      of smaller rank than their own. Operand lists exist. */
  ghost predicate Ranked(rank: map<string, nat>, r: nat, lists: nat, stmts: seq<Stmt>) {
    forall i :: 0 <= i < |stmts| ==> StmtRanked(rank, r, lists, stmts[i])
  }

  ghost predicate StmtRanked(rank: map<string, nat>, r: nat, lists: nat, s: Stmt)
    decreases s
  {
    match s
    case InstrStmt(m, cell) => cell < lists && (Libc.Fold(m) in rank ==> rank[Libc.Fold(m)] < r)
    case MacroStmt(name, _, body) =>
      && Libc.Fold(name) in rank && PlainBody(body)
      && forall i :: 0 <= i < |body| ==> StmtRanked(rank, rank[Libc.Fold(name)], lists, body[i])
    case _ => true
  }

  ghost predicate PlainBody(body: seq<Stmt>) {
    forall i :: 0 <= i < |body| ==> !body[i].MacroStmt?
  }

  ghost predicate TableRanked(T: MnemonicTable, rank: map<string, nat>, lists: nat) {
    forall k :: k in T && T[k].MnemSym? && T[k].mnemonic.Macro? ==>
      k in rank && Ranked(rank, rank[k], lists, T[k].mnemonic.body) && PlainBody(T[k].mnemonic.body)
  }

  datatype Expansion = Expansion(items: seq<FlatItem>, next: nat)

  function Prepend(items: seq<FlatItem>, e: Option<Expansion>): Option<Expansion> {
    match e case None => None case Some(x) => Some(Expansion(items + x.items, x.next))
  }

  /** The expansion of a statement list, with applications numbered from k. None if some application
      has the wrong number of arguments. A label or origin that nothing follows is dropped. */
  ghost function Expand(T: MnemonicTable, lists: seq<seq<Expr>>, rank: map<string, nat>, r: nat, stmts: seq<Stmt>,
                        k: nat)
    : Option<Expansion>
    requires TableRanked(T, rank, |lists|) && Ranked(rank, r, |lists|, stmts)
    decreases r, |stmts|
  {
    if stmts == [] then Some(Expansion([], k))
    else
      var rest := stmts[1..];
      assert StmtRanked(rank, r, |lists|, stmts[0]);
      match stmts[0]
      case LabelStmt(n) => Prepend(if Later(rest) then [Label(User(n))] else [], Expand(T, lists, rank, r, rest, k))
      case OrgStmt(at) => Prepend(if Later(rest) then [Org(at)] else [], Expand(T, lists, rank, r, rest, k))
      case MacroStmt(name, formals, body) =>
        Expand(Define(T, name, formals, body), lists, rank, r, rest, k)
      case InstrStmt(mnemonic, cell) =>
        match MacroOf(T, mnemonic)
        case None =>
          Prepend([Instr(FlatInstr(mnemonic, cell, LiftAll(lists[cell])))], Expand(T, lists, rank, r, rest, k))
        case Some(m) =>
          match Apply(T, lists, rank, r, m, Libc.Fold(mnemonic), lists[cell], k)
          case None => None
          case Some(x) => Prepend(x.items, Expand(T, lists, rank, r, rest, x.next))
  }

  /** The expansion of one application, numbered k. */
  ghost function Apply(T: MnemonicTable, lists: seq<seq<Expr>>, rank: map<string, nat>, r: nat, m: Mnemonic,
                       key: string, actuals: seq<Expr>, k: nat): Option<Expansion>
    requires TableRanked(T, rank, |lists|)
    requires m.Macro? && key in T && T[key] == MnemSym(m) && key in rank && rank[key] < r
    decreases r, 0
  {
    if |actuals| != |m.formals| then None
    else
      match Expand(T, lists, rank, rank[key], m.body, k + 1)
      case None => None
      case Some(x) =>
        Some(Expansion(SubstItems(k, FormalMap(m.formals, actuals), Labels(m.body), x.items), x.next))
  }

  function LiftAll(es: seq<Expr>): (r: seq<FlatExpr>)
    ensures |r| == |es| && forall i :: 0 <= i < |es| ==> r[i] == Lift(es[i])
  {
    seq(|es|, i requires 0 <= i < |es| => Lift(es[i]))
  }
}
