/** Macro expansion into the record buffer (bas.c, parse_stmts). */
module StatementParser {
  import opened Wrappers
  import opened Ast
  import opened Scopes
  import opened Symbols
  import opened Evaluation
  import opened Eval
  import opened Macros
  import opened Records
  import opened Passes
  import opened Hygiene
  import opened ParseSteps
  import opened CallContexts
  import Libc

  /** The symbol contexts while parsing, over the root as info says and with T the mnemonics. */
  ghost predicate Contexts(syms: SymbolStore, root: Scope, info: seq<Info>, T: MnemonicTable)
    reads syms
  {
    && syms.Valid() && LabelTables(syms.contexts) && |syms.contexts| == |info| > 0
    && syms.contexts[0].Get(MnemonicType).Some?
    && Arranged(syms.Scopes(LabelType), root, info)
    && MnemonicsAtRoot(syms.Scopes(MnemonicType), T)
  }

  /** A new context for a call, arguments bound or not. */
  ghost predicate CallScopes(syms: SymbolStore, S: seq<Scope>, M: seq<Scope>, p: nat, m: map<string, SymVal>)
    reads syms
  {
    && syms.Valid() && LabelTables(syms.contexts) && p < |S| && Chained(S)
    && syms.Scopes(LabelType) == S + [Scope(Some(p), m)]
    && syms.Scopes(MnemonicType) == M
    && syms.contexts[0].Get(MnemonicType).Some?
  }

  lemma BoundNone(syms: SymbolStore, S: seq<Scope>, M: seq<Scope>, p: nat, formals: seq<string>, actuals: seq<Expr>)
    requires CallScopes(syms, S, M, p, map[])
    ensures Chained(S) && p < |S| && BoundArguments(S, p, formals[..0], actuals[..0]) == map[]
  {}

  lemma BoundNext(S: seq<Scope>, p: nat, formals: seq<string>, actuals: seq<Expr>, i: nat)
    requires Chained(S) && p < |S| && i < |formals| && i < |actuals|
    ensures var m := BoundArguments(S, p, formals[..i], actuals[..i]);
      && Chained(S + [Scope(Some(p), m)])
      && BoundArguments(S, p, formals[..i + 1], actuals[..i + 1])
         == m[formals[i] := ExprToSymVal(Residual(S + [Scope(Some(p), m)], |S|, actuals[i]))]
  {
    hide Residual;
    assert formals[..i + 1][..i] == formals[..i] && actuals[..i + 1][..i] == actuals[..i];
  }

  /** The argument loop: every actual is evaluated as far as possible and bound to its formal. */
  method BindArguments(syms: SymbolStore, formals: seq<string>, actuals: seq<Expr>, ghost S: seq<Scope>,
                       ghost M: seq<Scope>, ghost p: nat)
    returns (rc: Status)
    requires CallScopes(syms, S, M, p, map[])
    modifies syms
    ensures rc.Ok? <==> |formals| == |actuals|
    ensures rc.Ok? ==> CallScopes(syms, S, M, p, BoundArguments(S, p, formals, actuals))
  {
    hide CallScopes, BoundArguments, Residual;
    ghost var m: map<string, SymVal> := map[];
    BoundNone(syms, S, M, p, formals, actuals);
    var i := 0;
    while i < |actuals| || i < |formals|
      invariant 0 <= i <= |actuals| && i <= |formals|
      invariant CallScopes(syms, S, M, p, m)
      invariant m == BoundArguments(S, p, formals[..i], actuals[..i])
      decreases |actuals| + |formals| - i
    {
      if i == |formals| {
        return Invalid;
      } else if i == |actuals| {
        return Invalid;
      }
      m := BindArgument(syms, formals[i], actuals[i], S, M, p, m);
      BoundNext(S, p, formals, actuals, i);
      i := i + 1;
    }
    assert formals[..i] == formals && actuals[..i] == actuals;
    return Ok;
  }

  /** One round of the argument loop. The copied argument tree is the value of the expression. */
  method BindArgument(syms: SymbolStore, formal: string, actual: Expr, ghost S: seq<Scope>, ghost M: seq<Scope>,
                      ghost p: nat, ghost m: map<string, SymVal>)
    returns (ghost n: map<string, SymVal>)
    requires CallScopes(syms, S, M, p, m)
    modifies syms
    ensures CallScopes(syms, S, M, p, n)
    ensures Chained(S + [Scope(Some(p), m)])
    ensures n == m[formal := ExprToSymVal(Residual(S + [Scope(Some(p), m)], |S|, actual))]
  {
    hide ScopesOf, ContextsOk;
    TopChained(S, Scope(Some(p), m));
    var c := |syms.contexts| - 1;
    var ev, copy := EvalExpr(syms, c, actual, true);
    syms.Add(c, LabelType, formal, ExprToSymVal(copy));
    n := m[formal := ExprToSymVal(copy)];
  }

  /** The records pushed since there were n of them. */
  function Since(records: seq<Record>, n: nat): seq<Record>
    requires n <= |records|
  {
    records[n..]
  }

  /** A finished call of parse_stmts for job J, which started with the records `before`. */
  ghost predicate Parsed(asm: Assembler, J: Job, before: seq<Record>, root: Scope, info: seq<Info>, more: seq<Info>,
                         T: MnemonicTable)
    reads asm, asm.syms
  {
    && before <= asm.records && info <= more
    && Done(J, more, Since(asm.records, |before|), T)
    && Contexts(asm.syms, root, more, T)
  }

  /** The macro application case of `parse_stmts`. */
  method ParseCall(asm: Assembler, ctx: nat, m: Mnemonic, actuals: seq<Expr>, ghost key: string, ghost i: nat,
                   ghost J: Job, ghost T: MnemonicTable, ghost root: Scope, ghost info: seq<Info>)
    returns (rc: Status, ghost inner: seq<Info>)
    requires Contexts(asm.syms, root, info, T) && ctx == J.ctx < |info|
    requires asm.lists == J.lists
    requires i < |J.stmts| && J.stmts[i].InstrStmt? && Calls(J, i, T, m, key, J.stmts[i].cell)
    requires actuals == J.lists[J.stmts[i].cell]
    modifies asm`records, asm.syms
    ensures var JS := CallJob(J, T, m, key, |info|);
      && (rc.Ok? <==> |actuals| == |m.formals| && JobOk(JS) && Course(JS).Some?)
      && (rc.Ok? ==> Parsed(asm, JS, old(asm.records), root, info + [CallInfo(J, m, actuals)], inner, T))
    decreases J.r, 0
  {
    hide ScopesOf, ContextsOk, Arranged, Course, Mid, FormalMap, Labels, BoundArguments, MnemonicsAtRoot, TableRanked,
         Ranked;
    ghost var c, cell := |info|, J.stmts[i].cell;
    ghost var S, M := asm.syms.Scopes(LabelType), asm.syms.Scopes(MnemonicType);
    ArrangedOk(S, root, info);
    var id := asm.syms.ContextCreate(Some(ctx));
    NewContext(asm.syms, S, M, ctx, root, info);
    rc := BindArguments(asm.syms, m.formals, actuals, S, M + [Scope(Some(ctx), map[])], ctx);
    inner := info;
    if !rc.Ok? {
      return;
    }
    CallOk(J, i, T, m, key, cell, c);
    ghost var added := CallInfo(J, m, actuals);
    ContextMade(asm.syms, S, M, ctx, root, info, T, m, Labels(m.body), actuals);
    ghost var JS := CallJob(J, T, m, key, c);
    ghost var U: MnemonicTable;
    rc, inner, U := ParseStmts(asm, id, m.body, JS, root, info + [added]);
    if rc.Ok? {
      BodyKeepsMnemonics(JS, inner, Since(asm.records, |old(asm.records)|), U);
    }
  }

  lemma CallOk(J: Job, i: nat, T: MnemonicTable, m: Mnemonic, key: string, cell: nat, k: nat)
    requires Calls(J, i, T, m, key, cell)
    ensures JobOk(CallJob(J, T, m, key, k))
  {}

  lemma BodyKeepsMnemonics(J: Job, info: seq<Info>, R: seq<Record>, T: MnemonicTable)
    requires Done(J, info, R, T) && PlainBody(J.stmts)
    ensures T == J.T
  {}

  lemma NewContext(syms: SymbolStore, S: seq<Scope>, M: seq<Scope>, p: nat, root: Scope, info: seq<Info>)
    requires syms.Valid() && LabelTables(syms.contexts) && p < |S| == |info| == |M|
    requires syms.Scopes(LabelType) == S + [Scope(Some(p), map[])]
    requires syms.Scopes(MnemonicType) == M + [Scope(Some(p), map[])]
    requires Arranged(S, root, info) && syms.contexts[0].Get(MnemonicType).Some?
    ensures CallScopes(syms, S, M + [Scope(Some(p), map[])], p, map[])
  {}

  lemma ContextMade(syms: SymbolStore, S: seq<Scope>, M: seq<Scope>, p: nat, root: Scope, info: seq<Info>,
                    T: MnemonicTable, m: Mnemonic, labels: set<string>, actuals: seq<Expr>)
    requires m.Macro? && |actuals| == |m.formals| && p < |S| == |info| == |M|
    requires InfoOk(info) && Arranged(S, root, info) && MnemonicsAtRoot(M, T)
    requires CallScopes(syms, S, M + [Scope(Some(p), map[])], p, BoundArguments(S, p, m.formals, actuals))
    ensures Contexts(syms, root, info + [Applying(p, m.formals, actuals, labels)], T)
  {
    hide FormalMap, Arranged, BoundArguments;
    ArrangedOk(S, root, info);
    ArrangedAdded(S, root, info, p, m.formals, labels, actuals);
  }

  /** `parse_stmts`, for every ranked table of macros: it ends, succeeds exactly when the list has a trace, and
      then makes its contexts, arguments bound in order, and pushes its events. */
  method ParseStmts(asm: Assembler, ctx: nat, stmts: seq<Stmt>, ghost J: Job, ghost root: Scope, ghost info: seq<Info>)
    returns (rc: Status, ghost more: seq<Info>, ghost T: MnemonicTable)
    requires JobOk(J) && J.stmts == stmts && J.ctx == ctx && J.k == |info| && J.lists == asm.lists
    requires Contexts(asm.syms, root, info, J.T) && ctx < |info|
    requires ctx > 0 ==> PlainBody(stmts)
    modifies asm`records, asm.syms
    ensures rc.Ok? <==> Course(J).Some?
    ensures rc.Ok? ==> Parsed(asm, J, old(asm.records), root, info, more, T)
    decreases J.r, 2
  {
    hide ScopesOf, ContextsOk, Arranged, Course, Mid, Labels, Ranked, TableRanked, MnemonicsAtRoot, LabelTables;
    rc, more, T := Ok, info, J.T;
    ghost var before := asm.records;
    var a := Fresh(ctx);
    Start(J, info);
    assert Since(asm.records, |before|) == [];
    var i := 0;
    while i < |stmts|
      invariant 0 <= i <= |stmts| && rc.Ok?
      invariant ParseState(asm, J, i, a, before, root, info, more, T)
    {
      var s := stmts[i];
      match s {
        case LabelStmt(name) =>
          a := ParseMark(asm, a, s, i, J, before, root, info, more, T);
        case OrgStmt(at) =>
          a := ParseMark(asm, a, s, i, J, before, root, info, more, T);
        case MacroStmt(name, formals, body) =>
          T := ParseDefinition(asm, s, i, a, J, before, root, info, more, T);
        case InstrStmt(mnemonic, cell) =>
          var m := LookupMacro(asm.syms, ctx, mnemonic, root, more, T);
          if m.Some? {
            rc, a, more := ParseApplication(asm, m.value, cell, i, a, J, before, root, info, more, T);
            if !rc.Ok? {
              return;
            }
          } else {
            a := ParseInstr(asm, s, i, a, J, before, root, info, more, T);
          }
      }
      i := i + 1;
    }
    Finish(J, a, more, Since(asm.records, |before|), T);
  }

  /** The loop's state before statement i. */
  ghost predicate ParseState(asm: Assembler, J: Job, i: nat, a: Record, before: seq<Record>, root: Scope,
                             info: seq<Info>, more: seq<Info>, T: MnemonicTable)
    reads asm, asm.syms
  {
    && JobOk(J) && i <= |J.stmts| && J.k == |info| && J.lists == asm.lists && (J.ctx > 0 ==> PlainBody(J.stmts))
    && before <= asm.records && info <= more
    && Mid(J, i, a, more, Since(asm.records, |before|), T)
    && Contexts(asm.syms, root, more, T)
    && TableRanked(T, J.rank, |J.lists|) && J.ctx < |more|
  }

  lemma SincePush(before: seq<Record>, records: seq<Record>, more: seq<Record>)
    requires before <= records
    ensures before <= records + more
    ensures Since(records + more, |before|) == Since(records, |before|) + more
  {}

  /** `asm_buf_push` of the pending record if it carries a mark; a new one is begun. */
  method Flush(asm: Assembler, a: Record) returns (b: Record)
    modifies asm`records
    ensures asm.records == old(asm.records) + if Flagged(a) then [a] else []
    ensures b == if Flagged(a) then Fresh(a.ctx) else a
  {
    b := a;
    if a.tag.Some? || a.org.Some? {
      asm.records := asm.records + [a];
      b := Fresh(a.ctx);
    }
  }

  /** The cases AST_LABEL and AST_ORG. */
  method ParseMark(asm: Assembler, a: Record, s: Stmt, ghost i: nat, ghost J: Job, ghost before: seq<Record>,
                   ghost root: Scope, ghost info: seq<Info>, ghost more: seq<Info>, ghost T: MnemonicTable)
    returns (b: Record)
    requires ParseState(asm, J, i, a, before, root, info, more, T) && i < |J.stmts| && J.stmts[i] == s
    requires s.LabelStmt? || s.OrgStmt?
    modifies asm`records
    ensures ParseState(asm, J, i + 1, b, before, root, info, more, T)
  {
    hide ScopesOf, ContextsOk, Arranged, Course, Mid, Labels, Ranked, TableRanked, MnemonicsAtRoot, LabelTables,
         StmtRanked;
    PendingShape(J, i, a, more, Since(asm.records, |before|), T);
    SincePush(before, asm.records, if Flagged(a) then [a] else []);
    b := Flush(asm, a);
    b := if s.LabelStmt? then b.(tag := Some(s.name)) else b.(org := Some(s.at));
    MarkStep(J, i, a, more, Since(old(asm.records), |before|), T, b);
    assert Since(old(asm.records), |before|) + [] == Since(old(asm.records), |before|);
  }

  lemma PendingShape(J: Job, i: nat, a: Record, info: seq<Info>, R: seq<Record>, T: MnemonicTable)
    requires Mid(J, i, a, info, R, T)
    ensures a.ctx == J.ctx && a.instr.None? && a.cell == 0 && (!Flagged(a) ==> a == Fresh(J.ctx))
  {}

  /** The case AST_MACRO: the macro becomes a mnemonic of the root context. */
  method ParseDefinition(asm: Assembler, s: Stmt, ghost i: nat, ghost a: Record, ghost J: Job,
                         ghost before: seq<Record>, ghost root: Scope, ghost info: seq<Info>, ghost more: seq<Info>,
                         ghost T: MnemonicTable)
    returns (ghost U: MnemonicTable)
    requires ParseState(asm, J, i, a, before, root, info, more, T) && i < |J.stmts| && J.stmts[i] == s && s.MacroStmt?
    modifies asm.syms
    ensures ParseState(asm, J, i + 1, a, before, root, info, more, U)
  {
    hide ScopesOf, ContextsOk, Arranged, Course, Mid, Labels, Ranked, TableRanked, StmtRanked;
    U := Define(T, s.name, s.formals, s.body);
    DefinitionRanked(J, i, T);
    DefineStep(J, i, a, more, Since(asm.records, |before|), T);
    assert J.ctx == 0 by { assert !PlainBody(J.stmts); }
    asm.syms.Add(0, MnemonicType, s.name, MnemSym(Macro(s.name, s.formals, s.body)));
  }

  /** `sym_getval` of a mnemonic, as far as it is a macro. */
  method LookupMacro(syms: SymbolStore, ctx: nat, mnemonic: string, ghost root: Scope, ghost info: seq<Info>,
                     ghost T: MnemonicTable)
    returns (m: Option<Mnemonic>)
    requires Contexts(syms, root, info, T) && ctx < |info|
    modifies syms
    ensures Contexts(syms, root, info, T) && m == MacroOf(T, mnemonic)
    ensures syms.Scopes(LabelType) == old(syms.Scopes(LabelType))
  {
    hide ScopesOf, ContextsOk, Arranged, TableStable;
    RootMnemonic(syms.Scopes(MnemonicType), T, ctx, Libc.Fold(mnemonic));
    var val := syms.GetVal(ctx, MnemonicType, mnemonic);
    m := if val.Some? && val.value.MnemSym? && val.value.mnemonic.Macro? then Some(val.value.mnemonic) else None;
  }

  /** The end of the case AST_INSTR: an instruction completes the record. */
  method ParseInstr(asm: Assembler, s: Stmt, ghost i: nat, a: Record, ghost J: Job, ghost before: seq<Record>,
                    ghost root: Scope, ghost info: seq<Info>, ghost more: seq<Info>, ghost T: MnemonicTable)
    returns (b: Record)
    requires ParseState(asm, J, i, a, before, root, info, more, T) && i < |J.stmts| && J.stmts[i] == s && s.InstrStmt?
    requires MacroOf(T, s.mnemonic).None?
    modifies asm`records
    ensures ParseState(asm, J, i + 1, b, before, root, info, more, T)
  {
    hide ScopesOf, ContextsOk, Arranged, Course, Mid, Labels, Ranked, TableRanked, MnemonicsAtRoot, LabelTables,
         StmtRanked, MacroOf;
    var full := a.(instr := Some(s.mnemonic), cell := s.cell);
    PendingShape(J, i, a, more, Since(asm.records, |before|), T);
    SincePush(before, asm.records, [full]);
    InstrStep(J, i, a, more, Since(asm.records, |before|), T);
    asm.records := asm.records + [full];
    b := Fresh(a.ctx);
  }

  /** A macro application: flush, and expand it in a context of its own. */
  method ParseApplication(asm: Assembler, m: Mnemonic, cell: nat, ghost i: nat, a: Record, ghost J: Job,
                          ghost before: seq<Record>, ghost root: Scope, ghost info: seq<Info>, ghost more: seq<Info>,
                          ghost T: MnemonicTable)
    returns (rc: Status, b: Record, ghost inner: seq<Info>)
    requires ParseState(asm, J, i, a, before, root, info, more, T) && i < |J.stmts|
    requires J.stmts[i].InstrStmt? && J.stmts[i].cell == cell && MacroOf(T, J.stmts[i].mnemonic) == Some(m)
    modifies asm`records, asm.syms
    ensures !rc.Ok? ==> Course(J) == None
    ensures rc.Ok? ==> ParseState(asm, J, i + 1, b, before, root, info, inner, T)
    decreases J.r, 1
  {
    hide ScopesOf, ContextsOk, Arranged, Course, Mid, Labels, Ranked, TableRanked, MnemonicsAtRoot, LabelTables,
         StmtRanked, MacroOf, FormalMap;
    ghost var key := Libc.Fold(J.stmts[i].mnemonic);
    ghost var R := Since(asm.records, |before|);
    CallRanked(J, i, T, m);
    PendingShape(J, i, a, more, R, T);
    SincePush(before, asm.records, if Flagged(a) then [a] else []);
    b := Flush(asm, a);
    b := Fresh(a.ctx);
    ghost var flushed := asm.records;
    rc, inner := ParseCall(asm, a.ctx, m, asm.lists[cell], key, i, J, T, root, more);
    if !rc.Ok? {
      CallFails(J, i, a, more, R, T, m, key, cell);
      return;
    }
    var added := CallInfo(J, m, asm.lists[cell]);
    ghost var Rs := Since(asm.records, |flushed|);
    assert asm.records == flushed + Rs;
    SincePush(before, flushed, Rs);
    CallStep(J, i, a, more, R, T, m, key, cell, inner, Rs);
    assert info <= inner && before <= asm.records;
    assert Since(asm.records, |before|) == (if Flagged(a) then R + [a] else R) + Rs;
  }
}
