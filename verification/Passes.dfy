/** The two assembler passes over the record buffer (bas.c, assemble_one, pass_one and assemble). */
module Passes {
  import opened Words
  import opened Wrappers
  import opened Ast
  import opened Scopes
  import opened Symbols
  import opened Evaluation
  import opened Eval
  import opened Sections
  import opened Layout
  import opened Overlap
  import opened Records
  import opened SecondPass
  import Arch

  datatype Status = Ok | Handled | Invalid

  /** The assembler's state: the symbol tables, the section, the record buffer and the operand lists. */
  class Assembler {
    const syms: SymbolStore
    const section: Section
    var records: seq<Record>
    var lists: seq<seq<Expr>>

    constructor (syms: SymbolStore, section: Section, records: seq<Record>, lists: seq<seq<Expr>>)
      ensures this.syms == syms && this.section == section && this.records == records && this.lists == lists
    {
      this.syms, this.section, this.records, this.lists := syms, section, records, lists;
    }

    ghost predicate Valid()
      reads this, syms, section, section.data
    {
      && syms.Valid() && section.Valid()
      && LabelTables(syms.contexts)
      && RecordsOk(records, |syms.contexts|, |lists|)
    }

    /** The first pass has walked over the items: labels bound, room made, nothing owned. */
    ghost predicate Walked(S: seq<Scope>, items: seq<Event>, start: Word)
      reads syms, section, section.data
    {
      && syms.Valid() && section.Valid() && section.org == 0
      && LabelTables(syms.contexts) && |syms.contexts| == |S|
      && Bound(S, syms.Scopes(LabelType), Env(items, start))
      && section.cursor == Cursor(items, start) && section.length == Length(items, start)
      && forall a: nat :: section.At(a) == BLANK
    }

    /** The label binding that pass_one does before `assemble_one`. */
    method BindLabel(tag: Tag, ghost S: seq<Scope>, ghost items: seq<Event>, ghost start: Word)
      requires Walked(S, items, start) && tag.ctx < |S|
      modifies syms
      ensures Walked(S, items + [Label(tag)], start)
      ensures syms.Scopes(MnemonicType) == old(syms.Scopes(MnemonicType))
    {
      hide ScopesOf, ContextsOk, Cursor, Length, Env;
      ghost var it: Event := Label(tag);
      CursorSnoc(items, it, start);
      EnvSnoc(items, it, start);
      BoundMore(S, syms.Scopes(LabelType), Env(items, start), tag, section.cursor);
      syms.Add(tag.ctx, LabelType, tag.name, WordSym(section.cursor));
    }

    /** `assemble_one` on the first pass. */
    method FirstPassRecord(r: Record, ghost S: seq<Scope>, ghost items: seq<Event>, ghost start: Word)
      requires r.tag.None? && Walked(S, items, start) && InRange(items + Events(r), start)
      modifies section, section.data
      ensures Walked(S, items + Events(r), start)
      ensures section.data == old(section.data) || fresh(section.data)
    {
      hide ScopesOf, ContextsOk, Cursor, Length, Env, Bound, LabelTables;
      ghost var P := items;
      if r.org.Some? {
        ghost var it: Event := Org(r.org.value);
        CursorSnoc(P, it, start);
        EnvSnoc(P, it, start);
        section.Seek(r.org.value);
        P := P + [it];
      }
      if r.instr.Some? {
        ghost var it: Event := Instr(Use(r.ctx, r.instr.value, r.cell));
        CursorSnoc(P, it, start);
        EnvSnoc(P, it, start);
        assert items + Events(r) == P + [it];
        assert Address(P + [it], start, |P|) == Cursor(P, start) by { assert (P + [it])[..|P|] == P; }
        var _ := section.PutWord(0, None);
        P := P + [it];
      }
      assert items + Events(r) == P;
    }

    /** The body of the loop of `pass_one`. */
    method PassOneStep(i: nat, ghost S: seq<Scope>, ghost start: Word)
      requires i < |records| && records[i].ctx < |S| && InRange(AllEvents(records), start)
      requires Walked(S, AllEvents(records[..i]), start)
      modifies syms, section, section.data
      ensures Walked(S, AllEvents(records[..i + 1]), start)
      ensures section.data == old(section.data) || fresh(section.data)
      ensures syms.Scopes(MnemonicType) == old(syms.Scopes(MnemonicType))
    {
      hide ScopesOf, ContextsOk, Cursor, Length, Env, Bound, LabelTables, InRange, AllEvents;
      AllEventsSnoc(records, i);
      AllEventsPrefix(records, i + 1);
      InRangePrefix(AllEvents(records), AllEvents(records[..i + 1]), start);
      ghost var P := AllEvents(records[..i]);
      var r := records[i];
      if r.tag.Some? {
        BindLabel(Tag(r.ctx, r.tag.value), S, P, start);
        P := P + [Label(Tag(r.ctx, r.tag.value))];
      }
      assert AllEvents(records[..i + 1]) == P + Events(r.(tag := None));
      FirstPassRecord(r.(tag := None), S, P, start);
    }

    /** `pass_one`: bind every label to its address, leaving the cursor where it was. */
    method PassOne()
      requires Valid() && section.org == 0 && section.length == 0
      requires forall a: nat :: section.At(a) == BLANK
      requires InRange(AllEvents(records), section.cursor)
      modifies syms, section, section.data
      ensures Valid() && section.org == 0 && section.cursor == old(section.cursor)
      ensures section.data == old(section.data) || fresh(section.data)
      ensures forall a: nat :: section.At(a) == BLANK
      ensures section.length == Length(AllEvents(records), section.cursor)
      ensures |syms.contexts| == |old(syms.contexts)|
      ensures Bound(old(syms.Scopes(LabelType)), syms.Scopes(LabelType), Env(AllEvents(records), section.cursor))
      ensures syms.Scopes(MnemonicType) == old(syms.Scopes(MnemonicType))
    {
      hide ScopesOf, ContextsOk, Cursor, Length, Env, Bound, LabelTables, InRange, AllEvents;
      var saved := section.cursor;
      ghost var S := syms.Scopes(LabelType);
      NoItems<Tag, Use>(saved);
      BoundNothing(S);
      NoEvents(records);
      var i := 0;
      while i < |records|
        invariant 0 <= i <= |records|
        invariant Walked(S, AllEvents(records[..i]), saved)
        invariant section.data == old(section.data) || fresh(section.data)
        invariant syms.Scopes(MnemonicType) == old(syms.Scopes(MnemonicType))
      {
        PassOneStep(i, S, saved);
        i := i + 1;
      }
      assert records[..i] == records;
      section.Seek(saved);
    }

    // ----- second pass -----

    /** The label scopes below the assembler's own context. */
    ghost predicate Assembling(S: seq<Scope>)
      reads syms
    {
      && syms.Valid() && LabelTables(syms.contexts) && |syms.contexts| == |S| + 1
      && Chained(S) && syms.Scopes(LabelType)[..|S|] == S
      && syms.Scopes(LabelType)[|S|].syms.Keys <= {"$"}
    }

    /** The current location is bound. */
    ghost predicate Here(at: Word)
      reads syms
    {
      |syms.contexts| > 0 && syms.Scopes(LabelType)[|syms.contexts| - 1].syms == map["$" := WordSym(at)]
    }

    /** The section after the first m items. */
    ghost predicate Emitted(F: seq<Event>, start: Word, m: nat, puts: seq<Cell>)
      reads section, section.data
    {
      && section.Valid() && |puts| == m <= |F|
      && section.Is(Written(F[..m], puts, start, Length(F, start)))
    }

    /** Evaluation of one operand of a record, in the assembler's context set above the record's. */
    method EvalOperand(ctx: nat, e: Expr, ghost S: seq<Scope>, ghost at: Word) returns (rc: EvalResult, r: Expr)
      requires Assembling(S) && Here(at) && ctx < |S|
      modifies syms
      ensures var o := OperandAt(S, ctx, at, e);
        && Assembling(o.scopes) && Here(at)
        && r == o.tree && rc == if r.Number? then EvalOk else EvalError
    {
      hide ScopesOf, ContextsOk, TableStable, Evaluate;
      var A := |syms.contexts| - 1;
      ghost var top := Top(ctx, at);
      syms.SetParent(A, ctx);
      assert syms.Scopes(LabelType) == S + [top];
      rc, r := EvalExpr(syms, A, e, false);
      EvaluateRewrites(S + [top], |S|, e);
      assert syms.Scopes(LabelType)[|S|] == (S + [top])[|S|] == top;
    }

    /** The operand loop of `assemble_one`. */
    method EvalOperands(u: Use, ghost p: Pass, ghost at: Word) returns (rc: Status, opr: Word)
      requires Assembling(p.scopes) && Here(at) && lists == p.lists && u.ctx < |p.scopes| && u.cell < |p.lists|
      modifies syms, this`lists
      ensures var es := p.lists[u.cell]; var o := FirstOf(p.scopes, u.ctx, at, es);
        && (rc.Ok? <==> |es| <= 1 && o.tree.Number?)
        && (rc.Ok? ==> opr == o.tree.value && Assembling(o.scopes)
                       && lists == if es == [] then p.lists else p.lists[u.cell := [o.tree]])
      ensures syms.Valid() && |syms.contexts| == |p.scopes| + 1
    {
      hide ScopesOf, ContextsOk, LabelTables, OperandAt;
      rc, opr := Ok, 0;
      ghost var es := p.lists[u.cell];
      ghost var o := FirstOf(p.scopes, u.ctx, at, es);
      var i := 0;
      while i < |lists[u.cell]|
        invariant |lists| == |p.lists| && |lists[u.cell]| == |es| && 0 <= i <= |es| && i <= 1
        invariant syms.Valid() && |syms.contexts| == |p.scopes| + 1 && rc == Ok
        invariant i == 0 ==> Assembling(p.scopes) && Here(at) && lists == p.lists && opr == 0
        invariant i == 1 ==>
          && Assembling(o.scopes) && o.tree == Number(opr)
          && lists == p.lists[u.cell := es[0 := o.tree]]
      {
        if i == 1 {
          return Handled, opr;
        }
        var ev, val := EvalOperand(u.ctx, lists[u.cell][i], p.scopes, at);
        lists := lists[u.cell := lists[u.cell][i := val]];
        if ev != EvalOk {
          return Handled, opr;
        }
        opr := val.value;
        i := i + 1;
      }
      assert |es| == 1 ==> es[0 := o.tree] == [o.tree];
    }

    /** `put_word` of an instruction, at the cursor. */
    method PutHere(word: Word, i: nat, ghost F: seq<Event>, ghost start: Word, ghost j: nat, ghost puts: seq<Cell>)
      returns (put: PutResult)
      requires j < |F| && F[j].Instr? && InRange(F, start)
      requires Emitted(F, start, j, puts) && Owners(F[..j], puts, i)
      modifies section, section.data
      ensures put == if Refused(F, start, j) then AlreadyThere else PutOk
      ensures Emitted(F, start, j + 1, puts + [Cell(word, Some(i))])
      ensures Owners(F[..j + 1], puts + [Cell(word, Some(i))], i + 1)
      ensures section.data == old(section.data) || fresh(section.data)
    {
      hide Cursor, Length, Address, Landing, Owners, Written;
      ghost var s := Written(F[..j], puts, start, Length(F, start));
      RoomHere(F, start, j, puts, i);
      WrittenNext(F, start, j, puts, Cell(word, Some(i)));
      put := section.PutWord(word, Some(i));
      OwnersNext(F, j, puts, i, word);
    }

    /** The emission part of `assemble_one`: look the mnemonic up, encode, store. */
    method Emit(u: Use, opr: Word, i: nat, ghost F: seq<Event>, ghost start: Word, ghost j: nat, ghost puts: seq<Cell>)
      returns (rc: Status, ghost more: seq<Cell>)
      requires j < |F| && F[j] == Instr(u) && InRange(F, start)
      requires Emitted(F, start, j, puts) && Owners(F[..j], puts, i)
      modifies section, section.data
      ensures rc.Ok? <==> Arch.FindInstr(u.mnemonic).Some?
                          && (Arch.FindInstr(u.mnemonic).value.Directive? ==> !Refused(F, start, j))
      ensures rc.Ok? ==> Emitted(F, start, j + 1, more) && Owners(F[..j + 1], more, i + 1)
      ensures rc.Ok? ==> puts <= more && |more| == j + 1 && Some(more[j].value) == CodeWord(u.mnemonic, opr)
      ensures section.data == old(section.data) || fresh(section.data)
    {
      hide Arch.FindInstr, Arch.EncodeInstruction, Owners, Emitted, Refused;
      Arch.FindInstrKind(u.mnemonic);
      EmittedLength(F, start, j, puts);
      var m := Arch.FindInstr(u.mnemonic);
      more := puts;
      if m == None {
        return Invalid, more;
      }
      var put := PutOk;
      var word := match m.value
        case Instruction(_, opcode, operands) => Wrap(Arch.EncodeInstruction(opcode, operands, opr))
        case Directive(_, NUM) => opr
        case Directive(_, EJA) => Wrap(opr as int - 1)
        case Macro(_, _, _) => 0;
      more := puts + [Cell(word, Some(i))];
      if m.value.Instruction? {
        var _ := PutHere(word, i, F, start, j, puts);
      } else {
        put := PutHere(word, i, F, start, j, puts);
      }
      rc := if put != PutOk then Handled else Ok;
    }

    lemma EmittedLength(F: seq<Event>, start: Word, m: nat, puts: seq<Cell>)
      requires Emitted(F, start, m, puts)
      ensures |puts| == m
    {}

    /** A label costs the second pass nothing. */
    lemma SkipLabel(F: seq<Event>, start: Word, m: nat, puts: seq<Cell>, bound: nat)
      requires m < |F| && F[m].Label? && Emitted(F, start, m, puts) && Owners(F[..m], puts, bound)
      ensures Emitted(F, start, m + 1, puts + [BLANK]) && Owners(F[..m + 1], puts + [BLANK], bound)
    {
      hide Length;
      assert F[..m + 1][..m] == F[..m] && (puts + [BLANK])[..m] == puts;
    }

    method SeekTo(at: Word, ghost F: seq<Event>, ghost start: Word, ghost m: nat, ghost puts: seq<Cell>,
                  ghost bound: nat)
      requires m < |F| && F[m] == Org(at) && Emitted(F, start, m, puts) && Owners(F[..m], puts, bound)
      modifies section
      ensures Emitted(F, start, m + 1, puts + [BLANK]) && Owners(F[..m + 1], puts + [BLANK], bound)
      ensures section.data == old(section.data)
    {
      hide Length;
      assert F[..m + 1][..m] == F[..m] && (puts + [BLANK])[..m] == puts;
      section.Seek(at);
    }

    /** What the second pass has established after m items, the records below i done: the state is that of
        the pass on values. */
    ghost predicate Progress(S: seq<Scope>, L: seq<seq<Expr>>, F: seq<Event>, start: Word, m: nat, puts: seq<Cell>,
                             i: nat)
      reads this`lists, syms, section, section.data
    {
      && Chained(S) && WellFormed(F, |S|, |L|) && m <= |F|
      && Emitted(F, start, m, puts) && Owners(F[..m], puts, i)
      && Passed(S, L, F, start, m).Some?
      && var p := Passed(S, L, F, start, m).value;
      Assembling(p.scopes) && lists == p.lists && PutsAre(puts, p.words)
    }

    /** Progress past a label or an origin. */
    lemma ProgressMark(S: seq<Scope>, L: seq<seq<Expr>>, F: seq<Event>, start: Word, m: nat, puts: seq<Cell>, i: nat,
                       p: Pass)
      requires Chained(S) && WellFormed(F, |S|, |L|) && m < |F| && !F[m].Instr?
      requires Passed(S, L, F, start, m) == Some(p) && Assembling(p.scopes)
      requires lists == p.lists && PutsAre(puts, p.words)
      requires Emitted(F, start, m + 1, puts + [BLANK]) && Owners(F[..m + 1], puts + [BLANK], i)
      ensures Progress(S, L, F, start, m + 1, puts + [BLANK], i)
    {
      hide Assembling, Emitted, Owners, WellFormed, Passed;
      PassedNext(S, L, F, start, m);
    }

    /** The marks of a record, on the second pass. */
    method PassMarks(r: Record, i: nat, ghost S: seq<Scope>, ghost L: seq<seq<Expr>>, ghost F: seq<Event>,
                     ghost start: Word, ghost m: nat, ghost puts: seq<Cell>)
      returns (ghost n: nat, ghost more: seq<Cell>)
      requires Progress(S, L, F, start, m, puts, i)
      requires var o := if r.tag.Some? then m + 1 else m;
        && o <= |F| && (r.tag.Some? ==> F[m].Label?) && (r.org.Some? ==> o < |F| && F[o] == Org(r.org.value))
      modifies section
      ensures section.data == old(section.data)
      ensures n == m + (if r.tag.Some? then 1 else 0) + (if r.org.Some? then 1 else 0)
      ensures Progress(S, L, F, start, n, more, i) && |more| == n
    {
      hide Assembling, Emitted, Owners, WellFormed, Passed;
      n, more := m, puts;
      EmittedLength(F, start, n, more);
      if r.tag.Some? {
        SkipLabel(F, start, n, more, i);
        ProgressMark(S, L, F, start, n, more, i, Passed(S, L, F, start, n).value);
        n, more := n + 1, more + [BLANK];
      }
      if r.org.Some? {
        SeekTo(r.org.value, F, start, n, more, i);
        ProgressMark(S, L, F, start, n, more, i, Passed(S, L, F, start, n).value);
        n, more := n + 1, more + [BLANK];
      }
    }

    /** The instruction of a record, on the second pass. */
    method AssembleInstr(u: Use, i: nat, ghost S: seq<Scope>, ghost L: seq<seq<Expr>>, ghost F: seq<Event>,
                         ghost start: Word, ghost m: nat, ghost puts: seq<Cell>)
      returns (rc: Status, ghost more: seq<Cell>)
      requires Progress(S, L, F, start, m, puts, i) && Here(Location(F, start, m))
      requires m < |F| && F[m] == Instr(u) && InRange(F, start)
      modifies syms, this`lists, section, section.data
      ensures section.data == old(section.data) || fresh(section.data)
      ensures syms.Valid() && |syms.contexts| == |S| + 1
      ensures if rc.Ok? then Progress(S, L, F, start, m + 1, more, i + 1) else Passed(S, L, F, start, |F|) == None
    {
      hide ScopesOf, ContextsOk, LabelTables, WellFormed, Emitted, InRange, Location, Refused, Owners,
           Arch.FindInstr, CodeWord, Passed, AssembleOne, FirstOf, PutsAre;
      ghost var p := Passed(S, L, F, start, m).value;
      more := puts;
      var opr;
      EmittedLength(F, start, m, puts);
      CellOf(F, |S|, |L|, m, u);
      PassedNext(S, L, F, start, m);
      rc, opr := EvalOperands(u, p, Location(F, start, m));
      if !rc.Ok? {
        OneFails(p, u, Location(F, start, m), Refused(F, start, m));
        PassStops(S, L, F, start, m + 1, |F|);
        return;
      }
      rc, more := Emit(u, opr, i, F, start, m, puts);
      OneDone(p, u, Location(F, start, m), Refused(F, start, m));
      if !rc.Ok? {
        PassStops(S, L, F, start, m + 1, |F|);
        return;
      }
      PutsMore(puts, more, p.words);
    }

    /** `assemble_one` on the second pass. */
    method SecondPassRecord(A: nat, i: nat, ghost S: seq<Scope>, ghost L: seq<seq<Expr>>, ghost F: seq<Event>,
                            ghost start: Word, ghost puts: seq<Cell>)
      returns (rc: Status, ghost more: seq<Cell>)
      requires i < |records| && A == |S| && F == AllEvents(records) && InRange(F, start)
      requires Progress(S, L, F, start, |AllEvents(records[..i])|, puts, i)
      modifies syms, this`lists, section, section.data
      ensures section.data == old(section.data) || fresh(section.data)
      ensures syms.Valid() && |syms.contexts| == |S| + 1 && Chained(S) && WellFormed(F, |S|, |L|)
      ensures if rc.Ok? then Progress(S, L, F, start, |AllEvents(records[..i + 1])|, more, i + 1)
              else Passed(S, L, F, start, |F|) == None
    {
      hide ScopesOf, ContextsOk, LabelTables, WellFormed, AllEvents, Emitted, InRange, Location, Owners, Passed;
      var r := records[i];
      ghost var m := |AllEvents(records[..i])|;
      ItemsOfRecord(records, i);
      m, more := PassMarks(r, i, S, L, F, start, m, puts);
      HereIsLocation(F, start, m, more, i);
      BindHere(A, Passed(S, L, F, start, m).value.scopes, section.cursor);
      rc := Ok;
      if r.instr.Some? {
        rc, more := AssembleInstr(Use(r.ctx, r.instr.value, r.cell), i, S, L, F, start, m, more);
      } else {
        OwnersMore(F[..m], more, i);
      }
    }

    /** The cursor is where the program so far has landed. */
    lemma HereIsLocation(F: seq<Event>, start: Word, m: nat, puts: seq<Cell>, i: nat)
      requires m <= |F| && InRange(F, start) && Emitted(F, start, m, puts) && Owners(F[..m], puts, i)
      ensures section.cursor == Location(F, start, m)
    {
      hide Length, Landing, Written, Owners, Owned;
      PrefixLands(F, start, m, puts, i);
    }

    /** There is room for a word at the cursor. */
    lemma RoomHere(F: seq<Event>, start: Word, j: nat, puts: seq<Cell>, i: nat)
      requires j < |F| && F[j].Instr? && InRange(F, start)
      requires Emitted(F, start, j, puts) && Owners(F[..j], puts, i)
      ensures section.Room() && section.cursor == Location(F, start, j)
      ensures section.At(section.cursor).owner.Some? <==> Refused(F, start, j)
    {
      hide Length, Landing, Written, Owners, Owned, Cursor;
      PrefixLands(F, start, j, puts, i);
    }

    /** `sym_add_num` of the location counter. */
    method BindHere(A: nat, ghost S: seq<Scope>, at: Word)
      requires Assembling(S) && A == |S|
      modifies syms
      ensures Assembling(S) && Here(at)
    {
      hide ScopesOf, ContextsOk;
      ghost var T := syms.Scopes(LabelType);
      syms.Add(A, LabelType, "$", WordSym(at));
      assert syms.Scopes(LabelType)[..|S|] == T[..|S|];
    }

    lemma StartProgress(S: seq<Scope>, L: seq<seq<Expr>>, F: seq<Event>, start: Word)
      requires Chained(S) && WellFormed(F, |S|, |L|)
      requires syms.Valid() && LabelTables(syms.contexts) && syms.Scopes(LabelType) == S + [Scope(None, map[])]
      requires lists == L && section.Valid() && section.org == 0
      requires section.cursor == start && section.length == Length(F, start)
      requires forall a: nat :: section.At(a) == BLANK
      ensures Progress(S, L, F, start, 0, [], 0)
    {
      assert syms.Scopes(LabelType)[..|S|] == S;
      assert F[..0] == [];
    }

    /** `assemble`, over any chain of contexts and any layout: it succeeds exactly when the pass on values
        does, puts its words, and leaves the section Written describes. */
    method Assemble(ghost S: seq<Scope>, ghost L: seq<seq<Expr>>, ghost F: seq<Event>, ghost start: Word)
      returns (rc: Status, ghost puts: seq<Cell>)
      requires Valid() && S == syms.Scopes(LabelType) && L == lists && F == AllEvents(records)
        && start == section.cursor
      requires Chained(S) && WellFormed(F, |S|, |L|) && InRange(F, start)
      requires section.org == 0 && section.length == Length(F, start)
      requires forall a: nat :: section.At(a) == BLANK
      modifies syms, this`lists, section, section.data
      ensures section.data == old(section.data) || fresh(section.data)
      ensures rc.Ok? <==> Passed(S, L, F, start, |F|).Some?
      ensures rc.Ok? ==> PutsAre(puts, Passed(S, L, F, start, |F|).value.words)
      ensures rc.Ok? ==> section.Valid() && Owners(F, puts, |records|)
                         && section.Is(Written(F, puts, start, Length(F, start)))
    {
      hide ScopesOf, ContextsOk, WellFormed, AllEvents, InRange, Owners, Written, Length, Passed;
      var A := syms.ContextCreate(None);
      rc, puts := Ok, [];
      StartProgress(S, L, F, start);
      NoEvents(records);
      var i := 0;
      while i < |records|
        invariant 0 <= i <= |records|
        invariant section.data == old(section.data) || fresh(section.data)
        invariant if rc.Ok? then Progress(S, L, F, start, |AllEvents(records[..i])|, puts, i)
                  else Passed(S, L, F, start, |F|) == None
        invariant syms.Valid() && |syms.contexts| == |S| + 1
      {
        if rc.Ok? {
          rc, puts := SecondPassRecord(A, i, S, L, F, start, puts);
        }
        i := i + 1;
      }
      assert records[..i] == records && F[..|F|] == F;
      syms.ContextDestroy();
    }
  }

  /** The cells put hold the words. */
  ghost predicate PutsAre(puts: seq<Cell>, words: seq<Word>) {
    |puts| == |words| && forall j :: 0 <= j < |puts| ==> puts[j].value == words[j]
  }

  lemma PutsMore(puts: seq<Cell>, more: seq<Cell>, words: seq<Word>)
    requires PutsAre(puts, words) && puts <= more && |more| == |puts| + 1
    ensures PutsAre(more, words + [more[|puts|].value])
  {}

  lemma OneFails(p: Pass, u: Use, at: Word, refused: bool)
    requires Chained(p.scopes) && u.ctx < |p.scopes| && u.cell < |p.lists|
    requires var es := p.lists[u.cell]; !(|es| <= 1 && FirstOf(p.scopes, u.ctx, at, es).tree.Number?)
    ensures AssembleOne(p, u, at, refused) == None
  {}

  lemma OneDone(p: Pass, u: Use, at: Word, refused: bool)
    requires Chained(p.scopes) && u.ctx < |p.scopes| && u.cell < |p.lists|
    requires var es := p.lists[u.cell]; |es| <= 1 && FirstOf(p.scopes, u.ctx, at, es).tree.Number?
    ensures var es := p.lists[u.cell]; var o := FirstOf(p.scopes, u.ctx, at, es);
      var known := Arch.FindInstr(u.mnemonic);
      if known.None? || (known.value.Directive? && refused) then AssembleOne(p, u, at, refused) == None
      else
        && CodeWord(u.mnemonic, o.tree.value).Some?
        && AssembleOne(p, u, at, refused)
           == Some(Pass(o.scopes, if es == [] then p.lists else p.lists[u.cell := [o.tree]],
                        p.words + [CodeWord(u.mnemonic, o.tree.value).value]))
  {
    hide FirstOf, Arch.FindInstr;
    Arch.FindInstrKind(u.mnemonic);
  }

  lemma CellOf(F: seq<Event>, contexts: nat, lists: nat, m: nat, u: Use)
    requires WellFormed(F, contexts, lists) && m < |F| && F[m] == Instr(u)
    ensures u.ctx < contexts && u.cell < lists
  {}

  lemma OwnersMore(F: seq<Event>, puts: seq<Cell>, i: nat)
    requires Owners(F, puts, i)
    ensures Owners(F, puts, i + 1)
  {}

  lemma OwnersNext(F: seq<Event>, j: nat, puts: seq<Cell>, i: nat, word: Word)
    requires j < |F| && Owners(F[..j], puts, i)
    ensures Owners(F[..j + 1], puts + [Cell(word, Some(i))], i + 1)
  {
    assert forall k :: 0 <= k < j ==> F[..j + 1][k] == F[..j][k];
  }

  /** The next word applied to what has been written. */
  lemma WrittenNext(F: seq<Event>, start: Word, j: nat, puts: seq<Cell>, cell: Cell)
    requires j < |F| && F[j].Instr? && |puts| == j
    ensures Written(F[..j + 1], puts + [cell], start, Length(F, start))
         == Apply(Written(F[..j], puts, start, Length(F, start)), Put(cell.value, cell.owner))
  {
    hide Length;
    assert F[..j + 1][..j] == F[..j] && (puts + [cell])[..j] == puts;
  }

  /** The first items occupy what they have landed on, behind the layout. */
  lemma PrefixLands(F: seq<Event>, start: Word, m: nat, puts: seq<Cell>, i: nat)
    requires m <= |F| && InRange(F, start) && Owners(F[..m], puts, i)
    ensures Occupies(Written(F[..m], puts, start, Length(F, start)), Landing(F[..m], start), Length(F, start))
    ensures Location(F, start, m) <= Address(F, start, m)
  {
    hide Landing, Written, Owned, Occupies;
    DistinctPrefix(F, start, m);
    LandingBehind(F[..m], start);
    LengthPrefix(F, start, m);
    WrittenLands(F[..m], puts, start, Length(F, start));
  }

  /** Every context has a label table. */
  ghost predicate LabelTables(cs: seq<Context>) {
    forall c :: 0 <= c < |cs| ==> cs[c].Get(LabelType).Some?
  }
}
