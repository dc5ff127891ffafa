/** The loop of parse_stmts as steps on values: what has been pushed, what is pending, what is left. */
module ParseSteps {
  import opened Wrappers
  import opened Ast
  import opened Scopes
  import opened Layout
  import opened Macros
  import opened Records
  import opened Hygiene
  import opened Expansions
  import opened Traces
  import Libc

  /** One call of parse_stmts: the mnemonics it starts with, the statement list, its context, and the
      number of contexts there are. */
  datatype Job = Job(T: MnemonicTable, lists: seq<seq<Expr>>, rank: map<string, nat>, r: nat, ctx: nat,
                     stmts: seq<Stmt>, k: nat)

  ghost predicate JobOk(J: Job) {
    TableRanked(J.T, J.rank, |J.lists|) && Ranked(J.rank, J.r, |J.lists|, J.stmts) && J.ctx < J.k
  }

  /** What the list means. */
  ghost function Goal(J: Job): Option<Expansion>
    requires JobOk(J)
  {
    Expand(J.T, J.lists, J.rank, J.r, J.stmts, J.k)
  }

  /** What the call makes of it. */
  ghost function Course(J: Job): Option<Trace>
    requires JobOk(J)
  {
    Traced(J.T, J.lists, J.rank, J.r, J.stmts, J.ctx, J.k)
  }

  lemma RankedSuffix(rank: map<string, nat>, r: nat, lists: nat, stmts: seq<Stmt>, i: nat)
    requires Ranked(rank, r, lists, stmts) && i <= |stmts|
    ensures Ranked(rank, r, lists, stmts[i..])
  {}

  /** What remains to be made from statement i on. */
  ghost function Remaining(J: Job, T: MnemonicTable, i: nat, k: nat): Option<Trace>
    requires JobOk(J) && TableRanked(T, J.rank, |J.lists|) && i <= |J.stmts|
  {
    RankedSuffix(J.rank, J.r, |J.lists|, J.stmts, i);
    Traced(T, J.lists, J.rank, J.r, J.stmts[i..], J.ctx, k)
  }

  /** The record being put together when nothing is pending. */
  function Fresh(ctx: nat): Record {
    Record(ctx, None, None, None, 0)
  }

  /** No record carries both an origin and a label, so the order in which a record's are treated is that
      of the source. */
  ghost predicate OneMark(R: seq<Record>) {
    forall i :: 0 <= i < |R| ==> !(R[i].tag.Some? && R[i].org.Some?)
  }

  predicate Flagged(a: Record) {
    a.tag.Some? || a.org.Some?
  }

  /** The events of the pending record, if they will be flushed. */
  function Pending(J: Job, i: nat, a: Record): seq<Event>
    requires i <= |J.stmts|
  {
    if Later(J.stmts[i..]) then Events(a) else []
  }

  /** The state of the loop before statement i: R the records pushed, a the pending one, T the mnemonics.
      What has been made, put before what remains, is what the call is to make. */
  ghost predicate Mid(J: Job, i: nat, a: Record, info: seq<Info>, R: seq<Record>, T: MnemonicTable) {
    && JobOk(J) && i <= |J.stmts| && TableRanked(T, J.rank, |J.lists|) && J.k <= |info|
    && RecordsOk(R, |info|, |J.lists|) && OneMark(R)
    && a.ctx == J.ctx && a.instr.None? && a.cell == 0 && !(a.tag.Some? && a.org.Some?)
    && (PlainBody(J.stmts) ==> T == J.T)
    && Course(J) == Then(Trace(info[J.k..], AllEvents(R) + Pending(J, i, a)), Remaining(J, T, i, |info|))
  }

  /** A finished call. */
  ghost predicate Done(J: Job, info: seq<Info>, R: seq<Record>, T: MnemonicTable) {
    && JobOk(J) && TableRanked(T, J.rank, |J.lists|) && J.k <= |info|
    && RecordsOk(R, |info|, |J.lists|) && OneMark(R)
    && (PlainBody(J.stmts) ==> T == J.T)
    && Course(J) == Some(Trace(info[J.k..], AllEvents(R)))
  }

  lemma Start(J: Job, info: seq<Info>)
    requires JobOk(J) && |info| == J.k
    ensures Mid(J, 0, Fresh(J.ctx), info, [], J.T)
  {
    assert J.stmts[0..] == J.stmts;
    assert AllEvents([]) + Pending(J, 0, Fresh(J.ctx)) == [];
    assert info[J.k..] == [];
    ThenNothing(Course(J));
  }

  /** When the list is used up, what has been pushed is what the call was to make. */
  lemma Finish(J: Job, a: Record, info: seq<Info>, R: seq<Record>, T: MnemonicTable)
    requires Mid(J, |J.stmts|, a, info, R, T)
    ensures Done(J, info, R, T)
  {
    assert AllEvents(R) + Pending(J, |J.stmts|, a) == AllEvents(R);
    assert Remaining(J, T, |J.stmts|, |info|) == Some(Trace([], []));
    assert info[J.k..] + [] == info[J.k..] && AllEvents(R) + [] == AllEvents(R);
  }

  /** A step for statement i that makes the contexts `made` and adds the events `added`. */
  lemma Advance(J: Job, i: nat, a: Record, info: seq<Info>, R: seq<Record>, T: MnemonicTable, b: Record,
                made: seq<Info>, R': seq<Record>, T': MnemonicTable, added: seq<Event>)
    requires Mid(J, i, a, info, R, T) && i < |J.stmts|
    requires TableRanked(T', J.rank, |J.lists|) && (PlainBody(J.stmts) ==> T' == T)
    requires RecordsOk(R', |info| + |made|, |J.lists|) && OneMark(R')
    requires b.ctx == J.ctx && b.instr.None? && b.cell == 0 && !(b.tag.Some? && b.org.Some?)
    requires AllEvents(R') + Pending(J, i + 1, b) == AllEvents(R) + Pending(J, i, a) + added
    requires Remaining(J, T, i, |info|) == Then(Trace(made, added), Remaining(J, T', i + 1, |info| + |made|))
    ensures Mid(J, i + 1, b, info + made, R', T')
  {
    hide Then, Remaining, Course, TableRanked, PlainBody, RecordsOk, AllEvents;
    ThenTwice(Trace(info[J.k..], AllEvents(R) + Pending(J, i, a)), Trace(made, added),
              Remaining(J, T', i + 1, |info| + |made|));
    assert (info + made)[J.k..] == info[J.k..] + made;
  }

  lemma FlushEvents(R: seq<Record>, a: Record)
    requires a.instr.None?
    ensures AllEvents(if Flagged(a) then R + [a] else R) == AllEvents(R) + Events(a)
  {
    if Flagged(a) {
      AllEventsPush(R, a);
    } else {
      assert Events(a) == [];
    }
  }

  /** A label or an origin: whatever was pending is flushed, and the new mark becomes pending. */
  lemma MarkStep(J: Job, i: nat, a: Record, info: seq<Info>, R: seq<Record>, T: MnemonicTable, b: Record)
    requires Mid(J, i, a, info, R, T) && i < |J.stmts|
    requires (J.stmts[i].LabelStmt? && b == Fresh(J.ctx).(tag := Some(J.stmts[i].name)))
          || (J.stmts[i].OrgStmt? && b == Fresh(J.ctx).(org := Some(J.stmts[i].at)))
    ensures Mid(J, i + 1, b, info, if Flagged(a) then R + [a] else R, T)
  {
    hide TableRanked, Ranked, StmtRanked, Course, Events, AllEvents, Remaining, Then;
    var R' := if Flagged(a) then R + [a] else R;
    FlushEvents(R, a);
    assert Later(J.stmts[i..]);
    var added := Pending(J, i + 1, b);
    MarkRemaining(J, i, T, |info|, b);
    assert info + [] == info;
    Advance(J, i, a, info, R, T, b, [], R', T, added);
  }

  lemma MarkRemaining(J: Job, i: nat, T: MnemonicTable, k: nat, b: Record)
    requires JobOk(J) && TableRanked(T, J.rank, |J.lists|) && i < |J.stmts|
    requires (J.stmts[i].LabelStmt? && b == Fresh(J.ctx).(tag := Some(J.stmts[i].name)))
          || (J.stmts[i].OrgStmt? && b == Fresh(J.ctx).(org := Some(J.stmts[i].at)))
    ensures Remaining(J, T, i, k) == Then(Trace([], Pending(J, i + 1, b)), Remaining(J, T, i + 1, k))
  {
    hide TableRanked;
    var s := J.stmts[i..];
    RankedSuffix(J.rank, J.r, |J.lists|, J.stmts, i);
    assert s[0] == J.stmts[i] && s[1..] == J.stmts[i + 1..];
    assert Events(b) == [if J.stmts[i].LabelStmt? then Label(Tag(J.ctx, J.stmts[i].name)) else Org(J.stmts[i].at)];
  }

  /** A macro definition. */
  lemma DefineStep(J: Job, i: nat, a: Record, info: seq<Info>, R: seq<Record>, T: MnemonicTable)
    requires Mid(J, i, a, info, R, T) && i < |J.stmts| && J.stmts[i].MacroStmt?
    ensures var s := J.stmts[i]; Mid(J, i + 1, a, info, R, Define(T, s.name, s.formals, s.body))
  {
    hide TableRanked, Course;
    var s := J.stmts[i];
    var T' := Define(T, s.name, s.formals, s.body);
    var rest := J.stmts[i..];
    RankedSuffix(J.rank, J.r, |J.lists|, J.stmts, i);
    assert rest[0] == s && rest[1..] == J.stmts[i + 1..];
    DefinitionRanked(J, i, T);
    ThenNothing(Remaining(J, T', i + 1, |info|));
    assert info + [] == info;
    Advance(J, i, a, info, R, T, a, [], R, T', []);
  }

  lemma DefinitionRanked(J: Job, i: nat, T: MnemonicTable)
    requires JobOk(J) && TableRanked(T, J.rank, |J.lists|) && i < |J.stmts| && J.stmts[i].MacroStmt?
    ensures var s := J.stmts[i]; TableRanked(Define(T, s.name, s.formals, s.body), J.rank, |J.lists|)
  {
    assert StmtRanked(J.rank, J.r, |J.lists|, J.stmts[i]);
    DefineRanked(T, J.rank, |J.lists|, J.r, J.stmts[i]);
  }

  /** An instruction that is not a macro call completes the pending record. */
  lemma InstrStep(J: Job, i: nat, a: Record, info: seq<Info>, R: seq<Record>, T: MnemonicTable)
    requires Mid(J, i, a, info, R, T) && i < |J.stmts| && J.stmts[i].InstrStmt?
    requires MacroOf(T, J.stmts[i].mnemonic).None?
    ensures var s := J.stmts[i];
      && s.cell < |J.lists|
      && Mid(J, i + 1, Fresh(J.ctx), info, R + [a.(instr := Some(s.mnemonic), cell := s.cell)], T)
  {
    hide TableRanked, Ranked, StmtRanked, Course, MacroOf, Events, AllEvents, Remaining, Then;
    var s := J.stmts[i];
    InstrRemaining(J, i, T, |info|);
    assert Later(J.stmts[i..]);
    var full := a.(instr := Some(s.mnemonic), cell := s.cell);
    var added: seq<Event> := [Instr(Use(J.ctx, s.mnemonic, s.cell))];
    AllEventsPush(R, full);
    InstrEvents(a, s.mnemonic, s.cell);
    NothingPending(J, i + 1);
    Associates(AllEvents(R), Events(a), added);
    assert AllEvents(R + [full]) + [] == AllEvents(R + [full]);
    assert info + [] == info;
    Advance(J, i, a, info, R, T, Fresh(J.ctx), [], R + [full], T, added);
  }

  lemma InstrRemaining(J: Job, i: nat, T: MnemonicTable, k: nat)
    requires JobOk(J) && TableRanked(T, J.rank, |J.lists|) && i < |J.stmts| && J.stmts[i].InstrStmt?
    requires MacroOf(T, J.stmts[i].mnemonic).None?
    ensures var s := J.stmts[i];
      && s.cell < |J.lists|
      && Remaining(J, T, i, k) == Then(Trace([], [Instr(Use(J.ctx, s.mnemonic, s.cell))]), Remaining(J, T, i + 1, k))
  {
    hide TableRanked, MacroOf;
    var rest := J.stmts[i..];
    RankedSuffix(J.rank, J.r, |J.lists|, J.stmts, i);
    assert rest[0] == J.stmts[i] && rest[1..] == J.stmts[i + 1..];
    assert StmtRanked(J.rank, J.r, |J.lists|, J.stmts[i]);
  }

  lemma InstrEvents(a: Record, mnemonic: string, cell: nat)
    requires a.instr.None?
    ensures Events(a.(instr := Some(mnemonic), cell := cell)) == Events(a) + [Instr(Use(a.ctx, mnemonic, cell))]
  {}

  lemma NothingPending(J: Job, i: nat)
    requires i <= |J.stmts|
    ensures Pending(J, i, Fresh(J.ctx)) == []
  {}

  // ----- macro calls -----

  /** The call of parse_stmts for an application in context J.ctx when there are k contexts. */
  function CallJob(J: Job, T: MnemonicTable, m: Mnemonic, key: string, k: nat): Job
    requires m.Macro? && key in J.rank
  {
    Job(T, J.lists, J.rank, J.rank[key], k, m.body, k + 1)
  }

  function CallInfo(J: Job, m: Mnemonic, actuals: seq<Expr>): Info
    requires m.Macro? && |actuals| == |m.formals|
  {
    Applying(J.ctx, m.formals, actuals, Labels(m.body))
  }

  /** Statement i is a call of m. */
  ghost predicate Calls(J: Job, i: nat, T: MnemonicTable, m: Mnemonic, key: string, cell: nat) {
    && JobOk(J) && TableRanked(T, J.rank, |J.lists|) && i < |J.stmts|
    && J.stmts[i].InstrStmt? && J.stmts[i].cell == cell < |J.lists|
    && key == Libc.Fold(J.stmts[i].mnemonic) && MacroOf(T, J.stmts[i].mnemonic) == Some(m)
    && m.Macro? && key in J.rank && J.rank[key] < J.r && PlainBody(m.body)
    && Ranked(J.rank, J.rank[key], |J.lists|, m.body)
  }

  lemma CallRanked(J: Job, i: nat, T: MnemonicTable, m: Mnemonic)
    requires JobOk(J) && TableRanked(T, J.rank, |J.lists|) && i < |J.stmts|
    requires J.stmts[i].InstrStmt? && MacroOf(T, J.stmts[i].mnemonic) == Some(m)
    ensures Calls(J, i, T, m, Libc.Fold(J.stmts[i].mnemonic), J.stmts[i].cell)
  {
    assert StmtRanked(J.rank, J.r, |J.lists|, J.stmts[i]);
  }

  lemma CallRemaining(J: Job, i: nat, T: MnemonicTable, m: Mnemonic, key: string, cell: nat, k: nat)
    requires Calls(J, i, T, m, key, cell) && J.ctx < k
    ensures |J.lists[cell]| != |m.formals| ==> Remaining(J, T, i, k) == None
    ensures JobOk(CallJob(J, T, m, key, k))
    ensures |J.lists[cell]| == |m.formals| ==>
      Remaining(J, T, i, k) ==
        match Course(CallJob(J, T, m, key, k))
        case None => None
        case Some(t) =>
          Then(Trace([CallInfo(J, m, J.lists[cell])] + t.info, t.events), Remaining(J, T, i + 1, k + 1 + |t.info|))
  {
    hide FormalMap, Labels, Later;
    var rest := J.stmts[i..];
    RankedSuffix(J.rank, J.r, |J.lists|, J.stmts, i);
    assert rest[0] == J.stmts[i] && rest[1..] == J.stmts[i + 1..];
    assert T[key] == MnemSym(m);
    var x := TracedCall(T, J.lists, J.rank, J.r, m, key, J.lists[cell], J.ctx, k);
    assert Remaining(J, T, i, k) == match x case None => None
                                            case Some(t) => Then(t, Remaining(J, T, i + 1, k + |t.info|));
    if |J.lists[cell]| == |m.formals| && x.Some? {
      var t := Course(CallJob(J, T, m, key, k)).value;
      assert [] + t.events == t.events;
    }
  }

  lemma RecordsOkMore(R: seq<Record>, Q: seq<Record>, contexts: nat, more: nat, lists: nat)
    requires RecordsOk(R, contexts, lists) && RecordsOk(Q, more, lists) && contexts <= more
    ensures RecordsOk(R + Q, more, lists)
  {}

  lemma OneMarkAppend(R: seq<Record>, Q: seq<Record>)
    requires OneMark(R) && OneMark(Q)
    ensures OneMark(R + Q)
  {}

  /** A call that came to its end. */
  lemma CallStep(J: Job, i: nat, a: Record, info: seq<Info>, R: seq<Record>, T: MnemonicTable, m: Mnemonic, key: string,
                 cell: nat, inner: seq<Info>, Rs: seq<Record>)
    requires Mid(J, i, a, info, R, T)
    requires Calls(J, i, T, m, key, cell) && |J.lists[cell]| == |m.formals|
    requires info + [CallInfo(J, m, J.lists[cell])] <= inner
    requires Done(CallJob(J, T, m, key, |info|), inner, Rs, T)
    ensures Mid(J, i + 1, Fresh(J.ctx), inner, (if Flagged(a) then R + [a] else R) + Rs, T)
  {
    hide FormalMap, Remaining, TableRanked, Course, Labels, AllEvents, Events, Ranked, StmtRanked, Then, MacroOf,
         RecordsOk, OneMark;
    var R1 := if Flagged(a) then R + [a] else R;
    var k, added := |info|, CallInfo(J, m, J.lists[cell]);
    CallRemaining(J, i, T, m, key, cell, k);
    FlushEvents(R, a);
    assert Later(J.stmts[i..]);
    AllEventsAppend(R1, Rs);
    NothingPending(J, i + 1);
    var made := inner[k..];
    assert inner == info + made && made == [added] + inner[k + 1..];
    FlushedOk(R, a, k, |J.lists|);
    RecordsOkMore(R1, Rs, k, |inner|, |J.lists|);
    OneMarkAppend(R1, Rs);
    assert AllEvents(R1 + Rs) + [] == AllEvents(R1 + Rs);
    Advance(J, i, a, info, R, T, Fresh(J.ctx), made, R1 + Rs, T, AllEvents(Rs));
  }

  lemma FlushedOk(R: seq<Record>, a: Record, contexts: nat, lists: nat)
    requires RecordsOk(R, contexts, lists) && OneMark(R)
    requires a.ctx < contexts && a.instr.None? && !(a.tag.Some? && a.org.Some?)
    ensures RecordsOk(if Flagged(a) then R + [a] else R, contexts, lists) && OneMark(if Flagged(a) then R + [a] else R)
  {}

  /** A call that failed leaves nothing to hope for. */
  lemma CallFails(J: Job, i: nat, a: Record, info: seq<Info>, R: seq<Record>, T: MnemonicTable, m: Mnemonic,
                  key: string, cell: nat)
    requires Mid(J, i, a, info, R, T) && Calls(J, i, T, m, key, cell)
    requires |J.lists[cell]| == |m.formals| ==>
      JobOk(CallJob(J, T, m, key, |info|)) && Course(CallJob(J, T, m, key, |info|)) == None
    ensures Course(J) == None
  {
    CallRemaining(J, i, T, m, key, cell, |info|);
  }

  /** A finished call has made the expansion. */
  lemma CourseExpands(J: Job, info: seq<Info>)
    requires JobOk(J) && InfoOk(info) && |info| == J.k && Labels(J.stmts) <= info[J.ctx].labels
    ensures TraceMatches(info, Course(J), J.lists, J.ctx, Labels(J.stmts), Goal(J))
  {
    TraceExpands(J.T, J.lists, J.rank, J.r, J.stmts, J.ctx, info);
  }
}
