/** Records and the events they stand for, and what the passes over them should produce (bas.c,
    struct asm_abstract). */
module Records {
  import opened Words
  import opened Wrappers
  import opened Ast
  import opened Scopes
  import opened Layout
  import opened Overlap
  import Arch

  /** `struct asm_abstract`: the HAS_* flags are the presence of the optional fields. */
  datatype Record = Record(ctx: nat, tag: Option<string>, org: Option<Word>, instr: Option<string>, cell: nat)

  /** A label belongs to the context of its record. */
  datatype Tag = Tag(ctx: nat, name: string)

  /** An instruction: where its names are looked up, its mnemonic, and the operand list it points to. */
  datatype Use = Use(ctx: nat, mnemonic: string, cell: nat)

  type Event = Item<Tag, Use>

  /** What pass_one and assemble_one do for one record, in order: bind the label, move, emit. */
  function Events(r: Record): seq<Event> {
    (if r.tag.Some? then [Label(Tag(r.ctx, r.tag.value))] else [])
    + (if r.org.Some? then [Org(r.org.value)] else [])
    + (if r.instr.Some? then [Instr(Use(r.ctx, r.instr.value, r.cell))] else [])
  }

  function AllEvents(rs: seq<Record>): seq<Event> {
    if rs == [] then [] else AllEvents(rs[..|rs| - 1]) + Events(rs[|rs| - 1])
  }

  // ----- what the passes should produce -----

  /** T is S with every label of env bound to its word. */
  ghost predicate Bound(S: seq<Scope>, T: seq<Scope>, env: map<Tag, Word>) {
    && |T| == |S|
    && forall c :: 0 <= c < |S| ==>
      && T[c].parent == S[c].parent
      && (forall n :: n in T[c].syms <==> n in S[c].syms || Tag(c, n) in env)
      && forall n :: n in T[c].syms ==>
        T[c].syms[n] == if Tag(c, n) in env then WordSym(env[Tag(c, n)]) else S[c].syms[n]
  }

  /** The one way to bind the labels. */
  function BindAll(S: seq<Scope>, env: map<Tag, Word>): (T: seq<Scope>)
    ensures Bound(S, T, env)
  {
    seq(|S|, c requires 0 <= c < |S| => BindIn(S[c], c, env))
  }

  function BindIn(s: Scope, c: nat, env: map<Tag, Word>): (t: Scope)
    ensures t.parent == s.parent
    ensures forall n :: n in t.syms <==> n in s.syms || Tag(c, n) in env
    ensures forall n :: n in t.syms ==> t.syms[n] == if Tag(c, n) in env then WordSym(env[Tag(c, n)]) else s.syms[n]
  {
    var labels := set t | t in env && t.ctx == c :: t.name;
    assert forall n :: Tag(c, n) in env ==> n in labels;
    Scope(s.parent,
          map n | n in s.syms.Keys + labels :: if Tag(c, n) in env then WordSym(env[Tag(c, n)]) else s.syms[n])
  }

  lemma BoundUnique(S: seq<Scope>, T: seq<Scope>, env: map<Tag, Word>)
    requires Bound(S, T, env)
    ensures T == BindAll(S, env)
  {
    var U := BindAll(S, env);
    forall c | 0 <= c < |S| ensures T[c] == U[c] {
      assert T[c].syms == U[c].syms;
    }
  }

  /** The assembler's own context: the location counter, above the context of the record. */
  function Top(ctx: nat, at: Word): Scope {
    Scope(Some(ctx), map["$" := WordSym(at)])
  }

  /** The meaning of an operand of a record. */
  function DenAt(S: seq<Scope>, ctx: nat, at: Word, e: Expr): Option<Word>
    requires Chained(S) && ctx < |S|
  {
    TopChained(S, Top(ctx, at));
    Den(S + [Top(ctx, at)], |S|, e)
  }

  lemma TopChained(S: seq<Scope>, top: Scope)
    requires Chained(S) && (top.parent.Some? ==> top.parent.value < |S|)
    ensures Chained(S + [top])
  {}

  /** The position of the first instruction that uses an operand list; the length of items if none does. */
  function FirstUse(items: seq<Event>, cell: nat): (f: nat)
    ensures f <= |items|
    ensures f < |items| ==> items[f].Instr? && items[f].payload.cell == cell
    ensures forall j :: 0 <= j < f ==> !(items[j].Instr? && items[j].payload.cell == cell)
  {
    if items == [] then 0
    else if items[0].Instr? && items[0].payload.cell == cell then 0
    else 1 + FirstUse(items[1..], cell)
  }

  ghost predicate WellFormed(items: seq<Event>, contexts: nat, cells: nat) {
    forall j :: 0 <= j < |items| ==>
      && (items[j].Label? ==> items[j].name.ctx < contexts)
      && (items[j].Instr? ==> items[j].payload.ctx < contexts && items[j].payload.cell < cells)
  }

  /** The word an operand list stands for: its meaning at the first instruction that uses it, with `$` the
      cursor of the second pass there. */
  function ListValue(S: seq<Scope>, lists: seq<seq<Expr>>, items: seq<Event>, start: Word, cell: nat): Option<Word>
    requires Chained(S) && cell < |lists| && WellFormed(items, |S|, |lists|)
  {
    if lists[cell] == [] then Some(0)
    else
      var f := FirstUse(items, cell);
      if f == |items| then None
      else DenAt(S, items[f].payload.ctx, Location(items, start, f), lists[cell][0])
  }

  /** The word of a mnemonic applied to a value. */
  function CodeWord(mnemonic: string, value: Word): Option<Word> {
    match Arch.FindInstr(mnemonic)
    case Some(Instruction(_, opcode, operands)) => Some(Wrap(Arch.EncodeInstruction(opcode, operands, value)))
    case Some(Directive(_, NUM)) => Some(value)
    case Some(Directive(_, EJA)) => Some(Wrap(value as int - 1))
    case _ => None
  }

  /** Whatever its operand means, instruction j can be assembled: a known mnemonic, at most one operand, and
      no directive where put_word refuses. */
  ghost predicate Acceptable(lists: seq<seq<Expr>>, items: seq<Event>, start: Word, j: nat)
    requires j < |items| && items[j].Instr? && items[j].payload.cell < |lists|
  {
    var u := items[j].payload;
    && |lists[u.cell]| <= 1
    && Arch.FindInstr(u.mnemonic).Some?
    && (Arch.FindInstr(u.mnemonic).value.Directive? ==> !Refused(items, start, j))
  }

  /** Instruction j assembles: it is acceptable and its operand resolves. */
  ghost predicate Assembles(S: seq<Scope>, lists: seq<seq<Expr>>, items: seq<Event>, start: Word, j: nat)
    requires Chained(S) && WellFormed(items, |S|, |lists|) && j < |items| && items[j].Instr?
  {
    Acceptable(lists, items, start, j) && ListValue(S, lists, items, start, items[j].payload.cell).Some?
  }

  function ItemWord(S: seq<Scope>, lists: seq<seq<Expr>>, items: seq<Event>, start: Word, j: nat): Option<Word>
    requires Chained(S) && WellFormed(items, |S|, |lists|) && j < |items| && items[j].Instr?
  {
    var u := items[j].payload;
    var v := ListValue(S, lists, items, start, u.cell);
    if v.None? then None else CodeWord(u.mnemonic, v.value)
  }

  // ----- lemmas on items -----

  lemma NoEvents(rs: seq<Record>)
    ensures AllEvents(rs[..0]) == []
  {}

  lemma AllEventsSnoc(rs: seq<Record>, i: nat)
    requires i < |rs|
    ensures AllEvents(rs[..i + 1]) == AllEvents(rs[..i]) + Events(rs[i])
  {
    assert rs[..i + 1][..i] == rs[..i];
  }

  lemma {:induction false} AllEventsPrefix(rs: seq<Record>, i: nat)
    requires i <= |rs|
    ensures AllEvents(rs[..i]) <= AllEvents(rs)
    decreases |rs|
  {
    if i < |rs| {
      var n := |rs| - 1;
      AllEventsPrefix(rs[..n], i);
      assert rs[..n][..i] == rs[..i];
    } else {
      assert rs[..i] == rs;
    }
  }

  lemma InRangePrefix<L, P>(items: seq<Item<L, P>>, pre: seq<Item<L, P>>, start: Word)
    requires InRange(items, start) && pre <= items
    ensures InRange(pre, start)
    ensures forall j :: 0 <= j <= |pre| ==> Address(pre, start, j) == Address(items, start, j)
    ensures Address(items, start, |pre|) == Cursor(pre, start)
  {
    forall j | 0 <= j <= |pre| ensures Address(pre, start, j) == Address(items, start, j) {
      assert pre[..j] == items[..j];
    }
    assert items[..|pre|] == pre;
  }

  lemma EventsOfRecord(rs: seq<Record>, i: nat)
    requires i < |rs|
    ensures var F, m, es := AllEvents(rs), |AllEvents(rs[..i])|, Events(rs[i]);
      |AllEvents(rs[..i + 1])| == m + |es| <= |F| && forall k :: 0 <= k < |es| ==> F[m + k] == es[k]
  {
    hide Events, AllEvents;
    AllEventsSnoc(rs, i);
    AllEventsPrefix(rs, i + 1);
    var F, m, es := AllEvents(rs), |AllEvents(rs[..i])|, Events(rs[i]);
    forall k | 0 <= k < |es| ensures F[m + k] == es[k] {
      assert F[m + k] == AllEvents(rs[..i + 1])[m + k];
    }
  }

  lemma ItemsOfRecord(rs: seq<Record>, i: nat)
    requires i < |rs|
    ensures var F, m := AllEvents(rs), |AllEvents(rs[..i])|;
      && |AllEvents(rs[..i + 1])| == m + |Events(rs[i])| <= |F|
      && var r := rs[i];
      && var o := if r.tag.Some? then m + 1 else m;
      && var n := if r.org.Some? then o + 1 else o;
      && (r.tag.Some? ==> m < |F| && F[m] == Label(Tag(r.ctx, r.tag.value)))
      && (r.org.Some? ==> o < |F| && F[o] == Org(r.org.value))
      && (r.instr.Some? ==> n < |F| && F[n] == Instr(Use(r.ctx, r.instr.value, r.cell)))
      && |AllEvents(rs[..i + 1])| == if r.instr.Some? then n + 1 else n
  {
    hide AllEvents;
    EventsOfRecord(rs, i);
    var F, m, es, r := AllEvents(rs), |AllEvents(rs[..i])|, Events(rs[i]), rs[i];
    var o := if r.tag.Some? then 1 else 0;
    var n := if r.org.Some? then o + 1 else o;
    if r.tag.Some? { assert F[m + 0] == es[0]; }
    if r.org.Some? { assert F[m + o] == es[o]; }
    if r.instr.Some? { assert F[m + n] == es[n]; }
  }

  lemma AddressStep<L, P>(items: seq<Item<L, P>>, start: Word, j: nat)
    requires j < |items|
    ensures Address(items, start, j + 1) == match items[j] case Org(at) => at
                                                           case Label(_) => Address(items, start, j)
                                                           case Instr(_) => Wrap(Address(items, start, j) + 1)
  {
    assert items[..j + 1] == items[..j] + [items[j]];
    CursorSnoc(items[..j], items[j], start);
  }

  /** Every record points to an existing context and operand list. */
  ghost predicate RecordsOk(rs: seq<Record>, contexts: nat, lists: nat) {
    forall i :: 0 <= i < |rs| ==> rs[i].ctx < contexts && (rs[i].instr.Some? ==> rs[i].cell < lists)
  }

  lemma BoundNothing(S: seq<Scope>)
    ensures Bound(S, S, map[])
  {}

  lemma BoundMore(S: seq<Scope>, T: seq<Scope>, env: map<Tag, Word>, tag: Tag, at: Word)
    requires Bound(S, T, env) && tag.ctx < |S|
    ensures var c := tag.ctx;
      Bound(S, T[c := T[c].(syms := T[c].syms[tag.name := WordSym(at)])], env[tag := at])
  {}
}
