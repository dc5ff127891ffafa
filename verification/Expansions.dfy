/** How the records produced by macro expansion relate to the substituted text: the bookkeeping behind
    parse_stmts, on values. */
module Expansions {
  import opened Ast
  import opened Layout
  import opened Macros
  import opened Records
  import opened Hygiene

  /** Expressions of one instruction, substituted from its context out to base. */
  function OutwardAll(info: seq<Info>, base: nat, c: nat, es: seq<Expr>): (r: seq<FlatExpr>)
    requires InfoOk(info) && c < |info|
    ensures |r| == |es| && forall i :: 0 <= i < |es| ==> r[i] == Outward(info, base, c, Lift(es[i]))
  {
    seq(|es|, i requires 0 <= i < |es| => Outward(info, base, c, Lift(es[i])))
  }

  /** A record's event as it stands in the text of context base once the calls below it are expanded. */
  function RelItem(info: seq<Info>, lists: seq<seq<Expr>>, base: nat, ev: Event): FlatItem
    requires InfoOk(info) && WellFormed([ev], |info|, |lists|)
  {
    assert [ev][0] == ev;
    match ev
    case Org(at) => Org(at)
    case Label(Tag(c, n)) => Label(if c <= base then User(n) else Local(c, n))
    case Instr(Use(c, m, cell)) => Instr(FlatInstr(m, cell, OutwardAll(info, base, c, lists[cell])))
  }

  function Rel(info: seq<Info>, lists: seq<seq<Expr>>, base: nat, evs: seq<Event>): (r: seq<FlatItem>)
    requires InfoOk(info) && WellFormed(evs, |info|, |lists|)
    ensures |r| == |evs|
    ensures forall j :: 0 <= j < |evs| ==>
      WellFormed([evs[j]], |info|, |lists|) && r[j] == RelItem(info, lists, base, evs[j])
  {
    assert forall j :: 0 <= j < |evs| ==> WellFormed([evs[j]], |info|, |lists|);
    seq(|evs|, j requires 0 <= j < |evs| => RelItem(info, lists, base, evs[j]))
  }

  /** x is c or a context made below it. */
  ghost predicate Below(info: seq<Info>, c: nat, x: nat)
    requires InfoOk(info) && x < |info|
    decreases x
  {
    x == c || (x > c && Below(info, c, info[x].parent))
  }

  function EventContext(ev: Event, default: nat): nat {
    match ev case Org(_) => default case Label(Tag(c, _)) => c case Instr(Use(c, _, _)) => c
  }

  /** Every event belongs to ctx or below; every label is one of its context's labels. */
  ghost predicate Placed(info: seq<Info>, ctx: nat, evs: seq<Event>)
    requires InfoOk(info) && ctx < |info|
  {
    forall j :: 0 <= j < |evs| ==>
      var c := EventContext(evs[j], ctx);
      && c < |info| && Below(info, ctx, c)
      && (evs[j].Label? ==> evs[j].name.name in info[c].labels)
  }

  lemma {:induction false} OutwardStep(info: seq<Info>, c: nat, x: nat, e: FlatExpr)
    requires InfoOk(info) && 0 < c < |info| && x < |info| && Below(info, c, x)
    ensures Outward(info, info[c].parent, x, e) == Subst(c, info[c].formals, info[c].labels, Outward(info, c, x, e))
    decreases x
  {
    var p := info[c].parent;
    if x == c {
      assert Outward(info, p, p, Subst(c, info[c].formals, info[c].labels, e))
          == Subst(c, info[c].formals, info[c].labels, e);
    } else {
      OutwardStep(info, c, info[x].parent, Subst(x, info[x].formals, info[x].labels, e));
    }
  }

  lemma RelStep(info: seq<Info>, lists: seq<seq<Expr>>, c: nat, ev: Event)
    requires InfoOk(info) && 0 < c < |info| && WellFormed([ev], |info|, |lists|) && Placed(info, c, [ev])
    ensures RelItem(info, lists, info[c].parent, ev)
         == SubstItem(c, info[c].formals, info[c].labels, RelItem(info, lists, c, ev))
  {
    assert [ev][0] == ev;
    var p := info[c].parent;
    match ev
    case Org(_) =>
    case Label(Tag(x, n)) => assert x >= c > p;
    case Instr(Use(x, m, cell)) =>
      forall i | 0 <= i < |lists[cell]|
        ensures Outward(info, p, x, Lift(lists[cell][i]))
             == Subst(c, info[c].formals, info[c].labels, Outward(info, c, x, Lift(lists[cell][i])))
      {
        OutwardStep(info, c, x, Lift(lists[cell][i]));
      }
      assert OutwardAll(info, p, x, lists[cell])
          == SubstAll(c, info[c].formals, info[c].labels, OutwardAll(info, c, x, lists[cell]));
  }

  /** Expanding one application: its events seen from the caller are the substituted events of its body. */
  lemma RelSubst(info: seq<Info>, lists: seq<seq<Expr>>, c: nat, evs: seq<Event>)
    requires InfoOk(info) && 0 < c < |info| && WellFormed(evs, |info|, |lists|) && Placed(info, c, evs)
    ensures Rel(info, lists, info[c].parent, evs)
         == SubstItems(c, info[c].formals, info[c].labels, Rel(info, lists, c, evs))
  {
    forall j | 0 <= j < |evs|
      ensures Rel(info, lists, info[c].parent, evs)[j]
           == SubstItem(c, info[c].formals, info[c].labels, Rel(info, lists, c, evs)[j])
    {
      assert WellFormed([evs[j]], |info|, |lists|);
      assert Placed(info, c, [evs[j]]) by { assert EventContext(evs[j], c) < |info|; }
      RelStep(info, lists, c, evs[j]);
    }
  }

  // ----- later contexts do not matter -----

  lemma {:induction false} OutwardPrefix(info: seq<Info>, more: seq<Info>, base: nat, c: nat, e: FlatExpr)
    requires InfoOk(info) && InfoOk(more) && info <= more && c < |info|
    ensures Outward(more, base, c, e) == Outward(info, base, c, e)
    decreases c
  {
    assert more[c] == info[c];
    if c > base {
      OutwardPrefix(info, more, base, info[c].parent, Subst(c, info[c].formals, info[c].labels, e));
    }
  }

  lemma RelPrefix(info: seq<Info>, more: seq<Info>, lists: seq<seq<Expr>>, base: nat, evs: seq<Event>)
    requires InfoOk(info) && InfoOk(more) && info <= more && WellFormed(evs, |info|, |lists|)
    ensures WellFormed(evs, |more|, |lists|)
    ensures Rel(more, lists, base, evs) == Rel(info, lists, base, evs)
  {
    forall j | 0 <= j < |evs| ensures Rel(more, lists, base, evs)[j] == Rel(info, lists, base, evs)[j] {
      assert WellFormed([evs[j]], |info|, |lists|);
      if evs[j].Instr? {
        var u := evs[j].payload;
        forall i | 0 <= i < |lists[u.cell]|
          ensures Outward(more, base, u.ctx, Lift(lists[u.cell][i]))
               == Outward(info, base, u.ctx, Lift(lists[u.cell][i]))
        {
          OutwardPrefix(info, more, base, u.ctx, Lift(lists[u.cell][i]));
        }
        assert OutwardAll(more, base, u.ctx, lists[u.cell]) == OutwardAll(info, base, u.ctx, lists[u.cell]);
      }
    }
  }

  lemma {:induction false} BelowPrefix(info: seq<Info>, more: seq<Info>, c: nat, x: nat)
    requires InfoOk(info) && InfoOk(more) && info <= more && x < |info|
    ensures Below(more, c, x) == Below(info, c, x)
    decreases x
  {
    assert more[x] == info[x];
    if x > c {
      BelowPrefix(info, more, c, info[x].parent);
    }
  }

  lemma PlacedPrefix(info: seq<Info>, more: seq<Info>, ctx: nat, evs: seq<Event>)
    requires InfoOk(info) && InfoOk(more) && info <= more && ctx < |info| && Placed(info, ctx, evs)
    ensures Placed(more, ctx, evs)
  {
    forall j | 0 <= j < |evs|
      ensures var c := EventContext(evs[j], ctx);
        c < |more| && Below(more, ctx, c) && (evs[j].Label? ==> evs[j].name.name in more[c].labels)
    {
      var c := EventContext(evs[j], ctx);
      BelowPrefix(info, more, ctx, c);
      assert more[c] == info[c];
    }
  }

  lemma {:induction false} BelowParent(info: seq<Info>, c: nat, x: nat)
    requires InfoOk(info) && 0 < c < |info| && x < |info| && Below(info, c, x)
    ensures Below(info, info[c].parent, x)
    decreases x
  {
    if x > c {
      BelowParent(info, c, info[x].parent);
    }
  }

  lemma PlacedParent(info: seq<Info>, c: nat, evs: seq<Event>)
    requires InfoOk(info) && 0 < c < |info| && Placed(info, c, evs)
    ensures Placed(info, info[c].parent, evs)
  {
    var p := info[c].parent;
    forall j | 0 <= j < |evs|
      ensures var x := EventContext(evs[j], p);
        x < |info| && Below(info, p, x) && (evs[j].Label? ==> evs[j].name.name in info[x].labels)
    {
      var x := EventContext(evs[j], c);
      BelowParent(info, c, x);
    }
  }

  lemma RelAppend(info: seq<Info>, lists: seq<seq<Expr>>, base: nat, a: seq<Event>, b: seq<Event>)
    requires InfoOk(info) && WellFormed(a, |info|, |lists|) && WellFormed(b, |info|, |lists|)
    ensures WellFormed(a + b, |info|, |lists|)
    ensures Rel(info, lists, base, a + b) == Rel(info, lists, base, a) + Rel(info, lists, base, b)
  {}

  lemma AllEventsPush(R: seq<Record>, a: Record)
    ensures AllEvents(R + [a]) == AllEvents(R) + Events(a)
  {
    assert (R + [a])[..|R|] == R;
  }

  lemma Associates<X>(a: seq<X>, b: seq<X>, c: seq<X>)
    ensures a + (b + c) == a + b + c
  {}

  lemma {:induction false} AllEventsAppend(a: seq<Record>, b: seq<Record>)
    ensures AllEvents(a + b) == AllEvents(a) + AllEvents(b)
  {
    if b == [] {
      assert a + b == a;
    } else {
      hide AllEvents, Events;
      var c, x := b[..|b| - 1], b[|b| - 1];
      assert b == c + [x];
      AllEventsAppend(a, c);
      Associates(a, c, [x]);
      AllEventsPush(a + c, x);
      AllEventsPush(c, x);
      Associates(AllEvents(a), AllEvents(c), Events(x));
    }
  }
}
