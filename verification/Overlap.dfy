/** Where the second pass puts what the first pass laid out. put_word refuses an owned word and then leaves
    the cursor where it is, and the second pass ignores that for machine instructions (bas.c:222-226), so
    where instructions overlap the two passes disagree. */
module Overlap {
  import opened Words
  import opened Layout
  import opened Sections

  /** The addresses owned so far and the cursor of the second pass. */
  datatype Place = Place(owned: set<nat>, cursor: Word)

  function Landing<L, P>(items: seq<Item<L, P>>, start: Word): Place {
    if items == [] then Place({}, start)
    else
      var p := Landing(items[..|items| - 1], start);
      match items[|items| - 1]
      case Org(at) => Place(p.owned, at)
      case Label(_) => p
      case Instr(_) => if p.cursor in p.owned then p else Place(p.owned + {p.cursor}, Wrap(p.cursor + 1))
  }

  /** The cursor of the second pass at item j, which is also the value of `$` there. */
  function Location<L, P>(items: seq<Item<L, P>>, start: Word, j: nat): Word
    requires j <= |items|
  {
    Landing(items[..j], start).cursor
  }

  /** The word of item j is refused. */
  ghost predicate Refused<L, P>(items: seq<Item<L, P>>, start: Word, j: nat)
    requires j <= |items|
  {
    Location(items, start, j) in Landing(items[..j], start).owned
  }

  lemma SameAddresses<L, P>(items: seq<Item<L, P>>, n: nat, start: Word)
    requires n <= |items|
    ensures forall j :: 0 <= j <= n ==> Address(items[..n], start, j) == Address(items, start, j)
    ensures Cursor(items[..n], start) == Address(items, start, n)
    ensures forall j :: 0 <= j <= n ==> items[..n][..j] == items[..j]
  {
    forall j | 0 <= j <= n ensures items[..n][..j] == items[..j] {}
  }

  lemma LastCursor<L, P>(items: seq<Item<L, P>>, start: Word)
    requires items != [] && InRange(items, start)
    ensures var n := |items| - 1;
      Cursor(items, start) == match items[n] case Org(at) => at case Label(_) => Address(items, start, n)
                                             case Instr(_) => Address(items, start, n) + 1
    ensures items[|items| - 1].Instr? ==> Address(items, start, |items| - 1) + 1 < TWO32
  {}

  /** The second pass never runs ahead of the layout. */
  lemma {:induction false} LandingBehind<L, P>(items: seq<Item<L, P>>, start: Word)
    requires InRange(items, start)
    ensures Landing(items, start).cursor <= Cursor(items, start)
    ensures forall a :: a in Landing(items, start).owned ==> a < Length(items, start)
  {
    if items != [] {
      var n := |items| - 1;
      SameAddresses(items, n, start);
      assert forall j :: 0 <= j < n ==> items[..n][j] == items[j];
      LandingBehind(items[..n], start);
      LastCursor(items, start);
    }
  }

  /** Without overlap the passes agree on every cursor, and what is owned are the addresses laid out. */
  lemma {:induction false} DistinctLands<L, P>(items: seq<Item<L, P>>, start: Word)
    requires InRange(items, start) && DistinctAddresses(items, start)
    ensures Landing(items, start).cursor == Cursor(items, start)
    ensures forall a :: a in Landing(items, start).owned <==> OwnedAt(items, start, a)
    ensures items != [] && items[|items| - 1].Instr? ==> !Refused(items, start, |items| - 1)
  {
    if items != [] {
      hide Address;
      var n := |items| - 1;
      var before := items[..n];
      SameAddresses(items, n, start);
      assert forall j :: 0 <= j < n ==> before[j] == items[j];
      DistinctLands(before, start);
      LastCursor(items, start);
      forall a
        ensures OwnedAt(items, start, a) <==>
                OwnedAt(before, start, a) || (items[n].Instr? && a == Address(items, start, n))
      {
        OwnedLast(items, start, a);
      }
    }
  }

  /** Some instruction is laid out at a. */
  ghost predicate OwnedAt<L, P>(items: seq<Item<L, P>>, start: Word, a: int) {
    exists j :: 0 <= j < |items| && items[j].Instr? && Address(items, start, j) == a
  }

  lemma OwnedLast<L, P>(items: seq<Item<L, P>>, start: Word, a: int)
    requires items != []
    ensures var n := |items| - 1;
      OwnedAt(items, start, a) <==> OwnedAt(items[..n], start, a) || (items[n].Instr? && a == Address(items, start, n))
  {
    hide Address;
    var n := |items| - 1;
    SameAddresses(items, n, start);
    if OwnedAt(items[..n], start, a) {
      var j :| 0 <= j < n && items[..n][j].Instr? && Address(items[..n], start, j) == a;
      assert items[j] == items[..n][j];
    }
    if OwnedAt(items, start, a) {
      var j :| 0 <= j < |items| && items[j].Instr? && Address(items, start, j) == a;
      if j < n {
        assert items[j] == items[..n][j];
      }
    }
  }

  lemma DistinctPrefix<L, P>(items: seq<Item<L, P>>, start: Word, n: nat)
    requires InRange(items, start) && n <= |items|
    ensures InRange(items[..n], start)
    ensures DistinctAddresses(items, start) ==> DistinctAddresses(items[..n], start)
  {
    hide Address;
    SameAddresses(items, n, start);
    assert forall j :: 0 <= j < n ==> items[..n][j] == items[j];
  }

  /** Where no addresses coincide, every word is put where it was laid out. */
  lemma DistinctLocations<L, P>(items: seq<Item<L, P>>, start: Word)
    requires InRange(items, start) && DistinctAddresses(items, start)
    ensures forall j :: 0 <= j <= |items| ==> Location(items, start, j) == Address(items, start, j)
    ensures forall j :: 0 <= j < |items| && items[j].Instr? ==> !Refused(items, start, j)
  {
    hide Landing;
    forall j | 0 <= j <= |items|
      ensures Location(items, start, j) == Address(items, start, j)
      ensures j < |items| && items[j].Instr? ==> !Refused(items, start, j)
    {
      DistinctPrefix(items, start, j);
      DistinctLands(items[..j], start);
      if j < |items| {
        DistinctPrefix(items, start, j + 1);
        DistinctLands(items[..j + 1], start);
        assert items[..j + 1][..j] == items[..j];
      }
    }
  }

  /** No word is refused if and only if no addresses coincide. */
  lemma {:induction false} RefusedExact<L, P>(items: seq<Item<L, P>>, start: Word)
    requires InRange(items, start)
    ensures (forall j :: 0 <= j < |items| && items[j].Instr? ==> !Refused(items, start, j))
       <==> DistinctAddresses(items, start)
  {
    if DistinctAddresses(items, start) {
      DistinctLocations(items, start);
    } else {
      hide Address, Landing;
      var n := |items| - 1;
      var before := items[..n];
      SameAddresses(items, n, start);
      DistinctPrefix(items, start, n);
      assert forall j :: 0 <= j < n ==> before[j] == items[j];
      RefusedExact(before, start);
      if DistinctAddresses(before, start) {
        DistinctLands(before, start);
        var j :| 0 <= j < n && items[j].Instr? && items[n].Instr?
          && Address(items, start, j) == Address(items, start, n);
        assert OwnedAt(before, start, Address(items, start, n));
        assert Refused(items, start, n);
      } else {
        var j :| 0 <= j < n && before[j].Instr? && Refused(before, start, j);
        assert Refused(items, start, j);
      }
    }
  }

  lemma {:induction false} ShapeDecidesLanding<L, P, M, Q>(a: seq<Item<L, P>>, b: seq<Item<M, Q>>, start: Word)
    requires SameShape(a, b)
    ensures Landing(a, start) == Landing(b, start)
  {
    if a != [] {
      ShapeDecidesLanding(a[..|a| - 1], b[..|b| - 1], start);
    }
  }

  lemma ShapeDecidesLocations<L, P, M, Q>(a: seq<Item<L, P>>, b: seq<Item<M, Q>>, start: Word)
    requires SameShape(a, b)
    ensures forall j :: 0 <= j <= |a| ==> Location(a, start, j) == Location(b, start, j)
    ensures forall j :: 0 <= j <= |a| ==> Refused(a, start, j) == Refused(b, start, j)
  {
    forall j | 0 <= j <= |a| ensures Landing(a[..j], start) == Landing(b[..j], start) {
      ShapeDecidesLanding(a[..j], b[..j], start);
    }
  }

  // ----- the words themselves -----

  /** The section as the second pass leaves it: puts[j] is what item j offers, and `length` the length the
      first pass made. */
  function Written<L, P>(items: seq<Item<L, P>>, puts: seq<Cell>, start: Word, length: nat): Image
    requires |puts| == |items|
  {
    if items == [] then Image(map[], length, start)
    else
      var n := |items| - 1;
      var s := Written(items[..n], puts[..n], start, length);
      match items[n]
      case Org(at) => Apply(s, Move(at))
      case Label(_) => s
      case Instr(_) => Apply(s, Put(puts[n].value, puts[n].owner))
  }

  /** Every instruction's word is owned by a record of its own. */
  ghost predicate Owned<L, P>(items: seq<Item<L, P>>, puts: seq<Cell>) {
    && |puts| == |items|
    && (forall j :: 0 <= j < |items| && items[j].Instr? ==> puts[j].owner.Some?)
    && forall j, k :: 0 <= j < k < |items| && items[j].Instr? && items[k].Instr? ==>
      puts[j].owner != puts[k].owner
  }

  /** The same, by one of the first `bound` records. */
  ghost predicate Owners<L, P>(items: seq<Item<L, P>>, puts: seq<Cell>, bound: nat) {
    Owned(items, puts) && forall j :: 0 <= j < |items| && items[j].Instr? ==> puts[j].owner.value < bound
  }

  /** The section occupies what has been landed on. */
  ghost predicate Occupies(s: Image, p: Place, length: nat) {
    && s.cursor == p.cursor && s.length == length
    && s.cells.Keys == p.owned && forall a :: a in s.cells ==> s.cells[a].owner.Some?
  }

  lemma OccupiesStep(s: Image, p: Place, length: nat, cell: Cell)
    requires Occupies(s, p, length) && cell.owner.Some? && p.cursor + 1 < TWO32 && p.cursor + 1 <= length
    ensures Occupies(Apply(s, Put(cell.value, cell.owner)),
                     if p.cursor in p.owned then p else Place(p.owned + {p.cursor}, Wrap(p.cursor + 1)), length)
  {
    SmallMod(p.cursor + 1, TWO32);
  }

  lemma {:induction false} WrittenLands<L, P>(items: seq<Item<L, P>>, puts: seq<Cell>, start: Word, length: nat)
    requires InRange(items, start) && Owned(items, puts) && Length(items, start) <= length
    ensures Occupies(Written(items, puts, start, length), Landing(items, start), length)
  {
    if items != [] {
      hide Address, Occupies, Owned, InRange, Length;
      var n := |items| - 1;
      DistinctPrefix(items, start, n);
      OwnedPrefix(items, puts);
      LengthPrefix(items, start, n);
      WrittenLands(items[..n], puts[..n], start, length);
      LandingBehind(items[..n], start);
      SameAddresses(items, n, start);
      LastCursor(items, start);
      LengthLast(items, start);
      var s, p := Written(items[..n], puts[..n], start, length), Landing(items[..n], start);
      match items[n] {
        case Org(at) => OccupiesMove(s, p, length, at);
        case Label(_) =>
        case Instr(_) => OccupiesStep(s, p, length, puts[n]);
      }
    } else {
      assert Written(items, puts, start, length) == Image(map[], length, start);
    }
  }

  lemma OwnedPrefix<L, P>(items: seq<Item<L, P>>, puts: seq<Cell>)
    requires Owned(items, puts) && items != []
    ensures Owned(items[..|items| - 1], puts[..|items| - 1])
    ensures items[|items| - 1].Instr? ==> puts[|items| - 1].owner.Some?
  {
    var n := |items| - 1;
    assert forall j :: 0 <= j < n ==> items[..n][j] == items[j] && puts[..n][j] == puts[j];
  }

  lemma LengthLast<L, P>(items: seq<Item<L, P>>, start: Word)
    requires items != []
    ensures items[|items| - 1].Instr? ==> Address(items, start, |items| - 1) + 1 <= Length(items, start)
  {}

  lemma {:induction false} LengthPrefix<L, P>(items: seq<Item<L, P>>, start: Word, m: nat)
    requires m <= |items|
    ensures Length(items[..m], start) <= Length(items, start)
    decreases |items|
  {
    if m < |items| {
      var n := |items| - 1;
      LengthPrefix(items[..n], start, m);
      assert items[..n][..m] == items[..m];
    } else {
      assert items[..m] == items;
    }
  }

  lemma OccupiesMove(s: Image, p: Place, length: nat, at: Word)
    requires Occupies(s, p, length)
    ensures Occupies(Apply(s, Move(at)), Place(p.owned, at), length)
  {}

  /** The word of item j is in the section, its own, at the address both passes lay it out at. */
  ghost predicate Lands<L, P>(items: seq<Item<L, P>>, puts: seq<Cell>, start: Word, s: Image, j: nat)
    requires |puts| == |items| && j < |items| && items[j].Instr?
  {
    Address(items, start, j) in s.cells && s.cells[Address(items, start, j)] == puts[j]
  }

  lemma {:induction false} DistinctIsFaithful<L, P>(items: seq<Item<L, P>>, puts: seq<Cell>, start: Word,
                                                    length: nat)
    requires InRange(items, start) && DistinctAddresses(items, start)
    requires Owned(items, puts) && Length(items, start) <= length
    ensures forall j :: 0 <= j < |items| && items[j].Instr? ==>
      Lands(items, puts, start, Written(items, puts, start, length), j)
  {
    if items != [] {
      hide Address, Landing;
      var n := |items| - 1;
      var before, pre := items[..n], puts[..n];
      var s := Written(before, pre, start, length);
      DistinctPrefix(items, start, n);
      SameAddresses(items, n, start);
      assert forall j :: 0 <= j < n ==> before[j] == items[j] && pre[j] == puts[j];
      assert Length(before, start) <= length;
      DistinctIsFaithful(before, pre, start, length);
      WrittenLands(before, pre, start, length);
      DistinctLands(before, start);
      FreeLast(items, start);
      forall j | 0 <= j < |items| && items[j].Instr?
        ensures Lands(items, puts, start, Written(items, puts, start, length), j)
      {
        if j < n {
          assert Lands(before, pre, start, s, j);
          LandsStill(items, puts, start, s, j);
        }
      }
    }
  }

  lemma FreeLast<L, P>(items: seq<Item<L, P>>, start: Word)
    requires items != [] && DistinctAddresses(items, start)
    ensures items[|items| - 1].Instr? ==>
      !OwnedAt(items[..|items| - 1], start, Address(items, start, |items| - 1))
  {
    hide Address;
    var n := |items| - 1;
    SameAddresses(items, n, start);
    assert forall j :: 0 <= j < n ==> items[..n][j] == items[j];
  }

  /** A word that has arrived stays when the last item is applied somewhere else. */
  lemma LandsStill<L, P>(items: seq<Item<L, P>>, puts: seq<Cell>, start: Word, s: Image, j: nat)
    requires |puts| == |items| && items != [] && j < |items| - 1 && items[j].Instr?
    requires items[..|items| - 1][j] == items[j]
    requires Lands(items[..|items| - 1], puts[..|items| - 1], start, s, j)
    requires items[|items| - 1].Instr? ==> s.cursor !in s.cells
    ensures var n := |items| - 1;
      Lands(items, puts, start, match items[n] case Org(at) => Apply(s, Move(at)) case Label(_) => s
                                               case Instr(_) => Apply(s, Put(puts[n].value, puts[n].owner)), j)
  {
    hide Address;
    SameAddresses(items, |items| - 1, start);
  }

  /** Every instruction's word arrives, under its own name, at the address it was laid out at, if and only
      if no two instructions are laid out at one address. */
  lemma OverlapExact<L, P>(items: seq<Item<L, P>>, puts: seq<Cell>, start: Word, length: nat)
    requires InRange(items, start) && Owned(items, puts) && Length(items, start) <= length
    ensures (forall j :: 0 <= j < |items| && items[j].Instr? ==>
               Lands(items, puts, start, Written(items, puts, start, length), j))
       <==> DistinctAddresses(items, start)
  {
    hide Written, Address;
    if DistinctAddresses(items, start) {
      DistinctIsFaithful(items, puts, start, length);
    } else {
      var s := Written(items, puts, start, length);
      var j, k :| 0 <= j < k < |items| && items[j].Instr? && items[k].Instr?
                  && Address(items, start, j) == Address(items, start, k);
      assert !(Lands(items, puts, start, s, j) && Lands(items, puts, start, s, k));
    }
  }

  /** Once the cursor stands on an owned word, every write up to the next origin is lost. */
  lemma {:induction false} OverlapSwallows(s: Image, ops: seq<Op>)
    requires s.cursor in s.cells && s.cells[s.cursor].owner.Some?
    requires forall i :: 0 <= i < |ops| ==> ops[i].Put?
    ensures ApplyAll(s, ops) == s
    decreases |ops|
  {
    if ops != [] {
      assert ops[0].Put?;
      OverlapSwallows(s, ops[1..]);
    }
  }
}
