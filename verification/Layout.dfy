/** Laid-out programs: the sequence of origins, labels and instructions that both passes walk over.

    L is the type of labels and P what is known of an instruction. */
module Layout {
  import opened Words

  datatype Item<+L, +P> = Org(at: Word) | Label(name: L) | Instr(payload: P)

  /** The location counter after the items. */
  function Cursor<L, P>(items: seq<Item<L, P>>, start: Word): Word {
    if items == [] then start
    else
      var c := Cursor(items[..|items| - 1], start);
      match items[|items| - 1]
      case Org(at) => at
      case Label(_) => c
      case Instr(_) => Wrap(c + 1)
  }

  /** The address of item j. */
  function Address<L, P>(items: seq<Item<L, P>>, start: Word, j: nat): Word
    requires j <= |items|
  {
    Cursor(items[..j], start)
  }

  /** Every label with the address of its last occurrence. */
  function Env<L(==), P>(items: seq<Item<L, P>>, start: Word): map<L, Word> {
    if items == [] then map[]
    else
      var before := items[..|items| - 1];
      var last := items[|items| - 1];
      if last.Label? then Env(before, start)[last.name := Cursor(before, start)] else Env(before, start)
  }

  /** One more than the highest address of an instruction. */
  function Length<L, P>(items: seq<Item<L, P>>, start: Word): nat {
    if items == [] then 0
    else
      var before := items[..|items| - 1];
      var n := Length(before, start);
      if items[|items| - 1].Instr? && Cursor(before, start) + 1 > n then Cursor(before, start) + 1 else n
  }

  /** Instructions j < k share no address. */
  ghost predicate DistinctAddresses<L, P>(items: seq<Item<L, P>>, start: Word) {
    forall j, k :: 0 <= j < k < |items| && items[j].Instr? && items[k].Instr? ==>
      Address(items, start, j) != Address(items, start, k)
  }

  /** No instruction lies so high that the section could not grow past it. */
  ghost predicate InRange<L, P>(items: seq<Item<L, P>>, start: Word) {
    forall j :: 0 <= j < |items| && items[j].Instr? ==> Address(items, start, j) + 0x400 < TWO32
  }

  lemma {:induction false} AddressOfPrefix<L, P>(items: seq<Item<L, P>>, more: seq<Item<L, P>>, start: Word, j: nat)
    requires j <= |items|
    ensures Address(items + more, start, j) == Address(items, start, j)
  {
    assert (items + more)[..j] == items[..j];
  }

  lemma NoItems<L, P>(start: Word)
    ensures Cursor<L, P>([], start) == start && Length<L, P>([], start) == 0 && Env<L, P>([], start) == map[]
  {}

  lemma CursorSnoc<L, P>(items: seq<Item<L, P>>, it: Item<L, P>, start: Word)
    ensures Cursor(items + [it], start) == (match it case Org(at) => at
                                                     case Label(_) => Cursor(items, start)
                                                     case Instr(_) => Wrap(Cursor(items, start) + 1))
    ensures Length(items + [it], start) ==
            (if it.Instr? && Cursor(items, start) + 1 > Length(items, start) then Cursor(items, start) + 1
             else Length(items, start))
  {
    assert (items + [it])[..|items|] == items;
  }

  lemma EnvSnoc<L, P>(items: seq<Item<L, P>>, it: Item<L, P>, start: Word)
    ensures Env(items + [it], start) ==
            (if it.Label? then Env(items, start)[it.name := Cursor(items, start)] else Env(items, start))
  {
    assert (items + [it])[..|items|] == items;
  }

  /** The length is a bound on all instruction addresses, and is reached. */
  lemma {:induction false} LengthBounds<L, P>(items: seq<Item<L, P>>, start: Word)
    ensures forall j :: 0 <= j < |items| && items[j].Instr? ==> Address(items, start, j) < Length(items, start)
    ensures Length(items, start) > 0 ==>
      exists j :: 0 <= j < |items| && items[j].Instr? && Address(items, start, j) + 1 == Length(items, start)
  {
    if items != [] {
      var n := |items| - 1;
      var before := items[..n];
      LengthBounds(before, start);
      assert items == before + [items[n]];
      forall j | 0 <= j < n ensures Address(items, start, j) == Address(before, start, j) {
        AddressOfPrefix(before, [items[n]], start, j);
      }
      assert Address(items, start, n) == Cursor(before, start);
    }
  }

  /** A label stands for the address of its last occurrence. */
  lemma {:induction false} EnvLast<L, P>(items: seq<Item<L, P>>, start: Word, j: nat)
    requires j < |items| && items[j].Label?
    requires forall k :: j < k < |items| ==> items[k] != items[j]
    ensures items[j].name in Env(items, start) && Env(items, start)[items[j].name] == Address(items, start, j)
  {
    var n := |items| - 1;
    if j < n {
      var before := items[..n];
      EnvLast(before, start, j);
      AddressOfPrefix(before, [items[n]], start, j);
      assert items == before + [items[n]] && items[n] != items[j];
    }
  }

  /** Two item sequences of the same shape: the same kinds in the same places, with the same origins. */
  ghost predicate SameShape<L, P, M, Q>(a: seq<Item<L, P>>, b: seq<Item<M, Q>>) {
    && |a| == |b|
    && forall j :: 0 <= j < |a| ==>
      && a[j].Org? == b[j].Org? && a[j].Label? == b[j].Label?
      && (a[j].Org? ==> a[j].at == b[j].at)
  }

  lemma {:induction false} ShapeDecidesLayout<L, P, M, Q>(a: seq<Item<L, P>>, b: seq<Item<M, Q>>, start: Word)
    requires SameShape(a, b)
    ensures Cursor(a, start) == Cursor(b, start) && Length(a, start) == Length(b, start)
  {
    if a != [] {
      ShapeDecidesLayout(a[..|a| - 1], b[..|b| - 1], start);
    }
  }

  lemma ShapeDecidesAddresses<L, P, M, Q>(a: seq<Item<L, P>>, b: seq<Item<M, Q>>, start: Word)
    requires SameShape(a, b)
    ensures forall j :: 0 <= j <= |a| ==> Address(a, start, j) == Address(b, start, j)
    ensures Length(a, start) == Length(b, start)
    ensures DistinctAddresses(a, start) <==> DistinctAddresses(b, start)
    ensures InRange(a, start) <==> InRange(b, start)
  {
    ShapeDecidesLayout(a, b, start);
    forall j | 0 <= j <= |a| ensures Address(a, start, j) == Address(b, start, j) {
      ShapeDecidesLayout(a[..j], b[..j], start);
    }
  }
}
