/** The output section: a growable array of words, each with the record that produced it (section.c). */
module Sections {
  import opened Words
  import opened Wrappers

  /** A word and its debug pointer; None is NULL. */
  datatype Cell = Cell(value: Word, owner: Option<nat>)

  const BLANK := Cell(0, None)
  const GROWTH := 0x400

  datatype PutResult = PutOk | BeforeStart | AlreadyThere

  class Section {
    var data: array<Cell>
    var capacity: Word
    var length: Word
    var org: Word
    var cursor: Word

    /** `struct section section = { 0 }`. */
    constructor ()
      ensures Valid() && fresh(data)
      ensures org == 0 && cursor == 0 && length == 0
      ensures forall i: nat :: At(i) == BLANK
    {
      data := new Cell[0];
      capacity, length, org, cursor := 0, 0, 0, 0;
    }

    ghost predicate Valid()
      reads this, data
    {
      data.Length == capacity && length <= capacity
      && forall i :: 0 <= i < data.Length && data[i].owner.Some? ==> i < length
    }

    /** The contents at offset i from the origin; blank beyond the allocation. */
    ghost function At(i: nat): Cell
      reads this, data
    {
      if i < data.Length then data[i] else BLANK
    }

    /** The section is the one the value describes. */
    ghost predicate Is(s: Image)
      reads this, data
    {
      && org == 0 && length == s.length && cursor == s.cursor
      && forall a: nat :: At(a) == if a in s.cells then s.cells[a] else BLANK
    }

    /** The array must be able to grow past the cursor without wrapping the 32-bit capacity. */
    ghost predicate Room()
      reads this
    {
      org <= cursor ==> cursor - org + GROWTH < TWO32 && cursor + 1 < TWO32
    }

    /** `put_word`. */
    method PutWord(word: Word, abs: Option<nat>) returns (rc: PutResult)
      requires Valid() && Room()
      modifies this, data
      ensures Valid() && org == old(org) && (data == old(data) || fresh(data))
      ensures var here := old(cursor) - org;
        if here < 0 then
          rc == BeforeStart && cursor == old(cursor) && length == old(length)
          && forall i: nat :: At(i) == old(At(i))
        else if old(At(here)).owner.Some? then
          rc == AlreadyThere && cursor == old(cursor) && length == old(length)
          && forall i: nat :: At(i) == old(At(i))
        else
          && rc == PutOk && cursor == old(cursor) + 1
          && length == (if here + 1 > old(length) then here + 1 else old(length))
          && forall i: nat :: At(i) == if i == here then Cell(word, abs) else old(At(i))
      ensures capacity == (if old(cursor) - org >= old(capacity) then old(cursor) - org + 0x400 else old(capacity))
      ensures forall s: Image :: old(Is(s)) ==> Is(Apply(s, Put(word, abs)))
    {
      if cursor < org {
        return BeforeStart;
      }
      var here := cursor - org;
      if here >= capacity {
        Grow(here + GROWTH);
      }
      if data[here].owner.Some? {
        return AlreadyThere;
      }
      data[here] := Cell(word, abs);
      cursor := cursor + 1;
      if cursor - org > length {
        length := cursor - org;
      }
      return PutOk;
    }

    /** `realloc` followed by clearing the new part. */
    method Grow(newCapacity: Word)
      requires Valid() && newCapacity > capacity
      modifies this`data, this`capacity
      ensures Valid() && capacity == newCapacity && fresh(data)
      ensures forall i: nat :: At(i) == old(At(i))
    {
      var bigger := new Cell[newCapacity](_ => BLANK);
      forall i | 0 <= i < data.Length {
        bigger[i] := data[i];
      }
      data, capacity := bigger, newCapacity;
    }

    /** Assignment to the cursor. */
    method Seek(at: Word)
      requires Valid()
      modifies this`cursor
      ensures Valid() && cursor == at
      ensures forall i: nat :: At(i) == old(At(i))
      ensures forall s: Image :: old(Is(s)) ==> Is(Apply(s, Move(at)))
    {
      cursor := at;
    }
  }

  // ----- any sequence of cursor moves and writes -----

  /** A section as a value: cells written so far by offset, the length and the cursor (origin 0). */
  datatype Image = Image(cells: map<nat, Cell>, length: nat, cursor: nat)

  datatype Op = Move(at: nat) | Put(word: Word, abs: Option<nat>)

  function Apply(s: Image, op: Op): Image {
    match op
    case Move(at) => s.(cursor := at)
    case Put(word, abs) =>
      if s.cursor in s.cells && s.cells[s.cursor].owner.Some? then s
      else Image(s.cells[s.cursor := Cell(word, abs)], if s.cursor + 1 > s.length then s.cursor + 1 else s.length,
                 s.cursor + 1)
  }

  function ApplyAll(s: Image, ops: seq<Op>): Image
    decreases ops
  {
    if ops == [] then s else ApplyAll(Apply(s, ops[0]), ops[1..])
  }

  ghost predicate Tight(s: Image) {
    && (forall a :: a in s.cells ==> a < s.length)
    && (s.length > 0 ==> s.length - 1 in s.cells)
  }

  /** Whatever is done to a section, an owned word is never overwritten, nothing written is lost, and
      the length stays one more than the highest offset written. */
  lemma {:induction false} SectionIntegrity(s: Image, ops: seq<Op>)
    requires Tight(s)
    ensures Tight(ApplyAll(s, ops))
    ensures s.cells.Keys <= ApplyAll(s, ops).cells.Keys
    ensures forall a :: a in s.cells && s.cells[a].owner.Some? ==> ApplyAll(s, ops).cells[a] == s.cells[a]
    decreases ops
  {
    if ops != [] {
      SectionIntegrity(Apply(s, ops[0]), ops[1..]);
    }
  }
}
