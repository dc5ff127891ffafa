/** The fully aliased page of store behind the simulator and the disassembler (memory.h, memory.c). */
module Memory {
  import opened Words

  /** `read_word` on the contents of a page: the address is reduced with `%`. */
  function Load(s: seq<Word>, addr: nat): Word
    requires |s| > 0
  {
    s[addr % |s|]
  }

  /** `write_word` on the contents of a page: the address is masked with `&`. */
  function Store(s: seq<Word>, addr: nat, value: Word): (r: seq<Word>)
    requires |s| > 0
    ensures |r| == |s|
  {
    AndBound(addr, |s| - 1);
    s[BitAnd(addr, |s| - 1) := value]
  }

  class Page {
    const data: array<Word>

    ghost predicate Valid()
      reads this
    {
      0 < data.Length < TWO32
    }

    /** `calloc`: all cells zero. */
    constructor (size: nat)
      requires 0 < size < TWO32
      ensures Valid() && fresh(data)
      ensures data[..] == seq(size, i => 0)
    {
      data := new Word[size](i => 0);
      new;
      assert data[..] == seq(size, i => 0);
    }

    function ReadWord(addr: Word): (w: Word)
      requires Valid()
      reads this, data
      ensures w == Load(data[..], addr)
    {
      data[addr % data.Length]
    }

    method WriteWord(addr: Word, value: Word)
      requires Valid()
      modifies data
      ensures data[..] == Store(old(data[..]), addr, value)
      ensures IsPow2(data.Length) ==> data[..] == old(data[..])[addr % data.Length := value]
    {
      AndBound(addr, data.Length - 1);
      data[BitAnd(addr, data.Length - 1)] := value;
      if IsPow2(data.Length) {
        SameCell(data.Length, addr);
      }
    }
  }

  /** On a power-of-two page the read and the write address pick the same cell. */
  lemma SameCell(size: nat, addr: nat)
    requires size > 0 && IsPow2(size)
    ensures BitAnd(addr, size - 1) == addr % size
  {
    var k: nat :| size == Pow2(k);
    AndLowMask(addr, k);
  }

  /** A power-of-two page behaves as one array indexed modulo its size. */
  lemma StoreThenLoad(s: seq<Word>, a: nat, v: Word, b: nat)
    requires |s| > 0 && IsPow2(|s|)
    ensures Load(Store(s, a, v), b) == if a % |s| == b % |s| then v else Load(s, b)
  {
    SameCell(|s|, a);
  }

  /** Any sequence of writes, each an address and a word. */
  function StoreAll(s: seq<Word>, writes: seq<(nat, Word)>): (r: seq<Word>)
    requires |s| > 0
    ensures |r| == |s|
    decreases writes
  {
    if writes == [] then s
    else
      var n := |writes| - 1;
      Store(StoreAll(s, writes[..n]), writes[n].0, writes[n].1)
  }

  /** The last word written to an address that is the given cell modulo the size; the old word if none was. */
  function LastWritten(writes: seq<(nat, Word)>, cell: nat, size: nat, before: Word): Word
    requires size > 0
    decreases writes
  {
    if writes == [] then before
    else
      var n := |writes| - 1;
      if writes[n].0 % size == cell then writes[n].1 else LastWritten(writes[..n], cell, size, before)
  }

  /** After any writes a read gives the last word written to any alias of its address. */
  lemma {:induction false} WritesThenLoad(s: seq<Word>, writes: seq<(nat, Word)>, addr: nat)
    requires |s| > 0 && IsPow2(|s|)
    ensures Load(StoreAll(s, writes), addr) == LastWritten(writes, addr % |s|, |s|, s[addr % |s|])
    decreases writes
  {
    if writes != [] {
      hide Store, Load, IsPow2;
      var n := |writes| - 1;
      WritesThenLoad(s, writes[..n], addr);
      StoreThenLoad(StoreAll(s, writes[..n]), writes[n].0, writes[n].1, addr);
    }
  }

  /** A loader's writes: word i of the image to address i, in order. */
  function LoadImage(s: seq<Word>, image: seq<Word>): (r: seq<Word>)
    requires |s| > 0
    ensures |r| == |s|
  {
    if image == [] then s
    else Store(LoadImage(s, image[..|image| - 1]), Wrap(|image| - 1), image[|image| - 1])
  }

  lemma {:induction false} LoadImageOnPow2(s: seq<Word>, image: seq<Word>)
    requires IsPow2(|s|) && 0 < |s| < TWO32 && |image| <= |s|
    ensures forall i :: 0 <= i < |image| ==> LoadImage(s, image)[i] == image[i]
    ensures forall i :: |image| <= i < |s| ==> LoadImage(s, image)[i] == s[i]
  {
    hide Store, IsPow2;
    if image != [] {
      var n := |image| - 1;
      LoadImageOnPow2(s, image[..n]);
      StoreBelow(LoadImage(s, image[..n]), n, image[n]);
    }
  }

  /** On a power-of-two page an address below the size is its own cell. */
  lemma StoreBelow(s: seq<Word>, n: nat, v: Word)
    requires IsPow2(|s|) && n < |s| < TWO32
    ensures Store(s, Wrap(n), v) == s[n := v]
  {
    SmallMod(n, TWO32);
    SmallMod(n, |s|);
    SameCell(|s|, n);
  }

  lemma {:induction false} AndIdempotent(a: nat, m: nat)
    ensures BitAnd(BitAnd(a, m), m) == BitAnd(a, m)
  {
    if a > 0 && m > 0 {
      AndIdempotent(a / 2, m / 2);
      var r, h := BitAnd(a, m), BitAnd(a / 2, m / 2);
      var bit := if a % 2 == 1 && m % 2 == 1 then 1 else 0;
      assert r == bit + 2 * h && r % 2 == bit && r / 2 == h;
    }
  }

  lemma {:induction false} UnreachableCellKeepsZero(s: seq<Word>, image: seq<Word>, a: nat)
    requires a < |s| && s[a] == 0 && !Addresses(|s|, a)
    ensures LoadImage(s, image)[a] == 0
  {
    if image != [] {
      var n := |image| - 1;
      UnreachableCellKeepsZero(s, image[..n], a);
      AndIdempotent(Wrap(n), |s| - 1);
      AndBound(Wrap(n), |s| - 1);
    }
  }

  ghost predicate ReadsBack(image: seq<Word>)
    requires |image| > 0
  {
    LoadImage(seq(|image|, i => 0), image) == image
  }

  /** Loading into a page of exactly the image's length, as bdump.c:278-284 does, keeps every image
      of that length intact if and only if the length is a power of two. */
  lemma ExactPageFaithfulIffPow2(n: nat)
    requires 0 < n < TWO32
    ensures (forall image: seq<Word> :: |image| == n ==> ReadsBack(image)) <==> IsPow2(n)
  {
    var zero: seq<Word> := seq(n, i => 0);
    if IsPow2(n) {
      forall image: seq<Word> | |image| == n ensures ReadsBack(image) {
        LoadImageOnPow2(zero, image);
      }
    } else {
      AndAddressesIffPow2(n);
      var a: nat :| a < n && !Addresses(n, a);
      var ones: seq<Word> := seq(n, i => 1);
      UnreachableCellKeepsZero(zero, ones, a);
      assert LoadImage(zero, ones)[a] != ones[a];
      assert !ReadsBack(ones);
    }
  }

  /** The loop of `memory_checks` that shifts the size down to its lowest set bit. */
  method MemoryChecks(size: Word) returns (ok: bool)
    ensures ok <==> IsPow2(size)
  {
    if size == 0 {
      if IsPow2(0) {
        var k: nat :| 0 == Pow2(k);
        Pow2Monotonic(k, k);
      }
      return false;
    }
    var a: nat := size;
    while a % 2 == 0
      invariant a > 0
      invariant IsPow2(a) <==> IsPow2(size)
      decreases a
    {
      Pow2Halves(a);
      a := a / 2;
    }
    OddPow2(a);
    return a == 1;
  }

  lemma Pow2Halves(a: nat)
    requires a > 0 && a % 2 == 0
    ensures IsPow2(a) <==> IsPow2(a / 2)
  {
    if IsPow2(a) {
      var k: nat :| a == Pow2(k);
      assert a / 2 == Pow2(k - 1);
    }
    if IsPow2(a / 2) {
      var k: nat :| a / 2 == Pow2(k);
      assert a == Pow2(k + 1);
    }
  }

  lemma OddPow2(a: nat)
    requires a % 2 == 1
    ensures IsPow2(a) <==> a == 1
  {
    assert Pow2(0) == 1;
    if IsPow2(a) {
      var k: nat :| a == Pow2(k);
    }
  }

  /** The two rounding loops of the simulator's main function (bsim.c:219-222, bsim.c:256-258). */
  method StoreSize(requested: Word, length: Word) returns (size: Word)
    requires requested <= SIGN_BIT && length <= SIGN_BIT
    ensures IsPow2(size) && size >= 32 && size >= requested && size >= length
    ensures forall k: nat :: Pow2(k) >= 32 && Pow2(k) >= requested && Pow2(k) >= length ==> size <= Pow2(k)
  {
    assert Pow2(5) == 32;
    size := DoubleUntil(32, requested, 5);
    var k: nat :| size == Pow2(k);
    size := DoubleUntil(size, length, k);
  }

  method DoubleUntil(start: Word, bound: Word, ghost k: nat) returns (size: Word)
    requires bound <= SIGN_BIT && start == Pow2(k)
    ensures size >= bound && size >= start && IsPow2(size)
    ensures forall j: nat :: start <= Pow2(j) && bound <= Pow2(j) ==> size <= Pow2(j)
  {
    size := start;
    ghost var e := k;
    Pow2Monotonic(k, k);
    while size < bound
      invariant size == Pow2(e) && start <= size && 0 < size
      invariant forall j: nat :: start <= Pow2(j) && bound <= Pow2(j) ==> size <= Pow2(j)
      decreases TWO32 - size
    {
      forall j: nat | start <= Pow2(j) && bound <= Pow2(j) ensures 2 * size <= Pow2(j) {
        if j <= e {
          Pow2Monotonic(j, e);
        } else {
          Pow2Monotonic(e + 1, j);
        }
      }
      size := Wrap(2 * size);
      e := e + 1;
    }
  }
}
