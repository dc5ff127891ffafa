/** 32-bit words (`word_t`, `uword_t`, `addr_t` and `num_t` of arch.h) and the bit operations of C on them.

    A word is kept as the unsigned number of its bits; `Wrap` is the conversion of an arithmetic
    result to 32 bits and `Signed` the reading of the same bits as `word_t`. */
module Words {
  const TWO32 := 0x1_0000_0000
  const SIGN_BIT := 0x8000_0000
  const TWO64 := 0x1_0000_0000_0000_0000

  type Word = w: int | 0 <= w < 0x1_0000_0000

  function Wrap(n: int): Word {
    n % TWO32
  }

  function Negate(w: Word): Word {
    Wrap(-(w as int))
  }

  function Subtract(a: Word, b: Word): Word {
    Wrap(a as int - b as int)
  }

  function Signed(w: Word): int {
    if w < SIGN_BIT then w else w - TWO32
  }

  function Pow2(k: nat): nat {
    if k == 0 then 1 else 2 * Pow2(k - 1)
  }

  ghost predicate IsPow2(n: nat) {
    exists k: nat :: n == Pow2(k)
  }

  /** `a << k`, before any truncation to the word size. */
  function ShiftLeft(a: nat, k: nat): nat {
    if k == 0 then a else 2 * ShiftLeft(a, k - 1)
  }

  /** `a >> k` of an unsigned operand. */
  function ShiftRight(a: nat, k: nat): nat {
    if k == 0 then a else ShiftRight(a / 2, k - 1)
  }

  /** Bitwise `a & b`. */
  function BitAnd(a: nat, b: nat): nat {
    if a == 0 || b == 0 then 0 else (if a % 2 == 1 && b % 2 == 1 then 1 else 0) + 2 * BitAnd(a / 2, b / 2)
  }

  /** Bitwise `a | b`. */
  function BitOr(a: nat, b: nat): nat
    decreases a + b
  {
    if a == 0 then b
    else if b == 0 then a
    else (if a % 2 + b % 2 > 0 then 1 else 0) + 2 * BitOr(a / 2, b / 2)
  }

  lemma AtLeastOneMultiple(m: int, k: int)
    requires m > 0 && k >= 1
    ensures m * k >= m
  {
    assert m * k == m + m * (k - 1);
    assert m * (k - 1) >= 0;
  }

  lemma DivModUnique(x: int, m: int, q: int, r: int)
    requires m > 0 && x == m * q + r && 0 <= r < m
    ensures x / m == q && x % m == r
  {
    var q', r' := x / m, x % m;
    var d := q - q';
    assert m * d == r' - r by {
      assert x == m * q' + r';
      assert m * d == m * q - m * q';
    }
    if d >= 1 {
      AtLeastOneMultiple(m, d);
    } else if d <= -1 {
      AtLeastOneMultiple(m, -d);
    }
  }

  lemma SmallMod(a: nat, m: nat)
    requires a < m
    ensures a % m == a
  {
    DivModUnique(a, m, 0, a);
  }

  lemma ModOfMultiple(x: int, k: int, m: int)
    requires m > 0
    ensures (x + m * k) % m == x % m
  {
    var q, r := x / m, x % m;
    assert x + m * k == m * (q + k) + r;
    DivModUnique(x + m * k, m, q + k, r);
  }

  lemma WrapSigned(w: Word)
    ensures Wrap(Signed(w)) == w
    ensures -SIGN_BIT <= Signed(w) < SIGN_BIT
  {
    if w >= SIGN_BIT {
      ModOfMultiple(w - TWO32, 1, TWO32);
    }
  }

  lemma {:induction false} Pow2Add(a: nat, b: nat)
    ensures Pow2(a + b) == Pow2(a) * Pow2(b)
  {
    if a > 0 {
      Pow2Add(a - 1, b);
      assert Pow2(a + b) == 2 * Pow2(a - 1 + b);
    }
  }

  lemma {:induction false} Pow2Monotonic(a: nat, b: nat)
    requires a <= b
    ensures 0 < Pow2(a) <= Pow2(b)
  {
    if a < b {
      Pow2Monotonic(a, b - 1);
    } else if a > 0 {
      Pow2Monotonic(a - 1, a - 1);
    }
  }

  lemma HalveMod(a: nat, p: nat)
    requires p > 0
    ensures a % (2 * p) == a % 2 + 2 * ((a / 2) % p)
  {
    var h := a / 2;
    var q, r := h / p, h % p;
    assert h == p * q + r;
    assert a == 2 * h + a % 2;
    assert a == (2 * p) * q + (2 * r + a % 2) by { assert 2 * (p * q) == (2 * p) * q; }
    DivModUnique(a, 2 * p, q, 2 * r + a % 2);
  }

  /** Masking with 2^k - 1 is the remainder modulo 2^k. */
  lemma {:induction false} AndLowMask(a: nat, k: nat)
    ensures Pow2(k) > 0
    ensures BitAnd(a, Pow2(k) - 1) == a % Pow2(k)
  {
    Pow2Monotonic(k, k);
    if k > 0 {
      var p := Pow2(k - 1);
      AndLowMask(a / 2, k - 1);
      HalveMod(a, p);
      assert (2 * p - 1) % 2 == 1 && (2 * p - 1) / 2 == p - 1;
    }
  }

  lemma HalveDiv(a: nat, p: nat)
    requires p > 0
    ensures (a / 2) / p == a / (2 * p)
  {
    var h := a / 2;
    var q, r := h / p, h % p;
    assert a == (2 * p) * q + (2 * r + a % 2) by {
      assert h == p * q + r;
      assert 2 * (p * q) == (2 * p) * q;
    }
    DivModUnique(a, 2 * p, q, 2 * r + a % 2);
  }

  /** A mask shifted left selects the bits above the shift. */
  lemma {:induction false} AndShiftedMask(a: nat, m: nat, k: nat)
    ensures BitAnd(a, ShiftLeft(m, k)) == ShiftLeft(BitAnd(ShiftRight(a, k), m), k)
  {
    if k > 0 {
      AndShiftedMask(a / 2, m, k - 1);
      AndDoubled(a, ShiftLeft(m, k - 1));
    }
  }

  lemma AndDoubled(a: nat, b: nat)
    ensures BitAnd(a, 2 * b) == 2 * BitAnd(a / 2, b)
  {
    if a > 0 && b > 0 {
      assert (2 * b) % 2 == 0 && (2 * b) / 2 == b;
    }
  }

  /** Bits that do not overlap are joined by `|` as by addition. */
  lemma {:induction false} OrDisjoint(a: nat, b: nat)
    requires BitAnd(a, b) == 0
    ensures BitOr(a, b) == a + b
    decreases a + b
  {
    if a > 0 && b > 0 {
      OrDisjoint(a / 2, b / 2);
    }
  }

  lemma {:induction false} AndBound(a: nat, b: nat)
    ensures BitAnd(a, b) <= a && BitAnd(a, b) <= b
  {
    if a > 0 && b > 0 {
      AndBound(a / 2, b / 2);
    }
  }

  /** Masking by n - 1 leaves the address a alone. */
  predicate Addresses(n: nat, a: nat)
    requires n > 0
  {
    BitAnd(a, n - 1) == a
  }

  lemma {:induction false} AndLeavesAllSmaller(n: nat)
    requires n > 0
    requires forall a: nat :: a < n ==> Addresses(n, a)
    ensures IsPow2(n)
  {
    if n == 1 {
      assert n == Pow2(0);
    } else {
      assert Addresses(n, 1);
      assert BitAnd(1 / 2, (n - 1) / 2) == 0;
      assert n % 2 == 0;
      var h := n / 2;
      forall a: nat | a < h ensures Addresses(h, a) {
        if a > 0 {
          assert Addresses(n, 2 * a);
          assert (2 * a) / 2 == a && (2 * a) % 2 == 0 && (n - 1) / 2 == h - 1;
        }
      }
      AndLeavesAllSmaller(h);
      var k: nat :| h == Pow2(k);
      assert n == Pow2(k + 1);
    }
  }

  /** `a & (n - 1)` names cell a of an n-cell array, for every a below n, exactly when n is a power of two. */
  lemma AndAddressesIffPow2(n: nat)
    requires n > 0
    ensures (forall a: nat :: a < n ==> Addresses(n, a)) <==> IsPow2(n)
  {
    if forall a: nat :: a < n ==> Addresses(n, a) {
      AndLeavesAllSmaller(n);
    }
    if IsPow2(n) {
      var k: nat :| n == Pow2(k);
      forall a: nat | a < n ensures Addresses(n, a) {
        AndLowMask(a, k);
        SmallMod(a, n);
      }
    }
  }

  lemma Pow2Of32()
    ensures Pow2(13) == 0x2000 && Pow2(16) == 0x1_0000 && Pow2(31) == SIGN_BIT && Pow2(32) == TWO32
  {
    assert Pow2(4) == 16;
    Pow2Add(4, 4);
    Pow2Add(8, 4);
    assert Pow2(13) == 2 * Pow2(12);
    Pow2Add(8, 8);
    Pow2Add(16, 16);
    assert Pow2(32) == 2 * Pow2(31);
  }

  /** A power of two of 32-bit size divides 2^32, so wrapping does not change a remainder by it. */
  lemma WrapMod(x: int, size: nat)
    requires IsPow2(size) && 0 < size < TWO32
    ensures Wrap(x) % size == x % size
  {
    var k: nat :| size == Pow2(k);
    Pow2Of32();
    if k > 32 { Pow2Monotonic(32, k); }
    Pow2Add(k, 32 - k);
    WrapModMultiple(x, size, Pow2(32 - k));
  }

  lemma WrapModMultiple(x: int, size: nat, m: nat)
    requires size > 0 && TWO32 == size * m
    ensures Wrap(x) % size == x % size
  {
    var q := x / TWO32;
    assert x == Wrap(x) + TWO32 * q;
    assert (size * m) * q == size * (m * q);
    ModOfMultiple(Wrap(x), m * q, size);
  }
}
