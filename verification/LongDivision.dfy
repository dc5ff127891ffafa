/** The long-division program test/ldiv.asm, run on the simulator.

    Store lines 28 to 31 hold the quotient, the quotient bit d = 2^e, the divisor and the dividend. */
module LongDivision {
  import opened Words
  import opened Memory
  import opened Machine
  import Arch

  /** The word of an instruction whose operand fits the field. */
  function Ins(op: nat, operand: nat): Word
    requires op < 8 && operand < 0x2000
  {
    op * 0x2000 + operand
  }

  const QUOTIENT := 28
  const BIT := 29
  const DIVISOR := 30
  const DIVIDEND := 31

  /** Lines 0 to 27 of the program. */
  function Code(line: nat): Word
    requires line < 28
  {
    match line
    case 0 => 19
    case 1 => Ins(Arch.OP_LDN, DIVIDEND)
    case 2 => Ins(Arch.OP_STO, DIVIDEND)
    case 3 => Ins(Arch.OP_LDN, DIVIDEND)
    case 4 => Ins(Arch.OP_SUB, DIVISOR)
    case 5 => Ins(Arch.OP_SKN, 0)
    case 6 => Ins(Arch.OP_JMP, 0)
    case 7 => Ins(Arch.OP_LDN, DIVIDEND)
    case 8 => Ins(Arch.OP_STO, DIVIDEND)
    case 9 => Ins(Arch.OP_LDN, QUOTIENT)
    case 10 => Ins(Arch.OP_SUB, QUOTIENT)
    case 11 => Ins(Arch.OP_STO, QUOTIENT)
    case 12 => Ins(Arch.OP_LDN, DIVIDEND)
    case 13 => Ins(Arch.OP_SUB, DIVIDEND)
    case 14 => Ins(Arch.OP_STO, DIVIDEND)
    case 15 => Ins(Arch.OP_LDN, QUOTIENT)
    case 16 => Ins(Arch.OP_STO, QUOTIENT)
    case 17 => Ins(Arch.OP_SKN, 0)
    case 18 => Ins(Arch.OP_JMP, 26)
    case 19 => Ins(Arch.OP_HLT, 0)
    case 20 => Ins(Arch.OP_STO, DIVIDEND)
    case 21 => Ins(Arch.OP_LDN, BIT)
    case 22 => Ins(Arch.OP_SUB, QUOTIENT)
    case 23 => Ins(Arch.OP_SUB, QUOTIENT)
    case 24 => Ins(Arch.OP_STO, QUOTIENT)
    case 25 => Ins(Arch.OP_JMP, 27)
    case 26 => 2
    case 27 => 11
  }

  /** The 32 words of the program with its three inputs. */
  function Image(divisor: Word, dividend: Word, d: Word): (image: seq<Word>)
    ensures |image| == 32
  {
    seq(28, k requires 0 <= k < 28 => Code(k)) + [0, d, divisor, dividend]
  }

  ghost predicate Ready(st: seq<Word>) {
    32 <= |st| < TWO32 && IsPow2(|st|) && forall k :: 0 <= k < 28 ==> st[k] == Code(k)
  }

  /** About to execute line k. */
  ghost predicate At(s: State, k: nat) {
    32 <= |s.store| && Ready(s.store) && !s.stopped && 1 <= k < 28 && s.ci + 1 == k && 0 <= s.cycles < 0x1_0000
  }

  /** One cycle later, with the accumulator, the store and the instruction counter as given. */
  ghost predicate Becomes(s: State, r: State, store: seq<Word>, ac: Word, ci: Word) {
    r.store == store && r.ac == ac && r.ci == ci && r.cycles == s.cycles + 1 && r.stopped == s.stopped
  }

  lemma RunNone(s: State)
    requires |s.store| > 0
    ensures Run(s, 0) == s
  {}

  lemma Fetch(s: State, k: nat, op: nat, operand: nat)
    requires At(s, k) && op < 8 && operand < 32 && Code(k) == Ins(op, operand)
    ensures s.store[k] == Ins(op, operand)
    ensures var ci := Wrap(s.ci + 1);
      && ci == k && Load(s.store, ci) == Ins(op, operand)
      && Arch.Decode(Ins(op, operand)).opcode == op && Arch.Decode(Ins(op, operand)).operand == operand
    ensures Load(s.store, operand) == s.store[operand]
    ensures BitAnd(operand, |s.store| - 1) == operand
  {
    hide Arch.Decode, BitAnd, Code;
    SmallMod(k, |s.store|);
    SmallMod(operand, |s.store|);
    SameCell(|s.store|, operand);
    var w := Ins(op, operand);
    Arch.DecodeFields(w);
    DivModUnique(w, 0x2000, op, operand);
  }

  lemma LdnStep(s: State, k: nat, a: nat, n: nat)
    requires At(s, k) && a < 32 && Code(k) == Ins(Arch.OP_LDN, a)
    ensures Becomes(s, Step(s), s.store, Negate(s.store[a]), k) && Run(s, n + 1) == Run(Step(s), n)
  {
    hide Load, Store, Arch.Decode, BitAnd, IsPow2, Code;
    Fetch(s, k, Arch.OP_LDN, a);
  }

  lemma SubStep(s: State, k: nat, a: nat, n: nat)
    requires At(s, k) && a < 32 && Code(k) == Ins(Arch.OP_SUB, a)
    ensures Becomes(s, Step(s), s.store, Subtract(s.ac, s.store[a]), k) && Run(s, n + 1) == Run(Step(s), n)
  {
    hide Load, Store, Arch.Decode, BitAnd, IsPow2, Code;
    Fetch(s, k, Arch.OP_SUB, a);
  }

  lemma StoStep(s: State, k: nat, a: nat, n: nat)
    requires At(s, k) && 28 <= a < 32 && Code(k) == Ins(Arch.OP_STO, a)
    ensures Becomes(s, Step(s), s.store[a := s.ac], s.ac, k) && Run(s, n + 1) == Run(Step(s), n)
    ensures Ready(Step(s).store)
  {
    hide Load, Arch.Decode, BitAnd, IsPow2, Code;
    Fetch(s, k, Arch.OP_STO, a);
  }

  lemma SknStep(s: State, k: nat, n: nat)
    requires At(s, k) && Code(k) == Ins(Arch.OP_SKN, 0)
    ensures Becomes(s, Step(s), s.store, s.ac, if s.ac >= SIGN_BIT then k + 1 else k)
      && Run(s, n + 1) == Run(Step(s), n)
  {
    hide Load, Store, Arch.Decode, BitAnd, IsPow2, Code;
    Fetch(s, k, Arch.OP_SKN, 0);
  }

  lemma JmpStep(s: State, k: nat, a: nat, n: nat)
    requires At(s, k) && a < 28 && Code(k) == Ins(Arch.OP_JMP, a)
    ensures Becomes(s, Step(s), s.store, s.ac, Code(a)) && Run(s, n + 1) == Run(Step(s), n)
  {
    hide Load, Store, Arch.Decode, BitAnd, IsPow2, Code;
    Fetch(s, k, Arch.OP_JMP, a);
  }

  lemma HltStep(s: State, k: nat, n: nat)
    requires At(s, k) && Code(k) == Ins(Arch.OP_HLT, 0)
    ensures Becomes(s.(stopped := true), Step(s), s.store, s.ac, k) && Run(s, n + 1) == Step(s)
  {
    hide Load, Store, Arch.Decode, BitAnd, IsPow2, Code;
    Fetch(s, k, Arch.OP_HLT, 0);
  }

  /** Lines 1 and 2: the dividend is negated. */
  lemma Prologue(s: State)
    requires At(s, 1) && s.cycles == 0
    ensures var r := Run(s, 2);
      At(r, 3) && r.cycles == 2 && r.store == s.store[DIVIDEND := Negate(s.store[DIVIDEND])]
  {
    hide Step, Run, Ready, Negate, Subtract, Ins;
    LdnStep(s, 1, DIVIDEND, 1);
    var s1 := Step(s);
    StoStep(s1, 2, DIVIDEND, 0);
    RunNone(Step(s1));
  }

  /** Lines 3 to 5, 7 to 11: the trial subtraction went negative. */
  lemma TooSmall(s: State)
    requires At(s, 3) && s.cycles < 0x8000
    requires Subtract(Negate(s.store[DIVIDEND]), s.store[DIVISOR]) >= SIGN_BIT
    ensures var r := Run(s, 8); var q := s.store[QUOTIENT];
      && At(r, 12) && r.cycles == s.cycles + 8
      && r.store == s.store[DIVIDEND := Negate(s.store[DIVIDEND])][QUOTIENT := Subtract(Negate(q), q)]
  {
    hide Step, Run, Ready, Negate, Subtract, Ins;
    LdnStep(s, 3, DIVIDEND, 7);
    var s1 := Step(s);
    SubStep(s1, 4, DIVISOR, 6);
    var s2 := Step(s1);
    SknStep(s2, 5, 5);
    var s3 := Step(s2);
    LdnStep(s3, 7, DIVIDEND, 4);
    var s4 := Step(s3);
    StoStep(s4, 8, DIVIDEND, 3);
    var s5 := Step(s4);
    LdnStep(s5, 9, QUOTIENT, 2);
    var s6 := Step(s5);
    SubStep(s6, 10, QUOTIENT, 1);
    var s7 := Step(s6);
    StoStep(s7, 11, QUOTIENT, 0);
    RunNone(Step(s7));
  }

  /** Lines 3 to 6 and 20: the divisor was subtracted from the dividend. */
  lemma KeepDifference(s: State)
    requires At(s, 3) && s.cycles < 0x8000
    requires Subtract(Negate(s.store[DIVIDEND]), s.store[DIVISOR]) < SIGN_BIT
    ensures var r := Run(s, 5);
      && At(r, 21) && r.cycles == s.cycles + 5
      && r.store == s.store[DIVIDEND := Subtract(Negate(s.store[DIVIDEND]), s.store[DIVISOR])]
  {
    hide Step, Run, Ready, Negate, Subtract, Ins;
    LdnStep(s, 3, DIVIDEND, 4);
    var s1 := Step(s);
    SubStep(s1, 4, DIVISOR, 3);
    var s2 := Step(s1);
    SknStep(s2, 5, 2);
    var s3 := Step(s2);
    JmpStep(s3, 6, 0, 1);
    var s4 := Step(s3);
    StoStep(s4, 20, DIVIDEND, 0);
    RunNone(Step(s4));
  }

  /** Lines 21 to 23: the quotient doubled, with the bit added, in the accumulator. */
  lemma ShiftQuotient(s: State) returns (r: State)
    requires At(s, 21) && s.cycles < 0x9000
    ensures var q := s.store[QUOTIENT];
      && At(r, 24) && r.cycles == s.cycles + 3 && r.store == s.store
      && r.ac == Subtract(Subtract(Negate(s.store[BIT]), q), q) && Run(s, 5) == Run(r, 2)
  {
    hide Step, Run, Ready, Negate, Subtract, Ins;
    LdnStep(s, 21, BIT, 4);
    var s1 := Step(s);
    SubStep(s1, 22, QUOTIENT, 3);
    var s2 := Step(s1);
    SubStep(s2, 23, QUOTIENT, 2);
    r := Step(s2);
  }

  /** Lines 21 to 25: the quotient is shifted up and gains the bit. */
  lemma SetBit(s: State)
    requires At(s, 21) && s.cycles < 0x9000
    ensures var r := Run(s, 5); var q := s.store[QUOTIENT];
      && At(r, 12) && r.cycles == s.cycles + 5
      && r.store == s.store[QUOTIENT := Subtract(Subtract(Negate(s.store[BIT]), q), q)]
  {
    hide Step, Run, Ready, Negate, Subtract, Ins;
    var s3 := ShiftQuotient(s);
    StoStep(s3, 24, QUOTIENT, 1);
    var s4 := Step(s3);
    JmpStep(s4, 25, 27, 0);
    RunNone(Step(s4));
  }

  /** Lines 12 to 14: the dividend is shifted up. */
  lemma ShiftDividend(s: State)
    requires At(s, 12) && s.cycles < 0x9000
    ensures var r := Run(s, 3); var a := s.store[DIVIDEND];
      && At(r, 15) && r.cycles == s.cycles + 3
      && r.store == s.store[DIVIDEND := Subtract(Negate(a), a)]
  {
    hide Step, Run, Ready, Negate, Subtract, Ins;
    LdnStep(s, 12, DIVIDEND, 2);
    var s1 := Step(s);
    SubStep(s1, 13, DIVIDEND, 1);
    var s2 := Step(s1);
    StoStep(s2, 14, DIVIDEND, 0);
    RunNone(Step(s2));
  }

  /** Lines 15 to 19: the quotient's sign is restored; the loop ends once it reaches bit 31. */
  lemma RepeatOrStop(s: State)
    requires At(s, 15) && s.cycles < 0xA000
    ensures var r := Run(s, 4); var q := Negate(s.store[QUOTIENT]);
      && r.cycles == s.cycles + 4 && r.store == s.store[QUOTIENT := q]
      && if q >= SIGN_BIT then r.stopped else At(r, 3)
  {
    hide Step, Run, Ready, Negate, Subtract, Ins;
    LdnStep(s, 15, QUOTIENT, 3);
    var s1 := Step(s);
    StoStep(s1, 16, QUOTIENT, 2);
    var s2 := Step(s1);
    SknStep(s2, 17, 1);
    var s3 := Step(s2);
    if s2.ac >= SIGN_BIT {
      HltStep(s3, 19, 0);
    } else {
      JmpStep(s3, 18, 26, 0);
      RunNone(Step(s3));
    }
  }

  /** One round of the loop, in the two ways through it. */
  function RoundLength(bit: nat): nat { 15 + 2 * bit }

  lemma RoundRuns(s: State)
    requires At(s, 3) && s.cycles < 0x8000
    ensures var difference := Subtract(Negate(s.store[DIVIDEND]), s.store[DIVISOR]);
      var bit := if difference < SIGN_BIT then 1 else 0;
      var a := if bit == 1 then difference else Negate(s.store[DIVIDEND]);
      var q0 := s.store[QUOTIENT];
      var q := Negate(Subtract(Subtract(if bit == 1 then Negate(s.store[BIT]) else 0, q0), q0));
      var r := Run(s, RoundLength(bit));
      && r.cycles == s.cycles + RoundLength(bit)
      && r.store == s.store[DIVIDEND := Subtract(Negate(a), a)][QUOTIENT := q]
      && if q >= SIGN_BIT then r.stopped else At(r, 3)
  {
    hide Step, Run, Ready, Negate, Subtract, Ins, Code;
    var difference := Subtract(Negate(s.store[DIVIDEND]), s.store[DIVISOR]);
    var s1: State, n: nat;
    if difference < SIGN_BIT {
      KeepDifference(s);
      SetBit(Run(s, 5));
      RunAdd(s, 5, 5);
      s1, n := Run(s, 10), 10;
    } else {
      TooSmall(s);
      NegateIsFromZero(s.store[QUOTIENT]);
      s1, n := Run(s, 8), 8;
    }
    ShiftDividend(s1);
    var s2 := Run(s1, 3);
    RepeatOrStop(s2);
    RunAdd(s, n, 7);
    RunAdd(s1, 3, 4);
  }

  lemma NegateIsFromZero(w: Word)
    ensures Subtract(0, w) == Negate(w)
  {}

  /** A round in terms of numbers: the partial dividend a and the quotient bits F = q / E so far. */
  lemma Round(s: State, D: nat, E: nat, a: nat, q: nat)
    requires At(s, 3) && s.cycles < 0x8000
    requires 0 < D < 0x4000_0000 && 0 < E && a < 2 * D && q + E <= SIGN_BIT
    requires s.store[DIVIDEND] == Negate(a) && s.store[DIVISOR] == D && s.store[BIT] == E && s.store[QUOTIENT] == q
    ensures var bit := if a >= D then 1 else 0;
      var q' := 2 * q + bit * E;
      var r := Run(s, RoundLength(bit));
      && q' < TWO32 && r.cycles == s.cycles + RoundLength(bit)
      && r.store == s.store[DIVIDEND := Negate(2 * (a - bit * D))][QUOTIENT := q']
      && if q' >= SIGN_BIT then r.stopped else At(r, 3)
  {
    hide Run, Ready, Step, Code, Negate, Subtract;
    RoundRuns(s);
    NegateTwice(a);
    if a >= D {
      Difference(a, D);
      Doubled(a - D);
      NegateTwice(2 * q + E);
      ShiftedQuotient(E, q);
    } else {
      Difference(a, D);
      Doubled(a);
      NegateTwice(2 * q);
      ShiftedQuotient(0, q);
    }
  }

  lemma NegateTwice(w: Word)
    ensures Negate(Negate(w)) == w
  {}

  lemma Difference(a: Word, D: Word)
    requires 0 < D < 0x4000_0000 && a < 2 * D
    ensures Subtract(a, D) == if a >= D then a - D else a - D + TWO32
  {}

  lemma Doubled(a: Word)
    requires a < SIGN_BIT
    ensures Subtract(Negate(a), a) == Negate(2 * a)
  {
    hide Wrap;
    WrapMinus(-(a as int), a);
  }

  lemma ShiftedQuotient(E: nat, q: nat)
    requires 2 * q + E < TWO32
    ensures Subtract(Subtract(Negate(E), q), q) == Negate(2 * q + E)
    ensures Negate(0) == 0
  {
    hide Wrap;
    var negated: int := -(E as int);
    WrapMinus(negated, q);
    WrapMinus(negated - q, q);
    assert Wrap(0) == 0 by { SmallMod(0, TWO32); WrapIsMod(0); }
  }

  lemma WrapIsMod(x: int)
    ensures Wrap(x) == x % TWO32
  {}

  lemma WrapMinus(x: int, y: int)
    ensures Wrap(Wrap(x) - y) == Wrap(x - y)
  {
    var q := x / TWO32;
    assert x == Wrap(x) + TWO32 * q;
    ModOfMultiple(Wrap(x) - y, q, TWO32);
  }

  /** The bits of the quotient produced by the first k rounds. */
  function Quotient(A: nat, D: nat, k: nat): nat
    requires D > 0 && k > 0
  {
    A * Pow2(k - 1) / D
  }

  function Remainder(A: nat, D: nat, k: nat): nat
    requires D > 0 && k > 0
  {
    A * Pow2(k - 1) % D
  }

  /** m is the first round whose quotient, scaled by 2^e, reaches bit 31. */
  ghost predicate IsLastRound(A: nat, D: nat, e: nat, m: nat)
    requires D > 0
  {
    && m > 0 && Pow2(e) * Quotient(A, D, m) >= SIGN_BIT
    && forall k :: 1 <= k < m ==> Pow2(e) * Quotient(A, D, k) < SIGN_BIT
  }

  /** The number of one bits. */
  function Ones(n: nat): nat {
    if n == 0 then 0 else n % 2 + Ones(n / 2)
  }

  /** The loop's invariant before round k: F quotient bits found, a left of the dividend. */
  ghost predicate LoopState(s: State, st: seq<Word>, D: nat, A: nat, e: nat, k: nat, a: nat, F: nat) {
    && At(s, 3) && s.cycles == 2 + 15 * (k - 1) + 2 * Ones(F)
    && |st| == |s.store| && s.store == st[DIVIDEND := s.store[DIVIDEND]][QUOTIENT := s.store[QUOTIENT]]
    && s.store[DIVISOR] == D && s.store[BIT] == Pow2(e)
    && 0 < D < 0x4000_0000 && 0 < A && e <= 30 && k > 0 && a < 2 * D
    && A * Pow2(k - 1) == a + 2 * (D * F)
    && s.store[DIVIDEND] == Negate(a) && s.store[QUOTIENT] == Pow2(e) * F < SIGN_BIT
  }

  lemma MulAtMost(x: nat, y: nat, u: nat, v: nat)
    requires x <= u && y <= v
    ensures x * y <= u * v
  {
    assert x * y <= u * y <= u * v;
  }

  lemma {:induction false} OnesBound(n: nat, k: nat)
    requires n < Pow2(k)
    ensures Ones(n) <= k
  {
    if n > 0 {
      OnesBound(n / 2, k - 1);
    }
  }

  /** A power of two that divides 2^31 strictly below it leaves room for one more. */
  lemma RoomForBit(e: nat, F: nat)
    requires e <= 30 && Pow2(e) * F < SIGN_BIT
    ensures Pow2(e) * F + Pow2(e) <= SIGN_BIT
    ensures 0 < Pow2(e) && F < SIGN_BIT
  {
    hide Pow2;
    assert Pow2(31) == SIGN_BIT by { Pow2Of32(); }
    Pow2Monotonic(e, e);
    Pow2Add(e, 31 - e);
    NextMultiple(Pow2(e), Pow2(31 - e), F);
    MulAtMost(1, F, Pow2(e), F);
  }

  lemma NextMultiple(E: nat, R: nat, F: nat)
    requires E > 0 && E * F < E * R
    ensures E * F + E <= E * R
  {
    if F >= R {
      MulAtMost(E, R, E, F);
    }
    MulAtMost(E, F + 1, E, R);
    assert E * (F + 1) == E * F + E;
  }

  /** The loop runs for fewer than 64 rounds. */
  lemma RoundBound(D: nat, A: nat, k: nat, a: nat, F: nat)
    requires 0 < D < 0x4000_0000 && 0 < A && k > 0 && a < 2 * D && F < SIGN_BIT
    requires A * Pow2(k - 1) == a + 2 * (D * F)
    ensures k < 64 && Ones(F) <= 31
  {
    assert Ones(F) <= 31 by {
      Pow2Of32();
      OnesBound(F, 31);
    }
    assert Pow2(31) == SIGN_BIT && Pow2(32) == TWO32 by { Pow2Of32(); }
    MulAtMost(D, F, 0x4000_0000, SIGN_BIT);
    var p := Pow2(k - 1);
    MulAtMost(1, p, A, p);
    assert Pow2(63) == SIGN_BIT * TWO32 by { Pow2Add(31, 32); }
    if k >= 64 {
      Pow2Monotonic(63, k - 1);
    }
  }

  /** From any loop state the program halts at the last round. */
  lemma {:induction false} LoopHalts(s: State, st: seq<Word>, D: nat, A: nat, e: nat, k: nat, a: nat, F: nat)
    returns (m: nat, n: nat)
    requires LoopState(s, st, D, A, e, k, a, F)
    requires forall j :: 1 <= j < k ==> Pow2(e) * Quotient(A, D, j) < SIGN_BIT
    ensures IsLastRound(A, D, e, m) && k <= m < 64 && n <= 17 * (m + 1 - k)
    ensures Halted(Run(s, n), st, D, A, e, m) && Run(s, n).cycles == s.cycles + n
    decreases 64 - k
  {
    hide Run, Ready, Step, Code, Pow2, Quotient, Remainder, Negate, IsPow2, Ones;
    RoomForBit(e, F);
    RoundBound(D, A, k, a, F);
    Round(s, D, Pow2(e), a, Pow2(e) * F);
    var bit := if a >= D then 1 else 0;
    var F', r := 2 * F + bit, a - bit * D;
    RoundNumbers(D, A, e, k, a, F, bit);
    n := RoundLength(bit);
    var t := Run(s, n);
    if Pow2(e) * F' >= SIGN_BIT {
      m := k;
    } else {
      var n';
      m, n' := LoopHalts(t, st, D, A, e, k + 1, 2 * r, F');
      RunAdd(s, n, n');
      n := n + n';
    }
  }

  lemma RoundNumbers(D: nat, A: nat, e: nat, k: nat, a: nat, F: nat, bit: nat)
    requires 0 < D && k > 0 && a < 2 * D && A * Pow2(k - 1) == a + 2 * (D * F)
    requires bit == if a >= D then 1 else 0
    ensures var F', r := 2 * F + bit, a - bit * D;
      && Quotient(A, D, k) == F' && Remainder(A, D, k) == r
      && Pow2(e) * F' == 2 * (Pow2(e) * F) + bit * Pow2(e)
      && A * Pow2(k) == 2 * r + 2 * (D * F')
      && Ones(F') == Ones(F) + bit
  {
    var F', r := 2 * F + bit, a - bit * D;
    var P := A * Pow2(k - 1);
    Doubles(D, F, bit);
    Doubles(Pow2(e), F, bit);
    RemainderBit(D, a, bit);
    DivModUnique(P, D, F', r);
    NextPower(A, k);
    assert F' / 2 == F && F' % 2 == bit;
  }

  lemma Doubles(x: nat, F: nat, bit: nat)
    ensures x * (2 * F + bit) == 2 * (x * F) + bit * x
  {}

  lemma RemainderBit(D: nat, a: nat, bit: nat)
    requires 0 < D && a < 2 * D && bit == if a >= D then 1 else 0
    ensures bit * D == if a >= D then D else 0
    ensures 0 <= a - bit * D < D
  {}

  lemma NextPower(A: nat, k: nat)
    requires k > 0
    ensures A * Pow2(k) == 2 * (A * Pow2(k - 1))
  {
    var p := Pow2(k - 1);
    assert A * (2 * p) == 2 * (A * p);
  }

  /** The final state after m rounds. */
  ghost predicate Halted(r: State, st: seq<Word>, D: nat, A: nat, e: nat, m: nat)
    requires D > 0
  {
    m > 0 && 32 <= |st|
    && var q, rest := Pow2(e) * Quotient(A, D, m), 2 * Remainder(A, D, m);
    && q < TWO32 && rest < TWO32
    && r.stopped && r.cycles == 2 + 15 * m + 2 * Ones(Quotient(A, D, m))
    && r.store == st[DIVIDEND := Negate(rest)][QUOTIENT := q]
  }

  /** From zero registers the program halts after m rounds, where m is the first round at which the
      quotient reaches bit 31; it leaves 2^e * floor(A * 2^(m-1) / D) in the quotient, the negated
      doubled remainder in the dividend, and every other word as it was. */
  lemma LongDivisionCorrect(st: seq<Word>, D: Word, A: Word, e: nat) returns (m: nat, n: nat)
    requires 0 < D < 0x4000_0000 && 0 < A < 2 * D && e <= 30
    requires 32 <= |st| < TWO32 && IsPow2(|st|)
    requires Pow2(e) < TWO32 && st[..32] == Image(D, A, Pow2(e))
    ensures IsLastRound(A, D, e, m)
    ensures Halted(Run(State(st, 0, 0, 0, 0, false), n), st, D, A, e, m)
    ensures n == 2 + 15 * m + 2 * Ones(Quotient(A, D, m)) && n < 1100
  {
    hide Run, Step, Image, LoopState, Pow2, Negate, Quotient, Halted;
    Begin(st, D, A, e);
    var s := State(st, 0, 0, 0, 0, false);
    m, n := LoopHalts(Run(s, 2), st, D, A, e, 1, A, 0);
    RunAdd(s, 2, n);
    n := n + 2;
    FinalCount(Run(s, n), st, D, A, e, m);
  }

  lemma FinalCount(r: State, st: seq<Word>, D: nat, A: nat, e: nat, m: nat)
    requires D > 0 && Halted(r, st, D, A, e, m)
    ensures r.cycles == 2 + 15 * m + 2 * Ones(Quotient(A, D, m))
  {}

  /** After the prologue the loop starts with nothing divided yet. */
  lemma Begin(st: seq<Word>, D: Word, A: Word, e: nat)
    requires 0 < D < 0x4000_0000 && 0 < A < 2 * D && e <= 30
    requires 32 <= |st| < TWO32 && IsPow2(|st|)
    requires Pow2(e) < TWO32 && st[..32] == Image(D, A, Pow2(e))
    ensures var r := Run(State(st, 0, 0, 0, 0, false), 2); r.cycles == 2 && LoopState(r, st, D, A, e, 1, A, 0)
  {
    hide Run, Step, Negate;
    var s := State(st, 0, 0, 0, 0, false);
    forall k | 0 <= k < 32 ensures st[k] == Image(D, A, Pow2(e))[k] {
      assert st[k] == st[..32][k];
    }
    Prologue(s);
    var t := Run(s, 2);
    assert A * Pow2(0) == A && D * 0 == 0 && Pow2(e) * 0 == 0;
    assert t.store == st[DIVIDEND := t.store[DIVIDEND]][QUOTIENT := t.store[QUOTIENT]];
  }
}
