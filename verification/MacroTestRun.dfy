/** The program test/macro.asm from source to result: assembled, written, loaded and run. */
module MacroTestRun {
  import opened Words
  import opened Memory
  import opened Machine
  import opened ObjectFormat
  import MacroTest
  import Arch

  /** A store that the program has been loaded into. */
  ghost predicate Loaded(st: seq<Word>) {
    && 32 <= |st| < TWO32 && IsPow2(|st|)
    && forall a :: 0 <= a < 30 ==> st[a] == MacroTest.WordAt(a)
  }

  const TMP := 29
  const C := 18
  const D := 19

  /** The store after some of the program. */
  function StoreAfter(st: seq<Word>, tmp: Word, c: Word, d: Word): (r: seq<Word>)
    requires |st| >= 32
    ensures |r| == |st|
  {
    st[TMP := tmp][C := c][D := d]
  }

  /** k instructions have been executed, of those from address 1 on. */
  ghost predicate At(s: State, st: seq<Word>, k: nat, ac: Word, tmp: Word, c: Word, d: Word) {
    && Loaded(st) && k <= 15 && s.store == StoreAfter(st, tmp, c, d)
    && s.ac == ac && s.ci == k && s.cycles == k && !s.stopped
  }

  /** The next instruction. */
  lemma Fetch(s: State, st: seq<Word>, k: nat, ac: Word, tmp: Word, c: Word, d: Word, op: nat, v: nat)
    requires At(s, st, k, ac, tmp, c, d) && k < 15 && op < 8 && v < 32
    requires MacroTest.WordAt(k + 1) == op * 0x2000 + v
    ensures Wrap(s.ci + 1) == k + 1
    ensures var w := Load(s.store, k + 1); Arch.Decode(w).opcode == op && Arch.Decode(w).operand == v
    ensures Load(s.store, v) == s.store[v] && BitAnd(v, |s.store| - 1) == v
  {
    hide Arch.Decode, BitAnd, MacroTest.WordAt;
    SmallMod(k + 1, |st|);
    SmallMod(v, |st|);
    SameCell(|st|, v);
    Arch.DecodeFields(op * 0x2000 + v);
    DivModUnique(op * 0x2000 + v, 0x2000, op, v);
  }

  lemma Ldn(s: State, st: seq<Word>, k: nat, ac: Word, tmp: Word, c: Word, d: Word, v: nat)
    requires At(s, st, k, ac, tmp, c, d) && k < 15 && v < 32 && MacroTest.WordAt(k + 1) == 0x4000 + v
    ensures At(Step(s), st, k + 1, Negate(s.store[v]), tmp, c, d)
  {
    hide Arch.Decode, BitAnd, MacroTest.WordAt, IsPow2, Negate, Load;
    Fetch(s, st, k, ac, tmp, c, d, Arch.OP_LDN, v);
  }

  lemma Sub(s: State, st: seq<Word>, k: nat, ac: Word, tmp: Word, c: Word, d: Word, v: nat)
    requires At(s, st, k, ac, tmp, c, d) && k < 15 && v < 32 && MacroTest.WordAt(k + 1) == 0x8000 + v
    ensures At(Step(s), st, k + 1, Subtract(ac, s.store[v]), tmp, c, d)
  {
    hide Arch.Decode, BitAnd, MacroTest.WordAt, IsPow2, Subtract, Load;
    Fetch(s, st, k, ac, tmp, c, d, Arch.OP_SUB, v);
  }

  lemma Sto(s: State, st: seq<Word>, k: nat, ac: Word, tmp: Word, c: Word, d: Word, v: nat)
    requires At(s, st, k, ac, tmp, c, d) && k < 15 && v in {TMP, C, D} && MacroTest.WordAt(k + 1) == 0x6000 + v
    ensures At(Step(s), st, k + 1, ac, if v == TMP then ac else tmp, if v == C then ac else c, if v == D then ac else d)
  {
    hide Arch.Decode, BitAnd, MacroTest.WordAt, IsPow2, Load;
    Fetch(s, st, k, ac, tmp, c, d, Arch.OP_STO, v);
    assert Step(s).store == s.store[v := ac];
    assert s.store[v := ac]
        == StoreAfter(st, if v == TMP then ac else tmp, if v == C then ac else c, if v == D then ac else d);
  }

  lemma Hlt(s: State, st: seq<Word>, k: nat, ac: Word, tmp: Word, c: Word, d: Word)
    requires At(s, st, k, ac, tmp, c, d) && k < 15 && MacroTest.WordAt(k + 1) == 0xE000
    ensures Step(s) == s.(ci := k + 1, pi := Step(s).pi, cycles := k + 1, stopped := true)
  {
    hide Arch.Decode, BitAnd, MacroTest.WordAt, IsPow2, Load;
    Fetch(s, st, k, ac, tmp, c, d, Arch.OP_HLT, 0);
  }

  const MINUS3: Word := 0xFFFF_FFFD
  const MINUS8: Word := 0xFFFF_FFF8

  lemma Numbers()
    ensures Negate(3) == MINUS3 && Negate(MINUS3) == 3 && Subtract(MINUS3, 5) == MINUS8 && Negate(MINUS8) == 8
  {}

  /** `mld a`: the accumulator holds 3. */
  lemma RunLoad(s: State, st: seq<Word>) returns (t: State)
    requires At(s, st, 0, 0, 0, 0, 0)
    ensures |s.store| > 0 && t == Run(s, 3) && At(t, st, 3, 3, MINUS3, 0, 0)
  {
    hide Step, Negate, Subtract, IsPow2;
    Numbers();
    Ldn(s, st, 0, 0, 0, 0, 0, 16);
    var s1 := Step(s);
    Sto(s1, st, 1, MINUS3, 0, 0, 0, TMP);
    var s2 := Step(s1);
    Ldn(s2, st, 2, MINUS3, MINUS3, 0, 0, TMP);
    t := Step(s2);
    assert Run(s, 3) == Run(s1, 2) == Run(s2, 1) == Run(t, 0);
  }

  /** `madd b`: it holds 8. */
  lemma RunAddition(s: State, st: seq<Word>) returns (t: State)
    requires At(s, st, 3, 3, MINUS3, 0, 0)
    ensures |s.store| > 0 && t == Run(s, 5) && At(t, st, 8, 8, MINUS8, 0, 0)
  {
    hide Step, Negate, Subtract, IsPow2;
    Numbers();
    Sto(s, st, 3, 3, MINUS3, 0, 0, TMP);
    var s1 := Step(s);
    Ldn(s1, st, 4, 3, 3, 0, 0, TMP);
    var s2 := Step(s1);
    Sub(s2, st, 5, MINUS3, 3, 0, 0, 17);
    var s3 := Step(s2);
    Sto(s3, st, 6, MINUS8, 3, 0, 0, TMP);
    var s4 := Step(s3);
    Ldn(s4, st, 7, MINUS8, MINUS8, 0, 0, TMP);
    t := Step(s4);
    assert Run(s, 5) == Run(s1, 4) == Run(s2, 3) == Run(s3, 2) == Run(s4, 1) == Run(t, 0);
  }

  /** `sto c` and `madd2 a, b`: c holds 8, and so does the accumulator. */
  lemma RunSecond(s: State, st: seq<Word>) returns (t: State)
    requires At(s, st, 8, 8, MINUS8, 0, 0)
    ensures |s.store| > 0 && t == Run(s, 5) && At(t, st, 13, 8, MINUS8, 8, 0)
  {
    hide Step, Negate, Subtract, IsPow2;
    Numbers();
    Sto(s, st, 8, 8, MINUS8, 0, 0, C);
    var s1 := Step(s);
    Ldn(s1, st, 9, 8, MINUS8, 8, 0, 16);
    var s2 := Step(s1);
    Sub(s2, st, 10, MINUS3, MINUS8, 8, 0, 17);
    var s3 := Step(s2);
    Sto(s3, st, 11, MINUS8, MINUS8, 8, 0, TMP);
    var s4 := Step(s3);
    Ldn(s4, st, 12, MINUS8, MINUS8, 8, 0, TMP);
    t := Step(s4);
    assert Run(s, 5) == Run(s1, 4) == Run(s2, 3) == Run(s3, 2) == Run(s4, 1) == Run(t, 0);
  }

  /** `sto d` and `hlt`. */
  lemma RunEnd(s: State, st: seq<Word>) returns (t: State)
    requires At(s, st, 13, 8, MINUS8, 8, 0)
    ensures |s.store| > 0 && t == Run(s, 2) && t.stopped && t.cycles == 15 && t.store == StoreAfter(st, MINUS8, 8, 8)
  {
    hide Step, IsPow2;
    Sto(s, st, 13, 8, MINUS8, 8, 0, D);
    var s1 := Step(s);
    Hlt(s1, st, 14, 8, MINUS8, 8, 8);
    t := Step(s1);
    assert Run(s, 2) == Run(s1, 1) == Run(t, 0);
  }

  /** From zero registers, the program stops after 15 cycles with 8 in c and in d. */
  lemma TestCorrect(st: seq<Word>, n: nat)
    requires Loaded(st) && n >= 15
    ensures var t := Run(State(st, 0, 0, 0, 0, false), n);
      t.stopped && t.cycles == 15 && t.store == StoreAfter(st, MINUS8, 8, 8)
  {
    hide Step, Run, IsPow2;
    var s := State(st, 0, 0, 0, 0, false);
    assert st == StoreAfter(st, 0, 0, 0);
    var s3 := RunLoad(s, st);
    var s8 := RunAddition(s3, st);
    var s13 := RunSecond(s8, st);
    var s15 := RunEnd(s13, st);
    RunAdd(s, 3, 5);
    RunAdd(s, 8, 5);
    RunAdd(s, 13, 2);
    RunAdd(s, 15, n - 15);
    Stays(s15, n - 15);
  }

  lemma Stays(s: State, n: nat)
    requires |s.store| > 0 && s.stopped
    ensures Run(s, n) == s
  {}

  /** Assembled from program start, written in any bit format, loaded into a power-of-two store of at least 32
      words and run, the program leaves 8 in c and in d, as its comments promise. */
  method AssembleAndRun(f: Flags, size: nat) returns (mc: Mc)
    requires 32 <= size < TWO32 && IsPow2(size)
    ensures mc.stopped && mc.cycles == 15 && mc.page.data.Length == size
    ensures mc.page.data[18] == 8 && mc.page.data[19] == 8
  {
    hide MacroTest.WordAt, IsPow2, Run;
    var section := MacroTest.AssembleTest();
    var page := new Page(size);
    WriteThenLoad(section, f, page);
    ghost var st := page.data[..];
    forall a | 0 <= a < 30 ensures st[a] == MacroTest.WordAt(a) {
      assert page.ReadWord(a) == section.data[a].value == section.At(a).value;
      SmallMod(a, size);
    }
    mc := new Mc(page);
    mc.Simulate(100);
    TestCorrect(st, 100);
    assert mc.page.data[..][18] == 8 && mc.page.data[..][19] == 8;
  }
}
