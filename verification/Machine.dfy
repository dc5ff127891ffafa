/** The simulator: the five phases of a machine cycle over the aliased store (bsim.c). */
module Machine {
  import opened Words
  import opened Memory
  import Arch

  /** The machine as a value: the store, the registers, the cycle counter and the stop flag. */
  datatype State = State(store: seq<Word>, ac: Word, ci: Word, pi: Word, cycles: int, stopped: bool)

  /** One instruction, described opcode by opcode. */
  function Step(s: State): (r: State)
    requires |s.store| > 0
    ensures |r.store| == |s.store|
  {
    var ci := Wrap(s.ci + 1);
    var word := Load(s.store, ci);
    var d := Arch.Decode(word);
    var f := s.(ci := ci, pi := word, cycles := (s.cycles + 1) % TWO64);
    if d.opcode == Arch.OP_JMP then f.(ci := Load(s.store, d.operand))
    else if d.opcode == Arch.OP_JRP then f.(ci := Wrap(ci + Load(s.store, d.operand)))
    else if d.opcode == Arch.OP_LDN then f.(ac := Negate(Load(s.store, d.operand)))
    else if d.opcode == Arch.OP_STO then f.(store := Store(s.store, d.operand, s.ac))
    else if d.opcode == Arch.OP_SUB then f.(ac := Subtract(s.ac, Load(s.store, d.operand)))
    else if d.opcode == Arch.OP_SKN then f.(ci := if Signed(s.ac) < 0 then Wrap(ci + 1) else ci)
    else if d.opcode == Arch.OP_HLT then f.(stopped := true)
    else f
  }

  /** What each instruction does, in the numbers a programmer sees: the word fetched is at the next address, its
      opcode is in bits 13 to 15 and its operand below; opcode 5 does nothing. */
  lemma InstructionEffects(s: State)
    requires |s.store| > 0 && IsPow2(|s.store|)
    ensures var t, n, next := Step(s), |s.store|, (s.ci as int + 1) % 0x1_0000_0000;
      var w := s.store[next % n];
      var op, a := w / 0x2000 % 8, w % 0x2000 % n;
      && t.pi == w && t.cycles == (s.cycles + 1) % 0x1_0000_0000_0000_0000
      && (t.stopped <==> s.stopped || op == 7)
      && t.store == (if op == 3 then s.store[a := s.ac] else s.store)
      && (op == 2 ==> (t.ac as int + s.store[a]) % 0x1_0000_0000 == 0)
      && (op == 4 ==> (t.ac as int + s.store[a]) % 0x1_0000_0000 == s.ac)
      && (op != 2 && op != 4 ==> t.ac == s.ac)
      && t.ci == (if op == 0 then s.store[a]
                  else if op == 1 then (next + s.store[a]) % 0x1_0000_0000
                  else if op == 6 && s.ac >= 0x8000_0000 then (next + 1) % 0x1_0000_0000
                  else next)
  {
    hide BitAnd, Arch.Decode, IsPow2, Load, Store, Wrap, Negate, Subtract, Signed, Step;
    ByOpcode(s);
    Wraps(s.ci as int + 1);
    var w := Load(s.store, Wrap(s.ci + 1));
    Cells(s.store, Wrap(s.ci + 1), 0);
    Cells(s.store, w % 0x2000, s.ac);
    Arch.DecodeFields(w);
    SumsBack(s.ac, Load(s.store, w % 0x2000));
    Wraps(Wrap(s.ci + 1) + 1);
    Wraps(Wrap(s.ci + 1) + Load(s.store, w % 0x2000));
  }

  lemma ByOpcode(s: State)
    requires |s.store| > 0
    ensures var t, w := Step(s), Load(s.store, Wrap(s.ci + 1));
      var d := Arch.Decode(w);
      var op, m, next := d.opcode, Load(s.store, d.operand), Wrap(s.ci + 1);
      && t.pi == w && t.cycles == (s.cycles + 1) % TWO64
      && (t.stopped <==> s.stopped || op == 7)
      && t.store == (if op == 3 then Store(s.store, d.operand, s.ac) else s.store)
      && t.ac == (if op == 2 then Negate(m) else if op == 4 then Subtract(s.ac, m) else s.ac)
      && t.ci == (if op == 0 then m
                  else if op == 1 then Wrap(next + m)
                  else if op == 6 && Signed(s.ac) < 0 then Wrap(next + 1)
                  else next)
  {
    hide Arch.Decode, Load, Store, Wrap, Negate, Subtract, Signed;
  }

  lemma Wraps(x: int)
    ensures Wrap(x) == x % 0x1_0000_0000
  {}

  lemma Cells(st: seq<Word>, a: nat, v: Word)
    requires |st| > 0 && IsPow2(|st|)
    ensures Load(st, a) == st[a % |st|] && Store(st, a, v) == st[a % |st| := v]
  {
    hide BitAnd, IsPow2;
    SameCell(|st|, a);
  }

  lemma SumsBack(ac: Word, m: Word)
    ensures (Negate(m) as int + m) % 0x1_0000_0000 == 0 && (Subtract(ac, m) as int + m) % 0x1_0000_0000 == ac
    ensures Signed(ac) < 0 <==> ac >= 0x8000_0000
  {}

  /** At most n cycles, ending early when the machine stops: the run loop of main. */
  function Run(s: State, n: nat): (r: State)
    requires |s.store| > 0
    ensures |r.store| == |s.store|
    decreases n
  {
    if n == 0 || s.stopped then s else Run(Step(s), n - 1)
  }

  lemma {:induction false} RunAdd(s: State, m: nat, n: nat)
    requires |s.store| > 0
    ensures Run(s, m + n) == Run(Run(s, m), n)
    decreases m
  {
    hide Step;
    if m > 0 && !s.stopped {
      RunAdd(Step(s), m - 1, n);
    }
  }

  /** `struct mc`. */
  class Mc {
    const page: Page
    var ac: Word
    var ci: Word
    var pi: Word
    var cycles: int
    var stopped: bool

    constructor (page: Page)
      ensures this.page == page && ac == 0 && ci == 0 && pi == 0 && cycles == 0 && !stopped
    {
      this.page := page;
      ac, ci, pi, cycles, stopped := 0, 0, 0, 0, false;
    }

    ghost predicate Valid()
      reads this, page
    {
      page.Valid()
    }

    ghost function Value(): State
      reads this, page, page.data
    {
      State(page.data[..], ac, ci, pi, cycles, stopped)
    }

    /** `sim_cycle`, phase by phase. */
    method SimCycle()
      requires Valid()
      modifies this, page.data
      ensures Valid() && Value() == Step(old(Value()))
    {
      hide BitAnd, IsPow2, Load, Store, Wrap, Negate, Subtract, Signed, Arch.Decode;
      var data: Word := 0;

      // t1: Fetch
      ci := Wrap(ci + 1);
      pi := page.ReadWord(ci);

      // t2: Decode
      var d := Arch.Decode(pi);
      Arch.DecodeFields(pi);

      // t3: Execute - data access
      if d.opcode == Arch.OP_LDN || d.opcode == Arch.OP_SUB || d.opcode == Arch.OP_JMP || d.opcode == Arch.OP_JRP {
        data := page.ReadWord(d.operand);
      } else if d.opcode == Arch.OP_STO {
        page.WriteWord(d.operand, ac);
      }

      // t4: Execute
      if d.opcode == Arch.OP_LDN {
        ac := Negate(data);
      } else if d.opcode == Arch.OP_SUB {
        ac := Subtract(ac, data);
      } else if d.opcode == Arch.OP_HLT {
        stopped := true;
      }

      // t5: Next-PC
      if d.opcode == Arch.OP_SKN {
        if Signed(ac) < 0 {
          ci := Wrap(ci + 1);
        }
      } else if d.opcode == Arch.OP_JMP {
        ci := data;
      } else if d.opcode == Arch.OP_JRP {
        ci := Wrap(ci + data);
      }

      cycles := (cycles + 1) % TWO64;
    }

    /** The simulation loop; `polls` is the number of times the quit signal is found not raised. */
    method Simulate(polls: nat)
      requires Valid()
      modifies this, page.data
      ensures Valid() && Value() == Run(old(Value()), polls)
    {
      var left := polls;
      while !stopped && left > 0
        invariant Valid()
        invariant Run(Value(), left) == Run(old(Value()), polls)
        decreases left
      {
        SimCycle();
        left := left - 1;
      }
    }
  }

  /** Two machines that differ only in which alias of an address their instruction counter holds. */
  predicate Aliased(s: State, t: State)
    requires |s.store| > 0
  {
    s.store == t.store && s.ac == t.ac && s.ci % |s.store| == t.ci % |s.store|
    && s.cycles == t.cycles && s.stopped == t.stopped
  }

  lemma SameRemainder(a: nat, b: nat, size: nat) returns (q: int)
    requires size > 0 && a % size == b % size
    ensures a == b + size * q
  {
    q := a / size - b / size;
    var x, y := a / size, b / size;
    assert a == size * x + a % size && b == size * y + b % size;
    assert size * (x - y) == size * x - size * y;
  }

  lemma WrapAddMod(a: Word, b: Word, n: Word, size: nat)
    requires 0 < size < TWO32 && IsPow2(size) && a % size == b % size
    ensures Wrap(a + n) % size == Wrap(b + n) % size
  {
    hide Wrap, IsPow2;
    WrapMod(a + n, size);
    WrapMod(b + n, size);
    var q := SameRemainder(a, b, size);
    ModOfMultiple(b + n, q, size);
  }

  lemma AliasedStep(s: State, t: State)
    requires 0 < |s.store| < TWO32 && IsPow2(|s.store|) && Aliased(s, t)
    ensures Aliased(Step(s), Step(t)) && Step(s).pi == Step(t).pi
  {
    hide Load, Store, Arch.Decode, BitAnd, IsPow2, Wrap, Negate, Subtract, Signed;
    var size := |s.store|;
    WrapAddMod(s.ci, t.ci, 1, size);
    var ci, ci' := Wrap(s.ci + 1), Wrap(t.ci + 1);
    LoadAlias(s.store, ci, ci');
    WrapAddMod(ci, ci', 1, size);
    WrapAddMod(ci, ci', Load(s.store, Arch.Decode(Load(s.store, ci)).operand), size);
  }

  lemma LoadAlias(st: seq<Word>, a: nat, b: nat)
    requires |st| > 0 && a % |st| == b % |st|
    ensures Load(st, a) == Load(st, b)
  {}

  /** Instruction counters that differ by a multiple of the page size are indistinguishable in every run. */
  lemma {:induction false} AliasingBisimulation(s: State, t: State, n: nat)
    requires 0 < |s.store| < TWO32 && IsPow2(|s.store|) && Aliased(s, t)
    ensures Aliased(Run(s, n), Run(t, n))
    ensures n > 0 && !s.stopped ==> Run(s, n).pi == Run(t, n).pi
    decreases n
  {
    hide Step, IsPow2;
    if n > 0 && !s.stopped {
      AliasedStep(s, t);
      AliasingBisimulation(Step(s), Step(t), n - 1);
    }
  }

  /** The word next executed. */
  function NextFetch(s: State): nat
    requires |s.store| > 0
  {
    Wrap(s.ci + 1) % |s.store|
  }
}
