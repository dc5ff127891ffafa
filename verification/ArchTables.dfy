/** The sorted mnemonic table and the opcode index (arch.c, arch_init, arch_find_instr, arch_find_opcode). */
module ArchTables {
  import opened Wrappers
  import opened Ast
  import opened Arch
  import opened Libc

  /** `struct instr_index`. */
  datatype Entry = Entry(mnemonic: Mnemonic, order: nat)

  /** `instrsort`. */
  function ByName(): (Mnemonic, Mnemonic) -> bool {
    (a: Mnemonic, b: Mnemonic) => StrCaseCmp(a.name, b.name) <= 0
  }

  /** `instrsearch`. */
  function NameAgainst(name: string): Mnemonic -> int {
    (m: Mnemonic) => StrCaseCmp(name, m.name)
  }

  /** The place of a mnemonic's type in `enum mnem_type`. */
  function TypeRank(m: Mnemonic): nat {
    match m case Instruction(_, _, _) => 0 case Directive(_, _) => 1 case Macro(_, _, _) => 2
  }

  /** `instrindexsort`. */
  function CompareEntries(a: Entry, b: Entry): int {
    var ma, mb := a.mnemonic, b.mnemonic;
    if TypeRank(ma) != TypeRank(mb) then TypeRank(ma) - TypeRank(mb)
    else if !ma.Instruction? || !mb.Instruction? || ma.opcode == mb.opcode then a.order - b.order
    else ma.opcode - mb.opcode
  }

  function ByOpcode(): (Entry, Entry) -> bool {
    (a: Entry, b: Entry) => CompareEntries(a, b) <= 0
  }

  /** `instrindexsearch`. */
  function OpcodeAgainst(opcode: int): Entry -> int {
    (e: Entry) =>
      if !e.mnemonic.Instruction? then 0 - TypeRank(e.mnemonic)
      else if e.mnemonic.opcode != opcode then opcode - e.mnemonic.opcode
      else 0 - e.order
  }

  lemma ByNameIsOrder()
    ensures TotalOrder(ByName())
  {
    var le := ByName();
    forall a, b ensures le(a, b) || le(b, a) {
      StrCmpAntisymmetric(Fold(a.name), Fold(b.name));
    }
    forall a, b, c | le(a, b) && le(b, c) ensures le(a, c) {
      StrCmpTransitive(Fold(a.name), Fold(b.name), Fold(c.name));
    }
  }

  lemma ByOpcodeIsOrder()
    ensures TotalOrder(ByOpcode())
  {}

  lemma SortedNamesSearchable(s: seq<Mnemonic>, name: string)
    requires SortedBy(ByName(), s)
    ensures Searchable(NameAgainst(name), s)
  {
    var cmp := NameAgainst(name);
    forall i, j | 0 <= i < j < |s|
      ensures (cmp(s[i]) <= 0 ==> cmp(s[j]) <= 0) && (cmp(s[i]) < 0 ==> cmp(s[j]) < 0)
    {
      assert ByName()(s[i], s[j]);
      if cmp(s[i]) <= 0 {
        StrCmpTransitive(Fold(name), Fold(s[i].name), Fold(s[j].name));
      }
    }
  }

  lemma SortedEntriesSearchable(s: seq<Entry>, opcode: int)
    requires SortedBy(ByOpcode(), s)
    ensures Searchable(OpcodeAgainst(opcode), s)
  {
    var cmp := OpcodeAgainst(opcode);
    forall i, j | 0 <= i < j < |s|
      ensures (cmp(s[i]) <= 0 ==> cmp(s[j]) <= 0) && (cmp(s[i]) < 0 ==> cmp(s[j]) < 0)
    {
      assert ByOpcode()(s[i], s[j]);
    }
  }

  // ----- names are unique whatever their case -----

  predicate Upper(s: string) {
    forall i :: 0 <= i < |s| ==> 'A' <= s[i] <= 'Z'
  }

  lemma FoldUpper(a: string, b: string)
    requires Upper(a) && Upper(b) && Fold(a) == Fold(b)
    ensures a == b
  {
    assert |Fold(a)| == |Fold(b)|;
    forall i | 0 <= i < |a| ensures a[i] == b[i] {
      assert Fold(a)[i] == Fold(b)[i];
    }
  }

  lemma UpperNames(i: nat)
    requires i < |MNEMONICS|
    ensures Upper(MNEMONICS[i].name) && |MNEMONICS[i].name| == 3
  {
    assert i <= 10;
  }

  lemma DistinctNames(i: nat, j: nat)
    requires i < |MNEMONICS| && j < |MNEMONICS| && MNEMONICS[i].name == MNEMONICS[j].name
    ensures i == j
  {
    assert i <= 10 && j <= 10;
    var a, b := MNEMONICS[i].name, MNEMONICS[j].name;
    assert a[0] == b[0] && a[1] == b[1] && a[2] == b[2];
  }

  lemma UniqueMnemonic(a: Mnemonic, b: Mnemonic)
    requires a in MNEMONICS && b in MNEMONICS && StrCaseCmp(a.name, b.name) == 0
    ensures a == b
  {
    StrCmpZero(Fold(a.name), Fold(b.name));
    var i :| 0 <= i < |MNEMONICS| && MNEMONICS[i] == a;
    var j :| 0 <= j < |MNEMONICS| && MNEMONICS[j] == b;
    UpperNames(i);
    UpperNames(j);
    FoldUpper(a.name, b.name);
    DistinctNames(i, j);
  }

  lemma {:induction false} FindInFinds(table: seq<Mnemonic>, name: string, m: Mnemonic)
    requires m in table && StrCaseCmp(name, m.name) == 0
    ensures FindIn(table, name).Some? && StrCaseCmp(name, FindIn(table, name).value.name) == 0
    ensures FindIn(table, name).value in table
  {
    FindInMember(table, name);
    if StrCaseCmp(name, table[0].name) != 0 {
      FindInFinds(table[1..], name, m);
    }
  }

  lemma {:induction false} FindInNone(table: seq<Mnemonic>, name: string)
    requires forall m :: m in table ==> StrCaseCmp(name, m.name) != 0
    ensures FindIn(table, name).None?
  {
    if table != [] {
      FindInNone(table[1..], name);
    }
  }

  /** A built-in's own name finds it. */
  lemma FindOwnName(name: string, m: Mnemonic)
    requires m in MNEMONICS && StrCaseCmp(name, m.name) == 0
    ensures FindInstr(name) == Some(m)
  {
    FindInFinds(MNEMONICS, name, m);
    var f := FindInstr(name).value;
    StrCmpZero(Fold(name), Fold(m.name));
    StrCmpZero(Fold(name), Fold(f.name));
    StrCmpZero(Fold(f.name), Fold(m.name));
    UniqueMnemonic(f, m);
  }

  lemma SameNameFinds(m: Mnemonic)
    requires m in MNEMONICS
    ensures FindInstr(m.name) == Some(m)
  {
    StrCmpZero(Fold(m.name), Fold(m.name));
    FindOwnName(m.name, m);
  }

  lemma NumFinds()
    ensures FindInstr("NUM") == Some(Directive("NUM", NUM))
  {
    assert MNEMONICS[9] == Directive("NUM", NUM);
    SameNameFinds(MNEMONICS[9]);
  }

  // ----- the index -----

  /** The first pass of arch_init over the sorted table: neighbours with one opcode are counted up. */
  ghost predicate Numbered(table: seq<Mnemonic>, index: seq<Entry>) {
    && |index| <= |table|
    && (forall i :: 0 <= i < |index| ==> index[i].mnemonic == table[i])
    && (forall i :: 0 <= i < |index| ==> (index[i].order != 0 ==> Continues(table, i)))
  }

  /** Entry i has the opcode of the entry before it. */
  predicate Continues(table: seq<Mnemonic>, i: nat)
    requires i < |table|
  {
    i > 0 && table[i].Instruction? && table[i - 1].Instruction? && table[i].opcode == table[i - 1].opcode
  }

  lemma {:induction false} RunStart(table: seq<Mnemonic>, index: seq<Entry>, i: nat) returns (k: nat)
    requires Numbered(table, index) && i < |index| && table[i].Instruction?
    ensures k <= i && index[k].order == 0 && table[k].Instruction? && table[k].opcode == table[i].opcode
  {
    if index[i].order == 0 {
      k := i;
    } else {
      k := RunStart(table, index, i - 1);
    }
  }

  /** The index is fit for searching: in order, over the built-in mnemonics, with a first entry for each
      opcode that has one. */
  ghost predicate IndexOk(index: seq<Entry>) {
    && SortedBy(ByOpcode(), index)
    && (forall e :: e in index ==> e.mnemonic in MNEMONICS)
    && forall m :: m in MNEMONICS && m.Instruction? ==>
      exists e :: e in index && e.order == 0 && e.mnemonic.Instruction? && e.mnemonic.opcode == m.opcode
  }

  /** `struct arch_state` with the mnemonic table. */
  class ArchState {
    var mnemonics: seq<Mnemonic>
    var index: seq<Entry>

    ghost predicate Valid()
      reads this
    {
      && SortedBy(ByName(), mnemonics) && multiset(mnemonics) == multiset(MNEMONICS)
      && IndexOk(index)
    }

    /** `arch_init`, up to the registration of the mnemonics as symbols. */
    constructor ()
      ensures Valid()
    {
      hide ByName, ByOpcode, MNEMONICS, SortedBy, TotalOrder, IndexOk;
      ByNameIsOrder();
      SortSorted(ByName(), MNEMONICS);
      var table := Sort(ByName(), MNEMONICS);
      var entries: seq<Entry> := [];
      var subOrder := 0;
      var i := 0;
      while i < |table|
        invariant 0 <= i == |entries| <= |table| && Numbered(table, entries)
      {
        var m := table[i];
        if i > 0 && m.Instruction? && entries[i - 1].mnemonic.Instruction?
          && m.opcode == entries[i - 1].mnemonic.opcode {
          subOrder := subOrder + 1;
        } else {
          subOrder := 0;
        }
        assert subOrder != 0 ==> Continues(table, i);
        entries := entries + [Entry(m, subOrder)];
        i := i + 1;
      }
      ByOpcodeIsOrder();
      SortSorted(ByOpcode(), entries);
      mnemonics := table;
      index := Sort(ByOpcode(), entries);
      new;
      IndexBuilt(table, entries, index);
    }

    /** `arch_find_instr`. */
    method FindByName(name: string) returns (m: Option<Mnemonic>)
      requires Valid()
      ensures m == FindInstr(name)
    {
      hide Arch.FindInstr, MNEMONICS, SortedBy, Searchable, StrCaseCmp, IndexOk;
      SortedNamesSearchable(mnemonics, name);
      var found := BSearch(NameAgainst(name), mnemonics);
      if found.Some? {
        m := Some(mnemonics[found.value]);
        assert m.value in multiset(mnemonics);
        FindOwnName(name, m.value);
      } else {
        m := None;
        forall b | b in MNEMONICS ensures StrCaseCmp(name, b.name) != 0 {
          assert b in multiset(MNEMONICS);
          assert b in mnemonics;
          var i :| 0 <= i < |mnemonics| && mnemonics[i] == b;
          assert NameAgainst(name)(mnemonics[i]) != 0;
        }
        FindInNone(MNEMONICS, name);
        NoInstr(name);
      }
    }

    /** `arch_find_opcode`: every opcode but 5 has a mnemonic, whichever alias the search meets. */
    method FindOpcode(opcode: int, max: nat) returns (results: seq<Mnemonic>)
      requires Valid()
      ensures |results| <= max
      ensures forall i :: 0 <= i < |results| ==>
        results[i] in MNEMONICS && results[i].Instruction? && results[i].opcode == opcode
      ensures max > 0 ==> (results != [] <==> 0 <= opcode < 8 && opcode != OP_SUB_ALIAS)
    {
      hide ByName, ByOpcode, MNEMONICS, SortedBy, Searchable, IndexOk, OpcodeAgainst;
      IndexSearchable(index, opcode);
      var found := BSearch(OpcodeAgainst(opcode), index);
      KnownOpcodes(index, opcode);
      results := [];
      if found.Some? {
        Matches(index, opcode, found.value);
        results := Collect(found.value, opcode, max);
      }
    }

    /** The loop of `arch_find_opcode`: the entries of that opcode from a given one on. */
    method Collect(start: nat, opcode: int, max: nat) returns (results: seq<Mnemonic>)
      requires Valid() && start < |index|
      requires index[start].mnemonic.Instruction? && index[start].mnemonic.opcode == opcode
      ensures |results| <= max && (max > 0 ==> results != [])
      ensures forall i :: 0 <= i < |results| ==>
        results[i] in MNEMONICS && results[i].Instruction? && results[i].opcode == opcode
    {
      hide ByName, ByOpcode, MNEMONICS, SortedBy, IndexOk;
      results := [];
      var entry := start;
      while entry < |index| && |results| < max && index[entry].mnemonic.Instruction?
            && index[entry].mnemonic.opcode == opcode
        invariant start <= entry <= |index| && |results| == entry - start <= max
        invariant forall i :: 0 <= i < |results| ==>
          results[i] in MNEMONICS && results[i].Instruction? && results[i].opcode == opcode
      {
        Indexed(index, entry);
        results := results + [index[entry].mnemonic];
        entry := entry + 1;
      }
    }
  }

  lemma IndexSearchable(index: seq<Entry>, opcode: int)
    requires IndexOk(index)
    ensures Searchable(OpcodeAgainst(opcode), index)
  {
    SortedEntriesSearchable(index, opcode);
  }

  lemma Indexed(index: seq<Entry>, i: nat)
    requires IndexOk(index) && i < |index|
    ensures index[i].mnemonic in MNEMONICS
  {
    assert index[i] in index;
  }

  lemma Matches(index: seq<Entry>, opcode: int, i: nat)
    requires IndexOk(index) && i < |index| && OpcodeAgainst(opcode)(index[i]) == 0
    ensures index[i].mnemonic.Instruction? && index[i].mnemonic.opcode == opcode
  {
    Indexed(index, i);
    OpcodeRange(index[i].mnemonic);
  }

  lemma NoInstr(name: string)
    requires FindIn(MNEMONICS, name).None?
    ensures FindInstr(name).None?
  {}

  lemma IndexBuilt(table: seq<Mnemonic>, entries: seq<Entry>, index: seq<Entry>)
    requires multiset(table) == multiset(MNEMONICS) && Numbered(table, entries) && |entries| == |table|
    requires multiset(index) == multiset(entries) && SortedBy(ByOpcode(), index)
    ensures IndexOk(index)
  {
    hide ByOpcode, MNEMONICS;
    forall e | e in index ensures e.mnemonic in MNEMONICS {
      assert e in multiset(entries);
      var i :| 0 <= i < |entries| && entries[i] == e;
      assert table[i] in multiset(table);
    }
    forall m | m in MNEMONICS && m.Instruction?
      ensures exists e :: e in index && e.order == 0 && e.mnemonic.Instruction? && e.mnemonic.opcode == m.opcode
    {
      assert m in multiset(table);
      var i :| 0 <= i < |table| && table[i] == m;
      var k := RunStart(table, entries, i);
      assert entries[k] in multiset(index);
    }
  }

  lemma KnownOpcodes(index: seq<Entry>, opcode: int)
    requires IndexOk(index)
    ensures (exists i :: 0 <= i < |index| && OpcodeAgainst(opcode)(index[i]) == 0)
       <==> 0 <= opcode < 8 && opcode != OP_SUB_ALIAS
  {
    hide IndexOk, OpcodeAgainst;
    if 0 <= opcode < 8 && opcode != OP_SUB_ALIAS {
      KnownIndexed(index, opcode);
    }
    if i :| 0 <= i < |index| && OpcodeAgainst(opcode)(index[i]) == 0 {
      IndexedKnown(index, opcode, i);
    }
  }

  lemma KnownIndexed(index: seq<Entry>, opcode: int)
    requires IndexOk(index) && 0 <= opcode < 8 && opcode != OP_SUB_ALIAS
    ensures exists i :: 0 <= i < |index| && OpcodeAgainst(opcode)(index[i]) == 0
  {
    hide SortedBy, MNEMONICS;
    var m := SomeMnemonic(opcode);
    var e :| e in index && e.order == 0 && e.mnemonic.Instruction? && e.mnemonic.opcode == m.opcode;
    var i :| 0 <= i < |index| && index[i] == e;
    assert OpcodeAgainst(opcode)(index[i]) == 0;
  }

  lemma IndexedKnown(index: seq<Entry>, opcode: int, i: nat)
    requires IndexOk(index) && i < |index| && OpcodeAgainst(opcode)(index[i]) == 0
    ensures 0 <= opcode < 8 && opcode != OP_SUB_ALIAS
  {
    hide SortedBy, MNEMONICS;
    assert index[i] in index;
    OpcodeRange(index[i].mnemonic);
  }

  lemma SomeMnemonic(opcode: int) returns (m: Mnemonic)
    requires 0 <= opcode < 8 && opcode != OP_SUB_ALIAS
    ensures m in MNEMONICS && m.Instruction? && m.opcode == opcode
  {
    var i := if opcode == OP_JMP then 0 else if opcode == OP_JRP then 1 else if opcode == OP_SUB then 2
             else if opcode == OP_LDN then 3 else if opcode == OP_SKN then 4 else if opcode == OP_STO then 5 else 6;
    m := MNEMONICS[i];
  }

  lemma OpcodeRange(m: Mnemonic)
    requires m in MNEMONICS
    ensures m.Instruction? ==> m.opcode < 8 && m.opcode != OP_SUB_ALIAS
    ensures m.Instruction? ==> m.operands == if m.opcode == OP_SKN || m.opcode == OP_HLT then 0 else 1
    ensures !m.Macro?
  {
    var i :| 0 <= i < |MNEMONICS| && MNEMONICS[i] == m;
    assert i <= 10;
  }
}
