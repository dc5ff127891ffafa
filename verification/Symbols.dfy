/** Symbol tables: lazily sorted arrays, chained into contexts (symbols.c).

    Contexts live in one store and are named by their index in order of creation, which stands for
    the pointer; a parent pointer is therefore the index of an older context. */
module Symbols {
  import opened Wrappers
  import opened Scopes
  import opened Libc

  datatype SymType = MnemonicType | LabelType

  datatype Symbol = Symbol(name: string, val: SymVal)

  datatype Table = Table(symbols: seq<Symbol>, caseInsensitive: bool, sorted: bool)

  datatype Context = Context(parent: Option<nat>, mnemonics: Option<Table>, labels: Option<Table>) {
    function Get(ty: SymType): Option<Table> {
      if ty.MnemonicType? then mnemonics else labels
    }

    function Put(ty: SymType, t: Table): Context {
      if ty.MnemonicType? then this.(mnemonics := Some(t)) else this.(labels := Some(t))
    }
  }

  datatype LookupScope = Default | Local | ExcludeSpecifiedUndef

  /** A `struct symbol *`: position i of the table in context c. */
  datatype SymPtr = SymPtr(c: nat, i: nat)

  /** The form of a name that a table compares. */
  function Key(ci: bool, name: string): string {
    if ci then Fold(name) else name
  }

  /** `symsort` and `symcasesort`. */
  function Before(ci: bool): (Symbol, Symbol) -> bool {
    (a: Symbol, b: Symbol) => StrCmp(Key(ci, a.name), Key(ci, b.name)) <= 0
  }

  /** `symsearch` and `symcasesearch`. */
  function Against(ci: bool, name: string): Symbol -> int {
    (s: Symbol) => StrCmp(Key(ci, name), Key(ci, s.name))
  }

  /** The map that an array of symbols stands for. */
  function Contents(ci: bool, s: seq<Symbol>): map<string, SymVal> {
    if s == [] then map[] else Contents(ci, s[1..])[Key(ci, s[0].name) := s[0].val]
  }

  ghost predicate Distinct(ci: bool, s: seq<Symbol>) {
    s == [] || (Key(ci, s[0].name) !in Contents(ci, s[1..]) && Distinct(ci, s[1..]))
  }

  lemma {:induction false} ContentsAt(ci: bool, s: seq<Symbol>, i: nat)
    requires Distinct(ci, s) && i < |s|
    ensures Key(ci, s[i].name) in Contents(ci, s)
    ensures Contents(ci, s)[Key(ci, s[i].name)] == s[i].val
  {
    if i > 0 {
      ContentsAt(ci, s[1..], i - 1);
    }
  }

  lemma {:induction false} ContentsHas(ci: bool, s: seq<Symbol>, k: string) returns (i: nat)
    requires k in Contents(ci, s)
    ensures i < |s| && Key(ci, s[i].name) == k
  {
    if Key(ci, s[0].name) == k {
      i := 0;
    } else {
      i := ContentsHas(ci, s[1..], k);
      i := i + 1;
    }
  }

  lemma SwapUpdates(m: map<string, SymVal>, a: string, v: SymVal, b: string, w: SymVal)
    requires a != b
    ensures m[a := v][b := w] == m[b := w][a := v]
  {}

  lemma ContentsCons(ci: bool, x: Symbol, s: seq<Symbol>)
    ensures Contents(ci, [x] + s) == Contents(ci, s)[Key(ci, x.name) := x.val]
    ensures Distinct(ci, [x] + s) <==> Key(ci, x.name) !in Contents(ci, s) && Distinct(ci, s)
  {
    assert ([x] + s)[1..] == s;
  }

  lemma {:induction false} ContentsUpdate(ci: bool, s: seq<Symbol>, i: nat, v: SymVal)
    requires Distinct(ci, s) && i < |s|
    ensures Distinct(ci, s[i := s[i].(val := v)])
    ensures Contents(ci, s[i := s[i].(val := v)]) == Contents(ci, s)[Key(ci, s[i].name) := v]
  {
    hide Key, Contents, Distinct;
    var t, x := s[i := s[i].(val := v)], s[0];
    assert s == [x] + s[1..];
    ContentsCons(ci, x, s[1..]);
    if i == 0 {
      assert t[1..] == s[1..] && t == [t[0]] + t[1..];
      ContentsCons(ci, x.(val := v), s[1..]);
    } else {
      var rest := s[1..][i - 1 := s[i].(val := v)];
      ContentsUpdate(ci, s[1..], i - 1, v);
      ContentsAt(ci, s[1..], i - 1);
      assert t == [x] + rest;
      ContentsCons(ci, x, rest);
      SwapUpdates(Contents(ci, s[1..]), Key(ci, s[i].name), v, Key(ci, x.name), x.val);
    }
  }

  lemma {:induction false} ContentsAppend(ci: bool, s: seq<Symbol>, x: Symbol)
    requires Distinct(ci, s) && Key(ci, x.name) !in Contents(ci, s)
    ensures Distinct(ci, s + [x])
    ensures Contents(ci, s + [x]) == Contents(ci, s)[Key(ci, x.name) := x.val]
  {
    hide Key;
    if s == [] {
      assert [x] + s == s + [x];
      ContentsCons(ci, x, s);
    } else {
      hide Contents, Distinct;
      assert s == [s[0]] + s[1..];
      ContentsCons(ci, s[0], s[1..]);
      ContentsAppend(ci, s[1..], x);
      assert s + [x] == [s[0]] + (s[1..] + [x]);
      ContentsCons(ci, s[0], s[1..] + [x]);
      SwapUpdates(Contents(ci, s[1..]), Key(ci, x.name), x.val, Key(ci, s[0].name), s[0].val);
    }
  }

  lemma {:induction false} InsertKeepsContents(ci: bool, x: Symbol, s: seq<Symbol>)
    requires Distinct(ci, s) && Key(ci, x.name) !in Contents(ci, s)
    ensures Distinct(ci, Insert(Before(ci), x, s))
    ensures Contents(ci, Insert(Before(ci), x, s)) == Contents(ci, s)[Key(ci, x.name) := x.val]
  {
    hide Key, Before, Contents, Distinct;
    ContentsCons(ci, x, s);
    if s != [] && !Before(ci)(x, s[0]) {
      assert s == [s[0]] + s[1..];
      ContentsCons(ci, s[0], s[1..]);
      InsertKeepsContents(ci, x, s[1..]);
      ContentsCons(ci, s[0], Insert(Before(ci), x, s[1..]));
      SwapUpdates(Contents(ci, s[1..]), Key(ci, x.name), x.val, Key(ci, s[0].name), s[0].val);
    }
  }

  lemma {:induction false} SortKeepsContents(ci: bool, s: seq<Symbol>)
    requires Distinct(ci, s)
    ensures Distinct(ci, Sort(Before(ci), s))
    ensures Contents(ci, Sort(Before(ci), s)) == Contents(ci, s)
  {
    if s != [] {
      SortKeepsContents(ci, s[1..]);
      InsertKeepsContents(ci, s[0], Sort(Before(ci), s[1..]));
    }
  }

  lemma BeforeIsOrder(ci: bool)
    ensures TotalOrder(Before(ci))
  {
    var le := Before(ci);
    forall a, b ensures le(a, b) || le(b, a) {
      StrCmpAntisymmetric(Key(ci, a.name), Key(ci, b.name));
    }
    forall a, b, c | le(a, b) && le(b, c) ensures le(a, c) {
      StrCmpTransitive(Key(ci, a.name), Key(ci, b.name), Key(ci, c.name));
    }
  }

  lemma SortedIsSearchable(ci: bool, s: seq<Symbol>, name: string)
    requires SortedBy(Before(ci), s)
    ensures Searchable(Against(ci, name), s)
  {
    var cmp := Against(ci, name);
    forall i, j | 0 <= i < j < |s|
      ensures (cmp(s[i]) <= 0 ==> cmp(s[j]) <= 0) && (cmp(s[i]) < 0 ==> cmp(s[j]) < 0)
    {
      assert Before(ci)(s[i], s[j]);
      if cmp(s[i]) <= 0 {
        StrCmpTransitive(Key(ci, name), Key(ci, s[i].name), Key(ci, s[j].name));
      }
    }
  }

  ghost predicate TableOk(t: Table, ty: SymType) {
    && t.caseInsensitive == ty.MnemonicType?
    && Distinct(t.caseInsensitive, t.symbols)
    && (t.sorted ==> SortedBy(Before(t.caseInsensitive), t.symbols))
  }

  ghost predicate ContextsOk(cs: seq<Context>) {
    forall c :: 0 <= c < |cs| ==>
      && (cs[c].parent.Some? ==> cs[c].parent.value < c)
      && forall ty :: cs[c].Get(ty).Some? ==> TableOk(cs[c].Get(ty).value, ty)
  }

  /** One kind of symbol in one context, as a map. */
  function ScopeOf(c: Context, ty: SymType): Scope {
    Scope(c.parent, match c.Get(ty) case None => map[] case Some(t) => Contents(t.caseInsensitive, t.symbols))
  }

  function ScopesOf(cs: seq<Context>, ty: SymType): (S: seq<Scope>)
    ensures |S| == |cs| && forall c :: 0 <= c < |cs| ==> S[c] == ScopeOf(cs[c], ty) && S[c].parent == cs[c].parent
    ensures ContextsOk(cs) ==> Chained(S)
  {
    seq(|cs|, c requires 0 <= c < |cs| => ScopeOf(cs[c], ty))
  }

  /** The linear walk up the parent chain that lookup amounts to. */
  function Walk(S: seq<Scope>, start: Option<nat>, key: string, scope: LookupScope, specific: Option<nat>)
    : (r: Option<nat>)
    requires Chained(S) && (start.Some? ==> start.value < |S|)
    ensures r.Some? ==> r.value < |S| && key in S[r.value].syms
    decreases if start.Some? then start.value + 1 else 0
  {
    if start.None? then None
    else
      var c := start.value;
      if key in S[c].syms && !(scope.ExcludeSpecifiedUndef? && specific == Some(c) && !S[c].syms[key].WordSym?) then
        Some(c)
      else if scope.Local? then None
      else Walk(S, S[c].parent, key, scope, specific)
  }

  lemma {:induction false} WalkAny(S: seq<Scope>, c: nat, key: string, scope: LookupScope, specific: Option<nat>)
    requires Chained(S) && c < |S| && !scope.Local?
    requires scope.ExcludeSpecifiedUndef? && specific.Some? ==> c < specific.value
    ensures Walk(S, Some(c), key, scope, specific) == FindAny(S, c, key)
    decreases c
  {
    if key !in S[c].syms && S[c].parent.Some? {
      WalkAny(S, S[c].parent.value, key, scope, specific);
    }
  }

  lemma WalkExcluding(S: seq<Scope>, c: nat, key: string)
    requires Chained(S) && c < |S|
    ensures Walk(S, Some(c), key, ExcludeSpecifiedUndef, Some(c)) == Find(S, c, key)
  {
    if S[c].parent.Some? {
      WalkAny(S, S[c].parent.value, key, ExcludeSpecifiedUndef, Some(c));
    }
  }

  /** Pointers into a sorted table stay good: its names stay where they are. */
  ghost predicate TableStable(t: Table, u: Table) {
    t.sorted ==> u.sorted && |u.symbols| == |t.symbols|
                 && forall i :: 0 <= i < |t.symbols| ==> u.symbols[i].name == t.symbols[i].name
  }

  ghost predicate Stable(cs: seq<Context>, ds: seq<Context>) {
    && |cs| == |ds|
    && forall c, ty :: 0 <= c < |cs| ==>
      ds[c].Get(ty).Some? == cs[c].Get(ty).Some?
      && (cs[c].Get(ty).Some? ==> TableStable(cs[c].Get(ty).value, ds[c].Get(ty).value))
  }

  lemma StableCompose(a: seq<Context>, b: seq<Context>, c: seq<Context>)
    requires Stable(a, b) && Stable(b, c)
    ensures Stable(a, c)
  {}

  /** Replacing one table changes one scope, to the new table's contents. */
  lemma ReplaceTable(cs: seq<Context>, c: nat, ty: SymType, t: Table)
    requires ContextsOk(cs) && c < |cs| && cs[c].Get(ty).Some? && TableOk(t, ty)
    ensures var ds := cs[c := cs[c].Put(ty, t)];
      && ContextsOk(ds) && (TableStable(cs[c].Get(ty).value, t) ==> Stable(cs, ds))
      && ScopesOf(ds, ty) == ScopesOf(cs, ty)[c := Scope(cs[c].parent, Contents(t.caseInsensitive, t.symbols))]
      && forall u :: u != ty ==> ScopesOf(ds, u) == ScopesOf(cs, u)
  {
    hide Contents, Distinct, SortedBy;
    var ds := cs[c := cs[c].Put(ty, t)];
    forall d, u | 0 <= d < |ds| && ds[d].Get(u).Some? ensures TableOk(ds[d].Get(u).value, u) {
      if d == c && u == ty {
      } else {
        assert ds[d].Get(u) == cs[d].Get(u);
      }
    }
    forall u | u != ty ensures ScopesOf(ds, u) == ScopesOf(cs, u) {
      assert ds[c].Get(u) == cs[c].Get(u);
    }
  }

  /** The pointer designates the symbol of that key, in a table that is sorted. */
  ghost predicate PointsIn(cs: seq<Context>, p: SymPtr, ty: SymType, key: string) {
    && p.c < |cs| && cs[p.c].Get(ty).Some?
    && var t := cs[p.c].Get(ty).value;
    && t.sorted && p.i < |t.symbols| && Key(t.caseInsensitive, t.symbols[p.i].name) == key
  }

  /** A pointer survives every operation that keeps the tables stable, and reads the value of its key. */
  lemma PointerKept(cs: seq<Context>, ds: seq<Context>, p: SymPtr, ty: SymType, key: string)
    requires PointsIn(cs, p, ty, key) && Stable(cs, ds) && ContextsOk(cs) && ContextsOk(ds)
    ensures PointsIn(ds, p, ty, key)
    ensures key in ScopesOf(ds, ty)[p.c].syms
    ensures ds[p.c].Get(ty).value.symbols[p.i].val == ScopesOf(ds, ty)[p.c].syms[key]
  {
    hide Contents, Distinct, SortedBy, Key;
    var t, u := cs[p.c].Get(ty).value, ds[p.c].Get(ty).value;
    assert TableOk(t, ty) && TableOk(u, ty);
    ContentsAt(u.caseInsensitive, u.symbols, p.i);
  }

  class SymbolStore {
    var contexts: seq<Context>

    /** `sym_init`: the root context, with a table of each kind. */
    constructor ()
      ensures Valid()
      ensures contexts == [Context(None, Some(Table([], true, false)), Some(Table([], false, false)))]
      ensures Scopes(MnemonicType) == [Scope(None, map[])] && Scopes(LabelType) == [Scope(None, map[])]
    {
      contexts := [Context(None, Some(Table([], true, false)), Some(Table([], false, false)))];
    }

    ghost predicate Valid()
      reads this
    {
      ContextsOk(contexts)
    }

    function Scopes(ty: SymType): seq<Scope>
      reads this
    {
      ScopesOf(contexts, ty)
    }

    function Deref(p: SymPtr, ty: SymType): Symbol
      reads this
      requires p.c < |contexts| && contexts[p.c].Get(ty).Some? && p.i < |contexts[p.c].Get(ty).value.symbols|
    {
      contexts[p.c].Get(ty).value.symbols[p.i]
    }

    ghost predicate Points(p: SymPtr, ty: SymType, key: string)
      reads this
    {
      PointsIn(contexts, p, ty, key)
    }

    /** `sym_sort`. */
    method Sort(c: nat, ty: SymType)
      requires Valid() && c < |contexts| && contexts[c].Get(ty).Some?
      modifies this
      ensures Valid() && Stable(old(contexts), contexts)
      ensures forall u :: Scopes(u) == old(Scopes(u))
      ensures contexts[c].Get(ty).value.sorted
    {
      hide Contents, Distinct, SortedBy, TotalOrder, Before;
      var t := contexts[c].Get(ty).value;
      var ci := t.caseInsensitive;
      if !t.sorted {
        var sorted := Table(Libc.Sort(Before(ci), t.symbols), ci, true);
        BeforeIsOrder(ci);
        SortSorted(Before(ci), t.symbols);
        SortKeepsContents(ci, t.symbols);
        ReplaceTable(contexts, c, ty, sorted);
        contexts := contexts[c := contexts[c].Put(ty, sorted)];
      }
    }

    /** One table of the chain: sort it if need be and search it. */
    method Search(c: nat, ty: SymType, name: string) returns (sym: Option<SymPtr>)
      requires Valid() && c < |contexts|
      modifies this
      ensures Valid() && Stable(old(contexts), contexts)
      ensures forall u :: Scopes(u) == old(Scopes(u))
      ensures var key := Key(ty.MnemonicType?, name);
        && (sym.Some? <==> key in Scopes(ty)[c].syms)
        && (sym.Some? ==> sym.value.c == c && Points(sym.value, ty, key)
                          && Deref(sym.value, ty).val == Scopes(ty)[c].syms[key])
    {
      hide Contents, Distinct, SortedBy, Against;
      if contexts[c].Get(ty).None? {
        return None;
      }
      Sort(c, ty);
      var t := contexts[c].Get(ty).value;
      var ci := t.caseInsensitive;
      SortedIsSearchable(ci, t.symbols, name);
      var found := BSearch(Against(ci, name), t.symbols);
      FoundMeans(ci, t.symbols, name, found);
      return match found case None => None case Some(i) => Some(SymPtr(c, i));
    }

    /** `sym_lookup_with_context`: sort on demand, search, and go on to the parent. */
    method LookupWithContext(start: Option<nat>, ty: SymType, name: string, scope: LookupScope, specific: Option<nat>)
      returns (sym: Option<SymPtr>)
      requires Valid() && (start.Some? ==> start.value < |contexts|)
      modifies this
      ensures Valid() && Stable(old(contexts), contexts)
      ensures forall u :: Scopes(u) == old(Scopes(u))
      ensures var key := Key(ty.MnemonicType?, name);
        match Walk(old(Scopes(ty)), start, key, scope, specific)
        case None => sym.None?
        case Some(c) => sym.Some? && sym.value.c == c && Points(sym.value, ty, key)
                        && Deref(sym.value, ty).val == old(Scopes(ty))[c].syms[key]
    {
      hide ScopesOf, ScopeOf, Key, TableOk;
      var context: Option<nat> := start;
      sym := None;
      ghost var S := Scopes(ty);
      ghost var key := Key(ty.MnemonicType?, name);
      while context.Some? && sym.None?
        invariant Valid() && Stable(old(contexts), contexts)
        invariant forall u :: Scopes(u) == old(Scopes(u))
        invariant context.Some? ==> context.value < |contexts|
        invariant sym.None? ==> Walk(S, start, key, scope, specific) == Walk(S, context, key, scope, specific)
        invariant sym.Some? ==> Walk(S, start, key, scope, specific) == Some(sym.value.c) && Points(sym.value, ty, key)
                                && Deref(sym.value, ty).val == S[sym.value.c].syms[key]
        decreases if context.Some? && sym.None? then context.value + 1 else 0
      {
        var c := context.value;
        sym := Search(c, ty, name);
        if sym.None? || (scope.ExcludeSpecifiedUndef? && specific == Some(c) && !Deref(sym.value, ty).val.WordSym?) {
          context := if scope.Local? then None else contexts[c].parent;
          sym := None;
        }
      }
    }

    /** `sym_getref`: the reference of a name, added undefined if it is new. */
    method GetRef(c: nat, ty: SymType, name: string)
      requires Valid() && c < |contexts| && contexts[c].Get(ty).Some?
      modifies this
      ensures Valid() && |contexts| == |old(contexts)|
      ensures forall d, u :: 0 <= d < |contexts| ==> contexts[d].Get(u).Some? == old(contexts)[d].Get(u).Some?
      ensures var key := Key(ty.MnemonicType?, name);
        var s := old(Scopes(ty))[c];
        Scopes(ty) == old(Scopes(ty))[c := s.(syms := if key in s.syms then s.syms else s.syms[key := UndefSym])]
      ensures forall u :: u != ty ==> Scopes(u) == old(Scopes(u))
    {
      hide Contents, Distinct, SortedBy, Key;
      ghost var S := Scopes(ty);
      var sym := LookupWithContext(Some(c), ty, name, Local, None);
      if sym.Some? {
        assert S[c := S[c].(syms := S[c].syms)] == S;
        return;
      }
      var t := contexts[c].Get(ty).value;
      var added := Symbol(name, UndefSym);
      ContentsAppend(t.caseInsensitive, t.symbols, added);
      var u := Table(t.symbols + [added], t.caseInsensitive, false);
      ReplaceTable(contexts, c, ty, u);
      contexts := contexts[c := contexts[c].Put(ty, u)];
    }

    /** `sym_setval`. */
    method SetVal(c: nat, ty: SymType, name: string, val: SymVal)
      requires Valid() && c < |contexts|
      requires Key(ty.MnemonicType?, name) in Scopes(ty)[c].syms
      modifies this
      ensures Valid() && Stable(old(contexts), contexts)
      ensures var s := old(Scopes(ty))[c];
        Scopes(ty) == old(Scopes(ty))[c := s.(syms := s.syms[Key(ty.MnemonicType?, name) := val])]
      ensures forall u :: u != ty ==> Scopes(u) == old(Scopes(u))
    {
      hide Contents, Distinct, SortedBy, Key;
      var sym := LookupWithContext(Some(c), ty, name, Local, None);
      var i := sym.value.i;
      var t := contexts[c].Get(ty).value;
      ContentsUpdate(t.caseInsensitive, t.symbols, i, val);
      var u := t.(symbols := t.symbols[i := t.symbols[i].(val := val)]);
      RenamingNothing(t, i, val);
      ghost var cs := contexts;
      ReplaceTable(contexts, c, ty, u);
      contexts := contexts[c := contexts[c].Put(ty, u)];
      StableCompose(old(contexts), cs, contexts);
    }

    /** `sym_add`. */
    method Add(c: nat, ty: SymType, name: string, val: SymVal)
      requires Valid() && c < |contexts| && contexts[c].Get(ty).Some?
      modifies this
      ensures Valid() && |contexts| == |old(contexts)|
      ensures forall d, u :: 0 <= d < |contexts| ==> contexts[d].Get(u).Some? == old(contexts)[d].Get(u).Some?
      ensures var s := old(Scopes(ty))[c];
        Scopes(ty) == old(Scopes(ty))[c := s.(syms := s.syms[Key(ty.MnemonicType?, name) := val])]
      ensures forall u :: u != ty ==> Scopes(u) == old(Scopes(u))
    {
      hide Contents, Distinct, SortedBy, Key;
      ghost var m, key := Scopes(ty)[c].syms, Key(ty.MnemonicType?, name);
      GetRef(c, ty, name);
      assert m[key := UndefSym][key := val] == m[key := val];
      SetVal(c, ty, name, val);
    }

    /** `sym_getval`, with None for the null value handed out when there is no such symbol. */
    method GetVal(c: nat, ty: SymType, name: string) returns (val: Option<SymVal>)
      requires Valid() && c < |contexts|
      modifies this
      ensures Valid() && Stable(old(contexts), contexts)
      ensures forall u :: Scopes(u) == old(Scopes(u))
      ensures var key := Key(ty.MnemonicType?, name);
        val == match FindAny(Scopes(ty), c, key) case None => None case Some(d) => Some(Scopes(ty)[d].syms[key])
    {
      hide ScopesOf, ScopeOf, Key;
      var sym := LookupWithContext(Some(c), ty, name, Default, None);
      WalkAny(Scopes(ty), c, Key(ty.MnemonicType?, name), Default, None);
      return match sym case None => None case Some(p) => Some(Deref(p, ty).val);
    }

    /** `sym_context_create` followed by `sym_table_create` for labels. */
    method ContextCreate(parent: Option<nat>) returns (c: nat)
      requires Valid() && (parent.Some? ==> parent.value < |contexts|)
      modifies this
      ensures Valid() && c == |old(contexts)|
      ensures contexts == old(contexts) + [Context(parent, None, Some(Table([], false, false)))]
      ensures Scopes(LabelType) == old(Scopes(LabelType)) + [Scope(parent, map[])]
      ensures Scopes(MnemonicType) == old(Scopes(MnemonicType)) + [Scope(parent, map[])]
    {
      c := |contexts|;
      contexts := contexts + [Context(parent, None, Some(Table([], false, false)))];
    }

    /** Assignment to the parent field of a context. */
    method SetParent(c: nat, parent: nat)
      requires Valid() && parent < c < |contexts|
      modifies this
      ensures Valid() && Stable(old(contexts), contexts)
      ensures forall u :: Scopes(u) == old(Scopes(u))[c := old(Scopes(u))[c].(parent := Some(parent))]
    {
      hide Contents, Distinct, SortedBy, TableOk;
      contexts := contexts[c := contexts[c].(parent := Some(parent))];
      assert forall d, u :: 0 <= d < |contexts| ==> contexts[d].Get(u) == old(contexts)[d].Get(u);
      forall u ensures Scopes(u) == old(Scopes(u))[c := old(Scopes(u))[c].(parent := Some(parent))] {
        assert contexts[c].Get(u) == old(contexts)[c].Get(u);
      }
    }

    /** `sym_context_destroy` of the youngest context. */
    method ContextDestroy()
      requires Valid() && |contexts| > 0
      modifies this
      ensures Valid()
      ensures contexts == old(contexts)[..|old(contexts)| - 1]
      ensures forall u :: Scopes(u) == old(Scopes(u))[..|old(contexts)| - 1]
    {
      hide Contents, Distinct, SortedBy, TableOk;
      contexts := contexts[..|contexts| - 1];
    }
  }

  lemma RenamingNothing(t: Table, i: nat, v: SymVal)
    requires i < |t.symbols| && (t.sorted ==> SortedBy(Before(t.caseInsensitive), t.symbols))
    ensures var u := t.(symbols := t.symbols[i := t.symbols[i].(val := v)]);
      TableStable(t, u) && (u.sorted ==> SortedBy(Before(u.caseInsensitive), u.symbols))
  {
    var s, ci := t.symbols[i := t.symbols[i].(val := v)], t.caseInsensitive;
    if t.sorted {
      forall j, k | 0 <= j < k < |s| ensures Before(ci)(s[j], s[k]) {
        assert Before(ci)(t.symbols[j], t.symbols[k]);
      }
    }
  }

  lemma FoundMeans(ci: bool, s: seq<Symbol>, name: string, found: Option<nat>)
    requires Distinct(ci, s)
    requires found.Some? ==> found.value < |s| && Against(ci, name)(s[found.value]) == 0
    requires found.None? ==> forall i :: 0 <= i < |s| ==> Against(ci, name)(s[i]) != 0
    ensures found.Some? <==> Key(ci, name) in Contents(ci, s)
    ensures found.Some? ==> Key(ci, s[found.value].name) == Key(ci, name)
                            && Contents(ci, s)[Key(ci, name)] == s[found.value].val
  {
    if found.Some? {
      StrCmpZero(Key(ci, name), Key(ci, s[found.value].name));
      ContentsAt(ci, s, found.value);
    } else if Key(ci, name) in Contents(ci, s) {
      var i := ContentsHas(ci, s, Key(ci, name));
      StrCmpZero(Key(ci, name), Key(ci, s[i].name));
    }
  }
}
