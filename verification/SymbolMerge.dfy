/**
 The merge of an assembled object's symbols into a compiled object's symbol table, and the new numbers
 that relocations of both objects get.
 */
module SymbolMerge {
  const SHN_UNDEF := 0
  const SHN_ABS := 0xfff1
  const STB_LOCAL := 0
  const TEMP_PREFIX := "_asmpp_"
  const GP_DISP := "_gp_disp"

  datatype Symbol = Symbol(stName: nat, name: string, value: int, shndx: int, bind: int)

  /** Which symbol of which table: the compiled object, the assembled object, or the statics found in .mdebug. */
  datatype Ref = Compiled(i: nat) | Assembled(i: nat) | Static(i: nat)

  datatype Item = Item(ref: Ref, sym: Symbol)

  datatype Result<+T> = Ok(value: T) | Failed

  /** A symbol table with its strings; the first `locals` entries are local. */
  datatype Table = Table(symbols: seq<Symbol>, strings: string, locals: nat)

  /** Where the assembled object's sections go: section index in the compiled object, and whether it is late rodata. */
  datatype Home = Home(section: int, late: bool)

  datatype Input = Input(
    compiled: Table,
    assembled: Table,
    statics: seq<Symbol>,
    staticStrings: string,
    homes: map<int, Home>,
    moved: map<int, int>,          // late rodata: source offset to target offset
    compiledRelocs: seq<nat>,      // the symbols of the compiled object's kept relocations
    assembledRelocs: seq<nat>)     // the symbols of the assembled object's relocations

  predicate IsTemp(name: string) { TEMP_PREFIX <= name }

  predicate Defined(s: Symbol) { s.shndx != SHN_UNDEF }

  /* ----- the symbols that are candidates for the new table ----- */

  function FromCompiled(t: Table, k: nat): (r: seq<Item>)
    requires 1 <= k <= |t.symbols|
    ensures forall m :: m in r <==> m.ref.Compiled? && 1 <= m.ref.i < k && m.sym == t.symbols[m.ref.i] && !Temporary(m.sym.name)
    ensures forall a, b :: 0 <= a < b < |r| ==> r[a].ref.i < r[b].ref.i
  {
    if k == 1 then []
    else
      var r := FromCompiled(t, k - 1);
      TempIs(t.symbols[k - 1].name);
      if IsTemp(t.symbols[k - 1].name) then r else r + [Item(Compiled(k - 1), t.symbols[k - 1])]
  }

  function FromStatics(ss: seq<Symbol>, k: nat): (r: seq<Item>)
    requires k <= |ss|
    ensures |r| == k && forall i :: 0 <= i < k ==> r[i] == Item(Static(i), ss[i])
  {
    seq(k, i requires 0 <= i < k => Item(Static(i), ss[i]))
  }

  /** The symbol as it enters the compiled object, or a failure. */
  function Placed(inp: Input, s: Symbol): Result<Symbol> {
    var s' := s.(stName := s.stName + |inp.compiled.strings|);
    if s.shndx in {SHN_UNDEF, SHN_ABS} then Ok(s')
    else if s.shndx !in inp.homes then Failed
    else
      var h := inp.homes[s.shndx];
      if !h.late then Ok(s'.(shndx := h.section))
      else if s.value == 0 || s.value !in inp.moved then Failed
      else Ok(s'.(shndx := h.section, value := inp.moved[s.value]))
  }

  /** Neither undefined nor absolute: the symbol lies in a section. */
  predicate InSection(s: Symbol) { s.shndx != 0 && s.shndx != 0xfff1 }

  /** There is no place for it: its section has no home, or it is a late rodata symbol that was not moved. */
  ghost predicate Homeless(inp: Input, s: Symbol) {
    InSection(s) && (s.shndx in inp.homes ==> inp.homes[s.shndx].late && (s.value == 0 || s.value !in inp.moved))
  }

  /** `t` is `s` in the compiled object: same name, same binding, and the same place where that went. */
  ghost predicate Becomes(inp: Input, s: Symbol, t: Symbol) {
    && t.name == s.name && t.bind == s.bind && t.stName == |inp.compiled.strings| + s.stName
    && (!InSection(s) ==> t.shndx == s.shndx && t.value == s.value)
    && (InSection(s) ==>
          && !Homeless(inp, s) && t.shndx == inp.homes[s.shndx].section
          && t.value == if inp.homes[s.shndx].late then inp.moved[s.value] else s.value)
  }

  lemma PlacedIs(inp: Input, s: Symbol, t: Symbol)
    ensures Placed(inp, s) == Ok(t) <==> Becomes(inp, s, t)
    ensures Placed(inp, s).Failed? <==> Homeless(inp, s)
  {
  }

  predicate Temporary(name: string) { |name| >= 7 && name[..7] == "_asmpp_" }

  lemma TempIs(name: string)
    ensures IsTemp(name) <==> Temporary(name)
  {
    assert |TEMP_PREFIX| == 7;
    if IsTemp(name) {
      assert name[..7] == TEMP_PREFIX;
    }
  }

  /** An assembled symbol that is local and has no relocation is left behind, whatever it is. */
  predicate Unneeded(inp: Input, i: nat) { i < inp.assembled.locals && i !in inp.assembledRelocs }

  /** Assembled symbol `i` makes the merge fail: a temporary one that is needed, or one without a place. */
  ghost predicate Unplaceable(inp: Input, i: nat)
    requires i < |inp.assembled.symbols|
  {
    var s := inp.assembled.symbols[i];
    !Unneeded(inp, i) && if Temporary(s.name) then i in inp.assembledRelocs else Homeless(inp, s)
  }

  ghost predicate IsCarried(inp: Input, m: Item) {
    && m.ref.Assembled? && m.ref.i < |inp.assembled.symbols|
    && var s := inp.assembled.symbols[m.ref.i];
       !Unneeded(inp, m.ref.i) && !Temporary(s.name) && Becomes(inp, s, m.sym)
  }

  lemma CarriedIs(inp: Input, i: nat, t: Symbol)
    requires i < |inp.assembled.symbols| && Placed(inp, inp.assembled.symbols[i]) == Ok(t)
    requires !Unneeded(inp, i) && !Temporary(inp.assembled.symbols[i].name)
    ensures !Unplaceable(inp, i) && forall m: Item :: m.ref == Assembled(i) ==> (IsCarried(inp, m) <==> m.sym == t)
  {
    var s := inp.assembled.symbols[i];
    PlacedIs(inp, s, t);
    forall m: Item | m.ref == Assembled(i) ensures IsCarried(inp, m) <==> m.sym == t {
      PlacedIs(inp, s, m.sym);
    }
  }

  method FromAssembled(inp: Input) returns (r: Result<seq<Item>>)
    ensures r.Failed? <==> exists i: nat :: i < |inp.assembled.symbols| && Unplaceable(inp, i)
    ensures r.Ok? ==> forall m :: m in r.value <==> IsCarried(inp, m)
    ensures r.Ok? ==> forall a, b :: 0 <= a < b < |r.value| ==> r.value[a].ref.i < r.value[b].ref.i
  {
    var items: seq<Item> := [];
    for i := 0 to |inp.assembled.symbols|
      invariant forall j: nat :: j < i ==> !Unplaceable(inp, j)
      invariant forall m :: m in items <==> IsCarried(inp, m) && m.ref.i < i
      invariant forall a, b :: 0 <= a < b < |items| ==> items[a].ref.i < items[b].ref.i
    {
      if i < inp.assembled.locals && i !in inp.assembledRelocs {
        continue;
      }
      var s := inp.assembled.symbols[i];
      TempIs(s.name);
      if IsTemp(s.name) {
        if i in inp.assembledRelocs {
          assert Unplaceable(inp, i);
          return Failed;
        }
        continue;
      }
      var p := Placed(inp, s);
      if p.Failed? {
        PlacedIs(inp, s, s);
        assert Unplaceable(inp, i);
        return Failed;
      }
      CarriedIs(inp, i, p.value);
      items := items + [Item(Assembled(i), p.value)];
    }
    r := Ok(items);
  }

  /* ----- stable sorting by a small key ----- */

  function Select(items: seq<Item>, key: Item -> nat, k: nat): (r: seq<Item>)
    ensures forall m :: m in r <==> m in items && key(m) == k
    ensures items != [] && key(items[0]) == k ==> r != [] && r[0] == items[0]
  {
    if items == [] then []
    else
      var before, m := items[..|items| - 1], items[|items| - 1];
      assert items == before + [m];
      if key(m) == k then Select(before, key, k) + [m] else Select(before, key, k)
  }

  /** The items with keys below `n`, in key order, and otherwise in the order they had. */
  function Sorted(items: seq<Item>, key: Item -> nat, n: nat): (r: seq<Item>)
    ensures forall m :: m in r <==> m in items && key(m) < n
    ensures forall a, b :: 0 <= a < b < |r| ==> key(r[a]) <= key(r[b])
    ensures n > 0 && items != [] && key(items[0]) == 0 ==> r != [] && r[0] == items[0]
  {
    if n == 0 then []
    else
      var low, last := Sorted(items, key, n - 1), Select(items, key, n - 1);
      assert forall a :: 0 <= a < |low| ==> low[a] in low;
      assert forall a :: 0 <= a < |last| ==> last[a] in last;
      low + last
  }

  ghost predicate DistinctRefs(items: seq<Item>) {
    forall a, b :: 0 <= a < b < |items| ==> items[a].ref != items[b].ref
  }

  lemma {:induction false} SelectDistinct(items: seq<Item>, key: Item -> nat, k: nat)
    requires DistinctRefs(items)
    ensures DistinctRefs(Select(items, key, k))
  {
    if items != [] {
      var before, m := items[..|items| - 1], items[|items| - 1];
      SelectDistinct(before, key, k);
      forall a | 0 <= a < |Select(before, key, k)| ensures Select(before, key, k)[a].ref != m.ref {
        assert Select(before, key, k)[a] in before;
      }
    }
  }

  lemma RefsApart(items: seq<Item>, a: Item, b: Item)
    requires DistinctRefs(items) && a in items && b in items && a != b
    ensures a.ref != b.ref
  {
    var i :| 0 <= i < |items| && items[i] == a;
    var j :| 0 <= j < |items| && items[j] == b;
    if i > j {
      assert items[j].ref != items[i].ref;
    }
  }

  lemma {:induction false} SortedDistinct(items: seq<Item>, key: Item -> nat, n: nat)
    requires DistinctRefs(items)
    ensures DistinctRefs(Sorted(items, key, n))
  {
    if n > 0 {
      var low, last := Sorted(items, key, n - 1), Select(items, key, n - 1);
      SortedDistinct(items, key, n - 1);
      SelectDistinct(items, key, n - 1);
      forall a, b | 0 <= a < |low| && 0 <= b < |last| ensures low[a].ref != last[b].ref {
        assert low[a] in low && last[b] in last;
        RefsApart(items, low[a], last[b]);
      }
    }
  }

  /** Every item stands before the later ones in the sense of `r`. */
  ghost predicate Pairwise(items: seq<Item>, r: (Item, Item) -> bool) {
    forall a, b :: 0 <= a < b < |items| ==> r(items[a], items[b])
  }

  lemma {:induction false} SelectKeeps(items: seq<Item>, key: Item -> nat, k: nat, r: (Item, Item) -> bool)
    requires Pairwise(items, r)
    ensures Pairwise(Select(items, key, k), r)
  {
    if items != [] {
      var before, m := items[..|items| - 1], items[|items| - 1];
      SelectKeeps(before, key, k, r);
      forall a | 0 <= a < |Select(before, key, k)| ensures r(Select(before, key, k)[a], m) {
        assert Select(before, key, k)[a] in before;
      }
    }
  }

  /** Lower keys first, and items of one key in the order `r`. */
  ghost predicate Ranked(items: seq<Item>, key: Item -> nat, r: (Item, Item) -> bool) {
    forall a, b :: 0 <= a < b < |items| ==>
      key(items[a]) < key(items[b]) || (key(items[a]) == key(items[b]) && r(items[a], items[b]))
  }

  lemma RankedNone(key: Item -> nat, r: (Item, Item) -> bool)
    ensures Ranked([], key, r)
  {
  }

  lemma RankedJoin(low: seq<Item>, last: seq<Item>, key: Item -> nat, k: nat, r: (Item, Item) -> bool)
    requires Ranked(low, key, r) && Pairwise(last, r)
    requires (forall m :: m in low ==> key(m) < k) && (forall m :: m in last ==> key(m) == k)
    ensures Ranked(low + last, key, r)
  {
    var s := low + last;
    forall a, b | 0 <= a < b < |s| ensures key(s[a]) < key(s[b]) || (key(s[a]) == key(s[b]) && r(s[a], s[b])) {
      if a >= |low| {
        assert s[a] in last && s[b] in last && s[a] == last[a - |low|] && s[b] == last[b - |low|];
      } else if b >= |low| {
        assert s[a] == low[a] && s[a] in low && s[b] == last[b - |low|] && s[b] in last;
      } else {
        assert s[a] == low[a] && s[b] == low[b];
      }
    }
  }

  /** Sorting is stable: what is not told apart by its key keeps its order. */
  lemma {:induction false} SortedKeeps(items: seq<Item>, key: Item -> nat, n: nat, r: (Item, Item) -> bool)
    requires Pairwise(items, r)
    ensures Ranked(Sorted(items, key, n), key, r)
  {
    hide Pairwise, Select, Sorted, Ranked;
    if n == 0 {
      SortedNone(items, key);
      RankedNone(key, r);
    } else {
      SortedKeeps(items, key, n - 1, r);
      SelectKeeps(items, key, n - 1, r);
      SortedNext(items, key, n - 1, r);
    }
  }

  lemma SortedNone(items: seq<Item>, key: Item -> nat)
    ensures Sorted(items, key, 0) == []
  {
  }

  lemma SortedNext(items: seq<Item>, key: Item -> nat, k: nat, r: (Item, Item) -> bool)
    requires Ranked(Sorted(items, key, k), key, r) && Pairwise(Select(items, key, k), r)
    ensures Ranked(Sorted(items, key, k + 1), key, r)
  {
    hide Pairwise, Select, Ranked;
    RankedJoin(Sorted(items, key, k), Select(items, key, k), key, k, r);
  }

  /** Compiled symbols, then assembled ones, then statics, each in the order of their table. */
  predicate RefBefore(x: Ref, y: Ref) {
    match x
    case Compiled(i) => y.Compiled? ==> i < y.i
    case Assembled(i) => !y.Compiled? && (y.Assembled? ==> i < y.i)
    case Static(i) => y.Static? && i < y.i
  }

  predicate ItemBefore(x: Item, y: Item) { RefBefore(x.ref, y.ref) }

  /** Defined symbols first. */
  predicate DefinedBefore(x: Item, y: Item) {
    if (x.sym.shndx != 0) == (y.sym.shndx != 0) then ItemBefore(x, y) else x.sym.shndx != 0
  }

  /** Local symbols first, and in each half `_gp_disp` last. */
  predicate Precedes(x: Item, y: Item) {
    if (x.sym.bind == 0) != (y.sym.bind == 0) then x.sym.bind == 0
    else if (x.sym.name == "_gp_disp") != (y.sym.name == "_gp_disp") then y.sym.name == "_gp_disp"
    else DefinedBefore(x, y)
  }

  function UndefinedLast(m: Item): nat { if Defined(m.sym) then 0 else 1 }

  /** Local symbols in front, and in each half `_gp_disp` at the end. */
  function LocalsFirst(m: Item): nat {
    (if m.sym.bind != STB_LOCAL then 2 else 0) + (if m.sym.name == GP_DISP then 1 else 0)
  }

  /* ----- duplicates ----- */

  /** What is wrong with a list of candidates. */
  ghost predicate Clash(items: seq<Item>) {
    || (exists m :: m in items && m.sym.bind == STB_LOCAL && !Defined(m.sym))
    || (exists m :: m in items && m.sym.name == "" && m.sym.bind != STB_LOCAL)
    || (exists a, b :: 0 <= a < b < |items| && items[a].sym.name == items[b].sym.name != "" && Defined(items[b].sym))
  }

  /** The survivors, and for each symbol that was replaced the survivor of its name. */
  datatype Unique = Unique(items: seq<Item>, byName: map<string, Item>, replaced: map<Ref, Item>)

  ghost predicate Survivors(u: Unique, items: seq<Item>) {
    DistinctRefs(u.items) && forall m :: m in u.items ==> m in items && m.ref !in u.replaced
  }

  ghost predicate Indexed(u: Unique) {
    && (forall n :: n in u.byName ==> u.byName[n] in u.items && u.byName[n].sym.name == n != "")
    && (forall m :: m in u.items && m.sym.name != "" ==> m.sym.name in u.byName && u.byName[m.sym.name] == m)
  }

  /** A candidate that did not survive is undefined and has a survivor of its name. */
  ghost predicate Accounted(u: Unique, m: Item) {
    || m in u.items
    || (m.ref in u.replaced && m.sym.name in u.byName && u.replaced[m.ref] == u.byName[m.sym.name] && !Defined(m.sym))
  }

  /** `u` resolves the candidates `items`. */
  ghost predicate Resolves(u: Unique, items: seq<Item>) {
    && Survivors(u, items)
    && Indexed(u)
    && (forall m :: m in items ==> Accounted(u, m))
    && (forall r :: r in u.replaced ==> exists m :: m in items && m.ref == r)
  }

  ghost predicate Resolved(u: Unique, items: seq<Item>) {
    && DistinctRefs(items) && !Clash(items) && Resolves(u, items)
    && forall m :: m in items && m.sym.name != "" ==> m.sym.name in u.byName
  }

  /** Two items at these places define one name. */
  ghost predicate SameName(items: seq<Item>, a: int, b: int) {
    0 <= a < b < |items| && items[a].sym.name == items[b].sym.name != "" && Defined(items[b].sym)
  }

  ghost predicate HasSameName(items: seq<Item>) { exists a, b :: SameName(items, a, b) }

  ghost predicate HasUndefinedLocal(items: seq<Item>) {
    exists m :: m in items && m.sym.bind == STB_LOCAL && !Defined(m.sym)
  }

  ghost predicate HasNameless(items: seq<Item>) {
    exists m :: m in items && m.sym.name == "" && m.sym.bind != STB_LOCAL
  }

  lemma ClashIs(items: seq<Item>)
    ensures Clash(items) <==> HasUndefinedLocal(items) || HasNameless(items) || HasSameName(items)
  {
    hide Defined;
    if a, b :| 0 <= a < b < |items| && items[a].sym.name == items[b].sym.name != "" && Defined(items[b].sym) {
      assert SameName(items, a, b);
    }
  }

  lemma SameNameGrows(items: seq<Item>, m: Item)
    ensures HasSameName(items + [m]) <==>
      HasSameName(items) || (m.sym.name != "" && Defined(m.sym) && exists a :: a in items && a.sym.name == m.sym.name)
  {
    hide Defined;
    var more, n := items + [m], |items|;
    if a, b :| SameName(more, a, b) {
      assert more[a] in items;
      if b < n {
        assert SameName(items, a, b);
      }
    }
    if a, b :| SameName(items, a, b) {
      assert SameName(more, a, b);
    }
    if a :| a in items && a.sym.name == m.sym.name != "" && Defined(m.sym) {
      var k :| 0 <= k < n && items[k] == a;
      assert SameName(more, k, n);
    }
  }

  lemma ClashGrows(items: seq<Item>, m: Item)
    ensures Clash(items + [m]) <==>
      || Clash(items)
      || (m.sym.bind == STB_LOCAL && !Defined(m.sym))
      || (m.sym.name == "" && m.sym.bind != STB_LOCAL)
      || (m.sym.name != "" && Defined(m.sym) && exists a :: a in items && a.sym.name == m.sym.name)
  {
    hide Defined, Clash, HasSameName;
    ClashIs(items);
    ClashIs(items + [m]);
    SameNameGrows(items, m);
    assert m in items + [m];
  }

  lemma {:induction false} ClashStays(items: seq<Item>, i: nat)
    requires i <= |items| && Clash(items[..i])
    ensures Clash(items)
    decreases |items| - i
  {
    if i == |items| {
      assert items[..i] == items;
    } else {
      assert items[..i + 1] == items[..i] + [items[i]];
      ClashGrows(items[..i], items[i]);
      ClashStays(items, i + 1);
    }
  }

  lemma FreshRef(items: seq<Item>, m: Item, x: Item)
    requires DistinctRefs(items + [m]) && x in items
    ensures x.ref != m.ref
  {
    var k :| 0 <= k < |items| && items[k] == x;
    assert (items + [m])[k].ref != (items + [m])[|items|].ref;
  }

  lemma KeepSurvivors(u: Unique, items: seq<Item>, m: Item)
    requires Survivors(u, items) && DistinctRefs(items + [m])
    requires forall r :: r in u.replaced ==> exists x :: x in items && x.ref == r
    ensures Survivors(u.(items := u.items + [m]), items + [m])
  {
    forall x | x in items ensures x.ref != m.ref {
      FreshRef(items, m, x);
    }
    assert forall k :: 0 <= k < |u.items| ==> u.items[k] in items;
  }

  lemma KeepUnnamed(u: Unique, items: seq<Item>, m: Item)
    requires Resolved(u, items) && DistinctRefs(items + [m]) && !Clash(items + [m]) && m.sym.name == ""
    ensures Resolved(u.(items := u.items + [m]), items + [m])
  {
    hide Survivors, Clash, DistinctRefs;
    KeepSurvivors(u, items, m);
  }

  lemma SurvivorsSame(u: Unique, v: Unique, items: seq<Item>)
    requires Survivors(u, items) && v.items == u.items && v.replaced == u.replaced
    ensures Survivors(v, items)
  {
  }

  lemma KeepNamed(u: Unique, items: seq<Item>, m: Item)
    requires Resolved(u, items) && DistinctRefs(items + [m]) && !Clash(items + [m])
    requires m.sym.name != "" && m.sym.name !in u.byName
    ensures Resolved(u.(items := u.items + [m], byName := u.byName[m.sym.name := m]), items + [m])
  {
    hide Survivors, Clash, DistinctRefs;
    KeepSurvivors(u, items, m);
    SurvivorsSame(u.(items := u.items + [m]), u.(items := u.items + [m], byName := u.byName[m.sym.name := m]), items + [m]);
  }

  lemma ReplaceSurvives(u: Unique, items: seq<Item>, m: Item, kept: Item)
    requires Survivors(u, items) && DistinctRefs(items + [m])
    ensures Survivors(u.(replaced := u.replaced[m.ref := kept]), items + [m])
  {
    forall x | x in items ensures x.ref != m.ref {
      FreshRef(items, m, x);
    }
  }

  lemma ReplaceResolves(u: Unique, items: seq<Item>, m: Item)
    requires Resolved(u, items) && DistinctRefs(items + [m]) && !Clash(items + [m])
    requires m.sym.name in u.byName && !Defined(m.sym)
    ensures Resolved(u.(replaced := u.replaced[m.ref := u.byName[m.sym.name]]), items + [m])
  {
    hide Survivors, Clash, DistinctRefs, Defined;
    ReplaceSurvives(u, items, m, u.byName[m.sym.name]);
    forall x | x in items ensures x.ref != m.ref {
      FreshRef(items, m, x);
    }
  }

  lemma AppendOrdered(items: seq<Item>, i: nat, kept: seq<Item>)
    requires i < |items| && Pairwise(items, DefinedBefore) && Pairwise(kept, DefinedBefore)
    ensures (forall m :: m in kept ==> m in items[..i]) ==> Pairwise(kept + [items[i]], DefinedBefore)
  {
    if forall m :: m in kept ==> m in items[..i] {
      forall a | 0 <= a < |kept| ensures DefinedBefore(kept[a], items[i]) {
        assert kept[a] in kept;
      }
    }
  }

  method Deduplicate(items: seq<Item>) returns (r: Result<Unique>)
    requires DistinctRefs(items) && Pairwise(items, DefinedBefore)
    ensures r.Failed? <==> Clash(items)
    ensures r.Ok? ==> Resolved(r.value, items) && Pairwise(r.value.items, DefinedBefore)
  {
    var u := Unique([], map[], map[]);
    for i := 0 to |items|
      invariant Resolved(u, items[..i]) && Pairwise(u.items, DefinedBefore)
    {
      var m := items[i];
      ghost var before := items[..i];
      AppendOrdered(items, i, u.items);
      assert items[..i + 1] == before + [m];
      ClashGrows(before, m);
      if Clash(before + [m]) {
        ClashStays(items, i + 1);
      }
      assert DistinctRefs(before + [m]);
      hide Clash, DistinctRefs, Accounted;
      if m.sym.bind == STB_LOCAL && !Defined(m.sym) {
        return Failed;
      }
      if m.sym.name == "" {
        if m.sym.bind != STB_LOCAL {
          return Failed;
        }
        KeepUnnamed(u, before, m);
        u := u.(items := u.items + [m]);
      } else if m.sym.name !in u.byName {
        KeepNamed(u, before, m);
        u := u.(items := u.items + [m], byName := u.byName[m.sym.name := m]);
      } else if Defined(m.sym) {
        assert u.byName[m.sym.name] in before;
        return Failed;
      } else {
        ReplaceResolves(u, before, m);
        u := u.(replaced := u.replaced[m.ref := u.byName[m.sym.name]]);
      }
    }
    assert items[..|items|] == items;
    r := Ok(u);
  }

  /* ----- the whole merge ----- */

  const NULL_SYMBOL := Symbol(0, "", 0, SHN_UNDEF, STB_LOCAL)

  const NULL_ITEM := Item(Compiled(0), NULL_SYMBOL)

  datatype Output = Output(
    symbols: seq<Item>,
    locals: nat,
    strings: string,
    compiledRelocs: seq<nat>,
    assembledRelocs: seq<nat>)

  ghost predicate Valid(inp: Input) {
    && inp.compiled.symbols != [] && inp.compiled.symbols[0] == NULL_SYMBOL
    && (forall k :: 0 <= k < |inp.compiledRelocs| ==> inp.compiledRelocs[k] < |inp.compiled.symbols|)
    && (forall k :: 0 <= k < |inp.assembledRelocs| ==> inp.assembledRelocs[k] < |inp.assembled.symbols|)
    && (forall h :: h in inp.homes ==> inp.homes[h].section != SHN_UNDEF)
  }

  ghost predicate Candidate(inp: Input, m: Item) {
    match m.ref
    case Compiled(i) => 1 <= i < |inp.compiled.symbols| && m.sym == inp.compiled.symbols[i] && !Temporary(m.sym.name)
    case Assembled(i) => IsCarried(inp, m)
    case Static(i) => i < |inp.statics| && m.sym == inp.statics[i]
  }

  /** Everything the merge refuses. */
  ghost predicate Refused(inp: Input)
    requires Valid(inp)
  {
    || (exists i: nat :: i < |inp.assembled.symbols| && Unplaceable(inp, i))
    || BadCandidates(inp)
    || TempRelocated(inp)
  }

  /** The entry `e` that a relocation against `orig` now points to means what `orig` meant. */
  ghost predicate Means(inp: Input, ref: Ref, orig: Symbol, e: Item) {
    && e.sym.name == orig.name
    && (orig.name == "" || orig.shndx != 0 ==> e.ref == ref)
    && (orig.name != "" && (exists m :: Candidate(inp, m) && m.sym.name == orig.name && m.sym.shndx != 0) ==> e.sym.shndx != 0)
  }

  /** The form of the table itself. */
  ghost predicate WellFormedTable(inp: Input, symbols: seq<Item>, locals: nat) {
    && symbols != [] && symbols[0] == Item(Compiled(0), Symbol(0, "", 0, 0, 0)) && DistinctRefs(symbols)
    && (forall a :: 0 <= a < |symbols| ==> (symbols[a].sym.bind == 0 <==> a < locals))
    && (forall a, b :: 0 <= a < b < |symbols| && symbols[a].sym.name != "" ==> symbols[a].sym.name != symbols[b].sym.name)
    && (forall m :: m in symbols ==> m == NULL_ITEM || Candidate(inp, m))
    && (forall a, b :: 0 < a < b < |symbols| ==> Precedes(symbols[a], symbols[b]))
  }

  ghost predicate WellMerged(inp: Input, out: Output)
    requires Valid(inp)
  {
    && WellFormedTable(inp, out.symbols, out.locals)
    && KeepsMeaning(inp, out.symbols, false, inp.compiledRelocs, out.compiledRelocs)
    && KeepsMeaning(inp, out.symbols, true, inp.assembledRelocs, out.assembledRelocs)
  }

  function Candidates(inp: Input, carried: seq<Item>): seq<Item>
    requires inp.compiled.symbols != []
  {
    FromCompiled(inp.compiled, |inp.compiled.symbols|) + carried + FromStatics(inp.statics, |inp.statics|)
  }

  ghost predicate CarriedExactly(inp: Input, carried: seq<Item>) {
    && DistinctRefs(carried) && (forall m :: m in carried <==> IsCarried(inp, m))
    && forall a, b :: 0 <= a < b < |carried| ==> carried[a].ref.i < carried[b].ref.i
  }

  lemma CandidatesAreAll(inp: Input, carried: seq<Item>)
    requires Valid(inp) && CarriedExactly(inp, carried)
    ensures DistinctRefs(Candidates(inp, carried))
    ensures forall m :: m in Candidates(inp, carried) <==> Candidate(inp, m)
  {
    var c, s := FromCompiled(inp.compiled, |inp.compiled.symbols|), FromStatics(inp.statics, |inp.statics|);
    forall m ensures m in Candidates(inp, carried) <==> Candidate(inp, m) {
      assert m in Candidates(inp, carried) <==> m in c || m in carried || m in s;
      if m.ref.Static? && m.ref.i < |inp.statics| {
        assert s[m.ref.i].ref == m.ref;
      }
    }
    assert forall k :: 0 <= k < |c| ==> c[k] in c;
    assert forall k :: 0 <= k < |carried| ==> carried[k] in carried;
  }

  lemma CandidatesOrdered(inp: Input, carried: seq<Item>)
    requires inp.compiled.symbols != [] && (forall m :: m in carried ==> m.ref.Assembled?)
    requires forall a, b :: 0 <= a < b < |carried| ==> carried[a].ref.i < carried[b].ref.i
    ensures Pairwise(Candidates(inp, carried), ItemBefore)
  {
    var c, s := FromCompiled(inp.compiled, |inp.compiled.symbols|), FromStatics(inp.statics, |inp.statics|);
    assert forall k :: 0 <= k < |c| ==> c[k] in c && c[k].ref.Compiled?;
    assert forall k :: 0 <= k < |carried| ==> carried[k] in carried && carried[k].ref.Assembled?;
    hide FromCompiled, FromStatics;
    ThreeOrdered(c, carried, s);
  }

  lemma ThreeOrdered(c: seq<Item>, a: seq<Item>, s: seq<Item>)
    requires (forall k :: 0 <= k < |c| ==> c[k].ref.Compiled?) && (forall k :: 0 <= k < |a| ==> a[k].ref.Assembled?)
    requires (forall k :: 0 <= k < |s| ==> s[k].ref == Static(k))
    requires forall j, k :: 0 <= j < k < |c| ==> c[j].ref.i < c[k].ref.i
    requires forall j, k :: 0 <= j < k < |a| ==> a[j].ref.i < a[k].ref.i
    ensures Pairwise(c + a + s, ItemBefore)
  {
  }

  lemma CandidatesSorted(cands: seq<Item>)
    requires Pairwise(cands, ItemBefore)
    ensures Pairwise(Sorted(cands, UndefinedLast, 2), DefinedBefore)
  {
    SortedKeeps(cands, UndefinedLast, 2, ItemBefore);
  }

  ghost predicate Improper(items: seq<Item>) {
    || (exists m :: m in items && m.sym.bind == STB_LOCAL && !Defined(m.sym))
    || (exists m :: m in items && m.sym.name == "" && m.sym.bind != STB_LOCAL)
  }

  ghost predicate TwoDefinitions(items: seq<Item>) {
    exists a, b :: a in items && b in items && a != b && a.sym.name == b.sym.name != "" && Defined(a.sym) && Defined(b.sym)
  }

  lemma TwiceClashes(sorted: seq<Item>, a: Item, b: Item)
    requires a in sorted && b in sorted && a != b && a.sym.name == b.sym.name != "" && Defined(a.sym) && Defined(b.sym)
    ensures Clash(sorted)
  {
    var i :| 0 <= i < |sorted| && sorted[i] == a;
    var j :| 0 <= j < |sorted| && sorted[j] == b;
    if i < j {
      assert sorted[i].sym.name == sorted[j].sym.name;
    } else {
      assert sorted[j].sym.name == sorted[i].sym.name;
    }
  }

  /** A later candidate of the same name that is defined follows one that is defined too. */
  lemma ClashIsTwice(sorted: seq<Item>, i: nat, j: nat)
    requires DistinctRefs(sorted) && i < j < |sorted| && sorted[i].sym.name == sorted[j].sym.name != "" && Defined(sorted[j].sym)
    requires UndefinedLast(sorted[i]) <= UndefinedLast(sorted[j])
    ensures TwoDefinitions(sorted)
  {
    assert sorted[i] in sorted && sorted[j] in sorted && sorted[i].ref != sorted[j].ref;
  }

  lemma ClashOrdered(sorted: seq<Item>)
    requires DistinctRefs(sorted)
    requires forall a, b :: 0 <= a < b < |sorted| ==> UndefinedLast(sorted[a]) <= UndefinedLast(sorted[b])
    ensures Clash(sorted) <==> Improper(sorted) || TwoDefinitions(sorted)
  {
    if a, b :| a in sorted && b in sorted && a != b && a.sym.name == b.sym.name != "" && Defined(a.sym) && Defined(b.sym) {
      TwiceClashes(sorted, a, b);
    }
    if i, j :| 0 <= i < j < |sorted| && sorted[i].sym.name == sorted[j].sym.name != "" && Defined(sorted[j].sym) {
      ClashIsTwice(sorted, i, j);
    }
  }

  /** Sorted by definedness, candidates clash exactly when two different ones define the same name, or one is improper. */
  lemma ClashSorted(items: seq<Item>)
    requires DistinctRefs(items)
    ensures Clash(Sorted(items, UndefinedLast, 2)) <==> Improper(items) || TwoDefinitions(items)
  {
    hide Sorted, Clash, DistinctRefs;
    var sorted := Sorted(items, UndefinedLast, 2);
    SortedDistinct(items, UndefinedLast, 2);
    ClashOrdered(sorted);
    assert forall m :: m in sorted <==> m in items;
    assert Improper(sorted) <==> Improper(items);
    assert TwoDefinitions(sorted) <==> TwoDefinitions(items);
  }

  function CountLocals(items: seq<Item>): (n: nat)
    ensures n <= |items|
  {
    if items == [] then 0
    else CountLocals(items[..|items| - 1]) + if items[|items| - 1].sym.bind == STB_LOCAL then 1 else 0
  }

  lemma {:induction false} LocalsAreFirst(items: seq<Item>)
    requires forall a, b :: 0 <= a < b < |items| && items[b].sym.bind == STB_LOCAL ==> items[a].sym.bind == STB_LOCAL
    ensures forall a :: 0 <= a < |items| ==> (items[a].sym.bind == STB_LOCAL <==> a < CountLocals(items))
  {
    if items != [] {
      LocalsAreFirst(items[..|items| - 1]);
    }
  }

  /** Every replaced symbol has its survivor in the table, and is not there itself. */
  ghost predicate Apart(symbols: seq<Item>, replaced: map<Ref, Item>) {
    forall r :: r in replaced ==> replaced[r] in symbols && forall m :: m in symbols ==> m.ref != r
  }

  ghost predicate NumbersOf(symbols: seq<Item>, replaced: map<Ref, Item>, index: map<Ref, nat>) {
    && (forall r :: r in index <==> r in replaced || exists m :: m in symbols && m.ref == r)
    && (forall r :: r in index ==>
          index[r] < |symbols| && if r in replaced then symbols[index[r]] == replaced[r] else symbols[index[r]].ref == r)
  }

  /** Numbers the entries of the new table, and gives each replaced symbol its survivor's number. */
  method Number(symbols: seq<Item>, replaced: map<Ref, Item>) returns (index: map<Ref, nat>)
    requires DistinctRefs(symbols) && Apart(symbols, replaced)
    ensures NumbersOf(symbols, replaced, index)
  {
    var own := NumberOwn(symbols);
    assert forall r :: r in own ==> symbols[own[r]] in symbols;
    index := own + map r | r in replaced :: own[replaced[r].ref];
  }

  method NumberOwn(symbols: seq<Item>) returns (own: map<Ref, nat>)
    requires DistinctRefs(symbols)
    ensures forall r :: r in own ==> own[r] < |symbols| && symbols[own[r]].ref == r
    ensures forall m :: m in symbols ==> m.ref in own && symbols[own[m.ref]] == m
  {
    own := map[];
    for i := 0 to |symbols|
      invariant forall r :: r in own ==> own[r] < i && symbols[own[r]].ref == r
      invariant forall j :: 0 <= j < i ==> symbols[j].ref in own && own[symbols[j].ref] == j
    {
      own := own[symbols[i].ref := i];
    }
  }

  method Reindex(relocs: seq<nat>, assembled: bool, index: map<Ref, nat>) returns (r: Result<seq<nat>>)
    ensures r.Failed? <==> exists k :: k in relocs && (if assembled then Assembled(k) else Compiled(k)) !in index
    ensures r.Ok? ==> |r.value| == |relocs|
    ensures r.Ok? ==> forall i :: 0 <= i < |relocs| ==>
      var ref := if assembled then Assembled(relocs[i]) else Compiled(relocs[i]);
      ref in index && r.value[i] == index[ref]
  {
    var out: seq<nat> := [];
    for i := 0 to |relocs|
      invariant |out| == i
      invariant forall j :: 0 <= j < i ==>
        var ref := if assembled then Assembled(relocs[j]) else Compiled(relocs[j]);
        ref in index && out[j] == index[ref]
    {
      var ref := if assembled then Assembled(relocs[i]) else Compiled(relocs[i]);
      if ref !in index {
        assert relocs[i] in relocs;
        return Failed;
      }
      out := out + [index[ref]];
    }
    r := Ok(out);
  }

  /** The new table: the null symbol and the survivors, locals first. */
  function NewTable(u: Unique): seq<Item> { Sorted([NULL_ITEM] + u.items, LocalsFirst, 4) }

  /** `u` resolves exactly the candidates of `inp`. */
  ghost predicate ResolvesAll(inp: Input, u: Unique) {
    && Indexed(u)
    && DistinctRefs(u.items)
    && (forall m :: m in u.items ==> Candidate(inp, m) && m.ref !in u.replaced)
    && (forall m :: Candidate(inp, m) ==> Accounted(u, m))
    && (forall r :: r in u.replaced ==> exists m :: Candidate(inp, m) && m.ref == r)
    && (forall m :: m in u.items && m.sym.name == "" ==> m.sym.bind == STB_LOCAL)
    && Pairwise(u.items, DefinedBefore)
  }

  lemma ResolvedIsAll(inp: Input, cands: seq<Item>, u: Unique)
    requires DistinctRefs(cands) && (forall m :: m in cands <==> Candidate(inp, m))
    requires Resolved(u, Sorted(cands, UndefinedLast, 2)) && Pairwise(u.items, DefinedBefore)
    ensures ResolvesAll(inp, u)
  {
    var sorted := Sorted(cands, UndefinedLast, 2);
    assert forall m :: m in sorted <==> Candidate(inp, m);
  }

  lemma NullFirst(items: seq<Item>)
    requires DistinctRefs(items) && (forall m :: m in items ==> m.ref != NULL_ITEM.ref)
    ensures DistinctRefs([NULL_ITEM] + items)
    ensures forall m :: m in [NULL_ITEM] + items <==> m == NULL_ITEM || m in items
  {
    var all := [NULL_ITEM] + items;
    forall a, b | 0 <= a < b < |all| ensures all[a].ref != all[b].ref {
      assert all[b] == items[b - 1] && items[b - 1] in items;
      if a > 0 {
        assert all[a] == items[a - 1];
      }
    }
  }

  lemma TableLocals(items: seq<Item>)
    ensures var t := Sorted(items, LocalsFirst, 4);
      forall a :: 0 <= a < |t| ==> (t[a].sym.bind == STB_LOCAL <==> a < CountLocals(t))
  {
    LocalsAreFirst(Sorted(items, LocalsFirst, 4));
  }

  lemma TableMembers(items: seq<Item>)
    requires items != [] && items[0] == NULL_ITEM
    ensures var t := Sorted(items, LocalsFirst, 4);
      && t != [] && t[0] == NULL_ITEM
      && forall m :: m in t <==> m in items
  {
    assert LocalsFirst(NULL_ITEM) == 0;
    assert forall m: Item :: LocalsFirst(m) < 4;
    hide LocalsFirst;
  }

  /** The new table starts with the null symbol, holds each survivor once, and has its local entries in front. */
  lemma TableShape(inp: Input, u: Unique)
    requires ResolvesAll(inp, u)
    ensures NewTable(u) != [] && NewTable(u)[0] == NULL_ITEM && DistinctRefs(NewTable(u))
    ensures forall m :: m in NewTable(u) <==> m == NULL_ITEM || m in u.items
    ensures forall a :: 0 <= a < |NewTable(u)| ==> (NewTable(u)[a].sym.bind == STB_LOCAL <==> a < CountLocals(NewTable(u)))
  {
    var all := [NULL_ITEM] + u.items;
    assert all[0] == NULL_ITEM;
    NullFirst(u.items);
    TableMembers(all);
    SortedDistinct(all, LocalsFirst, 4);
    TableLocals(all);
    hide Indexed, Accounted, DistinctRefs, CountLocals, Sorted, ResolvesAll;
  }

  lemma TableNames(inp: Input, u: Unique, a: nat, b: nat)
    requires ResolvesAll(inp, u) && a < b < |NewTable(u)| && NewTable(u)[a].sym.name != ""
    ensures NewTable(u)[a].sym.name != NewTable(u)[b].sym.name
  {
    var t := NewTable(u);
    TableShape(inp, u);
    assert t[a] in t && t[b] in t && t[a].ref != t[b].ref;
  }

  lemma TableOrder(items: seq<Item>, a: nat, b: nat)
    requires Pairwise(items, DefinedBefore)
    ensures var t := Sorted([NULL_ITEM] + items, LocalsFirst, 4);
      (forall x :: x in items ==> x != NULL_ITEM) && DistinctRefs(t) && |t| > 0 && t[0] == NULL_ITEM && 0 < a < b < |t| ==>
        Precedes(t[a], t[b])
  {
    var all := [NULL_ITEM] + items;
    var t := Sorted(all, LocalsFirst, 4);
    assert Pairwise(all, NullBefore);
    SortedKeeps(all, LocalsFirst, 4, NullBefore);
    if DistinctRefs(t) && |t| > 0 && t[0] == NULL_ITEM && 0 < a < b < |t| {
      assert t[a].ref != t[0].ref;
      KeysPrecede(t[a], t[b]);
    }
  }

  predicate NullBefore(x: Item, y: Item) { x == NULL_ITEM || DefinedBefore(x, y) }

  lemma KeysPrecede(x: Item, y: Item)
    requires LocalsFirst(x) < LocalsFirst(y) || (LocalsFirst(x) == LocalsFirst(y) && DefinedBefore(x, y))
    ensures Precedes(x, y)
  {
    hide DefinedBefore;
  }

  lemma TableIsWellFormed(inp: Input, u: Unique)
    requires ResolvesAll(inp, u)
    ensures WellFormedTable(inp, NewTable(u), CountLocals(NewTable(u)))
    ensures Apart(NewTable(u), u.replaced)
  {
    hide NewTable, CountLocals, DistinctRefs, LocalsFirst, Temporary;
    TableShape(inp, u);
    forall a: nat, b: nat | a < b < |NewTable(u)| && NewTable(u)[a].sym.name != ""
      ensures NewTable(u)[a].sym.name != NewTable(u)[b].sym.name
    {
      TableNames(inp, u, a, b);
    }
    forall a: nat, b: nat | 0 < a < b < |NewTable(u)| ensures Precedes(NewTable(u)[a], NewTable(u)[b]) {
      TablePrecedes(inp, u, a, b);
    }
  }

  lemma TablePrecedes(inp: Input, u: Unique, a: nat, b: nat)
    requires ResolvesAll(inp, u) && 0 < a < b < |NewTable(u)|
    ensures Precedes(NewTable(u)[a], NewTable(u)[b])
  {
    hide Precedes, DistinctRefs, CountLocals, Sorted, LocalsFirst, Pairwise;
    TableShape(inp, u);
    TableOrder(u.items, a, b);
  }

  /** A number for a candidate's reference leads to an entry that means what the candidate meant. */
  lemma CandidateMeans(inp: Input, u: Unique, m: Item, e: Item)
    requires ResolvesAll(inp, u) && Candidate(inp, m)
    requires if m.ref in u.replaced then e == u.replaced[m.ref] else e in NewTable(u) && e.ref == m.ref
    ensures Means(inp, m.ref, m.sym, e)
  {
    TableShape(inp, u);
    assert Accounted(u, m);
    if m in u.items {
      RefsApartOrSame(NewTable(u), m, e);
    }
    if d :| Candidate(inp, d) && d.sym.name == m.sym.name != "" && Defined(d.sym) {
      assert Accounted(u, d);
    }
  }

  lemma RefsApartOrSame(items: seq<Item>, a: Item, b: Item)
    requires DistinctRefs(items) && a in items && b in items && a.ref == b.ref
    ensures a == b
  {
    if a != b {
      RefsApart(items, a, b);
    }
  }

  ghost predicate Numbers(u: Unique, index: map<Ref, nat>) { NumbersOf(NewTable(u), u.replaced, index) }

  lemma NullMeans(inp: Input, u: Unique, index: map<Ref, nat>)
    requires Valid(inp) && ResolvesAll(inp, u) && Numbers(u, index)
    ensures Compiled(0) in index && Means(inp, Compiled(0), inp.compiled.symbols[0], NewTable(u)[index[Compiled(0)]])
  {
    hide NewTable, Temporary, Indexed, Accounted, CountLocals;
    var t := NewTable(u);
    TableShape(inp, u);
    assert t[0] in t && t[0] == NULL_ITEM;
    assert Compiled(0) in index && Compiled(0) !in u.replaced;
    RefsApartOrSame(t, t[index[Compiled(0)]], NULL_ITEM);
  }

  lemma TempUnnumbered(inp: Input, u: Unique, index: map<Ref, nat>, k: nat)
    requires Valid(inp) && ResolvesAll(inp, u) && Numbers(u, index) && 1 <= k < |inp.compiled.symbols|
    requires Temporary(inp.compiled.symbols[k].name)
    ensures Compiled(k) !in index
  {
    hide NewTable, Temporary, CountLocals, Indexed, Accounted;
    TableShape(inp, u);
  }

  lemma CompiledMeans(inp: Input, u: Unique, index: map<Ref, nat>, k: nat)
    requires Valid(inp) && ResolvesAll(inp, u) && Numbers(u, index) && 1 <= k < |inp.compiled.symbols|
    requires !Temporary(inp.compiled.symbols[k].name)
    ensures Numbered(inp, u, index, Compiled(k), inp.compiled.symbols[k])
  {
    hide NewTable, Temporary, CountLocals, Means, Indexed;
    var t, m := NewTable(u), Item(Compiled(k), inp.compiled.symbols[k]);
    TableShape(inp, u);
    assert Candidate(inp, m) && Accounted(u, m);
    assert Compiled(k) in index;
    CandidateMeans(inp, u, m, t[index[Compiled(k)]]);
  }

  lemma AssembledMeans(inp: Input, u: Unique, index: map<Ref, nat>, k: nat)
    requires Valid(inp) && ResolvesAll(inp, u) && Numbers(u, index)
    requires k in inp.assembledRelocs && k < |inp.assembled.symbols| && !Unplaceable(inp, k)
    ensures Numbered(inp, u, index, Assembled(k), inp.assembled.symbols[k])
  {
    hide NewTable, Temporary, CountLocals, Indexed;
    var t, m := NewTable(u), Item(Assembled(k), Placed(inp, inp.assembled.symbols[k]).value);
    TableShape(inp, u);
    assert Candidate(inp, m) && Accounted(u, m);
    assert Assembled(k) in index;
    CandidateMeans(inp, u, m, t[index[Assembled(k)]]);
  }

  /** The candidates' own grounds for refusal. */
  ghost predicate BadCandidates(inp: Input) {
    || (exists m :: Candidate(inp, m) && m.sym.bind == 0 && m.sym.shndx == 0)
    || (exists m :: Candidate(inp, m) && m.sym.name == "" && m.sym.bind != 0)
    || (exists a, b ::
          && Candidate(inp, a) && Candidate(inp, b) && a != b && a.sym.name == b.sym.name != ""
          && a.sym.shndx != 0 && b.sym.shndx != 0)
  }

  method Resolve(inp: Input, carried: seq<Item>) returns (r: Result<Unique>)
    requires Valid(inp) && CarriedExactly(inp, carried)
    ensures r.Failed? <==> BadCandidates(inp)
    ensures r.Ok? ==> ResolvesAll(inp, r.value)
  {
    hide Resolved, ResolvesAll, Candidate, DistinctRefs, Sorted, Clash, Candidates;
    var cands := Candidates(inp, carried);
    CandidatesAreAll(inp, carried);
    SortedDistinct(cands, UndefinedLast, 2);
    ClashSorted(cands);
    CandidatesOrdered(inp, carried);
    CandidatesSorted(cands);
    r := Deduplicate(Sorted(cands, UndefinedLast, 2));
    if r.Ok? {
      ResolvedIsAll(inp, cands, r.value);
    }
  }

  ghost predicate KeepsMeaning(inp: Input, symbols: seq<Item>, assembled: bool, was: seq<nat>, now: seq<nat>) {
    && |now| == |was|
    && var table := if assembled then inp.assembled.symbols else inp.compiled.symbols;
       forall k :: 0 <= k < |was| ==>
         && was[k] < |table| && now[k] < |symbols|
         && Means(inp, if assembled then Assembled(was[k]) else Compiled(was[k]), table[was[k]], symbols[now[k]])
  }

  /** Symbol `k` of a table has a number, and the number leads to an entry with its meaning. */
  ghost predicate Numbered(inp: Input, u: Unique, index: map<Ref, nat>, ref: Ref, orig: Symbol) {
    ref in index && index[ref] < |NewTable(u)| && Means(inp, ref, orig, NewTable(u)[index[ref]])
  }

  lemma CompiledNumbered(inp: Input, u: Unique, index: map<Ref, nat>, k: nat)
    requires Valid(inp) && ResolvesAll(inp, u) && Numbers(u, index) && k < |inp.compiled.symbols|
    ensures if Temporary(inp.compiled.symbols[k].name) then Compiled(k) !in index
            else Numbered(inp, u, index, Compiled(k), inp.compiled.symbols[k])
  {
    hide NewTable, Means, ResolvesAll;
    if k == 0 {
      NullMeans(inp, u, index);
    } else if Temporary(inp.compiled.symbols[k].name) {
      TempUnnumbered(inp, u, index, k);
    } else {
      CompiledMeans(inp, u, index, k);
    }
  }

  method ReindexCompiled(inp: Input, u: Unique, index: map<Ref, nat>) returns (r: Result<seq<nat>>)
    requires Valid(inp) && ResolvesAll(inp, u) && Numbers(u, index)
    ensures r.Failed? <==> TempRelocated(inp)
    ensures r.Ok? ==> KeepsMeaning(inp, NewTable(u), false, inp.compiledRelocs, r.value)
  {
    hide Means, Temporary, NewTable, ResolvesAll, Numbers;
    forall k: nat | k < |inp.compiled.symbols|
      ensures if Temporary(inp.compiled.symbols[k].name) then Compiled(k) !in index
              else Numbered(inp, u, index, Compiled(k), inp.compiled.symbols[k])
    {
      CompiledNumbered(inp, u, index, k);
    }
    r := Reindex(inp.compiledRelocs, false, index);
  }

  method ReindexAssembled(inp: Input, u: Unique, index: map<Ref, nat>) returns (r: Result<seq<nat>>)
    requires Valid(inp) && ResolvesAll(inp, u) && Numbers(u, index)
    requires forall i: nat :: i < |inp.assembled.symbols| ==> !Unplaceable(inp, i)
    ensures r.Ok? && KeepsMeaning(inp, NewTable(u), true, inp.assembledRelocs, r.value)
  {
    hide Means, Unplaceable, NewTable, ResolvesAll, Numbers;
    forall k | 0 <= k < |inp.assembledRelocs|
      ensures var i := inp.assembledRelocs[k]; Numbered(inp, u, index, Assembled(i), inp.assembled.symbols[i])
    {
      AssembledMeans(inp, u, index, inp.assembledRelocs[k]);
    }
    r := Reindex(inp.assembledRelocs, true, index);
  }

  ghost predicate TempRelocated(inp: Input)
    requires Valid(inp)
  {
    exists k :: 0 <= k < |inp.compiledRelocs| && Temporary(inp.compiled.symbols[inp.compiledRelocs[k]].name)
  }

  method NumberTable(inp: Input, u: Unique) returns (index: map<Ref, nat>)
    requires ResolvesAll(inp, u)
    ensures Numbers(u, index)
  {
    hide ResolvesAll, NewTable, Candidate, CountLocals, Apart, NumbersOf;
    TableIsWellFormed(inp, u);
    index := Number(NewTable(u), u.replaced);
  }

  method Renumber(inp: Input, u: Unique) returns (r: Result<Output>)
    requires Valid(inp) && ResolvesAll(inp, u)
    requires forall i: nat :: i < |inp.assembled.symbols| ==> !Unplaceable(inp, i)
    ensures r.Failed? <==> TempRelocated(inp)
    ensures r.Ok? ==> WellMerged(inp, r.value)
    ensures r.Ok? ==> r.value.strings == inp.compiled.strings + inp.assembled.strings + inp.staticStrings
  {
    hide Temporary, NewTable, ResolvesAll, CountLocals, Unplaceable, KeepsMeaning, Numbers, WellFormedTable, TempRelocated;
    TableIsWellFormed(inp, u);
    var symbols := NewTable(u);
    var index := NumberTable(inp, u);
    var compiledRelocs := ReindexCompiled(inp, u, index);
    if compiledRelocs.Failed? {
      return Failed;
    }
    var assembledRelocs := ReindexAssembled(inp, u, index);
    r := Ok(Output(symbols, CountLocals(symbols), inp.compiled.strings + inp.assembled.strings + inp.staticStrings,
                   compiledRelocs.value, assembledRelocs.value));
  }

  /** Merges the tables, or fails, exactly as `Refused` says. */
  method MergeSymbols(inp: Input) returns (r: Result<Output>)
    requires Valid(inp)
    ensures r.Failed? <==> Refused(inp)
    ensures r.Ok? ==> WellMerged(inp, r.value)
    ensures r.Ok? ==> r.value.strings == inp.compiled.strings + inp.assembled.strings + inp.staticStrings
  {
    var carried := FromAssembled(inp);
    hide WellMerged, BadCandidates, TempRelocated, Unplaceable, IsCarried, ResolvesAll;
    if carried.Failed? {
      return Failed;
    }
    var unique := Resolve(inp, carried.value);
    if unique.Failed? {
      return Failed;
    }
    r := Renumber(inp, unique.value);
  }

  /* ----- names in the string table ----- */

  /** Looking up offset `i` gives `name`: it stands there, up to the first NUL. */
  predicate NameIs(strings: string, i: nat, name: string) {
    i + |name| < |strings| && strings[i..i + |name|] == name && strings[i + |name|] == '\0' && '\0' !in name
  }

  ghost predicate Named(t: Table) {
    forall s :: s in t.symbols ==> NameIs(t.strings, s.stName, s.name)
  }

  lemma NameShifts(before: string, strings: string, after: string, i: nat, name: string)
    requires NameIs(strings, i, name)
    ensures NameIs(before + strings + after, |before| + i, name)
  {
    var all := before + strings + after;
    var b, n := |before|, |name|;
    assert all[b..b + |strings|] == strings;
    assert all[b + i..b + i + n] == all[b..b + |strings|][i..i + n];
    assert all[b + i + n] == all[b..b + |strings|][i + n];
  }

  /** The names of the statics as they are appended: each behind a prefix, which is empty or names the file, and with a NUL. */
  function StaticText(statics: seq<Symbol>, prefix: string): string {
    if statics == [] then ""
    else StaticText(statics[..|statics| - 1], prefix) + (prefix + statics[|statics| - 1].name + ['\0'])
  }

  /** Each static was given the place of its name behind the strings of both objects. */
  ghost predicate StaticsLaid(inp: Input, prefix: string) {
    var before := |inp.compiled.strings| + |inp.assembled.strings|;
    && inp.staticStrings == StaticText(inp.statics, prefix) && '\0' !in prefix
    && forall i :: 0 <= i < |inp.statics| ==>
         '\0' !in inp.statics[i].name && inp.statics[i].stName == before + |StaticText(inp.statics[..i], prefix)|
  }

  lemma NameEnds(before: string, name: string, after: string)
    requires '\0' !in name
    ensures NameIs(before + (name + ['\0']) + after, |before|, name)
  {
    var all, b, n := before + (name + ['\0']) + after, |before|, |name|;
    assert all[b..b + n] == name;
  }

  lemma {:induction false} StaticNamed(statics: seq<Symbol>, prefix: string, i: nat)
    requires i < |statics| && '\0' !in prefix && '\0' !in statics[i].name
    ensures NameIs(StaticText(statics, prefix), |StaticText(statics[..i], prefix)|, prefix + statics[i].name)
    decreases |statics|
  {
    hide NameIs;
    var last := |statics| - 1;
    var before, tail := StaticText(statics[..last], prefix), prefix + statics[last].name + ['\0'];
    if i == last {
      NameEnds(before, prefix + statics[i].name, "");
      assert before + tail + "" == before + tail;
    } else {
      assert statics[..last][..i] == statics[..i];
      StaticNamed(statics[..last], prefix, i);
      NameShifts("", before, tail, |StaticText(statics[..i], prefix)|, prefix + statics[i].name);
      assert "" + before + tail == before + tail;
    }
  }

  /** What the merged strings say of an entry: a static is written with its prefix, whatever name it is matched by. */
  function Shown(m: Item, prefix: string): string {
    if m.ref.Static? then prefix + m.sym.name else m.sym.name
  }

  /** Every entry of the merged table names itself in the merged strings. */
  lemma NamesSurvive(inp: Input, out: Output, m: Item, prefix: string)
    requires Valid(inp) && WellFormedTable(inp, out.symbols, out.locals) && m in out.symbols
    requires out.strings == inp.compiled.strings + inp.assembled.strings + inp.staticStrings
    requires Named(inp.compiled) && Named(inp.assembled) && StaticsLaid(inp, prefix)
    ensures NameIs(out.strings, m.sym.stName, Shown(m, prefix))
  {
    hide NameIs, DistinctRefs, Temporary, StaticText;
    var c, a, t := inp.compiled.strings, inp.assembled.strings, inp.staticStrings;
    assert out.strings == "" + c + (a + t) && out.strings == c + a + t && out.strings == (c + a) + t + "";
    match m.ref {
      case Compiled(i) =>
        assert m.sym == inp.compiled.symbols[i];
        NameShifts("", c, a + t, m.sym.stName, m.sym.name);
      case Assembled(i) =>
        var s := inp.assembled.symbols[i];
        NameShifts(c, a, t, s.stName, s.name);
      case Static(i) =>
        assert m.sym == inp.statics[i];
        StaticNamed(inp.statics, prefix, i);
        NameShifts(c + a, t, "", |StaticText(inp.statics[..i], prefix)|, prefix + m.sym.name);
    }
  }
}
