/** Building an archive image: members are appended, and the symbol map is patched as their places become known. */
module ArchiveBuild {
  import opened Bytes
  import opened ArchiveText
  import opened Archive

  datatype Plan = Plan(ms: seq<Member>, symbols: seq<seq<Text>>, now: nat) {
    predicate Valid() { |symbols| == |ms| }

    function AllOwners(): (o: seq<nat>)
      requires Valid()
      ensures forall e :: 0 <= e < |o| ==> o[e] < |ms|
      ensures forall e, f :: 0 <= e < f < |o| ==> o[e] <= o[f]
    {
      Owners(symbols, |symbols|)
    }

    function SymbolNames(): Text
      requires Valid()
    {
      AllNames(symbols, |symbols|)
    }

    predicate Countable()
      requires Valid()
    {
      |AllOwners()| < 0x1_0000_0000
    }

    /** The symbol map before any place is known. */
    function Blank(): Text
      requires Valid() && Countable()
    {
      ArmapData(seq(|AllOwners()|, _ => 0), SymbolNames())
    }

    /** Where member `k` starts. */
    function Position(k: nat): nat
      requires Valid() && Countable() && k <= |ms|
    {
      |Built(ms, now, Blank(), k)|
    }

    /** The number of symbols and the places of their members fit 32 bits. */
    predicate Encodable()
      requires Valid()
    {
      Countable() && forall e :: 0 <= e < |AllOwners()| ==> Position(AllOwners()[e]) < 0x1_0000_0000
    }

    function Offsets(): (o: seq<Word>)
      requires Valid() && Encodable()
      ensures |o| == |AllOwners()|
    {
      seq(|AllOwners()|, e requires 0 <= e < |AllOwners()| => Position(AllOwners()[e]))
    }

    function Armap(): Text
      requires Valid() && Encodable()
    {
      ArmapData(Offsets(), SymbolNames())
    }

    function Image(): Text
      requires Valid() && Encodable()
    {
      Built(ms, now, Armap(), |ms|)
    }
  }

  /** Places are known for the first `e` symbols, which belong to members before `i`. */
  ghost predicate Placed(p: Plan, offsets: seq<Word>, e: nat)
    requires p.Valid() && p.Countable()
  {
    && e <= |offsets| == |p.AllOwners()|
    && forall f :: 0 <= f < |offsets| ==> offsets[f] as int == if f < e then p.Position(p.AllOwners()[f]) else 0
  }

  lemma ArmapSize(a: seq<Word>, b: seq<Word>, names: Text)
    requires |a| == |b| < 0x1_0000_0000
    ensures |ArmapData(a, names)| == |ArmapData(b, names)|
  {
  }

  lemma PositionIsSize(p: Plan, offsets: seq<Word>, k: nat)
    requires p.Valid() && p.Countable() && |offsets| == |p.AllOwners()| && k <= |p.ms|
    ensures |Built(p.ms, p.now, ArmapData(offsets, p.SymbolNames()), k)| == p.Position(k)
  {
    hide Built, ArmapData;
    var other := ArmapData(offsets, p.SymbolNames());
    ArmapSize(offsets, seq(|offsets|, _ => 0), p.SymbolNames());
    BuiltPatch(p.ms, p.now, p.Blank(), other, k);
  }

  lemma PatchInside(b: Text, s: nat, a: Text, i: nat, w: Text)
    requires s + |a| <= |b| && b[s..s + |a|] == a && i + |w| <= |a|
    ensures b[..s + i] + w + b[s + i + |w|..] == b[..s] + (a[..i] + w + a[i + |w|..]) + b[s + |a|..]
  {
    assert b[..s + i] == b[..s] + a[..i];
    assert b[s + i + |w|..] == a[i + |w|..] + b[s + |a|..];
  }

  /** One entry of the map, overwritten in the image. */
  lemma PatchEntry(ms: seq<Member>, now: nat, names: Text, offsets: seq<Word>, e: nat, w: Word, k: nat)
    requires |offsets| < 0x1_0000_0000 && e < |offsets| && k <= |ms|
    ensures
      var a := ArmapData(offsets, names);
      var b, x := Built(ms, now, a, k), ArmapStart(now, a) + (4 * e + 4);
      && x + 4 <= |b|
      && b[..x] + EncodeWord(w) + b[x + 4..] == Built(ms, now, ArmapData(offsets[e := w], names), k)
  {
    hide Built, ArmapData, ArmapStart, EncodeWord;
    var a, c := ArmapData(offsets, names), ArmapData(offsets[e := w], names);
    ArmapSize(offsets, offsets[e := w], names);
    BuiltPatch(ms, now, a, c, k);
    ArmapUpdate(offsets, names, e, w);
    PatchInside(Built(ms, now, a, k), ArmapStart(now, a), a, 4 * e + 4, EncodeWord(w));
  }

  lemma SameStart(now: nat, a: Text, b: Text)
    requires |a| == |b|
    ensures ArmapStart(now, a) == ArmapStart(now, b)
  {
    hide PrintHeader;
  }

  method PatchSymbol(p: Plan, b: Text, offsets: seq<Word>, e: nat, k: nat, start: nat, w: Word) returns (b': Text)
    requires p.Valid() && p.Countable() && k <= |p.ms| && e < |offsets| == |p.AllOwners()|
    requires start == ArmapStart(p.now, p.Blank()) + 4
    requires b == Built(p.ms, p.now, ArmapData(offsets, p.SymbolNames()), k)
    ensures b' == Built(p.ms, p.now, ArmapData(offsets[e := w], p.SymbolNames()), k)
  {
    hide Built, ArmapData, EncodeWord, ArmapStart, Plan.SymbolNames, Plan.AllOwners;
    ArmapSize(offsets, seq(|offsets|, _ => 0), p.SymbolNames());
    PatchEntry(p.ms, p.now, p.SymbolNames(), offsets, e, w, k);
    SameStart(p.now, ArmapData(offsets, p.SymbolNames()), p.Blank());
    var x := start + 4 * e;
    b' := b[..x] + EncodeWord(w) + b[x + 4..];
  }

  method PlaceMember(p: Plan, b: Text, offsets: seq<Word>, e: nat, i: nat, start: nat, filePos: nat)
    returns (r: Result<(Text, seq<Word>, nat)>)
    requires p.Valid() && p.Countable() && i < |p.ms| && Placed(p, offsets, e)
    requires start == ArmapStart(p.now, p.Blank()) + 4 && filePos == p.Position(i)
    requires b == Built(p.ms, p.now, ArmapData(offsets, p.SymbolNames()), i + 1)
    requires forall f :: e <= f < |offsets| ==> p.AllOwners()[f] >= i
    ensures r.Failed? ==> !p.Encodable()
    ensures r.Ok? ==>
      var (b', offsets', e') := r.value;
      && Placed(p, offsets', e')
      && b' == Built(p.ms, p.now, ArmapData(offsets', p.SymbolNames()), i + 1)
      && forall f :: e' <= f < |offsets'| ==> p.AllOwners()[f] >= i + 1
  {
    hide Built, ArmapData, ArmapStart, Plan.SymbolNames, Plan.Blank;
    var owners := p.AllOwners();
    var b': Text := b;
    var offsets': seq<Word> := offsets;
    var e': nat := e;
    while e' < |owners| && owners[e'] == i
      invariant Placed(p, offsets', e')
      invariant b' == Built(p.ms, p.now, ArmapData(offsets', p.SymbolNames()), i + 1)
      invariant forall f :: e' <= f < |offsets'| ==> owners[f] >= i
    {
      if filePos >= 0x1_0000_0000 {
        assert p.Position(p.AllOwners()[e']) == filePos;
        return Failed;
      }
      var w: Word := filePos;
      b' := PatchSymbol(p, b', offsets', e', i + 1, start, w);
      offsets' := offsets'[e' := w];
      e' := e' + 1;
    }
    r := Ok((b', offsets', e'));
  }

  /** Collects the symbols and their owners, member by member. */
  method CollectSymbols(p: Plan) returns (owners: seq<nat>, names: Text)
    requires p.Valid()
    ensures owners == p.AllOwners() && names == p.SymbolNames()
  {
    owners, names := [], [];
    for i := 0 to |p.symbols|
      invariant owners == Owners(p.symbols, i) && names == AllNames(p.symbols, i)
    {
      var before := names;
      for j := 0 to |p.symbols[i]|
        invariant owners == Owners(p.symbols, i) + seq(j, _ => i)
        invariant names == before + Names(p.symbols[i][..j])
      {
        assert p.symbols[i][..j + 1][..j] == p.symbols[i][..j];
        names := names + p.symbols[i][j] + [0];
        owners := owners + [i];
        assert names == before + Names(p.symbols[i][..j + 1]);
      }
      assert p.symbols[i][..|p.symbols[i]|] == p.symbols[i];
    }
  }

  lemma LongNext(ms: seq<Member>, i: nat)
    requires i < |ms|
    ensures var before := LongNames(ms, i);
      && LongNames(ms, i + 1) == (if |ms[i].name| < 16 then before
                                  else before + ms[i].name + [SLASH, NEWLINE] + if before == [] then [SLASH, NEWLINE] else [])
      && HeaderName(ms, i) == if |ms[i].name| < 16 then ms[i].name + [SLASH] else [SLASH] + Digits(|before|, 10)
  {
    hide Digits;
    if |ms[i].name| >= 16 && LongNames(ms, i) == [] {
      assert [] + ms[i].name == ms[i].name;
    }
  }

  lemma NoLongNames(ms: seq<Member>)
    ensures LongNames(ms, 0) == []
  {
  }

  /** Collects the long names, with the extra line after the first, and the names for the headers. */
  method CollectNames(ms: seq<Member>) returns (table: Text, names: seq<Text>)
    ensures table == LongTable(ms)
    ensures |names| == |ms| && forall k :: 0 <= k < |ms| ==> names[k] == HeaderName(ms, k)
  {
    hide LongNames, Digits, HeaderName;
    NoLongNames(ms);
    table, names := [], [];
    var flag := false;
    for i := 0 to |ms|
      invariant table == LongNames(ms, i) && flag == (table != [])
      invariant |names| == i && forall k :: 0 <= k < i ==> names[k] == HeaderName(ms, k)
    {
      LongNext(ms, i);
      if |ms[i].name| >= 16 {
        names := names + [[SLASH] + Digits(|table|, 10)];
        table := table + ms[i].name + [SLASH, NEWLINE];
      } else {
        names := names + [ms[i].name + [SLASH]];
      }
      if table != [] && !flag {
        flag := true;
        table := table + [SLASH, NEWLINE];
      }
    }
    table := table + [SLASH];
  }

  lemma BuiltStart(p: Plan, armap: Text)
    ensures var table := LongTable(p.ms);
      Append(Append(MAGIC, ArmapHeader(p.now, armap), armap), Header([SLASH, SLASH], p.now, 0, 0, 0, |table|), table)
        == Built(p.ms, p.now, armap, 0)
  {
    hide Append, ArmapHeader, LongNames;
  }

  lemma BlankIs(p: Plan, offsets: seq<Word>)
    requires p.Valid() && p.Countable() && |offsets| == |p.AllOwners()|
    requires forall f :: 0 <= f < |offsets| ==> offsets[f] as int == 0
    ensures p.Blank() == ArmapData(offsets, p.SymbolNames())
  {
    hide ArmapData;
    assert offsets == seq(|p.AllOwners()|, _ => 0);
  }

  lemma BuiltNext(p: Plan, armap: Text, i: nat)
    requires i < |p.ms|
    ensures var m := p.ms[i];
      Append(Built(p.ms, p.now, armap, i), Header(HeaderName(p.ms, i), m.time, m.uid, m.gid, m.mode, m.size), m.data)
        == Built(p.ms, p.now, armap, i + 1)
  {
    hide Append, HeaderName;
  }

  /**
   Builds the image with the map's places left blank, and fills them in as members are appended.  It fails
   exactly when a count or a place does not fit 32 bits.
   */
  method BuildImage(p: Plan) returns (r: Result<Text>)
    requires p.Valid()
    ensures r == if p.Encodable() then Ok(p.Image()) else Failed
  {
    hide Append, Built, ArmapData, ArmapStart, Plan.Blank, Plan.Position, TableHeader, ArmapHeader, MemberHeader, HeaderName;
    var owners, symbolNames := CollectSymbols(p);
    if |owners| >= 0x1_0000_0000 {
      return Failed;
    }
    var offsets: seq<Word> := seq(|owners|, _ => 0);
    var armap := ArmapData(offsets, symbolNames);
    var b := Append(MAGIC, ArmapHeader(p.now, armap), armap);
    var start := ArmapStart(p.now, armap) + 4;
    var table, names := CollectNames(p.ms);
    b := Append(b, Header([SLASH, SLASH], p.now, 0, 0, 0, |table|), table);
    var e: nat := 0;
    BuiltStart(p, armap);
    BlankIs(p, offsets);
    for i := 0 to |p.ms|
      invariant Placed(p, offsets, e)
      invariant b == Built(p.ms, p.now, ArmapData(offsets, p.SymbolNames()), i)
      invariant forall f :: e <= f < |offsets| ==> owners[f] >= i
    {
      var filePos := |b|;
      PositionIsSize(p, offsets, i);
      var m := p.ms[i];
      BuiltNext(p, ArmapData(offsets, p.SymbolNames()), i);
      b := Append(b, Header(names[i], m.time, m.uid, m.gid, m.mode, m.size), m.data);
      var placed := PlaceMember(p, b, offsets, e, i, start, filePos);
      if placed.Failed? {
        return Failed;
      }
      b, offsets, e := placed.value.0, placed.value.1, placed.value.2;
    }
    AllPlaced(p, offsets, e);
    r := Ok(b);
  }

  lemma AllPlaced(p: Plan, offsets: seq<Word>, e: nat)
    requires p.Valid() && p.Countable() && Placed(p, offsets, e)
    requires forall f :: e <= f < |offsets| ==> p.AllOwners()[f] >= |p.ms|
    ensures p.Encodable() && offsets == p.Offsets()
  {
    assert forall f :: 0 <= f < |p.AllOwners()| ==> p.AllOwners()[f] < |p.ms|;
    forall f | 0 <= f < |p.AllOwners()| ensures p.Position(p.AllOwners()[f]) < 0x1_0000_0000 {
      assert offsets[f] as int == p.Position(p.AllOwners()[f]);
    }
  }

  /* ----- what the symbol map says ----- */

  /** All symbols, in the order of the map. */
  function Flat(symbols: seq<seq<Text>>, k: nat): seq<Text>
    requires k <= |symbols|
  {
    if k == 0 then [] else Flat(symbols, k - 1) + symbols[k - 1]
  }

  lemma {:induction false} NamesSplit(a: seq<Text>, b: seq<Text>)
    ensures Names(a + b) == Names(a) + Names(b)
  {
    hide Names;
    if b == [] {
      NamesNone();
      assert a + b == a && Names(a) + [] == Names(a);
    } else {
      var n := |b| - 1;
      NamesSplit(a, b[..n]);
      NamesLast(a + b);
      NamesLast(b);
      assert (a + b)[..|a| + n] == a + b[..n] && (a + b)[|a| + n] == b[n];
      Joined(Names(a), Names(b[..n]), b[n] + [0]);
    }
  }

  lemma NamesNone()
    ensures Names([]) == []
  {
  }

  lemma NamesLast(b: seq<Text>)
    requires b != []
    ensures Names(b) == Names(b[..|b| - 1]) + (b[|b| - 1] + [0])
  {
  }

  lemma Joined(a: Text, b: Text, c: Text)
    ensures (a + b) + c == a + (b + c)
  {
  }

  /** The map's owners and its names go together: symbol `e` is one that its owner defines. */
  lemma {:induction false} OwnersDefine(symbols: seq<seq<Text>>, k: nat)
    requires k <= |symbols|
    ensures |Flat(symbols, k)| == |Owners(symbols, k)|
    ensures forall e :: 0 <= e < |Owners(symbols, k)| ==> Flat(symbols, k)[e] in symbols[Owners(symbols, k)[e]]
    ensures AllNames(symbols, k) == Names(Flat(symbols, k))
  {
    if k > 0 {
      OwnersDefine(symbols, k - 1);
      NamesSplit(Flat(symbols, k - 1), symbols[k - 1]);
    }
  }

  predicate Starts(a: Text, b: Text) { a <= b }

  lemma StartsThrough(a: Text, b: Text, c: Text)
    requires Starts(a, b) && Starts(b, c)
    ensures Starts(a, c)
  {
  }

  lemma {:induction false} BuiltPrefix(ms: seq<Member>, now: nat, armap: Text, j: nat, k: nat)
    requires j <= k <= |ms|
    ensures Starts(Built(ms, now, armap, j), Built(ms, now, armap, k))
  {
    hide *;
    if j == k {
      StartsSelf(Built(ms, now, armap, k));
    } else {
      BuiltPrefix(ms, now, armap, j, k - 1);
      BuiltGrows(ms, now, armap, k);
      StartsThrough(Built(ms, now, armap, j), Built(ms, now, armap, k - 1), Built(ms, now, armap, k));
    }
  }

  lemma StartsSelf(b: Text)
    ensures Starts(b, b)
  {
  }

  lemma BuiltGrows(ms: seq<Member>, now: nat, armap: Text, k: nat)
    requires 1 <= k <= |ms|
    ensures Starts(Built(ms, now, armap, k - 1), Built(ms, now, armap, k))
    ensures Starts(Built(ms, now, armap, k - 1) + PrintHeader(MemberHeader(ms, k - 1)), Built(ms, now, armap, k))
  {
    hide Append, PrintHeader, MemberHeader;
    AppendPrefix(Built(ms, now, armap, k - 1), MemberHeader(ms, k - 1), ms[k - 1].data);
  }

  lemma AppendPrefix(b: Text, h: Header, data: Text)
    ensures Starts(b, Append(b, h, data)) && Starts(b + PrintHeader(h), Append(b, h, data))
  {
    hide PrintHeader;
  }

  lemma AfterPrefix(b: Text, h: Text, image: Text)
    requires Starts(b + h, image)
    ensures image[|b|..] == h + image[|b| + |h|..]
  {
    assert image == b + h + image[|b + h|..];
  }

  /** The header of member `k` stands at its position. */
  lemma HeaderAtPosition(ms: seq<Member>, now: nat, armap: Text, k: nat)
    requires k < |ms| && Fits(MemberHeader(ms, k))
    ensures |Built(ms, now, armap, k)| <= |Built(ms, now, armap, |ms|)|
    ensures ReadHeader(Built(ms, now, armap, |ms|)[|Built(ms, now, armap, k)|..]) == Ok(MemberHeader(ms, k))
  {
    hide PrintHeader, Built, MemberHeader, Fits, ReadHeader;
    var b, c, image := Built(ms, now, armap, k), Built(ms, now, armap, k + 1), Built(ms, now, armap, |ms|);
    var h := PrintHeader(MemberHeader(ms, k));
    BuiltPrefix(ms, now, armap, k + 1, |ms|);
    BuiltGrows(ms, now, armap, k + 1);
    StartsThrough(b + h, c, image);
    AfterPrefix(b, h, image);
    HeaderRoundTrip(MemberHeader(ms, k), image[|b| + |h|..]);
  }

  lemma SliceInSlice(b: Text, s: nat, a: Text, i: nat, j: nat)
    requires s + |a| <= |b| && b[s..s + |a|] == a && i <= j <= |a|
    ensures b[s + i..s + j] == a[i..j]
  {
    forall k | i <= k < j ensures b[s + k] == a[k] {
      assert b[s..s + |a|][k] == a[k];
    }
  }

  lemma BuiltEntry(ms: seq<Member>, now: nat, offsets: seq<Word>, names: Text, e: nat, k: nat)
    requires |offsets| < 0x1_0000_0000 && e < |offsets| && k <= |ms|
    ensures
      var a := ArmapData(offsets, names);
      var b, x := Built(ms, now, a, k), ArmapStart(now, a) + (4 * e + 4);
      x + 4 <= |b| && b[x..x + 4] == EncodeWord(offsets[e])
  {
    hide Built, ArmapData, ArmapStart, EncodeWord;
    var a := ArmapData(offsets, names);
    BuiltPatch(ms, now, a, a, k);
    ArmapAt(offsets, names, e);
    SliceInSlice(Built(ms, now, a, k), ArmapStart(now, a), a, 4 * e + 4, 4 * e + 8);
  }

  lemma ArmapEntryAt(p: Plan, e: nat)
    requires p.Valid() && p.Encodable() && e < |p.AllOwners()|
    ensures
      var x := ArmapStart(p.now, p.Armap()) + (4 * e + 4);
      x + 4 <= |p.Image()| && p.Image()[x..x + 4] == EncodeWord(p.Offsets()[e])
  {
    hide Built, ArmapData, ArmapStart, EncodeWord, Plan.Position, Plan.Offsets, Plan.AllOwners;
    BuiltEntry(p.ms, p.now, p.Offsets(), p.SymbolNames(), e, |p.ms|);
  }

  /** Entry `e` of the symbol map of a finished image is the place of the header of the member that defines symbol `e`. */
  lemma ArmapPointsHome(p: Plan, e: nat)
    requires p.Valid() && p.Encodable() && e < |p.AllOwners()| && Fits(MemberHeader(p.ms, p.AllOwners()[e]))
    ensures e < |Flat(p.symbols, |p.symbols|)| && Flat(p.symbols, |p.symbols|)[e] in p.symbols[p.AllOwners()[e]]
    ensures var x := ArmapStart(p.now, p.Armap()) + (4 * e + 4);
      && x + 4 <= |p.Image()|
      && DecodeWord(p.Image()[x..x + 4]) <= |p.Image()|
      && ReadHeader(p.Image()[DecodeWord(p.Image()[x..x + 4])..]) == Ok(MemberHeader(p.ms, p.AllOwners()[e]))
  {
    OwnersDefine(p.symbols, |p.symbols|);
    ArmapEntryAt(p, e);
    WordRoundTrip(p.Offsets()[e]);
    PositionIsSize(p, p.Offsets(), p.AllOwners()[e]);
    HeaderAtPosition(p.ms, p.now, p.Armap(), p.AllOwners()[e]);
    hide Built, ArmapData, ArmapStart, EncodeWord, DecodeWord, ReadHeader, MemberHeader, Fits, Flat;
  }
}
