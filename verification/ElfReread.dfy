/** Reading a written object file gives back its sections, and writing it once more changes nothing. */
module ElfReread {
  import opened Bytes
  import opened ElfFormat
  import opened ElfFile
  import opened ElfLayout

  /** What reading checks of a file, but for the offset of the section headers and the count of sections. */
  predicate Readable(f: File) {
    var h := f.header;
    && |h.ident| == 16 && h.ident[..4] == IDENT && h.ident[4] == 1
    && h.kind == 1 && h.machine == 8 && h.phoff == 0 && h.shentsize == SECTION_SIZE && h.shstrndx != 0
      && h.shstrndx < |f.sections|
    && f.sections != [] && Symtabs(f.sections) == 1
    && forall s :: s in f.sections ==> Divides(s.Sized()) && (s.kind == SHT_NOBITS ==> s.data == [])
  }

  /** A section as it is read back: contents are taken from the file by offset and size. */
  function Reread(file: seq<Byte>, s: Section): Section
    requires s.offset >= 0 && s.size >= 0
  {
    s.(data := if s.kind == SHT_NOBITS then [] else Slice(file, s.offset, s.offset + s.size))
  }

  lemma FieldRanges(s: Section)
    requires SectionFits(s)
    ensures s.offset >= 0 && s.size >= 0
  {
    assert InRange(SECTION_FORMAT[4], s.Fields()[4]) && InRange(SECTION_FORMAT[5], s.Fields()[5]);
  }

  lemma FieldsReadBack(big: bool, s: Section)
    requires SectionFits(s)
    ensures Size(SECTION_FORMAT) == SECTION_SIZE && Unpack(big, SECTION_FORMAT, SectionBin(big, s)) == s.Fields()
  {
    hide Repeat, Size, Pack, Unpack;
    FormatSizes();
    PackRoundTrip(big, SECTION_FORMAT, s.Fields());
  }

  lemma SectionReadBack(big: bool, s: Section, file: seq<Byte>)
    requires SectionFits(s) && Divides(s)
    ensures s.offset >= 0 && s.size >= 0
    ensures ReadSection(big, SectionBin(big, s), file) == Ok(Reread(file, s))
  {
    hide Repeat, Size, Unpack, Slice, Packable, InRange, Divides, SectionFits, SectionBin;
    FieldRanges(s);
    FieldsReadBack(big, s);
    DividesAlike(s, Reread(file, s));
  }

  lemma DividesAlike(s: Section, t: Section)
    requires Divides(s) && t == s.(data := t.data)
    ensures Divides(t)
  {
  }

  lemma HeaderReadBack(h: Header)
    requires HeaderFits(h) && h.ident[4] == 1 && Acceptable(h)
    ensures ReadHeader(HeaderBin(h)) == Ok(h)
  {
    hide Pack, Unpack, Repeat, Size, Packable;
    FormatSizes();
    PackRoundTrip(h.Big(), HEADER_FORMAT, h.Fields());
    var s, packed := HeaderBin(h), Pack(h.Big(), HEADER_FORMAT, h.Fields());
    assert s == h.ident + packed;
    assert s[..16] == h.ident && s[16..] == packed;
  }

  lemma {:induction false} TableAt(big: bool, ss: seq<Section>, i: nat)
    requires (forall s :: s in ss ==> SectionFits(s)) && i < |ss|
    ensures Table(big, ss)[SECTION_SIZE * i..SECTION_SIZE * (i + 1)] == SectionBin(big, ss[i])
    decreases |ss|
  {
    hide SectionFits, SectionBin;
    var before, last := ss[..|ss| - 1], SectionBin(big, ss[|ss| - 1]);
    var t := Table(big, before);
    assert Table(big, ss) == t + last;
    hide Table;
    if i < |ss| - 1 {
      TableAt(big, before, i);
      assert SECTION_SIZE * (i + 1) <= |t|;
      assert (t + last)[SECTION_SIZE * i..SECTION_SIZE * (i + 1)] == t[SECTION_SIZE * i..SECTION_SIZE * (i + 1)];
    } else {
      assert SECTION_SIZE * i == |t|;
      assert (t + last)[|t|..|t| + SECTION_SIZE] == last;
    }
  }

  lemma SliceOf(a: seq<Byte>, b: seq<Byte>, lo: nat, hi: nat)
    requires lo < hi <= |b|
    ensures Slice(a + b, |a| + lo, |a| + hi) == b[lo..hi]
  {
  }

  /** The table of section headers follows the contents. */
  lemma SectionAtReads(file: seq<Byte>, g: File, front: seq<Byte>, big: bool, i: nat)
    requires (forall s :: s in g.sections ==> SectionFits(s)) && i < |g.sections| && Divides(g.sections[i])
    requires file == front + Table(big, g.sections) && g.header.shoff == |front| && g.header.shentsize == SECTION_SIZE
    requires g.header.Big() == big
    ensures g.sections[i].offset >= 0 && g.sections[i].size >= 0
    ensures SectionAt(file, g.header, i) == Ok(Reread(file, g.sections[i]))
  {
    hide Table, SectionBin, SectionFits, ReadSection, Reread, Divides;
    TableAt(big, g.sections, i);
    SectionReadBack(big, g.sections[i], file);
    SliceOf(front, Table(big, g.sections), SECTION_SIZE * i, SECTION_SIZE * (i + 1));
  }

  function RereadAll(file: seq<Byte>, ss: seq<Section>): (r: seq<Section>)
    requires forall s :: s in ss ==> s.offset >= 0 && s.size >= 0
    ensures |r| == |ss| && forall i :: 0 <= i < |ss| ==> r[i] == Reread(file, ss[i])
  {
    seq(|ss|, i requires 0 <= i < |ss| => Reread(file, ss[i]))
  }

  /** All of the headers can be read where they stand. */
  ghost predicate Tabled(file: seq<Byte>, g: File) {
    && g.header.shoff >= 0 && g.header.shentsize == SECTION_SIZE
    && (forall s :: s in g.sections ==> s.offset >= 0 && s.size >= 0)
    && forall i :: 0 <= i < |g.sections| ==> SectionAt(file, g.header, i) == Ok(Reread(file, g.sections[i]))
  }

  lemma {:induction false} ReadFromReads(file: seq<Byte>, g: File, i: nat)
    requires Tabled(file, g) && i <= |g.sections|
    ensures ReadFrom(file, g.header, i, |g.sections|) == Ok(RereadAll(file, g.sections)[i..])
    decreases |g.sections| - i
  {
    hide SectionAt, Reread;
    if i < |g.sections| {
      ReadFromReads(file, g, i + 1);
      assert RereadAll(file, g.sections)[i..] == [Reread(file, g.sections[i])] + RereadAll(file, g.sections)[i + 1..];
    }
  }

  lemma {:induction false} SameSymtabs(ss: seq<Section>, ts: seq<Section>)
    requires |ss| == |ts| && forall i :: 0 <= i < |ss| ==> ss[i].kind == ts[i].kind
    ensures Symtabs(ss) == Symtabs(ts)
  {
    if ss != [] {
      SameSymtabs(ss[..|ss| - 1], ts[..|ts| - 1]);
    }
  }

  lemma PlacedDivides(big: bool, s: Section, p: Section)
    requires Placed(big, s, p) && Divides(s.Sized()) && (s.kind == SHT_NOBITS ==> s.data == [])
    ensures Divides(p.Sized()) && p.kind == s.kind && (p.kind == SHT_NOBITS ==> p.data == [])
  {
    hide RelocateMdebug;
  }

  lemma ComposedCount(f: File, file: seq<Byte>, g: File, end: seq<Byte>, body: seq<Byte>, ps: seq<Section>)
    requires Composed(f, file, g, end, body, ps)
    ensures |g.sections| == |ps| == |f.sections|
  {
    hide HeaderFits, HeaderBin, SectionFits, Table, PlaceAll, Repeat, Size, SectionBin, Place, Pad;
  }

  /** What the writer keeps of a section's alignment and kind. */
  ghost predicate StillDivides(s: Section, t: Section) {
    Divides(t) && t.kind == s.kind && t.Sized() == t && (t.kind == SHT_NOBITS ==> t.data == [])
  }

  lemma SizedDivides(s: Section, p: Section)
    requires Divides(p.Sized()) && p.kind == s.kind && (p.kind == SHT_NOBITS ==> p.data == [])
    ensures StillDivides(s, p.Sized())
  {
    hide Divides;
  }

  /** The same of all sections. */
  lemma AllDivide(f: File, file: seq<Byte>, g: File, end: seq<Byte>, body: seq<Byte>, ps: seq<Section>)
    requires Composed(f, file, g, end, body, ps) && Readable(f)
    ensures |g.sections| == |f.sections|
    ensures forall i :: 0 <= i < |g.sections| ==> StillDivides(f.sections[i], g.sections[i])
  {
    hide Composed, Placed, Divides, Readable, StillDivides, Section.Sized, Header.Big;
    ComposedCount(f, file, g, end, body, ps);
    forall i | 0 <= i < |g.sections| ensures StillDivides(f.sections[i], g.sections[i]) {
      PlacedAt(f, file, g, end, body, ps, i);
      ReadableAt(f, i);
      PlacedDivides(f.header.Big(), f.sections[i], ps[i]);
      SizedDivides(f.sections[i], ps[i]);
    }
  }

  lemma ReadableAt(f: File, i: nat)
    requires Readable(f) && i < |f.sections|
    ensures Divides(f.sections[i].Sized()) && (f.sections[i].kind == SHT_NOBITS ==> f.sections[i].data == [])
  {
    hide Divides;
    assert f.sections[i] in f.sections;
  }

  lemma WrittenTabled(f: File, file: seq<Byte>, g: File, end: seq<Byte>, body: seq<Byte>, ps: seq<Section>)
    requires Composed(f, file, g, end, body, ps) && Readable(f)
    ensures Tabled(file, g)
  {
    hide Readable, PlaceAll, Pad, HeaderFits, SectionFits, HeaderBin, Table, Divides, SectionAt, Reread, Repeat, Size;
    AllDivide(f, file, g, end, body, ps);
    ShentsizeOf(f);
    var front := HeaderBin(g.header) + body[HEADER_SIZE..];
    forall i | 0 <= i < |g.sections|
      ensures g.sections[i].offset >= 0 && g.sections[i].size >= 0
        && SectionAt(file, g.header, i) == Ok(Reread(file, g.sections[i]))
    {
      SectionAtReads(file, g, front, f.header.Big(), i);
    }
  }

  lemma ShentsizeOf(f: File)
    requires Readable(f)
    ensures f.header.shentsize == SECTION_SIZE
  {
  }

  lemma HeaderIdent(h: Header)
    requires HeaderFits(h)
    ensures |h.ident| == 16 && HeaderBin(h)[..16] == h.ident
  {
    hide Pack, Repeat, Size;
  }

  lemma WrittenHeader(f: File, file: seq<Byte>, g: File, end: seq<Byte>, body: seq<Byte>, ps: seq<Section>)
    requires Composed(f, file, g, end, body, ps) && Readable(f)
    ensures Slice(file, 0, 4) == IDENT && ReadHeader(Slice(file, 0, HEADER_SIZE)) == Ok(g.header)
    ensures g.header.shnum == |f.sections| > 0 && g.header.shstrndx < |f.sections|
  {
    hide PlaceAll, Pad, HeaderFits, SectionFits, HeaderBin, Table, Divides, Repeat, Size, ReadHeader, Symtabs, Pack;
    var head := HeaderBin(g.header);
    HeaderIdent(g.header);
    assert file == head + (body[HEADER_SIZE..] + Table(f.header.Big(), g.sections));
    assert file[..4] == head[..16][..4];
    HeaderReadBack(g.header);
  }

  lemma ReadParts(file: seq<Byte>, h: Header, first: Section, ss: seq<Section>)
    requires Slice(file, 0, 4) == IDENT && ReadHeader(Slice(file, 0, HEADER_SIZE)) == Ok(h) && h.shoff >= 0 && h.shentsize >= 0
    requires h.shnum == |ss| > 0 && SectionAt(file, h, 0) == Ok(first) && ReadFrom(file, h, 0, |ss|) == Ok(ss) && Symtabs(ss) == 1
    requires h.shstrndx < |ss|
    ensures ReadFile(file) == Ok(File(h, ss))
  {
    hide ReadHeader, SectionAt, ReadFrom, Symtabs, Slice;
  }

  /** Whatever was written can be read; every section but those of type SHT_NULL is as the writer left it. */
  lemma WrittenReads(f: File)
    requires WriteFile(f).Ok? && Readable(f)
    ensures var (file, g) := WriteFile(f).value;
      && (forall s :: s in g.sections ==> s.offset >= 0 && s.size >= 0)
      && ReadFile(file) == Ok(File(g.header, RereadAll(file, g.sections)))
  {
    hide *;
    var (file, g) := WriteFile(f).value;
    Compose(f);
    var end: seq<Byte>, body: seq<Byte>, ps: seq<Section> :| Composed(f, file, g, end, body, ps);
    AllDivide(f, file, g, end, body, ps);
    WrittenTabled(f, file, g, end, body, ps);
    WrittenHeader(f, file, g, end, body, ps);
    TabledFacts(file, g);
    ReadFromReads(file, g, 0);
    SymtabsOf(f);
    KindsKept(f.sections, g.sections);
    RereadKinds(file, g.sections);
    SameSymtabs(f.sections, RereadAll(file, g.sections));
    ReadParts(file, g.header, Reread(file, g.sections[0]), RereadAll(file, g.sections));
  }

  lemma SymtabsOf(f: File)
    requires Readable(f)
    ensures Symtabs(f.sections) == 1
  {
  }

  lemma KindsKept(ss: seq<Section>, ts: seq<Section>)
    requires |ts| == |ss| && forall i :: 0 <= i < |ss| ==> StillDivides(ss[i], ts[i])
    ensures forall i :: 0 <= i < |ss| ==> ts[i].kind == ss[i].kind
  {
    hide Divides;
  }

  lemma RereadKinds(file: seq<Byte>, ss: seq<Section>)
    requires forall s :: s in ss ==> s.offset >= 0 && s.size >= 0
    ensures forall i :: 0 <= i < |ss| ==> RereadAll(file, ss)[i].kind == ss[i].kind
  {
  }

  lemma TabledFacts(file: seq<Byte>, g: File)
    requires Tabled(file, g)
    ensures g.header.shoff >= 0 && g.header.shentsize >= 0
    ensures forall s :: s in g.sections ==> s.offset >= 0 && s.size >= 0
    ensures forall i :: 0 <= i < |g.sections| ==> SectionAt(file, g.header, i) == Ok(Reread(file, g.sections[i]))
  {
  }

  /** Whatever stands at the old place of this section is its contents. */
  predicate StillThere(file: seq<Byte>, s: Section) {
    s.kind == SHT_NULL && s.offset >= 0 && s.size >= 0 ==> Slice(file, s.offset, s.offset + s.size) == s.data
  }

  lemma RereadSame(file: seq<Byte>, was: Section, s: Section)
    requires Holds(file, s) && StillDivides(was, s) && s.offset >= 0 && s.size >= 0
    ensures Reread(file, s) == s <==> StillThere(file, s)
  {
  }

  /**
   Reading gives back the header, the section headers and the contents that were written, exactly if the contents
   of every section of type SHT_NULL, which are not written, still stand at its old offset.
   */
  lemma RoundTrip(f: File)
    ensures WriteFile(f).Ok? && Readable(f) ==>
      var (file, g) := WriteFile(f).value;
      ReadFile(file) == Ok(g) <==> forall s :: s in g.sections ==> StillThere(file, s)
  {
    hide *;
    if WriteFile(f).Ok? && Readable(f) {
      var (file, g) := WriteFile(f).value;
      WrittenReads(f);
      Compose(f);
      var end: seq<Byte>, body: seq<Byte>, ps: seq<Section> :| Composed(f, file, g, end, body, ps);
      AllDivide(f, file, g, end, body, ps);
      forall i | 0 <= i < |g.sections|
        ensures RereadAll(file, g.sections)[i] == g.sections[i] <==> StillThere(file, g.sections[i])
      {
        assert g.sections[i] in g.sections;
        FileHolds(f, file, g, end, body, ps, i);
        RereadSame(file, f.sections[i], g.sections[i]);
      }
      SameFile(g, RereadAll(file, g.sections));
      AllStillThere(file, g.sections);
    }
  }

  lemma AllStillThere(file: seq<Byte>, ss: seq<Section>)
    requires forall s :: s in ss ==> s.offset >= 0 && s.size >= 0
    requires forall i :: 0 <= i < |ss| ==> (RereadAll(file, ss)[i] == ss[i] <==> StillThere(file, ss[i]))
    ensures RereadAll(file, ss) == ss <==> forall s :: s in ss ==> StillThere(file, s)
  {
    hide StillThere, Reread;
    var r := RereadAll(file, ss);
    if r == ss {
      forall s | s in ss ensures StillThere(file, s) {
        var i :| 0 <= i < |ss| && ss[i] == s;
      }
    }
    if forall s :: s in ss ==> StillThere(file, s) {
      forall i | 0 <= i < |ss| ensures r[i] == ss[i] {
        assert ss[i] in ss;
      }
    }
  }

  lemma SameFile(g: File, r: seq<Section>)
    ensures File(g.header, r) == g <==> r == g.sections
  {
  }

  /** In particular if those sections are empty, as the System V ABI has them. */
  lemma EmptyNullRoundTrip(f: File)
    requires forall s :: s in f.sections && s.kind == SHT_NULL ==> s.data == []
    ensures WriteFile(f).Ok? && Readable(f) ==> ReadFile(WriteFile(f).value.0) == Ok(WriteFile(f).value.1)
  {
    hide *;
    if WriteFile(f).Ok? && Readable(f) {
      var (file, g) := WriteFile(f).value;
      RoundTrip(f);
      Compose(f);
      var end: seq<Byte>, body: seq<Byte>, ps: seq<Section> :| Composed(f, file, g, end, body, ps);
      AllDivide(f, file, g, end, body, ps);
      forall s | s in g.sections ensures StillThere(file, s) {
        var i :| 0 <= i < |g.sections| && g.sections[i] == s;
        PlacedAt(f, file, g, end, body, ps, i);
        NullStays(f.header.Big(), f.sections[i], ps[i], file);
        assert f.sections[i] in f.sections;
      }
    }
  }

  lemma NullStays(big: bool, s: Section, p: Section, file: seq<Byte>)
    requires Placed(big, s, p) && (s.kind == SHT_NULL ==> s.data == [])
    ensures StillThere(file, p.Sized())
  {
    hide RelocateMdebug;
  }

  /** What is read can be written and read again, if no section was cut short by the end of the file. */
  lemma ReadIsReadable(file: seq<Byte>)
    ensures var r := ReadFile(file);
      r.Ok? && (forall s :: s in r.value.sections && s.kind != SHT_NOBITS ==> |s.data| == s.size) ==> Readable(r.value)
  {
    hide Symtabs, Unpack, Repeat, Size, Divides, Slice, ReadHeader, ReadFrom, SectionAt;
    if ReadFile(file).Ok? && forall s :: s in ReadFile(file).value.sections && s.kind != SHT_NOBITS ==> |s.data| == s.size {
      var f := ReadFile(file).value;
      HeaderRanges(Slice(file, 0, HEADER_SIZE));
      HeaderRead(file);
      var first := SectionAt(file, f.header, 0).value;
      SecondSection(file, f.header, Count(f.header, first));
      FirstRead(file, f.header);
      ReadFromDivides(file, f.header, 0, Count(f.header, first));
      forall t | t in f.sections ensures Divides(t.Sized()) && (t.kind == SHT_NOBITS ==> t.data == []) {
        assert t.Sized() == t;
      }
    }
  }

  lemma HeaderRead(file: seq<Byte>)
    requires ReadHeader(Slice(file, 0, HEADER_SIZE)).Ok? && Slice(file, 0, 4) == IDENT
    ensures var h := ReadHeader(Slice(file, 0, HEADER_SIZE)).value;
      |h.ident| == 16 && h.ident[..4] == IDENT && h.ident[4] == 1 && Acceptable(h)
  {
    hide Unpack, Repeat, Size;
    assert file[..HEADER_SIZE][..16][..4] == file[..4];
  }

  lemma SecondSection(file: seq<Byte>, h: Header, n: nat)
    requires h.shoff >= 0 && h.shentsize >= 0 && n > 0 && ReadFrom(file, h, 0, n).Ok? && |ReadFrom(file, h, 0, n).value| > 1
    ensures SectionAt(file, h, 1).Ok?
  {
    hide SectionAt;
    assert ReadFrom(file, h, 1, n).Ok? && |ReadFrom(file, h, 1, n).value| > 0;
  }

  /** Two section headers can only be read if they are exactly as long as they should be. */
  lemma FirstRead(file: seq<Byte>, h: Header)
    requires h.shoff >= 0 && h.shentsize >= 0 && SectionAt(file, h, 0).Ok? && SectionAt(file, h, 1).Ok?
    ensures h.shentsize == SECTION_SIZE
  {
    hide ReadSection;
  }

  lemma {:induction false} ReadFromDivides(file: seq<Byte>, h: Header, i: nat, n: nat)
    requires h.shoff >= 0 && h.shentsize >= 0 && ReadFrom(file, h, i, n).Ok?
    ensures |ReadFrom(file, h, i, n).value| == if i < n then n - i else 0
    ensures forall s :: s in ReadFrom(file, h, i, n).value ==> Divides(s) && (s.kind == SHT_NOBITS ==> s.data == [])
    decreases n - i
  {
    hide Divides;
    if i < n {
      ReadFromDivides(file, h, i + 1, n);
    }
  }

  /* ----- a smallest file ----- */

  const SMALLEST := TwoSections(Section(0, SHT_NULL, 0, 0, 0, 0, 0, 0, 0, 0, []))

  lemma SmallFits(f: Format, vs: seq<int>)
    requires |vs| == |f| && forall i :: 0 <= i < |vs| ==> 0 <= vs[i] < 0x1_0000
    ensures Packable(f, vs)
  {
  }

  lemma SmallHeader(h: Header)
    requires |h.ident| == 16 && forall i :: 0 <= i < 13 ==> 0 <= h.Fields()[i] < 0x1_0000
    ensures HeaderFits(h)
  {
    hide Repeat, Size, Packable;
    FormatSizes();
    SmallFits(HEADER_FORMAT, h.Fields());
  }

  lemma SmallSection(s: Section)
    requires forall i :: 0 <= i < 10 ==> 0 <= s.Fields()[i] < 0x1_0000
    ensures SectionFits(s)
  {
    hide Repeat, Size, Packable;
    FormatSizes();
    SmallFits(SECTION_FORMAT, s.Fields());
  }

  /** The symbol table of the smallest files. */
  const SYMTAB := Section(1, SHT_SYMTAB, 0, 0, 0, 0, 1, 1, 4, 16, [])

  lemma PlaceSymtab(big: bool, out: seq<Byte>)
    requires |out| == HEADER_SIZE
    ensures PlaceAll(big, out, [SYMTAB]) == Ok((out, [SYMTAB.(offset := HEADER_SIZE)]))
  {
    assert Pad(out, 4) == out && out + [] == out;
    assert Place(big, out, SYMTAB) == Ok((out, SYMTAB.(offset := HEADER_SIZE)));
    assert [SYMTAB][1..] == [] && PlaceAll(big, out, []) == Ok((out, []));
    assert [SYMTAB.(offset := HEADER_SIZE)] + [] == [SYMTAB.(offset := HEADER_SIZE)];
  }

  lemma PlaceTwo(big: bool, out: seq<Byte>, s: Section)
    requires |out| == HEADER_SIZE && s.kind == SHT_NULL
    ensures PlaceAll(big, out, [s, SYMTAB]) == Ok((out, [s, SYMTAB.(offset := HEADER_SIZE)]))
  {
    PlaceSymtab(big, out);
    assert Place(big, out, s) == Ok((out, s));
    assert [s, SYMTAB][1..] == [SYMTAB];
    assert [s] + [SYMTAB.(offset := HEADER_SIZE)] == [s, SYMTAB.(offset := HEADER_SIZE)];
  }

  lemma WrittenIs(f: File, h: Header, out: seq<Byte>, ps: seq<Section>)
    requires h == f.header.(shnum := |f.sections|) && HeaderFits(h) && |out| >= HEADER_SIZE
    requires PlaceAll(h.Big(), HeaderBin(h), f.sections) == Ok((out, ps))
    requires HeaderFits(h.(shoff := |Pad(out, 4)|)) && forall s :: s in SizedAll(ps) ==> SectionFits(s)
    ensures WriteFile(f).Ok? && WriteFile(f).value.1 == File(h.(shoff := |Pad(out, 4)|), SizedAll(ps))
    ensures |WriteFile(f).value.0| == |Pad(out, 4)| + SECTION_SIZE * |ps|
  {
    hide HeaderFits, SectionFits, HeaderBin, PlaceAll, Table, SizedAll, Header.Big;
  }

  /** A file of two sections, the first of type SHT_NULL. */
  function TwoSections(s: Section): File {
    File(Header([0x7F, 0x45, 0x4C, 0x46, 1, 2, 1, 0, 0, 0, 0, 0, 0, 0, 0, 0], 1, 8, 1, 0, 0, 0, 0, 52, 0, 0, 40, 2, 1),
         [s, SYMTAB])
  }

  predicate Small(s: Section) { s.kind == SHT_NULL && forall i :: 0 <= i < 10 ==> 0 <= s.Fields()[i] < 0x1_0000 }

  lemma TwoReadable(s: Section)
    requires s.kind == SHT_NULL && Divides(s.Sized())
    ensures Readable(TwoSections(s))
  {
    assert TwoSections(s).sections[..1] == [s] && Symtabs([s]) == 0;
  }

  lemma TwoHeader(s: Section)
    ensures var h := TwoSections(s).header;
      HeaderFits(h.(shnum := 2)) && HeaderFits(h.(shnum := 2).(shoff := HEADER_SIZE))
  {
    hide HeaderFits;
    SmallHeader(TwoSections(s).header.(shnum := 2));
    SmallHeader(TwoSections(s).header.(shnum := 2).(shoff := HEADER_SIZE));
  }

  lemma SmallSections(s: Section)
    requires Small(s.Sized())
    ensures forall x :: x in SizedAll([s, SYMTAB.(offset := HEADER_SIZE)]) ==> SectionFits(x)
  {
    hide SectionFits;
    var ss := SizedAll([s, SYMTAB.(offset := HEADER_SIZE)]);
    assert ss == [s.Sized(), SYMTAB.(offset := HEADER_SIZE).Sized()];
    SmallSection(ss[0]);
    SmallSection(ss[1]);
  }

  lemma PadNone(out: seq<Byte>)
    requires |out| == HEADER_SIZE
    ensures Pad(out, 4) == out
  {
  }

  lemma TwoWritten(s: Section)
    requires s.kind == SHT_NULL && Small(s.Sized())
    ensures WriteFile(TwoSections(s)).Ok? && |WriteFile(TwoSections(s)).value.0| == 132
    ensures WriteFile(TwoSections(s)).value.1.sections == SizedAll([s, SYMTAB.(offset := HEADER_SIZE)])
  {
    hide HeaderFits, SectionFits, HeaderBin, PlaceAll, WriteFile, SizedAll, Header.Big, Pad, Small;
    var h := TwoSections(s).header.(shnum := 2);
    TwoHeader(s);
    var out := HeaderBin(h);
    PlaceTwo(h.Big(), out, s);
    PadNone(out);
    SmallSections(s);
    WrittenIs(TwoSections(s), h, out, [s, SYMTAB.(offset := HEADER_SIZE)]);
  }

  /** There are files that can be written and read back. */
  lemma SmallestWrites()
    ensures Readable(SMALLEST) && WriteFile(SMALLEST).Ok?
      && ReadFile(WriteFile(SMALLEST).value.0) == Ok(WriteFile(SMALLEST).value.1)
  {
    hide Readable, WriteFile, ReadFile;
    TwoReadable(SMALLEST.sections[0]);
    TwoWritten(SMALLEST.sections[0]);
    EmptyNullRoundTrip(SMALLEST);
  }
}
