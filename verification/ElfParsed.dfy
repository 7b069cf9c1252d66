/** What the reader accepts, from the bytes of the file alone. */
module ElfParsed {
  import opened Bytes
  import opened ElfFormat
  import opened ElfFile
  import opened ElfBytes

  /** The bytes from `at` on, as many as `n`, or as there are. */
  ghost predicate Taken(file: seq<Byte>, at: nat, n: nat, b: seq<Byte>) {
    && |b| == (if at >= |file| then 0 else if at + n <= |file| then n else |file| - at)
    && forall k :: 0 <= k < |b| ==> b[k] == file[at + k]
  }

  /** No link order is asked for, and entries fill the section; contents are cut short where the file is. */
  ghost predicate SectionParsed(big: bool, b: seq<Byte>, file: seq<Byte>, s: Section) {
    && SectionLaid(big, s, b)
    && s.flags % 0x100 < 0x80 && (s.entsize == 0 || s.size % s.entsize == 0)
    && s.offset >= 0 && s.size >= 0
    && if s.kind == 8 then s.data == [] else Taken(file, s.offset, s.size, s.data)
  }

  /** A relocatable MIPS object of 32 bits, without program headers. */
  ghost predicate HeaderParsed(file: seq<Byte>, h: Header) {
    && |file| >= 52 && file[..4] == [0x7F, 0x45, 0x4C, 0x46] && file[4] == 1
    && HeaderLaid(h, file[..52])
    && h.kind == 1 && h.machine == 8 && h.phoff == 0 && h.shoff != 0 && h.shstrndx != 0
  }

  /** Section `i` is read from the 40 bytes at its place in the table; the last one may be followed by less than its share. */
  ghost predicate EntryParsed(file: seq<Byte>, h: Header, i: nat, s: Section) {
    && h.shoff >= 0 && h.shentsize >= 0
    && var at := h.shoff + i * h.shentsize;
       && at + 40 <= |file| && (h.shentsize == 40 || (h.shentsize > 40 && |file| == at + 40))
       && SectionParsed(file[5] == 2, file[at..at + 40], file, s)
  }

  ghost predicate OnlySymtab(ss: seq<Section>, i: int) {
    0 <= i < |ss| && ss[i].kind == 2 && forall j :: 0 <= j < |ss| && j != i ==> ss[j].kind != 2
  }

  ghost predicate OneSymtab(ss: seq<Section>) { exists i :: OnlySymtab(ss, i) }

  ghost predicate Parsed(file: seq<Byte>, f: File) {
    && HeaderParsed(file, f.header)
    && |f.sections| > 0
    && |f.sections| == (if f.header.shnum != 0 then f.header.shnum else if f.sections[0].size != 0 then f.sections[0].size else 1)
    && (forall i :: 0 <= i < |f.sections| ==> EntryParsed(file, f.header, i, f.sections[i]))
    && OneSymtab(f.sections) && f.header.shstrndx < |f.sections|
  }

  /* ----- one section ----- */

  lemma SliceIs(file: seq<Byte>, at: nat, n: nat, b: seq<Byte>)
    ensures Slice(file, at, at + n) == b <==> Taken(file, at, n, b)
  {
    var t := Slice(file, at, at + n);
    if Taken(file, at, n, b) {
      assert |t| == |b| && forall k :: 0 <= k < |b| ==> b[k] == t[k];
    }
  }

  lemma LinkOrderIs(flags: nat)
    ensures flags / 0x80 % 2 == 0 <==> flags % 0x100 < 0x80
  {
  }

  lemma SectionFields(big: bool, b: seq<Byte>, s: Section)
    requires |b| == 40 == Size(SECTION_FORMAT)
    ensures SectionLaid(big, s, b) <==> Unpack(big, SECTION_FORMAT, b) == s.Fields()
  {
    hide Repeat, Size, WordAt, Unpack;
    FormatSizes();
    SectionWord(big, b, 0);
    SectionWord(big, b, 1);
    SectionWord(big, b, 2);
    SectionWord(big, b, 3);
    SectionWord(big, b, 4);
    SectionWord(big, b, 5);
    SectionWord(big, b, 6);
    SectionWord(big, b, 7);
    SectionWord(big, b, 8);
    SectionWord(big, b, 9);
  }

  lemma SectionIs(big: bool, b: seq<Byte>, file: seq<Byte>, s: Section)
    ensures ReadSection(big, b, file) == Ok(s) <==> |b| == 40 && SectionParsed(big, b, file, s)
  {
    hide Repeat, Size, Unpack, Slice, Taken, SectionLaid, InRange;
    FormatSizes();
    if |b| == 40 {
      SectionFields(big, b, s);
      SectionRanges(big, b);
      var vs := Unpack(big, SECTION_FORMAT, b);
      LinkOrderIs(vs[2]);
      SliceIs(file, vs[4], vs[5], s.data);
    }
  }

  lemma SectionRanges(big: bool, b: seq<Byte>)
    requires |b| == 40 == Size(SECTION_FORMAT)
    ensures var vs := Unpack(big, SECTION_FORMAT, b); |vs| == 10 && forall i :: 0 <= i < 10 ==> vs[i] >= 0
  {
    hide Repeat, Size, Unpack;
    FormatSizes();
    var vs := Unpack(big, SECTION_FORMAT, b);
    forall i | 0 <= i < 10 ensures vs[i] >= 0 {
      assert InRange(SECTION_FORMAT[i], vs[i]);
    }
  }

  lemma EntryParsedIs(file: seq<Byte>, h: Header, i: nat, s: Section)
    requires h.shoff >= 0 && h.shentsize >= 0 && |file| > 5 && (h.Big() <==> file[5] == 2)
    ensures SectionAt(file, h, i) == Ok(s) <==> EntryParsed(file, h, i, s)
  {
    hide SectionParsed, ReadSection;
    var at := h.shoff + i * h.shentsize;
    var b := Slice(file, at, at + h.shentsize);
    SectionIs(h.Big(), b, file, s);
    if at + 40 <= |file| && |b| == 40 {
      assert b == file[at..at + 40];
    }
  }

  /* ----- the header ----- */

  lemma HeaderFieldsIs(s: seq<Byte>, h: Header)
    requires |s| == 52 && |s[16..]| == Size(HEADER_FORMAT)
    ensures HeaderLaid(h, s) <==> HeaderOf(s[..16], Unpack(s[5] == 2, HEADER_FORMAT, s[16..])) == h
  {
    hide Repeat, Size, HeaderLaid, FieldsLaid, Unpack;
    var big, vs := s[5] == 2, Unpack(s[5] == 2, HEADER_FORMAT, s[16..]);
    HeaderFields(big, s[16..]);
    var g := HeaderOf(s[..16], vs);
    FieldsAre(g, vs, s[..16]);
    assert s[..16][5] == s[5] && s == s[..16] + s[16..];
    HeaderOfFields(big, g, s[16..]);
    if HeaderLaid(h, s) {
      LaidOnce(g, h, s);
    }
  }

  lemma LaidOnce(g: Header, h: Header, s: seq<Byte>)
    requires HeaderLaid(g, s) && HeaderLaid(h, s)
    ensures g == h
  {
    hide HalfAt, WordAt;
  }

  lemma HeaderIs(file: seq<Byte>, h: Header)
    ensures Slice(file, 0, 4) == IDENT && ReadHeader(Slice(file, 0, 52)) == Ok(h) <==> HeaderParsed(file, h)
  {
    hide Repeat, Size, HeaderLaid, Unpack;
    FormatSizes();
    if |file| >= 52 {
      var s := Slice(file, 0, 52);
      assert s == file[..52] && Slice(file, 0, 4) == file[..4];
      HeaderFieldsIs(s, h);
    }
  }

  /* ----- the sections ----- */

  /** Sections `i` up to `n`, in their order. */
  lemma {:induction false} SectionsParsed(file: seq<Byte>, h: Header, i: nat, n: nat, ss: seq<Section>)
    requires i <= n && h.shoff >= 0 && h.shentsize >= 0 && |file| > 5 && (h.Big() <==> file[5] == 2)
    ensures ReadFrom(file, h, i, n) == Ok(ss) <==>
      |ss| == n - i && forall k :: 0 <= k < |ss| ==> EntryParsed(file, h, i + k, ss[k])
    decreases n - i
  {
    hide SectionAt, EntryParsed, Header.Big;
    if i < n {
      NextRead(file, h, i, n, ss);
      if ss != [] {
        SectionsParsed(file, h, i + 1, n, ss[1..]);
        EntryParsedIs(file, h, i, ss[0]);
        SectionsNext(file, h, i, ss);
      }
    }
  }

  lemma NextRead(file: seq<Byte>, h: Header, i: nat, n: nat, ss: seq<Section>)
    requires i < n && h.shoff >= 0 && h.shentsize >= 0
    ensures ReadFrom(file, h, i, n) == Ok(ss) <==>
      ss != [] && SectionAt(file, h, i) == Ok(ss[0]) && ReadFrom(file, h, i + 1, n) == Ok(ss[1..])
  {
    hide SectionAt;
    if ss != [] {
      assert ss == [ss[0]] + ss[1..];
    }
  }

  lemma SectionsNext(file: seq<Byte>, h: Header, i: nat, ss: seq<Section>)
    requires ss != []
    ensures (forall k :: 0 <= k < |ss| ==> EntryParsed(file, h, i + k, ss[k])) <==>
      EntryParsed(file, h, i, ss[0]) && forall k :: 0 <= k < |ss[1..]| ==> EntryParsed(file, h, i + 1 + k, ss[1..][k])
  {
    hide EntryParsed;
    if EntryParsed(file, h, i, ss[0]) && forall k :: 0 <= k < |ss[1..]| ==> EntryParsed(file, h, i + 1 + k, ss[1..][k]) {
      forall k | 0 <= k < |ss| ensures EntryParsed(file, h, i + k, ss[k]) {
        if k > 0 {
          assert EntryParsed(file, h, i + 1 + (k - 1), ss[1..][k - 1]);
        }
      }
    }
    if forall k :: 0 <= k < |ss| ==> EntryParsed(file, h, i + k, ss[k]) {
      assert EntryParsed(file, h, i + 0, ss[0]);
      forall k | 0 <= k < |ss[1..]| ensures EntryParsed(file, h, i + 1 + k, ss[1..][k]) {
        assert EntryParsed(file, h, i + (k + 1), ss[k + 1]);
      }
    }
  }

  lemma {:induction false} NoSymtab(ss: seq<Section>)
    ensures Symtabs(ss) == 0 <==> forall i :: 0 <= i < |ss| ==> ss[i].kind != 2
  {
    if ss != [] {
      NoSymtab(ss[..|ss| - 1]);
    }
  }

  lemma OneMore(front: seq<Section>, s: Section)
    ensures OneSymtab(front + [s]) <==>
      if s.kind == 2 then forall i :: 0 <= i < |front| ==> front[i].kind != 2 else OneSymtab(front)
  {
    var ss := front + [s];
    assert ss[|front|] == s && forall j :: 0 <= j < |front| ==> ss[j] == front[j];
    if OneSymtab(ss) {
      var i :| OnlySymtab(ss, i);
      if s.kind == 2 {
        assert i == |front|;
      } else {
        assert OnlySymtab(front, i);
      }
    }
    if s.kind == 2 && forall i :: 0 <= i < |front| ==> front[i].kind != 2 {
      assert OnlySymtab(ss, |front|);
    }
    if s.kind != 2 && OneSymtab(front) {
      var i :| OnlySymtab(front, i);
      assert OnlySymtab(ss, i);
    }
  }

  lemma {:induction false} OneSymtabIs(ss: seq<Section>)
    ensures Symtabs(ss) == 1 <==> OneSymtab(ss)
  {
    if ss != [] {
      hide OneSymtab;
      var front, s := ss[..|ss| - 1], ss[|ss| - 1];
      OneSymtabIs(front);
      NoSymtab(front);
      OneMore(front, s);
      assert ss == front + [s];
    }
  }

  /* ----- the file ----- */

  /** Reading gives exactly what the bytes say, and fails exactly if they say no file that is accepted. */
  lemma ReadIs(file: seq<Byte>, f: File)
    ensures ReadFile(file) == Ok(f) <==> Parsed(file, f)
  {
    hide Slice, Symtabs, OneSymtab, SectionAt, ReadHeader, ReadFrom, HeaderParsed, EntryParsed;
    var h, ss := f.header, f.sections;
    HeaderIs(file, h);
    OneSymtabIs(ss);
    if HeaderParsed(file, h) {
      HeaderRanges(Slice(file, 0, 52));
      EndianIs(file, h);
      FirstIs(file, f);
    }
  }

  lemma EndianIs(file: seq<Byte>, h: Header)
    requires HeaderParsed(file, h)
    ensures |file| > 5 && (h.Big() <==> file[5] == 2)
  {
    hide HalfAt, WordAt;
    assert h.ident[5] == file[..52][..16][5] == file[5];
  }

  /** The sections are read up to the count that the header or the first section gives. */
  lemma FirstIs(file: seq<Byte>, f: File)
    requires var h := f.header; h.shoff >= 0 && h.shentsize >= 0 && h.shnum >= 0 && |file| > 5 && (h.Big() <==> file[5] == 2)
    ensures var h, ss := f.header, f.sections; var first := SectionAt(file, h, 0);
      first.Ok? && ReadFrom(file, h, 0, Count(h, first.value)) == Ok(ss) <==>
        |ss| > 0 && |ss| == (if h.shnum != 0 then h.shnum else if ss[0].size != 0 then ss[0].size else 1)
        && forall i :: 0 <= i < |ss| ==> EntryParsed(file, h, i, ss[i])
  {
    hide SectionAt, EntryParsed, Header.Big;
    var h, ss := f.header, f.sections;
    var first := SectionAt(file, h, 0);
    if first.Ok? {
      EntryParsedIs(file, h, 0, first.value);
      SectionsParsed(file, h, 0, Count(h, first.value), ss);
      if ss != [] {
        EntryParsedIs(file, h, 0, ss[0]);
      }
    } else if ss != [] {
      EntryParsedIs(file, h, 0, ss[0]);
    }
  }
}
