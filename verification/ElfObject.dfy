/** The object file as its reader and its writer handle it. */
module ElfObject {
  import opened Bytes
  import opened ElfFormat
  import opened ElfFile
  import opened ElfParsed

  /** `r`, with the sections that were placed before. */
  function After(done: seq<Section>, r: Result<(seq<Byte>, seq<Section>)>): Result<(seq<Byte>, seq<Section>)> {
    if r.Failed? then Failed else Ok((r.value.0, done + r.value.1))
  }

  lemma AfterNone(r: Result<(seq<Byte>, seq<Section>)>)
    ensures After([], r) == r
  {
    if r.Ok? {
      assert [] + r.value.1 == r.value.1;
    }
  }

  lemma PlaceNext(big: bool, out: seq<Byte>, done: seq<Section>, ss: seq<Section>)
    requires ss != []
    ensures var p := Place(big, out, ss[0]);
      After(done, PlaceAll(big, out, ss)) ==
      if p.Failed? then Failed else After(done + [p.value.1], PlaceAll(big, p.value.0, ss[1..]))
  {
    hide Place;
    var p := Place(big, out, ss[0]);
    if p.Ok? && PlaceAll(big, p.value.0, ss[1..]).Ok? {
      var rest := PlaceAll(big, p.value.0, ss[1..]).value.1;
      assert done + ([p.value.1] + rest) == (done + [p.value.1]) + rest;
    }
  }

  lemma PlaceNone(big: bool, out: seq<Byte>)
    ensures PlaceAll(big, out, []) == Ok((out, []))
  {
  }

  ghost predicate AllFit(ss: seq<Section>) { forall s :: s in ss ==> SectionFits(s) }

  ghost predicate IsTable(out: seq<Byte>, big: bool, ss: seq<Section>) { AllFit(ss) && out == Table(big, ss) }

  class ObjectFile {
    var header: Header
    var sections: seq<Section>

    constructor (f: File)
      ensures header == f.header && sections == f.sections
    {
      header, sections := f.header, f.sections;
    }

    /** The contents of the sections behind the header, each section set to where it was put. */
    method WriteContents(head: seq<Byte>) returns (r: Result<seq<Byte>>)
      modifies `sections
      ensures var p := PlaceAll(header.Big(), head, old(sections));
        if p.Failed? then r.Failed? else r == Ok(p.value.0) && sections == p.value.1
    {
      ghost var was := sections;
      var out, big := head, header.Big();
      hide Place, PlaceAll, Header.Big;
      assert was[0..] == was && sections[..0] == [];
      AfterNone(PlaceAll(big, head, was));
      for i := 0 to |sections|
        invariant |sections| == |was| && sections[i..] == was[i..]
        invariant PlaceAll(big, head, was) == After(sections[..i], PlaceAll(big, out, was[i..]))
      {
        PlaceNext(big, out, sections[..i], was[i..]);
        assert was[i..][1..] == was[i + 1..] && was[i..][0] == sections[i];
        var p := Place(big, out, sections[i]);
        if p.Failed? {
          return Failed;
        }
        ghost var done := sections[..i];
        sections := sections[i := p.value.1];
        assert sections[..i + 1] == done + [p.value.1];
        out := p.value.0;
      }
      PlaceNone(big, out);
      assert sections[..|sections|] + [] == sections;
      r := Ok(out);
    }

    /** The section headers, each section set to the size of its contents. */
    method WriteHeaders() returns (r: Result<seq<Byte>>)
      modifies `sections
      ensures r.Ok? <==> AllFit(SizedAll(old(sections)))
      ensures r.Ok? ==> sections == SizedAll(old(sections)) && r.value == Table(header.Big(), sections)
    {
      var out: seq<Byte> := [];
      var big := header.Big();
      ghost var was := sections;
      hide Table, SectionFits, SectionBin, AllFit, IsTable, SizedAll, Section.Sized, Header.Big;
      TableNone(big, was);
      for i := 0 to |sections|
        invariant |sections| == |was| && sections[i..] == was[i..] && sections[..i] == SizedAll(was)[..i]
        invariant IsTable(out, big, sections[..i])
      {
        var s := sections[i].Sized();
        assert sections[i] == was[i];
        if !SectionFits(s) {
          Misfit(SizedAll(was), i);
          return Failed;
        }
        TableNext(out, big, sections[..i], s);
        ghost var done := sections[..i];
        sections := sections[i := s];
        assert sections[..i + 1] == done + [s];
        out := out + SectionBin(big, s);
      }
      assert SizedAll(was)[..|was|] == SizedAll(was) && sections[..|sections|] == sections;
      TableDone(out, big, sections);
      r := Ok(out);
    }

    /** Fails, leaving the object in no particular state, when a field does not fit its place or debug data cannot move. */
    method Write() returns (r: Result<seq<Byte>>)
      modifies this
      ensures var w := WriteFile(old(File(header, sections)));
        if w.Failed? then r.Failed? else r == Ok(w.value.0) && File(header, sections) == w.value.1
    {
      hide HeaderFits, HeaderBin, SectionFits, Table, PlaceAll, Pad, Repeat, Size, SizedAll, SectionBin, Place;
      header := header.(shnum := |sections|);
      if !HeaderFits(header) {
        return Failed;
      }
      var head := HeaderBin(header);
      PlaceGrows(header.Big(), head, sections);
      var contents := WriteContents(head);
      if contents.Failed? {
        return Failed;
      }
      var out := Pad(contents.value, 4);
      header := header.(shoff := |out|);
      var table := WriteHeaders();
      if table.Failed? || !HeaderFits(header) {
        return Failed;
      }
      r := Ok(HeaderBin(header) + out[HEADER_SIZE..] + table.value);
    }
  }

  lemma TableNone(big: bool, was: seq<Section>)
    ensures IsTable([], big, []) && |SizedAll(was)| == |was|
  {
  }

  lemma TableDone(out: seq<Byte>, big: bool, ss: seq<Section>)
    requires IsTable(out, big, ss)
    ensures AllFit(ss) && out == Table(big, ss)
  {
  }

  lemma Misfit(ss: seq<Section>, i: nat)
    requires i < |ss| && !SectionFits(ss[i])
    ensures !AllFit(ss)
  {
    hide SectionFits;
    assert ss[i] in ss;
  }

  lemma TableNext(out: seq<Byte>, big: bool, ss: seq<Section>, s: Section)
    requires IsTable(out, big, ss) && SectionFits(s)
    ensures IsTable(out + SectionBin(big, s), big, ss + [s])
  {
    hide SectionFits, SectionBin, Repeat, Size;
    var more := ss + [s];
    assert more[..|more| - 1] == ss && more[|more| - 1] == s;
    assert AllFit(more);
  }

  lemma ReadsAs(file: seq<Byte>)
    ensures forall f :: ReadFile(file) == Ok(f) <==> Parsed(file, f)
  {
    hide ReadFile, Parsed;
    forall f ensures ReadFile(file) == Ok(f) <==> Parsed(file, f) {
      ReadIs(file, f);
    }
  }

  /** Reads a file, or fails where the source's assertions do. */
  method ReadObject(file: seq<Byte>) returns (r: Result<File>)
    ensures r == ReadFile(file)
    ensures forall f :: r == Ok(f) <==> Parsed(file, f)
  {
    hide ReadHeader, SectionAt, Symtabs, Parsed;
    ReadsAs(file);
    var read := ReadHeader(Slice(file, 0, HEADER_SIZE));
    if Slice(file, 0, 4) != IDENT || read.Failed? {
      return Failed;
    }
    HeaderRanges(Slice(file, 0, HEADER_SIZE));
    var h := read.value;
    var first := SectionAt(file, h, 0);
    if first.Failed? {
      return Failed;
    }
    var count := Count(h, first.value);
    var ss := [first.value];
    for i := 1 to count
      invariant if ReadFrom(file, h, i, count).Failed? then ReadFrom(file, h, 0, count).Failed?
                else ReadFrom(file, h, 0, count) == Ok(ss + ReadFrom(file, h, i, count).value)
    {
      var s := SectionAt(file, h, i);
      if s.Failed? {
        return Failed;
      }
      ghost var rest := ReadFrom(file, h, i + 1, count);
      assert rest.Ok? ==> ss + ([s.value] + rest.value) == (ss + [s.value]) + rest.value;
      ss := ss + [s.value];
    }
    assert ss + [] == ss;
    if Symtabs(ss) != 1 || h.shstrndx >= |ss| {
      return Failed;
    }
    r := Ok(File(h, ss));
  }
}
