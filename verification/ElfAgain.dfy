/** Moving debug data, and writing a file that was written before. */
module ElfAgain {
  import opened Bytes
  import opened ElfFormat
  import opened ElfFile
  import opened ElfLayout

  /** A moved table of debug data: every file offset moves along, and nothing else changes. */
  lemma MdebugMoves(big: bool, data: seq<Byte>, shift: int)
    requires RelocateMdebug(big, data, shift).Ok?
    ensures var moved := RelocateMdebug(big, data, shift).value;
      && |moved| == |data| >= HDRR_SIZE == Size(HDRR_FORMAT) && moved[HDRR_SIZE..] == data[HDRR_SIZE..]
      && Unpack(big, HDRR_FORMAT, moved[..HDRR_SIZE]) == ShiftOffsets(Unpack(big, HDRR_FORMAT, data[..HDRR_SIZE]), shift)
  {
    hide Repeat, Size, Pack, Unpack, InRange;
    FormatSizes();
    var ws := ShiftOffsets(Unpack(big, HDRR_FORMAT, data[..HDRR_SIZE]), shift);
    PackRoundTrip(big, HDRR_FORMAT, ws);
    var moved := RelocateMdebug(big, data, shift).value;
    assert moved == Pack(big, HDRR_FORMAT, ws) + data[HDRR_SIZE..];
    assert moved[..HDRR_SIZE] == Pack(big, HDRR_FORMAT, ws);
  }

  lemma ShiftBack(vs: seq<int>, shift: int)
    requires |vs| == 25
    ensures ShiftOffsets(ShiftOffsets(vs, shift), -shift) == vs && ShiftOffsets(vs, shift)[0] == vs[0]
  {
  }

  /** Moving back restores it. */
  lemma MdebugMovesBack(big: bool, data: seq<Byte>, shift: int)
    requires RelocateMdebug(big, data, shift).Ok?
    ensures RelocateMdebug(big, RelocateMdebug(big, data, shift).value, -shift) == Ok(data)
  {
    hide Repeat, Size, Pack, Unpack, ShiftOffsets;
    FormatSizes();
    MdebugMoves(big, data, shift);
    var vs := Unpack(big, HDRR_FORMAT, data[..HDRR_SIZE]);
    ShiftBack(vs, shift);
    UnpackRoundTrip(big, HDRR_FORMAT, data[..HDRR_SIZE]);
    assert data == data[..HDRR_SIZE] + data[HDRR_SIZE..];
  }

  lemma PadAgain(out: seq<Byte>, again: seq<Byte>, align: int)
    requires |out| == |again|
    ensures |Pad(out, align)| == |Pad(again, align)| && Pad(out, align)[|out|..] == Pad(again, align)[|out|..]
  {
  }

  /** A placed section is placed again where it is. */
  lemma PlaceOneAgain(big: bool, out: seq<Byte>, s: Section, again: seq<Byte>)
    requires Place(big, out, s).Ok? && |again| == |out|
    ensures var (end, p) := Place(big, out, s).value;
      && Place(big, again, p.Sized()).Ok? && Place(big, again, p.Sized()).value.1 == p.Sized()
      && out <= end && Place(big, again, p.Sized()).value.0 == again + end[|out|..]
  {
    hide RelocateMdebug, Pad;
    PadAgain(out, again, s.addralign);
    var padded := Pad(again, s.addralign);
    assert padded == again + padded[|again|..];
    var (end, p) := Place(big, out, s).value;
    if s.Stored() {
      var was := Pad(out, s.addralign);
      assert end[|out|..] == was[|out|..] + p.data;
      assert padded + p.data == again + (padded[|again|..] + p.data);
    } else {
      assert again == again + end[|out|..];
    }
  }

  lemma {:induction false} PlaceAllAgain(big: bool, out: seq<Byte>, ss: seq<Section>, again: seq<Byte>)
    requires PlaceAll(big, out, ss).Ok? && |again| == |out|
    ensures var (end, ps) := PlaceAll(big, out, ss).value;
      out <= end && PlaceAll(big, again, SizedAll(ps)) == Ok((again + end[|out|..], SizedAll(ps)))
    decreases |ss|
  {
    hide Place, Section.Sized;
    if ss == [] {
      assert again == again + out[|out|..] && SizedAll([]) == [];
    } else {
      var (mid, p) := Place(big, out, ss[0]).value;
      PlaceOneAgain(big, out, ss[0], again);
      var more := again + mid[|out|..];
      PlaceAllAgain(big, mid, ss[1..], more);
      var (end, ps) := PlaceAll(big, mid, ss[1..]).value;
      assert SizedAll([p] + ps) == [p.Sized()] + SizedAll(ps);
      assert ([p.Sized()] + SizedAll(ps))[1..] == SizedAll(ps);
      assert more + end[|mid|..] == again + end[|out|..];
    }
  }

  lemma SizedTwice(ss: seq<Section>)
    ensures SizedAll(SizedAll(ss)) == SizedAll(ss)
  {
  }

  lemma WriteComposed(f: File, file: seq<Byte>, g: File, end: seq<Byte>, body: seq<Byte>, ps: seq<Section>)
    requires Composed(f, file, g, end, body, ps)
    ensures WriteFile(f) == Ok((file, g))
  {
    hide HeaderFits, HeaderBin, SectionFits, Table, PlaceAll, Pad, Repeat, Size, SizedAll, SectionBin, Place;
    var h1 := f.header.(shnum := |f.sections|);
    PlaceGrows(h1.Big(), HeaderBin(h1), f.sections);
  }

  /** Writing what was written gives the same file, and moves nothing. */
  lemma WriteAgain(f: File)
    requires WriteFile(f).Ok?
    ensures WriteFile(WriteFile(f).value.1) == WriteFile(f)
  {
    hide HeaderFits, HeaderBin, SectionFits, Table, PlaceAll, Pad, Repeat, Size, SizedAll, SectionBin, Place, WriteFile;
    var (file, g) := WriteFile(f).value;
    Compose(f);
    var end: seq<Byte>, body: seq<Byte>, ps: seq<Section> :| Composed(f, file, g, end, body, ps);
    var head, again := HeaderBin(f.header.(shnum := |f.sections|)), HeaderBin(g.header);
    PlaceAllAgain(f.header.Big(), head, f.sections, again);
    var end2 := again + end[HEADER_SIZE..];
    PadAgain(end, end2, 4);
    var body2 := Pad(end2, 4);
    BodyAgain(head, again, end, end2, body, body2);
    assert g.header.(shnum := |g.sections|) == g.header;
    SizedTwice(ps);
    assert Composed(g, file, g, end2, body2, g.sections);
    WriteComposed(g, file, g, end2, body2, g.sections);
  }

  lemma BodyAgain(head: seq<Byte>, again: seq<Byte>, end: seq<Byte>, end2: seq<Byte>, body: seq<Byte>, body2: seq<Byte>)
    requires |head| == |again| == HEADER_SIZE <= |end| && end2 == again + end[HEADER_SIZE..]
    requires body == Pad(end, 4) && body2 == Pad(end2, 4)
    ensures |body| == |body2| && body[HEADER_SIZE..] == body2[HEADER_SIZE..]
  {
    hide Pad;
    PadAgain(end, end2, 4);
    assert body == end + body[|end|..] && body2 == end2 + body2[|end|..];
    assert body2[HEADER_SIZE..] == end[HEADER_SIZE..] + body2[|end|..];
  }
}
