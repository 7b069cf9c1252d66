/** What a written object file holds, and what reading it gives. */
module ElfLayout {
  import opened Bytes
  import opened ElfFormat
  import opened ElfFile

  /** Stored sections lie between `lo` and `hi`, aligned, in order and apart. */
  ghost predicate Laid(ss: seq<Section>, lo: int, hi: int) {
    if ss == [] then lo <= hi
    else if !ss[0].Stored() then Laid(ss[1..], lo, hi)
    else
      && lo <= ss[0].offset && (ss[0].addralign > 0 ==> ss[0].offset % ss[0].addralign == 0)
      && Laid(ss[1..], ss[0].offset + |ss[0].data|, hi)
  }

  /** `s`, and how it is placed. */
  predicate Placed(big: bool, s: Section, p: Section) {
    if s.Stored() then p.offset >= 0 && Moved(big, s, p.offset) == Ok(p) else p == s
  }

  ghost predicate AllPlaced(big: bool, ss: seq<Section>, ps: seq<Section>) {
    |ps| == |ss| && forall i :: 0 <= i < |ss| ==> Placed(big, ss[i], ps[i])
  }

  predicate Holds(file: seq<Byte>, s: Section) {
    s.Stored() ==> 0 <= s.offset && s.offset + |s.data| <= |file| && file[s.offset..s.offset + |s.data|] == s.data
  }

  ghost predicate AllHeld(file: seq<Byte>, ss: seq<Section>) {
    forall i :: 0 <= i < |ss| ==> Holds(file, ss[i])
  }

  lemma HoldsMore(file: seq<Byte>, more: seq<Byte>, s: Section)
    requires Holds(file, s) && file <= more
    ensures Holds(more, s)
  {
    if s.Stored() {
      assert more[..|file|] == file;
      assert more[s.offset..s.offset + |s.data|] == more[..|file|][s.offset..s.offset + |s.data|];
    }
  }

  lemma PlaceOne(big: bool, out: seq<Byte>, s: Section)
    requires Place(big, out, s).Ok?
    ensures var (end, p) := Place(big, out, s).value;
      && out <= end && Placed(big, s, p) && Holds(end, p) && p.Stored() == s.Stored() && p.addralign == s.addralign
      && if s.Stored() then
           && |out| <= p.offset && (p.addralign > 0 ==> p.offset % p.addralign == 0) && p.offset + |p.data| == |end|
         else end == out
  {
    hide Pad, RelocateMdebug;
  }

  lemma {:induction false} PlaceLaid(big: bool, out: seq<Byte>, ss: seq<Section>)
    requires PlaceAll(big, out, ss).Ok?
    ensures var (end, ps) := PlaceAll(big, out, ss).value;
      out <= end && Laid(ps, |out|, |end|) && AllPlaced(big, ss, ps) && AllHeld(end, ps)
    decreases |ss|
  {
    hide Place, Placed, Holds, Section.Stored;
    if ss != [] {
      var (mid, p) := Place(big, out, ss[0]).value;
      PlaceOne(big, out, ss[0]);
      PlaceLaid(big, mid, ss[1..]);
      var (end, ps) := PlaceAll(big, mid, ss[1..]).value;
      HoldsMore(mid, end, p);
      assert ([p] + ps)[1..] == ps;
    }
  }

  lemma {:induction false} LaidBounds(ss: seq<Section>, lo: int, hi: int, i: nat)
    requires Laid(ss, lo, hi) && i < |ss| && ss[i].Stored()
    ensures lo <= ss[i].offset && ss[i].offset + |ss[i].data| <= hi
    ensures ss[i].addralign > 0 ==> ss[i].offset % ss[i].addralign == 0
    decreases |ss|
  {
    if i > 0 {
      LaidBounds(ss[1..], if ss[0].Stored() then ss[0].offset + |ss[0].data| else lo, hi, i - 1);
    } else {
      LaidLimits(ss[1..], ss[0].offset + |ss[0].data|, hi);
    }
  }

  lemma {:induction false} LaidLimits(ss: seq<Section>, lo: int, hi: int)
    requires Laid(ss, lo, hi)
    ensures lo <= hi
    decreases |ss|
  {
    if ss != [] {
      LaidLimits(ss[1..], if ss[0].Stored() then ss[0].offset + |ss[0].data| else lo, hi);
    }
  }

  lemma {:induction false} LaidApart(ss: seq<Section>, lo: int, hi: int, i: nat, j: nat)
    requires Laid(ss, lo, hi) && i < j < |ss| && ss[i].Stored() && ss[j].Stored()
    ensures ss[i].offset + |ss[i].data| <= ss[j].offset
    decreases |ss|
  {
    if i > 0 {
      LaidApart(ss[1..], if ss[0].Stored() then ss[0].offset + |ss[0].data| else lo, hi, i - 1, j - 1);
    } else {
      LaidBounds(ss[1..], ss[0].offset + |ss[0].data|, hi, j - 1);
    }
  }

  /* ----- the file as a whole ----- */

  /** How a file is put together. */
  ghost predicate Composed(f: File, file: seq<Byte>, g: File, end: seq<Byte>, body: seq<Byte>, ps: seq<Section>) {
    && HeaderFits(f.header.(shnum := |f.sections|)) && HeaderFits(g.header) && |body| >= HEADER_SIZE
    && (forall s :: s in g.sections ==> SectionFits(s))
    && g.header == f.header.(shnum := |f.sections|, shoff := |body|) && g.sections == SizedAll(ps)
    && PlaceAll(f.header.Big(), HeaderBin(f.header.(shnum := |f.sections|)), f.sections) == Ok((end, ps))
    && body == Pad(end, 4)
    && file == HeaderBin(g.header) + body[HEADER_SIZE..] + Table(f.header.Big(), g.sections)
  }

  lemma Compose(f: File)
    requires WriteFile(f).Ok?
    ensures var (file, g) := WriteFile(f).value; exists end, body, ps :: Composed(f, file, g, end, body, ps)
  {
    hide HeaderFits, HeaderBin, SectionFits, Table, PlaceAll, Pad, Repeat, Size, SizedAll, SectionBin, Place;
    var h1 := f.header.(shnum := |f.sections|);
    PlaceGrows(h1.Big(), HeaderBin(h1), f.sections);
    var (end, ps) := PlaceAll(h1.Big(), HeaderBin(h1), f.sections).value;
    var (file, g) := WriteFile(f).value;
    assert Composed(f, file, g, end, Pad(end, 4), ps);
  }

  lemma BodyKept(head: seq<Byte>, body: seq<Byte>, table: seq<Byte>, s: Section)
    requires |head| == HEADER_SIZE <= |body| && Holds(body, s) && (s.Stored() ==> s.offset >= HEADER_SIZE)
    ensures Holds(head + body[HEADER_SIZE..] + table, s)
  {
    if s.Stored() {
      var file, lo, hi := head + body[HEADER_SIZE..] + table, s.offset, s.offset + |s.data|;
      assert file[lo..hi] == body[lo..hi];
    }
  }

  lemma SizedHolds(file: seq<Byte>, s: Section)
    ensures Holds(file, s.Sized()) == Holds(file, s)
  {
  }

  /** The section at `i`, as it was placed before its size was set. */
  lemma PlacedAt(f: File, file: seq<Byte>, g: File, end: seq<Byte>, body: seq<Byte>, ps: seq<Section>, i: nat)
    requires Composed(f, file, g, end, body, ps) && i < |f.sections|
    ensures |ps| == |f.sections| == |g.sections| && g.sections[i] == ps[i].Sized()
    ensures Placed(f.header.Big(), f.sections[i], ps[i]) && Holds(end, ps[i]) && end <= body
    ensures Laid(ps, HEADER_SIZE, |end|)
  {
    hide HeaderFits, HeaderBin, SectionFits, Table, PlaceAll, Repeat, Size, SectionBin, Place, Laid, Holds, Placed;
    PlaceLaid(f.header.Big(), HeaderBin(f.header.(shnum := |f.sections|)), f.sections);
  }

  lemma SameStored(big: bool, s: Section, p: Section)
    requires Placed(big, s, p)
    ensures p.Stored() == s.Stored() && p.Sized().Stored() == s.Stored() && p.kind == s.kind && p.addralign == s.addralign
    ensures p.Stored() ==> p.Sized().data == p.data && p.Sized().offset == p.offset && p.Sized().addralign == p.addralign
  {
    hide RelocateMdebug;
  }

  lemma FileSize(f: File, file: seq<Byte>, g: File, end: seq<Byte>, body: seq<Byte>, ps: seq<Section>)
    requires Composed(f, file, g, end, body, ps)
    ensures |file| == g.header.shoff + SECTION_SIZE * |g.sections| && g.header.shoff == |body| && |body| % 4 == 0
  {
    hide HeaderFits, SectionFits, PlaceAll, Repeat, Size, SectionBin, Place;
  }

  lemma FileHolds(f: File, file: seq<Byte>, g: File, end: seq<Byte>, body: seq<Byte>, ps: seq<Section>, i: nat)
    requires Composed(f, file, g, end, body, ps) && i < |f.sections|
    ensures |g.sections| == |f.sections| && Holds(file, g.sections[i])
    ensures g.sections[i].Stored() ==>
      && HEADER_SIZE <= g.sections[i].offset && g.sections[i].offset + |g.sections[i].data| <= |end| <= |body|
      && (g.sections[i].addralign > 0 ==> g.sections[i].offset % g.sections[i].addralign == 0)
  {
    PlacedAt(f, file, g, end, body, ps, i);
    SameStored(f.header.Big(), f.sections[i], ps[i]);
    var head, table := HeaderBin(g.header), Table(f.header.Big(), g.sections);
    assert file == head + body[HEADER_SIZE..] + table && |body| >= HEADER_SIZE;
    hide *;
    if ps[i].Stored() {
      LaidBounds(ps, HEADER_SIZE, |end|, i);
    }
    HoldsMore(end, body, ps[i]);
    BodyKept(head, body, table, ps[i]);
    SizedHolds(file, ps[i]);
  }

  /** Where the parts of a written file lie: the sections in order, aligned and apart, then the section headers. */
  lemma WrittenLayout(f: File, i: nat)
    ensures WriteFile(f).Ok? && i < |f.sections| ==>
      var (file, g) := WriteFile(f).value;
      && |g.sections| == |f.sections| && g.header.shoff % 4 == 0
      && |file| == g.header.shoff + SECTION_SIZE * |g.sections|
      && Holds(file, g.sections[i])
      && (g.sections[i].Stored() ==>
            && HEADER_SIZE <= g.sections[i].offset && g.sections[i].offset + |g.sections[i].data| <= g.header.shoff
            && (g.sections[i].addralign > 0 ==> g.sections[i].offset % g.sections[i].addralign == 0))
  {
    hide *;
    if WriteFile(f).Ok? && i < |f.sections| {
      var (file, g) := WriteFile(f).value;
      Compose(f);
      var end: seq<Byte>, body: seq<Byte>, ps: seq<Section> :| Composed(f, file, g, end, body, ps);
      FileSize(f, file, g, end, body, ps);
      FileHolds(f, file, g, end, body, ps, i);
    }
  }

  /** Stored sections do not overlap, and keep their order. */
  lemma WrittenApart(f: File, i: nat, j: nat)
    requires i < j < |f.sections| && f.sections[i].Stored() && f.sections[j].Stored()
    ensures WriteFile(f).Ok? ==>
      var g := WriteFile(f).value.1;
      && |g.sections| == |f.sections| && g.sections[i].Stored() && g.sections[j].Stored()
      && g.sections[i].offset + |g.sections[i].data| <= g.sections[j].offset
  {
    hide *;
    if WriteFile(f).Ok? {
      var (file, g) := WriteFile(f).value;
      Compose(f);
      var end: seq<Byte>, body: seq<Byte>, ps: seq<Section> :| Composed(f, file, g, end, body, ps);
      PlacedAt(f, file, g, end, body, ps, i);
      PlacedAt(f, file, g, end, body, ps, j);
      SameStored(f.header.Big(), f.sections[i], ps[i]);
      SameStored(f.header.Big(), f.sections[j], ps[j]);
      LaidApart(ps, HEADER_SIZE, |end|, i, j);
    }
  }
}
