/** What of a file's sections the writer keeps, and what it loses: the contents of sections of type SHT_NULL. */
module ElfKept {
  import opened Bytes
  import opened ElfFormat
  import opened ElfFile
  import opened ElfLayout
  import opened ElfReread
  import opened ElfAgain

  /* ----- kept ----- */

  /** Only offset and size are updated, and the contents of a .mdebug section that has moved. */
  predicate KeptSection(big: bool, s: Section, t: Section) {
    && t == s.(offset := t.offset, size := t.size, data := t.data)
    && t.size == (if s.kind == SHT_NOBITS then s.size else |s.data|)
    && (!s.Stored() ==> t.offset == s.offset)
    && if s.kind == SHT_MIPS_DEBUG && t.offset != s.offset then RelocateMdebug(big, s.data, t.offset - s.offset) == Ok(t.data)
       else t.data == s.data
  }

  ghost predicate KeptFile(f: File, g: File) {
    && g.header == f.header.(shnum := |f.sections|, shoff := g.header.shoff)
    && |g.sections| == |f.sections|
    && forall i :: 0 <= i < |f.sections| ==> KeptSection(f.header.Big(), f.sections[i], g.sections[i])
  }

  lemma PlacedIsKept(big: bool, s: Section, p: Section)
    requires Placed(big, s, p)
    ensures KeptSection(big, s, p.Sized())
  {
    hide RelocateMdebug;
  }

  lemma ComposedHeader(f: File, file: seq<Byte>, g: File, end: seq<Byte>, body: seq<Byte>, ps: seq<Section>)
    requires Composed(f, file, g, end, body, ps)
    ensures g.header == f.header.(shnum := |f.sections|, shoff := g.header.shoff) && |g.sections| == |f.sections|
  {
    hide HeaderFits, HeaderBin, SectionFits, Table, PlaceAll, Repeat, Size, SectionBin, Place, Pad;
  }

  /** What the writer writes is the file that it was given. */
  lemma WriteKeeps(f: File)
    ensures WriteFile(f).Ok? ==> KeptFile(f, WriteFile(f).value.1)
  {
    hide *;
    if WriteFile(f).Ok? {
      var (file, g) := WriteFile(f).value;
      Compose(f);
      var end: seq<Byte>, body: seq<Byte>, ps: seq<Section> :| Composed(f, file, g, end, body, ps);
      ComposedHeader(f, file, g, end, body, ps);
      forall i | 0 <= i < |f.sections| ensures KeptSection(f.header.Big(), f.sections[i], g.sections[i]) {
        PlacedAt(f, file, g, end, body, ps, i);
        PlacedIsKept(f.header.Big(), f.sections[i], ps[i]);
      }
      FileIsKept(f, g);
    }
  }

  lemma FileIsKept(f: File, g: File)
    requires g.header == f.header.(shnum := |f.sections|, shoff := g.header.shoff) && |g.sections| == |f.sections|
    requires forall i :: 0 <= i < |f.sections| ==> KeptSection(f.header.Big(), f.sections[i], g.sections[i])
    ensures KeptFile(f, g)
  {
    hide KeptSection;
  }

  /** Writing a file and reading it gives the file: header, section headers and contents. */
  ghost predicate ComesBack(f: File) {
    WriteFile(f).Ok? ==> exists g :: ReadFile(WriteFile(f).value.0) == Ok(g) && KeptFile(f, g)
  }

  /** It does exactly if what is read is what the writer was left with. */
  lemma ComesBackIff(f: File)
    requires Readable(f)
    ensures WriteFile(f).Ok? ==> (ComesBack(f) <==> ReadFile(WriteFile(f).value.0) == Ok(WriteFile(f).value.1))
  {
    hide WriteFile, ReadFile, Readable, RereadAll, KeptFile;
    WriteKeeps(f);
    if WriteFile(f).Ok? && ComesBack(f) {
      var (file, g) := WriteFile(f).value;
      WrittenReads(f);
      var r :| ReadFile(file) == Ok(r) && KeptFile(f, r);
      SameContents(f, g, r, file);
    }
  }

  /** What is read can differ from what was written in contents alone, and those are the file's own. */
  lemma SameContents(f: File, g: File, r: File, file: seq<Byte>)
    requires (forall s :: s in g.sections ==> s.offset >= 0 && s.size >= 0)
    requires r == File(g.header, RereadAll(file, g.sections)) && KeptFile(f, g) && KeptFile(f, r)
    ensures r == g
  {
    hide RelocateMdebug, Slice;
    forall i | 0 <= i < |g.sections| ensures r.sections[i] == g.sections[i] {
      assert KeptSection(f.header.Big(), f.sections[i], g.sections[i]);
      assert KeptSection(f.header.Big(), f.sections[i], r.sections[i]);
      assert r.sections[i] == Reread(file, g.sections[i]);
    }
  }

  /* ----- lost ----- */

  /** The same section, or another one of type SHT_NULL with contents of the same length. */
  predicate Alike(s: Section, t: Section) {
    if s.kind == SHT_NULL then t == s.(data := t.data) && |t.data| == |s.data| else t == s
  }

  ghost predicate AllAlike(ss: seq<Section>, ts: seq<Section>) {
    |ss| == |ts| && forall i :: 0 <= i < |ss| ==> Alike(ss[i], ts[i])
  }

  /** Files that differ in the contents of sections of type SHT_NULL alone. */
  ghost predicate SameButNull(f: File, g: File) {
    f.header == g.header && AllAlike(f.sections, g.sections)
  }

  lemma PlaceOneAlike(big: bool, out: seq<Byte>, s: Section, t: Section)
    requires Alike(s, t)
    ensures Place(big, out, s).Ok? <==> Place(big, out, t).Ok?
    ensures Place(big, out, s).Ok? ==>
      Place(big, out, s).value.0 == Place(big, out, t).value.0 && Alike(Place(big, out, s).value.1, Place(big, out, t).value.1)
  {
    hide Pad, RelocateMdebug;
  }

  lemma {:induction false} PlaceAlike(big: bool, out: seq<Byte>, ss: seq<Section>, ts: seq<Section>)
    requires AllAlike(ss, ts)
    ensures PlaceAll(big, out, ss).Ok? ==>
      && PlaceAll(big, out, ts).Ok?
      && PlaceAll(big, out, ss).value.0 == PlaceAll(big, out, ts).value.0
      && AllAlike(PlaceAll(big, out, ss).value.1, PlaceAll(big, out, ts).value.1)
    decreases |ss|
  {
    hide Place, Alike;
    if ss != [] {
      PlaceOneAlike(big, out, ss[0], ts[0]);
      if Place(big, out, ss[0]).Ok? {
        PlaceAlike(big, Place(big, out, ss[0]).value.0, ss[1..], ts[1..]);
      }
    }
  }

  lemma SizedAlike(ss: seq<Section>, ts: seq<Section>)
    requires AllAlike(ss, ts)
    ensures AllAlike(SizedAll(ss), SizedAll(ts))
  {
    forall i | 0 <= i < |ss| ensures Alike(SizedAll(ss)[i], SizedAll(ts)[i]) {
      assert Alike(ss[i], ts[i]);
    }
  }

  lemma {:induction false} TableAlike(big: bool, ss: seq<Section>, ts: seq<Section>)
    requires AllAlike(ss, ts) && forall s :: s in ss ==> SectionFits(s)
    ensures forall t :: t in ts ==> SectionFits(t)
    ensures Table(big, ss) == Table(big, ts)
    decreases |ss|
  {
    hide Repeat, Size, Pack, Packable;
    forall i | 0 <= i < |ss| ensures SectionFits(ts[i]) {
      assert ss[i] in ss && Alike(ss[i], ts[i]);
      assert ts[i].Fields() == ss[i].Fields();
    }
    if ss != [] {
      var n := |ss| - 1;
      assert Alike(ss[n], ts[n]);
      assert ts[n].Fields() == ss[n].Fields();
      TableAlike(big, ss[..n], ts[..n]);
    }
  }

  /** What a section of type SHT_NULL holds has no effect on what is written. */
  lemma NullNotWritten(f: File, f2: File)
    requires SameButNull(f, f2)
    ensures WriteFile(f).Ok? ==> WriteFile(f2).Ok? && WriteFile(f2).value.0 == WriteFile(f).value.0
  {
    hide HeaderFits, HeaderBin, SectionFits, Table, PlaceAll, Pad, Repeat, Size, SizedAll, SectionBin, Place, WriteFile;
    if WriteFile(f).Ok? {
      var (file, g) := WriteFile(f).value;
      Compose(f);
      var end: seq<Byte>, body: seq<Byte>, ps: seq<Section> :| Composed(f, file, g, end, body, ps);
      var big, head := f.header.Big(), HeaderBin(f.header.(shnum := |f.sections|));
      PlaceAlike(big, head, f.sections, f2.sections);
      var qs := PlaceAll(big, head, f2.sections).value.1;
      SizedAlike(ps, qs);
      TableAlike(big, SizedAll(ps), SizedAll(qs));
      var g2 := File(g.header, SizedAll(qs));
      assert Composed(f2, file, g2, end, body, qs);
      WriteComposed(f2, file, g2, end, body, qs);
    }
  }

  ghost predicate NullsEmpty(f: File) {
    forall s :: s in f.sections && s.kind == SHT_NULL ==> s.data == []
  }

  /** Contents of a section of type SHT_NULL that come back are those that the file has. */
  lemma NullContents(f: File, g: File, i: nat)
    requires KeptFile(f, g) && i < |f.sections| && f.sections[i].kind == SHT_NULL
    ensures g.sections[i].data == f.sections[i].data
  {
    assert KeptSection(f.header.Big(), f.sections[i], g.sections[i]);
  }

  function OtherByte(b: Byte): Byte { if b == 0 then 1 else 0 }

  /** `f` with other contents in section `i`. */
  function Changed(f: File, i: nat): File
    requires i < |f.sections| && f.sections[i].data != []
  {
    var s := f.sections[i];
    f.(sections := f.sections[i := s.(data := s.data[0 := OtherByte(s.data[0])])])
  }

  lemma ChangedIsAlike(f: File, i: nat)
    requires i < |f.sections| && f.sections[i].kind == SHT_NULL && f.sections[i].data != []
    ensures SameButNull(f, Changed(f, i)) && i < |Changed(f, i).sections|
    ensures Changed(f, i).sections[i].kind == SHT_NULL && Changed(f, i).sections[i].data != f.sections[i].data
  {
    var s, t := f.sections[i], Changed(f, i).sections[i];
    assert t.data[0] != s.data[0];
  }

  /** At most one content of a section of type SHT_NULL can come back. */
  lemma NullLost(f: File, i: nat)
    requires i < |f.sections| && f.sections[i].kind == SHT_NULL && f.sections[i].data != []
    ensures WriteFile(f).Ok? ==> !(ComesBack(f) && ComesBack(Changed(f, i)))
  {
    hide WriteFile, ReadFile, KeptFile, Changed;
    ChangedIsAlike(f, i);
    NullNotWritten(f, Changed(f, i));
    if WriteFile(f).Ok? && ComesBack(f) && ComesBack(Changed(f, i)) {
      var g :| ReadFile(WriteFile(f).value.0) == Ok(g) && KeptFile(f, g);
      var g2 :| ReadFile(WriteFile(f).value.0) == Ok(g2) && KeptFile(Changed(f, i), g2);
      NullContents(f, g, i);
      NullContents(Changed(f, i), g2, i);
    }
  }

  lemma SameIfEmpty(f: File, f2: File)
    requires SameButNull(f, f2) && NullsEmpty(f)
    ensures f2 == f
  {
    forall i | 0 <= i < |f.sections| ensures f2.sections[i] == f.sections[i] {
      assert Alike(f.sections[i], f2.sections[i]) && f.sections[i] in f.sections;
    }
  }

  /**
   Of all the files that differ from `f` only in what their sections of type SHT_NULL hold, every one comes back
   exactly if those sections are empty.
   */
  lemma ComesBackWhateverNull(f: File)
    ensures WriteFile(f).Ok? && Readable(f) ==>
      ((forall f2 :: SameButNull(f, f2) ==> ComesBack(f2)) <==> NullsEmpty(f))
  {
    hide WriteFile, ReadFile, KeptFile, Readable, Changed, SameButNull, ComesBack;
    if WriteFile(f).Ok? && Readable(f) {
      if NullsEmpty(f) {
        EmptyNullRoundTrip(f);
        ComesBackIff(f);
        forall f2 | SameButNull(f, f2) ensures ComesBack(f2) {
          SameIfEmpty(f, f2);
        }
      } else {
        var s :| s in f.sections && s.kind == SHT_NULL && s.data != [];
        var i :| 0 <= i < |f.sections| && f.sections[i] == s;
        NullLost(f, i);
        ChangedIsAlike(f, i);
        SameAsItself(f);
      }
    }
  }

  lemma SameAsItself(f: File)
    ensures SameButNull(f, f)
  {
  }

  /* ----- a file that does not come back ----- */

  /** The contents of its first section lie beyond the end of what is written. */
  const NULL_SECTION := Section(0, SHT_NULL, 0, 0, 200, 1, 0, 0, 0, 0, [7])

  const NULL_FILE := TwoSections(NULL_SECTION)

  lemma Beyond(file: seq<Byte>)
    requires |file| == 132
    ensures !StillThere(file, NULL_SECTION)
  {
  }

  /** It can be written and read, and its one byte is lost. */
  lemma NullFileLost()
    ensures Readable(NULL_FILE) && WriteFile(NULL_FILE).Ok? && !ComesBack(NULL_FILE)
  {
    hide WriteFile, ReadFile, Readable, ComesBack;
    TwoReadable(NULL_SECTION);
    TwoWritten(NULL_SECTION);
    ComesBackIff(NULL_FILE);
    RoundTrip(NULL_FILE);
    var (file, g) := WriteFile(NULL_FILE).value;
    assert g.sections[0] in g.sections && g.sections[0] == NULL_SECTION;
    Beyond(file);
  }
}
