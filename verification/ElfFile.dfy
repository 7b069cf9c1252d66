/** Relocatable object files: reading them, and writing them back with their sections laid out anew. */
module ElfFile {
  import opened Bytes
  import opened ElfFormat

  datatype Result<+T> = Ok(value: T) | Failed

  const HEADER_SIZE := 52
  const SECTION_SIZE := 40
  const HDRR_SIZE := 0x60

  const HEADER_FORMAT: Format := Repeat(H, 2) + Repeat(I, 5) + Repeat(H, 6)
  const SECTION_FORMAT: Format := Repeat(I, 10)
  const HDRR_FORMAT: Format := Repeat(H, 2) + Repeat(I, 23)

  lemma FormatSizes()
    ensures |HEADER_FORMAT| == 13 && Size(HEADER_FORMAT) == HEADER_SIZE - 16
    ensures |SECTION_FORMAT| == 10 && Size(SECTION_FORMAT) == SECTION_SIZE
    ensures |HDRR_FORMAT| == 25 && Size(HDRR_FORMAT) == HDRR_SIZE
  {
    hide Repeat, Size;
    SizeRepeat(H, 2);
    SizeRepeat(H, 6);
    SizeRepeat(I, 5);
    SizeRepeat(I, 10);
    SizeRepeat(I, 23);
    SizeAppend(Repeat(H, 2), Repeat(I, 5));
    SizeAppend(Repeat(H, 2) + Repeat(I, 5), Repeat(H, 6));
    SizeAppend(Repeat(H, 2), Repeat(I, 23));
  }

  const SHT_NULL := 0
  const SHT_SYMTAB := 2
  const SHT_NOBITS := 8
  const SHT_MIPS_DEBUG := 0x70000005
  const IDENT: seq<Byte> := [0x7F, 0x45, 0x4C, 0x46]
  const MDEBUG_MAGIC := 0x7009

  datatype Header = Header(ident: seq<Byte>, kind: int, machine: int, version: int, entry: int, phoff: int, shoff: int,
                           flags: int, ehsize: int, phentsize: int, phnum: int, shentsize: int, shnum: int, shstrndx: int) {
    predicate Big() { |ident| > 5 && ident[5] == 2 }

    function Fields(): (vs: seq<int>)
      ensures |vs| == 13
    {
      [kind, machine, version, entry, phoff, shoff, flags, ehsize, phentsize, phnum, shentsize, shnum, shstrndx]
    }
  }

  datatype Section = Section(name: int, kind: int, flags: int, addr: int, offset: int, size: int, link: int, info: int,
                             addralign: int, entsize: int, data: seq<Byte>) {
    function Fields(): (vs: seq<int>)
      ensures |vs| == 10
    {
      [name, kind, flags, addr, offset, size, link, info, addralign, entsize]
    }

    /** The section's contents are part of the file. */
    predicate Stored() { kind != SHT_NOBITS && kind != SHT_NULL }

    /** As it is written: the size is that of the contents. */
    function Sized(): Section { if kind == SHT_NOBITS then this else this.(size := |data|) }
  }

  datatype File = File(header: Header, sections: seq<Section>)

  /** A slice that ends early where the data does. */
  function Slice(s: seq<Byte>, lo: nat, hi: nat): seq<Byte> {
    if lo >= |s| || hi <= lo then [] else if hi <= |s| then s[lo..hi] else s[lo..]
  }

  /* ----- reading ----- */

  function HeaderOf(ident: seq<Byte>, vs: seq<int>): Header
    requires |vs| == 13
  {
    Header(ident, vs[0], vs[1], vs[2], vs[3], vs[4], vs[5], vs[6], vs[7], vs[8], vs[9], vs[10], vs[11], vs[12])
  }

  predicate Acceptable(h: Header) {
    h.kind == 1 && h.machine == 8 && h.phoff == 0 && h.shoff != 0 && h.shstrndx != 0
  }

  function ReadHeader(s: seq<Byte>): Result<Header> {
    FormatSizes();
    if |s| != HEADER_SIZE || s[4] != 1 then Failed
    else
      var h := HeaderOf(s[..16], Unpack(s[5] == 2, HEADER_FORMAT, s[16..]));
      if Acceptable(h) then Ok(h) else Failed
  }

  predicate Divides(s: Section) {
    (s.flags / 0x80) % 2 == 0 && (s.entsize != 0 ==> s.size % s.entsize == 0)
  }

  function SectionOf(vs: seq<int>, file: seq<Byte>): Section
    requires |vs| == 10 && vs[4] >= 0 && vs[5] >= 0
  {
    Section(vs[0], vs[1], vs[2], vs[3], vs[4], vs[5], vs[6], vs[7], vs[8], vs[9],
            if vs[1] == SHT_NOBITS then [] else Slice(file, vs[4], vs[4] + vs[5]))
  }

  function ReadSection(big: bool, s: seq<Byte>, file: seq<Byte>): (r: Result<Section>)
    ensures r.Ok? ==> r.value.size >= 0 && |s| == SECTION_SIZE
  {
    FormatSizes();
    if |s| != SECTION_SIZE then Failed
    else
      var vs := Unpack(big, SECTION_FORMAT, s);
      assert InRange(SECTION_FORMAT[4], vs[4]) && InRange(SECTION_FORMAT[5], vs[5]);
      var t := SectionOf(vs, file);
      if Divides(t) then Ok(t) else Failed
  }

  function SectionAt(file: seq<Byte>, h: Header, i: nat): (r: Result<Section>)
    requires h.shoff >= 0 && h.shentsize >= 0
    ensures r.Ok? ==> r.value.size >= 0
  {
    var at := h.shoff + i * h.shentsize;
    ReadSection(h.Big(), Slice(file, at, at + h.shentsize), file)
  }

  function ReadFrom(file: seq<Byte>, h: Header, i: nat, n: nat): Result<seq<Section>>
    requires h.shoff >= 0 && h.shentsize >= 0
    decreases n - i
  {
    if i >= n then Ok([])
    else
      var s := SectionAt(file, h, i);
      if s.Failed? then Failed
      else
        var rest := ReadFrom(file, h, i + 1, n);
        if rest.Failed? then Failed else Ok([s.value] + rest.value)
  }

  function Symtabs(ss: seq<Section>): nat {
    if ss == [] then 0 else Symtabs(ss[..|ss| - 1]) + if ss[|ss| - 1].kind == SHT_SYMTAB then 1 else 0
  }

  lemma HeaderRanges(s: seq<Byte>)
    requires ReadHeader(s).Ok?
    ensures var h := ReadHeader(s).value;
      h.shoff >= 0 && 0 <= h.shentsize < 0x1_0000 && 0 <= h.shnum < 0x1_0000 && 0 <= h.shstrndx
  {
    FormatSizes();
    var vs := Unpack(s[5] == 2, HEADER_FORMAT, s[16..]);
    assert InRange(HEADER_FORMAT[5], vs[5]) && InRange(HEADER_FORMAT[10], vs[10])
      && InRange(HEADER_FORMAT[11], vs[11]) && InRange(HEADER_FORMAT[12], vs[12]);
    assert HEADER_FORMAT[10] == H && HEADER_FORMAT[11] == H;
  }

  /** The count of sections, which may stand in the first section when the header has no room for it. */
  function Count(h: Header, first: Section): (n: nat)
    requires h.shnum >= 0 && first.size >= 0
    ensures n > 0
  {
    var n := if h.shnum != 0 then h.shnum else first.size;
    if n == 0 then 1 else n
  }

  function ReadFile(file: seq<Byte>): Result<File> {
    var h := ReadHeader(Slice(file, 0, HEADER_SIZE));
    if Slice(file, 0, 4) != IDENT || h.Failed? then Failed
    else
      HeaderRanges(Slice(file, 0, HEADER_SIZE));
      var first := SectionAt(file, h.value, 0);
      if first.Failed? then Failed
      else
        var ss := ReadFrom(file, h.value, 0, Count(h.value, first.value));
        if ss.Failed? || Symtabs(ss.value) != 1 || h.value.shstrndx >= |ss.value| then Failed else Ok(File(h.value, ss.value))
  }

  /* ----- writing ----- */

  function Zeros(n: nat): (s: seq<Byte>)
    ensures |s| == n && forall i :: 0 <= i < n ==> s[i] == 0
  {
    seq(n, _ => 0)
  }

  /** Padded to a multiple of `align`; 0 asks for none. */
  function Pad(out: seq<Byte>, align: int): (r: seq<Byte>)
    ensures out <= r && (align > 0 ==> |r| % align == 0 && |r| < |out| + align)
    ensures align <= 0 ==> r == out
    ensures forall i :: |out| <= i < |r| ==> r[i] == 0
  {
    if align <= 0 || |out| % align == 0 then out
    else
      PadArithmetic(|out|, align);
      out + Zeros(align - |out| % align)
  }

  lemma PadArithmetic(n: nat, align: nat)
    requires align > 0 && n % align != 0
    ensures (n + (align - n % align)) % align == 0
  {
    var q := n / align;
    assert n + (align - n % align) == align * (q + 1);
    MultipleMod(align, q + 1);
  }

  lemma MultipleMod(a: nat, q: nat)
    requires a > 0
    ensures (a * q) % a == 0
  {
    var k, r := (a * q) / a, (a * q) % a;
    assert a * (q - k) == r && a * (k - q) == -r;
    if q > k {
      Grows(a, q - k);
    } else if q < k {
      Grows(a, k - q);
    }
  }

  lemma Grows(a: nat, n: nat)
    requires n > 0
    ensures a * n >= a
  {
    assert a * n == a * (n - 1) + a;
  }

  /** The file offsets of the tables are every second word, from the third on. */
  function ShiftOffsets(vs: seq<int>, shift: int): (r: seq<int>)
    requires |vs| == 25
    ensures |r| == 25
  {
    seq(25, i requires 0 <= i < 25 => if i >= 4 && i % 2 == 0 then vs[i] + shift else vs[i])
  }

  /** The words at the start of .mdebug. */
  function Hdrr(big: bool, data: seq<Byte>): (vs: seq<int>)
    requires |data| >= HDRR_SIZE
    ensures |vs| == 25
  {
    FormatSizes();
    Unpack(big, HDRR_FORMAT, data[..HDRR_SIZE])
  }

  function HdrrBytes(big: bool, ws: seq<int>): (s: seq<Byte>)
    requires Packable(HDRR_FORMAT, ws)
    ensures |s| == HDRR_SIZE
  {
    FormatSizes();
    Pack(big, HDRR_FORMAT, ws)
  }

  function RelocateMdebug(big: bool, data: seq<Byte>, shift: int): (r: Result<seq<Byte>>)
    ensures r.Ok? ==> |r.value| == |data|
  {
    if |data| < HDRR_SIZE then Failed
    else
      var vs := Hdrr(big, data);
      var ws := ShiftOffsets(vs, shift);
      if vs[0] != MDEBUG_MAGIC || !Packable(HDRR_FORMAT, ws) then Failed
      else Ok(HdrrBytes(big, ws) + data[HDRR_SIZE..])
  }

  function Moved(big: bool, s: Section, at: nat): Result<Section> {
    if s.kind == SHT_MIPS_DEBUG && s.offset != at then
      var data := RelocateMdebug(big, s.data, at - s.offset);
      if data.Failed? then Failed else Ok(s.(offset := at, data := data.value))
    else Ok(s.(offset := at))
  }

  function Place(big: bool, out: seq<Byte>, s: Section): Result<(seq<Byte>, Section)> {
    if !s.Stored() then Ok((out, s))
    else
      var padded := Pad(out, s.addralign);
      var m := Moved(big, s, |padded|);
      if m.Failed? then Failed else Ok((padded + m.value.data, m.value))
  }

  function PlaceAll(big: bool, out: seq<Byte>, ss: seq<Section>): (r: Result<(seq<Byte>, seq<Section>)>)
    ensures r.Ok? ==> |r.value.1| == |ss|
    decreases |ss|
  {
    if ss == [] then Ok((out, []))
    else
      var p := Place(big, out, ss[0]);
      if p.Failed? then Failed
      else
        var rest := PlaceAll(big, p.value.0, ss[1..]);
        if rest.Failed? then Failed else Ok((rest.value.0, [p.value.1] + rest.value.1))
  }

  predicate HeaderFits(h: Header) { |h.ident| == 16 && Packable(HEADER_FORMAT, h.Fields()) }

  function HeaderBin(h: Header): (s: seq<Byte>)
    requires HeaderFits(h)
    ensures |s| == HEADER_SIZE
  {
    FormatSizes();
    h.ident + Pack(h.Big(), HEADER_FORMAT, h.Fields())
  }

  predicate SectionFits(s: Section) { Packable(SECTION_FORMAT, s.Fields()) }

  function SectionBin(big: bool, s: Section): (b: seq<Byte>)
    requires SectionFits(s)
    ensures |b| == SECTION_SIZE
  {
    FormatSizes();
    Pack(big, SECTION_FORMAT, s.Fields())
  }

  function Table(big: bool, ss: seq<Section>): (b: seq<Byte>)
    requires forall s :: s in ss ==> SectionFits(s)
    ensures |b| == SECTION_SIZE * |ss|
  {
    if ss == [] then []
    else Table(big, ss[..|ss| - 1]) + SectionBin(big, ss[|ss| - 1])
  }

  function SizedAll(ss: seq<Section>): (r: seq<Section>)
    ensures |r| == |ss| && forall i :: 0 <= i < |ss| ==> r[i] == ss[i].Sized()
  {
    seq(|ss|, i requires 0 <= i < |ss| => ss[i].Sized())
  }

  /** The bytes written, and the header and sections as the writer leaves them. */
  function WriteFile(f: File): Result<(seq<Byte>, File)> {
    var h1 := f.header.(shnum := |f.sections|);
    if !HeaderFits(h1) then Failed
    else
      var p := PlaceAll(h1.Big(), HeaderBin(h1), f.sections);
      if p.Failed? then Failed
      else
        var body := Pad(p.value.0, 4);
        var h2, ss := h1.(shoff := |body|), SizedAll(p.value.1);
        if !HeaderFits(h2) || exists s :: s in ss && !SectionFits(s) then Failed
        else
          PlaceGrows(h1.Big(), HeaderBin(h1), f.sections);
          Ok((HeaderBin(h2) + body[HEADER_SIZE..] + Table(h1.Big(), ss), File(h2, ss)))
  }

  lemma {:induction false} PlaceGrows(big: bool, out: seq<Byte>, ss: seq<Section>)
    ensures PlaceAll(big, out, ss).Ok? ==> out <= PlaceAll(big, out, ss).value.0
    decreases |ss|
  {
    if ss != [] {
      var p := Place(big, out, ss[0]);
      if p.Ok? {
        PlaceGrows(big, p.value.0, ss[1..]);
        hide Pad, Moved, PlaceAll;
      }
    }
  }
}
