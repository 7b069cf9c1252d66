/**
 Where every field of an object file stands, byte by byte: the headers of the ELF format for 32-bit files (System V
 ABI, chapter 4), and the header of the debug data.
 */
module ElfBytes {
  import opened Bytes
  import opened ElfFormat
  import opened ElfFile

  /** The two or four bytes at `at`, most significant first or last. */
  function HalfAt(big: bool, s: seq<Byte>, at: nat): int
    requires at + 2 <= |s|
  {
    if big then 0x100 * s[at] as int + s[at + 1] as int else s[at] as int + 0x100 * s[at + 1] as int
  }

  function WordAt(big: bool, s: seq<Byte>, at: nat): int
    requires at + 4 <= |s|
  {
    if big then 0x100_0000 * s[at] as int + 0x1_0000 * s[at + 1] as int + 0x100 * s[at + 2] as int + s[at + 3] as int
    else s[at] as int + 0x100 * s[at + 1] as int + 0x1_0000 * s[at + 2] as int + 0x100_0000 * s[at + 3] as int
  }

  /* ----- fields of a packed record ----- */

  lemma HalfOneIs(big: bool, s: seq<Byte>)
    requires |s| == 2
    ensures UnpackOne(big, H, s) == HalfAt(big, s, 0)
  {
  }

  lemma WordOneIs(big: bool, s: seq<Byte>)
    requires |s| == 4
    ensures UnpackOne(big, I, s) == WordAt(big, s, 0)
  {
    hide DecodeWord;
    var t := if big then s else Reverse(s);
    WordIs(t);
  }

  lemma HalfThere(big: bool, s: seq<Byte>, at: nat)
    requires at + 2 <= |s|
    ensures HalfAt(big, s[at..at + 2], 0) == HalfAt(big, s, at)
  {
  }

  lemma WordThere(big: bool, s: seq<Byte>, at: nat)
    requires at + 4 <= |s|
    ensures WordAt(big, s[at..at + 4], 0) == WordAt(big, s, at)
  {
  }

  lemma SizeFirst(f: Format, n: nat)
    requires f != [] && n < |f|
    ensures Size(f[..n + 1]) == Width(f[0]) + Size(f[1..][..n])
  {
    assert f[..n + 1][1..] == f[1..][..n];
  }

  lemma SlicedBehind(s: seq<Byte>, w: nat, lo: nat, hi: nat)
    requires lo <= hi && w + hi <= |s|
    ensures s[w..][lo..hi] == s[w + lo..w + hi]
  {
  }

  /** Field `i` of a record starts where the fields before it end. */
  lemma {:induction false} FieldAt(big: bool, f: Format, s: seq<Byte>, i: nat)
    requires |s| == Size(f) && i < |f|
    ensures var at := Size(f[..i]);
      at + Width(f[i]) <= |s| && Unpack(big, f, s)[i] == UnpackOne(big, f[i], s[at..at + Width(f[i])])
    decreases |f|
  {
    hide UnpackOne, Unpack, Size, Width;
    UnpackCons(big, f, s);
    var w := Width(f[0]);
    if i == 0 {
      SizeNone(f);
    } else {
      FieldAt(big, f[1..], s[w..], i - 1);
      SizeFirst(f, i - 1);
      var at := Size(f[1..][..i - 1]);
      SlicedBehind(s, w, at, at + Width(f[i]));
    }
  }

  lemma SizeNone(f: Format)
    ensures Size(f[..0]) == 0
  {
  }

  lemma {:induction false} RepeatAt(k: Kind, n: nat, i: nat)
    requires i < n
    ensures Repeat(k, n)[i] == k && Repeat(k, n)[..i] == Repeat(k, i)
  {
    if i > 0 {
      RepeatAt(k, n - 1, i - 1);
    }
  }

  /** The words of a record, behind some halves. */
  lemma WordField(big: bool, halves: nat, words: nat, more: Format, s: seq<Byte>, i: nat)
    requires var f := Repeat(H, halves) + Repeat(I, words) + more; |s| == Size(f)
    requires i < words
    ensures 2 * halves + 4 * i + 4 <= |s|
    ensures Unpack(big, Repeat(H, halves) + Repeat(I, words) + more, s)[halves + i] == WordAt(big, s, 2 * halves + 4 * i)
  {
    hide Repeat, Size, UnpackOne, WordAt, Unpack;
    var a, b := Repeat(H, halves), Repeat(I, words);
    var f := a + b + more;
    RepeatAt(I, words, i);
    assert f[halves + i] == I && f[..halves + i] == a + Repeat(I, i);
    SizeAppend(a, Repeat(I, i));
    SizeRepeat(H, halves);
    SizeRepeat(I, i);
    FieldAt(big, f, s, halves + i);
    var at := 2 * halves + 4 * i;
    WordOneIs(big, s[at..at + 4]);
    WordThere(big, s, at);
  }

  /** The halves in front. */
  lemma HalfField(big: bool, halves: nat, more: Format, s: seq<Byte>, i: nat)
    requires |s| == Size(Repeat(H, halves) + more) && i < halves
    ensures 2 * i + 2 <= |s| && Unpack(big, Repeat(H, halves) + more, s)[i] == HalfAt(big, s, 2 * i)
  {
    hide Repeat, Size, UnpackOne, HalfAt, Unpack;
    var f := Repeat(H, halves) + more;
    RepeatAt(H, halves, i);
    assert f[i] == H && f[..i] == Repeat(H, i);
    SizeRepeat(H, i);
    FieldAt(big, f, s, i);
    HalfOneIs(big, s[2 * i..2 * i + 2]);
    HalfThere(big, s, 2 * i);
  }

  /** The halves behind halves and words. */
  lemma LastField(big: bool, halves: nat, words: nat, last: nat, s: seq<Byte>, i: nat)
    requires |s| == Size(Repeat(H, halves) + Repeat(I, words) + Repeat(H, last)) && i < last
    ensures var at := 2 * halves + 4 * words + 2 * i;
      at + 2 <= |s| && Unpack(big, Repeat(H, halves) + Repeat(I, words) + Repeat(H, last), s)[halves + words + i]
        == HalfAt(big, s, at)
  {
    hide Repeat, Size, UnpackOne, HalfAt, Unpack;
    var a, b := Repeat(H, halves), Repeat(I, words);
    var f := a + b + Repeat(H, last);
    RepeatAt(H, last, i);
    assert f[halves + words + i] == H && f[..halves + words + i] == a + b + Repeat(H, i);
    SizeAppend(a + b, Repeat(H, i));
    SizeAppend(a, b);
    SizeRepeat(H, halves);
    SizeRepeat(I, words);
    SizeRepeat(H, i);
    FieldAt(big, f, s, halves + words + i);
    var at := 2 * halves + 4 * words + 2 * i;
    HalfOneIs(big, s[at..at + 2]);
    HalfThere(big, s, at);
  }

  /* ----- section headers ----- */

  /** A section header of 40 bytes. */
  ghost predicate SectionLaid(big: bool, s: Section, b: seq<Byte>) {
    && |b| == 40
    && WordAt(big, b, 0) == s.name && WordAt(big, b, 4) == s.kind && WordAt(big, b, 8) == s.flags
    && WordAt(big, b, 12) == s.addr && WordAt(big, b, 16) == s.offset && WordAt(big, b, 20) == s.size
    && WordAt(big, b, 24) == s.link && WordAt(big, b, 28) == s.info && WordAt(big, b, 32) == s.addralign
    && WordAt(big, b, 36) == s.entsize
  }

  lemma SectionWord(big: bool, b: seq<Byte>, i: nat)
    requires |b| == Size(SECTION_FORMAT) && i < 10
    ensures 4 * i + 4 <= |b| && Unpack(big, SECTION_FORMAT, b)[i] == WordAt(big, b, 4 * i)
  {
    hide Repeat, Size, WordAt, Unpack;
    NoHalves();
    assert Repeat(H, 0) + Repeat(I, 10) + [] == SECTION_FORMAT;
    WordField(big, 0, 10, [], b, i);
  }

  lemma NoHalves()
    ensures Repeat(H, 0) == []
  {
  }

  lemma SectionBytes(big: bool, s: Section)
    requires SectionFits(s)
    ensures SectionLaid(big, s, SectionBin(big, s))
  {
    hide Repeat, Size, WordAt, Unpack, Pack;
    FormatSizes();
    var b := SectionBin(big, s);
    PackRoundTrip(big, SECTION_FORMAT, s.Fields());
    SectionWord(big, b, 0);
    SectionWord(big, b, 1);
    SectionWord(big, b, 2);
    SectionWord(big, b, 3);
    SectionWord(big, b, 4);
    SectionWord(big, b, 5);
    SectionWord(big, b, 6);
    SectionWord(big, b, 7);
    SectionWord(big, b, 8);
    SectionWord(big, b, 9);
  }

  /* ----- the file header ----- */

  /** A file header of 52 bytes; its sixth byte is 2 for files with the most significant byte first. */
  ghost predicate HeaderLaid(h: Header, b: seq<Byte>) {
    && |b| == 52 && b[..16] == h.ident
    && var big := b[5] == 2;
       && HalfAt(big, b, 16) == h.kind && HalfAt(big, b, 18) == h.machine && WordAt(big, b, 20) == h.version
       && WordAt(big, b, 24) == h.entry && WordAt(big, b, 28) == h.phoff && WordAt(big, b, 32) == h.shoff
       && WordAt(big, b, 36) == h.flags && HalfAt(big, b, 40) == h.ehsize && HalfAt(big, b, 42) == h.phentsize
       && HalfAt(big, b, 44) == h.phnum && HalfAt(big, b, 46) == h.shentsize && HalfAt(big, b, 48) == h.shnum
       && HalfAt(big, b, 50) == h.shstrndx
  }

  /** The same of the 36 bytes behind the identification. */
  ghost predicate FieldsLaid(big: bool, vs: seq<int>, b: seq<Byte>) {
    && |b| == 36 && |vs| == 13
    && HalfAt(big, b, 0) == vs[0] && HalfAt(big, b, 2) == vs[1] && WordAt(big, b, 4) == vs[2] && WordAt(big, b, 8) == vs[3]
    && WordAt(big, b, 12) == vs[4] && WordAt(big, b, 16) == vs[5] && WordAt(big, b, 20) == vs[6]
    && HalfAt(big, b, 24) == vs[7] && HalfAt(big, b, 26) == vs[8] && HalfAt(big, b, 28) == vs[9]
    && HalfAt(big, b, 30) == vs[10] && HalfAt(big, b, 32) == vs[11] && HalfAt(big, b, 34) == vs[12]
  }

  lemma HeaderHalf(big: bool, b: seq<Byte>, i: nat)
    requires |b| == Size(HEADER_FORMAT) && i < 2
    ensures 2 * i + 2 <= |b| && Unpack(big, HEADER_FORMAT, b)[i] == HalfAt(big, b, 2 * i)
  {
    hide Repeat, Size, HalfAt, Unpack;
    assert Repeat(H, 2) + (Repeat(I, 5) + Repeat(H, 6)) == HEADER_FORMAT;
    HalfField(big, 2, Repeat(I, 5) + Repeat(H, 6), b, i);
  }

  lemma HeaderWord(big: bool, b: seq<Byte>, i: nat)
    requires |b| == Size(HEADER_FORMAT) && i < 5
    ensures 8 + 4 * i <= |b| && Unpack(big, HEADER_FORMAT, b)[2 + i] == WordAt(big, b, 4 + 4 * i)
  {
    hide Repeat, Size, WordAt, Unpack;
    WordField(big, 2, 5, Repeat(H, 6), b, i);
  }

  lemma HeaderLast(big: bool, b: seq<Byte>, i: nat)
    requires |b| == Size(HEADER_FORMAT) && i < 6
    ensures 26 + 2 * i <= |b| && Unpack(big, HEADER_FORMAT, b)[7 + i] == HalfAt(big, b, 24 + 2 * i)
  {
    hide Repeat, Size, HalfAt, Unpack;
    LastField(big, 2, 5, 6, b, i);
  }

  lemma HeaderFields(big: bool, b: seq<Byte>)
    requires |b| == Size(HEADER_FORMAT)
    ensures |b| == 36 && FieldsLaid(big, Unpack(big, HEADER_FORMAT, b), b)
  {
    hide Repeat, Size, WordAt, HalfAt, Unpack;
    FormatSizes();
    HeaderHalf(big, b, 0);
    HeaderHalf(big, b, 1);
    HeaderWord(big, b, 0);
    HeaderWord(big, b, 1);
    HeaderWord(big, b, 2);
    HeaderWord(big, b, 3);
    HeaderWord(big, b, 4);
    HeaderLast(big, b, 0);
    HeaderLast(big, b, 1);
    HeaderLast(big, b, 2);
    HeaderLast(big, b, 3);
    HeaderLast(big, b, 4);
    HeaderLast(big, b, 5);
  }

  lemma HalfBehind(big: bool, ident: seq<Byte>, b: seq<Byte>, at: nat)
    requires |ident| == 16 && at + 2 <= |b|
    ensures HalfAt(big, ident + b, 16 + at) == HalfAt(big, b, at)
  {
  }

  lemma WordBehind(big: bool, ident: seq<Byte>, b: seq<Byte>, at: nat)
    requires |ident| == 16 && at + 4 <= |b|
    ensures WordAt(big, ident + b, 16 + at) == WordAt(big, b, at)
  {
  }

  lemma HeaderOfFields(big: bool, h: Header, b: seq<Byte>)
    requires |h.ident| == 16 && FieldsLaid(big, h.Fields(), b) && (big <==> h.ident[5] == 2)
    ensures HeaderLaid(h, h.ident + b)
  {
    hide WordAt, HalfAt;
    var i := h.ident;
    assert (i + b)[..16] == i && (i + b)[5] == i[5];
    HalfBehind(big, i, b, 0);
    HalfBehind(big, i, b, 2);
    WordBehind(big, i, b, 4);
    WordBehind(big, i, b, 8);
    WordBehind(big, i, b, 12);
    WordBehind(big, i, b, 16);
    WordBehind(big, i, b, 20);
    HalfBehind(big, i, b, 24);
    HalfBehind(big, i, b, 26);
    HalfBehind(big, i, b, 28);
    HalfBehind(big, i, b, 30);
    HalfBehind(big, i, b, 32);
    HalfBehind(big, i, b, 34);
  }

  lemma HeaderBytes(h: Header)
    requires HeaderFits(h)
    ensures HeaderLaid(h, HeaderBin(h))
  {
    hide Repeat, Size, FieldsLaid, HeaderLaid, Pack, Unpack;
    FormatSizes();
    var b := Pack(h.Big(), HEADER_FORMAT, h.Fields());
    PackRoundTrip(h.Big(), HEADER_FORMAT, h.Fields());
    HeaderFields(h.Big(), b);
    HeaderOfFields(h.Big(), h, b);
  }

  lemma FieldsAre(h: Header, vs: seq<int>, ident: seq<Byte>)
    requires |vs| == 13 && h == HeaderOf(ident, vs)
    ensures h.Fields() == vs && h.ident == ident
  {
  }

  /* ----- debug data ----- */

  /** The offsets of the eleven tables: every second word of the header, from the fourth on. */
  predicate IsOffset(k: nat) { 12 <= k < 0x60 && k % 8 == 4 }

  /** `moved` is `data` with every table offset moved along, and no other byte changed. */
  ghost predicate OffsetsMoved(big: bool, data: seq<Byte>, moved: seq<Byte>, shift: int) {
    && |moved| == |data| >= 0x60 && moved[0x60..] == data[0x60..] && moved[..4] == data[..4]
    && forall k: nat :: 4 <= k < 0x60 && k % 4 == 0 ==>
         WordAt(big, moved, k) == WordAt(big, data, k) + if IsOffset(k) then shift else 0
  }

  /** The header is one of debug data, and every offset can be moved within 32 bits. */
  ghost predicate CanMove(big: bool, data: seq<Byte>, shift: int) {
    && |data| >= 0x60 && HalfAt(big, data, 0) == 0x7009
    && forall k: nat :: IsOffset(k) ==> 0 <= WordAt(big, data, k) + shift < 0x1_0000_0000
  }

  lemma HdrrFields(big: bool, b: seq<Byte>, i: nat)
    requires |b| == 0x60 == Size(HDRR_FORMAT) && i < 25
    ensures var vs := Unpack(big, HDRR_FORMAT, b);
      vs[i] == if i < 2 then HalfAt(big, b, 2 * i) else WordAt(big, b, 4 * i - 4)
  {
    hide Repeat, Size, WordAt, HalfAt, Unpack;
    if i < 2 {
      HalfField(big, 2, Repeat(I, 23), b, i);
    } else {
      assert Repeat(H, 2) + Repeat(I, 23) + [] == HDRR_FORMAT;
      WordField(big, 2, 23, [], b, i - 2);
    }
  }

  lemma HdrrKinds(i: nat)
    requires i < 25
    ensures HDRR_FORMAT[i] == if i < 2 then H else I
  {
    hide Repeat;
    if i < 2 {
      RepeatAt(H, 2, i);
    } else {
      RepeatAt(I, 23, i - 2);
    }
  }

  lemma WordInFront(big: bool, b: seq<Byte>, more: seq<Byte>, k: nat)
    requires k + 4 <= |b|
    ensures WordAt(big, b + more, k) == WordAt(big, b, k)
  {
  }

  lemma HalfInFront(big: bool, b: seq<Byte>, more: seq<Byte>, k: nat)
    requires k + 2 <= |b|
    ensures HalfAt(big, b + more, k) == HalfAt(big, b, k)
  {
  }

  /** Two halves that read the same are the same bytes. */
  lemma HalvesSame(big: bool, s: seq<Byte>, t: seq<Byte>)
    requires |s| >= 4 && |t| >= 4 && HalfAt(big, s, 0) == HalfAt(big, t, 0) && HalfAt(big, s, 2) == HalfAt(big, t, 2)
    ensures s[..4] == t[..4]
  {
    assert s[0] == t[0] && s[1] == t[1] && s[2] == t[2] && s[3] == t[3];
  }

  /** What the header holds, before and after. */
  lemma HdrrShifted(big: bool, a: seq<Byte>, b: seq<Byte>, shift: int, i: nat)
    requires |a| == |b| == 0x60 == Size(HDRR_FORMAT) && i < 25
    requires Unpack(big, HDRR_FORMAT, b) == ShiftOffsets(Unpack(big, HDRR_FORMAT, a), shift)
    ensures if i < 2 then HalfAt(big, b, 2 * i) == HalfAt(big, a, 2 * i)
            else WordAt(big, b, 4 * i - 4) == WordAt(big, a, 4 * i - 4) + if IsOffset(4 * i - 4) then shift else 0
  {
    hide Repeat, Size, WordAt, HalfAt, Unpack;
    HdrrFields(big, a, i);
    HdrrFields(big, b, i);
  }

  lemma HdrrMoves(big: bool, a: seq<Byte>, b: seq<Byte>, shift: int)
    requires |a| == |b| == 0x60 == Size(HDRR_FORMAT)
    requires Unpack(big, HDRR_FORMAT, b) == ShiftOffsets(Unpack(big, HDRR_FORMAT, a), shift)
    ensures OffsetsMoved(big, a, b, shift)
  {
    hide Repeat, Size, WordAt, HalfAt, Unpack, ShiftOffsets, IsOffset;
    HdrrShifted(big, a, b, shift, 0);
    HdrrShifted(big, a, b, shift, 1);
    HalvesSame(big, b, a);
    forall k: nat | 4 <= k < 0x60 && k % 4 == 0
      ensures WordAt(big, b, k) == WordAt(big, a, k) + if IsOffset(k) then shift else 0
    {
      HdrrShifted(big, a, b, shift, k / 4 + 1);
      assert 4 * (k / 4 + 1) - 4 == k;
    }
  }

  lemma MovedLonger(big: bool, a: seq<Byte>, b: seq<Byte>, more: seq<Byte>, shift: int)
    requires |a| == |b| == 0x60 && OffsetsMoved(big, a, b, shift)
    ensures OffsetsMoved(big, a + more, b + more, shift)
  {
    hide WordAt, IsOffset;
    assert (a + more)[0x60..] == more && (b + more)[0x60..] == more;
    assert (a + more)[..4] == a[..4] && (b + more)[..4] == b[..4];
    forall k: nat | 4 <= k < 0x60 && k % 4 == 0
      ensures WordAt(big, b + more, k) == WordAt(big, a + more, k) + if IsOffset(k) then shift else 0
    {
      WordInFront(big, a, more, k);
      WordInFront(big, b, more, k);
    }
  }

  /** Moving debug data succeeds exactly if it can be moved, and then every table offset is moved and nothing else. */
  lemma MdebugBytes(big: bool, data: seq<Byte>, shift: int)
    ensures RelocateMdebug(big, data, shift).Ok? <==> CanMove(big, data, shift)
    ensures RelocateMdebug(big, data, shift).Ok? ==> OffsetsMoved(big, data, RelocateMdebug(big, data, shift).value, shift)
  {
    hide Repeat, Size, WordAt, HalfAt, Unpack, Pack, ShiftOffsets, OffsetsMoved, CanMove, IsOffset;
    FormatSizes();
    if |data| >= 0x60 {
      var a, more := data[..0x60], data[0x60..];
      var ws := ShiftOffsets(Unpack(big, HDRR_FORMAT, a), shift);
      MovableIs(big, data, shift);
      if RelocateMdebug(big, data, shift).Ok? {
        PackRoundTrip(big, HDRR_FORMAT, ws);
        HdrrMoves(big, a, Pack(big, HDRR_FORMAT, ws), shift);
        MovedLonger(big, a, Pack(big, HDRR_FORMAT, ws), more, shift);
        assert a + more == data;
      }
    } else {
      TooShort(big, data, shift);
    }
  }

  /** A section that is put somewhere: only debug data notice, and only if it is somewhere else. */
  lemma MovedIs(big: bool, s: Section, at: nat)
    ensures var m := Moved(big, s, at);
      if s.kind == 0x7000_0005 && s.offset != at then
        && (m.Ok? <==> CanMove(big, s.data, at - s.offset))
        && (m.Ok? ==> m.value == s.(offset := at, data := m.value.data) && OffsetsMoved(big, s.data, m.value.data, at - s.offset))
      else m == Ok(s.(offset := at))
  {
    hide RelocateMdebug, CanMove, OffsetsMoved;
    MdebugBytes(big, s.data, at - s.offset);
  }

  lemma TooShort(big: bool, data: seq<Byte>, shift: int)
    requires |data| < 0x60
    ensures !CanMove(big, data, shift)
  {
  }

  lemma MovableIs(big: bool, data: seq<Byte>, shift: int)
    requires |data| >= 0x60 == Size(HDRR_FORMAT)
    ensures var vs := Unpack(big, HDRR_FORMAT, data[..0x60]);
      CanMove(big, data, shift) <==> vs[0] == 0x7009 && Packable(HDRR_FORMAT, ShiftOffsets(vs, shift))
  {
    hide Repeat, Size, WordAt, HalfAt, Unpack;
    var a, vs := data[..0x60], Unpack(big, HDRR_FORMAT, data[..0x60]);
    assert a + data[0x60..] == data;
    HdrrFields(big, a, 0);
    HalfInFront(big, a, data[0x60..], 0);
    forall i: nat | i < 25
      ensures InRange(HDRR_FORMAT[i], vs[i]) && (i >= 2 ==> HDRR_FORMAT[i] == I && vs[i] == WordAt(big, data, 4 * i - 4))
    {
      HdrrKinds(i);
      HdrrFields(big, a, i);
      if i >= 2 {
        WordInFront(big, a, data[0x60..], 4 * i - 4);
      }
    }
    OffsetIndexes();
    var ws := ShiftOffsets(vs, shift);
    if Packable(HDRR_FORMAT, ws) {
      forall k: nat | IsOffset(k) ensures 0 <= WordAt(big, data, k) + shift < 0x1_0000_0000 {
        var i := k / 4 + 1;
        assert 4 * i - 4 == k && InRange(HDRR_FORMAT[i], ws[i]);
      }
    }
    if CanMove(big, data, shift) {
      forall i | 0 <= i < 25 ensures InRange(HDRR_FORMAT[i], ws[i]) {
        if i >= 4 && i % 2 == 0 {
          assert IsOffset(4 * i - 4);
        }
      }
    }
  }

  lemma OffsetIndexes()
    ensures forall i: nat :: i < 25 && i >= 2 ==> (IsOffset(4 * i - 4) <==> i >= 4 && i % 2 == 0)
  {
  }

  /* ----- what is a part of the file ----- */

  /** All sections but those of type 0 (null) and 8 (no bits) have contents in the file. */
  lemma StoredIs(s: Section)
    ensures s.Stored() <==> s.kind != 0 && s.kind != 8
  {
  }
}
