/** `ar` archives: the image that is built from a list of members, and the list that is read back from an image. */
module Archive {
  import opened Bytes
  import opened ArchiveText

  const MAGIC: Text := [33, 60, 97, 114, 99, 104, 62, 10]   // "!<arch>\n"
  const END_MARK: Text := [96, 10]
  const HEADER_SIZE := 60

  datatype Member = Member(name: Text, time: nat, uid: nat, gid: nat, mode: nat, size: nat, data: Text)

  datatype Header = Header(name: Text, time: nat, uid: nat, gid: nat, mode: nat, size: nat)

  /* ----- headers ----- */

  function PrintHeader(h: Header): Text {
    Pad(h.name, 16) + Pad(Digits(h.time, 10), 12) + Pad(Digits(h.uid, 10), 6) + Pad(Digits(h.gid, 10), 6)
    + Pad(Digits(h.mode, 8), 8) + Pad(Digits(h.size, 10), 10) + END_MARK
  }

  /** Every field of the header fits its width. */
  predicate Narrow(h: Header) {
    && |h.name| <= 16 && |Digits(h.time, 10)| <= 12 && |Digits(h.uid, 10)| <= 6 && |Digits(h.gid, 10)| <= 6
    && |Digits(h.mode, 8)| <= 8 && |Digits(h.size, 10)| <= 10
  }

  /** And its name is not mistaken for padding. */
  predicate Fits(h: Header) { Trimmed(h.name) && Narrow(h) }

  /** The header at the start of `s`, whose name must be ASCII and whose numbers must be numbers. */
  function ReadHeader(s: Text): (r: Result<Header>) {
    if |s| < HEADER_SIZE then Failed
    else
      var time, uid, gid := ParseNat(s[16..28], 10), ParseNat(s[28..34], 10), ParseNat(s[34..40], 10);
      var mode, size := ParseNat(s[40..48], 8), ParseNat(s[48..58], 10);
      if Ascii(s[..16]) && time.Ok? && uid.Ok? && gid.Ok? && mode.Ok? && size.Ok? && s[58..60] == END_MARK then
        Ok(Header(Strip(s[..16]), time.value, uid.value, gid.value, mode.value, size.value))
      else
        Failed
  }

  lemma HeaderFields(h: Header, rest: Text)
    requires Narrow(h)
    ensures |PrintHeader(h)| == HEADER_SIZE
    ensures var s := PrintHeader(h) + rest;
      && s[..16] == Pad(h.name, 16) && s[16..28] == Pad(Digits(h.time, 10), 12)
      && s[28..34] == Pad(Digits(h.uid, 10), 6) && s[34..40] == Pad(Digits(h.gid, 10), 6)
      && s[40..48] == Pad(Digits(h.mode, 8), 8) && s[48..58] == Pad(Digits(h.size, 10), 10)
      && s[58..60] == END_MARK && s[60..] == rest
  {
    hide Pad, Digits;
  }

  lemma FitsNarrow(h: Header)
    requires Fits(h)
    ensures Narrow(h)
  {
  }

  lemma HeaderRoundTrip(h: Header, rest: Text)
    requires Fits(h)
    ensures ReadHeader(PrintHeader(h) + rest) == Ok(h)
  {
    hide PrintHeader, Pad, Digits, ParseNat, Strip;
    HeaderFields(h, rest);
    StripPadded(h.name, 16);
    NumberField(h.time, 10, 12);
    NumberField(h.uid, 10, 6);
    NumberField(h.gid, 10, 6);
    NumberField(h.mode, 8, 8);
    NumberField(h.size, 10, 10);
  }

  /* ----- the table of long names ----- */

  function IsLong(m: Member): bool { |m.name| >= 16 }

  /** The long names of the first `k` members, with the extra line behind the first. */
  function LongNames(ms: seq<Member>, k: nat): (s: Text)
    requires k <= |ms|
  {
    if k == 0 then []
    else
      var before := LongNames(ms, k - 1);
      if !IsLong(ms[k - 1]) then before
      else if before == [] then ms[k - 1].name + [SLASH, NEWLINE] + [SLASH, NEWLINE]
      else before + ms[k - 1].name + [SLASH, NEWLINE]
  }

  function LongTable(ms: seq<Member>): Text { LongNames(ms, |ms|) + [SLASH] }

  /** The name in the header of member `k`: its own, or where its own is in the table. */
  function HeaderName(ms: seq<Member>, k: nat): Text
    requires k < |ms|
  {
    if IsLong(ms[k]) then [SLASH] + Digits(|LongNames(ms, k)|, 10) else ms[k].name + [SLASH]
  }

  /** Up to the first line end. */
  function FirstLine(s: Text): Text {
    if s == [] || s[0] == NEWLINE then [] else [s[0]] + FirstLine(s[1..])
  }

  lemma {:induction false} LongNamesGrow(ms: seq<Member>, j: nat, k: nat)
    requires j <= k <= |ms|
    ensures |LongNames(ms, j)| <= |LongNames(ms, k)| && LongNames(ms, k)[..|LongNames(ms, j)|] == LongNames(ms, j)
  {
    if j < k {
      LongNamesGrow(ms, j, k - 1);
      var a, b := LongNames(ms, j), LongNames(ms, k - 1);
      assert LongNames(ms, k)[..|b|] == b;
      assert LongNames(ms, k)[..|a|] == b[..|a|];
    }
  }

  lemma {:induction false} FirstLineIs(name: Text, rest: Text)
    requires NEWLINE !in name
    ensures FirstLine(name + [NEWLINE] + rest) == name
  {
    if name != [] {
      assert (name + [NEWLINE] + rest)[1..] == name[1..] + [NEWLINE] + rest;
      FirstLineIs(name[1..], rest);
    }
  }

  lemma LongNameNext(ms: seq<Member>, k: nat)
    requires k < |ms| && IsLong(ms[k])
    ensures var b, n := LongNames(ms, k), ms[k].name + [SLASH];
      && |b| + |n| + 1 <= |LongNames(ms, k + 1)|
      && LongNames(ms, k + 1)[|b|..|b| + |n| + 1] == n + [NEWLINE]
  {
    var b, n := LongNames(ms, k), ms[k].name + [SLASH];
    assert LongNames(ms, k + 1) == b + (n + [NEWLINE]) + if b == [] then [SLASH, NEWLINE] else [];
  }

  lemma SliceOfPrefix(t: Text, l: Text, i: nat, j: nat)
    requires i <= j <= |l| <= |t| && t[..|l|] == l
    ensures t[i..j] == l[i..j]
  {
    forall k | i <= k < j ensures t[k] == l[k] {
      assert t[k] == t[..|l|][k];
    }
  }

  lemma LineAt(t: Text, at: nat, n: Text)
    requires at + |n| + 1 <= |t| && t[at..at + |n| + 1] == n + [NEWLINE] && NEWLINE !in n
    ensures FirstLine(t[at..]) == n
  {
    var rest := t[at + |n| + 1..];
    assert t[at..] == t[at..at + |n| + 1] + rest;
    FirstLineIs(n, rest);
  }

  lemma LongTableStarts(ms: seq<Member>, k: nat)
    requires k <= |ms|
    ensures |LongNames(ms, k)| <= |LongTable(ms)| && LongTable(ms)[..|LongNames(ms, k)|] == LongNames(ms, k)
  {
    LongNamesGrow(ms, k, |ms|);
    var a, b := LongNames(ms, k), LongNames(ms, |ms|);
    assert LongTable(ms)[..|a|] == b[..|a|];
  }

  /** The table gives a long name back, with its slash. */
  lemma LongNameFound(ms: seq<Member>, k: nat)
    requires k < |ms| && IsLong(ms[k]) && NEWLINE !in ms[k].name
    ensures |LongNames(ms, k)| <= |LongTable(ms)|
    ensures FirstLine(LongTable(ms)[|LongNames(ms, k)|..]) == ms[k].name + [SLASH]
  {
    hide LongNames, LongTable;
    LongTableStarts(ms, k + 1);
    LongNameNext(ms, k);
    var t, l, at, n := LongTable(ms), LongNames(ms, k + 1), |LongNames(ms, k)|, ms[k].name + [SLASH];
    SliceOfPrefix(t, l, at, at + |n| + 1);
    LineAt(t, at, n);
  }

  /* ----- the symbol map ----- */

  /** The members that define each symbol, in the order of the map; `symbols[i]` are the names defined by member i. */
  function Owners(symbols: seq<seq<Text>>, k: nat): (o: seq<nat>)
    requires k <= |symbols|
    ensures forall e :: 0 <= e < |o| ==> o[e] < k
    ensures forall e, f :: 0 <= e < f < |o| ==> o[e] <= o[f]
  {
    if k == 0 then [] else Owners(symbols, k - 1) + seq(|symbols[k - 1]|, _ => k - 1)
  }

  function Names(symbols: seq<Text>): Text {
    if symbols == [] then [] else Names(symbols[..|symbols| - 1]) + symbols[|symbols| - 1] + [0]
  }

  function AllNames(symbols: seq<seq<Text>>, k: nat): Text
    requires k <= |symbols|
  {
    if k == 0 then [] else AllNames(symbols, k - 1) + Names(symbols[k - 1])
  }

  function EncodeAll(ws: seq<Word>): (s: Text)
    ensures |s| == 4 * |ws|
  {
    seq(4 * |ws|, i requires 0 <= i < 4 * |ws| => EncodeWord(ws[i / 4])[i % 4])
  }

  function AlignTo4(s: Text): (r: Text)
    ensures |r| % 4 == 0 && |s| <= |r| && r[..|s|] == s
  {
    s + seq((4 - |s| % 4) % 4, _ => 0)
  }

  function ArmapData(offsets: seq<Word>, names: Text): Text
    requires |offsets| < 0x1_0000_0000
  {
    AlignTo4(EncodeWord(|offsets|) + EncodeAll(offsets) + names)
  }

  lemma EncodeAllUpdate(ws: seq<Word>, p: nat, w: Word)
    requires p < |ws|
    ensures EncodeAll(ws)[..4 * p] + EncodeWord(w) + EncodeAll(ws)[4 * p + 4..] == EncodeAll(ws[p := w])
  {
    var a, b := EncodeAll(ws), EncodeAll(ws[p := w]);
    forall i | 0 <= i < |b| ensures b[i] == (a[..4 * p] + EncodeWord(w) + a[4 * p + 4..])[i] {
      if 4 * p <= i < 4 * p + 4 {
        assert i / 4 == p && i % 4 == i - 4 * p;
      } else {
        assert i / 4 != p;
      }
    }
  }

  lemma EncodeAllAt(ws: seq<Word>, p: nat)
    requires p < |ws|
    ensures EncodeAll(ws)[4 * p..4 * p + 4] == EncodeWord(ws[p])
  {
  }

  lemma CutBefore(n: Text, x: Text, tail: Text, i: nat)
    requires i <= |x|
    ensures (n + x + tail)[..|n| + i] == n + x[..i]
  {
  }

  lemma CutAfter(n: Text, x: Text, tail: Text, i: nat)
    requires i <= |x|
    ensures (n + x + tail)[|n| + i..] == x[i..] + tail
  {
  }

  lemma CutMiddle(n: Text, x: Text, y: Text, w: Text, tail: Text, i: nat)
    requires |w| == 4 && i + 4 <= |x| && y == x[..i] + w + x[i + 4..]
    ensures var a := n + x + tail; a[..|n| + i] + w + a[|n| + i + 4..] == n + y + tail
  {
    CutBefore(n, x, tail, i);
    CutAfter(n, x, tail, i + 4);
    assert n + x[..i] + w + (x[i + 4..] + tail) == n + (x[..i] + w + x[i + 4..]) + tail;
  }

  lemma ArmapParts(offsets: seq<Word>, names: Text)
    requires |offsets| < 0x1_0000_0000
    ensures ArmapData(offsets, names) == EncodeWord(|offsets|) + EncodeAll(offsets) + (names + ArmapPad(|offsets|, |names|))
  {
    hide EncodeAll, EncodeWord;
    var n, x, z := EncodeWord(|offsets|), EncodeAll(offsets), ArmapPad(|offsets|, |names|);
    assert n + x + names + z == n + x + (names + z);
  }

  function ArmapPad(count: nat, names: nat): Text { seq((4 - (4 + 4 * count + names) % 4) % 4, _ => 0) }

  lemma ArmapUpdate(offsets: seq<Word>, names: Text, p: nat, w: Word)
    requires |offsets| < 0x1_0000_0000 && p < |offsets|
    ensures var a := ArmapData(offsets, names);
      && 4 * p + 8 <= |a|
      && a[..4 * p + 4] + EncodeWord(w) + a[4 * p + 8..] == ArmapData(offsets[p := w], names)
  {
    hide EncodeAll, EncodeWord, ArmapData, ArmapPad;
    EncodeAllUpdate(offsets, p, w);
    ArmapParts(offsets, names);
    ArmapParts(offsets[p := w], names);
    CutMiddle(EncodeWord(|offsets|), EncodeAll(offsets), EncodeAll(offsets[p := w]), EncodeWord(w),
              names + ArmapPad(|offsets|, |names|), 4 * p);
  }

  lemma ArmapAt(offsets: seq<Word>, names: Text, p: nat)
    requires |offsets| < 0x1_0000_0000 && p < |offsets|
    ensures var a := ArmapData(offsets, names);
      4 * p + 8 <= |a| && a[4 * p + 4..4 * p + 8] == EncodeWord(offsets[p])
  {
    hide EncodeAll, EncodeWord;
    var n, x := EncodeWord(|offsets|), EncodeAll(offsets);
    EncodeAllAt(offsets, p);
    var a := ArmapData(offsets, names);
    var s := n + x + names;
    assert a[..|s|] == s;
    SliceOfPrefix(a, s, 4 * p + 4, 4 * p + 8);
    assert s[4 * p + 4..4 * p + 8] == x[4 * p..4 * p + 4];
  }

  /* ----- building the image ----- */

  function AddPad(b: Text): Text { if |b| % 2 != 0 then b + [0] else b }

  function Append(b: Text, h: Header, data: Text): Text { AddPad(b + PrintHeader(h) + data) }

  function ArmapHeader(now: nat, armap: Text): Header { Header([SLASH], now, 0, 0, 0, |armap|) }

  function TableHeader(now: nat, ms: seq<Member>): Header { Header([SLASH, SLASH], now, 0, 0, 0, |LongTable(ms)|) }

  function MemberHeader(ms: seq<Member>, k: nat): Header
    requires k < |ms|
  {
    Header(HeaderName(ms, k), ms[k].time, ms[k].uid, ms[k].gid, ms[k].mode, ms[k].size)
  }

  /** The image up to member `k`, with a given symbol map. */
  function Built(ms: seq<Member>, now: nat, armap: Text, k: nat): Text
    requires k <= |ms|
  {
    if k == 0 then Append(Append(MAGIC, ArmapHeader(now, armap), armap), TableHeader(now, ms), LongTable(ms))
    else Append(Built(ms, now, armap, k - 1), MemberHeader(ms, k - 1), ms[k - 1].data)
  }

  function ArmapStart(now: nat, armap: Text): nat { |MAGIC| + |PrintHeader(ArmapHeader(now, armap))| }

  /** `c` is `b` with the part `x` at `s` replaced by `y`. */
  predicate Patched(b: Text, c: Text, s: nat, x: Text, y: Text) {
    && |x| == |y| && s + |x| <= |b| && b[s..s + |x|] == x
    && c == b[..s] + y + b[s + |x|..]
  }

  lemma PatchedMore(b: Text, c: Text, s: nat, x: Text, y: Text, more: Text)
    requires Patched(b, c, s, x, y)
    ensures Patched(AddPad(b + more), AddPad(c + more), s, x, y)
  {
    var b', c' := AddPad(b + more), AddPad(c + more);
    var tail := more + if |b + more| % 2 != 0 then [0] else [];
    assert b' == b + tail && c' == c + tail;
    PatchedTail(b, c, s, x, y, tail);
  }

  lemma PatchedTail(b: Text, c: Text, s: nat, x: Text, y: Text, tail: Text)
    requires Patched(b, c, s, x, y)
    ensures Patched(b + tail, c + tail, s, x, y)
  {
    var d := b + tail;
    assert d[..s] == b[..s] && d[s..s + |x|] == b[s..s + |x|];
    assert d[s + |x|..] == b[s + |x|..] + tail;
  }

  lemma PatchedAppend(b: Text, c: Text, s: nat, x: Text, y: Text, h: Header, data: Text)
    requires Patched(b, c, s, x, y)
    ensures Patched(Append(b, h, data), Append(c, h, data), s, x, y)
  {
    hide PrintHeader, Patched;
    var p := PrintHeader(h);
    PatchedMore(b, c, s, x, y, p + data);
    assert b + p + data == b + (p + data) && c + p + data == c + (p + data);
  }

  lemma PatchedFront(now: nat, armap: Text, other: Text)
    requires |armap| == |other|
    ensures Patched(Append(MAGIC, ArmapHeader(now, armap), armap), Append(MAGIC, ArmapHeader(now, other), other),
                    ArmapStart(now, armap), armap, other)
  {
    hide PrintHeader;
    var h, s := PrintHeader(ArmapHeader(now, armap)), ArmapStart(now, armap);
    assert PrintHeader(ArmapHeader(now, other)) == h;
    var b, c := MAGIC + h + armap, MAGIC + h + other;
    assert b[..s] == MAGIC + h && b[s..s + |armap|] == armap && b[s + |armap|..] == [];
    assert Patched(b, c, s, armap, other);
    PatchedMore(b, c, s, armap, other, []);
    assert b + [] == b && c + [] == c;
  }

  /** Images with symbol maps of one size differ in the map alone. */
  lemma {:induction false} BuiltPatch(ms: seq<Member>, now: nat, armap: Text, other: Text, k: nat)
    requires k <= |ms| && |armap| == |other|
    ensures Patched(Built(ms, now, armap, k), Built(ms, now, other, k), ArmapStart(now, armap), armap, other)
  {
    hide Patched, Append, ArmapStart;
    if k == 0 {
      PatchedFront(now, armap, other);
      PatchedAppend(Append(MAGIC, ArmapHeader(now, armap), armap), Append(MAGIC, ArmapHeader(now, other), other),
                    ArmapStart(now, armap), armap, other, TableHeader(now, ms), LongTable(ms));
    } else {
      BuiltPatch(ms, now, armap, other, k - 1);
      PatchedAppend(Built(ms, now, armap, k - 1), Built(ms, now, other, k - 1),
                    ArmapStart(now, armap), armap, other, MemberHeader(ms, k - 1), ms[k - 1].data);
    }
  }
}
