/** Which archives come back from their image: the exact condition, on the members that go in. */
module ArchiveExact {
  import opened Bytes
  import opened ArchiveText
  import opened Archive
  import opened ArchiveBuild
  import opened ArchiveRead

  /* ----- the condition ----- */

  /** What Python strips from ASCII text. */
  predicate Blank(b: Byte) { b in {9, 10, 11, 12, 13, 28, 29, 30, 31, 32} }

  /** Numbers fit their fields.  A long name has no line end; a short one is not empty and starts with no blank and no slash. */
  predicate Recoverable(m: Member) {
    && m.time < 1_000_000_000_000 && m.uid < 1_000_000 && m.gid < 1_000_000 && m.mode < 0x100_0000 && m.size < 10_000_000_000
    && if |m.name| >= 16 then 10 !in m.name else m.name != [] && m.name[0] != 47 && !Blank(m.name[0])
  }

  predicate Survives(p: Plan)
    requires p.Valid() && p.Encodable()
  {
    && p.now < 1_000_000_000_000 && |p.Armap()| < 10_000_000_000 && |LongTable(p.ms)| < 10_000_000_000
    && forall k :: 0 <= k < |p.ms| ==> Recoverable(p.ms[k])
  }

  /* ----- widths ----- */

  function Power(base: nat, w: nat): nat { if w == 0 then 1 else base * Power(base, w - 1) }

  lemma {:induction false} DigitsWidth(n: nat, base: nat, w: nat)
    requires base == 8 || base == 10
    ensures |Digits(n, base)| <= w <==> w > 0 && n < Power(base, w)
  {
    if w == 0 {
    } else if n < base {
      PowerGrows(base, w);
    } else if w == 1 {
      DigitsWidth(n / base, base, 0);
      assert Power(base, 1) == base * Power(base, 0) == base;
    } else {
      DigitsWidth(n / base, base, w - 1);
      assert n / base < Power(base, w - 1) <==> n < base * Power(base, w - 1);
    }
  }

  lemma {:induction false} PowerGrows(base: nat, w: nat)
    requires w > 0 && base > 0
    ensures Power(base, w) >= base
  {
    if w > 1 {
      PowerGrows(base, w - 1);
    }
  }

  lemma Powers()
    ensures Power(10, 6) == 1_000_000 && Power(10, 10) == 10_000_000_000 && Power(10, 12) == 1_000_000_000_000
    ensures Power(8, 8) == 0x100_0000
  {
    assert Power(10, 3) == 1_000;
    assert Power(10, 6) == 1_000_000;
    assert Power(10, 9) == 1_000_000_000;
    assert Power(10, 12) == 1_000_000_000_000;
    assert Power(8, 3) == 0x200;
    assert Power(8, 6) == 0x4_0000;
  }

  lemma NarrowIs(h: Header)
    ensures Narrow(h) <==>
      && |h.name| <= 16 && h.time < 1_000_000_000_000 && h.uid < 1_000_000 && h.gid < 1_000_000
      && h.mode < 0x100_0000 && h.size < 10_000_000_000
  {
    hide Digits, Power;
    Powers();
    DigitsWidth(h.time, 10, 12);
    DigitsWidth(h.uid, 10, 6);
    DigitsWidth(h.gid, 10, 6);
    DigitsWidth(h.mode, 8, 8);
    DigitsWidth(h.size, 10, 10);
  }

  /* ----- one header ----- */

  lemma {:induction false} StripRightSpaces(s: Text, n: nat)
    ensures StripRight(s + Spaces(n)) == StripRight(s)
  {
    var p := s + Spaces(n);
    if n == 0 {
      assert p == s;
    } else {
      assert p[..|p| - 1] == s + Spaces(n - 1);
      StripRightSpaces(s, n - 1);
    }
  }

  lemma {:induction false} StripLeftSpaces(s: Text, n: nat)
    ensures StripLeft(s + Spaces(n)) == if StripLeft(s) == [] then [] else StripLeft(s) + Spaces(n)
  {
    if s == [] {
      assert s + Spaces(n) == Spaces(n);
      StripBlanks(n);
    } else if White(s[0]) {
      assert (s + Spaces(n))[1..] == s[1..] + Spaces(n);
      StripLeftSpaces(s[1..], n);
    }
  }

  lemma StripPad(s: Text, w: nat)
    ensures Strip(Pad(s, w)) == Strip(s)
  {
    if |s| <= w {
      StripLeftSpaces(s, w - |s|);
      StripRightSpaces(StripLeft(s), w - |s|);
    }
  }

  /** The header as it is read: its name without white space at the ends. */
  function AsRead(h: Header): Header { h.(name := Strip(h.name)) }

  lemma NarrowRead(h: Header, rest: Text)
    requires Narrow(h) && Ascii(h.name)
    ensures ReadHeader(PrintHeader(h) + rest) == Ok(AsRead(h))
  {
    hide PrintHeader, Pad, Digits, ParseNat, Strip, Ascii;
    HeaderFields(h, rest);
    StripPad(h.name, 16);
    PadAscii(h.name, 16);
    NumberField(h.time, 10, 12);
    NumberField(h.uid, 10, 6);
    NumberField(h.gid, 10, 6);
    NumberField(h.mode, 8, 8);
    NumberField(h.size, 10, 10);
  }

  lemma PadAscii(s: Text, w: nat)
    requires Ascii(s)
    ensures Ascii(Pad(s, w))
  {
  }

  /** No character of `s` is the one that ends a header. */
  predicate Endless(s: Text) { 96 !in s }

  lemma EndlessField(n: nat, base: nat, w: nat)
    requires base == 8 || base == 10
    ensures Endless(Pad(Digits(n, base), w)) && |Pad(Digits(n, base), w)| >= w
  {
  }

  /** A header that is too wide is not read, because its end is not where it should be. */
  lemma WideFails(h: Header, rest: Text)
    requires !Narrow(h) && (|h.name| <= 16 || Endless(h.name))
    ensures ReadHeader(PrintHeader(h) + rest).Failed? && PrintHeader(h) != []
  {
    hide Digits, ParseNat, Strip, Ascii, Pad;
    EndlessField(h.time, 10, 12);
    EndlessField(h.uid, 10, 6);
    EndlessField(h.gid, 10, 6);
    EndlessField(h.mode, 8, 8);
    EndlessField(h.size, 10, 10);
    var name := Pad(h.name, 16);
    var behind := Pad(Digits(h.time, 10), 12) + Pad(Digits(h.uid, 10), 6) + Pad(Digits(h.gid, 10), 6)
      + Pad(Digits(h.mode, 8), 8) + Pad(Digits(h.size, 10), 10);
    PadWidth(h);
    WideEnd(name, behind, rest);
    assert PrintHeader(h) == name + behind + END_MARK;
  }

  lemma PadWidth(h: Header)
    requires |h.name| <= 16 || Endless(h.name)
    ensures |Pad(h.name, 16)| >= 16 && (|Pad(h.name, 16)| == 16 || Endless(Pad(h.name, 16)))
    ensures !Narrow(h) ==>
      |Pad(h.name, 16)| + |Pad(Digits(h.time, 10), 12)| + |Pad(Digits(h.uid, 10), 6)| + |Pad(Digits(h.gid, 10), 6)|
        + |Pad(Digits(h.mode, 8), 8)| + |Pad(Digits(h.size, 10), 10)| > 58
  {
    hide Digits;
  }

  lemma WideEnd(name: Text, behind: Text, rest: Text)
    requires |name| >= 16 && (|name| == 16 || Endless(name)) && Endless(behind) && |name + behind| > 58
    ensures var s := name + behind + END_MARK + rest; |s| >= 60 && s[58] != 96 && s[58..60] != END_MARK
  {
    var s := name + behind + END_MARK + rest;
    assert s[58] == (name + behind)[58] && s[58..60][0] == s[58];
  }

  /* ----- an archive as a list of entries ----- */

  datatype Entry = Entry(h: Header, data: Text)

  function AppendAll(b: Text, es: seq<Entry>): Text
    decreases |es|
  {
    if es == [] then b else AppendAll(Append(b, es[0].h, es[0].data), es[1..])
  }

  function MemberEntries(ms: seq<Member>, k: nat): (es: seq<Entry>)
    requires k <= |ms|
    ensures |es| == |ms| - k
    decreases |ms| - k
  {
    if k == |ms| then [] else [Entry(MemberHeader(ms, k), ms[k].data)] + MemberEntries(ms, k + 1)
  }

  function AllEntries(p: Plan): seq<Entry>
    requires p.Valid() && p.Encodable()
  {
    [Entry(ArmapHeader(p.now, p.Armap()), p.Armap()), Entry(TableHeader(p.now, p.ms), LongTable(p.ms))] + MemberEntries(p.ms, 0)
  }

  lemma {:induction false} BuiltFrom(ms: seq<Member>, now: nat, armap: Text, k: nat)
    requires k <= |ms|
    ensures Built(ms, now, armap, |ms|) == AppendAll(Built(ms, now, armap, k), MemberEntries(ms, k))
    decreases |ms| - k
  {
    hide Append, MemberHeader;
    if k < |ms| {
      BuiltFrom(ms, now, armap, k + 1);
      var e := Entry(MemberHeader(ms, k), ms[k].data);
      assert ([e] + MemberEntries(ms, k + 1))[1..] == MemberEntries(ms, k + 1);
    }
  }

  lemma ImageIs(p: Plan)
    requires p.Valid() && p.Encodable()
    ensures p.Image() == AppendAll(MAGIC, AllEntries(p))
  {
    hide Append, MemberHeader, ArmapHeader, TableHeader, LongTable, Plan.Encodable, Plan.Armap;
    BuiltFrom(p.ms, p.now, p.Armap(), 0);
    var es := AllEntries(p);
    assert es[1..][1..] == MemberEntries(p.ms, 0);
  }

  lemma {:induction false} AppendedBehind(b: Text, es: seq<Entry>) returns (s: Text)
    ensures AppendAll(b, es) == b + s
    decreases |es|
  {
    hide PrintHeader;
    if es == [] {
      s := [];
      assert b + [] == b;
    } else {
      var next := Append(b, es[0].h, es[0].data);
      var rest := AppendedBehind(next, es[1..]);
      s := next[|b|..] + rest;
      assert next == b + next[|b|..];
    }
  }

  /* ----- reading a list of entries ----- */

  function TakeAll(c: Contents, es: seq<Entry>): Result<Contents>
    decreases |es|
  {
    if es == [] then Ok(c)
    else
      var one := Take(c, AsRead(es[0].h), es[0].data);
      if one.Failed? then Failed else TakeAll(one.value, es[1..])
  }

  predicate Sound(e: Entry) { Ascii(e.h.name) && e.h.size == |e.data| && (|e.h.name| <= 16 || Endless(e.h.name)) }

  /** What is read from an image succeeds only if every header is narrow, and then takes one entry after the other. */
  lemma {:induction false} ReadsAll(b: Text, es: seq<Entry>, s: Text, c: Contents)
    requires |b| % 2 == 0 && AppendAll(b, es) == b + s && forall i :: 0 <= i < |es| ==> Sound(es[i])
    ensures if forall i :: 0 <= i < |es| ==> Narrow(es[i].h) then ReadEntries(s, c) == TakeAll(c, es)
            else ReadEntries(s, c).Failed?
    decreases |es|
  {
    hide Append, Take, ReadEntries, Narrow, Sound, Ascii;
    if es == [] {
      assert |b + s| == |b|;
      NothingLeft(s, c);
    } else {
      var e, next := es[0], Append(b, es[0].h, es[0].data);
      var rest := AppendedBehind(next, es[1..]);
      assert Sound(e);
      if Narrow(e.h) {
        AppendNarrow(b, e, s, rest);
        EntryTaken(e, rest, c);
        assert forall i :: 0 <= i < |es[1..]| ==> es[1..][i] == es[i + 1];
        var one := Take(c, AsRead(e.h), e.data);
        if one.Ok? {
          ReadsAll(next, es[1..], rest, one.value);
        }
        AllNarrow(es);
      } else {
        WideEntry(b, e, s, rest, c);
      }
    }
  }

  lemma NothingLeft(s: Text, c: Contents)
    requires s == []
    ensures ReadEntries(s, c) == Ok(c)
  {
  }

  lemma AppendNarrow(b: Text, e: Entry, s: Text, rest: Text)
    requires |b| % 2 == 0 && Narrow(e.h) && Append(b, e.h, e.data) + rest == b + s
    ensures s == Printed(e.h, e.data) + rest && |Append(b, e.h, e.data)| % 2 == 0
  {
    HeaderFields(e.h, []);
    hide PrintHeader, Narrow;
    assert PrintHeader(e.h) + [] == PrintHeader(e.h);
    assert Append(b, e.h, e.data) == b + Printed(e.h, e.data);
    Behind(b, Printed(e.h, e.data), rest, s);
  }

  lemma Behind(b: Text, x: Text, rest: Text, s: Text)
    requires (b + x) + rest == b + s
    ensures s == x + rest
  {
    assert b + (x + rest) == b + s;
    assert (b + s)[|b|..] == s && (b + (x + rest))[|b|..] == x + rest;
  }

  lemma EntryTaken(e: Entry, rest: Text, c: Contents)
    requires Narrow(e.h) && Sound(e)
    ensures var one := Take(c, AsRead(e.h), e.data);
      ReadEntries(Printed(e.h, e.data) + rest, c) == if one.Failed? then Failed else ReadEntries(rest, one.value)
  {
    hide PrintHeader, ReadHeader, Narrow, Take, ReadEntries, ReadOne, Printed, PadOf, Drop, Strip;
    PrintedIs(e.h, e.data, rest);
    var more := e.data + PadOf(e.data) + rest;
    NarrowRead(e.h, more);
    HeaderFields(e.h, more);
    HeaderFields(e.h, []);
    assert PrintHeader(e.h) + [] == PrintHeader(e.h);
    EntryParts(PrintHeader(e.h), e.data, rest);
    ReadOneMore(Printed(e.h, e.data) + rest, AsRead(e.h), e.data, c);
  }

  lemma AllNarrow(es: seq<Entry>)
    requires es != []
    ensures (forall i :: 0 <= i < |es| ==> Narrow(es[i].h)) <==>
      Narrow(es[0].h) && forall i :: 0 <= i < |es[1..]| ==> Narrow(es[1..][i].h)
  {
    hide Narrow;
    if Narrow(es[0].h) && forall i :: 0 <= i < |es[1..]| ==> Narrow(es[1..][i].h) {
      forall i | 0 <= i < |es| ensures Narrow(es[i].h) {
        if i > 0 {
          assert Narrow(es[1..][i - 1].h);
        }
      }
    }
  }

  lemma WideEntry(b: Text, e: Entry, s: Text, rest: Text, c: Contents)
    requires !Narrow(e.h) && Sound(e) && Append(b, e.h, e.data) + rest == b + s
    ensures ReadEntries(s, c).Failed?
  {
    hide PrintHeader, ReadHeader, Narrow;
    var x := PrintHeader(e.h);
    var pad: Text := if |b + x + e.data| % 2 != 0 then [0] else [];
    assert Append(b, e.h, e.data) == b + (x + (e.data + pad));
    Behind(b, x + (e.data + pad), rest, s);
    assert s == x + (e.data + pad + rest);
    WideFails(e.h, e.data + pad + rest);
  }

  /* ----- members that come back ----- */

  /** At most one member is added. */
  lemma TakesOne(c: Contents, h: Header, data: Text)
    requires Take(c, h, data).Ok?
    ensures var d := Take(c, h, data).value; c.members <= d.members && |d.members| <= |c.members| + 1
  {
    hide ParseNat, FirstLine, Ascii;
  }

  lemma {:induction false} TakesFew(c: Contents, es: seq<Entry>)
    requires TakeAll(c, es).Ok?
    ensures var d := TakeAll(c, es).value; c.members <= d.members && |d.members| <= |c.members| + |es|
    decreases |es|
  {
    hide Take;
    if es != [] {
      TakesOne(c, AsRead(es[0].h), es[0].data);
      TakesFew(Take(c, AsRead(es[0].h), es[0].data).value, es[1..]);
    }
  }

  lemma {:induction false} StripRightShorter(s: Text)
    ensures StripRight(s) <= s && (s != [] && !White(s[|s| - 1]) ==> StripRight(s) == s)
  {
    if s != [] && White(s[|s| - 1]) {
      StripRightShorter(s[..|s| - 1]);
    }
  }

  lemma {:induction false} StripLeftKeeps(s: Text)
    requires s != [] && !White(s[|s| - 1])
    ensures var t := StripLeft(s); t != [] && |t| <= |s| && t[|t| - 1] == s[|s| - 1] && (White(s[0]) ==> |t| < |s|)
  {
    if White(s[0]) {
      StripLeftKeeps(s[1..]);
    }
  }

  /** A short name, with its slash, is only stripped on the left. */
  lemma ShortRead(name: Text)
    ensures var t := Strip(name + [SLASH]);
      && t != [] && t[|t| - 1] == SLASH && |t| <= |name| + 1
      && (name != [] && White(name[0]) ==> |t| <= |name|)
      && (name != [] && !White(name[0]) ==> t == name + [SLASH])
      && (name == [] ==> t == [SLASH])
  {
    var s := name + [SLASH];
    StripLeftKeeps(s);
    StripRightShorter(StripLeft(s));
  }

  lemma EndsInSlash(s: Text, base: nat)
    requires (base == 8 || base == 10) && s != [] && s[|s| - 1] == SLASH
    ensures ParseNat(s, base).Failed?
  {
    StripLeftKeeps(s);
    StripRightShorter(StripLeft(s));
  }

  /** If a short name comes back, it could. */
  lemma ShortComesBack(m: Member, h: Header, data: Text, c: Contents)
    requires |m.name| < 16 && h.name == Strip(m.name + [SLASH])
    requires Take(c, h, data).Ok? && Take(c, h, data).value.members == c.members + [m]
    ensures Readable(m) && Take(c, h, data).value.long == c.long
  {
    hide ParseNat, FirstLine, Ascii, Strip;
    ShortRead(m.name);
    var t := h.name;
    assert |(c.members + [m])| == |c.members| + 1;
    assert t != [SLASH] && t != [SLASH, SLASH];
    if t[0] == SLASH {
      assert t[1..][|t[1..]| - 1] == t[|t| - 1];
      EndsInSlash(t[1..], 10);
    } else {
      assert (c.members + [m])[|c.members|] == m;
      assert ButLast(t) == m.name;
    }
  }

  lemma {:induction false} LineEnds(name: Text, rest: Text)
    requires NEWLINE in name
    ensures |FirstLine(name + rest)| < |name|
  {
    if name[0] != NEWLINE {
      assert (name + rest)[1..] == name[1..] + rest;
      LineEnds(name[1..], rest);
    }
  }

  lemma TakeLine(c: Contents, h: Header, data: Text, at: nat)
    requires h.name != [SLASH] && h.name != [SLASH, SLASH] && h.name != [] && h.name[0] == SLASH && c.long.Seen?
    requires ParseNat(h.name[1..], 10) == Ok(at)
    ensures Take(c, h, data) == Ok(Keep(c, h, FirstLine(Drop(c.long.table, at)), data))
  {
    hide ParseNat, FirstLine, Drop;
  }

  lemma LongTakes(ms: seq<Member>, k: nat, c: Contents)
    requires k < |ms| && IsLong(ms[k]) && c.long == Seen(LongTable(ms))
    ensures var h, at := MemberHeader(ms, k), |LongNames(ms, k)|;
      Take(c, AsRead(h), ms[k].data) == Ok(Keep(c, h, FirstLine(Drop(LongTable(ms), at)), ms[k].data))
  {
    LongHeader(ms, k);
    LongStripped(ms, k);
    DigitsRead(|LongNames(ms, k)|);
    hide LongNames, LongTable, ParseNat, FirstLine, MemberHeader, Digits, Strip, IsLong, Take, Drop;
    TakeLine(c, MemberHeader(ms, k), ms[k].data, |LongNames(ms, k)|);
  }

  lemma KeptName(c: Contents, h: Header, name: Text, data: Text, m: Member)
    requires Keep(c, h, name, data).members == c.members + [m]
    ensures ButLast(name) == m.name && Keep(c, h, name, data).long == c.long
  {
    assert (c.members + [m])[|c.members|] == m;
  }

  /** If a long name comes back, it could. */
  lemma LongComesBack(ms: seq<Member>, k: nat, c: Contents)
    requires k < |ms| && IsLong(ms[k]) && c.long == Seen(LongTable(ms))
    requires var t := Take(c, AsRead(MemberHeader(ms, k)), ms[k].data); t.Ok? && t.value.members == c.members + [ms[k]]
    ensures Readable(ms[k]) && Take(c, AsRead(MemberHeader(ms, k)), ms[k].data).value.long == c.long
  {
    hide LongNames, LongTable, FirstLine, MemberHeader, AsRead, Take, Keep, Drop;
    var h, at, m := MemberHeader(ms, k), |LongNames(ms, k)|, ms[k];
    LongTakes(ms, k, c);
    KeptName(c, h, FirstLine(Drop(LongTable(ms), at)), m.data, m);
    if NEWLINE in m.name {
      LongStands(ms, k);
      var t := LongTable(ms)[at..];
      assert t == m.name + t[|m.name|..];
      LineEnds(m.name, t[|m.name|..]);
    }
  }

  lemma LongStripped(ms: seq<Member>, k: nat)
    requires k < |ms| && IsLong(ms[k])
    ensures AsRead(MemberHeader(ms, k)) == MemberHeader(ms, k)
  {
    LongHeader(ms, k);
    DigitsRead(|LongNames(ms, k)|);
    var name := MemberHeader(ms, k).name;
    hide LongNames, Digits, MemberHeader;
    StripLeftKeeps(name);
    StripRightShorter(StripLeft(name));
  }

  lemma SliceInside(t: Text, at: nat, x: Text, n: nat)
    requires at + |x| <= |t| && t[at..at + |x|] == x && n <= |x|
    ensures t[at..][..n] == x[..n]
  {
    assert t[at..][..n] == t[at..at + |x|][..n];
  }

  /** Where a long name stands in the table. */
  lemma LongStands(ms: seq<Member>, k: nat)
    requires k < |ms| && IsLong(ms[k])
    ensures var t, at, n := LongTable(ms), |LongNames(ms, k)|, ms[k].name;
      at + |n| <= |t| && t[at..][..|n|] == n && Drop(t, at) == t[at..]
  {
    hide LongNames, LongTable;
    LongTableStarts(ms, k + 1);
    LongNameNext(ms, k);
    var t, l, at, n := LongTable(ms), LongNames(ms, k + 1), |LongNames(ms, k)|, ms[k].name;
    var line := n + [SLASH] + [NEWLINE];
    SliceOfPrefix(t, l, at, at + |line|);
    SliceInside(t, at, line, |n|);
    assert line[..|n|] == n;
  }

  lemma ComesBack(ms: seq<Member>, k: nat, c: Contents)
    requires k < |ms| && c.long == Seen(LongTable(ms))
    requires var t := Take(c, AsRead(MemberHeader(ms, k)), ms[k].data); t.Ok? && t.value.members == c.members + [ms[k]]
    ensures Readable(ms[k]) && Take(c, AsRead(MemberHeader(ms, k)), ms[k].data).value.long == c.long
  {
    if IsLong(ms[k]) {
      LongComesBack(ms, k, c);
    } else {
      hide LongTable, Take;
      ShortComesBack(ms[k], AsRead(MemberHeader(ms, k)), ms[k].data, c);
    }
  }

  /** If all members come back, all could. */
  lemma {:induction false} AllComeBack(ms: seq<Member>, k: nat, c: Contents)
    requires k <= |ms| && c.long == Seen(LongTable(ms))
    requires var t := TakeAll(c, MemberEntries(ms, k)); t.Ok? && t.value.members == c.members + ms[k..]
    ensures forall j :: k <= j < |ms| ==> Readable(ms[j])
    decreases |ms| - k
  {
    hide Take, MemberHeader, LongTable, Readable, AsRead;
    if k < |ms| {
      var es, h := MemberEntries(ms, k), MemberHeader(ms, k);
      assert es[0] == Entry(h, ms[k].data) && es[1..] == MemberEntries(ms, k + 1);
      var d := Take(c, AsRead(h), ms[k].data).value;
      TakesOne(c, AsRead(h), ms[k].data);
      TakesFew(d, es[1..]);
      OneByOne(c.members, d.members, ms, k);
      ComesBack(ms, k, c);
      assert (c.members + [ms[k]]) + ms[k + 1..] == c.members + ms[k..];
      AllComeBack(ms, k + 1, d);
    }
  }

  /** What is added by one entry is one member, if one for each entry is there in the end. */
  lemma OneByOne(a: seq<Member>, b: seq<Member>, ms: seq<Member>, k: nat)
    requires k < |ms| && a <= b && |b| <= |a| + 1 && b <= a + ms[k..] && |a + ms[k..]| <= |b| + (|ms| - k - 1)
    ensures b == a + [ms[k]]
  {
    assert |b| == |a| + 1 && b[|a|] == (a + ms[k..])[|a|] == ms[k];
  }

  /* ----- the exact condition ----- */

  lemma EntriesSound(p: Plan)
    requires p.Valid() && p.Encodable() && Plain(p.ms)
    ensures forall i :: 0 <= i < |AllEntries(p)| ==> Sound(AllEntries(p)[i])
  {
    hide LongNames, LongTable, Plan.Encodable, Plan.Armap, Sound;
    var es := AllEntries(p);
    HeadSound(p);
    forall i | 0 <= i < |es| ensures Sound(es[i]) {
      if i >= 2 {
        MemberEntry(p.ms, 0, i - 2);
        MemberSound(p.ms, i - 2);
      }
    }
  }

  lemma HeadSound(p: Plan)
    requires p.Valid() && p.Encodable()
    ensures Sound(Entry(ArmapHeader(p.now, p.Armap()), p.Armap())) && Sound(Entry(TableHeader(p.now, p.ms), LongTable(p.ms)))
  {
    hide LongTable, Plan.Encodable, Plan.Armap;
  }

  lemma {:induction false} MemberEntry(ms: seq<Member>, k: nat, i: nat)
    requires k + i < |ms|
    ensures MemberEntries(ms, k)[i] == Entry(MemberHeader(ms, k + i), ms[k + i].data)
    decreases i
  {
    hide MemberHeader;
    if i > 0 {
      MemberEntry(ms, k + 1, i - 1);
    }
  }

  lemma MemberSound(ms: seq<Member>, k: nat)
    requires Plain(ms) && k < |ms|
    ensures Sound(Entry(MemberHeader(ms, k), ms[k].data))
  {
    hide LongNames;
    assert Ascii(ms[k].name);
    if IsLong(ms[k]) {
      DigitsPlain(|LongNames(ms, k)|);
    }
  }

  lemma DigitsPlain(n: nat)
    ensures Ascii([SLASH] + Digits(n, 10)) && Endless([SLASH] + Digits(n, 10))
  {
  }

  lemma MemberNarrow(ms: seq<Member>, k: nat)
    requires k < |ms| && |LongTable(ms)| < 10_000_000_000
    ensures Narrow(MemberHeader(ms, k)) <==>
      && ms[k].time < 1_000_000_000_000 && ms[k].uid < 1_000_000 && ms[k].gid < 1_000_000
      && ms[k].mode < 0x100_0000 && ms[k].size < 10_000_000_000
  {
    NarrowIs(MemberHeader(ms, k));
    LongTableStarts(ms, k);
    hide LongNames, LongTable, Narrow, Digits, Power;
    Powers();
    DigitsWidth(|LongNames(ms, k)|, 10, 10);
  }

  lemma BlankIs(b: Byte)
    ensures White(b) <==> Blank(b)
  {
  }

  lemma MemberFitsIs(ms: seq<Member>, k: nat)
    requires k < |ms| && |LongTable(ms)| < 10_000_000_000 && Plain(ms)
    ensures Recoverable(ms[k]) <==> Narrow(MemberHeader(ms, k)) && Readable(ms[k])
    ensures Recoverable(ms[k]) ==> Fits(MemberHeader(ms, k))
  {
    hide LongNames, LongTable, Narrow, Digits, White, Blank, MemberHeader;
    MemberNarrow(ms, k);
    if ms[k].name != [] {
      BlankIs(ms[k].name[0]);
    }
    if Readable(ms[k]) {
      NameTrimmed(ms, k);
    }
  }

  lemma NameTrimmed(ms: seq<Member>, k: nat)
    requires k < |ms| && Plain(ms) && Readable(ms[k])
    ensures Trimmed(MemberHeader(ms, k).name)
  {
    hide LongNames, Digits;
    assert Ascii(ms[k].name);
    if IsLong(ms[k]) {
      LongHeader(ms, k);
      DigitsRead(|LongNames(ms, k)|);
    }
  }

  lemma EntriesNarrow(p: Plan)
    requires p.Valid() && p.Encodable()
    ensures (forall i :: 0 <= i < |AllEntries(p)| ==> Narrow(AllEntries(p)[i].h)) <==>
      && Narrow(ArmapHeader(p.now, p.Armap())) && Narrow(TableHeader(p.now, p.ms))
      && forall k :: 0 <= k < |p.ms| ==> Narrow(MemberHeader(p.ms, k))
  {
    hide LongTable, Plan.Encodable, Plan.Armap, Narrow, MemberHeader, ArmapHeader, TableHeader;
    var es := AllEntries(p);
    assert es[0].h == ArmapHeader(p.now, p.Armap()) && es[1].h == TableHeader(p.now, p.ms);
    forall k | 0 <= k < |p.ms| ensures es[k + 2].h == MemberHeader(p.ms, k) {
      MemberEntry(p.ms, 0, k);
    }
    if forall i :: 0 <= i < |es| ==> Narrow(es[i].h) {
      forall k | 0 <= k < |p.ms| ensures Narrow(MemberHeader(p.ms, k)) {
        assert Narrow(es[k + 2].h);
      }
    }
    if Narrow(es[0].h) && Narrow(es[1].h) && forall k :: 0 <= k < |p.ms| ==> Narrow(MemberHeader(p.ms, k)) {
      forall i | 0 <= i < |es| ensures Narrow(es[i].h) {
        if i >= 2 {
          assert Narrow(MemberHeader(p.ms, i - 2));
        }
      }
    }
  }

  lemma HeadNarrow(p: Plan)
    requires p.Valid() && p.Encodable()
    ensures Narrow(ArmapHeader(p.now, p.Armap())) && Narrow(TableHeader(p.now, p.ms)) <==>
      p.now < 1_000_000_000_000 && |p.Armap()| < 10_000_000_000 && |LongTable(p.ms)| < 10_000_000_000
    ensures Trimmed(ArmapHeader(p.now, p.Armap()).name) && Trimmed(TableHeader(p.now, p.ms).name)
  {
    hide LongTable, Plan.Encodable, Plan.Armap, Narrow;
    NarrowIs(ArmapHeader(p.now, p.Armap()));
    NarrowIs(TableHeader(p.now, p.ms));
  }

  /** The conditions of the round trip, in numbers. */
  lemma SurvivesIs(p: Plan)
    requires p.Valid() && p.Encodable() && Plain(p.ms)
    ensures Survives(p) <==>
      && (forall i :: 0 <= i < |AllEntries(p)| ==> Narrow(AllEntries(p)[i].h))
      && forall k :: 0 <= k < |p.ms| ==> Readable(p.ms[k])
    ensures Survives(p) ==> PlanFits(p)
  {
    hide LongTable, Plan.Encodable, Plan.Armap, Narrow, MemberHeader, ArmapHeader, TableHeader, AllEntries, Recoverable, Readable,
         Trimmed;
    EntriesNarrow(p);
    HeadNarrow(p);
    if |LongTable(p.ms)| < 10_000_000_000 {
      forall k | 0 <= k < |p.ms|
        ensures Recoverable(p.ms[k]) <==> Narrow(MemberHeader(p.ms, k)) && Readable(p.ms[k])
        ensures Recoverable(p.ms[k]) ==> Fits(MemberHeader(p.ms, k))
      {
        MemberFitsIs(p.ms, k);
      }
    }
  }

  /* ----- the round trip ----- */

  lemma HeadTaken(p: Plan, clock: nat)
    requires p.Valid() && p.Encodable() && Plain(p.ms)
    ensures TakeAll(Contents([], clock, Unseen), AllEntries(p)) ==
      TakeAll(Contents([], p.now, Seen(LongTable(p.ms))), MemberEntries(p.ms, 0))
  {
    hide LongTable, Plan.Encodable, Plan.Armap, MemberHeader;
    var es, c := AllEntries(p), Contents([], clock, Unseen);
    LongTableAscii(p.ms);
    assert Strip([SLASH]) == [SLASH] && Strip([SLASH, SLASH]) == [SLASH, SLASH];
    hide Strip;
    MapTaken(c, p.now, p.Armap());
    TableTaken(c.(time := p.now), p.ms);
    assert es[1..][0] == es[1] && es[1..][1..] == MemberEntries(p.ms, 0);
  }

  /** What is read from an image holds the members it was built from exactly if they meet the condition. */
  lemma RoundTripExactly(p: Plan, clock: nat)
    requires p.Valid() && p.Encodable() && Plain(p.ms)
    ensures [0x21, 0x3C, 0x61, 0x72, 0x63, 0x68, 0x3E, 0x0A] <= p.Image()
    ensures var r := ReadEntries(p.Image()[8..], Contents([], clock, Unseen));
      r.Ok? && r.value.members == p.ms <==> Survives(p)
  {
    hide *;
    var c, d := Contents([], clock, Unseen), Contents([], p.now, Seen(LongTable(p.ms)));
    ImageIs(p);
    var s := AppendedBehind(MAGIC, AllEntries(p));
    AfterMagic(p.Image(), s);
    MagicIs(p.Image());
    EntriesSound(p);
    ReadsAll(MAGIC, AllEntries(p), s, c);
    SurvivesIs(p);
    HeadTaken(p, clock);
    if Survives(p) {
      RoundTrip(p, clock);
    } else if ReadEntries(s, c).Ok? && ReadEntries(s, c).value.members == p.ms {
      assert [] + p.ms[0..] == p.ms;
      AllComeBack(p.ms, 0, d);
    }
  }

  /** A name that starts with a slash is lost, as the smallest case. */
  lemma SlashLost(p: Plan, clock: nat)
    requires p.ms == [Member([47, 97], 0, 0, 0, 0, 0, [])] && p.symbols == [[]]
    ensures p.Valid() && p.Encodable()
    ensures var r := ReadEntries(p.Image()[8..], Contents([], clock, Unseen)); !(r.Ok? && r.value.members == p.ms)
  {
    hide ReadEntries, Built, Drop, Plan.Image, LongTable;
    assert |p.symbols[0]| == 0 && Owners(p.symbols, 0) == [];
    assert p.AllOwners() == [];
    assert p.ms[0].name[0] == 47;
    assert !Recoverable(p.ms[0]);
    RoundTripExactly(p, clock);
  }

  /** The two programs together. */
  method BuildAndRead(p: Plan, clock: nat) returns (r: Result<Contents>)
    requires p.Valid() && p.Encodable() && Plain(p.ms)
    ensures r.Ok? && r.value.members == p.ms <==> Survives(p)
  {
    var image := BuildImage(p);
    RoundTripExactly(p, clock);
    r := FromImage(image.value, clock);
  }
}
