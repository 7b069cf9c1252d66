/** Reading an archive image back, and the round trip. */
module ArchiveRead {
  import opened Bytes
  import opened ArchiveText
  import opened Archive
  import opened ArchiveBuild

  datatype LongNamesSeen = Unseen | Seen(table: Text)

  /** What the reader has gathered so far. */
  datatype Contents = Contents(members: seq<Member>, time: nat, long: LongNamesSeen)

  function Drop(s: Text, n: nat): Text { if n <= |s| then s[n..] else [] }

  function ButLast(s: Text): Text { if s == [] then [] else s[..|s| - 1] }

  /** The bytes that an entry with this header takes. */
  function EntrySize(h: Header): nat { HEADER_SIZE + h.size + h.size % 2 }

  /** One entry: the symbol map, the table of long names, or a member. */
  function Take(c: Contents, h: Header, data: Text): Result<Contents> {
    if h.name == [SLASH] then
      if h.uid == h.gid == h.mode == 0 then Ok(c.(time := h.time)) else Failed
    else if h.name == [SLASH, SLASH] then
      if h.time == c.time && h.uid == h.gid == h.mode == 0 && Ascii(data) then Ok(c.(long := Seen(data))) else Failed
    else if h.name != [] && h.name[0] == SLASH then
      if c.long.Unseen? then Failed
      else
        var at := ParseNat(h.name[1..], 10);
        if at.Failed? then Failed else Ok(Keep(c, h, FirstLine(Drop(c.long.table, at.value)), data))
    else
      Ok(Keep(c, h, h.name, data))
  }

  /** Adds a member, whose name loses its last character. */
  function Keep(c: Contents, h: Header, name: Text, data: Text): Contents {
    c.(members := c.members + [Member(ButLast(name), h.time, h.uid, h.gid, h.mode, h.size, data)])
  }

  /** The first entry of `s`, and the bytes it takes. */
  function ReadOne(s: Text, c: Contents): (r: Result<(Contents, nat)>)
    ensures r.Ok? ==> r.value.1 >= HEADER_SIZE
  {
    var h := ReadHeader(s);
    if h.Failed? || HEADER_SIZE + h.value.size > |s| then Failed
    else
      var next := Take(c, h.value, s[HEADER_SIZE..HEADER_SIZE + h.value.size]);
      if next.Failed? then Failed else Ok((next.value, EntrySize(h.value)))
  }

  function ReadEntries(s: Text, c: Contents): Result<Contents>
    decreases |s|
  {
    if s == [] then Ok(c)
    else
      var one := ReadOne(s, c);
      if one.Failed? then Failed else ReadEntries(Drop(s, one.value.1), one.value.0)
  }

  lemma MagicIs(image: Text)
    ensures MAGIC == [0x21, 0x3C, 0x61, 0x72, 0x63, 0x68, 0x3E, 0x0A]
    ensures |image| >= 8 ==> Drop(image, |MAGIC|) == image[8..]
  {
  }

  /** The reader; `clock` is the time it starts with. */
  method FromImage(image: Text, clock: nat) returns (r: Result<Contents>)
    ensures r ==
      if [0x21, 0x3C, 0x61, 0x72, 0x63, 0x68, 0x3E, 0x0A] <= image then ReadEntries(image[8..], Contents([], clock, Unseen))
      else Failed
  {
    hide ReadOne, Drop, ReadEntries;
    MagicIs(image);
    if !(MAGIC <= image) {
      return Failed;
    }
    var c := Contents([], clock, Unseen);
    var i: nat := |MAGIC|;
    while i < |image|
      invariant ReadEntries(Drop(image, |MAGIC|), Contents([], clock, Unseen)) == ReadEntries(Drop(image, i), c)
    {
      ReadNext(image, i, c);
      var one := ReadOne(image[i..], c);
      if one.Failed? {
        return Failed;
      }
      c := one.value.0;
      i := i + one.value.1;
    }
    ReadEnd(image, i, c);
    r := Ok(c);
  }

  lemma ReadNext(image: Text, i: nat, c: Contents)
    requires i < |image|
    ensures var one := ReadOne(image[i..], c);
      ReadEntries(Drop(image, i), c) == if one.Failed? then Failed else ReadEntries(Drop(image, i + one.value.1), one.value.0)
  {
    hide ReadOne;
    var one := ReadOne(image[i..], c);
    assert Drop(image, i) == image[i..];
    if one.Ok? {
      assert Drop(image[i..], one.value.1) == Drop(image, i + one.value.1);
    }
  }

  lemma ReadEnd(image: Text, i: nat, c: Contents)
    requires i >= |image|
    ensures ReadEntries(Drop(image, i), c) == Ok(c)
  {
  }

  /** Whatever is read as an entry was one: what the reader demands of its header, and what it takes from it. */
  lemma EntryDemands(s: Text, c: Contents)
    requires ReadOne(s, c).Ok?
    ensures |s| >= 60 && s[58] == 0x60 && s[59] == 0x0A && ReadHeader(s).Ok?
    ensures forall i :: 0 <= i < 16 ==> s[i] < 128
    ensures
      var h, d := ReadHeader(s).value, ReadOne(s, c).value.0;
      && ReadOne(s, c).value.1 == 60 + h.size + h.size % 2 && |s| >= 60 + h.size
      && var data := s[60..60 + h.size];
         if h.name == [47] then h.uid == h.gid == h.mode == 0 && d == c.(time := h.time)
         else if h.name == [47, 47] then
           && h.uid == h.gid == h.mode == 0 && h.time == c.time && d == c.(long := Seen(data))
           && forall i :: 0 <= i < |data| ==> data[i] < 128
         else
           && (h.name != [] && h.name[0] == 47 ==> c.long.Seen?)
           && |d.members| == |c.members| + 1 && d == c.(members := c.members + [d.members[|c.members|]])
           && var m := d.members[|c.members|];
              && m.data == data && m.size == h.size && m.time == h.time && m.uid == h.uid && m.gid == h.gid && m.mode == h.mode
              && (h.name != [] && h.name[0] != 47 ==> m.name == h.name[..|h.name| - 1])
  {
    hide ParseNat, Strip, FirstLine;
    assert s[58..60][0] == s[58] && s[58..60][1] == s[59];
    assert forall i :: 0 <= i < 16 ==> s[..16][i] == s[i];
  }

  /* ----- the round trip ----- */

  /** The reader finds the name as it was: long names end at a line end, and short ones must not look like something else. */
  predicate Readable(m: Member) {
    if IsLong(m) then NEWLINE !in m.name else m.name != [] && m.name[0] != SLASH && !White(m.name[0])
  }

  /** Names are ASCII, and sizes are those of the data. */
  predicate Plain(ms: seq<Member>) {
    forall k :: 0 <= k < |ms| ==> Ascii(ms[k].name) && ms[k].size == |ms[k].data|
  }

  /** Members as the builder can print them and the reader can tell them apart. */
  predicate Printable(ms: seq<Member>) {
    Plain(ms) && forall k :: 0 <= k < |ms| ==> Readable(ms[k]) && Fits(MemberHeader(ms, k))
  }

  predicate PlanFits(p: Plan)
    requires p.Valid() && p.Encodable()
  {
    Printable(p.ms) && Fits(ArmapHeader(p.now, p.Armap())) && Fits(TableHeader(p.now, p.ms))
  }

  function PadOf(data: Text): Text { if |data| % 2 == 1 then [0] else [] }

  function Printed(h: Header, data: Text): Text { PrintHeader(h) + data + PadOf(data) }

  lemma PrintedIs(h: Header, data: Text, rest: Text)
    ensures Printed(h, data) + rest == PrintHeader(h) + (data + PadOf(data) + rest)
  {
    hide PrintHeader, PadOf;
  }

  /** Where the data of the first entry lie, and what comes after it. */
  lemma EntryParts(p: Text, data: Text, rest: Text)
    requires |p| == HEADER_SIZE
    ensures var s, n := p + (data + PadOf(data) + rest), |data|;
      && |s| >= HEADER_SIZE + n && s[HEADER_SIZE..HEADER_SIZE + n] == data
      && Drop(s, HEADER_SIZE + n + n % 2) == rest && s != []
  {
    var more, n := data + PadOf(data) + rest, |data|;
    var s := p + more;
    assert s[HEADER_SIZE..] == more;
    assert s[HEADER_SIZE..HEADER_SIZE + n] == more[..n] == data;
    assert s[HEADER_SIZE + n + n % 2..] == more[n + n % 2..] == rest;
  }

  lemma ReadOneMore(s: Text, h: Header, data: Text, c: Contents)
    requires s != [] && ReadHeader(s) == Ok(h) && HEADER_SIZE + h.size <= |s| && s[HEADER_SIZE..HEADER_SIZE + h.size] == data
    ensures
      var next := Take(c, h, data);
      ReadEntries(s, c) == if next.Failed? then Failed else ReadEntries(Drop(s, EntrySize(h)), next.value)
  {
    hide ReadHeader, Take;
  }

  /** One printed entry is read as itself. */
  lemma EntryRead(h: Header, data: Text, rest: Text, c: Contents)
    requires Fits(h) && h.size == |data|
    ensures
      var next := Take(c, h, data);
      ReadEntries(Printed(h, data) + rest, c) == if next.Failed? then Failed else ReadEntries(rest, next.value)
  {
    hide PrintHeader, ReadHeader, Fits, Take, ReadEntries, ReadOne, Printed, PadOf, Drop;
    PrintedIs(h, data, rest);
    var more := data + PadOf(data) + rest;
    HeaderRoundTrip(h, more);
    FitsNarrow(h);
    HeaderFields(h, more);
    EntryParts(PrintHeader(h), data, rest);
    ReadOneMore(Printed(h, data) + rest, h, data, c);
  }

  /** The entries from member `k` on. */
  function Tail(ms: seq<Member>, k: nat): Text
    requires k <= |ms|
    decreases |ms| - k
  {
    if k == |ms| then [] else Printed(MemberHeader(ms, k), ms[k].data) + Tail(ms, k + 1)
  }

  /** A member's header leads back to its name, short or long. */
  lemma MemberTaken(ms: seq<Member>, k: nat, c: Contents)
    requires Printable(ms) && k < |ms| && c.long == Seen(LongTable(ms))
    ensures Take(c, MemberHeader(ms, k), ms[k].data) == Ok(c.(members := c.members + [ms[k]]))
  {
    if IsLong(ms[k]) {
      LongTaken(ms, k, c);
    } else {
      ShortTaken(ms, k, c);
    }
  }

  lemma ShortTaken(ms: seq<Member>, k: nat, c: Contents)
    requires Printable(ms) && k < |ms| && !IsLong(ms[k])
    ensures Take(c, MemberHeader(ms, k), ms[k].data) == Ok(c.(members := c.members + [ms[k]]))
  {
    var m, h := ms[k], MemberHeader(ms, k);
    assert h.name == m.name + [SLASH];
    assert h.name[0] == m.name[0] && ButLast(h.name) == m.name;
    hide Printable, LongTable, Fits, ParseNat;
  }

  /** The name that a long member's header leads to. */
  lemma LongHeader(ms: seq<Member>, k: nat)
    requires k < |ms| && IsLong(ms[k])
    ensures var h, d := MemberHeader(ms, k), Digits(|LongNames(ms, k)|, 10);
      h.name == [SLASH] + d && h.name[1..] == d && h.name != [SLASH] && h.name != [SLASH, SLASH] && h.name[0] == SLASH
  {
    hide LongNames;
    DigitsRead(|LongNames(ms, k)|);
    var d := Digits(|LongNames(ms, k)|, 10);
    NoSlash(d);
    var name := MemberHeader(ms, k).name;
    assert name == [SLASH] + d && name[1..] == d;
    assert |d| > 0 && name[1] == d[0];
  }

  lemma NoSlash(d: Text)
    requires d != [] && Trimmed(d) && ParseNat(d, 10).Ok?
    ensures d[0] != SLASH
  {
    StripPadded(d, |d|);
    assert Pad(d, |d|) == d;
  }

  lemma TakeLong(c: Contents, h: Header, data: Text, at: nat, name: Text)
    requires h.name != [SLASH] && h.name != [SLASH, SLASH] && h.name != [] && h.name[0] == SLASH && c.long.Seen?
    requires ParseNat(h.name[1..], 10) == Ok(at) && FirstLine(Drop(c.long.table, at)) == name + [SLASH]
    ensures Take(c, h, data) == Ok(c.(members := c.members + [Member(name, h.time, h.uid, h.gid, h.mode, h.size, data)]))
  {
    hide ParseNat, FirstLine, Drop;
    assert ButLast(name + [SLASH]) == name;
  }

  lemma LongTaken(ms: seq<Member>, k: nat, c: Contents)
    requires Printable(ms) && k < |ms| && IsLong(ms[k]) && c.long == Seen(LongTable(ms))
    ensures Take(c, MemberHeader(ms, k), ms[k].data) == Ok(c.(members := c.members + [ms[k]]))
  {
    hide LongTable, LongNames, Fits, ParseNat, FirstLine, Take, IsLong, Digits, HeaderName;
    var m, at := ms[k], |LongNames(ms, k)|;
    DigitsRead(at);
    LongNameFound(ms, k);
    LongHeader(ms, k);
    TakeLong(c, MemberHeader(ms, k), m.data, at, m.name);
  }

  lemma DigitsRead(n: nat)
    ensures Trimmed(Digits(n, 10)) && ParseNat(Digits(n, 10), 10) == Ok(n)
  {
    var d := Digits(n, 10);
    NumberField(n, 10, |d|);
    assert Pad(d, |d|) == d;
  }

  lemma ShiftOne(a: seq<Member>, ms: seq<Member>, k: nat)
    requires k < |ms|
    ensures (a + [ms[k]]) + ms[k + 1..] == a + ms[k..]
  {
  }

  lemma {:induction false} TailRead(ms: seq<Member>, k: nat, c: Contents)
    requires Printable(ms) && k <= |ms| && c.long == Seen(LongTable(ms))
    ensures ReadEntries(Tail(ms, k), c) == Ok(c.(members := c.members + ms[k..]))
    decreases |ms| - k
  {
    hide ReadOne, Take, Printed, MemberHeader, LongTable, Printable, Fits;
    if k == |ms| {
      assert c.members + ms[k..] == c.members;
    } else {
      assert Tail(ms, k) == Printed(MemberHeader(ms, k), ms[k].data) + Tail(ms, k + 1);
      hide ReadEntries, Tail;
      MemberFits(ms, k);
      EntryRead(MemberHeader(ms, k), ms[k].data, Tail(ms, k + 1), c);
      MemberTaken(ms, k, c);
      TailRead(ms, k + 1, c.(members := c.members + [ms[k]]));
      ShiftOne(c.members, ms, k);
    }
  }

  /** Where the parts of a printed image lie, when every header fits. */
  lemma {:induction false} BuiltTail(ms: seq<Member>, now: nat, armap: Text, k: nat)
    requires Printable(ms) && k <= |ms| && Fits(ArmapHeader(now, armap)) && Fits(TableHeader(now, ms))
    ensures |Built(ms, now, armap, k)| % 2 == 0
    ensures Built(ms, now, armap, |ms|) == Built(ms, now, armap, k) + Tail(ms, k)
    decreases |ms| - k
  {
    hide Append, Printed, Fits, Printable, MemberHeader;
    BuiltEven(ms, now, armap, k);
    if k == |ms| {
      assert Built(ms, now, armap, k) + [] == Built(ms, now, armap, k);
    } else {
      MemberFits(ms, k);
      AppendEntry(Built(ms, now, armap, k), MemberHeader(ms, k), ms[k].data);
      BuiltTail(ms, now, armap, k + 1);
      Regroup(Built(ms, now, armap, k), Printed(MemberHeader(ms, k), ms[k].data), Tail(ms, k + 1));
    }
  }

  lemma MemberFits(ms: seq<Member>, k: nat)
    requires Printable(ms) && k < |ms|
    ensures Fits(MemberHeader(ms, k)) && MemberHeader(ms, k).size == |ms[k].data|
  {
  }

  lemma Regroup(a: Text, b: Text, c: Text)
    ensures (a + b) + c == a + (b + c)
  {
  }

  lemma AppendEntry(b: Text, h: Header, data: Text)
    requires Fits(h) && |b| % 2 == 0
    ensures Append(b, h, data) == b + Printed(h, data) && |Append(b, h, data)| % 2 == 0
  {
    HeaderFields(h, []);
    hide PrintHeader, Fits;
  }

  lemma {:induction false} BuiltEven(ms: seq<Member>, now: nat, armap: Text, k: nat)
    requires Printable(ms) && k <= |ms| && Fits(ArmapHeader(now, armap)) && Fits(TableHeader(now, ms))
    ensures |Built(ms, now, armap, k)| % 2 == 0
  {
    hide Append, Fits;
    if k == 0 {
      AppendEntry(MAGIC, ArmapHeader(now, armap), armap);
      AppendEntry(Append(MAGIC, ArmapHeader(now, armap), armap), TableHeader(now, ms), LongTable(ms));
    } else {
      BuiltEven(ms, now, armap, k - 1);
      AppendEntry(Built(ms, now, armap, k - 1), MemberHeader(ms, k - 1), ms[k - 1].data);
    }
  }

  lemma ImageParts(p: Plan)
    requires p.Valid() && p.Encodable() && PlanFits(p)
    ensures p.Image() == MAGIC + (Printed(ArmapHeader(p.now, p.Armap()), p.Armap())
      + (Printed(TableHeader(p.now, p.ms), LongTable(p.ms)) + Tail(p.ms, 0)))
  {
    hide Append, Printed, Tail, LongTable, Fits, Printable, MemberHeader, Plan.Armap, Plan.Encodable;
    var a, t, h, g := p.Armap(), LongTable(p.ms), ArmapHeader(p.now, p.Armap()), TableHeader(p.now, p.ms);
    var x, y, z := Printed(h, a), Printed(g, t), Tail(p.ms, 0);
    AppendEntry(MAGIC, h, a);
    AppendEntry(Append(MAGIC, h, a), g, t);
    BuiltTail(p.ms, p.now, a, 0);
    hide ArmapHeader, TableHeader;
    Regroup(MAGIC + x, y, z);
    Regroup(MAGIC, x, y + z);
  }

  lemma LongTableAscii(ms: seq<Member>)
    requires Plain(ms)
    ensures Ascii(LongTable(ms))
  {
    LongNamesAscii(ms, |ms|);
    AsciiSum(LongNames(ms, |ms|), [SLASH]);
  }

  lemma AsciiSum(a: Text, b: Text)
    requires Ascii(a) && Ascii(b)
    ensures Ascii(a + b)
  {
  }

  lemma LineAscii(ms: seq<Member>, k: nat)
    requires Plain(ms) && k < |ms|
    ensures Ascii(ms[k].name) && Ascii([SLASH, NEWLINE])
  {
  }

  lemma AsciiNone()
    ensures Ascii([])
  {
  }

  lemma {:induction false} LongNamesAscii(ms: seq<Member>, k: nat)
    requires Plain(ms) && k <= |ms|
    ensures Ascii(LongNames(ms, k))
  {
    hide Plain, Ascii;
    if k == 0 {
      AsciiNone();
    } else {
      LongNamesAscii(ms, k - 1);
      LineAscii(ms, k - 1);
      var b, n, e := LongNames(ms, k - 1), ms[k - 1].name, [SLASH, NEWLINE];
      AsciiSum(b, n);
      AsciiSum(b + n, e);
      AsciiSum(n, e);
      AsciiSum(n + e, e);
    }
  }

  lemma MapTaken(c: Contents, now: nat, data: Text)
    ensures Take(c, ArmapHeader(now, data), data) == Ok(c.(time := now))
  {
  }

  lemma TableTaken(c: Contents, ms: seq<Member>)
    requires Ascii(LongTable(ms))
    ensures Take(c, TableHeader(c.time, ms), LongTable(ms)) == Ok(c.(long := Seen(LongTable(ms))))
  {
    hide LongTable, Ascii;
  }

  lemma HeaderSizes(now: nat, data: Text, ms: seq<Member>)
    ensures ArmapHeader(now, data).size == |data| && TableHeader(now, ms).size == |LongTable(ms)|
  {
    hide LongTable;
  }

  lemma FitsParts(p: Plan)
    requires p.Valid() && p.Encodable() && PlanFits(p)
    ensures Printable(p.ms) && Plain(p.ms) && Fits(ArmapHeader(p.now, p.Armap())) && Fits(TableHeader(p.now, p.ms))
  {
  }

  lemma AfterMagic(x: Text, s: Text)
    requires x == MAGIC + s
    ensures MAGIC <= x && Drop(x, |MAGIC|) == s
  {
  }

  /** Reading what was built gives the members back, and the time the archive was made. */
  lemma RoundTrip(p: Plan, clock: nat)
    requires p.Valid() && p.Encodable() && PlanFits(p)
    ensures MAGIC <= p.Image()
    ensures ReadEntries(Drop(p.Image(), |MAGIC|), Contents([], clock, Unseen)) == Ok(Contents(p.ms, p.now, Seen(LongTable(p.ms))))
  {
    hide *;
    var a, t := p.Armap(), LongTable(p.ms);
    var h, g, z := ArmapHeader(p.now, a), TableHeader(p.now, p.ms), Tail(p.ms, 0);
    var c := Contents([], clock, Unseen);
    var c1 := c.(time := p.now);
    FitsParts(p);
    HeaderSizes(p.now, a, p.ms);
    ImageParts(p);
    AfterMagic(p.Image(), Printed(h, a) + (Printed(g, t) + z));
    LongTableAscii(p.ms);
    MapTaken(c, p.now, a);
    TableTaken(c1, p.ms);
    EntryRead(h, a, Printed(g, t) + z, c);
    EntryRead(g, t, z, c1);
    TailRead(p.ms, 0, c1.(long := Seen(t)));
    assert c1.members + p.ms[0..] == p.ms;
  }
}
