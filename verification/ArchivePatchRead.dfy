/** Reading an archive after it was patched. */
module ArchivePatchRead {
  import opened Bytes
  import opened ArchiveText
  import opened Archive
  import opened ArchiveBuild
  import opened ArchiveRead
  import opened ArchivePatch

  /** A change whose texts are numbers, and whose two times are one time. */
  datatype Numeric = Numeric(ch: Change, time: nat, uid: nat, gid: nat, mode: nat) {
    predicate Valid() {
      && Timed(ch)
      && ParseNat(ch.mapTime, 10) == ParseNat(ch.tableTime, 10) == Ok(time)
      && ParseNat(Cell(ch.uid, 6), 10) == Ok(uid)
      && ParseNat(Cell(ch.gid, 6), 10) == Ok(gid)
      && ParseNat(Cell(ch.mode, 8), 8) == Ok(mode)
    }

    /** The header that the patched bytes read as. */
    function Header(h: Header): Header {
      if h.name == [SLASH] || h.name == [SLASH, SLASH] then h.(time := time)
      else h.(uid := uid, gid := gid, mode := mode)
    }

    function Member(m: Member): Member { m.(uid := uid, gid := gid, mode := mode) }

    function Members(ms: seq<Member>): (r: seq<Member>)
      ensures |r| == |ms| && forall i :: 0 <= i < |ms| ==> r[i] == Member(ms[i])
    {
      seq(|ms|, i requires 0 <= i < |ms| => Member(ms[i]))
    }

    function Contents(c: Contents): Contents { c.(members := Members(c.members), time := time) }
  }

  lemma Inside(x: Text, y: Text, z: Text)
    ensures (x + (y + z))[|x|..|x| + |y|] == y
  {
  }

  lemma SliceOfSlice(s: Text, i: nat, j: nat, k: nat, l: nat)
    requires i <= j <= |s| && k <= l <= j - i
    ensures s[i..j][k..l] == s[i + k..i + l]
  {
    var a, b := s[i..j][k..l], s[i + k..i + l];
    assert |a| == |b| && forall m :: 0 <= m < l - k ==> a[m] == b[m];
  }

  lemma Deeper(r: Text, i: nat, y: Text, k: nat, l: nat)
    requires i + |y| <= |r| && r[i..i + |y|] == y && k <= l <= |y|
    ensures r[i + k..i + l] == y[k..l]
  {
    SliceOfSlice(r, i, i + |y|, k, l);
  }

  /** `y` stands at `i`. */
  ghost predicate Stands(r: Text, i: nat, y: Text) {
    i + |y| <= |r| && r[i..i + |y|] == y
  }

  lemma StandsAfter(x: Text, y: Text, z: Text)
    ensures Stands(x + y + z, |x|, y)
  {
    ArchivePatch.Regroup(x, y, z);
    Inside(x, y, z);
  }

  lemma StandsAhead(x: Text, z: Text)
    ensures Stands(x + z, 0, x)
  {
  }

  lemma StandsLonger(r: Text, i: nat, y: Text, rest: Text)
    requires Stands(r, i, y)
    ensures Stands(r + rest, i, y)
  {
    assert (r + rest)[i..i + |y|] == r[i..i + |y|];
  }

  lemma Splice12Parts(s: Text, t: Text, rest: Text)
    requires |s| >= 60 && |t| == 12
    ensures var r := s[..16] + t + s[28..60] + rest;
      |r| >= 60 && Stands(r, 0, s[..16]) && Stands(r, 16, t) && Stands(r, 28, s[28..60])
  {
    hide Stands;
    var x, y := s[..16], s[28..60];
    StandsAhead(x, t);
    StandsLonger(x + t, 0, x, y);
    StandsLonger(x + t + y, 0, x, rest);
    StandsAfter(x, t, y);
    StandsLonger(x + t + y, 16, t, rest);
    StandsAfter(x + t, y, rest);
  }

  lemma Splice12(s: Text, t: Text, rest: Text)
    requires |s| >= 60 && |t| == 12
    ensures var r := s[..16] + t + s[28..60] + rest;
      && |r| >= 60
      && r[..16] == s[..16] && r[16..28] == t && r[28..34] == s[28..34] && r[34..40] == s[34..40]
      && r[40..48] == s[40..48] && r[48..58] == s[48..58] && r[58..60] == s[58..60]
  {
    Splice12Parts(s, t, rest);
    BackFields(s, s[..16] + t + s[28..60] + rest);
  }

  lemma FieldOf(s: Text, r: Text, i: nat, j: nat)
    requires |s| >= 60 && Stands(r, 28, s[28..60]) && 28 <= i <= j <= 60
    ensures j <= |r| && r[i..j] == s[i..j]
  {
    Deeper(r, 28, s[28..60], i - 28, j - 28);
    SliceOfSlice(s, 28, 60, i - 28, j - 28);
  }

  lemma BackFields(s: Text, r: Text)
    requires |s| >= 60 && Stands(r, 28, s[28..60])
    ensures |r| >= 60 && r[28..34] == s[28..34] && r[34..40] == s[34..40]
    ensures r[40..48] == s[40..48] && r[48..58] == s[48..58] && r[58..60] == s[58..60]
  {
    hide Stands;
    FieldOf(s, r, 28, 34);
    FieldOf(s, r, 34, 40);
    FieldOf(s, r, 40, 48);
    FieldOf(s, r, 48, 58);
    FieldOf(s, r, 58, 60);
  }

  lemma Splice20Parts(s: Text, a: Text, b: Text, c: Text, rest: Text)
    requires |s| >= 60 && |a| == |b| == 6 && |c| == 8
    ensures var r := s[..28] + a + b + c + s[48..60] + rest;
      && Stands(r, 0, s[..28]) && Stands(r, 28, a) && Stands(r, 34, b) && Stands(r, 40, c) && Stands(r, 48, s[48..60])
  {
    hide Stands;
    var x, y := s[..28], s[48..60];
    StandsAhead(x, a);
    StandsLonger(x + a, 0, x, b);
    StandsAfter(x, a, b);
    LongerTwice(x + a + b, 0, x, c, y, rest);
    LongerTwice(x + a + b, 28, a, c, y, rest);
    StandsAfter(x + a, b, c);
    StandsLonger(x + a + b + c, 34, b, y);
    StandsLonger(x + a + b + c + y, 34, b, rest);
    StandsAfter(x + a + b, c, y);
    StandsLonger(x + a + b + c + y, 40, c, rest);
    StandsAfter(x + a + b + c, y, rest);
  }

  lemma LongerTwice(r: Text, i: nat, t: Text, c: Text, y: Text, rest: Text)
    requires Stands(r, i, t)
    ensures Stands(r + c + y + rest, i, t)
  {
    hide Stands;
    StandsLonger(r, i, t, c);
    StandsLonger(r + c, i, t, y);
    StandsLonger(r + c + y, i, t, rest);
  }

  lemma Splice20(s: Text, a: Text, b: Text, c: Text, rest: Text)
    requires |s| >= 60 && |a| == |b| == 6 && |c| == 8
    ensures var r := s[..28] + a + b + c + s[48..60] + rest;
      && |r| >= 60
      && r[..16] == s[..16] && r[16..28] == s[16..28] && r[28..34] == a && r[34..40] == b
      && r[40..48] == c && r[48..58] == s[48..58] && r[58..60] == s[58..60]
  {
    Splice20Parts(s, a, b, c, rest);
    var r := s[..28] + a + b + c + s[48..60] + rest;
    FrontField(s, r, 0, 16);
    FrontField(s, r, 16, 28);
    TailField(s, r, 48, 58);
    TailField(s, r, 58, 60);
  }

  lemma FrontField(s: Text, r: Text, i: nat, j: nat)
    requires |s| >= 60 && Stands(r, 0, s[..28]) && i <= j <= 28
    ensures j <= |r| && r[i..j] == s[i..j]
  {
    Deeper(r, 0, s[..28], i, j);
    SliceOfSlice(s, 0, 28, i, j);
  }

  lemma TailField(s: Text, r: Text, i: nat, j: nat)
    requires |s| >= 60 && Stands(r, 48, s[48..60]) && 48 <= i <= j <= 60
    ensures j <= |r| && r[i..j] == s[i..j]
  {
    Deeper(r, 48, s[48..60], i - 48, j - 48);
    SliceOfSlice(s, 48, 60, i - 48, j - 48);
  }

  /** A readable header is framed, and its patched form reads as the changed header. */
  lemma PatchedHeader(s: Text, n: Numeric, rest: Text)
    requires n.Valid() && ReadHeader(s).Ok?
    ensures Framed(s) && NameOf(s) == ReadHeader(s).value.name && StepOf(s) == EntrySize(ReadHeader(s).value)
    ensures ReadHeader(PatchHeader(s, n.ch) + rest) == Ok(n.Header(ReadHeader(s).value))
  {
    hide ParseNat, Strip, Cell, Ascii;
    var ch := n.ch;
    Splice12(s, ch.mapTime, rest);
    Splice12(s, ch.tableTime, rest);
    Splice20(s, Cell(ch.uid, 6), Cell(ch.gid, 6), Cell(ch.mode, 8), rest);
  }

  /** Changing the header changes what is taken in the same way. */
  lemma TakePatched(n: Numeric, c: Contents, h: Header, data: Text)
    requires Take(c, h, data).Ok?
    ensures Take(n.Contents(c), n.Header(h), data) == Ok(n.Contents(Take(c, h, data).value))
  {
    hide ParseNat, FirstLine, Ascii;
    if !(h.name == [SLASH] || h.name == [SLASH, SLASH]) {
      var d := Take(c, h, data).value;
      assert d.members[..|c.members|] == c.members;
      assert n.Members(d.members) == n.Members(c.members) + [n.Member(d.members[|c.members|])];
    }
  }

  lemma ReadOneOf(r: Text, h: Header, data: Text, c: Contents)
    requires ReadHeader(r) == Ok(h) && HEADER_SIZE + h.size <= |r| && r[HEADER_SIZE..HEADER_SIZE + h.size] == data
    requires Take(c, h, data).Ok?
    ensures ReadOne(r, c) == Ok((Take(c, h, data).value, EntrySize(h)))
  {
    hide ReadHeader, Take;
  }

  lemma PatchedBytes(p: Text, body: Text, rest: Text, size: nat)
    requires |p| == HEADER_SIZE && size <= |body|
    ensures var r := p + body + rest;
      && HEADER_SIZE + size <= |r| && r[HEADER_SIZE..HEADER_SIZE + size] == body[..size]
      && Drop(r, HEADER_SIZE + |body|) == rest
  {
    var r := p + body + rest;
    assert r[HEADER_SIZE..] == body + rest;
  }

  /** The first entry of a patched archive; the last entry can lack its padding. */
  lemma ReadOnePatched(s: Text, n: Numeric, c: Contents, rest: Text)
    requires n.Valid() && ReadOne(s, c).Ok?
    ensures Framed(s) && StepOf(s) == ReadOne(s, c).value.1
    ensures var r := PatchHeader(s, n.ch) + Body(s) + rest;
      && ReadOne(r, n.Contents(c)) == Ok((n.Contents(ReadOne(s, c).value.0), StepOf(s)))
      && (StepOf(s) <= |s| ==> Drop(r, StepOf(s)) == rest)
      && (StepOf(s) > |s| && rest == [] ==> Drop(r, StepOf(s)) == [])
  {
    assert Timed(n.ch);
    hide *;
    ReadOneParts(s, c);
    var h := ReadHeader(s).value;
    PatchedHeader(s, n, []);
    SameSize(n, h);
    var k, p := StepOf(s), PatchHeader(s, n.ch);
    BodyData(s, h.size);
    var body := Body(s);
    var data := s[HEADER_SIZE..HEADER_SIZE + h.size];
    PatchedHeader(s, n, body + rest);
    TakePatched(n, c, h, data);
    PatchedBytes(p, body, rest, h.size);
    ArchivePatch.Regroup(p, body, rest);
    ReadOneOf(p + body + rest, n.Header(h), data, n.Contents(c));
    if k > |s| && rest == [] {
      DropPast(p + body + rest, k);
    }
  }

  lemma DropPast(s: Text, k: nat)
    requires |s| <= k
    ensures Drop(s, k) == []
  {
  }

  lemma SameSize(n: Numeric, h: Header)
    ensures n.Header(h).size == h.size && EntrySize(n.Header(h)) == EntrySize(h) >= HEADER_SIZE + h.size
  {
  }

  lemma ReadOneParts(s: Text, c: Contents)
    requires ReadOne(s, c).Ok?
    ensures ReadHeader(s).Ok? && HEADER_SIZE + ReadHeader(s).value.size <= |s|
    ensures var h := ReadHeader(s).value;
      var next := Take(c, h, s[HEADER_SIZE..HEADER_SIZE + h.size]);
      next.Ok? && ReadOne(s, c).value == (next.value, EntrySize(h))
  {
  }

  lemma BodyData(s: Text, size: nat)
    requires Framed(s) && HEADER_SIZE + size <= StepOf(s) && HEADER_SIZE + size <= |s|
    ensures size <= |Body(s)| && Body(s)[..size] == s[HEADER_SIZE..HEADER_SIZE + size]
    ensures HEADER_SIZE + |Body(s)| == if StepOf(s) <= |s| then StepOf(s) else |s|
  {
    hide Framed, StepOf;
  }

  /** Reading a patched archive gives the same members, but for owners and modes. */
  lemma {:induction false} ReadPatched(s: Text, n: Numeric, c: Contents)
    requires n.Valid() && ReadEntries(s, c).Ok?
    ensures Walkable(s) && ReadEntries(PatchAll(s, n.ch), n.Contents(c)) == Ok(n.Contents(ReadEntries(s, c).value))
    decreases |s|
  {
    if s != [] {
      var one := ReadOne(s, c).value;
      ReadOnePatched(s, n, c, []);
      var k := StepOf(s);
      ReadPatched(Rest(s), n, one.0);
      var rest := PatchAll(Rest(s), n.ch);
      ReadOnePatched(s, n, c, rest);
      var r := PatchHeader(s, n.ch) + Body(s) + rest;
      assert PatchAll(s, n.ch) == r;
      assert Drop(r, k) == rest by {
        if k > |s| {
          assert Rest(s) == [] && rest == [];
        }
      }
      hide PatchHeader, ReadOne, Framed, Front, PatchAll, StepOf, Drop;
      assert ReadEntries(r, n.Contents(c)) == ReadEntries(Drop(r, k), n.Contents(one.0));
    }
  }

  /** When the symbol map comes first, the reader's own clock does not matter. */
  lemma ClockFree(s: Text, c: Contents, time: nat)
    requires s != [] && ReadHeader(s).Ok? && ReadHeader(s).value.name == [SLASH]
    ensures ReadEntries(s, c) == ReadEntries(s, c.(time := time))
  {
    hide ReadHeader;
  }

  /**
   An archive that was built, and then patched with numbers and with one time, reads as the members it was
   built from, with the new owners and modes.
   */
  lemma PatchedRoundTrip(p: Plan, n: Numeric, clock: nat)
    requires p.Valid() && p.Encodable() && PlanFits(p)
    ensures n.Valid() ==>
      && Walkable(Drop(p.Image(), |MAGIC|)) && Timed(n.ch)
      && ReadEntries(PatchAll(Drop(p.Image(), |MAGIC|), n.ch), Contents([], clock, Unseen))
         == Ok(Contents(n.Members(p.ms), n.time, Seen(LongTable(p.ms))))
  {
    if n.Valid() {
      PatchedIsRead(p, n, clock);
    }
  }

  lemma PatchedIsRead(p: Plan, n: Numeric, clock: nat)
    requires p.Valid() && p.Encodable() && PlanFits(p) && n.Valid()
    ensures Walkable(Drop(p.Image(), |MAGIC|))
    ensures ReadEntries(PatchAll(Drop(p.Image(), |MAGIC|), n.ch), Contents([], clock, Unseen))
         == Ok(Contents(n.Members(p.ms), n.time, Seen(LongTable(p.ms))))
  {
    var s, c, d := Drop(p.Image(), |MAGIC|), Contents([], clock, Unseen), Contents(p.ms, p.now, Seen(LongTable(p.ms)));
    assert n.Contents(c) == c.(time := n.time);
    assert n.Contents(d) == Contents(n.Members(p.ms), n.time, Seen(LongTable(p.ms)));
    hide *;
    RoundTrip(p, clock);
    MapIsFirst(p);
    ReadPatched(s, n, c);
    FirstStaysFirst(s, n);
    ClockFree(PatchAll(s, n.ch), c, n.time);
  }

  lemma FirstStaysFirst(s: Text, n: Numeric)
    requires n.Valid() && s != [] && Walkable(s) && ReadHeader(s).Ok?
    ensures |PatchAll(s, n.ch)| > 0 && ReadHeader(PatchAll(s, n.ch)) == Ok(n.Header(ReadHeader(s).value))
  {
    assert Timed(n.ch);
    hide *;
    PatchedHeader(s, n, []);
    PatchAllNext(s, n.ch);
    var p, b, r := PatchHeader(s, n.ch), Body(s), PatchAll(Rest(s), n.ch);
    PatchedHeader(s, n, b + r);
    ArchivePatch.Regroup(p, b, r);
  }

  lemma DropMagic(x: Text)
    ensures Drop(MAGIC + x, |MAGIC|) == x
  {
  }

  lemma MapIsFirst(p: Plan)
    requires p.Valid() && p.Encodable() && PlanFits(p)
    ensures Drop(p.Image(), |MAGIC|) != []
    ensures ReadHeader(Drop(p.Image(), |MAGIC|)) == Ok(ArmapHeader(p.now, p.Armap()))
    ensures ArmapHeader(p.now, p.Armap()).name == [SLASH]
  {
    var h, a := ArmapHeader(p.now, p.Armap()), p.Armap();
    var rest := Printed(TableHeader(p.now, p.ms), LongTable(p.ms)) + Tail(p.ms, 0);
    ImageParts(p);
    DropMagic(Printed(h, a) + rest);
    assert Fits(h);
    PrintedRead(h, a, rest);
    hide *;
  }

  lemma PrintedRead(h: Header, data: Text, rest: Text)
    requires Fits(h)
    ensures Printed(h, data) + rest != [] && ReadHeader(Printed(h, data) + rest) == Ok(h)
  {
    hide *;
    PrintedIs(h, data, rest);
    HeaderRoundTrip(h, data + PadOf(data) + rest);
    ReadHeaderNonempty(Printed(h, data) + rest);
  }

  lemma ReadHeaderNonempty(s: Text)
    requires ReadHeader(s).Ok?
    ensures s != []
  {
  }

  /* ----- the times that are found ----- */

  /** Entries without the end mark are not entries for the patcher either. */
  lemma FramedDemands(s: Text)
    requires Framed(s)
    ensures |s| >= 60 && s[58] == 0x60 && s[59] == 0x0A && forall i :: 0 <= i < 16 ==> s[i] < 128
  {
    hide ParseNat;
    assert s[58..60][0] == s[58] && s[58..60][1] == s[59];
    assert forall i :: 0 <= i < 16 ==> s[..16][i] == s[i];
  }

  /** A time as it is printed: decimal, padded with spaces to 12 characters. */
  function TimeText(time: nat): Text { Pad(Digits(time, 10), 12) }

  /** What the patcher sees of a printed entry. */
  lemma PrintedFramed(h: Header, data: Text, rest: Text)
    requires Fits(h) && h.size == |data|
    ensures var s := Printed(h, data) + rest;
      s != [] && Framed(s) && NameOf(s) == h.name && TimeOf(s) == TimeText(h.time) && Rest(s) == rest
  {
    hide *;
    var s, more := Printed(h, data) + rest, data + PadOf(data) + rest;
    PrintedIs(h, data, rest);
    HeaderRoundTrip(h, more);
    FitsNarrow(h);
    HeaderFields(h, more);
    EntryParts(PrintHeader(h), data, rest);
    SeenFramed(s, h);
    RestOf(s);
    TimeIs(s, h.time);
  }

  lemma SeenFramed(s: Text, h: Header)
    requires ReadHeader(s) == Ok(h)
    ensures Framed(s) && NameOf(s) == h.name && StepOf(s) == HEADER_SIZE + h.size + h.size % 2
  {
    hide ParseNat, Strip, Ascii;
  }

  lemma RestOf(s: Text)
    requires Framed(s)
    ensures Rest(s) == Drop(s, StepOf(s))
  {
  }

  lemma TimeIs(s: Text, time: nat)
    requires Framed(s) && s[16..28] == Pad(Digits(time, 10), 12)
    ensures TimeOf(s) == TimeText(time)
  {
    hide Pad, Digits;
  }

  lemma SearchStep(s: Text, name: Text, so: Result<Text>)
    requires s != [] && Framed(s) && Walkable(Rest(s)) && (so.Ok? ==> |so.value| == 12)
    ensures Walkable(s) && LastTime(s, name, so) == LastTime(Rest(s), name, Noted(s, name, so))
  {
    hide Framed, NameOf, TimeOf, Rest;
  }

  /** No member has the name of the symbol map or of the name table. */
  lemma MemberNames(ms: seq<Member>, k: nat)
    requires Printable(ms) && k < |ms|
    ensures MemberHeader(ms, k).name != [SLASH] && MemberHeader(ms, k).name != [SLASH, SLASH]
  {
    hide LongNames, Fits, Digits;
    if IsLong(ms[k]) {
      LongHeader(ms, k);
    } else {
      ShortName(ms, k);
    }
  }

  lemma ShortName(ms: seq<Member>, k: nat)
    requires Printable(ms) && k < |ms| && !IsLong(ms[k])
    ensures MemberHeader(ms, k).name != [SLASH] && MemberHeader(ms, k).name != [SLASH, SLASH]
  {
    hide LongNames, Fits, Digits;
    assert (ms[k].name + [SLASH])[0] == ms[k].name[0];
  }

  lemma {:induction false} TailTimes(ms: seq<Member>, k: nat, name: Text, so: Result<Text>)
    requires Printable(ms) && k <= |ms| && name in [[SLASH], [SLASH, SLASH]] && (so.Ok? ==> |so.value| == 12)
    ensures Walkable(Tail(ms, k)) && LastTime(Tail(ms, k), name, so) == so
    decreases |ms| - k
  {
    hide Printed, MemberHeader, Printable, Fits, Framed, NameOf, TimeOf, Rest;
    if k < |ms| {
      var s := Tail(ms, k);
      MemberFits(ms, k);
      MemberNames(ms, k);
      PrintedFramed(MemberHeader(ms, k), ms[k].data, Tail(ms, k + 1));
      TailTimes(ms, k + 1, name, so);
      SearchStep(s, name, so);
    }
  }

  lemma FoundIn(o: Text, name: Text)
    requires Walkable(Drop(o, 8))
    ensures TimeIn(o, name) == LastTime(Drop(o, 8), name, Failed)
  {
    hide Walkable, LastTime, Drop;
  }

  /** In an archive that was built, the patcher finds the time at which it was built, for the map and for the name table. */
  lemma TimesOfBuilt(p: Plan)
    requires p.Valid() && p.Encodable() && PlanFits(p)
    ensures TimeIn(p.Image(), [SLASH]) == TimeIn(p.Image(), [SLASH, SLASH]) == Ok(TimeText(p.now))
  {
    hide *;
    var a, t, z := p.Armap(), LongTable(p.ms), Tail(p.ms, 0);
    var h, g := ArmapHeader(p.now, a), TableHeader(p.now, p.ms);
    FitsParts(p);
    HeaderSizes(p.now, a, p.ms);
    ImageParts(p);
    var x, y := Printed(h, a) + (Printed(g, t) + z), Printed(g, t) + z;
    MagicEight();
    HeaderNames(p.now, a, p.ms);
    AfterMagic(p.Image(), x);
    PrintedFramed(h, a, y);
    PrintedFramed(g, t, z);
    TwoEntries(x, y, z, p.now, p.ms, h, g);
    FoundIn(p.Image(), [SLASH]);
    FoundIn(p.Image(), [SLASH, SLASH]);
  }

  lemma HeaderNames(now: nat, a: Text, ms: seq<Member>)
    ensures ArmapHeader(now, a).name == [SLASH] && TableHeader(now, ms).name == [SLASH, SLASH]
    ensures ArmapHeader(now, a).time == TableHeader(now, ms).time == now
  {
    hide LongTable;
  }

  lemma MagicEight()
    ensures |MAGIC| == 8
  {
  }

  lemma TwoEntries(x: Text, y: Text, z: Text, now: nat, ms: seq<Member>, h: Header, g: Header)
    requires Printable(ms) && z == Tail(ms, 0) && h.name == [SLASH] && g.name == [SLASH, SLASH] && h.time == g.time == now
    requires x != [] && Framed(x) && NameOf(x) == h.name && TimeOf(x) == TimeText(now) && Rest(x) == y
    requires y != [] && Framed(y) && NameOf(y) == g.name && TimeOf(y) == TimeText(now) && Rest(y) == z
    ensures Walkable(x)
    ensures LastTime(x, [SLASH], Failed) == LastTime(x, [SLASH, SLASH], Failed) == Ok(TimeText(now))
  {
    hide Framed, NameOf, TimeOf, Rest, Printable, Tail, LastTime, Walkable, TimeText;
    var found: Result<Text> := Ok(TimeText(now));
    assert |TimeOf(x)| == 12;
    TailTimes(ms, 0, [SLASH], found);
    TailTimes(ms, 0, [SLASH, SLASH], found);
    assert Noted(x, [SLASH], Failed) == found && Noted(y, [SLASH], found) == found;
    assert Noted(x, [SLASH, SLASH], Failed) == Failed && Noted(y, [SLASH, SLASH], Failed) == found;
    SearchStep(y, [SLASH], found);
    SearchStep(y, [SLASH, SLASH], Failed);
    SearchStep(x, [SLASH], Failed);
    SearchStep(x, [SLASH, SLASH], Failed);
  }
}
