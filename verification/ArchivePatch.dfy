/** The patcher that overwrites owners, modes and times in the headers of an archive, in place. */
module ArchivePatch {
  import opened Bytes
  import opened ArchiveText
  import opened Archive
  import opened ArchiveBuild
  import opened ArchiveRead

  /** What the patcher writes: two times taken from another archive, and three texts given by its user. */
  datatype Change = Change(mapTime: Text, tableTime: Text, uid: Text, gid: Text, mode: Text)

  predicate Timed(ch: Change) { |ch.mapTime| == |ch.tableTime| == 12 }

  /** A text cut or padded to a width. */
  function Cell(s: Text, w: nat): (c: Text)
    ensures |c| == w
  {
    Pad(s, w)[..w]
  }

  /** What the patcher itself reads of a header: the name and the size. */
  predicate Framed(s: Text) {
    |s| >= HEADER_SIZE && Ascii(s[..16]) && ParseNat(s[48..58], 10).Ok? && s[58..60] == END_MARK
  }

  function NameOf(s: Text): Text
    requires Framed(s)
  {
    Strip(s[..16])
  }

  function TimeOf(s: Text): (t: Text)
    requires Framed(s)
    ensures |t| == 12
  {
    s[16..28]
  }

  function StepOf(s: Text): (n: nat)
    requires Framed(s)
    ensures n >= HEADER_SIZE
  {
    var size := ParseNat(s[48..58], 10).value;
    HEADER_SIZE + size + size % 2
  }

  function Front(s: Text, n: nat): Text { if n <= |s| then s[..n] else s }

  /** The first entry of `s` without its header, and what comes after that entry. */
  function Body(s: Text): Text
    requires Framed(s)
  {
    Front(s, StepOf(s))[HEADER_SIZE..]
  }

  function Rest(s: Text): (r: Text)
    requires Framed(s)
    ensures |r| < |s|
  {
    Drop(s, StepOf(s))
  }

  /** `s` is a sequence of entries as far as the patcher can see. */
  predicate Walkable(s: Text)
    decreases |s|
  {
    s == [] || (Framed(s) && Walkable(Rest(s)))
  }

  function Noted(s: Text, name: Text, so: Result<Text>): Result<Text>
    requires Framed(s)
  {
    if NameOf(s) == name then Ok(TimeOf(s)) else so
  }

  /** The time field of the last entry of a given name. */
  function LastTime(s: Text, name: Text, so: Result<Text>): (r: Result<Text>)
    requires Walkable(s) && (so.Ok? ==> |so.value| == 12)
    ensures r.Ok? ==> |r.value| == 12
    decreases |s|
  {
    if s == [] then so else LastTime(Rest(s), name, Noted(s, name, so))
  }

  /** The first header of `s`, changed. */
  function PatchHeader(s: Text, ch: Change): (h: Text)
    requires Framed(s) && Timed(ch)
    ensures |h| == HEADER_SIZE
  {
    if NameOf(s) == [SLASH] then s[..16] + ch.mapTime + s[28..60]
    else if NameOf(s) == [SLASH, SLASH] then s[..16] + ch.tableTime + s[28..60]
    else s[..28] + Cell(ch.uid, 6) + Cell(ch.gid, 6) + Cell(ch.mode, 8) + s[48..60]
  }

  /** All the headers of `s`, changed. */
  function PatchAll(s: Text, ch: Change): Text
    requires Walkable(s) && Timed(ch)
    decreases |s|
  {
    if s == [] then [] else (PatchHeader(s, ch) + Body(s)) + PatchAll(Rest(s), ch)
  }

  /* ----- finding the times ----- */

  lemma DropMore(s: Text, i: nat)
    requires i < |s| && Framed(Drop(s, i))
    ensures Rest(Drop(s, i)) == Drop(s, i + StepOf(Drop(s, i)))
  {
    hide Framed, StepOf;
  }

  lemma DropEmpty(s: Text, i: nat)
    ensures Drop(s, i) == [] <==> i >= |s|
  {
  }

  /** What a whole search finds: no time at all if some entry is not framed. */
  function TimeIn(o: Text, name: Text): (r: Result<Text>)
    ensures r.Ok? ==> |r.value| == 12 && Walkable(Drop(o, 8))
  {
    if Walkable(Drop(o, 8)) then LastTime(Drop(o, 8), name, Failed) else Failed
  }

  /** Walking from `i` with `r` in hand is as good as walking from the first entry. */
  ghost predicate Searching(o: Text, name: Text, i: nat, r: Result<Text>) {
    && (r.Ok? ==> |r.value| == 12)
    && (Walkable(Drop(o, 8)) <==> Walkable(Drop(o, i)))
    && (Walkable(Drop(o, 8)) ==> LastTime(Drop(o, 8), name, Failed) == LastTime(Drop(o, i), name, r))
  }

  lemma SearchNext(o: Text, name: Text, i: nat, r: Result<Text>)
    requires Searching(o, name, i, r) && i < |o|
    ensures var s := Drop(o, i);
      if Framed(s) then StepOf(s) > 0 && Searching(o, name, i + StepOf(s), Noted(s, name, r)) else TimeIn(o, name).Failed?
  {
    hide Drop, Framed, NameOf, StepOf, TimeOf, Rest;
    DropEmpty(o, i);
    if Framed(Drop(o, i)) {
      DropMore(o, i);
    }
  }

  lemma SearchEnd(o: Text, name: Text, i: nat, r: Result<Text>)
    requires Searching(o, name, i, r) && i >= |o|
    ensures r == TimeIn(o, name)
  {
    DropEmpty(o, i);
    hide Drop;
  }

  lemma SearchStart(o: Text, name: Text)
    ensures Searching(o, name, 8, Failed)
  {
  }

  method FindTime(original: Text, name: Text) returns (r: Result<Text>)
    ensures r == TimeIn(original, name)
  {
    hide Drop, Framed, StepOf, TimeOf, NameOf, Noted, Searching, TimeIn, LastTime, Walkable, Rest;
    var i: nat := 8;
    r := Failed;
    SearchStart(original, name);
    while i < |original|
      invariant Searching(original, name, i, r)
      decreases |original| - i
    {
      var s := Drop(original, i);
      SearchNext(original, name, i, r);
      if !Framed(s) {
        return Failed;
      }
      i, r := i + StepOf(s), Noted(s, name, r);
    }
    SearchEnd(original, name, i, r);
  }

  /* ----- patching ----- */

  function PutHeader(a: Text, i: nat, h: Text): (r: Text)
    requires i + HEADER_SIZE <= |a| && |h| == HEADER_SIZE
    ensures |r| == |a|
  {
    a[..i] + h + a[i + HEADER_SIZE..]
  }

  /** Entries before `i` are patched, the others as they were. */
  ghost predicate Partway(a: Text, was: Text, i: nat, ch: Change)
    requires Timed(ch)
  {
    && |a| == |was| && Drop(a, i) == Drop(was, i)
    && (Walkable(Drop(was, 8)) <==> Walkable(Drop(was, i)))
    && (Walkable(Drop(was, 8)) ==> Front(a, i) + PatchAll(Drop(was, i), ch) == Front(was, 8) + PatchAll(Drop(was, 8), ch))
  }

  lemma FramedFits(a: Text, i: nat)
    requires i < |a| && Framed(Drop(a, i))
    ensures i + HEADER_SIZE <= |a|
  {
  }

  lemma PutFront(a: Text, i: nat, h: Text, n: nat)
    requires i + HEADER_SIZE <= |a| && |h| == HEADER_SIZE <= n
    ensures Front(PutHeader(a, i, h), i + n) == Front(a, i) + (h + Front(Drop(a, i), n)[HEADER_SIZE..])
  {
    var p, s := PutHeader(a, i, h), Drop(a, i);
    assert a[i + HEADER_SIZE..] == s[HEADER_SIZE..];
    if i + n <= |a| {
      assert s[..n][HEADER_SIZE..] == a[i + HEADER_SIZE..i + n];
      assert p[..i + n] == a[..i] + h + a[i + HEADER_SIZE..i + n];
    }
  }

  lemma PutDrop(a: Text, i: nat, h: Text, n: nat)
    requires i + HEADER_SIZE <= |a| && |h| == HEADER_SIZE <= n
    ensures Drop(PutHeader(a, i, h), i + n) == Drop(a, i + n)
  {
  }

  lemma Regroup(a: Text, b: Text, c: Text)
    ensures (a + b) + c == a + (b + c)
  {
  }

  lemma PutBody(a: Text, i: nat, h: Text)
    requires i < |a| && Framed(Drop(a, i)) && |h| == HEADER_SIZE
    ensures i + HEADER_SIZE <= |a|
    ensures Front(PutHeader(a, i, h), i + StepOf(Drop(a, i))) == Front(a, i) + (h + Body(Drop(a, i)))
    ensures Drop(PutHeader(a, i, h), i + StepOf(Drop(a, i))) == Drop(a, i + StepOf(Drop(a, i)))
  {
    hide Framed, StepOf, PutHeader, Front, Drop;
    FramedFits(a, i);
    PutFront(a, i, h, StepOf(Drop(a, i)));
    PutDrop(a, i, h, StepOf(Drop(a, i)));
  }

  lemma PatchAllNext(s: Text, ch: Change)
    requires s != [] && Walkable(s) && Timed(ch)
    ensures Framed(s) && Walkable(Rest(s)) && PatchAll(s, ch) == (PatchHeader(s, ch) + Body(s)) + PatchAll(Rest(s), ch)
  {
  }

  lemma WalkNext(s: Text, i: nat)
    requires i < |s|
    ensures Walkable(Drop(s, i)) <==> Framed(Drop(s, i)) && Walkable(Drop(s, i + StepOf(Drop(s, i))))
  {
    hide Drop, Framed, StepOf, Rest;
    DropEmpty(s, i);
    if Framed(Drop(s, i)) {
      DropMore(s, i);
    }
  }

  /** One more entry patched. */
  lemma PatchNext(a: Text, was: Text, i: nat, ch: Change)
    requires Timed(ch) && Partway(a, was, i, ch) && i < |a|
    ensures Drop(a, i) == Drop(was, i)
    ensures if Framed(Drop(a, i)) then
              && i + HEADER_SIZE <= |a| && StepOf(Drop(a, i)) > 0
              && Partway(PutHeader(a, i, PatchHeader(Drop(a, i), ch)), was, i + StepOf(Drop(a, i)), ch)
            else !Walkable(Drop(was, 8))
  {
    var s := Drop(a, i);
    hide Drop, Front, Framed, Walkable, StepOf, PutHeader, PatchHeader, PatchAll, Body, Rest, Timed;
    WalkNext(was, i);
    DropEmpty(was, i);
    if Framed(s) {
      var h := PatchHeader(s, ch);
      PutBody(a, i, h);
      DropMore(a, i);
      DropMore(was, i);
      if Walkable(s) {
        PatchAllNext(s, ch);
        Regroup(Front(a, i), h + Body(s), PatchAll(Rest(s), ch));
      }
    }
  }

  lemma PatchStart(was: Text, ch: Change)
    requires Timed(ch)
    ensures Partway(was, was, 8, ch)
  {
  }

  lemma PatchEnd(a: Text, was: Text, i: nat, ch: Change)
    requires Timed(ch) && Partway(a, was, i, ch) && i >= |a|
    ensures Walkable(Drop(was, 8)) && a == Front(was, 8) + PatchAll(Drop(was, 8), ch)
  {
    assert Drop(was, i) == [] && Front(a, i) == a;
    assert a + [] == a;
  }

  method Overwrite(ar: array<Byte>, at: nat, t: Text)
    requires at + |t| <= ar.Length
    modifies ar
    ensures ar[..] == old(ar[..])[..at] + t + old(ar[..])[at + |t|..]
  {
    for j := 0 to |t|
      invariant forall k :: 0 <= k < j ==> ar[at + k] == t[k]
      invariant forall k :: 0 <= k < ar.Length && !(at <= k < at + j) ==> ar[k] == old(ar[k])
    {
      ar[at + j] := t[j];
    }
  }

  lemma CellsInside(a: Text, i: nat, lo: nat, t: Text)
    requires i + HEADER_SIZE <= |a| && lo + |t| <= HEADER_SIZE
    ensures var s := Drop(a, i);
      a[..i + lo] + t + a[i + lo + |t|..] == PutHeader(a, i, s[..lo] + t + s[lo + |t|..HEADER_SIZE])
  {
    var s := Drop(a, i);
    assert s[..lo] == a[i..i + lo];
    assert s[lo + |t|..HEADER_SIZE] == a[i + lo + |t|..i + HEADER_SIZE];
  }

  method PatchEntry(ar: array<Byte>, i: nat, ch: Change)
    requires i < ar.Length && Framed(Drop(ar[..], i)) && Timed(ch) && i + HEADER_SIZE <= ar.Length
    modifies ar
    ensures ar[..] == PutHeader(old(ar[..]), i, PatchHeader(Drop(old(ar[..]), i), ch))
  {
    hide ParseNat, Strip, Cell, Ascii;
    ghost var a := ar[..];
    ghost var s := Drop(a, i);
    assert ar[i..i + 16] == s[..16];
    var name := Strip(ar[i..i + 16]);
    if name == [SLASH] {
      Overwrite(ar, i + 16, ch.mapTime);
      CellsInside(a, i, 16, ch.mapTime);
    } else if name == [SLASH, SLASH] {
      Overwrite(ar, i + 16, ch.tableTime);
      CellsInside(a, i, 16, ch.tableTime);
    } else {
      var cells := Cell(ch.uid, 6) + Cell(ch.gid, 6) + Cell(ch.mode, 8);
      Overwrite(ar, i + 28, cells);
      CellsInside(a, i, 28, cells);
      assert s[..28] + Cell(ch.uid, 6) + Cell(ch.gid, 6) + Cell(ch.mode, 8) + s[48..60] == s[..28] + cells + s[48..60];
    }
  }

  method PatchHeaders(ar: array<Byte>, ch: Change) returns (ok: bool)
    requires Timed(ch)
    modifies ar
    ensures ok <==> Walkable(Drop(old(ar[..]), 8))
    ensures ok ==> ar[..] == Front(old(ar[..]), 8) + PatchAll(Drop(old(ar[..]), 8), ch)
  {
    hide *;
    ghost var was := ar[..];
    PatchStart(was, ch);
    var i: nat := 8;
    while i < ar.Length
      invariant Partway(ar[..], was, i, ch)
      decreases ar.Length - i
    {
      var s := Drop(ar[..], i);
      PatchNext(ar[..], was, i, ch);
      if !Framed(s) {
        return false;
      }
      PatchEntry(ar, i, ch);
      i := i + StepOf(s);
    }
    PatchEnd(ar[..], was, i, ch);
    ok := true;
  }

  /** Both times are found in the other archive, and every header that the patcher meets is framed. */
  predicate Patchable(ar: Text, original: Text) {
    && |ar| > 0x24 && Walkable(Drop(ar, 8))
    && TimeIn(original, [SLASH]).Ok? && TimeIn(original, [SLASH, SLASH]).Ok?
  }

  function Requested(original: Text, uid: Text, gid: Text, mode: Text): (ch: Change)
    requires TimeIn(original, [SLASH]).Ok? && TimeIn(original, [SLASH, SLASH]).Ok?
    ensures Timed(ch)
  {
    Change(TimeIn(original, [SLASH]).value, TimeIn(original, [SLASH, SLASH]).value, uid, gid, mode)
  }

  /** Patches every header, or fails; a failure in the middle leaves earlier headers patched. */
  method ArPatch(ar: array<Byte>, original: Text, uid: Text, gid: Text, mode: Text) returns (ok: bool)
    modifies ar
    ensures ok <==> Patchable(old(ar[..]), original)
    ensures ok ==>
      ar[..] == Front(old(ar[..]), 8) + PatchAll(Drop(old(ar[..]), 8), Requested(original, uid, gid, mode))
  {
    if ar.Length <= 0x24 {
      return false;
    }
    var mapTime := FindTime(original, [SLASH]);
    var tableTime := FindTime(original, [SLASH, SLASH]);
    if mapTime.Failed? || tableTime.Failed? {
      return false;
    }
    ok := PatchHeaders(ar, Change(mapTime.value, tableTime.value, uid, gid, mode));
  }
}
