/**
 The promises of overlay relocation, from the packed table itself: what each relocation's bits mean, and what
 becomes of the word that they name.  Addresses and fields are spelled out, and so are the relocation types.
 */
module OverlayPacked {
  import opened MipsWords
  import opened Overlay
  import opened OverlayProof
  import opened OverlayLuis
  import opened OverlayTheorems

  /* ----- the table ----- */

  /** The relocation's type: 2 a pointer, 4 a jump, 5 and 6 the halves of an address. */
  function TypeOf(r: Word): nat { r / 0x100_0000 % 64 }

  /** Where a section stands: text first, then data, then read-only data; section 0 is absolute. */
  function SectionBase(ram: Word, ovl: RelocationSection, section: int): int {
    if section == 0 then 0
    else if section == 1 then ram
    else if section == 2 then ram + ovl.textSize
    else ram + ovl.textSize + ovl.dataSize
  }

  /** The word of the image that a relocation names. */
  function Target(ram: Word, ovl: RelocationSection, r: Word): int {
    ((SectionBase(ram, ovl, r / 0x4000_0000) + r % 0x100_0000) % 0x1_0000_0000 - ram) / 4
  }

  /** One table, and the image that it is for. */
  datatype Overlaid = Overlaid(p: Placement, ovl: RelocationSection, image: seq<Word>) {
    function Count(): nat { |ovl.relocations| }

    function Type(i: int): nat
      requires 0 <= i < Count()
    {
      TypeOf(ovl.relocations[i])
    }

    function Slot(i: int): int
      requires 0 <= i < Count()
    {
      Target(p.ram, ovl, ovl.relocations[i])
    }

    predicate Within(i: int)
      requires 0 <= i < Count()
    {
      0 <= Slot(i) < |image|
    }

    /** Relocation `i` announces a LUI of register `r`. */
    predicate Loads(i: int, r: nat) {
      0 <= i < Count() && Type(i) == 5 && Within(i) && image[Slot(i)] / 0x1_0000 % 32 == r
    }

    /** Low half `i` is completed by LUI `h`: the last one before it of the register that it adds to. */
    ghost predicate Pairs(i: int, h: int) {
      && 0 <= h < i < Count() && Type(i) == 6 && Within(i)
      && var r := image[Slot(i)] / 0x20_0000 % 32;
         Loads(h, r) && forall k :: h < k < i ==> !Loads(k, r)
    }

    /** Low half `i` is completed by the LUI in word `s`. */
    ghost predicate LowOf(i: int, s: int) { exists h :: Pairs(i, h) && Slot(h) == s }

    /** No word is patched by two relocations, but for LUIs; all words lie in the image, and no low half lacks its LUI. */
    ghost predicate Orderly() {
      && (forall i :: 0 <= i < Count() && Type(i) in {2, 4, 5, 6} ==> Within(i))
      && (forall i, j :: 0 <= i < Count() && 0 <= j < Count() && i != j && Type(i) in {2, 4, 6} && Type(j) in {2, 4, 5, 6} ==>
            Slot(i) != Slot(j))
      && (forall i :: 0 <= i < Count() && Type(i) == 6 ==> exists h :: Pairs(i, h))
    }

    /** The address that low half `i` and the LUI in word `s` denote as linked. */
    function Linked(i: int, s: int): int
      requires 0 <= i < Count() && Within(i) && 0 <= s < |image|
    {
      Denoted(image[s], image[Slot(i)])
    }

    function Shift(a: int): int { (a - p.vram + p.ram) % 0x1_0000_0000 }

    /** The low halves of the LUI in word `s` denote addresses in 16 MiB, before and after the move. */
    ghost predicate InRange(s: int) {
      0 <= s < |image| && forall i :: LowOf(i, s) && 0 <= i < Count() && Within(i) ==>
        0x8000_0000 <= Linked(i, s) < 0x8100_0000 && 0x8000_0000 <= Shift(Linked(i, s)) < 0x8100_0000
    }

    /** And they ask for one and the same LUI. */
    ghost predicate Agreed(s: int, high: int) {
      InRange(s) && forall i :: LowOf(i, s) && 0 <= i < Count() && Within(i) ==> (Shift(Linked(i, s)) + 0x8000) / 0x1_0000 == high
    }

    /** A low half of the LUI in word `s` comes before relocation `k`. */
    ghost predicate Seen(k: int, s: int) { exists i :: 0 <= i < k && LowOf(i, s) }

    /** No LUI is announced once a low half of it was patched. */
    ghost predicate AnnouncedFirst() {
      forall i :: 0 <= i < Count() && Type(i) == 5 && Within(i) ==> !Seen(i, Slot(i))
    }

    ghost predicate WellFormed() {
      Orderly() && (AnnouncedFirst() || forall s :: 0 <= s < |image| ==> InRange(s))
    }

    /** Low half `i` is the first of its LUI, or stays inside the 16 MiB under its new LUI. */
    ghost predicate Accepted(i: int, s: int, high: int)
      requires 0 <= i < Count() && Within(i)
    {
      !Seen(i, s) || Inside(high, image[Slot(i)])
    }

    /** The LUI of low half `i` was announced when another low half of it had been patched. */
    ghost predicate Late(i: int, s: int) { exists h :: Pairs(i, h) && Slot(h) == s && Seen(h, s) }

    /** The LUI stands as linked anyway, or no late low half passes the loader's test. */
    ghost predicate Steady(s: int, high: int)
      requires 0 <= s < |image|
    {
      || high == image[s] % 0x1_0000
      || !exists i :: 0 <= i < Count() && Within(i) && LowOf(i, s) && Late(i, s) && Inside(high, image[Slot(i)])
    }

    /* ----- what becomes of the words ----- */

    /** A pointer is moved exactly if bits 24 to 27 are clear. */
    predicate PointerDone(out: seq<Word>, s: int)
      requires |out| == |image| && 0 <= s < |image|
    {
      out[s] == if image[s] / 0x100_0000 % 16 == 0 then Shift(image[s]) else image[s]
    }

    /** A jump keeps its opcode, and goes to the moved address exactly under a condition on that. */
    predicate JumpDone(out: seq<Word>, s: int)
      requires |out| == |image| && 0 <= s < |image|
    {
      var x := Shift(0x8000_0000 + image[s] % 0x400_0000 * 4);
      && out[s] / 0x400_0000 == image[s] / 0x400_0000
      && (0x8000_0000 + out[s] % 0x400_0000 * 4 == x <==> (p.ram - p.vram) % 4 == 0 && 0x8000_0000 <= x < 0x9000_0000)
    }

    /** The upper half of an instruction is kept. */
    predicate UpperKept(out: seq<Word>, s: int)
      requires |out| == |image| && 0 <= s < |image|
    {
      out[s] / 0x1_0000 == image[s] / 0x1_0000
    }

    /** Low half and LUI denote the moved address exactly if the low half is accepted and the LUI steady. */
    ghost predicate PairDone(out: seq<Word>, i: int, s: int, high: int)
      requires |out| == |image| && 0 <= i < Count() && Within(i) && 0 <= s < |image|
    {
      Denoted(out[s], out[Slot(i)]) == Shift(Linked(i, s)) <==> Accepted(i, s, high) && Steady(s, high)
    }

    ghost predicate Done(out: seq<Word>) {
      && |out| == |image|
      && (forall i :: 0 <= i < Count() && Type(i) == 2 && Within(i) ==> PointerDone(out, Slot(i)))
      && (forall i :: 0 <= i < Count() && Type(i) == 4 && Within(i) ==> JumpDone(out, Slot(i)))
      && (forall i :: 0 <= i < Count() && Type(i) == 6 && Within(i) ==> UpperKept(out, Slot(i)))
      && (forall i :: 0 <= i < Count() && Type(i) == 5 && Within(i) && InRange(Slot(i)) ==> UpperKept(out, Slot(i)))
      && (forall i, s, high :: 0 <= i < Count() && Within(i) && LowOf(i, s) && Agreed(s, high) ==> PairDone(out, i, s, high))
      && (forall s :: 0 <= s < |image| && (forall i :: 0 <= i < Count() && Type(i) in {2, 4, 5, 6} ==> Slot(i) != s) ==>
            out[s] == image[s])
    }

    function Table(): seq<Entry> { Entries(p.ram, ovl) }
  }

  /** The sum of a LUI's immediate, shifted, and a sign-extended low half. */
  function Denoted(hi: Word, lo: Word): int {
    var l := lo % 0x1_0000;
    (hi % 0x1_0000 * 0x1_0000 + if l >= 0x8000 then l - 0x1_0000 else l) % 0x1_0000_0000
  }

  /** The low half of `w` does not leave the 16 MiB under the LUI `high`, at either end. */
  predicate Inside(high: int, w: Word) {
    if w % 0x1_0000 >= 0x8000 then high != 0x8000 else high != 0x8100
  }

  /* ----- the loader's view of the table ----- */

  lemma TargetIs(ram: Word, ovl: RelocationSection, r: Word)
    ensures (TargetAddress(ram, ovl, r) - ram) / 4 == Target(ram, ovl, r)
  {
    hide Wrap;
    var off, section := r % 0x100_0000, r / 0x4000_0000;
    assert 0 <= section < 4;
    WrapIs(SectionBase(ram, ovl, section) + off);
    if section == 2 {
      WrapSum(ram + ovl.textSize, off);
    } else if section == 3 {
      WrapSum(ram + ovl.textSize, ovl.dataSize);
      WrapSum(ram + ovl.textSize + ovl.dataSize, off);
    }
  }

  lemma WrapIs(x: int)
    ensures Wrap(x) == x % 0x1_0000_0000
  {
  }

  lemma EntryIs(o: Overlaid, i: nat)
    requires i < o.Count()
    ensures var e := o.Table()[i];
      && (o.Type(i) == 2 <==> e.kind == Pointer) && (o.Type(i) == 4 <==> e.kind == Jump)
      && (o.Type(i) == 5 <==> e.kind == High) && (o.Type(i) == 6 <==> e.kind == Low)
      && (o.Type(i) in {2, 4, 5, 6} <==> e.kind != Ignored)
      && (e.kind != Ignored ==> e.slot == o.Slot(i))
  {
    hide TargetAddress, Target;
    TargetIs(o.p.ram, o.ovl, o.ovl.relocations[i]);
  }

  lemma LoadsIs(o: Overlaid, i: nat, r: nat)
    requires i < o.Count()
    ensures var e := o.Table()[i];
      o.Loads(i, r) <==> e.kind == High && 0 <= e.slot < |o.image| && Rt(o.image[e.slot]) == r
  {
    hide Target, TypeOf;
    EntryIs(o, i);
  }

  /** The last LUI of a register. */
  lemma {:induction false} LastLoads(o: Overlaid, k: nat, r: nat)
    requires k <= o.Count()
    ensures var h := LastHigh(o.image, o.Table(), k, r);
      (h >= 0 ==> o.Loads(h, r)) && forall x :: h < x < k ==> !o.Loads(x, r)
  {
    hide Overlaid.Loads, Rt, Entries;
    if k > 0 {
      LastLoads(o, k - 1, r);
      LoadsIs(o, k - 1, r);
    }
  }

  lemma PairsIs(o: Overlaid, i: nat, h: int)
    requires i < o.Count()
    ensures var e := o.Table()[i];
      o.Pairs(i, h) <==> h >= 0 && e.kind == Low && 0 <= e.slot < |o.image| && OwnerEntry(o.image, o.Table(), i) == h
  {
    hide Target, TypeOf, Overlaid.Loads, LastHigh;
    EntryIs(o, i);
    if o.Type(i) == 6 && o.Within(i) {
      LastLoads(o, i, Rs(o.image[o.Slot(i)]));
    }
  }

  lemma LowOfIs(o: Overlaid, i: int, s: int)
    ensures o.LowOf(i, s) <==> Shares(o.image, o.Table(), i, s)
  {
    hide Overlaid.Loads, LastHigh, Target, TypeOf;
    if 0 <= i < o.Count() {
      var h := if Owned(o.image, o.Table(), i) then OwnerEntry(o.image, o.Table(), i) else 0;
      PairsIs(o, i, h);
      if 0 <= h < o.Count() {
        EntryIs(o, h);
      }
      if g :| o.Pairs(i, g) && o.Slot(g) == s {
        PairsIs(o, i, g);
      }
    } else {
      NoPairs(o, i);
    }
  }

  lemma NoPairs(o: Overlaid, i: int)
    requires !(0 <= i < o.Count())
    ensures forall h :: !o.Pairs(i, h)
  {
  }

  lemma DenotedIs(hi: Word, lo: Word)
    ensures Denoted(hi, lo) == PairAddress(hi, lo)
  {
  }

  lemma ShiftIs(o: Overlaid, a: Word)
    ensures o.Shift(a) == Moved(o.p, a)
  {
  }

  lemma HighIs(a: Word)
    ensures HighHalf(a) == (a + 0x8000) / 0x1_0000
  {
    var q, l := a / 0x1_0000, a % 0x1_0000;
    assert a == q * 0x1_0000 + l;
    assert (a + 0x8000) / 0x1_0000 == q + (l + 0x8000) / 0x1_0000;
  }

  lemma InsideIs(high: int, w: Word)
    ensures Inside(high, w) <==> StaysInside(high, w)
  {
  }

  /** The addresses of a low half. */
  lemma LinkedIs(o: Overlaid, i: int, s: int)
    requires o.LowOf(i, s)
    ensures 0 <= i < o.Count() && o.Within(i) && 0 <= s < |o.image| && Owned(o.image, o.Table(), i)
    ensures var a := AddressOf(o.image, o.Table(), i); o.Linked(i, s) == a && o.Shift(a) == Moved(o.p, a)
    ensures Owner(o.image, o.Table(), i) == s && o.Table()[i].slot == o.Slot(i) && o.Table()[i].kind == Low
  {
    hide Overlaid.Loads, Target, TypeOf, LastHigh, OwnerEntry, PairAddress, Denoted, Moved, Overlaid.Shift;
    LowOfIs(o, i, s);
    EntryIs(o, i);
    DenotedIs(o.image[s], o.image[o.Slot(i)]);
    ShiftIs(o, AddressOf(o.image, o.Table(), i));
  }

  lemma InRangeIs(o: Overlaid, s: int)
    requires 0 <= s < |o.image|
    ensures o.InRange(s) <==> LuiInKseg0(o.p, o.image, o.Table(), s)
  {
    hide Overlaid.LowOf, Shares, AddressOf, Overlaid.Linked, Moved, Overlaid.Shift, Overlaid.Within;
    forall i ensures o.LowOf(i, s) <==> Shares(o.image, o.Table(), i, s) {
      LowOfIs(o, i, s);
    }
    forall i | o.LowOf(i, s)
      ensures 0 <= i < o.Count() && o.Within(i) && Owned(o.image, o.Table(), i)
      ensures o.Linked(i, s) == AddressOf(o.image, o.Table(), i) && o.Shift(o.Linked(i, s)) == Moved(o.p, o.Linked(i, s))
    {
      LinkedIs(o, i, s);
    }
  }

  lemma AgreedIs(o: Overlaid, s: int, high: int)
    requires 0 <= s < |o.image|
    ensures o.Agreed(s, high) <==> OverlayLuis.Agreed(o.p, o.image, o.Table(), s, high)
  {
    hide Overlaid.LowOf, Shares, AddressOf, Overlaid.Linked, Moved, Overlaid.Shift, Overlaid.Within, HighHalf;
    hide Overlaid.InRange, LuiInKseg0;
    InRangeIs(o, s);
    forall i ensures o.LowOf(i, s) <==> Shares(o.image, o.Table(), i, s) {
      LowOfIs(o, i, s);
    }
    forall i | o.LowOf(i, s)
      ensures 0 <= i < o.Count() && o.Within(i) && Owned(o.image, o.Table(), i)
      ensures (o.Shift(o.Linked(i, s)) + 0x8000) / 0x1_0000 == HighHalf(Moved(o.p, AddressOf(o.image, o.Table(), i)))
    {
      LinkedIs(o, i, s);
      HighIs(Moved(o.p, AddressOf(o.image, o.Table(), i)));
    }
  }

  lemma SeenIs(o: Overlaid, k: int, s: int)
    ensures o.Seen(k, s) <==> OverlayLuis.Seen(o.image, o.Table(), k, s)
  {
    hide Overlaid.LowOf, Shares;
    forall i ensures o.LowOf(i, s) <==> Shares(o.image, o.Table(), i, s) {
      LowOfIs(o, i, s);
    }
  }

  lemma OrderlyIs(o: Overlaid)
    ensures o.Orderly() <==> OverlayProof.Orderly(o.image, o.Table())
  {
    hide Overlaid.Loads, Target, TypeOf, LastHigh;
    forall i: nat | i < o.Count()
      ensures var e := o.Table()[i];
        && (o.Type(i) == 5 <==> e.kind == High) && (o.Type(i) == 6 <==> e.kind == Low)
        && (o.Type(i) in {2, 4, 5, 6} <==> e.kind != Ignored) && (e.kind != Ignored ==> e.slot == o.Slot(i))
    {
      EntryIs(o, i);
    }
    forall i: nat | i < o.Count() ensures (exists h :: o.Pairs(i, h)) <==> Owned(o.image, o.Table(), i) {
      PairsOwned(o, i);
    }
    hide Overlaid.Pairs, Owned;
  }

  lemma PairsOwned(o: Overlaid, i: nat)
    requires i < o.Count()
    ensures (exists h :: o.Pairs(i, h)) <==> Owned(o.image, o.Table(), i)
  {
    hide Overlaid.Pairs, LastHigh, OwnerEntry;
    if Owned(o.image, o.Table(), i) {
      PairsIs(o, i, OwnerEntry(o.image, o.Table(), i));
    }
    if h :| o.Pairs(i, h) {
      PairsIs(o, i, h);
    }
  }

  lemma AnnouncedIs(o: Overlaid)
    ensures o.AnnouncedFirst() <==> OverlayTheorems.AnnouncedFirst(o.image, o.Table())
  {
    hide Overlaid.Seen, OverlayLuis.Seen, Target, TypeOf;
    forall i: nat | i < o.Count()
      ensures (o.Type(i) == 5 && o.Within(i) <==> o.Table()[i].kind == High && 0 <= o.Table()[i].slot < |o.image|)
      ensures o.Type(i) == 5 ==> o.Table()[i].slot == o.Slot(i)
      ensures o.Seen(i, o.Slot(i)) <==> OverlayLuis.Seen(o.image, o.Table(), i, o.Slot(i))
    {
      EntryIs(o, i);
      SeenIs(o, i, o.Slot(i));
    }
  }

  lemma WellFormedIs(o: Overlaid)
    requires o.WellFormed()
    ensures OverlayProof.WellFormed(o.p, o.image, o.Table())
  {
    hide Overlaid.Orderly, Overlaid.AnnouncedFirst, Overlaid.InRange, OverlayProof.Orderly, OverlayProof.WellFormed;
    hide OverlayTheorems.AnnouncedFirst, LuiInKseg0;
    OrderlyIs(o);
    AnnouncedIs(o);
    if !o.AnnouncedFirst() {
      forall s: nat | s < |o.image| ensures LuiInKseg0(o.p, o.image, o.Table(), s) {
        InRangeIs(o, s);
      }
    }
    OrderlyIsWellFormed(o.p, o.image, o.Table());
  }

  lemma LateIs(o: Overlaid, i: int, s: int)
    requires o.LowOf(i, s)
    ensures o.Late(i, s) <==> OverlayLuis.Late(o.image, o.Table(), i)
  {
    hide Overlaid.Pairs, Overlaid.Seen, OverlayLuis.Seen, LastHigh, OwnerEntry, Target, TypeOf, Overlaid.LowOf;
    LinkedIs(o, i, s);
    var h := OwnerEntry(o.image, o.Table(), i);
    PairsIs(o, i, h);
    SeenIs(o, h, s);
    EntryIs(o, h);
    forall g | o.Pairs(i, g) ensures g == h {
      PairsIs(o, i, g);
    }
  }

  lemma AcceptedIs(o: Overlaid, i: int, s: int, high: int)
    requires o.LowOf(i, s)
    ensures 0 <= i < o.Count() && o.Within(i) && Owned(o.image, o.Table(), i)
    ensures o.Accepted(i, s, high) <==> OverlayLuis.Accepted(o.image, o.Table(), i, high)
  {
    hide Overlaid.Seen, OverlayLuis.Seen, Overlaid.LowOf, Target, TypeOf, StaysInside, Inside, OwnerEntry;
    LinkedIs(o, i, s);
    SeenIs(o, i, s);
    InsideIs(high, o.image[o.Slot(i)]);
  }

  lemma SteadyIs(o: Overlaid, s: nat, high: int)
    requires s < |o.image|
    ensures o.Steady(s, high) <==> OverlayLuis.Steady(o.image, o.Table(), s, high)
  {
    hide Overlaid.LowOf, Shares, Overlaid.Late, OverlayLuis.Late, StaysInside, Inside, Overlaid.Within, Target, TypeOf;
    forall i ensures o.LowOf(i, s) <==> Shares(o.image, o.Table(), i, s) {
      LowOfIs(o, i, s);
    }
    forall i | o.LowOf(i, s)
      ensures 0 <= i < o.Count() && o.Within(i) && 0 <= o.Slot(i) < |o.image| && o.Table()[i].slot == o.Slot(i)
      ensures o.Late(i, s) <==> OverlayLuis.Late(o.image, o.Table(), i)
      ensures Inside(high, o.image[o.Slot(i)]) <==> StaysInside(high, o.image[o.Slot(i)])
    {
      LinkedIs(o, i, s);
      LateIs(o, i, s);
      WithinIs(o, i);
      InsideIs(high, o.image[o.Slot(i)]);
    }
  }

  lemma WithinIs(o: Overlaid, i: int)
    requires 0 <= i < o.Count() && o.Within(i)
    ensures 0 <= o.Slot(i) < |o.image|
  {
  }

  /* ----- the promises ----- */

  function After(o: Overlaid): (out: seq<Word>)
    ensures |out| == |o.image|
  {
    Run(o.p, o.image, o.Table(), o.Count()).image
  }

  lemma PointerIsDone(o: Overlaid, i: nat)
    requires o.WellFormed() && i < o.Count() && o.Type(i) == 2 && o.Within(i)
    ensures o.PointerDone(After(o), o.Slot(i))
  {
    hide Overlaid.WellFormed, Target, TypeOf, Run, Moved, Overlaid.Shift, Entries;
    WellFormedIs(o);
    EntryIs(o, i);
    PointersAndJumpsMove(o.p, o.image, o.Table(), i);
    ShiftIs(o, o.image[o.Slot(i)]);
  }

  lemma JumpIsDone(o: Overlaid, i: nat)
    requires o.WellFormed() && i < o.Count() && o.Type(i) == 4 && o.Within(i)
    ensures o.JumpDone(After(o), o.Slot(i))
  {
    hide Overlaid.WellFormed, Target, TypeOf, Run, Moved, Overlaid.Shift, Entries, OverlayProof.WellFormed, LuiInKseg0;
    WellFormedIs(o);
    EntryIs(o, i);
    PointersAndJumpsMove(o.p, o.image, o.Table(), i);
    ShiftIs(o, JumpAddress(o.image[o.Slot(i)]));
    PatchedWord(o, i);
  }

  lemma PatchedWord(o: Overlaid, i: nat)
    requires o.WellFormed() && i < o.Count() && o.Type(i) in {4, 6} && o.Within(i)
    ensures LuiInKseg0(o.p, o.image, o.Table(), o.Slot(i))
    ensures o.Type(i) == 4 ==> After(o)[o.Slot(i)] / 0x400_0000 == o.image[o.Slot(i)] / 0x400_0000
    ensures o.Type(i) == 6 ==> Upper(After(o)[o.Slot(i)]) == Upper(o.image[o.Slot(i)])
  {
    hide Overlaid.WellFormed, Target, TypeOf, Run, Entries, Upper, OverlayProof.WellFormed, LuiInKseg0;
    WellFormedIs(o);
    EntryIs(o, i);
    NoLuiThere(o, i);
    FieldsKept(o.p, o.image, o.Table(), o.Slot(i));
  }

  /** The word of a jump or a low half is not a LUI's. */
  lemma NoLuiThere(o: Overlaid, i: nat)
    requires o.WellFormed() && i < o.Count() && o.Type(i) in {4, 6} && o.Within(i)
    ensures LuiInKseg0(o.p, o.image, o.Table(), o.Slot(i))
  {
    hide Target, TypeOf, Overlaid.InRange, Overlaid.AnnouncedFirst, Overlaid.Loads;
    var s := o.Slot(i);
    forall j ensures !Shares(o.image, o.Table(), j, s) {
      LowOfIs(o, j, s);
      if h :| o.Pairs(j, h) && o.Slot(h) == s {
        LoadsType(o, h, o.image[o.Slot(j)] / 0x20_0000 % 32);
      }
    }
    hide Shares;
  }

  lemma LoadsType(o: Overlaid, h: int, r: nat)
    requires o.Loads(h, r)
    ensures 0 <= h < o.Count() && o.Type(h) == 5
  {
  }

  lemma UpperIs(w: Word, x: Word)
    requires Upper(w) == Upper(x)
    ensures w / 0x1_0000 == x / 0x1_0000
  {
  }

  lemma LuiIsKept(o: Overlaid, i: nat)
    requires o.WellFormed() && i < o.Count() && o.Type(i) == 5 && o.Within(i) && o.InRange(o.Slot(i))
    ensures o.UpperKept(After(o), o.Slot(i))
  {
    hide Overlaid.WellFormed, Target, TypeOf, Run, Entries, Upper, OverlayProof.WellFormed, LuiInKseg0, Overlaid.InRange;
    WellFormedIs(o);
    EntryIs(o, i);
    InRangeIs(o, o.Slot(i));
    FieldsKept(o.p, o.image, o.Table(), o.Slot(i));
    UpperIs(After(o)[o.Slot(i)], o.image[o.Slot(i)]);
  }

  lemma LowIsKept(o: Overlaid, i: nat)
    requires o.WellFormed() && i < o.Count() && o.Type(i) == 6 && o.Within(i)
    ensures o.UpperKept(After(o), o.Slot(i))
  {
    hide Overlaid.WellFormed, Target, TypeOf, Upper;
    PatchedWord(o, i);
    UpperIs(After(o)[o.Slot(i)], o.image[o.Slot(i)]);
  }

  lemma PairIsDone(o: Overlaid, i: int, s: int, high: int)
    requires o.WellFormed() && o.LowOf(i, s) && o.Agreed(s, high)
    ensures 0 <= i < o.Count() && o.Within(i) && 0 <= s < |o.image| && o.PairDone(After(o), i, s, high)
  {
    hide Overlaid.WellFormed, Overlaid.LowOf, Overlaid.Agreed, Target, TypeOf, Run, Entries, OverlayProof.WellFormed;
    hide Overlaid.Accepted, Overlaid.Steady, OverlayLuis.Accepted, OverlayLuis.Steady, OverlayLuis.Agreed, PairAddress;
    hide Denoted, Moved, Overlaid.Shift, OwnerEntry, Overlaid.Linked, AddressOf;
    WellFormedIs(o);
    LinkedIs(o, i, s);
    AgreedIs(o, s, high);
    AcceptedIs(o, i, s, high);
    SteadyIs(o, s, high);
    PairMoves(o.p, o.image, o.Table(), i, high);
    DenotedIs(After(o)[s], After(o)[o.Slot(i)]);
  }

  lemma RestIsKept(o: Overlaid, s: nat)
    requires o.WellFormed() && s < |o.image|
    requires forall i :: 0 <= i < o.Count() && o.Type(i) in {2, 4, 5, 6} ==> o.Slot(i) != s
    ensures After(o)[s] == o.image[s]
  {
    hide Overlaid.WellFormed, Target, TypeOf, Run, OverlayProof.WellFormed;
    WellFormedIs(o);
    forall i: nat | i < o.Count() && o.Table()[i].kind != Ignored ensures o.Table()[i].slot != s {
      EntryIs(o, i);
    }
    forall j ensures !Shares(o.image, o.Table(), j, s) {
      hide LastHigh, OwnerEntry;
    }
    FieldsKept(o.p, o.image, o.Table(), s);
  }

  /** All of it, for any table in order. */
  lemma Relocated(o: Overlaid)
    requires o.WellFormed()
    ensures o.Done(After(o))
  {
    hide Overlaid.WellFormed, Overlaid.PointerDone, Overlaid.JumpDone, Overlaid.UpperKept, Overlaid.PairDone;
    hide After, Overlaid.LowOf, Overlaid.Agreed, Overlaid.InRange, Overlaid.Within, Target, TypeOf;
    forall i: nat | i < o.Count() && o.Within(i)
      ensures 0 <= o.Slot(i) < |o.image|
      ensures o.Type(i) == 2 ==> o.PointerDone(After(o), o.Slot(i))
      ensures o.Type(i) == 4 ==> o.JumpDone(After(o), o.Slot(i))
      ensures o.Type(i) == 6 ==> o.UpperKept(After(o), o.Slot(i))
      ensures o.Type(i) == 5 && o.InRange(o.Slot(i)) ==> o.UpperKept(After(o), o.Slot(i))
    {
      OneIsDone(o, i);
    }
    forall i, s, high | 0 <= i < o.Count() && o.Within(i) && o.LowOf(i, s) && o.Agreed(s, high)
      ensures 0 <= s < |o.image| && o.PairDone(After(o), i, s, high)
    {
      PairIsDone(o, i, s, high);
    }
    forall s: nat | s < |o.image| && (forall i :: 0 <= i < o.Count() && o.Type(i) in {2, 4, 5, 6} ==> o.Slot(i) != s)
      ensures After(o)[s] == o.image[s]
    {
      RestIsKept(o, s);
    }
  }

  lemma OneIsDone(o: Overlaid, i: nat)
    requires o.WellFormed() && i < o.Count() && o.Within(i)
    ensures 0 <= o.Slot(i) < |o.image|
    ensures o.Type(i) == 2 ==> o.PointerDone(After(o), o.Slot(i))
    ensures o.Type(i) == 4 ==> o.JumpDone(After(o), o.Slot(i))
    ensures o.Type(i) == 6 ==> o.UpperKept(After(o), o.Slot(i))
    ensures o.Type(i) == 5 && o.InRange(o.Slot(i)) ==> o.UpperKept(After(o), o.Slot(i))
  {
    hide Overlaid.WellFormed, Overlaid.PointerDone, Overlaid.JumpDone, Overlaid.UpperKept, Overlaid.InRange, After, Target,
         TypeOf;
    if o.Type(i) == 2 {
      PointerIsDone(o, i);
    } else if o.Type(i) == 4 {
      JumpIsDone(o, i);
    } else if o.Type(i) == 6 {
      LowIsKept(o, i);
    } else if o.Type(i) == 5 && o.InRange(o.Slot(i)) {
      LuiIsKept(o, i);
    }
  }

  /** The loader, on a table in order: every word ends as its relocations say. */
  method RelocateOverlay(p: Placement, ovl: RelocationSection, image: array<Word>)
    requires Overlaid(p, ovl, image[..]).WellFormed()
    modifies image
    ensures Overlaid(p, ovl, old(image[..])).Done(image[..])
  {
    hide *;
    ghost var o := Overlaid(p, ovl, image[..]);
    TableIsDefined(o);
    Relocated(o);
    AfterIs(o);
    DoRelocation(p, ovl, image);
  }

  lemma FirstWord(ovl: RelocationSection)
    ensures Target(0x8010_0000, ovl, 0x4200_0000) == 0
  {
  }

  /** A table of one pointer, as the smallest case. */
  lemma OnePointer(o: Overlaid)
    requires o.ovl.relocations == [0x4200_0000] && o.image == [0x8080_0010]
    requires o.p.vram == 0x8080_0000 && o.p.ram == 0x8010_0000
    ensures o.WellFormed() && After(o) == [0x8010_0010]
  {
    hide After, Target, Run;
    FirstWord(o.ovl);
    assert o.Slot(0) == 0 && o.Type(0) == 2;
    Relocated(o);
    assert After(o)[0] == o.Shift(0x8080_0010);
  }

  lemma TableIsDefined(o: Overlaid)
    requires o.WellFormed()
    ensures Defined(o.p, o.image, Entries(o.p.ram, o.ovl))
  {
    hide Overlaid.WellFormed, OverlayProof.WellFormed, Defined;
    WellFormedIs(o);
    WellFormedIsDefined(o.p, o.image, o.Table());
  }

  lemma AfterIs(o: Overlaid)
    ensures After(o) == Run(o.p, o.image, Entries(o.p.ram, o.ovl), |o.ovl.relocations|).image
  {
  }
}
