/** The promises of overlay relocation, for addresses in the 16 MiB of KSEG0 that the loader accepts. */
module OverlayTheorems {
  import opened MipsWords
  import opened Overlay
  import opened OverlayProof
  import opened OverlayLuis

  /** Every HI/LO pair denotes an address in the 16 MiB, before and after the move. */
  ghost predicate PairsInKseg0(p: Placement, image: seq<Word>, es: seq<Entry>) {
    forall h: nat :: h < |image| ==> LuiInKseg0(p, image, es, h)
  }

  /** A LUI is not announced again once one of its low halves had its turn. */
  ghost predicate AnnouncedFirst(image: seq<Word>, es: seq<Entry>) {
    forall i :: 0 <= i < |es| && es[i].kind == High && 0 <= es[i].slot < |image| ==> !Seen(image, es, i, es[i].slot)
  }

  /** A table is well-formed if its LUIs are announced once, or if its pairs stay in range. */
  lemma OrderlyIsWellFormed(p: Placement, image: seq<Word>, es: seq<Entry>)
    requires Orderly(image, es) && (AnnouncedFirst(image, es) || PairsInKseg0(p, image, es))
    ensures WellFormed(p, image, es)
  {
    hide LuiWord, Orderly, LuiInKseg0;
    forall i | 0 <= i < |es| && es[i].kind == High && 0 <= es[i].slot < |image|
      ensures Rt(LuiWord(p, image, es, i, es[i].slot)) == Rt(image[es[i].slot])
    {
      if AnnouncedFirst(image, es) {
        LuiUntouched(p, image, es, i, es[i].slot);
      } else {
        LuiKeepsUpper(p, image, es, i, es[i].slot);
        SameRegisters(LuiWord(p, image, es, i, es[i].slot), image[es[i].slot]);
      }
    }
  }

  /** What the whole run leaves in the words of a pair. */
  lemma PairAfter(p: Placement, image: seq<Word>, es: seq<Entry>, i: nat)
    requires WellFormed(p, image, es) && i < |es| && Owned(image, es, i)
    ensures
      var out, h, s := Run(p, image, es, |es|).image, Owner(image, es, i), es[i].slot;
      && out[h] == LuiWord(p, image, es, |es|, h)
      && out[s] == if Applied(p, image, es, i) then PatchLow(image[s], Wanted(p, image, es, i)) else image[s]
  {
    hide Run, LuiWord, Tracks, Applied, LastHigh, OwnerEntry;
    RunProgress(p, image, es, |es|);
    var e := OwnerEntry(image, es, i);
    assert es[e].kind == High;
  }

  /** Both words of a pair after the run, under a LUI that ends as agreed. */
  lemma PairWords(p: Placement, image: seq<Word>, es: seq<Entry>, i: nat, high: int)
    requires WellFormed(p, image, es) && i < |es| && Owned(image, es, i)
    requires Agreed(p, image, es, Owner(image, es, i), high) && Steady(image, es, Owner(image, es, i), high)
    ensures
      var out, h, s := Run(p, image, es, |es|).image, Owner(image, es, i), es[i].slot;
      && out[h] == PatchHigh(image[h], Moved(p, AddressOf(image, es, i)))
      && out[s] == if Accepted(image, es, i, high) then PatchLow(image[s], Moved(p, AddressOf(image, es, i))) else image[s]
  {
    hide *;
    SharesOwner(image, es, i);
    PairAfter(p, image, es, i);
    var h := Owner(image, es, i);
    AgreedOn(p, image, es, i, h, high);
    LuiEnds(p, image, es, i, h, high);
    AppliedIffAccepted(p, image, es, i, h, high);
    LuiIs(p, image, es, |es|, h, Moved(p, AddressOf(image, es, i)));
    PatchLowAlike(image[es[i].slot], Wanted(p, image, es, i), Moved(p, AddressOf(image, es, i)));
  }

  lemma SharesOwner(image: seq<Word>, es: seq<Entry>, i: nat)
    requires Owned(image, es, i)
    ensures Shares(image, es, i, Owner(image, es, i)) && 0 <= es[i].slot < |image|
  {
  }

  lemma AgreedOn(p: Placement, image: seq<Word>, es: seq<Entry>, i: nat, h: nat, high: int)
    requires i < |es| && Shares(image, es, i, h) && Agreed(p, image, es, h, high)
    ensures LuiInKseg0(p, image, es, h) && HighHalf(Moved(p, AddressOf(image, es, i))) == high
    ensures InKseg0(AddressOf(image, es, i)) && InKseg0(Moved(p, AddressOf(image, es, i)))
  {
    hide HighHalf, Moved;
  }

  lemma LuiIs(p: Placement, image: seq<Word>, es: seq<Entry>, k: nat, h: nat, a: Word)
    requires k <= |es| && h < |image| && Near(p, image, es, k, h)
    requires InKseg0(a) && Lower(LuiWord(p, image, es, k, h)) == HighHalf(a)
    ensures LuiWord(p, image, es, k, h) == PatchHigh(image[h], a)
  {
    hide LuiWord, Upper, Lower, HighHalf, PatchHigh;
    PatchHighSmall(image[h], a);
    SameHalves(LuiWord(p, image, es, k, h), PatchHigh(image[h], a));
  }

  lemma PatchLowAlike(w: Word, a: Word, b: Word)
    requires Lower(a) == Lower(b)
    ensures PatchLow(w, a) == PatchLow(w, b)
  {
  }

  lemma PatchedElsewhere(hi: Word, lo: Word, a: Word)
    requires InKseg0(a) && !StaysInside(HighHalf(a), lo)
    ensures PairAddress(PatchHigh(hi, a), lo) != a
  {
    hide PairAddress, PatchHigh, HighHalf;
    Kseg0High(a);
    if PairAddress(PatchHigh(hi, a), lo) == a {
      PairLow(PatchHigh(hi, a), lo);
    }
  }

  /**
   A pair denotes the moved address after the run exactly if its own low half is accepted and its LUI ends as
   agreed.  Nothing is asked of other LUIs.
   */
  lemma PairMoves(p: Placement, image: seq<Word>, es: seq<Entry>, i: nat, high: int)
    requires WellFormed(p, image, es) && i < |es| && Owned(image, es, i)
    requires Agreed(p, image, es, Owner(image, es, i), high)
    ensures
      var out := Run(p, image, es, |es|).image;
      PairAddress(out[Owner(image, es, i)], out[es[i].slot]) == Moved(p, AddressOf(image, es, i)) <==>
        Accepted(image, es, i, high) && Steady(image, es, Owner(image, es, i), high)
  {
    hide *;
    SharesOwner(image, es, i);
    var out := Run(p, image, es, |es|).image;
    var h, s, a := Owner(image, es, i), es[i].slot, Moved(p, AddressOf(image, es, i));
    AgreedOn(p, image, es, i, h, high);
    PairAfter(p, image, es, i);
    LuiEnds(p, image, es, i, h, high);
    if Steady(image, es, h, high) {
      PairWords(p, image, es, i, high);
      PatchedPair(image[h], image[s], a);
      if !Accepted(image, es, i, high) {
        NotInside(image, es, i, high);
        PatchedElsewhere(image[h], image[s], a);
      }
    } else {
      NearRange(p, image, es, |es|, h);
      if PairAddress(out[h], out[s]) == a {
        PairOfHigh(out[h], out[s], a);
      }
    }
  }

  lemma NotInside(image: seq<Word>, es: seq<Entry>, i: nat, high: int)
    requires Owned(image, es, i) && !Accepted(image, es, i, high)
    ensures !StaysInside(high, image[es[i].slot])
  {
  }

  lemma NearRange(p: Placement, image: seq<Word>, es: seq<Entry>, k: nat, h: nat)
    requires k <= |es| && h < |image| && Near(p, image, es, k, h)
    ensures 0x7A00 <= Lower(LuiWord(p, image, es, k, h)) <= 0x8700
  {
  }

  /**
   The loader keeps registers and opcodes, and words without an entry, whether or not the low halves of a LUI
   agree.  Of a LUI, only its own low halves must be in range.
   */
  lemma FieldsKept(p: Placement, image: seq<Word>, es: seq<Entry>, s: nat)
    requires WellFormed(p, image, es) && s < |image| && LuiInKseg0(p, image, es, s)
    ensures
      var out := Run(p, image, es, |es|).image;
      && (Untargeted(es, s) ==> out[s] == image[s])
      && (forall i :: 0 <= i < |es| && es[i].slot == s && es[i].kind in {High, Low} ==> Upper(out[s]) == Upper(image[s]))
      && (forall i :: 0 <= i < |es| && es[i].slot == s && es[i].kind == Jump ==> Opcode(out[s]) == Opcode(image[s]))
  {
    RunProgress(p, image, es, |es|);
    LuiKeepsUpper(p, image, es, |es|, s);
    var now := Run(p, image, es, |es|).image;
    assert Progress(p, image, es, |es|, now);
    hide *;
    WellFormedIsOrderly(p, image, es);
    LowKept(p, image, es, now, s);
    HighKept(p, image, es, now, s);
    JumpKept(p, image, es, now, s);
    RestKept(p, image, es, now, s);
  }

  lemma RestKept(p: Placement, image: seq<Word>, es: seq<Entry>, now: seq<Word>, s: nat)
    requires Orderly(image, es) && Progress(p, image, es, |es|, now) && s < |image|
    ensures |now| == |image| && (Untargeted(es, s) ==> now[s] == image[s])
  {
    hide Orderly, LuiWord, Patched;
  }

  lemma LowKept(p: Placement, image: seq<Word>, es: seq<Entry>, now: seq<Word>, s: nat)
    requires Orderly(image, es) && Progress(p, image, es, |es|, now) && s < |image| == |now|
    ensures forall i :: 0 <= i < |es| && es[i].slot == s && es[i].kind == Low ==> Upper(now[s]) == Upper(image[s])
  {
    forall i | 0 <= i < |es| && es[i].slot == s && es[i].kind == Low ensures Upper(now[s]) == Upper(image[s]) {
      assert now[s] == Patched(p, image, es, i) && Owned(image, es, i);
      hide Orderly, LuiWord, Upper, Owned, PatchLow, Applied, Wanted, Progress;
      PatchLowAgain(image[s], Wanted(p, image, es, i), 0);
    }
  }

  lemma HighKept(p: Placement, image: seq<Word>, es: seq<Entry>, now: seq<Word>, s: nat)
    requires Orderly(image, es) && Progress(p, image, es, |es|, now) && s < |image| == |now|
    requires Upper(LuiWord(p, image, es, |es|, s)) == Upper(image[s])
    ensures forall i :: 0 <= i < |es| && es[i].slot == s && es[i].kind == High ==> Upper(now[s]) == Upper(image[s])
  {
    hide Orderly, LuiWord, Patched, Upper;
  }

  lemma JumpKept(p: Placement, image: seq<Word>, es: seq<Entry>, now: seq<Word>, s: nat)
    requires Orderly(image, es) && Progress(p, image, es, |es|, now) && s < |image| == |now|
    ensures forall i :: 0 <= i < |es| && es[i].slot == s && es[i].kind == Jump ==> Opcode(now[s]) == Opcode(image[s])
  {
    forall i | 0 <= i < |es| && es[i].slot == s && es[i].kind == Jump ensures Opcode(now[s]) == Opcode(image[s]) {
      assert now[s] == MoveJump(p, image[s]);
      hide Orderly, LuiWord, Opcode, PatchJump, Moved, JumpAddress, Progress;
      JumpMoves(image[s], p);
    }
  }

  /** Pointers and jumps: each decodes to its address moved, or the exact reason why not. */
  lemma PointersAndJumpsMove(p: Placement, image: seq<Word>, es: seq<Entry>, i: int)
    requires WellFormed(p, image, es) && 0 <= i < |es|
    ensures
      var out, s := Run(p, image, es, |es|).image, es[i].slot;
      && (es[i].kind == Pointer ==> out[s] == if Relocatable(image[s]) then Moved(p, image[s]) else image[s])
      && (es[i].kind == Jump ==>
            var x := Moved(p, JumpAddress(image[s]));
            JumpAddress(out[s]) == x <==> (p.ram - p.vram) % 4 == 0 && 0x8000_0000 <= x < 0x9000_0000)
  {
    hide Run, LuiWord, Tracks, Applied, Relocatable, Moved, PatchJump, JumpAddress, Owned;
    RunProgress(p, image, es, |es|);
    if es[i].kind == Jump {
      JumpMoves(image[es[i].slot], p);
    }
  }

  /* ----- two tables that the loader gets wrong ----- */

  const LUI_WORD: Word := 0x3C01_8080
  const ADD_WORD: Word := 0x2421_1000
  const NEXT_WORD: Word := 0x2421_2000
  const SUB_WORD: Word := 0x2421_F000

  const SHARED_LUI := [LUI_WORD, ADD_WORD, SUB_WORD]

  const SHARED_TABLE := [Entry(High, 0), Entry(Low, 1), Entry(Low, 2)]

  const SHARED_PLACE := Placement(0x807F_E000, 0x8000_0000)

  lemma SharedWords()
    ensures Rt(LUI_WORD) == Rs(ADD_WORD) == Rs(SUB_WORD) == Rs(NEXT_WORD) == 1
    ensures PairAddress(LUI_WORD, ADD_WORD) == 0x8080_1000 && PairAddress(LUI_WORD, SUB_WORD) == 0x807F_F000
    ensures Moved(SHARED_PLACE, 0x8080_1000) == 0x8000_3000 && Moved(SHARED_PLACE, 0x807F_F000) == 0x8000_1000
    ensures HighHalf(0x8000_3000) == HighHalf(0x8000_1000) == 0x8000
    ensures PairAddress(PatchHigh(LUI_WORD, 0x8000_1000), SUB_WORD) == 0x7FFF_F000
    ensures Lower(SUB_WORD) == 0xF000 && Lower(LUI_WORD) == 0x8080
  {
  }

  lemma SharedOwners()
    ensures Orderly(SHARED_LUI, SHARED_TABLE) && AnnouncedFirst(SHARED_LUI, SHARED_TABLE)
    ensures Shares(SHARED_LUI, SHARED_TABLE, 1, 0) && Shares(SHARED_LUI, SHARED_TABLE, 2, 0)
    ensures OwnerEntry(SHARED_LUI, SHARED_TABLE, 1) == OwnerEntry(SHARED_LUI, SHARED_TABLE, 2) == 0
  {
    SharedWords();
    hide Rs, Rt;
    assert LastHigh(SHARED_LUI, SHARED_TABLE, 1, 1) == 0;
    assert LastHigh(SHARED_LUI, SHARED_TABLE, 2, 1) == 0;
  }

  lemma SharedAgrees()
    ensures Agreed(SHARED_PLACE, SHARED_LUI, SHARED_TABLE, 0, 0x8000) && Steady(SHARED_LUI, SHARED_TABLE, 0, 0x8000)
    ensures Owned(SHARED_LUI, SHARED_TABLE, 2) && !Accepted(SHARED_LUI, SHARED_TABLE, 2, 0x8000)
  {
    SharedWords();
    SharedOwners();
    hide Rs, Rt, LastHigh, OwnerEntry, PairAddress, Moved, HighHalf, Lower, Orderly, AnnouncedFirst;
    assert Seen(SHARED_LUI, SHARED_TABLE, 2, 0);
    assert !Seen(SHARED_LUI, SHARED_TABLE, 0, 0);
  }

  /** Every address is in range and both low halves want the LUI 0x8000, yet the second is left as linked. */
  lemma SharedLuiNotMoved()
    ensures WellFormed(SHARED_PLACE, SHARED_LUI, SHARED_TABLE) && Shares(SHARED_LUI, SHARED_TABLE, 2, 0)
    ensures Agreed(SHARED_PLACE, SHARED_LUI, SHARED_TABLE, 0, 0x8000)
    ensures Moved(SHARED_PLACE, AddressOf(SHARED_LUI, SHARED_TABLE, 2)) == 0x8000_1000
    ensures
      var out := Run(SHARED_PLACE, SHARED_LUI, SHARED_TABLE, 3).image;
      PairAddress(out[0], out[2]) == 0x7FFF_F000
  {
    SharedWords();
    SharedOwners();
    SharedAgrees();
    hide Rs, Rt, LastHigh, OwnerEntry, PairAddress, Moved, HighHalf, Lower;
    hide PatchHigh, PatchLow, Run, Orderly, AnnouncedFirst, WellFormed, Agreed, Steady, Accepted;
    OrderlyIsWellFormed(SHARED_PLACE, SHARED_LUI, SHARED_TABLE);
    PairWords(SHARED_PLACE, SHARED_LUI, SHARED_TABLE, 2, 0x8000);
  }

  const TWICE_LUI := [LUI_WORD, ADD_WORD, NEXT_WORD]

  const TWICE_TABLE := [Entry(High, 0), Entry(Low, 1), Entry(High, 0), Entry(Low, 2)]

  const TWICE_PLACE := Placement(0x8080_0000, 0x8010_0000)

  const LUI_ONCE: Word := 0x3C01_8010
  const LUI_TWICE: Word := 0x3C01_7FA0

  lemma TwicePairs()
    ensures PairAddress(LUI_WORD, ADD_WORD) == 0x8080_1000 && PairAddress(LUI_WORD, NEXT_WORD) == 0x8080_2000
    ensures PairAddress(LUI_ONCE, NEXT_WORD) == 0x8010_2000
    ensures PairAddress(LUI_TWICE, ADD_WORD) == 0x7FA0_1000 && PairAddress(LUI_TWICE, NEXT_WORD) == 0x7FA0_2000
  {
  }

  lemma TwiceMoves()
    ensures Moved(TWICE_PLACE, 0x8080_1000) == 0x8010_1000 && Moved(TWICE_PLACE, 0x8080_2000) == 0x8010_2000
    ensures Moved(TWICE_PLACE, 0x8010_2000) == 0x7FA0_2000
    ensures Relocatable(0x8010_2000) && Relocatable(0x8080_1000)
  {
  }

  lemma TwicePatches()
    ensures PatchHigh(LUI_WORD, 0x8010_1000) == LUI_ONCE && PatchHigh(LUI_ONCE, 0x7FA0_2000) == LUI_TWICE
    ensures PatchLow(ADD_WORD, 0x8010_1000) == ADD_WORD && PatchLow(NEXT_WORD, 0x7FA0_2000) == NEXT_WORD
    ensures Rt(LUI_WORD) == Rt(LUI_ONCE) == Rs(ADD_WORD) == Rs(NEXT_WORD) == 1
  {
  }

  /**
   A LUI announced again after its first low half was patched is moved twice: both pairs should end at 0x80101000
   and 0x80102000, and both end 7 MiB below.
   */
  lemma AnnouncedTwiceMovesTwice()
    ensures Orderly(TWICE_LUI, TWICE_TABLE) && Shares(TWICE_LUI, TWICE_TABLE, 1, 0) && Shares(TWICE_LUI, TWICE_TABLE, 3, 0)
    ensures Moved(TWICE_PLACE, AddressOf(TWICE_LUI, TWICE_TABLE, 1)) == 0x8010_1000
    ensures Moved(TWICE_PLACE, AddressOf(TWICE_LUI, TWICE_TABLE, 3)) == 0x8010_2000
    ensures
      var out := Run(TWICE_PLACE, TWICE_LUI, TWICE_TABLE, 4).image;
      && out == [LUI_TWICE, ADD_WORD, NEXT_WORD]
      && PairAddress(out[0], out[1]) == 0x7FA0_1000 && PairAddress(out[0], out[2]) == 0x7FA0_2000
  {
    TwicePairs();
    TwiceMoves();
    TwicePatches();
    hide Rs, Rt, PairAddress, Moved, HighHalf, Lower, PatchHigh, PatchLow, Relocatable;
    TwiceOwners();
    TwiceSteps();
  }

  lemma TwiceOwners()
    ensures Orderly(TWICE_LUI, TWICE_TABLE) && Shares(TWICE_LUI, TWICE_TABLE, 1, 0) && Shares(TWICE_LUI, TWICE_TABLE, 3, 0)
  {
    TwicePatches();
    hide Rs, Rt;
    assert LastHigh(TWICE_LUI, TWICE_TABLE, 1, 1) == 0;
    assert LastHigh(TWICE_LUI, TWICE_TABLE, 3, 1) == 2;
  }

  lemma TwiceSteps()
    ensures Run(TWICE_PLACE, TWICE_LUI, TWICE_TABLE, 4).image == [LUI_TWICE, ADD_WORD, NEXT_WORD]
  {
    TwicePairs();
    TwiceMoves();
    TwicePatches();
    hide Rs, Rt, PairAddress, Moved, HighHalf, Lower, PatchHigh, PatchLow, Relocatable;
    var p, es := TWICE_PLACE, TWICE_TABLE;
    assert Run(p, TWICE_LUI, es, 0) == Machine(TWICE_LUI, map[]);
    assert Run(p, TWICE_LUI, es, 1) == Machine(TWICE_LUI, map[1 := Lui(0, LUI_WORD)]);
    var once := [LUI_ONCE, ADD_WORD, NEXT_WORD];
    assert Run(p, TWICE_LUI, es, 2) == Machine(once, map[1 := Lui(0, LUI_WORD)]);
    assert Run(p, TWICE_LUI, es, 3) == Machine(once, map[1 := Lui(0, LUI_ONCE)]);
  }

  /* ----- relocation as an action of displacements ----- */

  ghost predicate Unmoved(m: Machine, image: seq<Word>) {
    m.image == image && forall r :: r in m.luis && 0 <= m.luis[r].slot < |image| ==> m.luis[r].word == image[m.luis[r].slot]
  }

  lemma LowInPlace(p: Placement, m: Machine, s: int)
    requires p.ram == p.vram && Enabled(m, Entry(Low, s)) && Unmoved(m, m.image)
    ensures StepLow(p, m, s).image == m.image
  {
    var w := m.image[s];
    var lui := m.luis[Rs(w)];
    MovedInPlace(p, PairAddress(lui.word, w));
    if Relocatable(PairAddress(lui.word, w)) {
      PatchInPlace(lui.word, w);
    }
  }

  lemma StepInPlace(p: Placement, m: Machine, e: Entry)
    requires p.ram == p.vram && Enabled(m, e) && Unmoved(m, m.image)
    ensures Unmoved(Step(p, m, e), m.image)
  {
    hide PatchHigh, PatchLow, PatchJump, Rs, Rt, Relocatable, PairAddress, JumpAddress;
    if e.kind == Jump {
      MovedInPlace(p, JumpAddress(m.image[e.slot]));
      JumpInPlace(m.image[e.slot]);
    } else if e.kind == Low {
      LowInPlace(p, m, e.slot);
    }
  }

  /** Relocating to the address an image was linked for changes nothing, whatever the table. */
  lemma {:induction false} RelocateInPlace(p: Placement, image: seq<Word>, es: seq<Entry>, k: nat)
    requires p.ram == p.vram && k <= |es|
    ensures Unmoved(Run(p, image, es, k), image)
  {
    if k > 0 {
      RelocateInPlace(p, image, es, k - 1);
      if Enabled(Run(p, image, es, k - 1), es[k - 1]) {
        StepInPlace(p, Run(p, image, es, k - 1), es[k - 1]);
      }
    }
  }
}
