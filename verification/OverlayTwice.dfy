/** Relocating an image twice against relocating it once. */
module OverlayTwice {
  import opened MipsWords
  import opened Overlay
  import opened OverlayProof
  import opened OverlayLuis
  import opened OverlayTheorems

  /** Linked at `v`, placed at `a`, then moved on to `b`. */
  datatype Journey = Journey(v: Word, a: Word, b: Word, image: seq<Word>, es: seq<Entry>) {
    const first := Placement(v, a)
    const second := Placement(a, b)
    const direct := Placement(v, b)

    function Midway(): (out: seq<Word>)
      ensures |out| == |image|
    {
      Run(first, image, es, |es|).image
    }

    function Twice(): (out: seq<Word>)
      ensures |out| == |image|
    {
      Run(second, Midway(), es, |es|).image
    }

    function Once(): (out: seq<Word>)
      ensures |out| == |image|
    {
      Run(direct, image, es, |es|).image
    }

    /** The high half that the first leg gives the LUI of low half `i`, and the one that the direct move gives it. */
    ghost function FirstHigh(i: int): int
      requires Owned(image, es, i)
    {
      HighHalf(Moved(first, AddressOf(image, es, i)))
    }

    ghost function DirectHigh(i: int): int
      requires Owned(image, es, i)
    {
      HighHalf(Moved(direct, AddressOf(image, es, i)))
    }

    /** On the second leg, low half `i` stays inside the 16 MiB: its low half is that of its address midway. */
    ghost predicate AcceptedNext(i: int)
      requires Owned(image, es, i)
    {
      !Seen(image, es, i, Owner(image, es, i)) || StaysInside(DirectHigh(i), Moved(first, AddressOf(image, es, i)))
    }

    /** What the two legs ask of one low half. */
    ghost predicate SmoothAt(i: int)
      requires Owned(image, es, i)
    {
      && Agreed(first, image, es, Owner(image, es, i), FirstHigh(i))
      && Agreed(direct, image, es, Owner(image, es, i), DirectHigh(i))
      && Accepted(image, es, i, FirstHigh(i)) && AcceptedNext(i)
      // a LUI that is announced late stands as it was linked, on both legs
      && (Late(image, es, i) ==> FirstHigh(i) == DirectHigh(i) == Lower(image[Owner(image, es, i)]))
    }

    /**
     Both legs are regular and accept every low half, and a pointer that moves on the first can move on the second.
     All of it can be read off the image as linked.
     */
    ghost predicate Smooth() {
      && (a - v) % 4 == 0 && Orderly(image, es)
      && (forall i :: Owned(image, es, i) ==> SmoothAt(i))
      && (forall i :: 0 <= i < |es| && es[i].kind == Pointer && 0 <= es[i].slot < |image| && Relocatable(image[es[i].slot]) ==>
        Relocatable(Moved(first, image[es[i].slot])))
    }
  }

  /** The direct move accepts every low half. */
  ghost predicate AllAccepted(j: Journey) {
    forall i :: Owned(j.image, j.es, i) ==> Accepted(j.image, j.es, i, j.DirectHigh(i))
  }

  /* ----- each leg is regular ----- */

  lemma SmoothFacts(j: Journey, i: int)
    requires j.Smooth() && Owned(j.image, j.es, i)
    ensures j.SmoothAt(i)
  {
    hide Journey.SmoothAt, Owned;
  }

  /** A disturbed LUI has a late low half, and so stands as linked. */
  lemma SteadyLeg(j: Journey, i: nat)
    requires j.Smooth() && Owned(j.image, j.es, i)
    ensures Steady(j.image, j.es, Owner(j.image, j.es, i), j.FirstHigh(i))
    ensures Steady(j.image, j.es, Owner(j.image, j.es, i), j.DirectHigh(i))
  {
    hide StaysInside, Lower, HighHalf, Moved, AddressOf, OwnerEntry, LastHigh, Journey.Smooth, LuiInKseg0, Seen, Accepted;
    SmoothFacts(j, i);
    var h := Owner(j.image, j.es, i);
    if k: nat :| k < |j.es| && Shares(j.image, j.es, k, h) && Late(j.image, j.es, k) {
      SmoothFacts(j, k);
    }
  }

  lemma LegsInKseg0(j: Journey, h: nat)
    requires j.Smooth() && h < |j.image|
    ensures LuiInKseg0(j.first, j.image, j.es, h) && LuiInKseg0(j.direct, j.image, j.es, h)
  {
    hide Moved, AddressOf, OwnerEntry, LastHigh, Journey.Smooth, HighHalf, Accepted;
    forall i | Shares(j.image, j.es, i, h)
      ensures InKseg0(AddressOf(j.image, j.es, i))
      ensures InKseg0(Moved(j.first, AddressOf(j.image, j.es, i))) && InKseg0(Moved(j.direct, AddressOf(j.image, j.es, i)))
    {
      SmoothFacts(j, i);
    }
  }

  lemma LegsWellFormed(j: Journey)
    requires j.Smooth()
    ensures WellFormed(j.first, j.image, j.es) && WellFormed(j.direct, j.image, j.es)
  {
    assert Orderly(j.image, j.es);
    hide Journey.Smooth, LuiInKseg0, Orderly, WellFormed;
    forall h: nat | h < |j.image| ensures LuiInKseg0(j.first, j.image, j.es, h) && LuiInKseg0(j.direct, j.image, j.es, h) {
      LegsInKseg0(j, h);
    }
    OrderlyIsWellFormed(j.first, j.image, j.es);
    OrderlyIsWellFormed(j.direct, j.image, j.es);
  }

  /* ----- the image midway ----- */

  /** The first leg keeps the registers. */
  lemma SlotRegisters(j: Journey, i: nat)
    requires j.Smooth() && i < |j.es| && j.es[i].kind in {High, Low} && 0 <= j.es[i].slot < |j.image|
    ensures Rt(j.Midway()[j.es[i].slot]) == Rt(j.image[j.es[i].slot]) && Rs(j.Midway()[j.es[i].slot]) == Rs(j.image[j.es[i].slot])
  {
    hide Rs, Rt, Run, Upper, Journey.Smooth, WellFormed, LuiInKseg0;
    var s := j.es[i].slot;
    LegsWellFormed(j);
    LegsInKseg0(j, s);
    FieldsKept(j.first, j.image, j.es, s);
    SameRegisters(j.image[s], j.Midway()[s]);
  }

  lemma {:induction false} RegistersKept(j: Journey, k: nat, r: nat)
    requires j.Smooth() && k <= |j.es|
    ensures LastHigh(j.Midway(), j.es, k, r) == LastHigh(j.image, j.es, k, r)
  {
    hide Journey.Smooth, Journey.Midway, Rt, Rs;
    if k > 0 {
      RegistersKept(j, k - 1, r);
      if j.es[k - 1].kind == High && 0 <= j.es[k - 1].slot < |j.image| {
        SlotRegisters(j, k - 1);
      }
    }
  }

  lemma OwnersKept(j: Journey, i: nat)
    requires j.Smooth() && i < |j.es|
    ensures Owned(j.Midway(), j.es, i) <==> Owned(j.image, j.es, i)
    ensures Owned(j.image, j.es, i) ==>
      OwnerEntry(j.Midway(), j.es, i) == OwnerEntry(j.image, j.es, i) && Owner(j.Midway(), j.es, i) == Owner(j.image, j.es, i)
  {
    hide Journey.Smooth, Journey.Midway, Rt, Rs, LastHigh;
    if j.es[i].kind == Low && 0 <= j.es[i].slot < |j.image| {
      SlotRegisters(j, i);
      RegistersKept(j, i, Rs(j.image[j.es[i].slot]));
    }
  }

  lemma SharesKept(j: Journey, i: int, h: int)
    requires j.Smooth()
    ensures Shares(j.Midway(), j.es, i, h) <==> Shares(j.image, j.es, i, h)
  {
    hide Journey.Smooth, Journey.Midway, OwnerEntry;
    if 0 <= i < |j.es| {
      OwnersKept(j, i);
    }
  }

  lemma SeenKept(j: Journey, k: int, h: int)
    requires j.Smooth()
    ensures Seen(j.Midway(), j.es, k, h) <==> Seen(j.image, j.es, k, h)
  {
    hide Journey.Smooth, Journey.Midway, Shares;
    forall i | 0 <= i < k ensures Shares(j.Midway(), j.es, i, h) <==> Shares(j.image, j.es, i, h) {
      SharesKept(j, i, h);
    }
  }

  lemma LateKept(j: Journey, i: nat)
    requires j.Smooth() && i < |j.es| && Owned(j.image, j.es, i)
    ensures Owned(j.Midway(), j.es, i) && (Late(j.Midway(), j.es, i) <==> Late(j.image, j.es, i))
  {
    hide Journey.Smooth, Journey.Midway, Seen;
    OwnersKept(j, i);
    SeenKept(j, OwnerEntry(j.image, j.es, i), Owner(j.image, j.es, i));
  }

  /** Both words of a pair midway. */
  lemma PairMidway(j: Journey, i: nat)
    requires j.Smooth() && i < |j.es| && Owned(j.image, j.es, i)
    ensures var h, s, x := Owner(j.image, j.es, i), j.es[i].slot, Moved(j.first, AddressOf(j.image, j.es, i));
      j.Midway()[h] == PatchHigh(j.image[h], x) && j.Midway()[s] == PatchLow(j.image[s], x)
  {
    hide Journey.Smooth, Run, PatchHigh, PatchLow, Moved, AddressOf;
    hide HighHalf, WellFormed, Steady, Agreed, Accepted, Seen, Owned;
    SmoothFacts(j, i);
    SteadyLeg(j, i);
    LegsWellFormed(j);
    PairWords(j.first, j.image, j.es, i, j.FirstHigh(i));
  }

  lemma AddressMidway(j: Journey, i: nat)
    requires j.Smooth() && i < |j.es| && Owned(j.image, j.es, i)
    ensures Owned(j.Midway(), j.es, i)
    ensures AddressOf(j.Midway(), j.es, i) == Moved(j.first, AddressOf(j.image, j.es, i))
    ensures Moved(j.second, AddressOf(j.Midway(), j.es, i)) == Moved(j.direct, AddressOf(j.image, j.es, i))
    ensures Lower(j.Midway()[j.es[i].slot]) == Lower(Moved(j.first, AddressOf(j.image, j.es, i)))
    ensures Lower(j.Midway()[Owner(j.image, j.es, i)]) == j.FirstHigh(i)
  {
    hide Journey.Smooth, Journey.Midway, PatchHigh, PatchLow, Moved, HighHalf, Lower, PairAddress, Owned, Owner, OwnerEntry;
    OwnersKept(j, i);
    PairMidway(j, i);
    SmoothFacts(j, i);
    SharesOwner(j.image, j.es, i);
    var h, s, x := Owner(j.image, j.es, i), j.es[i].slot, Moved(j.first, AddressOf(j.image, j.es, i));
    AgreedOn(j.first, j.image, j.es, i, h, j.FirstHigh(i));
    PatchedPair(j.image[h], j.image[s], x);
    PairLow(PatchHigh(j.image[h], x), PatchLow(j.image[s], x));
    PatchHighSmall(j.image[h], x);
    MovedTwice(j.v, j.a, j.b, AddressOf(j.image, j.es, i));
  }

  /* ----- the second leg ----- */

  lemma SecondAgreed(j: Journey, i: nat)
    requires j.Smooth() && i < |j.es| && Owned(j.image, j.es, i)
    ensures Agreed(j.second, j.Midway(), j.es, Owner(j.image, j.es, i), j.DirectHigh(i))
  {
    hide Journey.Smooth, Journey.Midway, Moved, HighHalf, AddressOf, Owner, OwnerEntry, Accepted, Journey.AcceptedNext;
    var h := Owner(j.image, j.es, i);
    SmoothFacts(j, i);
    forall k | Shares(j.Midway(), j.es, k, h)
      ensures InKseg0(AddressOf(j.Midway(), j.es, k)) && InKseg0(Moved(j.second, AddressOf(j.Midway(), j.es, k)))
      ensures HighHalf(Moved(j.second, AddressOf(j.Midway(), j.es, k))) == j.DirectHigh(i)
    {
      SharesKept(j, k, h);
      AddressMidway(j, k);
    }
  }

  lemma SecondOrderly(j: Journey)
    requires j.Smooth()
    ensures Orderly(j.Midway(), j.es)
  {
    assert Orderly(j.image, j.es);
    hide Journey.Smooth, Journey.Midway, Owned;
    forall i | 0 <= i < |j.es| && j.es[i].kind == Low ensures Owned(j.Midway(), j.es, i) {
      OwnersKept(j, i);
    }
  }

  lemma SecondInKseg0(j: Journey, h: nat)
    requires j.Smooth() && h < |j.image|
    ensures LuiInKseg0(j.second, j.Midway(), j.es, h)
  {
    hide Journey.Smooth, Journey.Midway, Moved, AddressOf, Owner, OwnerEntry;
    forall i | Shares(j.Midway(), j.es, i, h)
      ensures InKseg0(AddressOf(j.Midway(), j.es, i)) && InKseg0(Moved(j.second, AddressOf(j.Midway(), j.es, i)))
    {
      SharesKept(j, i, h);
      SecondAgreed(j, i);
    }
  }

  lemma SecondWellFormed(j: Journey)
    requires j.Smooth()
    ensures WellFormed(j.second, j.Midway(), j.es)
  {
    hide *;
    SecondOrderly(j);
    forall h: nat | h < |j.Midway()| ensures LuiInKseg0(j.second, j.Midway(), j.es, h) {
      SecondInKseg0(j, h);
    }
    AllInKseg0(j.second, j.Midway(), j.es);
    OrderlyIsWellFormed(j.second, j.Midway(), j.es);
  }

  lemma AllInKseg0(p: Placement, image: seq<Word>, es: seq<Entry>)
    requires forall h: nat :: h < |image| ==> LuiInKseg0(p, image, es, h)
    ensures PairsInKseg0(p, image, es)
  {
  }

  lemma SecondAccepted(j: Journey, i: nat)
    requires j.Smooth() && i < |j.es| && Owned(j.image, j.es, i)
    ensures Owned(j.Midway(), j.es, i) && Accepted(j.Midway(), j.es, i, j.DirectHigh(i))
  {
    hide Journey.Smooth, Journey.Midway, Moved, AddressOf, OwnerEntry, Seen, Owned, HighHalf;
    SharesOwner(j.image, j.es, i);
    SmoothFacts(j, i);
    AddressMidway(j, i);
    OwnersKept(j, i);
    SeenKept(j, i, Owner(j.image, j.es, i));
    InsideAlike(j.DirectHigh(i), j.Midway()[j.es[i].slot], Moved(j.first, AddressOf(j.image, j.es, i)));
    hide StaysInside;
  }

  lemma InsideAlike(high: int, w: Word, x: Word)
    requires Lower(w) == Lower(x)
    ensures StaysInside(high, w) <==> StaysInside(high, x)
  {
  }

  lemma SecondSteady(j: Journey, i: nat)
    requires j.Smooth() && i < |j.es| && Owned(j.image, j.es, i)
    ensures Steady(j.Midway(), j.es, Owner(j.image, j.es, i), j.DirectHigh(i))
  {
    hide Journey.Smooth, Journey.Midway, Moved, HighHalf, AddressOf, OwnerEntry;
    hide StaysInside, Seen, Lower, Agreed, Journey.AcceptedNext, Accepted;
    var h := Owner(j.image, j.es, i);
    AddressMidway(j, i);
    if k: nat :| k < |j.es| && Shares(j.Midway(), j.es, k, h) && Late(j.Midway(), j.es, k) {
      SharesKept(j, k, h);
      LateKept(j, k);
      SmoothFacts(j, k);
      SmoothFacts(j, i);
      SharesOwner(j.image, j.es, i);
      AgreedOn(j.first, j.image, j.es, i, h, j.FirstHigh(k));
      AgreedOn(j.direct, j.image, j.es, i, h, j.DirectHigh(k));
    }
  }

  /* ----- the two legs together ----- */

  lemma LowTwice(j: Journey, i: nat)
    requires j.Smooth() && i < |j.es| && Owned(j.image, j.es, i)
    ensures 0 <= j.es[i].slot < |j.image|
    ensures
      var h, s, x := Owner(j.image, j.es, i), j.es[i].slot, Moved(j.direct, AddressOf(j.image, j.es, i));
      && j.Twice()[h] == j.Once()[h] == PatchHigh(j.image[h], x)
      && j.Twice()[s] == PatchLow(j.image[s], x)
      && (j.Once()[s] == j.Twice()[s] <==> Accepted(j.image, j.es, i, j.DirectHigh(i)))
  {
    hide *;
    SharesOwner(j.image, j.es, i);
    SmoothFacts(j, i);
    SmoothAgreed(j, i);
    SteadyLeg(j, i);
    LegsWellFormed(j);
    OwnersKept(j, i);
    SecondWellFormed(j);
    SecondAgreed(j, i);
    SecondSteady(j, i);
    SecondAccepted(j, i);
    AddressMidway(j, i);
    PairMidway(j, i);
    var h, s := Owner(j.image, j.es, i), j.es[i].slot;
    var y, x := Moved(j.first, AddressOf(j.image, j.es, i)), Moved(j.direct, AddressOf(j.image, j.es, i));
    PairWords(j.second, j.Midway(), j.es, i, j.DirectHigh(i));
    PairWords(j.direct, j.image, j.es, i, j.DirectHigh(i));
    PairMoves(j.direct, j.image, j.es, i, j.DirectHigh(i));
    Kseg0Small(y);
    PatchHighAgain(j.image[h], y, x);
    PatchLowAgain(j.image[s], y, x);
    PatchedPair(j.image[h], j.image[s], x);
    Legs(j);
  }

  lemma Kseg0Small(a: Word)
    requires InKseg0(a)
    ensures a < 0xFFFF_8000
  {
  }

  lemma Legs(j: Journey)
    ensures j.Midway() == Run(j.first, j.image, j.es, |j.es|).image
    ensures j.Twice() == Run(j.second, j.Midway(), j.es, |j.es|).image
    ensures j.Once() == Run(j.direct, j.image, j.es, |j.es|).image
  {
    hide Run;
  }

  lemma SmoothAgreed(j: Journey, i: nat)
    requires i < |j.es| && Owned(j.image, j.es, i) && j.SmoothAt(i)
    ensures Agreed(j.first, j.image, j.es, Owner(j.image, j.es, i), j.FirstHigh(i))
    ensures Agreed(j.direct, j.image, j.es, Owner(j.image, j.es, i), j.DirectHigh(i))
    ensures InKseg0(Moved(j.first, AddressOf(j.image, j.es, i)))
  {
    hide Moved, AddressOf, HighHalf, Owned, OwnerEntry, Seen, Accepted, Journey.AcceptedNext, Late;
    SharesOwner(j.image, j.es, i);
  }

  /** All three runs in closed form. */
  lemma ThreeRuns(j: Journey)
    requires j.Smooth()
    ensures Orderly(j.image, j.es) && Progress(j.first, j.image, j.es, |j.es|, j.Midway())
    ensures Progress(j.direct, j.image, j.es, |j.es|, j.Once())
    ensures Orderly(j.Midway(), j.es) && Progress(j.second, j.Midway(), j.es, |j.es|, j.Twice())
  {
    hide Journey.Smooth, Run, Progress, Tracks, Orderly, Journey.Midway;
    LegsWellFormed(j);
    SecondWellFormed(j);
    RunProgress(j.first, j.image, j.es, |j.es|);
    RunProgress(j.direct, j.image, j.es, |j.es|);
    RunProgress(j.second, j.Midway(), j.es, |j.es|);
    Legs(j);
  }

  /** A LUI that no low half belongs to. */
  lemma BareHighTwice(j: Journey, i: nat)
    requires j.Smooth() && i < |j.es| && j.es[i].kind == High && 0 <= j.es[i].slot < |j.image|
    requires forall k :: !Shares(j.image, j.es, k, j.es[i].slot)
    ensures j.Twice()[j.es[i].slot] == j.Once()[j.es[i].slot]
  {
    hide Journey.Smooth, Journey.Midway, Journey.Twice, Journey.Once, Shares, Orderly, LuiWord, Patched;
    var h, n := j.es[i].slot, |j.es|;
    ThreeRuns(j);
    forall k | 0 <= k < n ensures !Shares(j.Midway(), j.es, k, h) {
      SharesKept(j, k, h);
    }
    LuiUntouched(j.first, j.image, j.es, n, h);
    LuiUntouched(j.direct, j.image, j.es, n, h);
    LuiUntouched(j.second, j.Midway(), j.es, n, h);
  }

  lemma PlainAt(p: Placement, image: seq<Word>, es: seq<Entry>, now: seq<Word>, i: nat)
    requires Orderly(image, es) && i < |es| && es[i].kind in {Pointer, Jump} && Progress(p, image, es, |es|, now)
    ensures 0 <= es[i].slot < |image| == |now|
    ensures now[es[i].slot] ==
      if es[i].kind == Pointer then PatchPointer(p, image[es[i].slot]) else MoveJump(p, image[es[i].slot])
  {
    hide PatchPointer, MoveJump, LuiWord;
  }

  lemma PlainTwice(j: Journey, i: nat)
    requires j.Smooth() && i < |j.es| && j.es[i].kind in {Pointer, Jump}
    ensures 0 <= j.es[i].slot < |j.image| && j.Twice()[j.es[i].slot] == j.Once()[j.es[i].slot]
  {
    hide Journey.Smooth, Journey.Midway, Journey.Twice, Journey.Once, Orderly;
    hide Progress, PatchPointer, MoveJump, Relocatable, Moved;
    SmoothPointer(j, i);
    ThreeRuns(j);
    PlainAt(j.first, j.image, j.es, j.Midway(), i);
    PlainAt(j.second, j.Midway(), j.es, j.Twice(), i);
    PlainAt(j.direct, j.image, j.es, j.Once(), i);
    if j.es[i].kind == Pointer {
      PointerLegs(j.v, j.a, j.b, j.image[j.es[i].slot]);
    } else {
      JumpLegs(j.v, j.a, j.b, j.image[j.es[i].slot]);
    }
  }

  lemma PointerLegs(v: Word, a: Word, b: Word, w: Word)
    requires Relocatable(w) ==> Relocatable(Moved(Placement(v, a), w))
    ensures PatchPointer(Placement(a, b), PatchPointer(Placement(v, a), w)) == PatchPointer(Placement(v, b), w)
  {
    hide Relocatable, Moved;
    MovedTwice(v, a, b, w);
  }

  lemma JumpLegs(v: Word, a: Word, b: Word, w: Word)
    requires (a - v) % 4 == 0
    ensures MoveJump(Placement(a, b), MoveJump(Placement(v, a), w)) == MoveJump(Placement(v, b), w)
  {
    hide Moved, JumpAddress, PatchJump;
    JumpTwice(v, a, b, w);
  }

  lemma SmoothPointer(j: Journey, i: nat)
    requires j.Smooth() && i < |j.es| && j.es[i].kind in {Pointer, Jump}
    ensures 0 <= j.es[i].slot < |j.image| && (j.a - j.v) % 4 == 0
    ensures j.es[i].kind == Pointer && Relocatable(j.image[j.es[i].slot]) ==> Relocatable(Moved(j.first, j.image[j.es[i].slot]))
  {
    hide Relocatable, Moved, Owned, Journey.SmoothAt;
  }

  lemma RestTwice(j: Journey, s: nat)
    requires j.Smooth() && s < |j.image| && Untargeted(j.es, s)
    ensures j.Twice()[s] == j.Once()[s]
  {
    hide Journey.Smooth, Journey.Midway, Journey.Twice, Journey.Once, Orderly, LuiWord, Patched;
    ThreeRuns(j);
  }

  lemma WordTwice(j: Journey, s: nat)
    requires j.Smooth() && s < |j.image| && AllAccepted(j)
    ensures j.Twice()[s] == j.Once()[s]
  {
    assert Orderly(j.image, j.es);
    hide Journey.Smooth, Journey.Midway, Journey.Twice, Journey.Once, Owned, Accepted, Shares;
    if i :| 0 <= i < |j.es| && j.es[i].slot == s && j.es[i].kind in {Pointer, Jump} {
      PlainTwice(j, i);
    } else if i :| 0 <= i < |j.es| && j.es[i].slot == s && j.es[i].kind == Low {
      LowTwice(j, i);
    } else if i :| 0 <= i < |j.es| && j.es[i].slot == s && j.es[i].kind == High {
      HighTwice(j, i);
    } else {
      RestTwice(j, s);
    }
  }

  lemma HighTwice(j: Journey, i: nat)
    requires j.Smooth() && i < |j.es| && j.es[i].kind == High && 0 <= j.es[i].slot < |j.image|
    ensures j.Twice()[j.es[i].slot] == j.Once()[j.es[i].slot]
  {
    hide Journey.Smooth, Journey.Midway, Journey.Twice, Journey.Once, OwnerEntry;
    hide Accepted, PatchHigh, PatchLow, Moved, AddressOf;
    if k: nat :| k < |j.es| && Shares(j.image, j.es, k, j.es[i].slot) {
      LowTwice(j, k);
    } else {
      BareHighTwice(j, i);
    }
  }

  /** Two legs give the image of the direct move exactly when the direct move accepts every low half too. */
  lemma RelocateTwice(j: Journey)
    requires j.Smooth()
    ensures j.Twice() == j.Once() <==> AllAccepted(j)
  {
    hide Journey.Smooth, Journey.Midway, Journey.Twice, Journey.Once, Accepted, PatchHigh, PatchLow, Moved, AddressOf, Owned;
    if j.Twice() == j.Once() {
      forall i | Owned(j.image, j.es, i) ensures Accepted(j.image, j.es, i, j.DirectHigh(i)) {
        OwnedInRange(j.image, j.es, i);
        LowTwice(j, i);
      }
    }
    if AllAccepted(j) {
      forall s | 0 <= s < |j.image| ensures j.Twice()[s] == j.Once()[s] {
        WordTwice(j, s);
      }
    }
  }

  lemma OwnedInRange(image: seq<Word>, es: seq<Entry>, i: int)
    requires Owned(image, es, i)
    ensures 0 <= i < |es|
  {
  }

  /* ----- the entries do not depend on where the image stands ----- */

  lemma SlotFromLayout(ram: Word, ovl: RelocationSection, reloc: Word)
    requires reloc >= 0x4000_0000 && TargetAddress(ram, ovl, reloc) >= ram
    ensures
      var base :=
        if reloc / 0x4000_0000 == 1 then 0
        else if reloc / 0x4000_0000 == 2 then ovl.textSize
        else ovl.textSize + ovl.dataSize;
      TargetAddress(ram, ovl, reloc) - ram == Wrap(base + reloc % 0x100_0000)
  {
    hide Wrap;
    var off, section := reloc % 0x100_0000, reloc / 0x4000_0000;
    if section == 1 {
      WrapOffset(ram, off);
    } else if section == 2 {
      DataOffset(ram, ovl.textSize, off);
    } else {
      RodataOffset(ram, ovl.textSize, ovl.dataSize, off);
    }
  }

  lemma DataOffset(ram: Word, text: Word, off: nat)
    requires Wrap(Wrap(ram + text) + off) >= ram
    ensures Wrap(Wrap(ram + text) + off) - ram == Wrap(text + off)
  {
    hide Wrap;
    WrapSum(ram + text, off);
    WrapOffset(ram, text + off);
  }

  lemma RodataOffset(ram: Word, text: Word, data: Word, off: nat)
    requires Wrap(Wrap(Wrap(ram + text) + data) + off) >= ram
    ensures Wrap(Wrap(Wrap(ram + text) + data) + off) - ram == Wrap(text + data + off)
  {
    hide Wrap;
    WrapSum(ram + text, data);
    WrapSum(ram + text + data, off);
    WrapOffset(ram, text + data + off);
  }

  /** A table without null-section entries names the same words wherever the image is placed. */
  lemma EntriesStay(a: Word, b: Word, ovl: RelocationSection)
    requires forall i :: 0 <= i < |ovl.relocations| && KindOf(ovl.relocations[i]) != Ignored ==>
      && ovl.relocations[i] >= 0x4000_0000
      && TargetAddress(a, ovl, ovl.relocations[i]) >= a
      && TargetAddress(b, ovl, ovl.relocations[i]) >= b
    ensures Entries(a, ovl) == Entries(b, ovl)
  {
    forall i | 0 <= i < |ovl.relocations| && KindOf(ovl.relocations[i]) != Ignored
      ensures Decode(a, ovl, ovl.relocations[i]) == Decode(b, ovl, ovl.relocations[i])
    {
      SlotFromLayout(a, ovl, ovl.relocations[i]);
      SlotFromLayout(b, ovl, ovl.relocations[i]);
    }
  }
}
