/**
 What becomes of one LUI in the course of a run.  The loader takes the address of a low half from its LUI as
 that was announced, but checks it, and patches the LUI, as it stands.
 */
module OverlayLuis {
  import opened MipsWords
  import opened Overlay
  import opened OverlayProof

  /** Every low half of the LUI at `h` denotes an address in the 16 MiB of KSEG0, before and after the move. */
  ghost predicate LuiInKseg0(p: Placement, image: seq<Word>, es: seq<Entry>, h: int) {
    forall j :: Shares(image, es, j, h) ==>
      InKseg0(AddressOf(image, es, j)) && InKseg0(Moved(p, AddressOf(image, es, j)))
  }

  /** The last of the first `k` entries that announces the LUI at `h`, or -1. */
  ghost function LastOf(es: seq<Entry>, k: nat, h: int): (i: int)
    requires k <= |es|
    ensures -1 <= i < k
  {
    if k == 0 then -1 else if es[k - 1] == Entry(High, h) then k - 1 else LastOf(es, k - 1, h)
  }

  lemma {:induction false} LastHighIsLastOf(image: seq<Word>, es: seq<Entry>, k: nat, r: nat)
    requires k <= |es| && LastHigh(image, es, k, r) >= 0
    ensures LastOf(es, k, es[LastHigh(image, es, k, r)].slot) == LastHigh(image, es, k, r)
  {
    hide Rt;
    if LastHigh(image, es, k, r) < k - 1 {
      LastHighIsLastOf(image, es, k - 1, r);
    }
  }

  lemma OwnerIsLast(image: seq<Word>, es: seq<Entry>, i: nat, h: nat)
    requires i < |es| && Shares(image, es, i, h)
    ensures h < |image| && LastOf(es, i, h) == OwnerEntry(image, es, i) >= 0 && es[i].kind == Low
  {
    hide Rs, Rt, LastHigh;
    LastHighIsLastOf(image, es, i, Rs(image[es[i].slot]));
  }

  /** The LUI at `h` as it was last announced. */
  ghost function Announced(p: Placement, image: seq<Word>, es: seq<Entry>, k: nat, h: nat): Word
    requires k <= |es| && h < |image|
  {
    if LastOf(es, k, h) < 0 then image[h] else LuiWord(p, image, es, LastOf(es, k, h), h)
  }

  /* ----- a LUI stays near the 16 MiB ----- */

  /** It keeps its register, and is off its announcement by no more than one displacement. */
  ghost predicate Near(p: Placement, image: seq<Word>, es: seq<Entry>, k: nat, h: nat)
    requires k <= |es| && h < |image|
  {
    var now, said := LuiWord(p, image, es, k, h), Announced(p, image, es, k, h);
    && Upper(now) == Upper(image[h])
    && 0x7E00 <= Lower(now) <= 0x8300 && -0x100 <= Lower(now) - Lower(said) <= 0x100
  }

  /** The halves of what the loader wants, from the immediate that was announced. */
  lemma WantedHalves(p: Placement, image: seq<Word>, es: seq<Entry>, k: nat, h: nat)
    requires k < |es| && Shares(image, es, k, h) && LuiInKseg0(p, image, es, h)
    requires h < |image| && 0x7A00 <= Lower(Announced(p, image, es, k, h)) <= 0x8700
    ensures var said, x := Lower(Announced(p, image, es, k, h)), Moved(p, AddressOf(image, es, k));
      && HighHalf(Wanted(p, image, es, k)) == said - Lower(image[h]) + HighHalf(x)
      && Lower(Wanted(p, image, es, k)) == Lower(x) && Wanted(p, image, es, k) < 0xFFFF_8000
      && 0x8000 <= Lower(image[h]) <= 0x8100 && 0x8000 <= HighHalf(x) <= 0x8100
  {
    hide LuiWord, LastHigh, OwnerEntry, LastOf, Lower, HighHalf, Moved, PairAddress;
    OwnerIsLast(image, es, k, h);
    ShiftedPair(p, image[h], Announced(p, image, es, k, h), image[es[k].slot]);
    Kseg0Pair(image[h], image[es[k].slot]);
    Kseg0High(Moved(p, AddressOf(image, es, k)));
  }

  /** The guard at entry `k`, under a LUI that is near. */
  lemma AppliedNear(p: Placement, image: seq<Word>, es: seq<Entry>, k: nat, h: nat)
    requires k < |es| && h < |image| && Shares(image, es, k, h) && Near(p, image, es, k, h)
    ensures var now := Lower(LuiWord(p, image, es, k, h));
      Applied(p, image, es, k) <==> 0x8000 <= now <= 0x8100 && StaysInside(now, image[es[k].slot])
  {
    hide LuiWord, LastHigh, OwnerEntry, StaysInside, Relocatable, PairAddress, Lower;
    GuardNear(LuiWord(p, image, es, k, h), image[es[k].slot]);
  }

  lemma NearNext(p: Placement, image: seq<Word>, es: seq<Entry>, k: nat, h: nat)
    requires k < |es| && h < |image| && Shares(image, es, k, h) && LuiInKseg0(p, image, es, h) && Near(p, image, es, k, h)
    ensures Near(p, image, es, k + 1, h)
    ensures Announced(p, image, es, k + 1, h) == Announced(p, image, es, k, h)
    ensures Lower(LuiWord(p, image, es, k + 1, h)) ==
      if !Applied(p, image, es, k) then Lower(LuiWord(p, image, es, k, h))
      else Lower(Announced(p, image, es, k, h)) - Lower(image[h]) + HighHalf(Moved(p, AddressOf(image, es, k)))
  {
    OwnerIsLast(image, es, k, h);
    assert LastOf(es, k + 1, h) == LastOf(es, k, h);
    LuiNext(p, image, es, k);
    AppliedNear(p, image, es, k, h);
    hide LuiWord, LastHigh, OwnerEntry, LastOf, Applied, StaysInside, Lower;
    hide Upper, HighHalf, Moved, PairAddress, AddressOf, LuiInKseg0, Wanted;
    if Applied(p, image, es, k) {
      WantedHalves(p, image, es, k, h);
      PatchHighSmall(LuiWord(p, image, es, k, h), Wanted(p, image, es, k));
    }
  }

  /** An entry that is no low half of the LUI, and what it says of its announcement. */
  lemma OtherNext(p: Placement, image: seq<Word>, es: seq<Entry>, k: nat, h: nat)
    requires k < |es| && h < |image| && !Shares(image, es, k, h)
    ensures LuiWord(p, image, es, k + 1, h) == LuiWord(p, image, es, k, h)
    ensures LastOf(es, k + 1, h) == if es[k] == Entry(High, h) then k else LastOf(es, k, h)
    ensures Announced(p, image, es, k + 1, h) ==
      if es[k] == Entry(High, h) then LuiWord(p, image, es, k, h) else Announced(p, image, es, k, h)
  {
    hide LuiWord, Shares;
    LuiKept(p, image, es, k, h);
  }

  lemma {:induction false} LuiStaysNear(p: Placement, image: seq<Word>, es: seq<Entry>, k: nat, h: nat)
    requires k <= |es| && h < |image| && LuiInKseg0(p, image, es, h) && 0x8000 <= Lower(image[h]) <= 0x8100
    ensures Near(p, image, es, k, h)
  {
    if k > 0 {
      hide LuiWord, Announced, Shares, LuiInKseg0, Lower, Upper;
      LuiStaysNear(p, image, es, k - 1, h);
      if Shares(image, es, k - 1, h) {
        NearNext(p, image, es, k - 1, h);
      } else {
        OtherNext(p, image, es, k - 1, h);
      }
    }
  }

  /** The immediate of a LUI with low halves, as linked. */
  lemma LinkedImmediate(p: Placement, image: seq<Word>, es: seq<Entry>, j: nat, h: nat)
    requires j < |es| && Shares(image, es, j, h) && LuiInKseg0(p, image, es, h)
    ensures h < |image| && 0x8000 <= Lower(image[h]) <= 0x8100
    ensures HighHalf(AddressOf(image, es, j)) == Lower(image[h]) && StaysInside(Lower(image[h]), image[es[j].slot])
  {
    hide Lower, HighHalf, PairAddress, LastHigh, StaysInside;
    Kseg0Pair(image[h], image[es[j].slot]);
  }

  /** A LUI keeps its opcode and register. */
  lemma LuiKeepsUpper(p: Placement, image: seq<Word>, es: seq<Entry>, k: nat, h: nat)
    requires k <= |es| && h < |image| && LuiInKseg0(p, image, es, h)
    ensures Upper(LuiWord(p, image, es, k, h)) == Upper(image[h])
  {
    hide LuiWord, Shares, LuiInKseg0, Lower, Upper;
    if j :| 0 <= j < |es| && Shares(image, es, j, h) {
      LinkedImmediate(p, image, es, j, h);
      LuiStaysNear(p, image, es, k, h);
    } else {
      LuiUntouched(p, image, es, k, h);
    }
  }

  /* ----- a LUI whose low halves agree ----- */

  /** All the low halves that share the LUI at `h` want the new high half `high` in it. */
  ghost predicate Agreed(p: Placement, image: seq<Word>, es: seq<Entry>, h: int, high: int) {
    && LuiInKseg0(p, image, es, h)
    && forall j :: Shares(image, es, j, h) ==> HighHalf(Moved(p, AddressOf(image, es, j))) == high
  }

  /** A low half of the LUI at `h` comes before entry `k`. */
  ghost predicate Seen(image: seq<Word>, es: seq<Entry>, k: int, h: int) {
    exists j :: 0 <= j < k && Shares(image, es, j, h)
  }

  /** The LUI was announced, for low half `i`, after another low half of it had its turn. */
  ghost predicate Late(image: seq<Word>, es: seq<Entry>, i: int) {
    Owned(image, es, i) && Seen(image, es, OwnerEntry(image, es, i), Owner(image, es, i))
  }

  /** Before entry `k`, a late low half passes the loader's test under the agreed high half. */
  ghost predicate Disturbed(image: seq<Word>, es: seq<Entry>, k: int, h: int, high: int) {
    exists j :: 0 <= j < k && Shares(image, es, j, h) && Late(image, es, j) && StaysInside(high, image[es[j].slot])
  }

  /** The LUI and its announcement before entry `k`: as linked, as agreed, or beyond what was agreed. */
  ghost predicate Settled(p: Placement, image: seq<Word>, es: seq<Entry>, k: nat, h: nat, high: int)
    requires k <= |es| && h < |image|
  {
    var now, said, was := Lower(LuiWord(p, image, es, k, h)), Lower(Announced(p, image, es, k, h)), Lower(image[h]);
    if !Seen(image, es, k, h) || high == was then now == said == was
    else if !Disturbed(image, es, k, h, high) then
      now == high && said == if Seen(image, es, LastOf(es, k, h), h) then high else was
    else if high > was then now > high && said >= high
    else now < high && said <= high
  }

  lemma SeenNext(image: seq<Word>, es: seq<Entry>, k: nat, h: int)
    ensures Seen(image, es, k + 1, h) <==> Seen(image, es, k, h) || Shares(image, es, k, h)
  {
    hide Shares;
  }

  lemma SeenEarlier(image: seq<Word>, es: seq<Entry>, i: int, k: int, h: int)
    requires i <= k && Seen(image, es, i, h)
    ensures Seen(image, es, k, h)
  {
    hide Shares;
  }

  lemma DisturbedNext(image: seq<Word>, es: seq<Entry>, k: nat, h: int, high: int)
    ensures Disturbed(image, es, k + 1, h, high) <==>
      Disturbed(image, es, k, h, high)
      || (Shares(image, es, k, h) && Late(image, es, k) && StaysInside(high, image[es[k].slot]))
  {
    hide Late, StaysInside;
    if Shares(image, es, k, h) && Late(image, es, k) && StaysInside(high, image[es[k].slot]) {
      assert 0 <= k < k + 1;
    }
  }

  lemma DisturbedIsSeen(image: seq<Word>, es: seq<Entry>, k: nat, h: int, high: int)
    requires Disturbed(image, es, k, h, high)
    ensures Seen(image, es, k, h)
  {
    hide Late, Shares, StaysInside;
  }

  /** Entry `k` is late exactly if its announcement comes after another low half. */
  lemma LateIs(image: seq<Word>, es: seq<Entry>, k: nat, h: nat)
    requires k < |es| && Shares(image, es, k, h)
    ensures Late(image, es, k) <==> Seen(image, es, LastOf(es, k, h), h)
    ensures Seen(image, es, LastOf(es, k, h), h) ==> Seen(image, es, k, h)
  {
    hide LastHigh, OwnerEntry, LastOf, Seen;
    OwnerIsLast(image, es, k, h);
    if Seen(image, es, LastOf(es, k, h), h) {
      SeenEarlier(image, es, LastOf(es, k, h), k, h);
    }
  }

  /** The guard under a settled LUI. */
  lemma AppliedSettled(p: Placement, image: seq<Word>, es: seq<Entry>, k: nat, h: nat, high: int)
    requires k < |es| && h < |image| && Shares(image, es, k, h) && Agreed(p, image, es, h, high)
    requires Near(p, image, es, k, h) && Settled(p, image, es, k, h, high)
    ensures !Seen(image, es, k, h) || high == Lower(image[h]) ==> Applied(p, image, es, k)
    ensures !Disturbed(image, es, k, h, high) ==>
      (Applied(p, image, es, k) <==> !Seen(image, es, k, h) || StaysInside(high, image[es[k].slot]))
  {
    AppliedNear(p, image, es, k, h);
    LinkedImmediate(p, image, es, k, h);
    Kseg0High(Moved(p, AddressOf(image, es, k)));
    hide LuiWord, LastHigh, OwnerEntry, Applied, StaysInside, Lower, HighHalf;
    hide Moved, AddressOf, Seen, Disturbed, Shares, Near, LastOf;
  }

  lemma LastOfShared(image: seq<Word>, es: seq<Entry>, k: nat, h: nat)
    requires k < |es| && Shares(image, es, k, h)
    ensures LastOf(es, k + 1, h) == LastOf(es, k, h)
  {
  }

  lemma SettledShared(p: Placement, image: seq<Word>, es: seq<Entry>, k: nat, h: nat, high: int)
    requires k < |es| && h < |image| && Shares(image, es, k, h) && Agreed(p, image, es, h, high)
    requires Near(p, image, es, k, h) && Settled(p, image, es, k, h, high)
    ensures Settled(p, image, es, k + 1, h, high)
  {
    hide LuiWord, LastHigh, OwnerEntry, Applied, StaysInside, Lower, HighHalf;
    hide Moved, AddressOf, Seen, Disturbed, Near, LastOf, Late, Announced;
    NearNext(p, image, es, k, h);
    AppliedSettled(p, image, es, k, h, high);
    SeenNext(image, es, k, h);
    DisturbedNext(image, es, k, h, high);
    LateIs(image, es, k, h);
    OwnerIsLast(image, es, k, h);
    LastOfShared(image, es, k, h);
    if Disturbed(image, es, k, h, high) {
      DisturbedIsSeen(image, es, k, h, high);
    }
  }

  lemma SettledOther(p: Placement, image: seq<Word>, es: seq<Entry>, k: nat, h: nat, high: int)
    requires k < |es| && h < |image| && !Shares(image, es, k, h) && Settled(p, image, es, k, h, high)
    ensures Settled(p, image, es, k + 1, h, high)
  {
    hide LuiWord, Lower, Seen, Disturbed, LastOf, Announced, Shares;
    OtherNext(p, image, es, k, h);
    SeenNext(image, es, k, h);
    DisturbedNext(image, es, k, h, high);
  }

  /** The course of a LUI whose low halves agree. */
  lemma {:induction false} LuiSettles(p: Placement, image: seq<Word>, es: seq<Entry>, k: nat, h: nat, high: int)
    requires k <= |es| && h < |image| && Agreed(p, image, es, h, high) && 0x8000 <= Lower(image[h]) <= 0x8100
    ensures Near(p, image, es, k, h) && Settled(p, image, es, k, h, high)
  {
    if k == 0 {
      LuiStaysNear(p, image, es, 0, h);
    } else {
      hide LuiWord, Lower, Settled, Near, Shares, LuiInKseg0;
      LuiStaysNear(p, image, es, k, h);
      LuiSettles(p, image, es, k - 1, h, high);
      if Shares(image, es, k - 1, h) {
        SettledShared(p, image, es, k - 1, h, high);
      } else {
        SettledOther(p, image, es, k - 1, h, high);
      }
    }
  }

  /**
   The LUI at `h` ends as agreed: it stands as linked all the time, or no low half passes the loader's test with
   a LUI announced late.
   */
  ghost predicate Steady(image: seq<Word>, es: seq<Entry>, h: nat, high: int)
    requires h < |image|
  {
    high == Lower(image[h]) || !Disturbed(image, es, |es|, h, high)
  }

  /** At the end. */
  lemma LuiEnds(p: Placement, image: seq<Word>, es: seq<Entry>, i: nat, h: nat, high: int)
    requires i < |es| && Shares(image, es, i, h) && Agreed(p, image, es, h, high)
    ensures h < |image| && Near(p, image, es, |es|, h)
    ensures Lower(LuiWord(p, image, es, |es|, h)) == high <==> Steady(image, es, h, high)
  {
    LinkedImmediate(p, image, es, i, h);
    LuiSettles(p, image, es, |es|, h, high);
    hide LuiWord, Lower, HighHalf, Near, Shares, Disturbed, LastOf, Announced, Agreed;
    assert Seen(image, es, |es|, h);
  }

  /** Low half `i` passes the loader's test under an agreed LUI. */
  ghost predicate Accepted(image: seq<Word>, es: seq<Entry>, i: int, high: int)
    requires Owned(image, es, i)
  {
    !Seen(image, es, i, Owner(image, es, i)) || StaysInside(high, image[es[i].slot])
  }

  lemma NotYetDisturbed(image: seq<Word>, es: seq<Entry>, i: nat, h: nat, high: int)
    requires i <= |es| && Disturbed(image, es, i, h, high)
    ensures Disturbed(image, es, |es|, h, high)
  {
    hide Late, Shares, StaysInside;
  }

  lemma AppliedIffAccepted(p: Placement, image: seq<Word>, es: seq<Entry>, i: nat, h: nat, high: int)
    requires i < |es| && Shares(image, es, i, h) && Agreed(p, image, es, h, high) && Steady(image, es, h, high)
    ensures Applied(p, image, es, i) <==> Accepted(image, es, i, high)
    ensures Lower(Wanted(p, image, es, i)) == Lower(Moved(p, AddressOf(image, es, i)))
  {
    LinkedImmediate(p, image, es, i, h);
    LuiSettles(p, image, es, i, h, high);
    AppliedSettled(p, image, es, i, h, high);
    WantedHalves(p, image, es, i, h);
    if Disturbed(image, es, i, h, high) {
      NotYetDisturbed(image, es, i, h, high);
    }
    hide LuiWord, Lower, HighHalf, Near, Disturbed, LastOf, LastHigh;
    hide OwnerEntry, Announced, Agreed, Settled, Seen, StaysInside, Applied, Moved;
  }
}
