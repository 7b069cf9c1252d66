/** What relocation does to a whole image: a closed form of the run, word by word. */
module OverlayProof {
  import opened MipsWords
  import opened Overlay

  /** The last of the first `k` entries that is a LUI of register `r`, or -1. */
  ghost function LastHigh(image: seq<Word>, es: seq<Entry>, k: nat, r: nat): (i: int)
    requires k <= |es|
    ensures -1 <= i < k
    ensures i >= 0 ==> es[i].kind == High && 0 <= es[i].slot < |image| && Rt(image[es[i].slot]) == r
  {
    if k == 0 then -1
    else if es[k - 1].kind == High && 0 <= es[k - 1].slot < |image| && Rt(image[es[k - 1].slot]) == r then k - 1
    else LastHigh(image, es, k - 1, r)
  }

  ghost function OwnerEntry(image: seq<Word>, es: seq<Entry>, i: nat): (j: int)
    requires i < |es| && 0 <= es[i].slot < |image|
    ensures -1 <= j < i
    ensures j >= 0 ==> es[j].kind == High && 0 <= es[j].slot < |image|
  {
    LastHigh(image, es, i, Rs(image[es[i].slot]))
  }

  ghost predicate InImage(image: seq<Word>, es: seq<Entry>) {
    forall i :: 0 <= i < |es| && es[i].kind != Ignored ==> 0 <= es[i].slot < |image|
  }

  /** No word is the target of two entries, except that a LUI may be announced more than once. */
  ghost predicate DistinctTargets(es: seq<Entry>) {
    forall i, j :: 0 <= i < |es| && 0 <= j < |es| && i != j && es[i].kind !in {High, Ignored} && es[j].kind != Ignored ==>
      es[i].slot != es[j].slot
  }

  /** A low half with a LUI of its register announced before it. */
  ghost predicate Owned(image: seq<Word>, es: seq<Entry>, i: int) {
    0 <= i < |es| && es[i].kind == Low && 0 <= es[i].slot < |image| && OwnerEntry(image, es, i) >= 0
  }

  /** The word of the LUI that completes low half `i`. */
  ghost function Owner(image: seq<Word>, es: seq<Entry>, i: int): (h: nat)
    requires Owned(image, es, i)
    ensures h < |image|
  {
    es[OwnerEntry(image, es, i)].slot
  }

  /** Low half `i` belongs to the LUI at `h`. */
  ghost predicate Shares(image: seq<Word>, es: seq<Entry>, i: int, h: int) {
    Owned(image, es, i) && Owner(image, es, i) == h
  }

  ghost predicate Orderly(image: seq<Word>, es: seq<Entry>) {
    && InImage(image, es)
    && DistinctTargets(es)
    && forall i :: 0 <= i < |es| && es[i].kind == Low ==> Owned(image, es, i)
  }

  /** The address that low half `i` and its LUI denote before relocation. */
  ghost function AddressOf(image: seq<Word>, es: seq<Entry>, i: int): Word
    requires Owned(image, es, i)
  {
    PairAddress(image[Owner(image, es, i)], image[es[i].slot])
  }

  /** The LUI at `h` after `k` entries. */
  ghost function LuiWord(p: Placement, image: seq<Word>, es: seq<Entry>, k: nat, h: nat): Word
    requires k <= |es| && h < |image|
  {
    if k == 0 then image[h]
    else
      var w := LuiWord(p, image, es, k - 1, h);
      if Shares(image, es, k - 1, h) && Relocatable(PairAddress(w, image[es[k - 1].slot])) then
        var announced := LuiWord(p, image, es, OwnerEntry(image, es, k - 1), h);
        PatchHigh(w, Moved(p, PairAddress(announced, image[es[k - 1].slot])))
      else w
  }

  /** The address that the loader gives low half `i`: what it denotes with its LUI as that was announced, moved. */
  ghost function Wanted(p: Placement, image: seq<Word>, es: seq<Entry>, i: int): Word
    requires Owned(image, es, i)
  {
    Moved(p, PairAddress(LuiWord(p, image, es, OwnerEntry(image, es, i), Owner(image, es, i)), image[es[i].slot]))
  }

  /** A LUI still names its register whenever it is announced, also when it was patched before. */
  ghost predicate RegistersStay(p: Placement, image: seq<Word>, es: seq<Entry>) {
    forall i :: 0 <= i < |es| && es[i].kind == High && 0 <= es[i].slot < |image| ==>
      Rt(LuiWord(p, image, es, i, es[i].slot)) == Rt(image[es[i].slot])
  }

  ghost predicate WellFormed(p: Placement, image: seq<Word>, es: seq<Entry>) {
    Orderly(image, es) && RegistersStay(p, image, es)
  }

  /** Low half `i` passes the loader's test when its turn comes. */
  ghost predicate Applied(p: Placement, image: seq<Word>, es: seq<Entry>, i: int)
    requires Owned(image, es, i)
  {
    Relocatable(PairAddress(LuiWord(p, image, es, i, Owner(image, es, i)), image[es[i].slot]))
  }

  /** The word that entry `i` patches, as it is once that entry has run. */
  ghost function Patched(p: Placement, image: seq<Word>, es: seq<Entry>, i: int): Word
    requires Orderly(image, es) && 0 <= i < |es| && es[i].kind in {Pointer, Jump, Low}
  {
    var w := image[es[i].slot];
    if es[i].kind == Pointer then PatchPointer(p, w)
    else if es[i].kind == Jump then MoveJump(p, w)
    else if Applied(p, image, es, i) then PatchLow(w, Wanted(p, image, es, i))
    else w
  }

  ghost predicate Untargeted(es: seq<Entry>, s: int) {
    forall i :: 0 <= i < |es| && es[i].kind != Ignored ==> es[i].slot != s
  }

  /** The image after `k` entries. */
  ghost predicate Progress(p: Placement, image: seq<Word>, es: seq<Entry>, k: nat, now: seq<Word>)
    requires Orderly(image, es) && k <= |es|
  {
    && |now| == |image|
    && (forall i :: 0 <= i < |es| && es[i].kind in {Pointer, Jump, Low} ==>
          now[es[i].slot] == if i < k then Patched(p, image, es, i) else image[es[i].slot])
    && (forall i :: 0 <= i < |es| && es[i].kind == High ==> now[es[i].slot] == LuiWord(p, image, es, k, es[i].slot))
    && (forall s :: 0 <= s < |image| && Untargeted(es, s) ==> now[s] == image[s])
  }

  /** The register tables after `k` entries: the last LUI of each register, as it was announced. */
  ghost predicate Tracks(p: Placement, image: seq<Word>, es: seq<Entry>, k: nat, luis: map<nat, Lui>)
    requires k <= |es|
  {
    forall r: nat :: LastHigh(image, es, k, r) >= 0 ==>
      var i := LastHigh(image, es, k, r);
      r in luis && luis[r] == Lui(es[i].slot, LuiWord(p, image, es, i, es[i].slot))
  }

  lemma {:induction false} LuiUntouched(p: Placement, image: seq<Word>, es: seq<Entry>, k: nat, h: nat)
    requires k <= |es| && h < |image|
    requires forall j :: 0 <= j < k ==> !Shares(image, es, j, h)
    ensures LuiWord(p, image, es, k, h) == image[h]
  {
    hide Shares, OwnerEntry;
    if k > 0 {
      LuiUntouched(p, image, es, k - 1, h);
    }
  }

  /** Entry `k` leaves all LUIs but its own as they were. */
  lemma LuiKept(p: Placement, image: seq<Word>, es: seq<Entry>, k: nat, h: nat)
    requires k < |es| && h < |image| && !Shares(image, es, k, h)
    ensures LuiWord(p, image, es, k + 1, h) == LuiWord(p, image, es, k, h)
  {
    hide Shares, OwnerEntry;
  }

  lemma LuiNext(p: Placement, image: seq<Word>, es: seq<Entry>, k: nat)
    requires k < |es| && Owned(image, es, k)
    ensures var h := Owner(image, es, k);
      LuiWord(p, image, es, k + 1, h) ==
      if Applied(p, image, es, k) then PatchHigh(LuiWord(p, image, es, k, h), Wanted(p, image, es, k))
      else LuiWord(p, image, es, k, h)
  {
    hide LastHigh, Relocatable, PairAddress, PatchHigh, Moved;
  }

  /* ----- one step ----- */

  /** Entry `k` is the only one of the words that hold no LUI to say anything of its own. */
  lemma OwnTarget(image: seq<Word>, es: seq<Entry>, k: nat, i: nat)
    requires Orderly(image, es) && k < |es| && i < |es| && i != k && es[k].kind !in {High, Ignored} && es[i].kind != Ignored
    ensures 0 <= es[k].slot < |image| && 0 <= es[i].slot < |image| && es[i].slot != es[k].slot
  {
    hide Owned;
  }

  /** A step that changes only the word of entry `k`, which is no LUI. */
  lemma WriteProgress(p: Placement, image: seq<Word>, es: seq<Entry>, k: nat, now: seq<Word>)
    requires Orderly(image, es) && k < |es| && es[k].kind in {Pointer, Jump}
    requires Progress(p, image, es, k, now)
    ensures 0 <= es[k].slot < |now| && now[es[k].slot] == image[es[k].slot]
    ensures Progress(p, image, es, k + 1, now[es[k].slot := Patched(p, image, es, k)])
  {
    hide Patched, LuiWord, Owned, DistinctTargets;
    var s, next := es[k].slot, now[es[k].slot := Patched(p, image, es, k)];
    forall i | 0 <= i < |es| && es[i].kind in {Pointer, Jump, Low}
      ensures next[es[i].slot] == if i < k + 1 then Patched(p, image, es, i) else image[es[i].slot]
    {
      if i != k {
        OwnTarget(image, es, k, i);
      }
    }
    forall i | 0 <= i < |es| && es[i].kind == High ensures next[es[i].slot] == LuiWord(p, image, es, k + 1, es[i].slot) {
      OwnTarget(image, es, k, i);
      NotLow(image, es, k, es[i].slot);
      LuiKept(p, image, es, k, es[i].slot);
    }
  }

  lemma NotLow(image: seq<Word>, es: seq<Entry>, k: nat, h: nat)
    requires k < |es| && es[k].kind != Low
    ensures !Shares(image, es, k, h)
  {
  }

  /** A step that changes no word. */
  lemma SkipProgress(p: Placement, image: seq<Word>, es: seq<Entry>, k: nat, now: seq<Word>)
    requires Orderly(image, es) && k < |es| && es[k].kind in {High, Ignored}
    requires Progress(p, image, es, k, now)
    ensures Progress(p, image, es, k + 1, now)
  {
    hide Patched, LuiWord, Owned, DistinctTargets;
    forall i | 0 <= i < |es| && es[i].kind == High ensures now[es[i].slot] == LuiWord(p, image, es, k + 1, es[i].slot) {
      NotLow(image, es, k, es[i].slot);
      LuiKept(p, image, es, k, es[i].slot);
    }
  }

  /** Where a low half and its LUI are. */
  lemma LowSlots(p: Placement, image: seq<Word>, es: seq<Entry>, k: nat, now: seq<Word>)
    requires Orderly(image, es) && k < |es| && Owned(image, es, k) && Progress(p, image, es, k, now)
    ensures var h, s := Owner(image, es, k), es[k].slot;
      0 <= s < |now| && h < |now| && h != s && now[s] == image[s] && now[h] == LuiWord(p, image, es, k, h)
    ensures forall i :: 0 <= i < |es| && es[i].kind in {Pointer, Jump, Low} ==> es[i].slot != Owner(image, es, k)
  {
    hide Patched, LuiWord, LastHigh, OwnerEntry;
    var e := OwnerEntry(image, es, k);
    assert e >= 0 && es[e].kind == High;
  }

  /** A low half: its own word and its LUI. */
  lemma LowProgress(p: Placement, image: seq<Word>, es: seq<Entry>, k: nat, now: seq<Word>)
    requires Orderly(image, es) && k < |es| && es[k].kind == Low && Owned(image, es, k)
    requires Progress(p, image, es, k, now)
    ensures var h, s := Owner(image, es, k), es[k].slot;
      && 0 <= s < |now| && h < |now| && h != s
      && now[s] == image[s] && now[h] == LuiWord(p, image, es, k, h)
      && Progress(p, image, es, k + 1, now[h := LuiWord(p, image, es, k + 1, h)][s := Patched(p, image, es, k)])
  {
    hide Patched, LuiWord, Owned, Owner, OwnerEntry, DistinctTargets;
    LowSlots(p, image, es, k, now);
    SharesItsOwner(image, es, k);
    var h, s := Owner(image, es, k), es[k].slot;
    var next := now[h := LuiWord(p, image, es, k + 1, h)][s := Patched(p, image, es, k)];
    forall i | 0 <= i < |es| && es[i].kind in {Pointer, Jump, Low}
      ensures next[es[i].slot] == if i < k + 1 then Patched(p, image, es, i) else image[es[i].slot]
    {
      if i != k {
        OwnTarget(image, es, k, i);
      }
    }
    forall i | 0 <= i < |es| && es[i].kind == High ensures next[es[i].slot] == LuiWord(p, image, es, k + 1, es[i].slot) {
      OwnTarget(image, es, k, i);
      if es[i].slot != h {
        LuiKept(p, image, es, k, es[i].slot);
      }
    }
    OthersUntargeted(image, es, k);
  }

  lemma SharesItsOwner(image: seq<Word>, es: seq<Entry>, k: nat)
    requires Owned(image, es, k)
    ensures forall h :: Shares(image, es, k, h) <==> h == Owner(image, es, k)
  {
    hide Owned, Owner;
  }

  lemma OthersUntargeted(image: seq<Word>, es: seq<Entry>, k: nat)
    requires k < |es| && Owned(image, es, k)
    ensures forall s :: Untargeted(es, s) ==> s != es[k].slot && s != Owner(image, es, k)
  {
    hide LastHigh;
  }

  /** The register tables change with a LUI alone. */
  lemma TracksNext(p: Placement, image: seq<Word>, es: seq<Entry>, k: nat, luis: map<nat, Lui>)
    requires k < |es| && es[k].kind != High && Tracks(p, image, es, k, luis)
    ensures Tracks(p, image, es, k + 1, luis)
  {
    hide LuiWord;
  }

  lemma TracksHigh(p: Placement, image: seq<Word>, es: seq<Entry>, k: nat, luis: map<nat, Lui>)
    requires k < |es| && es[k].kind == High && 0 <= es[k].slot < |image| && Tracks(p, image, es, k, luis)
    ensures Tracks(p, image, es, k + 1,
                   luis[Rt(image[es[k].slot]) := Lui(es[k].slot, LuiWord(p, image, es, k, es[k].slot))])
  {
    hide LuiWord, Rt;
  }

  ghost predicate At(p: Placement, image: seq<Word>, es: seq<Entry>, k: nat, m: Machine)
    requires Orderly(image, es) && k <= |es|
  {
    Progress(p, image, es, k, m.image) && Tracks(p, image, es, k, m.luis)
  }

  lemma StepSimple(p: Placement, image: seq<Word>, es: seq<Entry>, k: nat, m: Machine)
    requires Orderly(image, es) && k < |es| && es[k].kind in {Pointer, Jump, Ignored} && At(p, image, es, k, m)
    ensures Enabled(m, es[k]) && At(p, image, es, k + 1, Step(p, m, es[k]))
  {
    hide Progress, Tracks, Orderly;
    TracksNext(p, image, es, k, m.luis);
    if es[k].kind == Ignored {
      SkipProgress(p, image, es, k, m.image);
    } else {
      WriteProgress(p, image, es, k, m.image);
    }
  }

  lemma StepHigh(p: Placement, image: seq<Word>, es: seq<Entry>, k: nat, m: Machine)
    requires WellFormed(p, image, es) && k < |es| && es[k].kind == High && At(p, image, es, k, m)
    ensures Enabled(m, es[k]) && At(p, image, es, k + 1, Step(p, m, es[k]))
  {
    assert 0 <= es[k].slot < |image| == |m.image|;
    assert m.image[es[k].slot] == LuiWord(p, image, es, k, es[k].slot);
    hide Progress, Tracks, Orderly, LuiWord, Rt;
    TracksHigh(p, image, es, k, m.luis);
    SkipProgress(p, image, es, k, m.image);
  }

  /** The loader finds the LUI of a low half as it was announced. */
  lemma LowFinds(p: Placement, image: seq<Word>, es: seq<Entry>, k: nat, luis: map<nat, Lui>)
    requires k < |es| && Owned(image, es, k) && Tracks(p, image, es, k, luis)
    ensures var r, h := Rs(image[es[k].slot]), Owner(image, es, k);
      r in luis && luis[r] == Lui(h, LuiWord(p, image, es, OwnerEntry(image, es, k), h))
  {
    hide LuiWord, Rs;
  }

  lemma StepLowHalf(p: Placement, image: seq<Word>, es: seq<Entry>, k: nat, m: Machine)
    requires Orderly(image, es) && k < |es| && es[k].kind == Low && At(p, image, es, k, m)
    ensures Enabled(m, es[k]) && At(p, image, es, k + 1, Step(p, m, es[k]))
  {
    hide *;
    LowIsOwned(image, es, k);
    AtParts(p, image, es, k, m);
    LowProgress(p, image, es, k, m.image);
    LowFinds(p, image, es, k, m.luis);
    LowStep(p, image, es, k, m);
    TracksNext(p, image, es, k, m.luis);
    AtBoth(p, image, es, k + 1, Step(p, m, es[k]));
  }

  lemma LowIsOwned(image: seq<Word>, es: seq<Entry>, k: nat)
    requires Orderly(image, es) && k < |es| && es[k].kind == Low
    ensures Owned(image, es, k)
  {
    hide Owned;
  }

  /** What the loader does to the two words is what the closed form says. */
  lemma LowStep(p: Placement, image: seq<Word>, es: seq<Entry>, k: nat, m: Machine)
    requires Orderly(image, es) && k < |es| && es[k].kind == Low && Owned(image, es, k)
    requires var h, s := Owner(image, es, k), es[k].slot;
      && 0 <= s < |m.image| && h < |m.image| && h != s && m.image[s] == image[s] && m.image[h] == LuiWord(p, image, es, k, h)
      && Rs(image[s]) in m.luis
      && m.luis[Rs(image[s])] == Lui(h, LuiWord(p, image, es, OwnerEntry(image, es, k), h))
    ensures var h, s := Owner(image, es, k), es[k].slot;
      && Enabled(m, es[k])
      && Step(p, m, es[k]) == m.(image := m.image[h := LuiWord(p, image, es, k + 1, h)][s := Patched(p, image, es, k)])
  {
    hide Orderly, LuiWord, Owned, Owner, OwnerEntry, PairAddress, Relocatable, PatchHigh, PatchLow, Moved, Rs;
    var h, s := Owner(image, es, k), es[k].slot;
    LuiNext(p, image, es, k);
    if !Applied(p, image, es, k) {
      assert m.image[h := m.image[h]][s := m.image[s]] == m.image;
    }
  }

  lemma AtBoth(p: Placement, image: seq<Word>, es: seq<Entry>, k: nat, m: Machine)
    requires Orderly(image, es) && k <= |es| && Progress(p, image, es, k, m.image) && Tracks(p, image, es, k, m.luis)
    ensures At(p, image, es, k, m)
  {
  }

  lemma AtParts(p: Placement, image: seq<Word>, es: seq<Entry>, k: nat, m: Machine)
    requires Orderly(image, es) && k <= |es| && At(p, image, es, k, m)
    ensures Progress(p, image, es, k, m.image) && Tracks(p, image, es, k, m.luis)
  {
  }

  lemma StepProgress(p: Placement, image: seq<Word>, es: seq<Entry>, k: nat, m: Machine)
    requires WellFormed(p, image, es) && k < |es| && At(p, image, es, k, m)
    ensures Enabled(m, es[k]) && At(p, image, es, k + 1, Step(p, m, es[k]))
  {
    hide *;
    match es[k].kind {
      case High => StepHigh(p, image, es, k, m);
      case Low => WellFormedIsOrderly(p, image, es); StepLowHalf(p, image, es, k, m);
      case _ => WellFormedIsOrderly(p, image, es); StepSimple(p, image, es, k, m);
    }
  }

  lemma WellFormedIsOrderly(p: Placement, image: seq<Word>, es: seq<Entry>)
    requires WellFormed(p, image, es)
    ensures Orderly(image, es) && RegistersStay(p, image, es)
  {
  }

  lemma Start(p: Placement, image: seq<Word>, es: seq<Entry>)
    requires Orderly(image, es)
    ensures At(p, image, es, 0, Run(p, image, es, 0))
  {
  }

  lemma RunNext(p: Placement, image: seq<Word>, es: seq<Entry>, k: nat)
    requires k < |es| && Enabled(Run(p, image, es, k), es[k])
    ensures Run(p, image, es, k + 1) == Step(p, Run(p, image, es, k), es[k])
  {
    hide Enabled, Step;
  }

  /** The closed form of a whole run. */
  lemma {:induction false} RunProgress(p: Placement, image: seq<Word>, es: seq<Entry>, k: nat)
    requires WellFormed(p, image, es) && k <= |es|
    ensures At(p, image, es, k, Run(p, image, es, k))
  {
    hide *;
    WellFormedIsOrderly(p, image, es);
    if k == 0 {
      Start(p, image, es);
    } else {
      var m := Run(p, image, es, k - 1);
      RunProgress(p, image, es, k - 1);
      StepProgress(p, image, es, k - 1, m);
      RunNext(p, image, es, k - 1);
    }
  }

  /** A well-formed table never makes the loader touch a word outside the image or an unset LUI. */
  lemma WellFormedIsDefined(p: Placement, image: seq<Word>, es: seq<Entry>)
    requires WellFormed(p, image, es)
    ensures Defined(p, image, es)
  {
    hide WellFormed, At, Enabled, Run, Step;
    forall k | 0 <= k < |es| ensures Enabled(Run(p, image, es, k), es[k]) {
      RunProgress(p, image, es, k);
      StepProgress(p, image, es, k, Run(p, image, es, k));
    }
  }
}
