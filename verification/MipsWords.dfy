/**
 32-bit MIPS instruction words and the address arithmetic of the overlay loader.

 Masks and shifts of the unsigned 32-bit originals are written as division and remainder by
 powers of two; sums wrap around explicitly.
 */
module MipsWords {
  const TWO_TO_32 := 0x1_0000_0000

  type Word = w: int | 0 <= w < TWO_TO_32

  /** Where an overlay was linked (`vram`) and where it was placed (`ram`). */
  datatype Placement = Placement(vram: Word, ram: Word)

  function Wrap(x: int): Word { x % TWO_TO_32 }

  function Upper(w: Word): Word { w / 0x10000 * 0x10000 }

  function Lower(w: Word): Word { w % 0x10000 }

  /** The `rs` and `rt` registers of an I-type instruction. */
  function Rs(w: Word): nat { w / 0x20_0000 % 32 }

  function Rt(w: Word): nat { w / 0x1_0000 % 32 }

  function Opcode(w: Word): nat { w / 0x400_0000 }

  /** The 16-bit immediate, sign-extended. */
  function SignedLow(w: Word): int { if Lower(w) >= 0x8000 then Lower(w) - 0x10000 else Lower(w) }

  /** The address that a LUI and a later instruction with a signed low half denote together. */
  function PairAddress(hi: Word, lo: Word): Word { Wrap(Lower(hi) * 0x10000 + SignedLow(lo)) }

  /** The KSEG0 address a J-type instruction jumps to. */
  function JumpAddress(w: Word): Word { 0x8000_0000 + w % 0x400_0000 * 4 }

  /** The loader's test that an address may be relocated: bits 24 to 27 are clear. */
  predicate Relocatable(a: Word) { a / 0x100_0000 % 16 == 0 }

  predicate InKseg0(a: Word) { 0x8000_0000 <= a < 0x8100_0000 }

  function Moved(p: Placement, a: Word): Word { Wrap(a - p.vram + p.ram) }

  /** The LUI immediate for `a`: one larger when the low half reads as negative, so it can be 0x10000. */
  function HighHalf(a: Word): nat { a / 0x10000 + (if Lower(a) >= 0x8000 then 1 else 0) }

  /** The LUI with its immediate replaced; a half of 0x10000 is or-ed into bit 16, part of the register field. */
  function PatchHigh(w: Word, a: Word): Word {
    if HighHalf(a) < 0x10000 then Upper(w) + HighHalf(a)
    else if w / 0x10000 % 2 == 1 then Upper(w) else Upper(w) + 0x10000
  }

  function PatchLow(w: Word, a: Word): Word { Upper(w) + Lower(a) }

  function PatchJump(w: Word, a: Word): Word { Opcode(w) * 0x400_0000 + a % 0x1000_0000 / 4 }

  lemma MovedTwice(v: Word, a: Word, b: Word, x: Word)
    ensures Moved(Placement(a, b), Moved(Placement(v, a), x)) == Moved(Placement(v, b), x)
  {
  }

  /** The register half of the LUI survives unless the rounded half overflows into a clear bit. */
  lemma HighKeepsRegister(w: Word, a: Word)
    ensures Upper(PatchHigh(w, a)) == Upper(w) <==> a < 0xFFFF_8000 || w / 0x10000 % 2 == 1
  {
  }

  lemma HighOfSum(h: nat, l: int)
    requires h < 0x10000 && -0x8000 <= l < 0x8000 && 0 <= h * 0x10000 + l < TWO_TO_32
    ensures HighHalf(h * 0x10000 + l) == h
  {
    var x := h * 0x10000 + l;
    assert x / 0x10000 == if l < 0 then h - 1 else h;
    assert Lower(x) == if l < 0 then l + 0x10000 else l;
  }

  lemma NegativeWraps(l: int)
    requires -0x8000 <= l < 0
    ensures !Relocatable(Wrap(l))
  {
    assert Wrap(l) == TWO_TO_32 + l;
    assert Wrap(l) / 0x100_0000 == 0xFF;
  }

  lemma HighHalfOfPair(hi: Word, lo: Word)
    requires Relocatable(PairAddress(hi, lo))
    ensures HighHalf(PairAddress(hi, lo)) == Lower(hi)
  {
    hide Relocatable, HighHalf, Lower, Wrap;
    PairSum(hi, lo);
    if Lower(hi) == 0 && SignedLow(lo) < 0 {
      NegativeWraps(SignedLow(lo));
    } else {
      HighOfSum(Lower(hi), SignedLow(lo));
    }
  }

  lemma PairSum(hi: Word, lo: Word)
    ensures -0x8000 <= SignedLow(lo) < 0x8000 && 0 <= Lower(hi) < 0x10000
    ensures PairAddress(hi, lo) ==
      if Lower(hi) == 0 && SignedLow(lo) < 0 then Wrap(SignedLow(lo)) else Lower(hi) * 0x10000 + SignedLow(lo)
  {
  }

  lemma HalvesDenote(x: Word)
    ensures x == Wrap(HighHalf(x) * 0x10000 + SignedLow(x))
  {
  }

  lemma PairWithPatchedHigh(hi: Word, a: Word, lo: Word)
    ensures PairAddress(PatchHigh(hi, a), lo) == Wrap(HighHalf(a) * 0x10000 + SignedLow(lo))
  {
  }

  lemma PatchedLow(lo: Word, a: Word)
    ensures SignedLow(PatchLow(lo, a)) == SignedLow(a)
  {
  }

  lemma PatchedPair(hi: Word, lo: Word, a: Word)
    ensures PairAddress(PatchHigh(hi, a), PatchLow(lo, a)) == a
  {
    hide PairAddress, PatchHigh, PatchLow, SignedLow, HighHalf, Wrap;
    PairWithPatchedHigh(hi, a, PatchLow(lo, a));
    PatchedLow(lo, a);
    HalvesDenote(a);
  }

  lemma PairLow(hi: Word, lo: Word)
    ensures Lower(PairAddress(hi, lo)) == Lower(lo)
  {
  }

  lemma ManyHalves(n: int, x: int)
    ensures (n * 0x10000 + x) % 0x10000 == x % 0x10000
  {
  }

  lemma SameHalf(x: int, d: int)
    ensures (x + d) % 0x10000 == x % 0x10000 <==> d % 0x10000 == 0
  {
    var r, f := x % 0x10000, d % 0x10000;
    assert x + d == (x / 0x10000 + d / 0x10000) * 0x10000 + (r + f);
    ManyHalves(x / 0x10000 + d / 0x10000, r + f);
  }

  lemma MovedLow(p: Placement, x: Word)
    ensures Lower(Moved(p, x)) == Lower(x) <==> (p.ram - p.vram) % 0x10000 == 0
  {
    var d := p.ram - p.vram;
    var k := (x + d) / TWO_TO_32;
    assert Moved(p, x) == -k * 0x10000 * 0x10000 + (x + d);
    ManyHalves(-k * 0x10000, x + d);
    SameHalf(x, d);
  }

  lemma SameLow(h: int, l: int, m: int)
    requires -0x8000 <= l < 0x8000 && -0x8000 <= m < 0x8000
    ensures Wrap(h * 0x10000 + l) == Wrap(h * 0x10000 + m) <==> l == m
  {
  }

  /**
   A low half left unpatched under a LUI already moved to the right high half still denotes the
   moved address exactly when the displacement is a multiple of 64 KiB.
   */
  lemma UnpatchedPair(hi: Word, lo: Word, p: Placement, a: Word)
    requires HighHalf(a) == HighHalf(Moved(p, PairAddress(hi, lo)))
    ensures PairAddress(PatchHigh(hi, a), lo) == Moved(p, PairAddress(hi, lo)) <==> (p.ram - p.vram) % 0x10000 == 0
  {
    var x := Moved(p, PairAddress(hi, lo));
    PairWithPatchedHigh(hi, a, lo);
    HalvesDenote(x);
    PairLow(hi, lo);
    MovedLow(p, PairAddress(hi, lo));
    SameLow(HighHalf(a), SignedLow(lo), SignedLow(x));
  }

  /** The low half `w` stays inside the 16 MiB under the high half `high`. */
  predicate StaysInside(high: int, w: Word) {
    !(high == 0x8000 && Lower(w) >= 0x8000) && !(high == 0x8100 && Lower(w) < 0x8000)
  }

  lemma PairUnder(hi: Word, lo: Word)
    requires 0 < Lower(hi)
    ensures PairAddress(hi, lo) == Lower(hi) * 0x10000 + SignedLow(lo)
  {
  }

  /** What the loader's test sees for a low half under a LUI not far from the 16 MiB that it accepts. */
  lemma GuardNear(hi: Word, lo: Word)
    requires 0x7E00 <= Lower(hi) <= 0x8300
    ensures Relocatable(PairAddress(hi, lo)) <==> 0x8000 <= Lower(hi) <= 0x8100 && StaysInside(Lower(hi), lo)
  {
    PairUnder(hi, lo);
    var x, l := Lower(hi) * 0x10000 + SignedLow(lo), SignedLow(lo);
    assert -0x8000 <= l < 0x8000;
    hide PairAddress, SignedLow;
    assert Relocatable(x) <==> 0x8000_0000 <= x < 0x8100_0000;
  }

  lemma Kseg0Pair(hi: Word, lo: Word)
    requires InKseg0(PairAddress(hi, lo))
    ensures Relocatable(PairAddress(hi, lo)) && HighHalf(PairAddress(hi, lo)) == Lower(hi)
    ensures 0x8000 <= Lower(hi) <= 0x8100 && StaysInside(Lower(hi), lo)
  {
    hide PairAddress;
    Kseg0IsRelocatable(PairAddress(hi, lo));
    HighHalfOfPair(hi, lo);
    Kseg0High(PairAddress(hi, lo));
    PairLow(hi, lo);
  }

  lemma Kseg0High(a: Word)
    requires InKseg0(a)
    ensures 0x8000 <= HighHalf(a) <= 0x8100 && StaysInside(HighHalf(a), a)
  {
  }

  lemma HighHalfShift(x: Word, t: int)
    requires 0 <= x + t * 0x10000 < TWO_TO_32
    ensures HighHalf(x + t * 0x10000) == HighHalf(x) + t && Lower(x + t * 0x10000) == Lower(x)
  {
    assert (x + t * 0x10000) / 0x10000 == x / 0x10000 + t;
  }

  /** A pair moved from a LUI that does not stand as linked: the high half is off by as much, the low half is right. */
  lemma ShiftedPair(p: Placement, hi: Word, now: Word, lo: Word)
    requires InKseg0(PairAddress(hi, lo)) && InKseg0(Moved(p, PairAddress(hi, lo)))
    requires 0x7A00 <= Lower(now) <= 0x8700
    ensures var x, a := Moved(p, PairAddress(hi, lo)), Moved(p, PairAddress(now, lo));
      && HighHalf(a) == Lower(now) - Lower(hi) + HighHalf(x)
      && Lower(a) == Lower(x) && a < 0xFFFF_8000
  {
    Kseg0Pair(hi, lo);
    PairUnder(hi, lo);
    PairUnder(now, lo);
    var t := Lower(now) - Lower(hi);
    var x := Moved(p, PairAddress(hi, lo));
    hide PairAddress, SignedLow, HighHalf, Relocatable, Lower, StaysInside;
    WrapSum(PairAddress(hi, lo) - p.vram + p.ram, t * 0x10000);
    assert Moved(p, PairAddress(now, lo)) == Wrap(x + t * 0x10000);
    WrapSmall(x + t * 0x10000);
    HighHalfShift(x, t);
  }

  lemma WrapSmall(x: int)
    requires 0 <= x < TWO_TO_32
    ensures Wrap(x) == x
  {
  }

  /** A LUI immediate and a signed low half denote an address only together with its own high half. */
  lemma PairOfHigh(hi: Word, lo: Word, a: Word)
    requires 0x7A00 <= Lower(hi) <= 0x8700 && InKseg0(a) && PairAddress(hi, lo) == a
    ensures Lower(hi) == HighHalf(a)
  {
    hide PairAddress;
    PairUnder(hi, lo);
    PairLow(hi, lo);
  }

  lemma PatchHighSmall(w: Word, a: Word)
    requires a < 0xFFFF_8000
    ensures Upper(PatchHigh(w, a)) == Upper(w) && Lower(PatchHigh(w, a)) == HighHalf(a)
  {
  }

  lemma SameHalves(w: Word, x: Word)
    requires Upper(w) == Upper(x) && Lower(w) == Lower(x)
    ensures w == x
  {
  }

  lemma JumpPatched(w: Word, a: Word)
    ensures Opcode(PatchJump(w, a)) == Opcode(w)
    ensures JumpAddress(PatchJump(w, a)) == 0x8000_0000 + a % 0x1000_0000 / 4 * 4
  {
    var y := a % 0x1000_0000 / 4;
    assert 0 <= y < 0x400_0000 && PatchJump(w, a) == Opcode(w) * 0x400_0000 + y;
    assert PatchJump(w, a) % 0x400_0000 == y;
  }

  lemma JumpReaches(x: Word)
    ensures 0x8000_0000 + x % 0x1000_0000 / 4 * 4 == x <==> x % 4 == 0 && 0x8000_0000 <= x < 0x9000_0000
  {
    var y := x % 0x1000_0000;
    assert 0 <= y < 0x1000_0000 && (y / 4 * 4 == y <==> y % 4 == 0) && x % 4 == y % 4;
  }

  lemma MovedQuad(p: Placement, x: Word)
    requires x % 4 == 0
    ensures Moved(p, x) % 4 == 0 <==> (p.ram - p.vram) % 4 == 0
  {
    var d, q := p.ram - p.vram, x / 4;
    var k := (x + d) / TWO_TO_32;
    assert Moved(p, x) == x + d - k * TWO_TO_32;
    QuadPlus(q - k * 0x4000_0000, d);
  }

  lemma QuadPlus(n: int, d: int)
    ensures (4 * n + d) % 4 == 0 <==> d % 4 == 0
  {
    assert d == d / 4 * 4 + d % 4;
    assert 4 * n + d == (n + d / 4) * 4 + d % 4;
  }

  /** A jump keeps its opcode, and lands on the moved address when that is 4-aligned and in the KSEG0 quarter-gigabyte. */
  lemma JumpMoves(w: Word, p: Placement)
    ensures var x := Moved(p, JumpAddress(w));
      && Opcode(PatchJump(w, x)) == Opcode(w)
      && (JumpAddress(PatchJump(w, x)) == x <==> (p.ram - p.vram) % 4 == 0 && 0x8000_0000 <= x < 0x9000_0000)
  {
    hide PatchJump, Opcode, Moved;
    var x := Moved(p, JumpAddress(w));
    JumpPatched(w, x);
    JumpReaches(x);
    MovedQuad(p, JumpAddress(w));
  }

  lemma PatchJumpAgain(w: Word, x: Word, y: Word)
    ensures PatchJump(PatchJump(w, x), y) == PatchJump(w, y)
  {
  }

  lemma JumpAddressField(w: Word, x: Word)
    requires x % 4 == 0
    ensures JumpAddress(PatchJump(w, x)) % 0x1000_0000 == x % 0x1000_0000
  {
  }

  lemma WrapField(x: int)
    ensures Wrap(x) % 0x1000_0000 == x % 0x1000_0000
  {
    var k, f := x / TWO_TO_32, Wrap(x) / 0x1000_0000;
    assert x == (16 * k + f) * 0x1000_0000 + Wrap(x) % 0x1000_0000;
  }

  lemma WrapAligned(x: int)
    requires x % 4 == 0
    ensures Wrap(x) % 4 == 0
  {
    assert Wrap(x) == x - x / TWO_TO_32 * TWO_TO_32;
  }

  lemma FieldSum(x: int, y: int, c: int)
    requires x % 0x1000_0000 == y % 0x1000_0000
    ensures (x + c) % 0x1000_0000 == (y + c) % 0x1000_0000
  {
    var k := x / 0x1000_0000 - y / 0x1000_0000;
    assert x == y + k * 0x1000_0000;
  }

  lemma MovedField(p: Placement, x: Word, y: Word)
    requires x % 0x1000_0000 == y % 0x1000_0000
    ensures Moved(p, x) % 0x1000_0000 == Moved(p, y) % 0x1000_0000
  {
    WrapField(x - p.vram + p.ram);
    WrapField(y - p.vram + p.ram);
    FieldSum(x, y, p.ram - p.vram);
  }

  lemma PatchJumpField(w: Word, x: Word, y: Word)
    requires x % 0x1000_0000 == y % 0x1000_0000
    ensures PatchJump(w, x) == PatchJump(w, y)
  {
  }

  lemma JumpMovedTwice(v: Word, a: Word, b: Word, j: Word, x: Word)
    requires x % 0x1000_0000 == Moved(Placement(v, a), j) % 0x1000_0000
    ensures Moved(Placement(a, b), x) % 0x1000_0000 == Moved(Placement(v, b), j) % 0x1000_0000
  {
    MovedField(Placement(a, b), x, Moved(Placement(v, a), j));
    MovedTwice(v, a, b, j);
  }

  lemma MovedJumpAligned(p: Placement, w: Word)
    requires (p.ram - p.vram) % 4 == 0
    ensures Moved(p, JumpAddress(w)) % 4 == 0
  {
    var k, d := w % 0x400_0000, (p.ram - p.vram) / 4;
    assert JumpAddress(w) - p.vram + p.ram == 4 * (0x2000_0000 + k + d);
    WrapAligned(JumpAddress(w) - p.vram + p.ram);
  }

  lemma JumpTwice(v: Word, a: Word, b: Word, w: Word)
    requires (a - v) % 4 == 0
    ensures
      var w' := PatchJump(w, Moved(Placement(v, a), JumpAddress(w)));
      PatchJump(w', Moved(Placement(a, b), JumpAddress(w'))) == PatchJump(w, Moved(Placement(v, b), JumpAddress(w)))
  {
    var j := JumpAddress(w);
    var x := Moved(Placement(v, a), j);
    var w' := PatchJump(w, x);
    var y := Moved(Placement(a, b), JumpAddress(w'));
    MovedJumpAligned(Placement(v, a), w);
    JumpAddressField(w, x);
    JumpMovedTwice(v, a, b, j, JumpAddress(w'));
    PatchJumpField(w, y, Moved(Placement(v, b), j));
    PatchJumpAgain(w, x, y);
  }

  lemma PatchHighAgain(w: Word, a: Word, b: Word)
    requires a < 0xFFFF_8000
    ensures PatchHigh(PatchHigh(w, a), b) == PatchHigh(w, b)
  {
  }

  lemma PatchLowAgain(w: Word, a: Word, b: Word)
    ensures Upper(PatchLow(w, a)) == Upper(w) && PatchLow(PatchLow(w, a), b) == PatchLow(w, b)
  {
  }

  /** Patching an address where it already stands changes neither half. */
  lemma PatchInPlace(hi: Word, lo: Word)
    requires Relocatable(PairAddress(hi, lo))
    ensures PatchHigh(hi, PairAddress(hi, lo)) == hi && PatchLow(lo, PairAddress(hi, lo)) == lo
  {
    HighHalfOfPair(hi, lo);
    PairLow(hi, lo);
  }

  lemma JumpInPlace(w: Word)
    ensures PatchJump(w, JumpAddress(w)) == w
  {
  }

  lemma Kseg0IsRelocatable(a: Word)
    requires InKseg0(a)
    ensures Relocatable(a)
  {
  }

  lemma MovedInPlace(p: Placement, a: Word)
    requires p.ram == p.vram
    ensures Moved(p, a) == a
  {
  }

  lemma SameRegisters(w: Word, x: Word)
    requires Upper(w) == Upper(x)
    ensures Rs(w) == Rs(x) && Rt(w) == Rt(x)
  {
    var u := w / 0x10000;
    assert u == x / 0x10000;
    assert w / 0x20_0000 == u / 32 && x / 0x20_0000 == u / 32;
  }

  lemma WrapSum(x: int, c: int)
    ensures Wrap(Wrap(x) + c) == Wrap(x + c)
  {
    assert Wrap(x) + c == x + c - x / TWO_TO_32 * TWO_TO_32;
    WrapMultiple(x + c, x / TWO_TO_32);
  }

  lemma WrapMultiple(x: int, k: int)
    ensures Wrap(x - k * TWO_TO_32) == Wrap(x)
  {
  }

  lemma WrapOffset(base: Word, x: int)
    requires Wrap(base + x) >= base
    ensures Wrap(base + x) - base == Wrap(x)
  {
    var b: int := base;
    WrapSum(b + x, -b);
  }
}
