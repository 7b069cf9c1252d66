/** Runtime relocation of overlays: the loader patches a code and data image in place from a packed table. */
module Overlay {
  import opened MipsWords

  /** The section at the end of an overlay file: its layout and its packed relocations. */
  datatype RelocationSection = RelocationSection(textSize: Word, dataSize: Word, relocations: seq<Word>)

  const R_MIPS_32 := 2
  const R_MIPS_26 := 4
  const R_MIPS_HI16 := 5
  const R_MIPS_LO16 := 6

  datatype Kind = Pointer | Jump | High | Low | Ignored

  /** A relocation, with the word of the image it applies to. */
  datatype Entry = Entry(kind: Kind, slot: int)

  function SectionAddress(ram: Word, ovl: RelocationSection, section: int): Word {
    match section
    case 0 => 0
    case 1 => ram
    case 2 => Wrap(ram + ovl.textSize)
    case _ => Wrap(Wrap(ram + ovl.textSize) + ovl.dataSize)
  }

  function TargetAddress(ram: Word, ovl: RelocationSection, reloc: Word): Word {
    Wrap(SectionAddress(ram, ovl, reloc / 0x4000_0000) + reloc % 0x100_0000)
  }

  function KindOf(reloc: Word): Kind {
    var t := reloc / 0x100_0000 % 0x40;
    if t == R_MIPS_32 then Pointer
    else if t == R_MIPS_26 then Jump
    else if t == R_MIPS_HI16 then High
    else if t == R_MIPS_LO16 then Low
    else Ignored
  }

  function Decode(ram: Word, ovl: RelocationSection, reloc: Word): Entry {
    if KindOf(reloc) == Ignored then Entry(Ignored, 0)
    else Entry(KindOf(reloc), (TargetAddress(ram, ovl, reloc) - ram) / 4)
  }

  function Entries(ram: Word, ovl: RelocationSection): (es: seq<Entry>)
    ensures |es| == |ovl.relocations|
    ensures forall i :: 0 <= i < |es| ==> es[i] == Decode(ram, ovl, ovl.relocations[i])
  {
    seq(|ovl.relocations|, i requires 0 <= i < |ovl.relocations| => Decode(ram, ovl, ovl.relocations[i]))
  }

  /* ----- one step, and whole runs ----- */

  /** What the loader remembers per register: where the last LUI of it is, and its word at that time. */
  datatype Lui = Lui(slot: int, word: Word)

  datatype Machine = Machine(image: seq<Word>, luis: map<nat, Lui>)

  /** The source defines what this entry does: it patches inside the image, and a low half has a LUI. */
  predicate Enabled(m: Machine, e: Entry) {
    && (e.kind != Ignored ==> 0 <= e.slot < |m.image|)
    && (e.kind == Low ==> Rs(m.image[e.slot]) in m.luis && 0 <= m.luis[Rs(m.image[e.slot])].slot < |m.image|)
  }

  function PatchPointer(p: Placement, w: Word): Word { if Relocatable(w) then Moved(p, w) else w }

  function MoveJump(p: Placement, w: Word): Word { PatchJump(w, Moved(p, JumpAddress(w))) }

  function StepLow(p: Placement, m: Machine, s: int): Machine
    requires Enabled(m, Entry(Low, s))
  {
    var w := m.image[s];
    var lui := m.luis[Rs(w)];
    if Relocatable(PairAddress(m.image[lui.slot], w)) then
      var a := Moved(p, PairAddress(lui.word, w));
      var image := m.image[lui.slot := PatchHigh(m.image[lui.slot], a)];
      m.(image := image[s := PatchLow(image[s], a)])
    else
      m
  }

  function Step(p: Placement, m: Machine, e: Entry): Machine
    requires Enabled(m, e)
  {
    match e.kind
    case Pointer => m.(image := m.image[e.slot := PatchPointer(p, m.image[e.slot])])
    case Jump => m.(image := m.image[e.slot := MoveJump(p, m.image[e.slot])])
    case High => m.(luis := m.luis[Rt(m.image[e.slot]) := Lui(e.slot, m.image[e.slot])])
    case Low => StepLow(p, m, e.slot)
    case Ignored => m
  }

  /** The machine after the first `k` entries; an entry that the source leaves undefined changes nothing here. */
  function Run(p: Placement, image: seq<Word>, es: seq<Entry>, k: nat): (m: Machine)
    requires k <= |es|
    ensures |m.image| == |image|
  {
    if k == 0 then Machine(image, map[])
    else
      var m := Run(p, image, es, k - 1);
      if Enabled(m, es[k - 1]) then Step(p, m, es[k - 1]) else m
  }

  ghost predicate Defined(p: Placement, image: seq<Word>, es: seq<Entry>) {
    forall k :: 0 <= k < |es| ==> Enabled(Run(p, image, es, k), es[k])
  }

  /** The two 32-entry tables of the source hold what the machine remembers; other entries are arbitrary. */
  ghost predicate Holds(m: Machine, image: array<Word>, luiRefs: array<int>, luiVals: array<Word>)
    reads image, luiRefs, luiVals
  {
    && luiRefs.Length == luiVals.Length == 32
    && image[..] == m.image
    && forall r :: r in m.luis ==> r < 32 && m.luis[r] == Lui(luiRefs[r], luiVals[r])
  }

  method PatchLowAndLui(p: Placement, image: array<Word>, luiRefs: array<int>, luiVals: array<Word>, s: int, ghost m: Machine)
    requires Holds(m, image, luiRefs, luiVals) && Enabled(m, Entry(Low, s))
    requires image != luiVals
    modifies image
    ensures Holds(StepLow(p, m, s), image, luiRefs, luiVals)
  {
    var w := image[s];
    var h, v := luiRefs[Rs(w)], luiVals[Rs(w)];
    assert m.luis[Rs(w)] == Lui(h, v);
    if Relocatable(PairAddress(image[h], w)) {
      var a := Moved(p, PairAddress(v, w));
      image[h] := PatchHigh(image[h], a);
      image[s] := PatchLow(image[s], a);
    }
  }

  method Relocate(p: Placement, image: array<Word>, luiRefs: array<int>, luiVals: array<Word>, e: Entry, ghost m: Machine)
    requires Holds(m, image, luiRefs, luiVals) && Enabled(m, e)
    requires image != luiVals
    modifies image, luiRefs, luiVals
    ensures Holds(Step(p, m, e), image, luiRefs, luiVals)
  {
    match e.kind {
      case Pointer =>
        if Relocatable(image[e.slot]) {
          image[e.slot] := Moved(p, image[e.slot]);
        }
      case Jump =>
        image[e.slot] := PatchJump(image[e.slot], Moved(p, JumpAddress(image[e.slot])));
      case High =>
        var r := Rt(image[e.slot]);
        luiRefs[r] := e.slot;
        luiVals[r] := image[e.slot];
      case Low =>
        PatchLowAndLui(p, image, luiRefs, luiVals, e.slot, m);
      case Ignored =>
    }
  }

  lemma RunStart(p: Placement, image: seq<Word>, es: seq<Entry>)
    ensures Run(p, image, es, 0) == Machine(image, map[])
  {
  }

  lemma RunStep(p: Placement, image: seq<Word>, es: seq<Entry>, k: nat)
    requires Defined(p, image, es) && k < |es|
    ensures Enabled(Run(p, image, es, k), es[k])
    ensures Run(p, image, es, k + 1) == Step(p, Run(p, image, es, k), es[k])
  {
    hide Step, Enabled;
  }

  method RelocateNext(p: Placement, ovl: RelocationSection, image: array<Word>, luiRefs: array<int>, luiVals: array<Word>,
                      i: nat, ghost before: seq<Word>)
    requires i < |ovl.relocations| && Defined(p, before, Entries(p.ram, ovl))
    requires Holds(Run(p, before, Entries(p.ram, ovl), i), image, luiRefs, luiVals)
    requires image != luiVals
    modifies image, luiRefs, luiVals
    ensures Holds(Run(p, before, Entries(p.ram, ovl), i + 1), image, luiRefs, luiVals)
  {
    hide Run, Step, Enabled, Defined, Holds, Decode;
    RunStep(p, before, Entries(p.ram, ovl), i);
    Relocate(p, image, luiRefs, luiVals, Decode(p.ram, ovl, ovl.relocations[i]), Run(p, before, Entries(p.ram, ovl), i));
  }

  method DoRelocation(p: Placement, ovl: RelocationSection, image: array<Word>)
    requires Defined(p, image[..], Entries(p.ram, ovl))
    modifies image
    ensures image[..] == Run(p, old(image[..]), Entries(p.ram, ovl), |ovl.relocations|).image
  {
    hide Run, Step, Enabled, Defined, Decode;
    ghost var before := image[..];
    RunStart(p, before, Entries(p.ram, ovl));
    var luiRefs := new int[32];
    var luiVals := new Word[32];
    for i := 0 to |ovl.relocations|
      invariant Holds(Run(p, before, Entries(p.ram, ovl), i), image, luiRefs, luiVals)
    {
      RelocateNext(p, ovl, image, luiRefs, luiVals, i, before);
    }
  }
}
