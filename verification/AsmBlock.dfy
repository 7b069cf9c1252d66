/** A block of assembly as it is read, and the C lines that take its place. */
module AsmBlock {
  import opened AsmBudget
  import opened AsmEmit

  datatype SectionName = Text | Data | Bss | Rodata | LateRodata

  datatype Sizes = Sizes(text: nat, data: nat, bss: nat, rodata: nat, lateRodata: nat) {
    function Of(name: SectionName): nat {
      if name == Text then text else if name == Data then data else if name == Bss then bss
      else if name == Rodata then rodata else lateRodata
    }

    function With(name: SectionName, n: nat): (s: Sizes)
      ensures s.Of(name) == n && forall other :: other != name ==> s.Of(other) == Of(other)
    {
      if name == Text then this.(text := n) else if name == Data then this.(data := n)
      else if name == Bss then this.(bss := n) else if name == Rodata then this.(rodata := n) else this.(lateRodata := n)
    }
  }

  /** What is written on a C line: the start and the end of the generated functions, and what lies between. */
  datatype Written = Open | Close | Code(token: Token)

  function Counted(inds: seq<(nat, nat)>): nat {
    if inds == [] then 0 else Counted(inds[..|inds| - 1]) + inds[|inds| - 1].1
  }

  /** Instructions are noted in the order of their lines. */
  predicate InLines(inds: seq<(nat, nat)>, lines: nat) {
    && (forall i :: 0 <= i < |inds| ==> inds[i].0 < lines)
    && (forall i, j :: 0 <= i < j < |inds| ==> inds[i].0 <= inds[j].0)
  }

  /** The text of the lines, in their order. */
  function Flatten(src: seq<seq<Written>>): seq<Written> {
    if src == [] then [] else Flatten(src[..|src| - 1]) + src[|src| - 1]
  }

  function Codes(out: seq<Token>): (r: seq<Written>)
    ensures |r| == |out| && forall i :: 0 <= i < |out| ==> r[i] == Code(out[i])
  {
    seq(|out|, i requires 0 <= i < |out| => Code(out[i]))
  }

  /** Line `line` is the last that has text, but for the end of the function on the last line. */
  ghost predicate WrittenTo(src: seq<seq<Written>>, line: nat, out: seq<Token>) {
    && line + 1 < |src|
    && Flatten(src[..line + 1]) == [Open] + Codes(out)
    && (forall k :: line < k < |src| - 1 ==> src[k] == [])
    && src[|src| - 1] == [Close]
  }

  lemma {:induction false} FlattenEmpty(src: seq<seq<Written>>, n: nat)
    requires n <= |src| && forall k :: n <= k < |src| ==> src[k] == []
    ensures Flatten(src) == Flatten(src[..n])
    decreases |src|
  {
    if n < |src| {
      var before := src[..|src| - 1];
      FlattenEmpty(before, n);
      assert before[..n] == src[..n];
    } else {
      assert src[..n] == src;
    }
  }

  lemma MoveOn(src: seq<seq<Written>>, line: nat, later: nat, out: seq<Token>)
    requires WrittenTo(src, line, out) && line <= later < |src| - 1
    ensures WrittenTo(src, later, out)
  {
    FlattenEmpty(src[..later + 1], line + 1);
    assert src[..later + 1][..line + 1] == src[..line + 1];
  }

  lemma Write(src: seq<seq<Written>>, line: nat, out: seq<Token>, more: seq<Token>)
    requires WrittenTo(src, line, out)
    ensures WrittenTo(src[line := src[line] + Codes(more)], line, out + more)
  {
    var longer := src[line := src[line] + Codes(more)];
    assert longer[..line + 1][..line] == src[..line + 1][..line];
    assert Codes(out) + Codes(more) == Codes(out + more);
    assert [Open] + Codes(out) + Codes(more) == [Open] + Codes(out + more);
  }

  lemma WriteStart(src: seq<seq<Written>>)
    requires |src| > 1 && src[0] == [Open] && src[|src| - 1] == [Close]
    requires forall k :: 0 < k < |src| - 1 ==> src[k] == []
    ensures WrittenTo(src, 0, [])
  {
    assert src[..1] == [[Open]];
    assert src[..1][..0] == [];
    assert [Open] + Codes([]) == [Open];
  }

  lemma NothingWritten(src: seq<seq<Written>>)
    requires |src| > 1 && src[0] == [Open] && src[|src| - 1] == [Close]
    requires forall k :: 0 < k < |src| - 1 ==> src[k] == []
    ensures LineUp(src, [])
  {
  }

  lemma WriteEnd(src: seq<seq<Written>>, line: nat, out: seq<Token>)
    requires WrittenTo(src, line, out)
    ensures Flatten(src) == [Open] + Codes(out) + [Close]
  {
    var n := |src| - 1;
    MoveOn(src, line, n - 1, out);
    assert src[..n][..n] == src[..n];
  }

  lemma NothingCounted(inds: seq<(nat, nat)>)
    ensures inds[..0] == [] && Counted([]) == 0
  {
  }

  lemma CountedNext(inds: seq<(nat, nat)>, k: nat)
    requires k < |inds|
    ensures Counted(inds[..k + 1]) == Counted(inds[..k]) + inds[k].1
  {
    assert inds[..k + 1][..k] == inds[..k];
  }

  /** The instructions noted for a line. */
  function CountedAt(inds: seq<(nat, nat)>, line: nat): nat {
    if inds == [] then 0
    else CountedAt(inds[..|inds| - 1], line) + if inds[|inds| - 1].0 == line then inds[|inds| - 1].1 else 0
  }

  /** The instructions written on a line. */
  function WrittenOn(text: seq<Written>): nat {
    if text == [] then 0
    else
      var last := text[|text| - 1];
      WrittenOn(text[..|text| - 1]) + if last.Code? && last.token != Split then 1 else 0
  }

  /** Line by line, the text stands for the noted instructions, and what splits a function stands before an instruction. */
  ghost predicate LineUp(src: seq<seq<Written>>, inds: seq<(nat, nat)>) {
    forall line :: 0 <= line < |src| ==>
      WrittenOn(src[line]) == CountedAt(inds, line) && (src[line] != [] ==> src[line][|src[line]| - 1] != Code(Split))
  }

  /** The same while line `at` is `j` instructions further. */
  ghost predicate LinesUpTo(src: seq<seq<Written>>, inds: seq<(nat, nat)>, at: nat, j: nat) {
    forall line :: 0 <= line < |src| ==>
      && WrittenOn(src[line]) == CountedAt(inds, line) + (if line == at then j else 0)
      && (src[line] != [] ==> src[line][|src[line]| - 1] != Code(Split))
  }

  lemma CountedAtNext(inds: seq<(nat, nat)>, k: nat, src: seq<seq<Written>>)
    requires k < |inds|
    ensures LinesUpTo(src, inds[..k], inds[k].0, inds[k].1) <==> LineUp(src, inds[..k + 1])
    ensures LinesUpTo(src, inds[..k], inds[k].0, 0) <==> LineUp(src, inds[..k])
  {
    assert inds[..k + 1][..k] == inds[..k] && inds[..k + 1][k] == inds[k];
    assert forall line: nat ::
      CountedAt(inds[..k + 1], line) == CountedAt(inds[..k], line) + if inds[k].0 == line then inds[k].1 else 0;
    hide WrittenOn, CountedAt;
  }

  lemma WriteOne(text: seq<Written>, t: Token)
    requires t != Split
    ensures WrittenOn(text + Codes([t])) == WrittenOn(text) + 1 && WrittenOn(text + Codes([Split, t])) == WrittenOn(text) + 1
    ensures (text + Codes([t]))[|text|] == Code(t) && (text + Codes([Split, t]))[|text| + 1] == Code(t)
  {
    var one, two := text + Codes([t]), text + Codes([Split, t]);
    assert one[..|text|] == text && two[..|text| + 1] == text + [Code(Split)] && (text + [Code(Split)])[..|text|] == text;
  }

  lemma OneUp(text: seq<Written>, e: Emitter, o: Options)
    requires e.left > 0
    ensures var t := text + Codes(Advance(e, [], o).1);
      t != [] && WrittenOn(t) == WrittenOn(text) + 1 && t[|t| - 1] != Code(Split)
  {
    hide WrittenOn, Codes;
    var more, t := Advance(e, [], o).1, Count(AtSplit(e, o), o).1;
    assert more == if Splits(e, o) then [Split, t] else [t];
    WriteOne(text, t);
  }

  lemma WriteLinesUp(src: seq<seq<Written>>, inds: seq<(nat, nat)>, at: nat, j: nat, e: Emitter, o: Options)
    requires at < |src| && LinesUpTo(src, inds, at, j) && e.left > 0
    ensures LinesUpTo(src[at := src[at] + Codes(Advance(e, [], o).1)], inds, at, j + 1)
  {
    hide WrittenOn, CountedAt, Codes, Advance;
    OneUp(src[at], e, o);
  }

  lemma NoteInstrs(inds: seq<(nat, nat)>, lines: nat, count: nat)
    requires InLines(inds, lines) && lines > 0
    ensures InLines(inds + [(lines - 1, count)], lines)
    ensures Counted(inds + [(lines - 1, count)]) == Counted(inds) + count
  {
    assert (inds + [(lines - 1, count)])[..|inds|] == inds;
  }

  lemma {:induction false} CountedPrefix(inds: seq<(nat, nat)>, k: nat)
    requires k <= |inds|
    ensures Counted(inds[..k]) <= Counted(inds)
    decreases |inds| - k
  {
    if k < |inds| {
      CountedNext(inds, k);
      CountedPrefix(inds, k + 1);
    } else {
      assert inds[..k] == inds;
    }
  }

  datatype Failure = OutOfValues | TooShort | RatioTooHigh
  datatype Outcome = Done(src: seq<seq<Written>>, plan: Plan) | Raised(why: Failure)

  /** `at` bytes into a section that starts at `alignment` modulo 8 is a multiple of 8. */
  predicate OnOctet(alignment: nat, at: nat) { (alignment + at) % 8 == 0 }

  lemma EightPlus(q: int, x: int)
    ensures (8 * q + x) % 8 == x % 8
  {
  }

  lemma Octets(at: nat, alignment: nat)
    requires at % 4 == 0
    ensures at % 8 in {0, 4} && OnOctet(8 - at % 8, at)
    ensures alignment in {4, 8} ==> (OnOctet(alignment, at) <==> alignment == 8 - at % 8)
  {
    var q, r := at / 8, at % 8;
    assert at == 8 * q + r && r == 4 * (at / 4 - 2 * q);
    EightPlus(q, 8);
    EightPlus(q, alignment + r);
  }

  lemma SizesAre(s: Sizes, name: SectionName, n: nat, m: nat)
    ensures s.With(name, n).Of(name) == n && s.With(name, n).With(name, m) == s.With(name, m)
    ensures name == LateRodata ==> s.Of(name) == s.lateRodata
    ensures s.With(LateRodata, n).lateRodata == n
    ensures name != LateRodata ==> s.With(name, n).lateRodata == s.lateRodata
  {
  }

  lemma NextMultiple(n: nat, m: nat)
    requires m % 4 == 0 && n <= m < n + 4
    ensures m == (n + 3) / 4 * 4
  {
  }

  lemma NothingPlanned(sec: Section, o: Options, h: nat)
    requires sec.size == 0
    ensures Planned([], [], sec, o) && Increasing([], h, h) && Successive([], h, h)
  {
  }

  class GlobalAsmBlock {
    var curSection: SectionName
    var sizes: Sizes
    var lateRodataAlignment: nat
    var alignmentFromContent: bool
    var textGlabels: seq<string>
    var fnInsInds: seq<(nat, nat)>
    var numLines: nat

    ghost predicate Valid()
      reads this
    {
      && sizes.text == 4 * Counted(fnInsInds) && sizes.lateRodata % 4 == 0
      && lateRodataAlignment in {0, 4, 8}
      && InLines(fnInsInds, numLines)
      && (numLines == 0 ==> sizes.lateRodata == 0)
    }

    constructor ()
      ensures Valid() && curSection == Text && sizes == Sizes(0, 0, 0, 0, 0) && numLines == 0
      ensures lateRodataAlignment == 0 && !alignmentFromContent && textGlabels == [] && fnInsInds == []
    {
      curSection := Text;
      sizes := Sizes(0, 0, 0, 0, 0);
      lateRodataAlignment, alignmentFromContent, textGlabels, fnInsInds, numLines := 0, false, [], [], 0;
    }

    method NextLine()
      requires Valid()
      modifies `numLines
      ensures Valid() && numLines == old(numLines) + 1
    {
      numLines := numLines + 1;
    }

    /** Pads the current section. */
    method Align4()
      requires Valid()
      modifies `sizes
      ensures Valid() && sizes.Of(curSection) % 4 == 0
        && old(sizes.Of(curSection)) <= sizes.Of(curSection) < old(sizes.Of(curSection)) + 4
      ensures sizes == old(sizes).With(curSection, sizes.Of(curSection))
      ensures curSection in {Text, LateRodata} ==> sizes == old(sizes)
    {
      while sizes.Of(curSection) % 4 != 0
        invariant Valid() && sizes == old(sizes).With(curSection, sizes.Of(curSection))
        invariant old(sizes.Of(curSection)) <= sizes.Of(curSection) <= (old(sizes.Of(curSection)) + 3) / 4 * 4
        decreases (old(sizes.Of(curSection)) + 3) / 4 * 4 - sizes.Of(curSection)
      {
        sizes := sizes.With(curSection, sizes.Of(curSection) + 1);
      }
    }

    /** Counts `size` bytes into the current section; in text, as instructions of the current line. */
    method AddSized(size: int) returns (ok: bool)
      requires Valid() && numLines > 0
      modifies `sizes, `fnInsInds
      ensures ok <==> size >= 0 && (curSection in {Text, LateRodata} ==> size % 4 == 0) && (curSection == Text ==>
        textGlabels != [])
      ensures ok ==> Valid() && sizes == old(sizes).With(curSection, old(sizes.Of(curSection)) + size)
      ensures ok ==> fnInsInds == old(fnInsInds) + if curSection == Text then [(numLines - 1, size / 4)] else []
    {
      hide InLines, Counted;
      if curSection == Text || curSection == LateRodata {
        if size % 4 != 0 {
          return false;
        }
      }
      if size < 0 {
        return false;
      }
      sizes := sizes.With(curSection, sizes.Of(curSection) + size);
      if curSection == Text {
        if textGlabels == [] {
          return false;
        }
        NoteInstrs(fnInsInds, numLines, size / 4);
        fnInsInds := fnInsInds + [(numLines - 1, size / 4)];
      }
      ok := true;
    }

    /** A line with an instruction: four bytes, and only in text. */
    method Instruction() returns (ok: bool)
      requires Valid()
      modifies `numLines, `sizes, `fnInsInds
      ensures numLines == old(numLines) + 1
      ensures ok <==> curSection == Text && textGlabels != []
      ensures ok ==> Valid() && sizes == old(sizes).With(Text, old(sizes.text) + 4)
      ensures ok ==> fnInsInds == old(fnInsInds) + [(old(numLines), 1)]
    {
      hide InLines, Counted;
      NextLine();
      if curSection != Text {
        return false;
      }
      ok := AddSized(4);
    }

    /** Doubles are about to follow; in late rodata they settle, or must agree with, where the section starts. */
    method SettleAlignment() returns (ok: bool)
      requires Valid()
      modifies `lateRodataAlignment, `alignmentFromContent
      ensures curSection == LateRodata ==>
        (ok <==> old(lateRodataAlignment) == 0 || OnOctet(old(lateRodataAlignment), sizes.lateRodata))
      ensures ok && curSection == LateRodata ==>
        && lateRodataAlignment in {4, 8} && OnOctet(lateRodataAlignment, sizes.lateRodata)
        && (old(lateRodataAlignment) != 0 ==> lateRodataAlignment == old(lateRodataAlignment))
        && alignmentFromContent == (old(alignmentFromContent) || old(lateRodataAlignment) == 0)
      ensures curSection != LateRodata ==>
        ok && lateRodataAlignment == old(lateRodataAlignment) && alignmentFromContent == old(alignmentFromContent)
    {
      hide OnOctet, InLines, Counted;
      Octets(sizes.lateRodata, lateRodataAlignment);
      if curSection == LateRodata {
        var align8 := sizes.Of(curSection) % 8;
        if lateRodataAlignment == 0 {
          lateRodataAlignment := 8 - align8;
          alignmentFromContent := true;
        } else if lateRodataAlignment != 8 - align8 {
          return false;
        }
      }
      ok := true;
    }

    /** A directive with `count` doubles. */
    method AddDoubles(count: nat) returns (ok: bool)
      requires Valid() && numLines > 0
      modifies this
      ensures numLines == old(numLines) && curSection == old(curSection) && textGlabels == old(textGlabels)
      ensures ok ==> Valid() && sizes == old(sizes).With(curSection, (old(sizes.Of(curSection)) + 3) / 4 * 4 + 8 * count)
      ensures ok ==> fnInsInds == old(fnInsInds) + if curSection == Text then [(numLines - 1, 2 * count)] else []
      ensures ok && curSection == LateRodata ==>
        && lateRodataAlignment in {4, 8} && OnOctet(lateRodataAlignment, old(sizes.lateRodata))
        && (old(lateRodataAlignment) != 0 ==> lateRodataAlignment == old(lateRodataAlignment))
        && alignmentFromContent == (old(alignmentFromContent) || old(lateRodataAlignment) == 0)
      ensures curSection == LateRodata ==>
        (ok <==> old(lateRodataAlignment) == 0 || OnOctet(old(lateRodataAlignment), old(sizes.lateRodata)))
      ensures curSection != LateRodata ==>
        && lateRodataAlignment == old(lateRodataAlignment) && alignmentFromContent == old(alignmentFromContent)
        && (ok <==> curSection != Text || textGlabels != [])
    {
      hide InLines, Counted, OnOctet, Sizes.With, Sizes.Of;
      Align4();
      SizesAre(old(sizes), curSection, sizes.Of(curSection), (old(sizes.Of(curSection)) + 3) / 4 * 4 + 8 * count);
      NextMultiple(old(sizes.Of(curSection)), sizes.Of(curSection));
      ok := SettleAlignment();
      if ok {
        ok := AddSized(8 * count);
      }
    }

    /** The lines before the end of the function are filled by running the emitter over the noted instructions. */
    method EmitLines(lines: seq<seq<Written>>, plan: seq<Slot>, o: Options) returns (src: seq<seq<Written>>, left: seq<Slot>)
      requires Valid() && |lines| == numLines + 1 && numLines > 0 && WrittenTo(lines, 0, []) && LineUp(lines, [])
      ensures var (e, out) := Run(Begin(plan, sizes.text / 4), [], o);
        && left == e.stack && |src| == |lines|
        && Flatten(src) == [Open] + Codes(out) + [Close]
      ensures LineUp(src, fnInsInds)
    {
      hide WrittenTo, WrittenOn, Counted, CountedAt, Codes, Advance, Run, Flatten, LineUp, LinesUpTo;
      NothingCounted(fnInsInds);
      src := lines;
      var total := sizes.text / 4;
      var e := Begin(plan, total);
      ghost var out: seq<Token> := [];
      ghost var line: nat := 0;
      for k := 0 to |fnInsInds|
        invariant |src| == |lines| && WrittenTo(src, line, out) && (k > 0 ==> line <= fnInsInds[k - 1].0)
          && (k == 0 ==> line == 0)
        invariant e.left == total - Counted(fnInsInds[..k])
        invariant Run(e, out, o) == Run(Begin(plan, total), [], o)
        invariant LineUp(src, fnInsInds[..k])
      {
        var (at, count) := fnInsInds[k];
        CountedNext(fnInsInds, k);
        CountedPrefix(fnInsInds, k + 1);
        MoveOn(src, line, at, out);
        line := at;
        CountedAtNext(fnInsInds, k, src);
        ghost var before := e.left;
        for j := 0 to count
          invariant |src| == |lines| && WrittenTo(src, at, out)
          invariant e.left == before - j
          invariant Run(e, out, o) == Run(Begin(plan, total), [], o)
          invariant LinesUpTo(src, fnInsInds[..k], at, j)
        {
          WriteLinesUp(src, fnInsInds[..k], at, j, e, o);
          var (f, more) := Advance(e, [], o);
          RunStep(e, out, o);
          Write(src, at, out, more);
          src := src[at := src[at] + Codes(more)];
          e, out := f, out + more;
        }
        CountedAtNext(fnInsInds, k, src);
      }
      assert fnInsInds[..|fnInsInds|] == fnInsInds;
      RunDone(e, out, o);
      WriteEnd(src, line, out);
      left := e.stack;
    }

    /** The C lines for the code, and the slots that found no place: one or more functions, if there is anything to put there. */
    method WriteLines(plan: seq<Slot>, o: Options) returns (src: seq<seq<Written>>, left: seq<Slot>)
      requires Valid() && (plan != [] ==> numLines > 0)
      ensures |src| == numLines + 1
      ensures sizes.text == 0 && plan == [] ==> Flatten(src) == [] && left == []
      ensures sizes.text > 0 || plan != [] ==>
        var (e, out) := Run(Begin(plan, sizes.text / 4), [], o);
        left == e.stack && Flatten(src) == [Open] + Codes(out) + [Close] && LineUp(src, fnInsInds)
    {
      src := seq(numLines + 1, i => []);
      left := [];
      if sizes.text > 0 || plan != [] {
        src := src[0 := [Open]];
        src := src[numLines := [Close]];
        WriteStart(src);
        NothingWritten(src);
        src, left := EmitLines(src, plan, o);
      } else {
        FlattenEmpty(src, 0);
      }
    }

    ghost function Sec(): Section
      reads this
    {
      Section(sizes.lateRodata / 4, lateRodataAlignment, sizes.text / 4)
    }

    /** There is code or late rodata to stand in for. */
    ghost predicate HasFunction(plan: seq<Slot>)
      reads this
    {
      sizes.text > 0 || plan != []
    }

    ghost predicate IsTooShort(plan: seq<Slot>, o: Options)
      reads this
    {
      HasFunction(plan) && sizes.text / 4 < o.minInstrs
    }

    ghost predicate IsTooFull(plan: seq<Slot>, o: Options)
      reads this
    {
      HasFunction(plan) && Run(Begin(plan, sizes.text / 4), [], o).0.stack != []
    }

    /** The C lines that stand in for the block, and the placeholders to look for in the object; or why there are none. */
    method Finish(state: GlobalState) returns (r: Outcome, ghost planned: Plan)
      requires Valid()
      modifies state
      ensures r == Raised(OutOfValues) ==> state.lateRodataHex >= 0x1_0000_0000
      ensures r != Raised(OutOfValues) ==>
        && 4 * |planned.dummies| + planned.tableBytes == sizes.lateRodata
        && Increasing(planned.dummies, old(state.lateRodataHex), state.lateRodataHex)
        && Successive(planned.dummies, old(state.lateRodataHex), state.lateRodataHex)
        && Planned(planned.out, planned.dummies, Sec(), state.options)
        && (r == Raised(TooShort) <==> IsTooShort(planned.out, state.options))
        && (r == Raised(RatioTooHigh) <==> !IsTooShort(planned.out, state.options) && IsTooFull(planned.out, state.options))
      ensures r.Done? ==>
        && r.plan == planned
        && Flatten(r.src) ==
             if HasFunction(planned.out) then
               [Open] + Codes(Run(Begin(planned.out, sizes.text / 4), [], state.options).1) + [Close]
             else []
      ensures r.Done? && HasFunction(planned.out) ==> LineUp(r.src, fnInsInds)
    {
      hide Flatten, LineUp, Codes, Run, Begin, Planned, Increasing, Successive, Counted, InLines;
      var o := state.options;
      var plan := Plan([], [], 0);
      if sizes.lateRodata > 0 {
        var p := PlanLateRodata(state, Section(sizes.lateRodata / 4, lateRodataAlignment, sizes.text / 4));
        if p.Failed? {
          planned := plan;
          return Raised(OutOfValues), planned;
        }
        plan := p.value;
      } else {
        NothingPlanned(Sec(), o, state.lateRodataHex);
      }
      planned := plan;
      if (sizes.text > 0 || plan.out != []) && sizes.text / 4 < o.minInstrs {
        return Raised(TooShort), planned;
      }
      var src, left := WriteLines(plan.out, o);
      if left != [] {
        return Raised(RatioTooHigh), planned;
      }
      r := Done(src, plan);
    }
  }

  lemma AdvanceAppends(e: Emitter, out: seq<Token>, o: Options)
    requires e.left > 0
    ensures Advance(e, out, o) == (Advance(e, [], o).0, out + Advance(e, [], o).1)
  {
    var t := Count(AtSplit(e, o), o).1;
    assert out + [Split] + [t] == out + ([] + [Split] + [t]) && out + [t] == out + ([] + [t]);
    hide Count;
  }

  lemma RunStep(e: Emitter, out: seq<Token>, o: Options)
    requires e.left > 0
    ensures var (f, more) := Advance(e, [], o); Run(e, out, o) == Run(f, out + more, o)
  {
    hide Advance;
    AdvanceAppends(e, out, o);
  }

  lemma RunDone(e: Emitter, out: seq<Token>, o: Options)
    requires e.left == 0
    ensures Run(e, out, o) == (e, out)
  {
  }
}
