/**
 Late rodata for one block of assembly: the C statements that make the compiler emit a placeholder for every
 word, and the instructions that those statements cost.
 */
module AsmBudget {

  datatype Result<+T> = Ok(value: T) | Failed

  datatype Options = Options(minInstrs: nat, skipInstrs: nat, prelude: nat, useTables: bool, mips1: bool, pascal: bool)

  /** A block's late rodata, in words, where it starts modulo 8 (0 if not known), and how many instructions the block has. */
  datatype Section = Section(size: nat, alignment: nat, instrs: nat)

  /** A statement that puts one word, two words, or a jump table into late rodata. */
  datatype Piece = Float(w: nat) | Double(hi: nat, lo: nat) | Table(words: nat)

  /** What one counted instruction is emitted as: a statement, or room for more code of the statement before. */
  datatype Slot = Blank | Stmt(piece: Piece)

  const WORD_LIMIT := 0x1_0000_0000
  const FIRST_HEX := 0xE0123456
  const MOST_BLANKS := 11

  /* ----- placeholder values ----- */

  function HexAfter(h: nat): nat { if h % 0x10000 == 0 then h + 2 else h + 1 }

  function NthHex(h: nat, n: nat): nat { if n == 0 then h else HexAfter(NthHex(h, n - 1)) }

  lemma {:induction false} HexAppears(h: nat, v: nat)
    requires v == h || (v > h && v % 0x10000 != 1)
    ensures exists n: nat :: NthHex(h, n) == v
    decreases v
  {
    if v == h {
      assert NthHex(h, 0) == v;
    } else {
      var before := if v % 0x10000 == 2 && v - 1 != h then v - 2 else v - 1;
      HexAppears(h, before);
      var n: nat :| NthHex(h, n) == before;
      assert NthHex(h, n + 1) == v;
    }
  }

  lemma {:induction false} HexBounds(h: nat, n: nat)
    ensures n > 0 ==> NthHex(h, n) > h && NthHex(h, n) % 0x10000 != 1
  {
    if n > 1 {
      HexBounds(h, n - 1);
    }
  }

  /** The values that appear: the first, and every later one that does not end in 0001. */
  lemma HexValues(h: nat, v: nat)
    ensures (exists n: nat :: NthHex(h, n) == v) <==> v == h || (v > h && v % 0x10000 != 1)
  {
    if v == h || (v > h && v % 0x10000 != 1) {
      HexAppears(h, v);
    }
    forall n: nat | NthHex(h, n) == v ensures v == h || (v > h && v % 0x10000 != 1) {
      HexBounds(h, n);
    }
  }

  /** So a placeholder that a single `lui` can load does appear: it is emitted before the counter steps past it. */
  lemma LuiValueAppears()
    ensures exists n: nat :: NthHex(FIRST_HEX, n) == 0xE0130000
  {
    HexAppears(FIRST_HEX, 0xE0130000);
  }

  class GlobalState {
    const options: Options
    var lateRodataHex: nat

    constructor (options: Options)
      ensures this.options == options && lateRodataHex == FIRST_HEX
    {
      this.options := options;
      lateRodataHex := FIRST_HEX;
    }

    method NextLateRodataHex() returns (r: Result<nat>)
      modifies this
      ensures r == if old(lateRodataHex) < 0x1_0000_0000 then Ok(old(lateRodataHex)) else Failed
      ensures lateRodataHex == if r.Ok? then HexAfter(old(lateRodataHex)) else old(lateRodataHex)
    {
      if lateRodataHex >= WORD_LIMIT {
        return Failed;
      }
      r := Ok(lateRodataHex);
      if lateRodataHex % 0x10000 == 0 {
        lateRodataHex := lateRodataHex + 1;
      }
      lateRodataHex := lateRodataHex + 1;
    }
  }

  /* ----- what the statements stand for ----- */

  function Statements(s: seq<Slot>): seq<Piece> {
    if s == [] then []
    else
      var last := s[|s| - 1];
      Statements(s[..|s| - 1]) + if last.Stmt? then [last.piece] else []
  }

  function Span(p: Piece): nat { if p.Float? then 1 else if p.Double? then 2 else p.words }

  function Spans(ps: seq<Piece>): nat {
    if ps == [] then 0 else Spans(ps[..|ps| - 1]) + Span(ps[|ps| - 1])
  }

  /** The placeholder words of the statements. */
  function Words(ps: seq<Piece>): seq<nat> {
    if ps == [] then []
    else
      var last := ps[|ps| - 1];
      Words(ps[..|ps| - 1]) + (if last.Float? then [last.w] else if last.Double? then [last.hi, last.lo] else [])
  }

  function TableCost(o: Options): nat {
    if o.pascal then if o.mips1 then 9 else 8 else if o.mips1 then 11 else 9
  }

  function Cost(p: Piece, o: Options): nat {
    if p.Float? then 3
    else if p.Double? then if o.mips1 then 5 else 3
    else if o.pascal then if o.mips1 then 9 else 8
    else if o.mips1 then 11 else 9
  }

  function Costs(ps: seq<Piece>, o: Options): nat {
    if ps == [] then 0 else Costs(ps[..|ps| - 1], o) + Cost(ps[|ps| - 1], o)
  }

  predicate HasDouble(ps: seq<Piece>) {
    ps != [] && (ps[|ps| - 1].Double? || HasDouble(ps[..|ps| - 1]))
  }

  /** A jump table can take the rest: something went before it, a double too if any is to come, and there is room. */
  predicate TableFits(before: seq<Piece>, sec: Section, o: Options) {
    && o.useTables && Spans(before) >= 1 && (sec.alignment == 0 || HasDouble(before))
    && sec.size - Spans(before) >= (if o.pascal then 2 else 5)
    && sec.instrs - Costs(before, o) >= Cost(Table(0), o) + 1
  }

  /** Two more words start at a multiple of 8. */
  predicate DoubleFits(at: nat, sec: Section) {
    sec.alignment != 0 && (sec.alignment + 4 * at) % 8 == 0 && at + 1 < sec.size
  }

  /** Tables and doubles are used exactly where they fit. */
  predicate Shaped(ps: seq<Piece>, sec: Section, o: Options) {
    ps == [] || (
      var before, p := ps[..|ps| - 1], ps[|ps| - 1];
      && Shaped(before, sec, o)
      && (p.Table? <==> TableFits(before, sec, o))
      && (p.Table? ==> Spans(before) + p.words == sec.size)
      && (!p.Table? ==> (p.Double? <==> DoubleFits(Spans(before), sec))))
  }

  /** Without `ldc1`, a last float needs one more instruction; so does a table, unless it starts at the third word. */
  function Nops(ps: seq<Piece>, o: Options): nat {
    if o.mips1 && ps != [] && (ps[|ps| - 1].Float? || (ps[|ps| - 1].Table? && Spans(ps[..|ps| - 1]) != 2)) then 1 else 0
  }

  function Blanks(n: nat): (s: seq<Slot>)
    ensures |s| == n && forall i :: 0 <= i < n ==> s[i] == Blank
  {
    seq(n, _ => Blank)
  }

  function Leading(s: seq<Slot>): nat {
    if s == [] || s[0] != Blank then 0 else 1 + Leading(s[1..])
  }

  /** No statement is followed by more than `most` blanks. */
  ghost predicate Spaced(s: seq<Slot>, most: nat) {
    forall i :: 0 <= i <= |s| ==> Leading(s[i..]) <= most
  }

  lemma {:induction false} LeadingAppend(s: seq<Slot>, t: seq<Slot>)
    ensures t != [] && t[0].Stmt? ==> Leading(s + t) == Leading(s)
    ensures Leading(s + t) <= Leading(s) + Leading(t)
    decreases |s|
  {
    if s == [] {
      assert s + t == t;
    } else {
      assert (s + t)[1..] == s[1..] + t;
      LeadingAppend(s[1..], t);
    }
  }

  lemma {:induction false} LeadingBlanks(n: nat)
    ensures Leading(Blanks(n)) == n
  {
    if n > 0 {
      assert Blanks(n)[1..] == Blanks(n - 1);
      LeadingBlanks(n - 1);
    }
  }

  /** A statement and its blanks. */
  function Group(p: Piece, blanks: nat): seq<Slot> { [Stmt(p)] + Blanks(blanks) }

  lemma SpacedGroup(s: seq<Slot>, p: Piece, blanks: nat, most: nat)
    requires Spaced(s, most) && blanks <= most
    ensures Spaced(s + Group(p, blanks), most)
  {
    var g := Group(p, blanks);
    forall i | 0 <= i <= |s + g| ensures Leading((s + g)[i..]) <= most {
      if i <= |s| {
        assert (s + g)[i..] == s[i..] + g;
        LeadingAppend(s[i..], g);
      } else {
        assert (s + g)[i..] == Blanks(|s + g| - i);
        LeadingBlanks(|s + g| - i);
      }
    }
  }

  lemma SpacedBlank(s: seq<Slot>, most: nat)
    requires Spaced(s, most)
    ensures Spaced(s + [Blank], most + 1)
  {
    forall i | 0 <= i <= |s + [Blank]| ensures Leading((s + [Blank])[i..]) <= most + 1 {
      if i <= |s| {
        assert (s + [Blank])[i..] == s[i..] + [Blank];
        LeadingAppend(s[i..], [Blank]);
        assert Leading([Blank]) == 1;
      }
    }
  }

  lemma {:induction false} StatementsBlanks(s: seq<Slot>, n: nat)
    ensures Statements(s + Blanks(n)) == Statements(s)
  {
    if n == 0 {
      assert s + Blanks(0) == s;
    } else {
      assert (s + Blanks(n))[..|s| + n - 1] == s + Blanks(n - 1);
      StatementsBlanks(s, n - 1);
    }
  }

  lemma StatementsGroup(s: seq<Slot>, p: Piece, blanks: nat)
    ensures Statements(s + Group(p, blanks)) == Statements(s) + [p]
  {
    var t := s + [Stmt(p)];
    assert t[..|s|] == s;
    assert s + Group(p, blanks) == t + Blanks(blanks);
    StatementsBlanks(t, blanks);
  }

  lemma {:induction false} DoublesAligned(ps: seq<Piece>, sec: Section, o: Options, k: nat)
    requires Shaped(ps, sec, o) && k < |ps| && ps[k].Double?
    ensures (sec.alignment + 4 * Spans(ps[..k])) % 8 == 0
  {
    if k < |ps| - 1 {
      DoublesAligned(ps[..|ps| - 1], sec, o, k);
      assert ps[..|ps| - 1][..k] == ps[..k];
    }
  }

  lemma {:induction false} SpansGrow(ps: seq<Piece>, sec: Section, o: Options, k: nat)
    requires Shaped(ps, sec, o) && k <= |ps|
    ensures Spans(ps[..k]) + (|ps| - k) <= Spans(ps)
  {
    if k < |ps| {
      SpansGrow(ps[..|ps| - 1], sec, o, k);
      assert ps[..|ps| - 1][..k] == ps[..k];
    } else {
      assert ps[..k] == ps;
    }
  }

  lemma {:induction false} ShapedPrefix(ps: seq<Piece>, sec: Section, o: Options, k: nat)
    requires Shaped(ps, sec, o) && k <= |ps|
    ensures Shaped(ps[..k], sec, o)
  {
    if k < |ps| {
      ShapedPrefix(ps[..|ps| - 1], sec, o, k);
      assert ps[..|ps| - 1][..k] == ps[..k];
    } else {
      assert ps[..k] == ps;
    }
  }

  /** A jump table is the last statement, and a word was placed before it. */
  lemma TableIsLast(ps: seq<Piece>, sec: Section, o: Options, k: nat)
    requires Shaped(ps, sec, o) && Spans(ps) == sec.size && k < |ps| && ps[k].Table?
    ensures k == |ps| - 1 > 0
  {
    SpansGrow(ps, sec, o, k + 1);
    ShapedPrefix(ps, sec, o, k + 1);
    assert ps[..k + 1][..k] == ps[..k];
  }

  /* ----- the budget ----- */

  /** Statements for `span` words of late rodata, and the placeholders that they leave. */
  ghost predicate Standing(out: seq<Slot>, dummies: seq<nat>, span: nat, sec: Section, o: Options, most: nat) {
    var ps := Statements(out);
    && Words(ps) == dummies && Spans(ps) == span
    && Shaped(ps, sec, o)
    && |out| == Costs(ps, o) && Spaced(out, most)
    && (out == [] || out[0].Stmt?)
    && (span > 0 ==> out != [])
  }

  lemma PiecesAppend(ps: seq<Piece>, p: Piece, o: Options, sec: Section)
    ensures Spans(ps + [p]) == Spans(ps) + Span(p)
    ensures Words(ps + [p]) == Words(ps) + if p.Float? then [p.w] else if p.Double? then [p.hi, p.lo] else []
    ensures Costs(ps + [p], o) == Costs(ps, o) + Cost(p, o)
    ensures HasDouble(ps + [p]) == (HasDouble(ps) || p.Double?)
    ensures Nops(ps + [p], o) == if o.mips1 && (p.Float? || (p.Table? && Spans(ps) != 2)) then 1 else 0
    ensures Shaped(ps + [p], sec, o) <==>
      && Shaped(ps, sec, o)
      && (p.Table? <==> TableFits(ps, sec, o))
      && (p.Table? ==> Spans(ps) + p.words == sec.size)
      && (!p.Table? ==> (p.Double? <==> DoubleFits(Spans(ps), sec)))
  {
    hide TableFits, DoubleFits, Cost, Span;
    assert (ps + [p])[..|ps|] == ps;
  }

  /** One more statement. */
  lemma StandingNext(out: seq<Slot>, dummies: seq<nat>, span: nat, sec: Section, o: Options, p: Piece, blanks: nat)
    requires Standing(out, dummies, span, sec, o, MOST_BLANKS - 1) && blanks + 1 == Cost(p, o)
    requires p.Table? <==> TableFits(Statements(out), sec, o)
    requires if p.Table? then span + p.words == sec.size else p.Double? <==> DoubleFits(span, sec)
    ensures Standing(out + Group(p, blanks), dummies + if p.Float? then [p.w] else if p.Double? then [p.hi, p.lo] else [],
                     span + Span(p), sec, o, MOST_BLANKS - 1)
    ensures Statements(out + Group(p, blanks)) == Statements(out) + [p]
  {
    hide Spaced, Statements, Shaped, Costs, Spans, Words, TableFits, DoubleFits;
    StatementsGroup(out, p, blanks);
    SpacedGroup(out, p, blanks, MOST_BLANKS - 1);
    PiecesAppend(Statements(out), p, o, sec);
  }

  /** A whole section, planned. */
  ghost predicate Planned(out: seq<Slot>, dummies: seq<nat>, sec: Section, o: Options) {
    var ps := Statements(out);
    && Words(ps) == dummies && Spans(ps) == sec.size
    && Shaped(ps, sec, o)
    && |out| == Costs(ps, o) + Nops(ps, o) && Spaced(out, MOST_BLANKS)
    && (out == [] || out[0].Stmt?)
    && (sec.size > 0 ==> out != [])
  }

  lemma StandingEnd(out: seq<Slot>, dummies: seq<nat>, sec: Section, o: Options)
    requires Standing(out, dummies, sec.size, sec, o, MOST_BLANKS - 1)
    ensures Nops(Statements(out), o) == 0 ==> Planned(out, dummies, sec, o)
    ensures Nops(Statements(out), o) == 1 && out != [] ==> Planned(out + [Blank], dummies, sec, o)
  {
    hide Leading, Statements, Shaped, Costs, Spans, Words, Nops;
    assert Blanks(1) == [Blank];
    StatementsBlanks(out, 1);
    SpacedBlank(out, MOST_BLANKS - 1);
  }

  predicate Increasing(ws: seq<nat>, low: nat, high: nat) {
    && (forall i :: 0 <= i < |ws| ==> low <= ws[i] < high)
    && (forall i, j :: 0 <= i < j < |ws| ==> ws[i] < ws[j])
  }

  /** The values of the counter from `low` on, one after the other; `high` is the next. */
  ghost predicate Successive(ws: seq<nat>, low: nat, high: nat) {
    high == NthHex(low, |ws|) && forall i: nat :: i < |ws| ==> ws[i] == NthHex(low, i)
  }

  lemma SuccessiveNext(ws: seq<nat>, low: nat, high: nat)
    requires Successive(ws, low, high)
    ensures Successive(ws + [high], low, HexAfter(high))
  {
  }

  /** The plan so far: `span` words are planned, with placeholder values from `low` up to `high`. */
  ghost predicate Underway(out: seq<Slot>, dummies: seq<nat>, span: nat, sec: Section, o: Options, low: nat, high: nat) {
    && |dummies| == span && low <= high && Increasing(dummies, low, high) && Successive(dummies, low, high)
    && Standing(out, dummies, span, sec, o, MOST_BLANKS - 1)
  }

  lemma NextFloat(out: seq<Slot>, dummies: seq<nat>, span: nat, sec: Section, o: Options, low: nat, high: nat)
    requires Underway(out, dummies, span, sec, o, low, high)
    requires !TableFits(Statements(out), sec, o) && !DoubleFits(span, sec)
    ensures Underway(out + Group(Float(high), 2), dummies + [high], span + 1, sec, o, low, HexAfter(high))
    ensures Statements(out + Group(Float(high), 2)) == Statements(out) + [Float(high)]
  {
    hide Standing, Group, TableFits, DoubleFits, Statements, Successive;
    SuccessiveNext(dummies, low, high);
    StandingNext(out, dummies, span, sec, o, Float(high), 2);
  }

  function DoubleBlanks(o: Options): nat { if o.mips1 then 4 else 2 }

  lemma NextDouble(out: seq<Slot>, dummies: seq<nat>, span: nat, sec: Section, o: Options, low: nat, high: nat)
    requires Underway(out, dummies, span, sec, o, low, high)
    requires !TableFits(Statements(out), sec, o) && DoubleFits(span, sec)
    ensures var lo := HexAfter(high);
      && Underway(out + Group(Double(high, lo), DoubleBlanks(o)), dummies + [high, lo], span + 2, sec, o, low, HexAfter(lo))
      && Statements(out + Group(Double(high, lo), DoubleBlanks(o))) == Statements(out) + [Double(high, lo)]
  {
    hide Standing, Group, TableFits, DoubleFits, Statements, Successive;
    SuccessiveNext(dummies, low, high);
    SuccessiveNext(dummies + [high], low, HexAfter(high));
    assert dummies + [high] + [HexAfter(high)] == dummies + [high, HexAfter(high)];
    StandingNext(out, dummies, span, sec, o, Double(high, HexAfter(high)), DoubleBlanks(o));
  }

  lemma SpansOf(out: seq<Slot>, dummies: seq<nat>, span: nat, sec: Section, o: Options, most: nat)
    requires Standing(out, dummies, span, sec, o, most)
    ensures Spans(Statements(out)) == span
  {
    hide Shaped, Words, Spaced, Costs;
  }

  lemma NextTable(out: seq<Slot>, dummies: seq<nat>, span: nat, sec: Section, o: Options, low: nat, high: nat)
    requires Underway(out, dummies, span, sec, o, low, high) && span <= sec.size
    requires TableFits(Statements(out), sec, o)
    ensures var more := out + Group(Table(sec.size - span), TableCost(o) - 1);
      Planned(if o.mips1 && span != 2 then more + [Blank] else more, dummies, sec, o)
  {
    hide Standing, Statements, TableFits, DoubleFits, Planned, Spans, Words, Costs, Shaped, Nops;
    var p := Table(sec.size - span);
    var more := out + Group(p, TableCost(o) - 1);
    SpansOf(out, dummies, span, sec, o, MOST_BLANKS - 1);
    assert more != [] && dummies + [] == dummies;
    StandingNext(out, dummies, span, sec, o, p, TableCost(o) - 1);
    PiecesAppend(Statements(out), p, o, sec);
    StandingEnd(more, dummies, sec, o);
  }

  /** What the loop knows of its statements besides. */
  ghost predicate Flags(ps: seq<Piece>, sec: Section, needsDouble: bool, extraNop: bool) {
    && (needsDouble <==> sec.alignment != 0 && !HasDouble(ps))
    && (extraNop <==> ps != [] && ps[|ps| - 1].Float?)
    && (ps != [] ==> !ps[|ps| - 1].Table?)
  }

  lemma FlagsNext(ps: seq<Piece>, sec: Section, needsDouble: bool, extraNop: bool, p: Piece)
    requires Flags(ps, sec, needsDouble, extraNop) && !p.Table?
    ensures Flags(ps + [p], sec, needsDouble && p.Float?, p.Float?)
  {
    assert (ps + [p])[..|ps|] == ps;
  }

  lemma Finish(out: seq<Slot>, dummies: seq<nat>, sec: Section, o: Options, low: nat, high: nat,
               needsDouble: bool, extraNop: bool)
    requires Underway(out, dummies, sec.size, sec, o, low, high) && Flags(Statements(out), sec, needsDouble, extraNop)
    ensures Planned(if o.mips1 && extraNop then out + [Blank] else out, dummies, sec, o)
  {
    assert extraNop ==> out != [];
    StandingEnd(out, dummies, sec, o);
    hide Planned, Leading, Statements, Shaped, Costs, Spans, Words;
  }

  lemma Start(sec: Section, o: Options, low: nat)
    ensures Underway([], [], 0, sec, o, low, low)
    ensures Flags(Statements([]), sec, sec.alignment != 0, false)
  {
  }

  lemma Facts(out: seq<Slot>, dummies: seq<nat>, span: nat, sec: Section, o: Options, low: nat, high: nat,
              needsDouble: bool, extraNop: bool)
    requires Underway(out, dummies, span, sec, o, low, high) && Flags(Statements(out), sec, needsDouble, extraNop)
    ensures |dummies| == span && low <= high && Increasing(dummies, low, high) && Successive(dummies, low, high)
    ensures TableFits(Statements(out), sec, o) <==>
      && !needsDouble && o.useTables && span >= 1 && sec.size - span >= (if o.pascal then 2 else 5)
      && sec.instrs - |out| >= TableCost(o) + 1
  {
    hide Shaped, Words, Spaced, Statements, Costs, Spans, HasDouble;
  }

  lemma TableCosts(o: Options)
    ensures TableCost(o) >= 1
  {
  }

  lemma Facing(sec: Section, i: nat)
    requires sec.alignment in {0, 4, 8}
    ensures DoubleFits(i, sec) <==> sec.alignment == 4 * ((i + 1) % 2 + 1) && i + 1 < sec.size
  {
  }

  datatype Plan = Plan(out: seq<Slot>, dummies: seq<nat>, tableBytes: nat)

  /**
   Plans a section: placeholders and jump table account for every word, and no placeholder value is used twice.
   Fails only when placeholder values run out.
   */
  method PlanLateRodata(state: GlobalState, sec: Section) returns (r: Result<Plan>)
    requires sec.alignment in {0, 4, 8}
    modifies state
    ensures state.lateRodataHex >= old(state.lateRodataHex)
    ensures r.Failed? ==> state.lateRodataHex >= 0x1_0000_0000
    ensures r.Ok? ==>
      var Plan(out, dummies, tableBytes) := r.value;
      && 4 * |dummies| + tableBytes == 4 * sec.size
      && Increasing(dummies, old(state.lateRodataHex), state.lateRodataHex)
      && Successive(dummies, old(state.lateRodataHex), state.lateRodataHex)
      && Planned(out, dummies, sec, state.options)
  {
    hide *;
    var o := state.options;
    var out: seq<Slot> := [];
    var dummies: seq<nat> := [];
    var skipNext, needsDouble, extraNop := false, sec.alignment != 0, false;
    ghost var low := state.lateRodataHex;
    Start(sec, o, low);
    TableCosts(o);
    var i: nat := 0;
    while i < sec.size
      invariant i <= sec.size && (skipNext ==> i < sec.size)
      invariant Underway(out, dummies, if skipNext then i + 1 else i, sec, o, low, state.lateRodataHex)
      invariant Flags(Statements(out), sec, needsDouble, extraNop)
    {
      if skipNext {
        skipNext := false;
        i := i + 1;
        continue;
      }
      Facts(out, dummies, i, sec, o, low, state.lateRodataHex, needsDouble, extraNop);
      Facing(sec, i);
      if !needsDouble && o.useTables && i >= 1 && sec.size - i >= (if o.pascal then 2 else 5)
         && sec.instrs - |out| >= TableCost(o) + 1 {
        NextTable(out, dummies, i, sec, o, low, state.lateRodataHex);
        out := out + Group(Table(sec.size - i), TableCost(o) - 1);
        if o.mips1 && i != 2 {
          out := out + [Blank];
        }
        return Ok(Plan(out, dummies, (sec.size - i) * 4));
      }
      ghost var high := state.lateRodataHex;
      var hex := state.NextLateRodataHex();
      if hex.Failed? {
        return Failed;
      }
      if sec.alignment == 4 * ((i + 1) % 2 + 1) && i + 1 < sec.size {
        NextDouble(out, dummies, i, sec, o, low, high);
        FlagsNext(Statements(out), sec, needsDouble, extraNop, Double(high, HexAfter(high)));
        var hex2 := state.NextLateRodataHex();
        if hex2.Failed? {
          return Failed;
        }
        out, dummies := out + Group(Double(hex.value, hex2.value), DoubleBlanks(o)), dummies + [hex.value, hex2.value];
        skipNext, needsDouble, extraNop := true, false, false;
      } else {
        NextFloat(out, dummies, i, sec, o, low, high);
        FlagsNext(Statements(out), sec, needsDouble, extraNop, Float(high));
        out, dummies := out + Group(Float(hex.value), 2), dummies + [hex.value];
        extraNop := true;
      }
      i := i + 1;
    }
    Facts(out, dummies, i, sec, o, low, state.lateRodataHex, needsDouble, extraNop);
    Finish(out, dummies, sec, o, low, state.lateRodataHex, needsDouble, extraNop);
    if o.mips1 && extraNop {
      out := out + [Blank];
    }
    r := Ok(Plan(out, dummies, 0));
  }
}
