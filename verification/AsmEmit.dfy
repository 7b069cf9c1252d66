/**
 The generated functions that stand in for a block of assembly: the planned statements are laid over its
 counted instructions, and a function that gets long is split.
 */
module AsmEmit {
  import opened AsmBudget

  const MAX_FN_SIZE := 100

  /** What one counted instruction becomes, or, for `Split`, the end of one function and the start of the next. */
  datatype Token = Split | Skip | Filler | Emit(slot: Slot)

  /** The loop's variables: the slots still to come, what is left to count, and where the current function stands. */
  datatype Emitter = Emitter(stack: seq<Slot>, left: nat, fnEmitted: nat, fnSkipped: nat, totSkipped: nat, skipping: bool)

  predicate Splits(e: Emitter, o: Options) {
    e.fnEmitted > MAX_FN_SIZE && e.left > o.minInstrs && (e.stack == [] || e.stack[0].Stmt?)
  }

  function AtSplit(e: Emitter, o: Options): Emitter {
    if Splits(e, o) then e.(fnEmitted := 0, fnSkipped := 0, skipping := true) else e
  }

  predicate Skips(e: Emitter, o: Options) {
    e.skipping && e.fnSkipped < o.skipInstrs + if e.stack != [] then o.prelude else 0
  }

  /** One counted instruction, after any split. */
  function Count(e: Emitter, o: Options): (Emitter, Token)
    requires e.left > 0
  {
    var f := e.(left := e.left - 1, fnEmitted := e.fnEmitted + 1);
    if Skips(e, o) then (f.(fnSkipped := e.fnSkipped + 1, totSkipped := e.totSkipped + 1), Skip)
    else if e.stack != [] then (f.(skipping := false, stack := e.stack[1..]), Emit(e.stack[0]))
    else (f.(skipping := false), Filler)
  }

  /* ----- what the tokens say ----- */

  function Slots(out: seq<Token>): seq<Slot> {
    if out == [] then []
    else
      var last := out[|out| - 1];
      Slots(out[..|out| - 1]) + if last.Emit? then [last.slot] else []
  }

  function Skipped(out: seq<Token>): nat {
    if out == [] then 0 else Skipped(out[..|out| - 1]) + if out[|out| - 1].Skip? then 1 else 0
  }

  /** How many instructions each generated function counts. */
  function Functions(out: seq<Token>): (r: seq<nat>)
    ensures |r| > 0
  {
    if out == [] then [0]
    else
      var before := Functions(out[..|out| - 1]);
      if out[|out| - 1].Split? then before + [0] else before[|before| - 1 := before[|before| - 1] + 1]
  }

  function Sum(ns: seq<nat>): nat { if ns == [] then 0 else Sum(ns[..|ns| - 1]) + ns[|ns| - 1] }

  /** Every blank directly follows another slot: it stays with its statement. */
  ghost predicate Together(out: seq<Token>) {
    forall k :: 0 <= k < |out| && out[k] == Emit(Blank) ==> k > 0 && out[k - 1].Emit?
  }

  lemma TokenAppend(out: seq<Token>, t: Token)
    ensures Slots(out + [t]) == Slots(out) + if t.Emit? then [t.slot] else []
    ensures Skipped(out + [t]) == Skipped(out) + if t.Skip? then 1 else 0
    ensures var before := Functions(out);
      Functions(out + [t]) == if t.Split? then before + [0] else before[|before| - 1 := before[|before| - 1] + 1]
  {
    assert (out + [t])[..|out|] == out;
  }

  lemma SumLast(ns: seq<nat>)
    requires ns != []
    ensures Sum(ns + [0]) == Sum(ns)
    ensures Sum(ns[|ns| - 1 := ns[|ns| - 1] + 1]) == Sum(ns) + 1
  {
    assert (ns + [0])[..|ns|] == ns;
    assert ns[|ns| - 1 := ns[|ns| - 1] + 1][..|ns| - 1] == ns[..|ns| - 1];
  }

  const LONGEST := MAX_FN_SIZE + 1 + MOST_BLANKS

  /** Finished functions are neither too short nor too long; the last can take the few instructions that are left. */
  ghost predicate Sized(fns: seq<nat>, left: nat, o: Options) {
    && fns != []
    && (forall k :: 0 <= k < |fns| - 1 ==> MAX_FN_SIZE < fns[k] <= LONGEST)
    && (|fns| > 1 ==> fns[|fns| - 1] + left > o.minInstrs)
    && (fns[|fns| - 1] + (if left < o.minInstrs then left else o.minInstrs) <= LONGEST + o.minInstrs)
  }

  /** The current function is short enough to be split as soon as its statement is complete. */
  ghost predicate Splittable(e: Emitter, o: Options) {
    e.left > o.minInstrs ==>
      e.fnEmitted <= MAX_FN_SIZE + 1 || e.fnEmitted + Leading(e.stack) <= LONGEST
  }

  ghost predicate Inv(e: Emitter, out: seq<Token>, plan: seq<Slot>, total: nat, o: Options) {
    var fns := Functions(out);
    && Slots(out) + e.stack == plan
    && Together(out) && (e.stack != [] && e.stack[0] == Blank ==> out != [] && out[|out| - 1].Emit?)
    && (out != [] && out[|out| - 1].Emit? ==> !e.skipping)
    && |Slots(out)| + e.totSkipped + e.left <= total
    && (e.stack != [] ==> |Slots(out)| + e.totSkipped + e.left == total)
    && e.totSkipped == Skipped(out)
    && Spaced(e.stack, MOST_BLANKS)
    && Sum(fns) + e.left == total && fns[|fns| - 1] == e.fnEmitted
    && Sized(fns, e.left, o) && Splittable(e, o)
  }

  lemma InvStart(plan: seq<Slot>, total: nat, o: Options)
    requires Spaced(plan, MOST_BLANKS) && (plan == [] || plan[0].Stmt?)
    ensures Inv(Emitter(plan, total, 0, 0, 0, true), [], plan, total, o)
  {
  }

  lemma InvSplit(e: Emitter, out: seq<Token>, plan: seq<Slot>, total: nat, o: Options)
    requires Inv(e, out, plan, total, o) && Splits(e, o)
    ensures Inv(AtSplit(e, o), out + [Split], plan, total, o)
  {
    hide Slots, Functions, Sum, Spaced, Skipped;
    TokenAppend(out, Split);
    SumLast(Functions(out));
    assert e.stack == [] || Leading(e.stack) == 0;
  }

  lemma SpacedRest(s: seq<Slot>, most: nat)
    requires s != [] && Spaced(s, most)
    ensures Spaced(s[1..], most) && Leading(s) <= most
    ensures s[0] == Blank ==> Leading(s) == Leading(s[1..]) + 1
  {
    forall i | 0 <= i <= |s| - 1 ensures Leading(s[1..][i..]) <= most {
      assert s[1..][i..] == s[i + 1..];
    }
    assert s[0..] == s;
  }

  lemma SizedNext(fns: seq<nat>, left: nat, o: Options, e: Emitter)
    requires Sized(fns, left, o) && left > 0 && fns[|fns| - 1] == e.fnEmitted && e.left == left
    requires Splittable(e, o) && !Splits(e, o) && (e.stack == [] || Leading(e.stack) <= MOST_BLANKS)
    ensures Sized(fns[|fns| - 1 := e.fnEmitted + 1], left - 1, o)
  {
  }

  lemma CountSlots(e: Emitter, out: seq<Token>, plan: seq<Slot>, total: nat, o: Options)
    requires Slots(out) + e.stack == plan && e.left > 0
    requires |Slots(out)| + e.totSkipped + e.left <= total
    requires e.stack != [] ==> |Slots(out)| + e.totSkipped + e.left == total
    ensures var (f, t) := Count(e, o);
      && Slots(out + [t]) + f.stack == plan
      && |Slots(out + [t])| + f.totSkipped + f.left <= total
      && (f.stack != [] ==> |Slots(out + [t])| + f.totSkipped + f.left == total)
      && f.totSkipped == e.totSkipped + if t.Skip? then 1 else 0
  {
    TokenAppend(out, Count(e, o).1);
  }

  lemma CountTogether(e: Emitter, out: seq<Token>, o: Options)
    requires Together(out) && e.left > 0
    requires e.stack != [] && e.stack[0] == Blank ==> out != [] && out[|out| - 1].Emit?
    requires out != [] && out[|out| - 1].Emit? ==> !e.skipping
    ensures var (f, t) := Count(e, o);
      && Together(out + [t]) && (t.Emit? ==> !f.skipping)
      && (f.stack != [] && f.stack[0] == Blank ==> t.Emit? || f.stack == e.stack)
      && (t.Skip? ==> e.stack == [] || e.stack[0].Stmt?)
  {
    var more := out + [Count(e, o).1];
    forall k | 0 <= k < |more| && more[k] == Emit(Blank) ensures k > 0 && more[k - 1].Emit? {
      if k < |out| {
        assert out[k] == more[k] && more[k - 1] == out[k - 1];
      }
    }
  }

  lemma CountSplittable(e: Emitter, o: Options)
    requires Splittable(e, o) && !Splits(e, o) && e.left > 0 && Spaced(e.stack, MOST_BLANKS)
    requires e.stack != [] && e.stack[0] == Blank ==> !e.skipping
    ensures Splittable(Count(e, o).0, o) && Spaced(Count(e, o).0.stack, MOST_BLANKS)
    ensures e.stack == [] || Leading(e.stack) <= MOST_BLANKS
  {
    if e.stack != [] {
      SpacedRest(e.stack, MOST_BLANKS);
    }
    hide Spaced;
  }

  lemma InvCount(e: Emitter, out: seq<Token>, plan: seq<Slot>, total: nat, o: Options)
    requires Inv(e, out, plan, total, o) && !Splits(e, o) && e.left > 0
    ensures var (f, t) := Count(e, o); Inv(f, out + [t], plan, total, o)
  {
    hide Slots, Functions, Sum, Spaced, Skipped, Sized, Splittable, Splits, Together, Leading;
    TokenAppend(out, Count(e, o).1);
    SumLast(Functions(out));
    CountSlots(e, out, plan, total, o);
    CountTogether(e, out, o);
    CountSplittable(e, o);
    SizedNext(Functions(out), e.left, o, e);
  }

  /* ----- whole runs ----- */

  function Begin(plan: seq<Slot>, total: nat): Emitter { Emitter(plan, total, 0, 0, 0, true) }

  /** The loop's body: at most one split, then one instruction. */
  function Advance(e: Emitter, out: seq<Token>, o: Options): (r: (Emitter, seq<Token>))
    requires e.left > 0
    ensures r.0.left == e.left - 1
  {
    var (f, t) := Count(AtSplit(e, o), o);
    (f, if Splits(e, o) then out + [Split] + [t] else out + [t])
  }

  function Run(e: Emitter, out: seq<Token>, o: Options): (Emitter, seq<Token>)
    decreases e.left
  {
    if e.left == 0 then (e, out)
    else
      var (f, more) := Advance(e, out, o);
      Run(f, more, o)
  }

  lemma {:induction false} RunKeepsInv(e: Emitter, out: seq<Token>, plan: seq<Slot>, total: nat, o: Options)
    requires Inv(e, out, plan, total, o)
    ensures var (f, done) := Run(e, out, o); f.left == 0 && Inv(f, done, plan, total, o)
    decreases e.left
  {
    hide Inv, Count;
    if e.left > 0 {
      if Splits(e, o) {
        InvSplit(e, out, plan, total, o);
        InvCount(AtSplit(e, o), out + [Split], plan, total, o);
      } else {
        InvCount(e, out, plan, total, o);
      }
      var (f, more) := Advance(e, out, o);
      RunKeepsInv(f, more, plan, total, o);
    }
  }

  lemma OneSum(ns: seq<nat>)
    requires |ns| == 1
    ensures Sum(ns) == ns[0]
  {
    assert Sum(ns[..0]) == 0;
  }

  /**
   A block of `total` instructions takes a plan exactly when the plan and the skipped instructions fit; then every
   slot is emitted once and in order, blanks right behind their statements.  Every generated function is long
   enough to be one, and short enough not to trigger the compiler's optimisation of large functions.
   */
  lemma EmissionIsFaithful(plan: seq<Slot>, total: nat, o: Options)
    requires Spaced(plan, MOST_BLANKS) && (plan == [] || plan[0].Stmt?)
    requires o.minInstrs <= total && o.minInstrs <= MAX_FN_SIZE
    ensures var (f, out) := Run(Begin(plan, total), [], o);
      && (f.stack == [] <==> |plan| + Skipped(out) <= total)
      && (f.stack == [] ==> Slots(out) == plan)
      && f.totSkipped == Skipped(out)
      && Together(out) && Sum(Functions(out)) == total
      && forall k :: 0 <= k < |Functions(out)| ==> o.minInstrs <= Functions(out)[k] <= 112 + o.minInstrs
  {
    hide Run, Functions, Sum, Together, Skipped, Slots, Spaced;
    InvStart(plan, total, o);
    RunKeepsInv(Begin(plan, total), [], plan, total, o);
    var fns := Functions(Run(Begin(plan, total), [], o).1);
    if |fns| == 1 {
      OneSum(fns);
    }
  }

  /* ----- what every token is, from the tokens before it ----- */

  /** The tokens of the function that is being written. */
  function SinceSplit(out: seq<Token>): seq<Token> {
    if out == [] || out[|out| - 1] == Split then [] else SinceSplit(out[..|out| - 1]) + [out[|out| - 1]]
  }

  function Instructions(out: seq<Token>): nat {
    if out == [] then 0 else Instructions(out[..|out| - 1]) + if out[|out| - 1] == Split then 0 else 1
  }

  predicate OnlySkips(ts: seq<Token>) { forall i :: 0 <= i < |ts| ==> ts[i] == Skip }

  /**
   A function of more than 100 instructions ends before the next statement, if enough is left for another.  A function
   starts with the instructions that are not counted on, more of them while there are slots to emit; then come the
   slots, in order, and then fillers.
   */
  ghost predicate TokenIs(before: seq<Token>, t: Token, plan: seq<Slot>, total: nat, o: Options) {
    var here, n := SinceSplit(before), |Slots(before)|;
    if |here| > 100 && total - Instructions(before) > o.minInstrs && (n >= |plan| || plan[n].Stmt?) then t == Split
    else if OnlySkips(here) && |here| < o.skipInstrs + (if n < |plan| then o.prelude else 0) then t == Skip
    else if n < |plan| then t == Emit(plan[n])
    else t == Filler
  }

  /** The emitter's variables, in these terms. */
  ghost predicate Matches(e: Emitter, out: seq<Token>, plan: seq<Slot>, total: nat) {
    && |Slots(out)| <= |plan| && e.stack == plan[|Slots(out)|..]
    && e.left == total - Instructions(out) && e.fnEmitted == |SinceSplit(out)|
    && (e.skipping <==> OnlySkips(SinceSplit(out))) && (e.skipping ==> e.fnSkipped == |SinceSplit(out)|)
  }

  ghost predicate AllTokens(out: seq<Token>, plan: seq<Slot>, total: nat, o: Options) {
    forall k :: 0 <= k < |out| ==> TokenIs(out[..k], out[k], plan, total, o)
  }

  lemma TokenMore(out: seq<Token>, t: Token)
    ensures SinceSplit(out + [t]) == if t == Split then [] else SinceSplit(out) + [t]
    ensures Instructions(out + [t]) == Instructions(out) + if t == Split then 0 else 1
    ensures t != Split ==> (OnlySkips(SinceSplit(out + [t])) <==> OnlySkips(SinceSplit(out)) && t == Skip)
  {
    assert (out + [t])[..|out|] == out;
    var s := SinceSplit(out);
    assert forall i :: 0 <= i < |s| ==> (s + [t])[i] == s[i];
    assert (s + [t])[|s|] == t;
  }

  lemma AllTokensMore(out: seq<Token>, t: Token, plan: seq<Slot>, total: nat, o: Options)
    requires AllTokens(out, plan, total, o) && TokenIs(out, t, plan, total, o)
    ensures AllTokens(out + [t], plan, total, o)
  {
    hide TokenIs;
    var more := out + [t];
    forall k | 0 <= k < |more| ensures TokenIs(more[..k], more[k], plan, total, o) {
      if k < |out| {
        assert more[..k] == out[..k];
      } else {
        assert more[..k] == out;
      }
    }
  }

  lemma SplitMatches(e: Emitter, out: seq<Token>, plan: seq<Slot>, total: nat, o: Options)
    requires Matches(e, out, plan, total) && Splits(e, o)
    ensures Matches(AtSplit(e, o), out + [Split], plan, total) && TokenIs(out, Split, plan, total, o)
  {
    hide SinceSplit, Instructions, OnlySkips, Slots;
    TokenAppend(out, Split);
    TokenMore(out, Split);
    NoneSkips();
  }

  lemma NoneSkips()
    ensures OnlySkips([])
  {
  }

  lemma CountMatches(e: Emitter, out: seq<Token>, plan: seq<Slot>, total: nat, o: Options)
    requires Matches(e, out, plan, total) && !Splits(e, o) && e.left > 0
    ensures var (f, t) := Count(e, o); Matches(f, out + [t], plan, total) && TokenIs(out, t, plan, total, o)
  {
    hide SinceSplit, Instructions, OnlySkips, Slots;
    var (f, t) := Count(e, o);
    TokenAppend(out, t);
    TokenMore(out, t);
  }

  lemma {:induction false} RunMatches(e: Emitter, out: seq<Token>, plan: seq<Slot>, total: nat, o: Options)
    requires Matches(e, out, plan, total) && AllTokens(out, plan, total, o)
    ensures var (f, done) := Run(e, out, o); Matches(f, done, plan, total) && AllTokens(done, plan, total, o) && f.left == 0
    decreases e.left
  {
    hide Matches, AllTokens, TokenIs, Count, Splits;
    if e.left > 0 {
      LeftIs(e, out, plan, total);
      if Splits(e, o) {
        SplitMatches(e, out, plan, total, o);
        SplitOnce(e, o);
        AllTokensMore(out, Split, plan, total, o);
        CountMatches(AtSplit(e, o), out + [Split], plan, total, o);
        AllTokensMore(out + [Split], Count(AtSplit(e, o), o).1, plan, total, o);
      } else {
        CountMatches(e, out, plan, total, o);
        AllTokensMore(out, Count(e, o).1, plan, total, o);
      }
      var (f, more) := Advance(e, out, o);
      RunMatches(f, more, plan, total, o);
    }
  }

  lemma LeftIs(e: Emitter, out: seq<Token>, plan: seq<Slot>, total: nat)
    requires Matches(e, out, plan, total)
    ensures e.left == total - Instructions(out)
  {
  }

  lemma SplitOnce(e: Emitter, o: Options)
    requires Splits(e, o)
    ensures !Splits(AtSplit(e, o), o) && AtSplit(e, o).left == e.left
  {
  }

  /** Every token of a block is what the tokens before it call for, and there are as many as the block has instructions. */
  lemma EmissionIs(plan: seq<Slot>, total: nat, o: Options)
    ensures var out := Run(Begin(plan, total), [], o).1; AllTokens(out, plan, total, o) && Instructions(out) == total
  {
    hide Run;
    assert Matches(Begin(plan, total), [], plan, total);
    RunMatches(Begin(plan, total), [], plan, total, o);
  }

  /* ----- how many instructions are skipped ----- */

  /** The most that one function skips. */
  function SkipMost(o: Options): nat { o.skipInstrs + o.prelude }

  /** The most splits that `total` instructions allow: every function but the last is long, and the last is not too short. */
  function SplitMost(total: nat, o: Options): nat {
    if total <= o.minInstrs then 0 else (total - o.minInstrs - 1) / (MAX_FN_SIZE + 1)
  }

  /** Every function skips at most so much. */
  ghost predicate SkipsFew(e: Emitter, out: seq<Token>, o: Options) {
    e.fnSkipped <= SkipMost(o) && Skipped(out) <= SkipMost(o) * (|Functions(out)| - 1) + e.fnSkipped
  }

  /** The first slot comes only after a whole prelude was skipped. */
  ghost predicate SkipsFirst(e: Emitter, plan: seq<Slot>, o: Options) {
    e.totSkipped >= SkipMost(o) || (e.stack == plan && e.skipping && e.fnSkipped <= e.totSkipped)
  }

  lemma SkipSplit(e: Emitter, out: seq<Token>, o: Options)
    requires SkipsFew(e, out, o)
    ensures SkipsFew(e.(fnEmitted := 0, fnSkipped := 0, skipping := true), out + [Split], o)
  {
    hide SkipMost;
    TokenAppend(out, Split);
    var n, m := |Functions(out)| - 1, SkipMost(o);
    assert m * (n + 1) == m * n + m;
  }

  lemma SkipCount(e: Emitter, out: seq<Token>, o: Options)
    requires SkipsFew(e, out, o) && e.left > 0
    ensures var (f, t) := Count(e, o); SkipsFew(f, out + [t], o)
  {
    TokenAppend(out, Count(e, o).1);
  }

  lemma SkipAdvance(e: Emitter, out: seq<Token>, plan: seq<Slot>, o: Options)
    requires SkipsFew(e, out, o) && SkipsFirst(e, plan, o) && plan != [] && e.left > 0
    ensures var (f, more) := Advance(e, out, o); SkipsFew(f, more, o) && SkipsFirst(f, plan, o)
  {
    hide SkipsFew;
    if Splits(e, o) {
      SkipSplit(e, out, o);
      SkipCount(AtSplit(e, o), out + [Split], o);
    } else {
      SkipCount(e, out, o);
    }
  }

  lemma {:induction false} RunSkips(e: Emitter, out: seq<Token>, plan: seq<Slot>, o: Options)
    requires SkipsFew(e, out, o) && SkipsFirst(e, plan, o) && plan != []
    ensures var (f, done) := Run(e, out, o); SkipsFew(f, done, o) && SkipsFirst(f, plan, o)
    decreases e.left
  {
    hide SkipsFew, SkipsFirst, Advance;
    if e.left > 0 {
      SkipAdvance(e, out, plan, o);
      var (f, more) := Advance(e, out, o);
      RunSkips(f, more, plan, o);
    }
  }

  lemma {:induction false} LongSum(ns: seq<nat>, most: nat)
    requires forall k :: 0 <= k < |ns| ==> ns[k] >= most
    ensures Sum(ns) >= most * |ns|
  {
    if ns != [] {
      LongSum(ns[..|ns| - 1], most);
      assert most * |ns| == most * (|ns| - 1) + most;
    }
  }

  lemma FewFunctions(fns: seq<nat>, total: nat, o: Options)
    requires Sized(fns, 0, o) && Sum(fns) == total
    ensures |fns| - 1 <= SplitMost(total, o)
  {
    var n, x := |fns| - 1, fns[|fns| - 1];
    LongSum(fns[..n], MAX_FN_SIZE + 1);
    assert Sum(fns) == Sum(fns[..n]) + x;
    if n > 0 {
      var d := total - o.minInstrs - 1;
      assert d == Sum(fns[..n]) + (x - o.minInstrs - 1);
      assert (MAX_FN_SIZE + 1) * n <= d;
      assert n <= d / (MAX_FN_SIZE + 1);
    }
  }

  /**
   What can be said of a plan before it is emitted: it must leave room for what one function skips, and it fits if it
   leaves room for what all functions can skip.  For a block too short to be split these are the same.
   */
  lemma RoomForPlan(plan: seq<Slot>, total: nat, o: Options)
    requires Spaced(plan, MOST_BLANKS) && plan != [] && plan[0].Stmt?
    requires o.minInstrs <= total && o.minInstrs <= MAX_FN_SIZE
    ensures var f := Run(Begin(plan, total), [], o).0;
      && (f.stack == [] ==> |plan| + SkipMost(o) <= total)
      && (|plan| + SkipMost(o) * (1 + SplitMost(total, o)) <= total ==> f.stack == [])
    ensures total <= MAX_FN_SIZE + 1 + o.minInstrs ==>
      (Run(Begin(plan, total), [], o).0.stack == [] <==> |plan| + SkipMost(o) <= total)
  {
    hide Run, Functions, Sum, Together, Skipped, Slots, Spaced, Sized, SkipMost, SplitMost, Splittable, SkipsFew;
    var (f, out) := Run(Begin(plan, total), [], o);
    EmissionIsFaithful(plan, total, o);
    InvStart(plan, total, o);
    RunKeepsInv(Begin(plan, total), [], plan, total, o);
    FewFunctions(Functions(out), total, o);
    SkipStart(plan, total, o);
    RunSkips(Begin(plan, total), [], plan, o);
    FewSkips(f, out, SplitMost(total, o), o);
    if total <= MAX_FN_SIZE + 1 + o.minInstrs {
      ShortIsWhole(total, o);
    }
  }

  lemma SkipStart(plan: seq<Slot>, total: nat, o: Options)
    ensures SkipsFew(Begin(plan, total), [], o) && SkipsFirst(Begin(plan, total), plan, o)
  {
  }

  lemma MoreTimes(m: nat, a: nat, b: nat)
    requires a <= b
    ensures m * a <= m * b
  {
    assert m * b == m * a + m * (b - a);
  }

  lemma FewSkips(e: Emitter, out: seq<Token>, most: nat, o: Options)
    requires SkipsFew(e, out, o) && |Functions(out)| - 1 <= most
    ensures Skipped(out) <= SkipMost(o) * (1 + most)
  {
    hide SkipMost, Skipped, Functions;
    var m, n := SkipMost(o), |Functions(out)|;
    MoreTimes(m, n, 1 + most);
    assert m * n == m * (n - 1) + m;
  }

  lemma ShortIsWhole(total: nat, o: Options)
    requires total <= MAX_FN_SIZE + 1 + o.minInstrs
    ensures SplitMost(total, o) == 0 && SkipMost(o) * 1 == SkipMost(o)
  {
  }

  /** The first slot from `q` on. */
  lemma {:induction false} NextSlot(out: seq<Token>, q: nat) returns (m: nat)
    requires q <= |out| && |Slots(out[..q])| < |Slots(out)|
    ensures q <= m < |out| && out[m].Emit? && forall j :: q <= j < m ==> !out[j].Emit?
    ensures Slots(out)[|Slots(out[..q])|] == out[m].slot && Slots(out[..m]) == Slots(out[..q])
    decreases |out|
  {
    assert out[..|out|] == out;
    var before := out[..|out| - 1];
    assert before[..q] == out[..q];
    if |Slots(out[..q])| < |Slots(before)| {
      m := NextSlot(before, q);
      assert before[..m] == out[..m];
    } else {
      m := |out| - 1;
      SlotsGrow(before, q);
      forall j | q <= j < m ensures !out[j].Emit? {
        NoSlot(before, q, j);
      }
    }
  }

  lemma NoSlot(out: seq<Token>, q: nat, j: nat)
    requires q <= j < |out| && |Slots(out[..q])| == |Slots(out)|
    ensures !out[j].Emit?
  {
    SlotsGrow(out, j + 1);
    SlotsGrow(out[..j], q);
    assert out[..j + 1][..j] == out[..j] && out[..j][..q] == out[..q];
  }

  lemma {:induction false} SlotsGrow(out: seq<Token>, q: nat)
    requires q <= |out|
    ensures Slots(out[..q]) <= Slots(out)
    decreases |out|
  {
    if q == |out| {
      assert out[..q] == out;
    } else {
      assert out[..|out| - 1][..q] == out[..q];
      SlotsGrow(out[..|out| - 1], q);
    }
  }

  /** All of a statement's blanks come at once, with no split, skip or filler between. */
  lemma {:induction false} BlanksFollow(out: seq<Token>, k: nat, b: nat)
    requires Together(out) && k < |out| && out[k].Emit?
    requires |Slots(out[..k])| + b < |Slots(out)|
    requires forall i :: |Slots(out[..k])| < i <= |Slots(out[..k])| + b ==> Slots(out)[i] == Blank
    ensures k + b < |out| && forall i :: k < i <= k + b ==> out[i] == Emit(Blank)
    ensures |Slots(out[..k + b + 1])| == |Slots(out[..k])| + b + 1
    decreases b
  {
    if b == 0 {
      assert out[..k + 1][..k] == out[..k];
    } else {
      BlanksFollow(out, k, b - 1);
      var m := NextSlot(out, k + b);
      assert out[m] == Emit(Blank);
      assert m == k + b;
      assert out[..m + 1][..m] == out[..m];
    }
  }
}
