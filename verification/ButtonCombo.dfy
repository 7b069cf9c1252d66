/** The button code that the crash handler waits for, as an automaton over controller polls. */
module ButtonCombo {
  datatype Button =
    | A | B | Start | Z | L | R
    | UpPad | DownPad | LeftPad | RightPad
    | UpC | DownC | LeftC | RightC

  type Buttons = set<Button>

  /** One poll: the buttons held, the buttons newly pressed, and the clock. */
  datatype Poll = Poll(button: Buttons, trigger: Buttons, now: nat)

  /** `y` is 1 while all buttons must be released before the next step. */
  datatype State = State(x: int, y: int, start: nat)

  const INITIAL := State(0, 0, 0)

  const TWO_TO_64: nat := 0x1_0000_0000_0000_0000

  /** Microseconds for clock cycles, in the unsigned 64-bit arithmetic of the source. */
  function CyclesToUsec(cycles: nat, clockRate: nat): nat
    requires clockRate >= 15625
  {
    cycles * 64 % TWO_TO_64 / (clockRate / 15625)
  }

  /** The code was entered within fifty seconds. */
  predicate InTime(start: nat, now: nat, clockRate: nat)
    requires clockRate >= 15625
  {
    CyclesToUsec((now - start) % TWO_TO_64, clockRate) <= 50_000_000
  }

  /** The `switch` of the source, on a poll with a new press. */
  function Press(s: State, p: Poll, clockRate: nat): State
    requires clockRate >= 15625
  {
    match s.x
    case 0 => if p.button == {Z, R, L} && p.trigger == {Z} then State(1, 1, p.now) else s
    case 1 => s.(x := if p.trigger == {UpPad} then 2 else 0)
    case 2 => if p.trigger == {DownC} then s.(x := 3, y := 1) else s.(x := 0)
    case 3 => s.(x := if p.trigger == {UpC} then 4 else 0)
    case 4 => if p.trigger == {DownPad} then s.(x := 5, y := 1) else s.(x := 0)
    case 5 => s.(x := if p.trigger == {LeftPad} then 6 else 0)
    case 6 => if p.trigger == {LeftC} then s.(x := 7, y := 1) else s.(x := 0)
    case 7 => s.(x := if p.trigger == {RightC} then 8 else 0)
    case 8 => if p.trigger == {RightPad} then s.(x := 9, y := 1) else s.(x := 0)
    case 9 =>
      s.(x := if p.trigger == {A, B} then 10 else if p.trigger == {A} then 91 else if p.trigger == {B} then 92 else 0)
    case 91 => s.(x := if p.trigger == {B} then 10 else 0)
    case 92 => s.(x := if p.trigger == {A} then 10 else 0)
    case 10 =>
      s.(x := if p.button == {A, B, Start} && p.trigger == {Start} && InTime(s.start, p.now, clockRate) then 11 else 0)
    case _ => s
  }

  function Step(s: State, p: Poll, clockRate: nat): State
    requires clockRate >= 15625
  {
    if p.button == {} && s.y == 1 then s.(y := 0)
    else if p.trigger != {} then Press(if s.y == 1 then s.(x := 0) else s, p, clockRate)
    else s
  }

  /** The state after some polls; the loop ends at 11. */
  function Run(ps: seq<Poll>, clockRate: nat): State
    requires clockRate >= 15625
  {
    if ps == [] then INITIAL
    else
      var s := Run(ps[..|ps| - 1], clockRate);
      if s.x == 11 then s else Step(s, ps[|ps| - 1], clockRate)
  }

  /** The waiting loop, on as many polls as there are; it reports whether it ended. */
  method WaitButtonCombo(polls: seq<Poll>, clockRate: nat) returns (done: bool, used: nat)
    requires clockRate >= 15625
    ensures used <= |polls| && (done <==> Run(polls, clockRate).x == 11)
    ensures if done then used > 0 && Run(polls[..used], clockRate).x == 11 && Run(polls[..used - 1], clockRate).x != 11
            else used == |polls|
  {
    var x, y, start := 0, 0, 0;
    used := 0;
    while used < |polls| && x != 11
      invariant used <= |polls| && Run(polls[..used], clockRate) == State(x, y, start)
      invariant x == 11 ==> used > 0 && Run(polls[..used - 1], clockRate).x != 11
    {
      var p := polls[used];
      assert polls[..used + 1][..used] == polls[..used];
      var s := Step(State(x, y, start), p, clockRate);
      x, y, start := s.x, s.y, s.start;
      used := used + 1;
    }
    done := x == 11;
    if done {
      StaysDone(polls, used, clockRate);
    } else {
      assert polls[..used] == polls;
    }
  }

  lemma {:induction false} StaysDone(ps: seq<Poll>, n: nat, clockRate: nat)
    requires clockRate >= 15625 && n <= |ps| && Run(ps[..n], clockRate).x == 11
    ensures Run(ps, clockRate) == Run(ps[..n], clockRate)
  {
    if n == |ps| {
      assert ps[..n] == ps;
    } else {
      var before := ps[..|ps| - 1];
      assert before[..n] == ps[..n];
      StaysDone(before, n, clockRate);
    }
  }

  /* ----- presses, and releases between them ----- */

  /** A poll with a new press, and whether everything was released at some poll since the press before it. */
  datatype Event = Event(poll: Poll, released: bool)

  function ReleasedSince(ps: seq<Poll>): bool {
    ps != [] && var p := ps[|ps| - 1];
      p.trigger == {} && (p.button == {} || ReleasedSince(ps[..|ps| - 1]))
  }

  function Events(ps: seq<Poll>): seq<Event> {
    if ps == [] then []
    else
      var before, p := ps[..|ps| - 1], ps[|ps| - 1];
      if p.trigger == {} then Events(before) else Events(before) + [Event(p, ReleasedSince(before))]
  }

  /** The automaton over presses alone. */
  function Hear(s: State, e: Event, clockRate: nat): State
    requires clockRate >= 15625
  {
    if s.x == 11 then s
    else
      var s' := if e.released then s.(y := 0) else s;
      Press(if s'.y == 1 then s'.(x := 0) else s', e.poll, clockRate)
  }

  function Heard(es: seq<Event>, clockRate: nat): State
    requires clockRate >= 15625
  {
    if es == [] then INITIAL else Hear(Heard(es[..|es| - 1], clockRate), es[|es| - 1], clockRate)
  }

  /** A new press is of a button that is held. */
  predicate Consistent(ps: seq<Poll>) {
    forall i :: 0 <= i < |ps| ==> ps[i].trigger <= ps[i].button
  }

  predicate Reachable(s: State) {
    && s.y in {0, 1}
    && (s.x == 0 || (1 <= s.x <= 9 && (s.x % 2 == 0 ==> s.y == 0)) || (s.x in {10, 11, 91, 92} && s.y == 0))
  }

  lemma {:induction false} HeardIsReachable(es: seq<Event>, clockRate: nat)
    requires clockRate >= 15625
    ensures Reachable(Heard(es, clockRate))
  {
    if es != [] {
      HeardIsReachable(es[..|es| - 1], clockRate);
    }
  }

  /** Polls and presses drive the automaton alike. */
  lemma {:induction false} RunIsHeard(ps: seq<Poll>, clockRate: nat)
    requires clockRate >= 15625 && Consistent(ps)
    ensures
      var s := Heard(Events(ps), clockRate);
      Run(ps, clockRate) == if ReleasedSince(ps) && s.x != 11 then s.(y := 0) else s
  {
    if ps != [] {
      var before, p := ps[..|ps| - 1], ps[|ps| - 1];
      RunIsHeard(before, clockRate);
      HeardIsReachable(Events(before), clockRate);
      assert p.trigger != {} ==> p.button != {};
      assert p.trigger != {} ==> Events(ps)[..|Events(ps)| - 1] == Events(before);
    }
  }

  /* ----- the code ----- */

  predicate Opens(e: Event) { e.poll.button == {Z, R, L} && e.poll.trigger == {Z} }

  function Letter(i: nat): Buttons {
    match i
    case 1 => {UpPad}
    case 2 => {DownC}
    case 3 => {UpC}
    case 4 => {DownPad}
    case 5 => {LeftPad}
    case 6 => {LeftC}
    case 7 => {RightC}
    case 8 => {RightPad}
    case _ => {}
  }

  /** Z with L and R held, and then the next letters, every other one after a full release. */
  predicate Begun(w: seq<Event>, n: nat) {
    && 1 <= n <= 9 && n <= |w| && Opens(w[0])
    && forall i :: 1 <= i < n ==> w[i].poll.trigger == Letter(i) && (i % 2 == 1 ==> w[i].released)
  }

  /** After a full release, A and B together or one after the other. */
  predicate Chord(w: seq<Event>) {
    && |w| in {10, 11} && Begun(w, 9) && w[9].released
    && (if |w| == 10 then w[9].poll.trigger == {A, B}
        else (w[9].poll.trigger, w[10].poll.trigger) in {({A}, {B}), ({B}, {A})})
  }

  /**
   Fifty seconds at most, and the rest of a microsecond: 64 units for a cycle of the 64-bit clock, `clockRate / 15625`
   of which are a microsecond.
   */
  predicate FiftySeconds(start: nat, now: nat, clockRate: nat) {
    (now - start) % 0x1_0000_0000_0000_0000 * 64 % 0x1_0000_0000_0000_0000 < 50_000_001 * (clockRate / 15625)
  }

  lemma TimesUp(a: int, b: int, r: nat)
    requires a <= b
    ensures a * r <= b * r
  {
    assert b * r == a * r + (b - a) * r;
  }

  lemma DividesBelow(x: nat, r: nat, n: nat)
    requires r > 0
    ensures x / r < n <==> x < n * r
  {
    var q := x / r;
    assert x == q * r + x % r;
    if q < n {
      TimesUp(q + 1, n, r);
      assert (q + 1) * r == q * r + r;
    } else {
      TimesUp(n, q, r);
    }
  }

  lemma InTimeIs(start: nat, now: nat, clockRate: nat)
    requires clockRate >= 15625
    ensures InTime(start, now, clockRate) <==> FiftySeconds(start, now, clockRate)
  {
    var x := (now - start) % TWO_TO_64 * 64 % TWO_TO_64;
    DividesBelow(x, clockRate / 15625, 50_000_001);
  }

  /** In seconds: before the clock wraps around, and for clocks of whole multiples of 15625 Hz. */
  lemma FiftySecondsIs(start: nat, now: nat, clockRate: nat)
    requires clockRate > 0 && clockRate % 15625 == 0 && start <= now && 64 * (now - start) < 0x1_0000_0000_0000_0000
    ensures FiftySeconds(start, now, clockRate) <==> (now - start) * 1_000_000 < 50_000_001 * clockRate
  {
    var c, r := now - start, clockRate / 15625;
    assert c % 0x1_0000_0000_0000_0000 == c && c * 64 % 0x1_0000_0000_0000_0000 == c * 64;
    assert clockRate == r * 15625;
  }

  predicate Spells(w: seq<Event>, clockRate: nat)
    requires clockRate >= 15625
  {
    && |w| in {11, 12} && Chord(w[..|w| - 1])
    && var last := w[|w| - 1].poll;
       last.button == {A, B, Start} && last.trigger == {Start} && FiftySeconds(w[0].poll.now, last.now, clockRate)
  }

  /** The automaton is not in the middle of a code when press `k` comes, so that a Z there opens one. */
  predicate Ready(es: seq<Event>, k: nat, clockRate: nat)
    requires clockRate >= 15625 && k < |es|
  {
    var s := Heard(es[..k], clockRate);
    s.x == 0 || (s.y == 1 && !es[k].released)
  }

  /** The presses that put an automaton in the middle of a code there. */
  predicate Tells(w: seq<Event>, s: State) {
    && w != [] && s.start == w[0].poll.now
    && (if 1 <= s.x <= 9 then |w| == s.x && Begun(w, s.x) && s.y == s.x % 2
        else if s.x == 10 then s.y == 0 && Chord(w)
        else s.x in {91, 92} && s.y == 0 && |w| == 10 && Begun(w, 9) && w[9].released
             && w[9].poll.trigger == if s.x == 91 then {A} else {B})
  }

  /** One press in the middle of a code: the next state is told by one press more, or is 0, or a code just opened. */
  lemma HearTells(w: seq<Event>, s: State, e: Event, clockRate: nat)
    requires clockRate >= 15625 && Tells(w, s)
    ensures
      var t := Hear(s, e, clockRate);
      || t.x == 0
      || (t.x == 11 && Spells(w + [e], clockRate))
      || (t.x != 11 && Tells(w + [e], t))
      || (t == State(1, 1, e.poll.now) && Opens(e) && s.y == 1 && !e.released)
  {
    hide InTime, FiftySeconds;
    InTimeIs(s.start, e.poll.now, clockRate);
    var v := w + [e];
    assert v[..|w|] == w;
    if 1 <= s.x <= 8 {
      assert Begun(w, s.x) ==> forall i :: 1 <= i < s.x ==> v[i] == w[i];
    }
  }

  /** Soundness: whatever state is reached, the presses since an opening Z account for it. */
  lemma {:induction false} Sound(es: seq<Event>, clockRate: nat) returns (k: nat, n: nat)
    requires clockRate >= 15625
    ensures Heard(es, clockRate).x != 0 ==> k < n <= |es| && Ready(es, k, clockRate)
    ensures Heard(es, clockRate).x == 11 ==> Spells(es[k..n], clockRate)
    ensures Heard(es, clockRate).x !in {0, 11} ==> n == |es| && Tells(es[k..], Heard(es, clockRate))
  {
    hide Hear, Spells, Tells, Begun, Chord;
    k, n := 0, |es|;
    if es != [] {
      var before, e := es[..|es| - 1], es[|es| - 1];
      var s, t := Heard(before, clockRate), Heard(es, clockRate);
      var k', n' := Sound(before, clockRate);
      assert es[..|es| - 1] == before;
      if s.x == 11 {
        HearDone(s, e, clockRate);
        k, n := k', n';
        assert before[k..n] == es[k..n] && es[..k] == before[..k];
      } else if s.x == 0 {
        k := |es| - 1;
        assert es[k..] == [e];
        HearFirst(s, e, clockRate);
      } else {
        HearTells(before[k'..], s, e, clockRate);
        assert before[k'..] + [e] == es[k'..] && es[..k'] == before[..k'] && es[k'..n] == es[k'..];
        if t == State(1, 1, e.poll.now) && Opens(e) && s.y == 1 && !e.released {
          k := |es| - 1;
          assert es[k..] == [e];
          HearFirst(s, e, clockRate);
        } else {
          k := k';
        }
      }
    }
  }

  lemma HearDone(s: State, e: Event, clockRate: nat)
    requires clockRate >= 15625 && s.x == 11
    ensures Hear(s, e, clockRate).x == 11
  {
  }

  /** A state that is not in the middle of a code stays so, or a code opens. */
  lemma HearFirst(s: State, e: Event, clockRate: nat)
    requires clockRate >= 15625
    requires s.x == 0 || (Hear(s, e, clockRate) == State(1, 1, e.poll.now) && Opens(e))
    ensures var t := Hear(s, e, clockRate); t.x != 11 && (t.x != 0 ==> Tells([e], t))
  {
  }

  lemma HearLetter(s: State, e: Event, j: nat, clockRate: nat)
    requires clockRate >= 15625 && 1 <= j <= 8 && s.x == j && s.y == j % 2
    requires e.poll.trigger == Letter(j) && (j % 2 == 1 ==> e.released)
    ensures Hear(s, e, clockRate) == State(j + 1, (j + 1) % 2, s.start)
  {
  }

  lemma HearZ(es: seq<Event>, k: nat, clockRate: nat)
    requires clockRate >= 15625 && k < |es| && Ready(es, k, clockRate) && Opens(es[k])
    ensures Hear(Heard(es[..k], clockRate), es[k], clockRate) == State(1, 1, es[k].poll.now)
  {
    hide Heard;
    HeardIsReachable(es[..k], clockRate);
  }

  lemma HeardNext(es: seq<Event>, n: nat, clockRate: nat)
    requires clockRate >= 15625 && n < |es|
    ensures Heard(es[..n + 1], clockRate) == Hear(Heard(es[..n], clockRate), es[n], clockRate)
  {
    assert es[..n + 1][..n] == es[..n];
  }

  /** Completeness, letter by letter. */
  lemma {:induction false} FollowsLetters(es: seq<Event>, k: nat, j: nat, clockRate: nat)
    requires clockRate >= 15625 && 1 <= j <= 9 && k + j <= |es|
    requires Ready(es, k, clockRate) && Begun(es[k..], j)
    ensures Heard(es[..k + j], clockRate) == State(j, j % 2, es[k].poll.now)
  {
    hide Heard, Hear, Ready, Letter, Opens;
    HeardNext(es, k + j - 1, clockRate);
    assert es[k..][j - 1] == es[k + j - 1];
    if j == 1 {
      HearZ(es, k, clockRate);
    } else {
      FollowsLetters(es, k, j - 1, clockRate);
      HearLetter(Heard(es[..k + j - 1], clockRate), es[k + j - 1], j - 1, clockRate);
    }
  }

  lemma FollowsChord(es: seq<Event>, k: nat, n: nat, clockRate: nat)
    requires clockRate >= 15625 && k < n <= |es|
    requires Ready(es, k, clockRate) && Chord(es[k..n])
    ensures Heard(es[..n], clockRate) == State(10, 0, es[k].poll.now)
  {
    var w := es[k..n];
    assert forall i :: 0 <= i < |w| ==> w[i] == es[k..][i];
    FollowsLetters(es, k, 9, clockRate);
    assert es[..k + 10][..k + 9] == es[..k + 9] && es[..k + 10][k + 9] == w[9];
    if |w| == 11 {
      assert es[..n][..k + 10] == es[..k + 10] && es[..n][k + 10] == w[10];
    }
  }

  lemma {:induction false} StaysHeard(es: seq<Event>, n: nat, clockRate: nat)
    requires clockRate >= 15625 && n <= |es| && Heard(es[..n], clockRate).x == 11
    ensures Heard(es, clockRate).x == 11
  {
    if n == |es| {
      assert es[..n] == es;
    } else {
      var before := es[..|es| - 1];
      assert before[..n] == es[..n];
      StaysHeard(before, n, clockRate);
    }
  }

  lemma Complete(es: seq<Event>, k: nat, n: nat, clockRate: nat)
    requires clockRate >= 15625 && k < n <= |es|
    requires Ready(es, k, clockRate) && Spells(es[k..n], clockRate)
    ensures Heard(es, clockRate).x == 11
  {
    hide InTime, FiftySeconds;
    var w := es[k..n];
    assert w[..|w| - 1] == es[k..n - 1] && w[|w| - 1] == es[n - 1];
    FollowsChord(es, k, n - 1, clockRate);
    InTimeIs(w[0].poll.now, w[|w| - 1].poll.now, clockRate);
    assert es[..n][..n - 1] == es[..n - 1];
    assert es[..n][n - 1] == es[n - 1];
    StaysHeard(es, n, clockRate);
  }

  /* ----- when a Z opens a code, in terms of the presses alone ----- */

  /** So far the presses are the beginning of a code, or the whole of it but for Start. */
  predicate UnderWay(w: seq<Event>) {
    || (1 <= |w| <= 9 && Begun(w, |w|))
    || (|w| == 10 && Begun(w, 9) && w[9].released && w[9].poll.trigger in {{A}, {B}})
    || Chord(w)
  }

  /** A code under way keeps `e` from opening another, unless it waits for a release that did not come. */
  predicate Blocks(w: seq<Event>, e: Event) {
    UnderWay(w) && (|w| <= 9 && |w| % 2 == 1 ==> e.released)
  }

  /** Press `k` can open a code: no earlier Z that could do so has its code under way there, or complete. */
  ghost predicate Free(es: seq<Event>, k: nat, clockRate: nat)
    requires clockRate >= 15625 && k < |es|
    decreases k
  {
    forall j: nat :: j < k && Opens(es[j]) && Free(es, j, clockRate) ==>
      !Blocks(es[j..k], es[k]) && forall n: nat :: j < n <= k ==> !Spells(es[j..n], clockRate)
  }

  lemma FollowsHalf(es: seq<Event>, k: nat, clockRate: nat)
    requires clockRate >= 15625 && k + 10 <= |es| && Ready(es, k, clockRate)
    requires Begun(es[k..], 9) && es[k + 9].released && es[k + 9].poll.trigger in {{A}, {B}}
    ensures Heard(es[..k + 10], clockRate) == State(if es[k + 9].poll.trigger == {A} then 91 else 92, 0, es[k].poll.now)
  {
    FollowsLetters(es, k, 9, clockRate);
    assert es[..k + 10][..k + 9] == es[..k + 9];
  }

  lemma BegunPart(es: seq<Event>, k: nat, n: nat, j: nat)
    requires k <= n <= |es| && Begun(es[k..n], j)
    ensures Begun(es[k..], j) && Opens(es[k])
  {
    assert forall i :: 0 <= i < n - k ==> es[k..n][i] == es[k..][i];
  }

  lemma FollowsUnderWay(es: seq<Event>, k: nat, n: nat, clockRate: nat)
    requires clockRate >= 15625 && k < n <= |es| && Ready(es, k, clockRate) && UnderWay(es[k..n])
    ensures var s := Heard(es[..n], clockRate); s.x !in {0, 11} && s.y == if n - k <= 9 then (n - k) % 2 else 0
  {
    hide Begun, Heard, Ready;
    var w := es[k..n];
    if Chord(w) {
      FollowsChord(es, k, n, clockRate);
    } else if |w| == 10 {
      BegunPart(es, k, n, 9);
      assert w[9] == es[k + 9];
      FollowsHalf(es, k, clockRate);
    } else {
      BegunPart(es, k, n, n - k);
      FollowsLetters(es, k, n - k, clockRate);
    }
  }

  lemma SpellsOpens(es: seq<Event>, k: nat, n: nat, clockRate: nat)
    requires clockRate >= 15625 && k < n <= |es| && Spells(es[k..n], clockRate)
    ensures Opens(es[k])
  {
    assert es[k..n][..n - k - 1] == es[k..n - 1];
    BegunPart(es, k, n - 1, 9);
  }

  lemma TellsUnderWay(w: seq<Event>, s: State)
    requires Tells(w, s)
    ensures UnderWay(w) && Opens(w[0]) && s.x != 11 && (|w| <= 9 ==> s.y == |w| % 2)
  {
  }

  /** What is under way or complete at `k` explains why the automaton is not ready. */
  lemma BusyIsNotFree(es: seq<Event>, k: nat, clockRate: nat) returns (j: nat, n: nat)
    requires clockRate >= 15625 && k < |es| && !Ready(es, k, clockRate)
    ensures j < n <= k && Ready(es, j, clockRate) && Opens(es[j])
    ensures Blocks(es[j..k], es[k]) || Spells(es[j..n], clockRate)
  {
    hide Heard, Spells, Tells, UnderWay;
    j, n := Sound(es[..k], clockRate);
    var s := Heard(es[..k], clockRate);
    assert es[..k][..j] == es[..j] && es[..k][j..n] == es[j..n] && es[..k][j..] == es[j..k];
    if s.x == 11 {
      SpellsOpens(es, j, n, clockRate);
    } else {
      TellsUnderWay(es[j..k], s);
    }
  }

  lemma NotReadyAfter(es: seq<Event>, j: nat, k: nat, n: nat, clockRate: nat)
    requires clockRate >= 15625 && j < n <= k < |es| && Ready(es, j, clockRate)
    requires Blocks(es[j..k], es[k]) || Spells(es[j..n], clockRate)
    ensures !Ready(es, k, clockRate)
  {
    hide Heard, Spells, UnderWay;
    if Spells(es[j..n], clockRate) {
      assert es[..k][j..n] == es[j..n] && es[..k][..j] == es[..j];
      Complete(es[..k], j, n, clockRate);
      HeardIsReachable(es[..k], clockRate);
    } else {
      FollowsUnderWay(es, j, k, clockRate);
    }
  }

  /** The automaton is ready for a Z exactly when the presses before leave it free. */
  lemma {:induction false} FreeIsReady(es: seq<Event>, k: nat, clockRate: nat)
    requires clockRate >= 15625 && k < |es|
    ensures Free(es, k, clockRate) <==> Ready(es, k, clockRate)
    decreases k
  {
    hide Ready, Heard, Spells, Blocks, Opens;
    forall j: nat | j < k ensures Free(es, j, clockRate) <==> Ready(es, j, clockRate) {
      FreeIsReady(es, j, clockRate);
    }
    if Ready(es, k, clockRate) {
      forall j: nat | j < k && Opens(es[j]) && Free(es, j, clockRate)
        ensures !Blocks(es[j..k], es[k]) && forall n: nat :: j < n <= k ==> !Spells(es[j..n], clockRate)
      {
        if Blocks(es[j..k], es[k]) {
          NotReadyAfter(es, j, k, k, clockRate);
        }
        forall n: nat | j < n <= k ensures !Spells(es[j..n], clockRate) {
          if Spells(es[j..n], clockRate) {
            NotReadyAfter(es, j, k, n, clockRate);
          }
        }
      }
    } else {
      var j, n := BusyIsNotFree(es, k, clockRate);
    }
  }

  /**
   The loop ends exactly when the presses contain the code, spelled without interruption from a Z that came
   when no other code was in progress.
   */
  lemma ComboIsTheCode(ps: seq<Poll>, clockRate: nat)
    requires clockRate >= 15625 && Consistent(ps)
    ensures
      var es := Events(ps);
      Run(ps, clockRate).x == 11 <==>
        exists k: nat, n: nat :: k < n <= |es| && Free(es, k, clockRate) && Spells(es[k..n], clockRate)
  {
    hide Run, Heard, Free, Ready, Spells;
    var es := Events(ps);
    RunIsHeard(ps, clockRate);
    if Heard(es, clockRate).x == 11 {
      var k, n := Sound(es, clockRate);
      FreeIsReady(es, k, clockRate);
    }
    if k: nat, n: nat :| k < n <= |es| && Free(es, k, clockRate) && Spells(es[k..n], clockRate) {
      FreeIsReady(es, k, clockRate);
      Complete(es, k, n, clockRate);
    }
  }

  /* ----- a code that starts inside another is missed ----- */

  lemma {:induction false} NothingOpens(es: seq<Event>, k: nat, clockRate: nat)
    requires clockRate >= 15625 && k <= |es| && Heard(es[..k], clockRate).x == 0
    requires forall i :: k <= i < |es| ==> !Opens(es[i])
    ensures Heard(es, clockRate).x == 0
  {
    if k == |es| {
      assert es[..k] == es;
    } else {
      var before := es[..|es| - 1];
      assert before[..k] == es[..k];
      NothingOpens(before, k, clockRate);
    }
  }

  /** After a false start, a Z and a first letter, the whole code goes unheard. */
  lemma FalseStart(z: Event, up: Event, w: seq<Event>, clockRate: nat)
    requires clockRate >= 15625 && Begun([z, up], 2) && Spells(w, clockRate)
    ensures Heard([z, up] + w, clockRate).x == 0
  {
    var es := [z, up] + w;
    assert es[..1] == [z] && es[..2] == [z, up] && es[..3] == [z, up, w[0]];
    assert es[..2][..1] == es[..1] && es[..3][..2] == es[..2];
    assert Heard(es[..1], clockRate).x == 1;
    assert Heard(es[..2], clockRate) == State(2, 0, z.poll.now);
    assert Heard(es[..3], clockRate).x == 0;
    forall i | 3 <= i < |es| ensures !Opens(es[i]) {
      assert es[i] == w[i - 2];
      LettersDoNotOpen(w, i - 2, clockRate);
    }
    NothingOpens(es, 3, clockRate);
  }

  lemma LettersDoNotOpen(w: seq<Event>, i: nat, clockRate: nat)
    requires clockRate >= 15625 && Spells(w, clockRate) && 1 <= i < |w|
    ensures !Opens(w[i])
  {
    var c := w[..|w| - 1];
    if i < |c| {
      assert w[i] == c[i];
      assert i < 9 ==> c[i].poll.trigger == Letter(i);
    }
  }
}
