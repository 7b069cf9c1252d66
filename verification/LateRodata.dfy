/**
 Late rodata: the words of assembled constants, moved onto the placeholders that the compiler laid out for
 them, and the jump tables moved behind those.
 */
module LateRodata {
  import opened Bytes

  datatype Result<+T> = Ok(value: T) | Failed

  /** One function's placeholders, as they stand in the object, and the bytes of jump table that follow. */
  datatype Function = Function(placeholders: seq<seq<Byte>>, tableSize: nat)

  predicate Valid(f: Function) {
    f.tableSize % 4 == 0 && forall i :: 0 <= i < |f.placeholders| ==> |f.placeholders[i]| == 4
  }

  function Words(fs: seq<Function>): nat {
    if fs == [] then 0
    else Words(fs[..|fs| - 1]) + |fs[|fs| - 1].placeholders| + fs[|fs| - 1].tableSize / 4
  }

  predicate WordAt(data: seq<Byte>, i: nat, w: seq<Byte>) { i + |w| <= |data| && data[i..i + |w|] == w }

  /** The first position from `i` on where `w` stands. */
  function Find(data: seq<Byte>, w: seq<Byte>, i: nat): (r: Result<nat>)
    ensures r.Ok? ==> r.value >= i && WordAt(data, r.value, w) && forall j :: i <= j < r.value ==> !WordAt(data, j, w)
    ensures r.Failed? ==> forall j :: i <= j ==> !WordAt(data, j, w)
    decreases |data| - i
  {
    if i + |w| > |data| then Failed
    else if WordAt(data, i, w) then Ok(i)
    else if i == |data| then Failed
    else Find(data, w, i + 1)
  }

  /** Assignment to a slice of a list, which can grow at its end. */
  function Splice(data: seq<Byte>, at: nat, s: seq<Byte>): (r: seq<Byte>)
    requires at <= |data|
    ensures |r| == if at + |s| <= |data| then |data| else at + |s|
    ensures forall i :: 0 <= i < |r| ==> r[i] == if at <= i < at + |s| then s[i - at] else data[i]
  {
    data[..at] + s + if at + |s| <= |data| then data[at + |s|..] else []
  }

  lemma SpliceKeeps(data: seq<Byte>, at: nat, s: seq<Byte>, i: nat, w: seq<Byte>)
    requires at <= |data| && WordAt(data, i, w) && i + |w| <= at
    ensures WordAt(Splice(data, at, s), i, w)
  {
    assert Splice(data, at, s)[..at] == data[..at];
    assert data[i..i + |w|] == data[..at][i..i + |w|];
    assert Splice(data, at, s)[i..i + |w|] == Splice(data, at, s)[..at][i..i + |w|];
  }

  lemma SplicePlaces(data: seq<Byte>, at: nat, s: seq<Byte>)
    requires at <= |data|
    ensures WordAt(Splice(data, at, s), at, s)
  {
  }

  /** Progress: the data so far, where each source word went, which words were cleared, and where source and target stand. */
  datatype Progress = Progress(data: seq<Byte>, moved: map<nat, nat>, cleared: set<nat>, source: nat, last: nat)

  function SourceWord(source: seq<Byte>, k: nat): (w: seq<Byte>)
    requires k + 4 <= |source|
    ensures |w| == 4
  {
    source[k..k + 4]
  }

  /** Exactly the source words from `start` up to `end` are moved, in order and without overlap, between `first` and `last`. */
  ghost predicate Ordered(moved: map<nat, nat>, start: nat, end: nat, first: nat, last: nat) {
    && start <= end && (end - start) % 4 == 0 && first <= last
    && (forall k :: k in moved <==> start <= k < end && (k - start) % 4 == 0)
    && (forall k :: k in moved ==> first <= moved[k] && moved[k] + 4 <= last)
    && (forall a, b :: a in moved && b in moved && a < b ==> moved[a] + 4 <= moved[b])
  }

  /** Every moved word is intact at its new place. */
  ghost predicate Intact(data: seq<Byte>, moved: map<nat, nat>, source: seq<Byte>) {
    forall k :: k in moved ==>
      k + 4 <= |source| && moved[k] + 4 <= |data| && data[moved[k]..moved[k] + 4] == source[k..k + 4]
  }

  ghost predicate Covered(moved: map<nat, nat>, i: nat) {
    exists k :: k in moved && moved[k] <= i < moved[k] + 4
  }

  ghost predicate Cleared(cleared: set<nat>, i: nat) {
    exists c :: c in cleared && c <= i < c + 4
  }

  /** Every byte that holds no moved word is zero where a word was cleared, and otherwise as it was. */
  ghost predicate Kept(data: seq<Byte>, target: seq<Byte>, moved: map<nat, nat>, cleared: set<nat>) {
    && |target| <= |data|
    && forall i :: 0 <= i < |data| && !Covered(moved, i) ==>
      if Cleared(cleared, i) then data[i] == 0 else i < |target| && data[i] == target[i]
  }

  ghost predicate Inv(p: Progress, target: seq<Byte>, source: seq<Byte>, start: nat, first: nat) {
    && p.source <= |source| && p.last <= |p.data|
    && Ordered(p.moved, start, p.source, first, p.last)
    && Intact(p.data, p.moved, source)
    && Kept(p.data, target, p.moved, p.cleared)
    && forall c :: c in p.cleared ==> first <= c
  }

  /** The source word goes to `at`. */
  function PlaceWord(p: Progress, source: seq<Byte>, at: nat): Progress
    requires p.source + 4 <= |source| && at <= |p.data|
  {
    Progress(Splice(p.data, at, SourceWord(source, p.source)), p.moved[p.source := at], p.cleared, p.source + 4, at + 4)
  }

  lemma PlaceKeepsOrder(moved: map<nat, nat>, start: nat, end: nat, first: nat, last: nat, at: nat)
    requires Ordered(moved, start, end, first, last) && last <= at
    ensures Ordered(moved[end := at], start, end + 4, first, at + 4)
  {
    var m := moved[end := at];
    forall k: nat ensures k in m <==> start <= k < end + 4 && (k - start) % 4 == 0 {
      if end < k < end + 4 {
        assert (k - start) % 4 == (k - end) % 4;
      }
    }
  }

  lemma SpliceKeepsIntact(data: seq<Byte>, moved: map<nat, nat>, source: seq<Byte>, at: nat, s: seq<Byte>)
    requires Intact(data, moved, source) && at <= |data| && forall k :: k in moved ==> moved[k] + 4 <= at
    ensures Intact(Splice(data, at, s), moved, source)
  {
    forall k | k in moved ensures WordAt(Splice(data, at, s), moved[k], SourceWord(source, k)) {
      SpliceKeeps(data, at, s, moved[k], SourceWord(source, k));
    }
  }

  lemma CoverGrows(moved: map<nat, nat>, k: nat, at: nat, i: nat)
    requires k !in moved && Covered(moved, i)
    ensures Covered(moved[k := at], i)
  {
    var j :| j in moved && moved[j] <= i < moved[j] + 4;
    assert j in moved[k := at];
  }

  lemma PlaceKeepsRest(data: seq<Byte>, target: seq<Byte>, moved: map<nat, nat>, cleared: set<nat>, k: nat, at: nat, w: seq<Byte>)
    requires Kept(data, target, moved, cleared) && k !in moved && at <= |data| && |w| == 4
    ensures Kept(Splice(data, at, w), target, moved[k := at], cleared)
  {
    hide Cleared;
    var after := Splice(data, at, w);
    forall i | 0 <= i < |after| && !Covered(moved[k := at], i)
      ensures if Cleared(cleared, i) then after[i] == 0 else i < |target| && after[i] == target[i]
    {
      assert !(at <= i < at + 4) by {
        assert k in moved[k := at];
      }
      if Covered(moved, i) {
        CoverGrows(moved, k, at, i);
      }
    }
  }

  lemma PlaceWordKeepsInv(p: Progress, target: seq<Byte>, source: seq<Byte>, start: nat, first: nat, at: nat)
    requires Inv(p, target, source, start, first) && p.source + 4 <= |source|
    requires p.last <= at <= |p.data|
    ensures Inv(PlaceWord(p, source, at), target, source, start, first)
  {
    var w := SourceWord(source, p.source);
    PlaceKeepsOrder(p.moved, start, p.source, first, p.last, at);
    SpliceKeepsIntact(p.data, p.moved, source, at, w);
    SplicePlaces(p.data, at, w);
    PlaceKeepsRest(p.data, target, p.moved, p.cleared, p.source, at, w);
    hide Splice, Ordered, Kept, WordAt, SourceWord;
  }

  const ZERO_WORD: seq<Byte> := [0, 0, 0, 0]

  /** The word at `at` becomes zero. */
  function ClearWord(p: Progress, at: nat): Progress
    requires at <= |p.data|
  {
    p.(data := Splice(p.data, at, ZERO_WORD), cleared := p.cleared + {at})
  }

  lemma ClearedMore(cleared: set<nat>, at: nat, i: nat)
    ensures Cleared(cleared + {at}, i) <==> Cleared(cleared, i) || at <= i < at + 4
  {
    assert at in cleared + {at};
    if c :| c in cleared && c <= i < c + 4 {
      assert c in cleared + {at};
    }
  }

  lemma ClearKeepsRest(data: seq<Byte>, target: seq<Byte>, moved: map<nat, nat>, cleared: set<nat>, at: nat)
    requires Kept(data, target, moved, cleared) && at <= |data|
    ensures Kept(Splice(data, at, ZERO_WORD), target, moved, cleared + {at})
  {
    hide Cleared, Covered;
    var after := Splice(data, at, ZERO_WORD);
    forall i | 0 <= i < |after| && !Covered(moved, i)
      ensures if Cleared(cleared + {at}, i) then after[i] == 0 else i < |target| && after[i] == target[i]
    {
      ClearedMore(cleared, at, i);
    }
  }

  lemma ClearKeepsInv(p: Progress, target: seq<Byte>, source: seq<Byte>, start: nat, first: nat, at: nat)
    requires Inv(p, target, source, start, first) && p.last <= at <= |p.data|
    ensures Inv(ClearWord(p, at), target, source, start, first)
  {
    SpliceKeepsIntact(p.data, p.moved, source, at, ZERO_WORD);
    ClearKeepsRest(p.data, target, p.moved, p.cleared, at);
    hide Ordered, Intact, Kept;
  }

  /* ----- where every word goes ----- */

  datatype Track = Track(moved: map<nat, nat>, cleared: set<nat>, source: nat, last: nat)

  function TrackOf(p: Progress): Track { Track(p.moved, p.cleared, p.source, p.last) }

  function Put(t: Track, at: nat): Track { t.(moved := t.moved[t.source := at], source := t.source + 4, last := at + 4) }

  /** To the first place of its placeholder behind the word before, or 4 bytes on, clearing that place. */
  function AfterWord(target: seq<Byte>, f: Function, index: nat, t: Track): Result<Track>
    requires index < |f.placeholders|
  {
    var found := Find(target, f.placeholders[index], t.last);
    if found.Failed? then Failed
    else if index == 0 && |f.placeholders| > 1 && WordAt(target, found.value + 4, ZERO_WORD) then
      Ok(Put(t.(cleared := t.cleared + {found.value}), found.value + 4))
    else Ok(Put(t, found.value))
  }

  function AfterWords(target: seq<Byte>, f: Function, n: nat, t: Track): Result<Track>
    requires n <= |f.placeholders|
  {
    if n == 0 then Ok(t)
    else
      var before := AfterWords(target, f, n - 1, t);
      if before.Failed? then Failed else AfterWord(target, f, n - 1, before.value)
  }

  /** The words of a jump table stay together. */
  function AfterTable(t: Track, n: nat): (u: Track)
    ensures u.source == t.source + 4 * n && u.last == t.last + 4 * n && u.cleared == t.cleared
  {
    if n == 0 then t
    else
      var u := AfterTable(t, n - 1);
      Put(u, u.last)
  }

  function AfterFunction(target: seq<Byte>, f: Function, t: Track): Result<Track> {
    var words := AfterWords(target, f, |f.placeholders|, t);
    if words.Failed? || (f.tableSize > 0 && f.placeholders == []) then Failed else Ok(AfterTable(words.value, f.tableSize / 4))
  }

  function AfterFunctions(target: seq<Byte>, fs: seq<Function>, n: nat, t: Track): Result<Track>
    requires n <= |fs|
  {
    if n == 0 then Ok(t)
    else
      var before := AfterFunctions(target, fs, n - 1, t);
      if before.Failed? then Failed else AfterFunction(target, fs[n - 1], before.value)
  }

  /** Once a placeholder is missing, the whole function fails, and with it the whole move. */
  lemma {:induction false} WordsFail(target: seq<Byte>, f: Function, k: nat, n: nat, t: Track)
    requires k <= n <= |f.placeholders| && AfterWords(target, f, k, t).Failed?
    ensures AfterWords(target, f, n, t).Failed?
  {
    hide AfterWord;
    if k < n {
      WordsFail(target, f, k, n - 1, t);
    }
  }

  lemma {:induction false} FunctionsFail(target: seq<Byte>, fs: seq<Function>, k: nat, n: nat, t: Track)
    requires k <= n <= |fs| && AfterFunctions(target, fs, k, t).Failed?
    ensures AfterFunctions(target, fs, n, t).Failed?
  {
    hide AfterFunction;
    if k < n {
      FunctionsFail(target, fs, k, n - 1, t);
    }
  }

  /* ----- the same places, said of the bytes alone ----- */

  /** The four bytes `w` stand at `p`. */
  predicate Stands(data: seq<Byte>, p: nat, w: seq<Byte>) { p + 4 <= |data| && data[p..p + 4] == w }

  /** `p` is the first place from `from` on where `w` stands. */
  ghost predicate FirstFrom(data: seq<Byte>, w: seq<Byte>, from: nat, p: nat) {
    from <= p && Stands(data, p, w) && forall q: nat :: from <= q < p ==> !Stands(data, q, w)
  }

  /** The first of several placeholders, with a zero word behind it: double alignment pushed the float off. */
  predicate Pushed(target: seq<Byte>, f: Function, j: nat, p: nat) {
    j == 0 && |f.placeholders| > 1 && Stands(target, p + 4, [0, 0, 0, 0])
  }

  /** Where the source word before `k` ends in the target. */
  function EndBefore(m: map<nat, nat>, start: nat, first: nat, k: nat): nat {
    if k >= start + 4 && k - 4 in m then m[k - 4] + 4 else first
  }

  /** The source word at `k` is on placeholder `j`, which is found behind the word before, or on the zero word behind that. */
  ghost predicate WordHome(target: seq<Byte>, f: Function, j: nat, m: map<nat, nat>, start: nat, first: nat, k: nat)
    requires j < |f.placeholders|
  {
    k in m && exists p: nat ::
      && FirstFrom(target, f.placeholders[j], EndBefore(m, start, first, k), p)
      && m[k] == if Pushed(target, f, j, p) then p + 4 else p
  }

  /** The source word at `k` directly follows the word before. */
  ghost predicate TableHome(m: map<nat, nat>, start: nat, first: nat, k: nat) {
    k in m && m[k] == EndBefore(m, start, first, k)
  }

  /** The first `n` words of a function whose words start at `k`. */
  ghost predicate WordsHome(target: seq<Byte>, f: Function, n: nat, m: map<nat, nat>, start: nat, first: nat, k: nat)
    requires n <= |f.placeholders|
  {
    forall j: nat :: j < n ==> WordHome(target, f, j, m, start, first, k + 4 * j)
  }

  ghost predicate FunctionHome(target: seq<Byte>, f: Function, m: map<nat, nat>, start: nat, first: nat, k: nat) {
    && WordsHome(target, f, |f.placeholders|, m, start, first, k)
    && (f.tableSize > 0 ==> f.placeholders != [])
    && forall n: nat :: n < f.tableSize / 4 ==> TableHome(m, start, first, k + 4 * |f.placeholders| + 4 * n)
  }

  /** Where the words of function `i` start in the source. */
  function FunctionStart(fs: seq<Function>, i: nat, start: nat): nat
    requires i <= |fs|
  {
    start + 4 * Words(fs[..i])
  }

  /** The first `n` functions. */
  ghost predicate Home(target: seq<Byte>, fs: seq<Function>, n: nat, m: map<nat, nat>, start: nat, first: nat)
    requires n <= |fs|
  {
    forall i: nat :: i < n ==> FunctionHome(target, fs[i], m, start, first, FunctionStart(fs, i, start))
  }

  /** All is home up to placeholder `j` of function `n`, and that is nowhere to be found; or its table has no placeholder. */
  ghost predicate Stuck(target: seq<Byte>, fs: seq<Function>, n: nat, j: nat, m: map<nat, nat>, start: nat, first: nat) {
    && n < |fs| && j <= |fs[n].placeholders| && Home(target, fs, n, m, start, first)
    && var k := FunctionStart(fs, n, start);
       && WordsHome(target, fs[n], j, m, start, first, k)
       && if j < |fs[n].placeholders| then
            forall p: nat :: EndBefore(m, start, first, k + 4 * j) <= p ==> !Stands(target, p, fs[n].placeholders[j])
          else fs[n].tableSize > 0 && j == 0
  }

  /** The word at `c` was the first placeholder of a function, and its float went to the word behind. */
  ghost predicate ClearsAt(target: seq<Byte>, f: Function, m: map<nat, nat>, start: nat, first: nat, k: nat, c: nat) {
    && |f.placeholders| > 1 && k in m && m[k] == c + 4
    && FirstFrom(target, f.placeholders[0], EndBefore(m, start, first, k), c) && Pushed(target, f, 0, c)
  }

  ghost predicate ClearedBy(target: seq<Byte>, fs: seq<Function>, n: nat, m: map<nat, nat>, start: nat, first: nat, c: nat)
    requires n <= |fs|
  {
    exists i: nat :: i < n && ClearsAt(target, fs[i], m, start, first, FunctionStart(fs, i, start), c)
  }

  /** `m` agrees with what was moved so far. */
  ghost predicate Within(t: Track, m: map<nat, nat>) {
    forall k :: k in t.moved ==> k in m && m[k] == t.moved[k]
  }

  /** A track that started at `start` and `first`. */
  ghost predicate Follows(t: Track, start: nat, first: nat) {
    && start <= t.source && (forall k :: k in t.moved ==> k < t.source)
    && (t.source == start || (t.source >= start + 4 && t.source - 4 in t.moved))
    && t.last == EndBefore(t.moved, start, first, t.source)
  }

  lemma PutFollows(t: Track, at: nat, start: nat, first: nat)
    requires Follows(t, start, first)
    ensures Follows(Put(t, at), start, first) && Within(t, Put(t, at).moved)
    ensures t.source in Put(t, at).moved && Put(t, at).moved[t.source] == at
  {
  }

  lemma SameEnd(t: Track, m: map<nat, nat>, start: nat, first: nat)
    requires Follows(t, start, first) && Within(t, m)
    ensures t.source == start || t.source >= start + 4
    ensures EndBefore(m, start, first, t.source) == t.last
  {
  }

  lemma WithinThrough(t: Track, u: Track, m: map<nat, nat>)
    requires Within(t, u.moved) && Within(u, m)
    ensures Within(t, m)
  {
  }

  lemma FindsFirst(target: seq<Byte>, w: seq<Byte>, from: nat)
    requires |w| == 4
    ensures var found := Find(target, w, from);
      if found.Ok? then FirstFrom(target, w, from, found.value) else forall p: nat :: from <= p ==> !Stands(target, p, w)
  {
    var found := Find(target, w, from);
    assert forall p: nat :: WordAt(target, p, w) <==> Stands(target, p, w);
  }

  lemma OneFirst(target: seq<Byte>, w: seq<Byte>, from: nat, p: nat, q: nat)
    requires FirstFrom(target, w, from, p) && FirstFrom(target, w, from, q)
    ensures p == q
  {
  }

  /** What one step does, in these terms. */
  lemma AfterWordIs(target: seq<Byte>, f: Function, j: nat, t: Track)
    requires Valid(f) && j < |f.placeholders|
    ensures var u := AfterWord(target, f, j, t);
      if u.Failed? then forall p: nat :: t.last <= p ==> !Stands(target, p, f.placeholders[j])
      else exists p: nat :: FirstFrom(target, f.placeholders[j], t.last, p)
             && u.value == (if Pushed(target, f, j, p) then Put(t.(cleared := t.cleared + {p}), p + 4) else Put(t, p))
  {
    hide Put, FirstFrom, Find;
    var w := f.placeholders[j];
    FindsFirst(target, w, t.last);
    var found := Find(target, w, t.last);
    if found.Ok? {
      assert WordAt(target, found.value + 4, ZERO_WORD) <==> Stands(target, found.value + 4, [0, 0, 0, 0]);
    }
  }

  /** A word that is placed is home. */
  lemma WordGoesHome(target: seq<Byte>, f: Function, j: nat, t: Track, m: map<nat, nat>, start: nat, first: nat)
    requires Valid(f) && j < |f.placeholders| && Follows(t, start, first) && AfterWord(target, f, j, t).Ok?
    requires Within(AfterWord(target, f, j, t).value, m)
    ensures var u := AfterWord(target, f, j, t).value;
      && Follows(u, start, first) && u.source == t.source + 4 && Within(t, m)
      && WordHome(target, f, j, m, start, first, t.source)
      && forall c :: c in u.cleared <==> c in t.cleared || (j == 0 && ClearsAt(target, f, m, start, first, t.source, c))
  {
    hide FirstFrom, AfterWord, Follows, Within, EndBefore, Pushed;
    var u := AfterWord(target, f, j, t).value;
    AfterWordIs(target, f, j, t);
    var w := f.placeholders[j];
    var p: nat :| FirstFrom(target, w, t.last, p)
      && u == (if Pushed(target, f, j, p) then Put(t.(cleared := t.cleared + {p}), p + 4) else Put(t, p));
    var at := if Pushed(target, f, j, p) then p + 4 else p;
    PutFollows(t, at, start, first);
    SameMoved(Put(t, at), u, start, first);
    WithinThrough(t, u, m);
    WithinAt(u, m, t.source);
    SameEnd(t, m, start, first);
    forall c: nat ensures c in u.cleared <==> c in t.cleared || (j == 0 && ClearsAt(target, f, m, start, first, t.source, c)) {
      PushedIs(target, f, j, c);
      PushedIs(target, f, j, p);
      if FirstFrom(target, w, t.last, c) {
        OneFirst(target, w, t.last, p, c);
      }
    }
  }

  lemma PushedIs(target: seq<Byte>, f: Function, j: nat, p: nat)
    ensures Pushed(target, f, j, p) ==> j == 0 && |f.placeholders| > 1 && Pushed(target, f, 0, p)
  {
  }

  lemma SameMoved(t: Track, u: Track, start: nat, first: nat)
    requires u.moved == t.moved && u.source == t.source && u.last == t.last
    ensures Follows(u, start, first) <==> Follows(t, start, first)
  {
  }

  lemma WithinAt(t: Track, m: map<nat, nat>, k: nat)
    requires Within(t, m) && k in t.moved
    ensures k in m && m[k] == t.moved[k]
  {
  }

  lemma {:induction false} WordsGoHome(target: seq<Byte>, f: Function, n: nat, t: Track, m: map<nat, nat>, start: nat, first: nat)
    requires Valid(f) && n <= |f.placeholders| && Follows(t, start, first) && AfterWords(target, f, n, t).Ok?
    requires Within(AfterWords(target, f, n, t).value, m)
    ensures var u := AfterWords(target, f, n, t).value;
      && Follows(u, start, first) && u.source == t.source + 4 * n && Within(t, m)
      && WordsHome(target, f, n, m, start, first, t.source)
      && forall c :: c in u.cleared <==> c in t.cleared || (n > 0 && ClearsAt(target, f, m, start, first, t.source, c))
  {
    hide AfterWord, Follows, Within, WordHome, ClearsAt;
    if n > 0 {
      var before := AfterWords(target, f, n - 1, t).value;
      WordsGoHome(target, f, n - 1, t, before.moved, start, first) by {
        WithinItself(before);
      }
      WordGoesHome(target, f, n - 1, before, m, start, first);
      WordsGoHome(target, f, n - 1, t, m, start, first);
    }
  }

  lemma WithinItself(t: Track)
    ensures Within(t, t.moved)
  {
  }

  lemma PutGoesHome(t: Track, m: map<nat, nat>, start: nat, first: nat)
    requires Follows(t, start, first) && Within(Put(t, t.last), m)
    ensures Follows(Put(t, t.last), start, first) && Within(t, m) && TableHome(m, start, first, t.source)
  {
    hide Follows, Within, EndBefore;
    PutFollows(t, t.last, start, first);
    WithinThrough(t, Put(t, t.last), m);
    WithinAt(Put(t, t.last), m, t.source);
    SameEnd(t, m, start, first);
  }

  lemma {:induction false} TableGoesHome(t: Track, n: nat, m: map<nat, nat>, start: nat, first: nat)
    requires Follows(t, start, first) && Within(AfterTable(t, n), m)
    ensures Follows(AfterTable(t, n), start, first) && Within(t, m)
    ensures forall i: nat :: i < n ==> TableHome(m, start, first, t.source + 4 * i)
  {
    hide Follows, Within, TableHome, Put;
    if n > 0 {
      var before := AfterTable(t, n - 1);
      WithinItself(before);
      TableGoesHome(t, n - 1, before.moved, start, first);
      PutGoesHome(before, m, start, first);
      TableGoesHome(t, n - 1, m, start, first);
    }
  }

  lemma FunctionGoesHome(target: seq<Byte>, f: Function, t: Track, m: map<nat, nat>, start: nat, first: nat)
    requires Valid(f) && Follows(t, start, first) && AfterFunction(target, f, t).Ok?
    requires Within(AfterFunction(target, f, t).value, m)
    ensures var u := AfterFunction(target, f, t).value;
      && Follows(u, start, first) && u.source == t.source + 4 * |f.placeholders| + f.tableSize && Within(t, m)
      && FunctionHome(target, f, m, start, first, t.source)
      && forall c :: c in u.cleared <==> c in t.cleared || ClearsAt(target, f, m, start, first, t.source, c)
  {
    hide AfterWords, Follows, Within, WordsHome, TableHome;
    var words := AfterWords(target, f, |f.placeholders|, t).value;
    WithinItself(words);
    WordsGoHome(target, f, |f.placeholders|, t, words.moved, start, first);
    TableGoesHome(words, f.tableSize / 4, m, start, first);
    WordsGoHome(target, f, |f.placeholders|, t, m, start, first);
  }

  lemma FunctionStartNext(fs: seq<Function>, n: nat, start: nat)
    requires n < |fs| && Valid(fs[n])
    ensures FunctionStart(fs, n + 1, start) == FunctionStart(fs, n, start) + 4 * |fs[n].placeholders| + fs[n].tableSize
    ensures FunctionStart(fs, 0, start) == start
  {
    assert fs[..n + 1][..n] == fs[..n] && fs[..0] == [];
  }

  lemma TrackStarts(start: nat, first: nat)
    ensures Follows(Track(map[], {}, start, first), start, first)
  {
  }

  lemma {:induction false} FunctionsGoHome(target: seq<Byte>, fs: seq<Function>, n: nat, m: map<nat, nat>, start: nat, first: nat)
    requires (forall f :: f in fs ==> Valid(f)) && n <= |fs|
    requires AfterFunctions(target, fs, n, Track(map[], {}, start, first)).Ok?
    requires Within(AfterFunctions(target, fs, n, Track(map[], {}, start, first)).value, m)
    ensures var u := AfterFunctions(target, fs, n, Track(map[], {}, start, first)).value;
      && Follows(u, start, first) && u.source == FunctionStart(fs, n, start)
      && Home(target, fs, n, m, start, first)
      && forall c :: c in u.cleared <==> ClearedBy(target, fs, n, m, start, first, c)
  {
    hide AfterFunction, Follows, Within, FunctionHome, ClearsAt, FunctionStart, Valid;
    var none := Track(map[], {}, start, first);
    if n == 0 {
      TrackStarts(start, first);
      NoFunctions(fs, start);
    } else {
      assert fs[n - 1] in fs;
      var before := AfterFunctions(target, fs, n - 1, none).value;
      WithinItself(before);
      FunctionsGoHome(target, fs, n - 1, before.moved, start, first);
      FunctionGoesHome(target, fs[n - 1], before, m, start, first);
      FunctionsGoHome(target, fs, n - 1, m, start, first);
      FunctionStartNext(fs, n - 1, start);
      var u := AfterFunctions(target, fs, n, none).value;
      forall c ensures c in u.cleared <==> ClearedBy(target, fs, n, m, start, first, c) {
        ClearedNext(target, fs, n - 1, m, start, first, c);
      }
    }
  }

  lemma NoFunctions(fs: seq<Function>, start: nat)
    ensures FunctionStart(fs, 0, start) == start
  {
    assert fs[..0] == [];
  }

  lemma ClearedNext(target: seq<Byte>, fs: seq<Function>, n: nat, m: map<nat, nat>, start: nat, first: nat, c: nat)
    requires n < |fs|
    ensures ClearedBy(target, fs, n + 1, m, start, first, c) <==>
      ClearedBy(target, fs, n, m, start, first, c) || ClearsAt(target, fs[n], m, start, first, FunctionStart(fs, n, start), c)
  {
    hide ClearsAt, FunctionStart;
  }

  /* ----- and what is home is found ----- */

  lemma HomeWordFollows(target: seq<Byte>, f: Function, j: nat, t: Track, m: map<nat, nat>, start: nat, first: nat)
    requires Valid(f) && j < |f.placeholders| && Follows(t, start, first) && Within(t, m)
    requires WordHome(target, f, j, m, start, first, t.source)
    ensures AfterWord(target, f, j, t).Ok?
    ensures var u := AfterWord(target, f, j, t).value;
      Follows(u, start, first) && Within(u, m) && u.source == t.source + 4
  {
    hide FirstFrom, AfterWord, Follows, EndBefore, Pushed, Within;
    AfterWordIs(target, f, j, t);
    SameEnd(t, m, start, first);
    var w, k := f.placeholders[j], t.source;
    var p: nat :| FirstFrom(target, w, t.last, p) && m[k] == if Pushed(target, f, j, p) then p + 4 else p;
    FirstStands(target, w, t.last, p);
    var u := AfterWord(target, f, j, t).value;
    var q: nat :| FirstFrom(target, w, t.last, q)
      && u == (if Pushed(target, f, j, q) then Put(t.(cleared := t.cleared + {q}), q + 4) else Put(t, q));
    OneFirst(target, w, t.last, p, q);
    var at := if Pushed(target, f, j, p) then p + 4 else p;
    PutFollows(t, at, start, first);
    SameMoved(Put(t, at), u, start, first);
    PutWithin(t, u, m, at);
  }

  lemma FirstStands(target: seq<Byte>, w: seq<Byte>, from: nat, p: nat)
    requires FirstFrom(target, w, from, p)
    ensures from <= p && Stands(target, p, w)
  {
  }

  lemma PutWithin(t: Track, u: Track, m: map<nat, nat>, at: nat)
    requires Within(t, m) && t.source in m && m[t.source] == at && u.moved == t.moved[t.source := at]
    ensures Within(u, m)
  {
  }

  lemma {:induction false} HomeWordsFollow(target: seq<Byte>, f: Function, n: nat, t: Track, m: map<nat, nat>, start: nat,
                                           first: nat)
    requires Valid(f) && n <= |f.placeholders| && Follows(t, start, first) && Within(t, m)
    requires WordsHome(target, f, n, m, start, first, t.source)
    ensures AfterWords(target, f, n, t).Ok?
    ensures var u := AfterWords(target, f, n, t).value;
      Follows(u, start, first) && Within(u, m) && u.source == t.source + 4 * n
  {
    hide AfterWord, Follows, Within, WordHome;
    if n > 0 {
      HomeWordsFollow(target, f, n - 1, t, m, start, first);
      HomeWordFollows(target, f, n - 1, AfterWords(target, f, n - 1, t).value, m, start, first);
    }
  }

  lemma {:induction false} HomeTableFollows(t: Track, n: nat, m: map<nat, nat>, start: nat, first: nat)
    requires Follows(t, start, first) && Within(t, m)
    requires forall i: nat :: i < n ==> TableHome(m, start, first, t.source + 4 * i)
    ensures Follows(AfterTable(t, n), start, first) && Within(AfterTable(t, n), m)
  {
    hide Follows, Within, EndBefore, TableHome;
    if n > 0 {
      HomeTableFollows(t, n - 1, m, start, first);
      var u := AfterTable(t, n - 1);
      assert TableHome(m, start, first, t.source + 4 * (n - 1));
      TablePut(u, m, start, first);
    }
  }

  lemma TablePut(u: Track, m: map<nat, nat>, start: nat, first: nat)
    requires Follows(u, start, first) && Within(u, m) && TableHome(m, start, first, u.source)
    ensures Follows(Put(u, u.last), start, first) && Within(Put(u, u.last), m)
  {
    hide Follows, Within, EndBefore;
    SameEnd(u, m, start, first);
    PutFollows(u, u.last, start, first);
    PutWithin(u, Put(u, u.last), m, u.last);
  }

  lemma {:induction false} HomeFunctionsFollow(target: seq<Byte>, fs: seq<Function>, n: nat, m: map<nat, nat>, start: nat,
                                               first: nat)
    requires (forall f :: f in fs ==> Valid(f)) && n <= |fs| && Home(target, fs, n, m, start, first)
    ensures AfterFunctions(target, fs, n, Track(map[], {}, start, first)).Ok?
    ensures var u := AfterFunctions(target, fs, n, Track(map[], {}, start, first)).value;
      Follows(u, start, first) && Within(u, m) && u.source == FunctionStart(fs, n, start)
  {
    hide AfterWords, Follows, Within, FunctionStart, WordsHome, TableHome, Valid;
    if n == 0 {
      TrackStarts(start, first);
      NoFunctions(fs, start);
      WithinNone(start, first, m);
    } else {
      var f := fs[n - 1];
      assert f in fs;
      HomeFunctionsFollow(target, fs, n - 1, m, start, first);
      var t := AfterFunctions(target, fs, n - 1, Track(map[], {}, start, first)).value;
      assert FunctionHome(target, f, m, start, first, t.source);
      HomeWordsFollow(target, f, |f.placeholders|, t, m, start, first);
      var u := AfterWords(target, f, |f.placeholders|, t).value;
      HomeTableFollows(u, f.tableSize / 4, m, start, first);
      FunctionStartNext(fs, n - 1, start);
      TableBytes(f);
    }
  }

  lemma TableBytes(f: Function)
    requires Valid(f)
    ensures 4 * (f.tableSize / 4) == f.tableSize
  {
  }

  lemma WithinNone(start: nat, first: nat, m: map<nat, nat>)
    ensures Within(Track(map[], {}, start, first), m)
  {
  }

  /** Whoever is stuck fails. */
  lemma StuckFails(target: seq<Byte>, fs: seq<Function>, n: nat, j: nat, m: map<nat, nat>, start: nat, first: nat)
    requires (forall f :: f in fs ==> Valid(f)) && Stuck(target, fs, n, j, m, start, first)
    ensures AfterFunctions(target, fs, |fs|, Track(map[], {}, start, first)).Failed?
  {
    hide AfterWord, Follows, Within, FunctionStart, WordsHome, FunctionHome, Home, Valid, Stands, EndBefore;
    var f := fs[n];
    assert f in fs;
    HomeFunctionsFollow(target, fs, n, m, start, first);
    var t := AfterFunctions(target, fs, n, Track(map[], {}, start, first)).value;
    HomeWordsFollow(target, f, j, t, m, start, first);
    var u := AfterWords(target, f, j, t).value;
    if j < |f.placeholders| {
      SameEnd(u, m, start, first);
      AfterWordIs(target, f, j, u);
      if AfterWord(target, f, j, u).Ok? {
        var p: nat :| FirstFrom(target, f.placeholders[j], u.last, p);
        FirstStands(target, f.placeholders[j], u.last, p);
      }
      WordsFail(target, f, j + 1, |f.placeholders|, t);
    }
    FunctionsFail(target, fs, n + 1, |fs|, Track(map[], {}, start, first));
  }

  /** The first placeholder that is missing. */
  lemma {:induction false} MissingWord(target: seq<Byte>, f: Function, n: nat, t: Track) returns (j: nat)
    requires n <= |f.placeholders| && AfterWords(target, f, n, t).Failed?
    ensures j < n && AfterWords(target, f, j, t).Ok? && AfterWord(target, f, j, AfterWords(target, f, j, t).value).Failed?
  {
    hide AfterWord;
    if AfterWords(target, f, n - 1, t).Failed? {
      j := MissingWord(target, f, n - 1, t);
    } else {
      j := n - 1;
    }
  }

  /** And whoever fails is stuck somewhere. */
  lemma {:induction false} FailsStuck(target: seq<Byte>, fs: seq<Function>, n: nat, start: nat, first: nat)
    returns (i: nat, j: nat, m: map<nat, nat>)
    requires (forall f :: f in fs ==> Valid(f)) && n <= |fs|
    requires AfterFunctions(target, fs, n, Track(map[], {}, start, first)).Failed?
    ensures Stuck(target, fs, i, j, m, start, first)
  {
    hide AfterWord, AfterWords, Follows, Within, FunctionStart, WordsHome, Home, Valid, Stands, EndBefore;
    var none := Track(map[], {}, start, first);
    if AfterFunctions(target, fs, n - 1, none).Failed? {
      i, j, m := FailsStuck(target, fs, n - 1, start, first);
    } else {
      var t, f := AfterFunctions(target, fs, n - 1, none).value, fs[n - 1];
      assert f in fs;
      i := n - 1;
      WithinItself(t);
      FunctionsGoHome(target, fs, i, t.moved, start, first);
      if AfterWords(target, f, |f.placeholders|, t).Failed? {
        j := MissingWord(target, f, |f.placeholders|, t);
        var u := AfterWords(target, f, j, t).value;
        m := u.moved;
        WithinItself(u);
        WordsGoHome(target, f, j, t, m, start, first);
        FunctionsGoHome(target, fs, i, m, start, first);
        AfterWordIs(target, f, j, u);
        SameEnd(u, m, start, first);
      } else {
        j, m := 0, t.moved;
        NoWords(target, f, m, start, first, t.source);
      }
    }
  }

  lemma NoWords(target: seq<Byte>, f: Function, m: map<nat, nat>, start: nat, first: nat, k: nat)
    ensures WordsHome(target, f, 0, m, start, first, k)
  {
  }

  /** One placeholder: found from where the last word ended; a float pushed off by double alignment moves along. */
  method MovePlaceholder(p: Progress, target: seq<Byte>, source: seq<Byte>, f: Function, index: nat,
                         ghost start: nat, ghost first: nat)
    returns (r: Result<Progress>)
    requires Inv(p, target, source, start, first) && Valid(f) && index < |f.placeholders| && p.source + 4 <= |source|
    ensures r.Failed? <==> AfterWord(target, f, index, TrackOf(p)).Failed?
    ensures r.Ok? ==> Inv(r.value, target, source, start, first) && r.value.source == p.source + 4
    ensures r.Ok? ==> TrackOf(r.value) == AfterWord(target, f, index, TrackOf(p)).value
  {
    hide Ordered, Intact, Splice;
    var found := Find(target, f.placeholders[index], p.last);
    if found.Failed? {
      return Failed;
    }
    var at, q := found.value, p;
    if index == 0 && |f.placeholders| > 1 && WordAt(target, at + 4, ZERO_WORD) {
      ClearKeepsInv(q, target, source, start, first, at);
      q := ClearWord(q, at);
      at := at + 4;
    }
    PlaceWordKeepsInv(q, target, source, start, first, at);
    r := Ok(PlaceWord(q, source, at));
  }

  /** A jump table follows the last placeholder, its words staying together. */
  method MoveTable(p: Progress, target: seq<Byte>, source: seq<Byte>, size: nat, ghost start: nat, ghost first: nat)
    returns (q: Progress)
    requires Inv(p, target, source, start, first) && size % 4 == 0 && p.source + size <= |source|
    ensures Inv(q, target, source, start, first) && TrackOf(q) == AfterTable(TrackOf(p), size / 4)
  {
    hide Ordered, Intact, Kept, Splice;
    q := p;
    for i := 0 to size / 4
      invariant Inv(q, target, source, start, first) && TrackOf(q) == AfterTable(TrackOf(p), i)
    {
      PlaceWordKeepsInv(q, target, source, start, first, q.last);
      q := PlaceWord(q, source, q.last);
    }
  }

  /* ----- all the functions ----- */

  /** One more placeholder of a function. */
  lemma WordsNext(target: seq<Byte>, f: Function, n: nat, t: Track, u: Track)
    requires n < |f.placeholders| && AfterWords(target, f, n, t) == Ok(u)
    ensures AfterWords(target, f, n + 1, t) == AfterWord(target, f, n, u)
  {
    hide AfterWord;
  }

  method MoveWords(p: Progress, target: seq<Byte>, source: seq<Byte>, f: Function, ghost start: nat, ghost first: nat)
    returns (r: Result<Progress>)
    requires Inv(p, target, source, start, first) && Valid(f) && p.source + 4 * |f.placeholders| <= |source|
    ensures r.Ok? ==> Inv(r.value, target, source, start, first) && r.value.source == p.source + 4 * |f.placeholders|
    ensures r.Failed? <==> AfterWords(target, f, |f.placeholders|, TrackOf(p)).Failed?
    ensures r.Ok? ==> TrackOf(r.value) == AfterWords(target, f, |f.placeholders|, TrackOf(p)).value
  {
    var q := p;
    WordsNone(target, f, TrackOf(p));
    hide *;
    for index := 0 to |f.placeholders|
      invariant Inv(q, target, source, start, first) && q.source == p.source + 4 * index
      invariant AfterWords(target, f, index, TrackOf(p)) == Ok(TrackOf(q))
    {
      WordsNext(target, f, index, TrackOf(p), TrackOf(q));
      var step := MovePlaceholder(q, target, source, f, index, start, first);
      if step.Failed? {
        WordsFail(target, f, index + 1, |f.placeholders|, TrackOf(p));
        return Failed;
      }
      q := step.value;
    }
    r := Ok(q);
  }

  lemma WordsNone(target: seq<Byte>, f: Function, t: Track)
    ensures AfterWords(target, f, 0, t) == Ok(t)
  {
  }

  /** All of one function's placeholders, then its jump table. */
  method MoveFunction(p: Progress, target: seq<Byte>, source: seq<Byte>, f: Function, ghost start: nat, ghost first: nat)
    returns (r: Result<Progress>)
    requires Inv(p, target, source, start, first) && Valid(f)
    requires p.source + 4 * |f.placeholders| + f.tableSize <= |source|
    ensures r.Ok? ==> Inv(r.value, target, source, start, first)
    ensures r.Ok? ==> r.value.source == p.source + 4 * |f.placeholders| + f.tableSize
    ensures r.Failed? <==> AfterFunction(target, f, TrackOf(p)).Failed?
    ensures r.Ok? ==> TrackOf(r.value) == AfterFunction(target, f, TrackOf(p)).value
  {
    hide Inv, AfterWords;
    assert f.tableSize % 4 == 0;
    var words := MoveWords(p, target, source, f, start, first);
    if words.Failed? {
      return Failed;
    }
    var q := words.value;
    if f.tableSize > 0 {
      if f.placeholders == [] {
        return Failed;
      }
      q := MoveTable(q, target, source, f.tableSize, start, first);
    }
    r := Ok(q);
  }

  lemma FunctionsNext(target: seq<Byte>, fs: seq<Function>, n: nat, t: Track, u: Track)
    requires n < |fs| && AfterFunctions(target, fs, n, t) == Ok(u)
    ensures AfterFunctions(target, fs, n + 1, t) == AfterFunction(target, fs[n], u)
  {
    hide AfterFunction;
  }

  lemma {:induction false} WordsSplit(fs: seq<Function>, i: nat)
    requires i <= |fs|
    ensures Words(fs[..i]) <= Words(fs)
    decreases |fs| - i
  {
    if i < |fs| {
      assert fs[..i + 1][..i] == fs[..i];
      WordsSplit(fs, i + 1);
    } else {
      assert fs[..i] == fs;
    }
  }

  /**
   What the move has done: every word is home, in source order and without overlap, behind `first`, and holds its
   source word.  Every other byte is as it was, but for first placeholders whose float was pushed off: those are zero.
   */
  ghost predicate Moved(target: seq<Byte>, source: seq<Byte>, start: nat, end: nat, fs: seq<Function>, first: nat,
                        data: seq<Byte>, m: map<nat, nat>) {
    && Home(target, fs, |fs|, m, start, first)
    && Ordered(m, start, end, first, EndBefore(m, start, first, end))
    && Intact(data, m, source)
    && exists cleared ::
         Kept(data, target, m, cleared) && forall c :: c in cleared <==> ClearedBy(target, fs, |fs|, m, start, first, c)
  }

  lemma TrackMoved(p: Progress, target: seq<Byte>, source: seq<Byte>, start: nat, end: nat, fs: seq<Function>, first: nat)
    requires Inv(p, target, source, start, first) && p.source == end && forall f :: f in fs ==> Valid(f)
    requires AfterFunctions(target, fs, |fs|, Track(map[], {}, start, first)) == Ok(TrackOf(p))
    ensures Moved(target, source, start, end, fs, first, p.data, p.moved)
  {
    hide AfterFunctions, Follows, Within, Home, ClearedBy, Ordered, Intact, Kept, Valid, EndBefore;
    WithinItself(TrackOf(p));
    FunctionsGoHome(target, fs, |fs|, p.moved, start, first);
    SameEnd(TrackOf(p), p.moved, start, first);
  }

  /** Moves the late rodata of all functions, or fails, exactly if the sizes disagree or some word has no place. */
  method MoveLateRodata(target: seq<Byte>, source: seq<Byte>, start: nat, end: nat, fs: seq<Function>, first: nat)
    returns (r: Result<(seq<Byte>, map<nat, nat>)>)
    requires start <= end <= |source| && first <= |target| && forall f :: f in fs ==> Valid(f)
    ensures r.Failed? <==> end - start != 4 * Words(fs) || exists n, j, m :: Stuck(target, fs, n, j, m, start, first)
    ensures r.Ok? ==> Moved(target, source, start, end, fs, first, r.value.0, r.value.1)
  {
    hide Inv, AfterFunction, AfterFunctions, Stuck, Moved;
    if end - start != 4 * Words(fs) {
      return Failed;
    }
    ghost var none := Track(map[], {}, start, first);
    var p := Progress(target, map[], {}, start, first);
    NothingMoved(target, source, start, fs, first);
    for i := 0 to |fs|
      invariant Inv(p, target, source, start, first) && p.source == start + 4 * Words(fs[..i])
      invariant AfterFunctions(target, fs, i, none) == Ok(TrackOf(p))
    {
      assert fs[..i + 1][..i] == fs[..i] && fs[i] in fs;
      WordsSplit(fs, i + 1);
      FunctionsNext(target, fs, i, none, TrackOf(p));
      var step := MoveFunction(p, target, source, fs[i], start, first);
      if step.Failed? {
        FunctionsFail(target, fs, i + 1, |fs|, none);
        ghost var n, j, m := FailsStuck(target, fs, |fs|, start, first);
        return Failed;
      }
      p := step.value;
    }
    assert fs[..|fs|] == fs;
    forall n: nat, j: nat, m: map<nat, nat> | Stuck(target, fs, n, j, m, start, first) ensures false {
      StuckFails(target, fs, n, j, m, start, first);
    }
    TrackMoved(p, target, source, start, end, fs, first);
    r := Ok((p.data, p.moved));
  }

  lemma NothingMoved(target: seq<Byte>, source: seq<Byte>, start: nat, fs: seq<Function>, first: nat)
    requires start <= |source| && first <= |target|
    ensures Inv(Progress(target, map[], {}, start, first), target, source, start, first) && start + 4 * Words(fs[..0]) == start
    ensures AfterFunctions(target, fs, 0, Track(map[], {}, start, first)) == Ok(Track(map[], {}, start, first))
  {
    assert fs[..0] == [];
  }

  /** Different source words never share a byte of the target. */
  lemma MovedApart(moved: map<nat, nat>, start: nat, end: nat, first: nat, last: nat, a: nat, b: nat)
    requires Ordered(moved, start, end, first, last) && a in moved && b in moved && a != b
    ensures moved[a] + 4 <= moved[b] || moved[b] + 4 <= moved[a]
    ensures moved[a] < moved[b] <==> a < b
  {
  }
}
