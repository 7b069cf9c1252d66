/**
 The two queues of the DMA manager, for any number of clients and every interleaving.

 Each client has at most one request.  Descriptors carry their request; tokens, posted when the last
 chunk of a read completes, carry nothing.  A step is one queue operation, one start of a last chunk,
 or one completion.
 */
module DmaQueues {
  const SLOTS := 10

  /** `Sending`: about to queue the descriptor.  `Reading`: the last chunk is not yet started. */
  datatype Client = Idle | Sending | Reading | Waiting

  /** The manager thread, with the request it holds between its descriptor and its reply. */
  datatype Manager = Receiving | HasToken | Holding(id: nat) | Resending(id: nat) | Rereading

  datatype State = State(
    clients: seq<Client>,
    descriptors: seq<nat>,
    tokens: nat,
    inflight: nat,
    manager: Manager,
    final: set<nat>,      // requests whose next descriptor is their last
    answered: set<nat>)   // requests with a reply in their own queue

  ghost predicate Init(s: State, n: nat) {
    s == State(seq(n, _ => Idle), [], 0, 0, Receiving, {}, {})
  }

  /* ----- steps ----- */

  ghost predicate ClientStep(s: State, t: State, c: nat)
    requires c < |s.clients|
  {
    match s.clients[c]
    case Idle =>
      // a request of less than 16 bytes is not probed
      || t == s.(clients := s.clients[c := Sending], final := s.final + {c})
      || t == s.(clients := s.clients[c := Sending], final := s.final - {c})
    case Sending =>
      |s.descriptors| < SLOTS && t == s.(clients := s.clients[c := Reading], descriptors := s.descriptors + [c])
    case Reading => t == s.(clients := s.clients[c := Waiting], inflight := s.inflight + 1)
    case Waiting => c in s.answered && t == s.(clients := s.clients[c := Idle], answered := s.answered - {c})
  }

  /** The transfer hardware posts a token without waiting; at a full queue the token is lost. */
  ghost predicate CompletionStep(s: State, t: State) {
    s.inflight > 0 && t == s.(inflight := s.inflight - 1, tokens := if s.tokens < SLOTS then s.tokens + 1 else s.tokens)
  }

  ghost predicate ManagerStep(s: State, t: State) {
    match s.manager
    case Receiving => s.tokens > 0 && t == s.(tokens := s.tokens - 1, manager := HasToken)
    case HasToken => s.descriptors != [] && t == s.(descriptors := s.descriptors[1..], manager := Holding(s.descriptors[0]))
    case Holding(id) =>
      if id in s.final then t == s.(answered := s.answered + {id}, manager := Receiving)
      // a failed allocation drops the request: its client is never answered
      else t == s.(manager := Resending(id), final := s.final + {id}) || t == s.(manager := Receiving)
    case Resending(id) => |s.descriptors| < SLOTS && t == s.(descriptors := s.descriptors + [id], manager := Rereading)
    case Rereading => t == s.(inflight := s.inflight + 1, manager := Receiving)
  }

  ghost predicate Next(s: State, t: State) {
    || (exists c: nat :: c < |s.clients| && ClientStep(s, t, c))
    || CompletionStep(s, t)
    || ManagerStep(s, t)
  }

  ghost predicate IsRun(run: seq<State>, n: nat) {
    && run != [] && Init(run[0], n)
    && forall i :: 0 <= i < |run| - 1 ==> Next(run[i], run[i + 1])
  }

  /* ----- the invariant ----- */

  function Readers(cs: seq<Client>): nat {
    if cs == [] then 0 else Readers(cs[..|cs| - 1]) + if cs[|cs| - 1] == Reading then 1 else 0
  }

  /** Tokens that are posted, will be posted, or were just taken. */
  function Owed(s: State): nat {
    s.tokens + s.inflight + Readers(s.clients) + if s.manager in {HasToken, Rereading} then 1 else 0
  }

  ghost predicate Distinct(d: seq<nat>, n: nat) {
    (forall i :: 0 <= i < |d| ==> d[i] < n) && forall i, j :: 0 <= i < j < |d| ==> d[i] != d[j]
  }

  /** The request in the manager's hands. */
  function Hand(m: Manager): set<nat> {
    match m
    case Holding(id) => {id}
    case Resending(id) => {id}
    case _ => {}
  }

  ghost predicate Unanswered(s: State, id: nat) {
    id < |s.clients| && s.clients[id] in {Reading, Waiting} && id !in s.answered
  }

  ghost predicate Inv(s: State, n: nat) {
    && |s.clients| == n
    && Distinct(s.descriptors, n)
    && (forall i :: 0 <= i < |s.descriptors| ==> Unanswered(s, s.descriptors[i]))
    && (forall id :: id in Hand(s.manager) ==> id !in s.descriptors && Unanswered(s, id))
    && (forall id :: id in s.answered ==> id < n && s.clients[id] in {Reading, Waiting})
    && |s.descriptors| == Owed(s)
  }

  lemma {:induction false} ReadersUpdate(cs: seq<Client>, c: nat, x: Client)
    requires c < |cs|
    ensures Readers(cs[c := x]) + (if cs[c] == Reading then 1 else 0) == Readers(cs) + (if x == Reading then 1 else 0)
  {
    var last := |cs| - 1;
    if c == last {
      assert cs[c := x][..last] == cs[..last];
    } else {
      assert cs[c := x][..last] == cs[..last][c := x];
      ReadersUpdate(cs[..last], c, x);
    }
  }

  function Range(n: nat): (r: set<nat>)
    ensures |r| == n && forall k: nat :: k in r <==> k < n
  {
    if n == 0 then {}
    else
      var below := Range(n - 1);
      assert n - 1 !in below;
      below + {n - 1}
  }

  lemma {:induction false} SubsetSize(a: set<nat>, b: set<nat>)
    requires a <= b
    ensures |a| <= |b|
  {
    if a != {} {
      var x :| x in a;
      SubsetSize(a - {x}, b - {x});
      assert |a| == |a - {x}| + 1 && |b| == |b - {x}| + 1;
    }
  }

  function Elements(d: seq<nat>): (e: set<nat>)
    ensures forall x: nat :: x in e <==> x in d
  {
    if d == [] then {} else Elements(d[..|d| - 1]) + {d[|d| - 1]}
  }

  lemma {:induction false} ElementCount(d: seq<nat>)
    requires forall i, j :: 0 <= i < j < |d| ==> d[i] != d[j]
    ensures |Elements(d)| == |d|
  {
    if d != [] {
      ElementCount(d[..|d| - 1]);
      assert d[|d| - 1] !in d[..|d| - 1];
    }
  }

  /** Distinct requests below `n` are at most `n`. */
  lemma AtMost(d: seq<nat>, n: nat)
    requires Distinct(d, n)
    ensures |d| <= n
  {
    ElementCount(d);
    forall x | x in Elements(d) ensures x in Range(n) {
      assert x in d;
    }
    SubsetSize(Elements(d), Range(n));
  }

  lemma ClientKeepsInv(s: State, t: State, c: nat)
    requires Inv(s, |s.clients|) && c < |s.clients| && ClientStep(s, t, c)
    ensures Inv(t, |s.clients|)
  {
    hide Distinct, Readers, Hand;
    ReadersUpdate(s.clients, c, t.clients[c]);
    if s.clients[c] == Sending {
      DistinctMore(s.descriptors, c, |s.clients|);
    }
  }

  lemma DistinctMore(d: seq<nat>, c: nat, n: nat)
    requires Distinct(d, n) && c < n && c !in d
    ensures Distinct(d + [c], n)
  {
  }

  /** With no more clients than slots, neither queue overflows, and the manager's re-send finds room. */
  lemma QueuesFit(s: State, n: nat)
    requires Inv(s, n) && n <= SLOTS
    ensures s.tokens + s.inflight <= |s.descriptors| <= n
    ensures s.manager.Resending? ==> |s.descriptors| < SLOTS
  {
    AtMost(s.descriptors, n);
    if s.manager.Resending? {
      var held := s.descriptors + [s.manager.id];
      assert s.manager.id in Hand(s.manager);
      AtMost(held, n);
    }
  }

  lemma CompletionKeepsInv(s: State, t: State, n: nat)
    requires Inv(s, n) && n <= SLOTS && CompletionStep(s, t)
    ensures Inv(t, n)
  {
    QueuesFit(s, n);
  }

  /** Taking the first of several distinct requests leaves the others, and none of them is that one. */
  lemma DistinctLess(d: seq<nat>, n: nat)
    requires Distinct(d, n) && d != []
    ensures Distinct(d[1..], n) && d[0] !in d[1..]
  {
  }

  /** After a token there is always a descriptor to take. */
  lemma TakeKeepsInv(s: State, n: nat)
    requires Inv(s, n) && s.manager == HasToken
    ensures s.descriptors != []
    ensures Inv(s.(descriptors := s.descriptors[1..], manager := Holding(s.descriptors[0])), n)
  {
    hide Distinct, Readers;
    DistinctLess(s.descriptors, n);
  }

  lemma ResendKeepsInv(s: State, n: nat)
    requires Inv(s, n) && s.manager.Resending?
    ensures Inv(s.(descriptors := s.descriptors + [s.manager.id], manager := Rereading), n)
  {
    hide Distinct, Readers;
    assert s.manager.id in Hand(s.manager);
    DistinctMore(s.descriptors, s.manager.id, n);
  }

  lemma AnswerKeepsInv(s: State, t: State, n: nat)
    requires Inv(s, n) && s.manager.Holding? && ManagerStep(s, t)
    ensures Inv(t, n)
  {
    hide Distinct, Readers;
    assert s.manager.id in Hand(s.manager);
  }

  lemma ManagerKeepsInv(s: State, t: State, n: nat)
    requires Inv(s, n) && ManagerStep(s, t)
    ensures Inv(t, n)
  {
    hide Distinct, Readers;
    if s.manager.HasToken? {
      TakeKeepsInv(s, n);
    } else if s.manager.Holding? {
      AnswerKeepsInv(s, t, n);
    } else if s.manager.Resending? {
      ResendKeepsInv(s, n);
    }
  }

  lemma {:induction false} RunInv(run: seq<State>, n: nat, i: nat)
    requires IsRun(run, n) && n <= SLOTS && i < |run|
    ensures Inv(run[i], n)
  {
    if i == 0 {
      NoReaders(n);
    } else {
      RunInv(run, n, i - 1);
      var s, t := run[i - 1], run[i];
      assert Next(s, t);
      if c: nat :| c < |s.clients| && ClientStep(s, t, c) {
        ClientKeepsInv(s, t, c);
      } else if CompletionStep(s, t) {
        CompletionKeepsInv(s, t, n);
      } else {
        ManagerKeepsInv(s, t, n);
      }
    }
  }

  lemma {:induction false} NoReaders(n: nat)
    ensures Readers(seq(n, _ => Idle)) == 0
  {
    if n > 0 {
      NoReaders(n - 1);
      assert seq(n, _ => Idle)[..n - 1] == seq(n - 1, _ => Idle);
    }
  }

  /* ----- ten clients are safe ----- */

  /**
   With at most ten clients, in every state of every run: tokens never outnumber descriptors, a token just
   taken has a descriptor, no token is lost, and the manager's own re-send finds a free slot.
   */
  lemma QueuesAreSafe(run: seq<State>, n: nat, i: nat)
    requires IsRun(run, n) && n <= 10 && i < |run|
    ensures
      var s := run[i];
      && s.tokens + s.inflight <= |s.descriptors| <= 10
      && (s.manager.HasToken? ==> s.descriptors != [])
      && (s.inflight > 0 ==> s.tokens < 10)
      && (s.manager.Resending? ==> |s.descriptors| < 10)
  {
    RunInv(run, n, i);
    QueuesFit(run[i], n);
  }

  /** Every client is idle, or was dropped after a failed allocation. */
  ghost predicate Quiet(s: State) {
    && s.manager == Receiving && s.descriptors == []
    && forall c :: 0 <= c < |s.clients| ==> s.clients[c] in {Idle, Waiting} && c !in s.answered
  }

  ghost predicate Working(s: State, t: State) {
    || (exists c: nat :: c < |s.clients| && s.clients[c] != Idle && ClientStep(s, t, c))
    || CompletionStep(s, t)
    || ManagerStep(s, t)
  }

  /** With at most ten clients the system never stalls: unless it is quiet, some step other than a new request is possible. */
  lemma NeverStalls(s: State, n: nat) returns (t: State)
    requires Inv(s, n) && n <= SLOTS && !Quiet(s)
    ensures Working(s, t)
  {
    QueuesFit(s, n);
    if s.inflight > 0 {
      t := s.(inflight := s.inflight - 1, tokens := if s.tokens < SLOTS then s.tokens + 1 else s.tokens);
    } else if s.manager.HasToken? {
      t := s.(descriptors := s.descriptors[1..], manager := Holding(s.descriptors[0]));
    } else if s.manager.Holding? {
      t := if s.manager.id in s.final then s.(answered := s.answered + {s.manager.id}, manager := Receiving)
           else s.(manager := Receiving);
    } else if s.manager.Resending? {
      t := s.(descriptors := s.descriptors + [s.manager.id], manager := Rereading);
    } else if s.manager.Rereading? {
      t := s.(inflight := s.inflight + 1, manager := Receiving);
    } else if s.tokens > 0 {
      t := s.(tokens := s.tokens - 1, manager := HasToken);
    } else if Readers(s.clients) > 0 {
      var c := FindReader(s.clients);
      t := s.(clients := s.clients[c := Waiting], inflight := s.inflight + 1);
      assert ClientStep(s, t, c);
    } else {
      var c: nat :| c < |s.clients| && !(s.clients[c] in {Idle, Waiting} && c !in s.answered);
      if s.clients[c] == Sending {
        t := s.(clients := s.clients[c := Reading], descriptors := s.descriptors + [c]);
      } else {
        ReaderCounts(s.clients, c);
        t := s.(clients := s.clients[c := Idle], answered := s.answered - {c});
      }
      assert ClientStep(s, t, c);
    }
  }

  lemma {:induction false} FindReader(cs: seq<Client>) returns (c: nat)
    requires Readers(cs) > 0
    ensures c < |cs| && cs[c] == Reading
  {
    if cs[|cs| - 1] == Reading {
      c := |cs| - 1;
    } else {
      c := FindReader(cs[..|cs| - 1]);
    }
  }

  lemma {:induction false} ReaderCounts(cs: seq<Client>, c: nat)
    requires c < |cs|
    ensures cs[c] == Reading ==> Readers(cs) > 0
  {
    if c < |cs| - 1 {
      ReaderCounts(cs[..|cs| - 1], c);
    }
  }

  /* ----- more than ten are not ----- */

  /** Request 0 waits to be re-sent; requests 1 to `k` are queued, and their reads are complete. */
  ghost function Filled(n: nat, k: nat): State
    requires k <= SLOTS < n
  {
    State(seq(n, c requires 0 <= c < n => if c <= k then Waiting else Idle),
          seq(k, i requires 0 <= i < k => i + 1), k, 0, Resending(0), {0}, {})
  }

  /** And the clients from 11 up to `c` are about to queue theirs. */
  ghost function Crowded(n: nat, c: nat): State
    requires SLOTS < c <= n
  {
    Filled(n, SLOTS).(clients := seq(n, i requires 0 <= i < n => if i <= SLOTS then Waiting else if i < c then Sending else Idle))
  }

  lemma Extend(run: seq<State>, n: nat, t: State)
    requires IsRun(run, n) && Next(run[|run| - 1], t)
    ensures IsRun(run + [t], n)
  {
  }

  lemma ClientNext(s: State, t: State, c: nat)
    requires c < |s.clients| && ClientStep(s, t, c)
    ensures Next(s, t)
  {
  }

  /** What one client's request has done when its read is complete. */
  ghost function Submitted(s: State, c: nat, small: bool): State
    requires c < |s.clients|
  {
    s.(clients := s.clients[c := Waiting], descriptors := s.descriptors + [c], tokens := s.tokens + 1,
       final := if small then s.final + {c} else s.final - {c})
  }

  lemma SubmitSteps(s: State, c: nat, small: bool) returns (s1: State, s2: State, s3: State)
    requires c < |s.clients| && s.clients[c] == Idle && |s.descriptors| < SLOTS && s.tokens < SLOTS && s.inflight == 0
    ensures Next(s, s1) && Next(s1, s2) && Next(s2, s3) && Next(s3, Submitted(s, c, small))
  {
    s1 := s.(clients := s.clients[c := Sending], final := if small then s.final + {c} else s.final - {c});
    s2 := s1.(clients := s1.clients[c := Reading], descriptors := s1.descriptors + [c]);
    s3 := s2.(clients := s2.clients[c := Waiting], inflight := 1);
    ClientNext(s, s1, c);
    ClientNext(s1, s2, c);
    ClientNext(s2, s3, c);
    assert s3.clients == s.clients[c := Waiting];
    assert CompletionStep(s3, Submitted(s, c, small));
  }

  lemma Submit(run: seq<State>, n: nat, c: nat, small: bool) returns (longer: seq<State>)
    requires IsRun(run, n)
    requires var s := run[|run| - 1];
      c < |s.clients| && s.clients[c] == Idle && |s.descriptors| < SLOTS && s.tokens < SLOTS && s.inflight == 0
    ensures IsRun(longer, n) && longer[|longer| - 1] == Submitted(run[|run| - 1], c, small)
  {
    var s := run[|run| - 1];
    hide IsRun, Next, Submitted;
    var s1, s2, s3 := SubmitSteps(s, c, small);
    Extend(run, n, s1);
    Extend(run + [s1], n, s2);
    Extend(run + [s1] + [s2], n, s3);
    Extend(run + [s1] + [s2] + [s3], n, Submitted(s, c, small));
    longer := run + [s1] + [s2] + [s3] + [Submitted(s, c, small)];
  }

  /** The first request, up to where the manager wants to re-send it. */
  lemma First(n: nat) returns (run: seq<State>)
    requires SLOTS < n
    ensures IsRun(run, n) && run[|run| - 1] == Filled(n, 0)
  {
    var s := State(seq(n, _ => Idle), [], 0, 0, Receiving, {}, {});
    StartRun(s, n);
    hide IsRun, Next, Filled;
    run := Submit([s], n, 0, false);
    var s1 := run[|run| - 1];
    var s2 := s1.(tokens := 0, manager := HasToken);
    var s3 := s2.(descriptors := [], manager := Holding(0));
    FirstSteps(n, s1, s2, s3);
    Extend(run, n, s2);
    Extend(run + [s2], n, s3);
    Extend(run + [s2] + [s3], n, Filled(n, 0));
    run := run + [s2] + [s3] + [Filled(n, 0)];
  }

  lemma StartRun(s: State, n: nat)
    requires Init(s, n)
    ensures IsRun([s], n)
  {
  }

  lemma FirstSteps(n: nat, s1: State, s2: State, s3: State)
    requires SLOTS < n && s1.descriptors == [0] && s1.tokens == 1 && s1.inflight == 0 && s1.manager == Receiving
    requires |s1.clients| == n && s1.clients == seq(n, _ => Idle)[0 := Waiting] && s1.final == {} && s1.answered == {}
    requires s2 == s1.(tokens := 0, manager := HasToken) && s3 == s2.(descriptors := [], manager := Holding(0))
    ensures Next(s1, s2) && Next(s2, s3) && Next(s3, Filled(n, 0))
  {
    assert s3.clients == Filled(n, 0).clients;
    assert ManagerStep(s3, Filled(n, 0));
  }

  lemma FilledNext(n: nat, k: nat)
    requires 1 <= k <= SLOTS < n
    ensures var s := Filled(n, k - 1);
      && s.clients[k] == Idle && |s.descriptors| < SLOTS && s.tokens < SLOTS && s.inflight == 0
      && Filled(n, k) == s.(clients := s.clients[k := Waiting], descriptors := s.descriptors + [k], tokens := s.tokens + 1,
                            final := s.final - {k})
  {
    var s := Filled(n, k - 1);
    assert Filled(n, k).clients == s.clients[k := Waiting];
    assert Filled(n, k).descriptors == s.descriptors + [k];
  }

  lemma {:induction false} Fill(n: nat, k: nat) returns (run: seq<State>)
    requires k <= SLOTS < n
    ensures IsRun(run, n) && run[|run| - 1] == Filled(n, k)
    decreases k
  {
    if k == 0 {
      run := First(n);
    } else {
      run := Fill(n, k - 1);
      FilledNext(n, k);
      hide Filled, IsRun;
      run := Submit(run, n, k, false);
    }
  }

  lemma CrowdNext(n: nat, c: nat)
    requires SLOTS < c < n
    ensures Next(Crowded(n, c), Crowded(n, c + 1))
  {
    var s, t := Crowded(n, c), Crowded(n, c + 1);
    assert t.clients == s.clients[c := Sending] && s.final - {c} == s.final;
    ClientNext(s, t, c);
  }

  lemma {:induction false} Crowd(n: nat, c: nat) returns (run: seq<State>)
    requires SLOTS < c <= n
    ensures IsRun(run, n) && run[|run| - 1] == Crowded(n, c)
    decreases c
  {
    if c == SLOTS + 1 {
      run := Fill(n, SLOTS);
      assert Crowded(n, c).clients == Filled(n, SLOTS).clients;
    } else {
      run := Crowd(n, c - 1);
      CrowdNext(n, c - 1);
      hide Crowded, IsRun, Next;
      Extend(run, n, Crowded(n, c));
      run := run + [Crowded(n, c)];
    }
  }

  /** No step at all is possible, and every client has a request that is never answered. */
  ghost predicate Dead(s: State) {
    (forall t :: !Next(s, t)) && forall c :: 0 <= c < |s.clients| ==> s.clients[c] in {Sending, Waiting} && c !in s.answered
  }

  lemma CrowdedIsDead(n: nat)
    requires SLOTS < n
    ensures Dead(Crowded(n, n)) && |Crowded(n, n).clients| == n
  {
    var s := Crowded(n, n);
    forall t ensures !Next(s, t) {
      assert forall c: nat :: c < n ==> !ClientStep(s, t, c);
    }
  }

  /** There is work, and no step that does any. */
  ghost predicate Stalled(s: State) {
    !Quiet(s) && forall t :: !Working(s, t)
  }

  ghost predicate CanStall(n: nat) {
    exists run: seq<State> :: IsRun(run, n) && Stalled(run[|run| - 1])
  }

  lemma DeadIsStalled(s: State)
    requires Dead(s) && |s.clients| > SLOTS && s.clients[0] == Waiting && |s.descriptors| == SLOTS
    ensures Stalled(s)
  {
    forall t ensures !Working(s, t) {
      assert !Next(s, t);
    }
  }

  /** More than ten clients can come to a standstill, each with a request, all of them waiting for ever. */
  lemma CrowdDeadlock(n: nat) returns (run: seq<State>)
    requires n > 10
    ensures IsRun(run, n) && |run[|run| - 1].clients| == n && Dead(run[|run| - 1])
  {
    run := Crowd(n, n);
    CrowdedIsDead(n);
  }

  lemma NotStalled(run: seq<State>, n: nat)
    requires n <= SLOTS && IsRun(run, n)
    ensures !Stalled(run[|run| - 1])
  {
    RunInv(run, n, |run| - 1);
    var s := run[|run| - 1];
    if !Quiet(s) {
      var t := NeverStalls(s, n);
    }
  }

  /** So that ten clients are exactly what the queues can bear. */
  lemma StallsExactly(n: nat)
    ensures CanStall(n) <==> n > 10
  {
    hide Stalled, Dead;
    if n > SLOTS {
      var run := Crowd(n, n);
      CrowdedIsDead(n);
      DeadIsStalled(Crowded(n, n));
    } else {
      forall run: seq<State> | IsRun(run, n) ensures !Stalled(run[|run| - 1]) {
        NotStalled(run, n);
      }
    }
  }
}
