/**
 The conversation between one client thread and the EEPROM manager thread, over every interleaving.

 The request record and the two message queues are shared.  A step is one access to them, or the
 handling of one request.
 */
module EepromThread {
  import opened Eeprom

  const EEP_READ_MSG := 8
  const EEP_WRITE_MSG := 9
  const EEP_QUIT_MSG := 4

  const COMMAND_SLOTS := 4
  const REPLY_SLOTS := 1

  function TypeOf(r: Request): int { if r.ReadRequest? then EEP_READ_MSG else EEP_WRITE_MSG }

  /** The request that the worker handles: its kind by the type it read, on the buffer of the record. */
  function Dispatched(kind: int, buffer: seq<Block>, ok: Outcome): Request {
    if kind == EEP_READ_MSG then ReadRequest(buffer, ok) else WriteRequest(buffer, ok)
  }

  /** `Typed`: type and buffer are set.  `Got`: the reply is in hand, the type not yet cleared. */
  datatype Client = Idle | Typed | Waiting | Got(status: int) | ClientStuck

  /** `Taken`: a command is received.  `Chosen`: its type was read.  `Answering`: it was handled.  `Deciding`: the loop test. */
  datatype Worker = Probing | Receiving | Taken | Chosen(kind: int) | Answering(status: int) | Deciding | Quit | WorkerStuck

  datatype State = State(
    client: Client,
    worker: Worker,
    requestType: int,
    buffer: seq<Block>,
    commands: nat,
    replies: seq<int>,
    store: Store,
    asked: seq<Request>,
    told: seq<int>)

  ghost predicate Init(s: State) {
    && s.client == Idle && s.worker == Probing && s.requestType == 0
    && s.commands == 0 && s.replies == [] && s.asked == [] && s.told == []
    && s.store.Valid()
  }

  /* ----- steps ----- */

  ghost predicate ClientStep(s: State, t: State) {
    match s.client
    case Idle =>
      // eepmgr_SendRead, eepmgr_SendWrite: spin for ever unless the request record is free
      if s.requestType != 0 then t == s.(client := ClientStuck)
      else exists r :: Fits(r, s.store) && t == Submitted(s, r)
    case Typed => s.commands < COMMAND_SLOTS && t == s.(client := Waiting, commands := s.commands + 1)
    case Waiting => s.replies != [] && t == s.(client := Got(s.replies[0]), replies := s.replies[1..])
    case Got(status) => t == s.(client := Idle, requestType := 0, told := s.told + [status])
    case ClientStuck => false
  }

  ghost function Submitted(s: State, r: Request): State {
    s.(client := Typed, requestType := TypeOf(r), buffer := r.buffer, asked := s.asked + [r])
  }

  ghost predicate WorkerStep(s: State, t: State) {
    match s.worker
    case Probing => t == s.(worker := Receiving) || t == s.(worker := WorkerStuck)
    case Receiving => s.commands > 0 && t == s.(worker := Taken, commands := s.commands - 1)
    case Taken =>
      t == s.(worker := if s.requestType in {EEP_READ_MSG, EEP_WRITE_MSG} then Chosen(s.requestType) else Deciding)
    case Chosen(kind) =>
      s.asked != [] && s.store.Valid() &&
      var r := Dispatched(kind, s.buffer, s.asked[|s.asked| - 1].ok);
      Fits(r, s.store) &&
      var (store, buffer, status) := Serve(s.store, r);
      t == s.(worker := Answering(status), store := store, buffer := buffer)
    case Answering(status) => |s.replies| < REPLY_SLOTS && t == s.(worker := Deciding, replies := s.replies + [status])
    case Deciding => t == s.(worker := if s.requestType == EEP_QUIT_MSG then Quit else Receiving)
    case Quit => false
    case WorkerStuck => false
  }

  ghost predicate Next(s: State, t: State) { ClientStep(s, t) || WorkerStep(s, t) }

  ghost predicate IsRun(run: seq<State>) {
    && run != [] && Init(run[0])
    && forall i :: 0 <= i < |run| - 1 ==> Next(run[i], run[i + 1])
  }

  /* ----- the requests served one after the other ----- */

  ghost predicate AllFit(s: Store, rs: seq<Request>) {
    forall r :: r in rs ==> Fits(r, s)
  }

  ghost function Served(s: Store, rs: seq<Request>): (t: Store)
    requires s.Valid() && AllFit(s, rs)
    ensures t.Valid() && t.kind == s.kind && |t.device| == |s.device|
  {
    if rs == [] then s
    else
      var before := Served(s, rs[..|rs| - 1]);
      assert rs[|rs| - 1] in rs;
      ServeKeepsValid(before, rs[|rs| - 1]);
      Serve(before, rs[|rs| - 1]).0
  }

  ghost function Statuses(s: Store, rs: seq<Request>): (st: seq<int>)
    requires s.Valid() && AllFit(s, rs)
    ensures |st| == |rs|
  {
    if rs == [] then []
    else
      var before := Served(s, rs[..|rs| - 1]);
      assert rs[|rs| - 1] in rs;
      Statuses(s, rs[..|rs| - 1]) + [Serve(before, rs[|rs| - 1]).2]
  }

  /** The client's buffer after the last of some requests. */
  ghost function Shown(s: Store, rs: seq<Request>): seq<Block>
    requires s.Valid() && AllFit(s, rs) && rs != []
  {
    assert rs[|rs| - 1] in rs;
    Serve(Served(s, rs[..|rs| - 1]), rs[|rs| - 1]).1
  }

  /* ----- the invariant ----- */

  ghost predicate Resting(w: Worker) { w.Probing? || w.Receiving? || w.Deciding? || w.WorkerStuck? }

  /** All requests but the newest are answered, and the newest is not yet handled. */
  ghost predicate Pending(s: State, initial: Store)
    requires initial.Valid() && AllFit(initial, s.asked)
  {
    && s.asked != []
    && var prior := s.asked[..|s.asked| - 1];
       && s.requestType == TypeOf(s.asked[|s.asked| - 1]) && s.buffer == s.asked[|s.asked| - 1].buffer
       && s.store == Served(initial, prior) && s.told == Statuses(initial, prior)
  }

  /** The newest request is handled with the given status, which the client does not have yet. */
  ghost predicate Handled(s: State, initial: Store, status: int)
    requires initial.Valid() && AllFit(initial, s.asked)
  {
    && s.asked != [] && s.requestType == TypeOf(s.asked[|s.asked| - 1])
    && s.store == Served(initial, s.asked) && s.told + [status] == Statuses(initial, s.asked)
    && s.buffer == Shown(initial, s.asked)
  }

  ghost predicate Inv(s: State, initial: Store) {
    && initial.Valid() && AllFit(initial, s.asked)
    && match s.client
       case Idle =>
         && s.requestType == 0 && s.commands == 0 && s.replies == [] && Resting(s.worker)
         && s.store == Served(initial, s.asked) && s.told == Statuses(initial, s.asked)
       case Typed => s.commands == 0 && s.replies == [] && Resting(s.worker) && Pending(s, initial)
       case Waiting =>
         || (s.commands == 1 && s.replies == [] && Resting(s.worker) && Pending(s, initial))
         || (s.commands == 0 && s.replies == [] && s.worker in {Taken, Chosen(s.requestType)} && Pending(s, initial))
         || (s.commands == 0 && s.replies == [] && s.worker.Answering? && Handled(s, initial, s.worker.status))
         || (s.commands == 0 && |s.replies| == 1 && Resting(s.worker) && !s.worker.Probing? && Handled(s, initial, s.replies[0]))
       case Got(status) => s.commands == 0 && s.replies == [] && Resting(s.worker) && !s.worker.Probing?
         && Handled(s, initial, status)
       case ClientStuck => false
  }

  lemma ClientKeepsInv(s: State, t: State, initial: Store)
    requires Inv(s, initial) && ClientStep(s, t)
    ensures Inv(t, initial)
  {
    if s.client.Idle? {
      var r :| Fits(r, s.store) && t == Submitted(s, r);
      assert t.asked[..|t.asked| - 1] == s.asked;
    }
  }

  lemma ChosenKeepsInv(s: State, t: State, initial: Store)
    requires Inv(s, initial) && s.worker.Chosen? && WorkerStep(s, t)
    ensures Inv(t, initial)
  {
    hide Serve, Store.Valid, Fits, AllFit;
    var r, prior := s.asked[|s.asked| - 1], s.asked[..|s.asked| - 1];
    ServedNext(initial, s.asked);
  }

  lemma ServedNext(initial: Store, rs: seq<Request>)
    requires initial.Valid() && AllFit(initial, rs) && rs != []
    ensures var prior, r := rs[..|rs| - 1], rs[|rs| - 1];
      && AllFit(initial, prior) && Fits(r, Served(initial, prior))
      && var (store, buffer, status) := Serve(Served(initial, prior), r);
         && store == Served(initial, rs) && buffer == Shown(initial, rs)
         && Statuses(initial, rs) == Statuses(initial, prior) + [status]
  {
    hide Serve, Store.Valid;
    assert rs[|rs| - 1] in rs;
  }

  lemma WorkerKeepsInv(s: State, t: State, initial: Store)
    requires Inv(s, initial) && WorkerStep(s, t)
    ensures Inv(t, initial)
  {
    hide Serve, Store.Valid, Fits, AllFit, Served, Statuses, Shown;
    if s.worker.Chosen? {
      ChosenKeepsInv(s, t, initial);
    }
  }

  lemma {:induction false} RunInv(run: seq<State>, i: nat)
    requires IsRun(run) && i < |run|
    ensures Inv(run[i], run[0].store)
  {
    if i > 0 {
      RunInv(run, i - 1);
      assert Next(run[i - 1], run[i]);
      if ClientStep(run[i - 1], run[i]) {
        ClientKeepsInv(run[i - 1], run[i], run[0].store);
      } else {
        WorkerKeepsInv(run[i - 1], run[i], run[0].store);
      }
    }
  }

  /* ----- what the conversation promises ----- */

  /**
   In every state of every run: the client has been told, in order, exactly the statuses that its requests
   give when served one after the other; at most one request is under way; the worker never waits to
   reply and never quits, and the client never waits to submit and never spins.
   */
  lemma Conversation(run: seq<State>, i: nat)
    requires IsRun(run) && i < |run|
    ensures
      var s, initial := run[i], run[0].store;
      && AllFit(initial, s.asked)
      && |s.asked| - 1 <= |s.told| <= |s.asked| && s.told == Statuses(initial, s.asked)[..|s.told|]
      && (s.client.Idle? ==> |s.told| == |s.asked|)
      && s.store.Valid()
      && s.commands + |s.replies| <= 1
      && (s.worker.Taken? || s.worker.Chosen? || s.worker.Answering? ==> s.commands + |s.replies| == 0)
      && (s.worker.Answering? ==> |s.replies| < 1)
      && (s.client.Typed? ==> s.commands < 4)
      && !s.worker.Quit? && !s.client.ClientStuck?
      && (s.worker.Deciding? ==> s.requestType != 4)
      && (s.client.Idle? ==> s.requestType == 0)
      && (!s.client.Idle? ==> s.asked != [] && s.requestType == if s.asked[|s.asked| - 1].ReadRequest? then 8 else 9)
  {
    RunInv(run, i);
  }

  /* ----- what the replies mean, and what is on the chip ----- */

  /** A read was answered with success before request `j`, or the cache was filled from the start. */
  ghost predicate ReadBefore(initial: Store, asked: seq<Request>, answers: seq<int>, j: int) {
    initial.cached || exists k: nat :: k < j && k < |asked| && k < |answers| && asked[k].ReadRequest? && answers[k] == 0
  }

  /** Blocks `a` and `b` differ, so that the write has to go to the chip. */
  predicate Differs(buffer: seq<Block>, device: seq<Block>, b: nat) {
    b < |device| && b < |buffer| && buffer[b] != device[b]
  }

  /** The write got as far as block `k`, which the chip refused. */
  ghost predicate CutShort(buffer: seq<Block>, ok: Outcome, was: seq<Block>, now: seq<Block>, k: nat) {
    && Differs(buffer, was, k) && !ok(k) && (forall b: nat :: b < k && Differs(buffer, was, b) ==> ok(b))
    && now == buffer[..k] + was[k..]
  }

  /** The reply to a read, and the device, which it leaves alone. */
  ghost predicate ReadAnswered(kind: int, cached: bool, ok: Outcome, was: seq<Block>, now: seq<Block>, status: int) {
    && now == was && status in {0, -1}
    && (status == 0 <==> kind != 0 && (cached || forall b: nat :: b < |was| ==> ok(b)))
  }

  /** The reply to a write, and the device: the buffer, or the buffer up to the block that was refused, or as it was. */
  ghost predicate WriteAnswered(kind: int, cached: bool, buffer: seq<Block>, ok: Outcome, was: seq<Block>, now: seq<Block>,
                                status: int) {
    && status in {0, -1}
    && (status == 0 <==> kind != 0 && cached && forall b: nat :: Differs(buffer, was, b) ==> ok(b))
    && (status == 0 ==> |was| <= |buffer| && now == buffer[..|was|])
    && (status != 0 ==> if kind == 0 || !cached then now == was else exists k :: CutShort(buffer, ok, was, now, k))
  }

  /** Request `j` found one device and left another. */
  ghost predicate Answered(initial: Store, asked: seq<Request>, answers: seq<int>, devices: seq<seq<Block>>, j: nat) {
    && j < |asked| && j < |answers| && j + 1 < |devices|
    && var cached := ReadBefore(initial, asked, answers, j);
       match asked[j]
       case ReadRequest(_, ok) => ReadAnswered(initial.kind, cached, ok, devices[j], devices[j + 1], answers[j])
       case WriteRequest(buffer, ok) =>
         WriteAnswered(initial.kind, cached, buffer, ok, devices[j], devices[j + 1], answers[j])
  }

  /** All requests that have an answer, with the devices before, between and after them. */
  ghost predicate AllAnswered(initial: Store, asked: seq<Request>, answers: seq<int>, devices: seq<seq<Block>>) {
    && |answers| <= |asked| && |devices| == |answers| + 1 && devices[0] == initial.device
    && forall j: nat :: j < |answers| ==> Answered(initial, asked, answers, devices, j)
  }

  lemma ServeAnswers(s: Store, r: Request)
    requires s.Valid() && Fits(r, s)
    ensures var (t, buffer, status) := Serve(s, r);
      && (r.ReadRequest? ==> ReadAnswered(s.kind, s.cached, r.ok, s.device, t.device, status))
      && (r.WriteRequest? ==> WriteAnswered(s.kind, s.cached, r.buffer, r.ok, s.device, t.device, status))
      && (t.cached <==> s.cached || (r.ReadRequest? && status == 0))
      && (if r.ReadRequest? && status == 0 then |buffer| == |r.buffer| && buffer[..|s.device|] == s.device
            && buffer[|s.device|..] == r.buffer[|s.device|..]
          else buffer == r.buffer)
  {
    var n := |s.device|;
    match r {
      case ReadRequest(buffer, ok) =>
        ReadOutcome(s, buffer, ok);
      case WriteRequest(buffer, ok) =>
        if s.kind != 0 && s.cached {
          var k := Stop(buffer, s.device, ok, 0);
          if k < n {
            assert CutShort(buffer, ok, s.device, Torn(buffer, s.device, k), k);
          } else {
            assert Torn(buffer, s.device, n) == buffer[..n];
          }
        }
    }
  }

  lemma AnsweredMore(initial: Store, asked: seq<Request>, answers: seq<int>, devices: seq<seq<Block>>,
                     asked': seq<Request>, answers': seq<int>, devices': seq<seq<Block>>, j: nat)
    requires Answered(initial, asked, answers, devices, j)
    requires asked <= asked' && answers <= answers' && devices <= devices'
    ensures Answered(initial, asked', answers', devices', j)
  {
    ReadBeforeMore(initial, asked, answers, asked', answers', j);
    hide ReadBefore, ReadAnswered, WriteAnswered;
  }

  lemma ReadBeforeMore(initial: Store, asked: seq<Request>, answers: seq<int>, asked': seq<Request>, answers': seq<int>, j: nat)
    requires asked <= asked' && answers <= answers' && j <= |asked| && j <= |answers|
    ensures ReadBefore(initial, asked, answers, j) <==> ReadBefore(initial, asked', answers', j)
  {
  }

  lemma ReadBeforeNext(initial: Store, asked: seq<Request>, answers: seq<int>, j: nat)
    requires j < |asked| && j < |answers|
    ensures ReadBefore(initial, asked, answers, j + 1) <==>
      ReadBefore(initial, asked, answers, j) || (asked[j].ReadRequest? && answers[j] == 0)
  {
  }

  /** Requests served one after the other are answered so. */
  lemma {:induction false} ServedAnswers(initial: Store, rs: seq<Request>) returns (devices: seq<seq<Block>>)
    requires initial.Valid() && AllFit(initial, rs)
    ensures AllAnswered(initial, rs, Statuses(initial, rs), devices)
    ensures devices[|rs|] == Served(initial, rs).device
    ensures Served(initial, rs).cached <==> ReadBefore(initial, rs, Statuses(initial, rs), |rs|)
  {
    hide Answered, ReadBefore, Serve, Store.Valid;
    if rs == [] {
      devices := [initial.device];
      ReadNone(initial);
    } else {
      var n := |rs| - 1;
      var prior, r := rs[..n], rs[n];
      assert r in rs;
      var was := ServedAnswers(initial, prior);
      var before, st := Served(initial, prior), Statuses(initial, rs);
      devices := was + [Served(initial, rs).device];
      assert st == Statuses(initial, prior) + [Serve(before, r).2];
      ServeAnswers(before, r);
      assert rs == prior + [r];
      ReadBeforeMore(initial, prior, Statuses(initial, prior), rs, st, n);
      ReadBeforeNext(initial, rs, st, n);
      AnsweredLast(initial, rs, st, devices, n, before, r);
      forall j: nat | j < n ensures Answered(initial, rs, st, devices, j) {
        AnsweredMore(initial, prior, Statuses(initial, prior), was, rs, st, devices, j);
      }
    }
  }

  lemma ReadNone(initial: Store)
    ensures ReadBefore(initial, [], [], 0) <==> initial.cached
  {
  }

  lemma AnsweredLast(initial: Store, rs: seq<Request>, st: seq<int>, devices: seq<seq<Block>>, n: nat, before: Store, r: Request)
    requires |rs| == |st| == n + 1 && |devices| == n + 2 && rs[n] == r && before.kind == initial.kind
    requires before.cached <==> ReadBefore(initial, rs, st, n)
    requires r.ReadRequest? ==> ReadAnswered(before.kind, before.cached, r.ok, devices[n], devices[n + 1], st[n])
    requires r.WriteRequest? ==> WriteAnswered(before.kind, before.cached, r.buffer, r.ok, devices[n], devices[n + 1], st[n])
    ensures Answered(initial, rs, st, devices, n)
  {
    hide ReadBefore, ReadAnswered, WriteAnswered;
  }

  /** The answers given so far, whether the client has them yet or not. */
  function Answers(s: State): seq<int> {
    s.told + (if s.worker.Answering? then [s.worker.status] else []) + s.replies + if s.client.Got? then [s.client.status] else []
  }

  /** The last request has been handled, and its reply is on its way or in the client's hands. */
  predicate Replied(s: State) { s.worker.Answering? || s.replies != [] || s.client.Got? }

  /** The answer in hand is that of the last request. */
  ghost predicate BufferShows(s: State, initial: Store) {
    s.asked != [] && Answers(s) != [] && |Answers(s)| == |s.asked| &&
    var r, n := s.asked[|s.asked| - 1], |initial.device|;
    if r.ReadRequest? && Answers(s)[|s.asked| - 1] == 0 then
      |s.buffer| == |r.buffer| >= n && s.buffer[..n] == s.store.device && s.buffer[n..] == r.buffer[n..]
    else s.buffer == r.buffer
  }

  /**
   In every state of every run, the answers given so far mean what they should, and the chip holds what the
   requests so far leave there.  A client with a reply finds its buffer filled from the chip exactly if it read
   with success.
   */
  lemma ConversationMeans(run: seq<State>, i: nat) returns (devices: seq<seq<Block>>)
    requires IsRun(run) && i < |run|
    ensures var s, initial := run[i], run[0].store;
      && AllAnswered(initial, s.asked, Answers(s), devices)
      && s.store.device == devices[|Answers(s)|] && s.store.kind == initial.kind
      && (s.store.cached <==> ReadBefore(initial, s.asked, Answers(s), |Answers(s)|))
      && |Answers(s)| == (if s.asked != [] && !Replied(s) && !s.client.Idle? then |s.asked| - 1 else |s.asked|)
      && s.told <= Answers(s)
      && (Replied(s) ==> BufferShows(s, initial))
  {
    RunInv(run, i);
    devices := InvMeans(run[i], run[0].store);
  }

  lemma AnswersAre(s: State, initial: Store)
    requires Inv(s, initial) && (Replied(s) || s.client.Idle?)
    ensures Answers(s) == Statuses(initial, s.asked)
  {
    hide Served, Statuses, Serve, Shown, Store.Valid, Fits;
    if s.replies != [] {
      assert s.replies == [s.replies[0]];
    }
    assert Answers(s) == if s.client.Idle? then s.told
      else s.told + [if s.worker.Answering? then s.worker.status else if s.client.Got? then s.client.status else s.replies[0]];
  }

  lemma InvMeans(s: State, initial: Store) returns (devices: seq<seq<Block>>)
    requires Inv(s, initial)
    ensures
      && AllAnswered(initial, s.asked, Answers(s), devices)
      && s.store.device == devices[|Answers(s)|] && s.store.kind == initial.kind
      && (s.store.cached <==> ReadBefore(initial, s.asked, Answers(s), |Answers(s)|))
      && |Answers(s)| == (if s.asked != [] && !Replied(s) && !s.client.Idle? then |s.asked| - 1 else |s.asked|)
      && s.told <= Answers(s)
      && (Replied(s) ==> BufferShows(s, initial))
  {
    hide Answered, ReadBefore, Serve, Store.Valid, Fits, Served, Statuses, Shown;
    if Replied(s) || s.client.Idle? {
      AnswersAre(s, initial);
      devices := ServedAnswers(initial, s.asked);
      if Replied(s) {
        ShownIs(initial, s.asked);
      }
    } else {
      var n := |s.asked| - 1;
      var prior := s.asked[..n];
      assert Answers(s) == s.told;
      devices := ServedAnswers(initial, prior);
      ReadBeforeMore(initial, prior, s.told, s.asked, s.told, n);
      forall j: nat | j < n ensures Answered(initial, s.asked, s.told, devices, j) {
        AnsweredMore(initial, prior, s.told, devices, s.asked, s.told, devices, j);
      }
    }
  }

  lemma ShownIs(initial: Store, rs: seq<Request>)
    requires initial.Valid() && AllFit(initial, rs) && rs != []
    ensures var r, n, b, d := rs[|rs| - 1], |initial.device|, Shown(initial, rs), Served(initial, rs).device;
      |r.buffer| >= n && if r.ReadRequest? && Statuses(initial, rs)[|rs| - 1] == 0 then
        |b| == |r.buffer| && b[..n] == d && b[n..] == r.buffer[n..]
      else b == r.buffer
  {
    hide Serve, Store.Valid, WriteAnswered;
    assert rs[|rs| - 1] in rs;
    ServeAnswers(Served(initial, rs[..|rs| - 1]), rs[|rs| - 1]);
  }

  /** The steps left, by either thread, before the client has its reply. */
  function Rank(s: State): nat {
    (match s.client case Typed => 3 case Waiting => 2 case Got(_) => 1 case _ => 0)
    + (match s.worker
       case Probing => 1
       case Deciding => 1
       case Receiving => 0
       case Taken => 4
       case Chosen(_) => 3
       case Answering(_) => 2
       case _ => 0)
    + 5 * (s.commands + (if s.client.Typed? then 1 else 0))
  }

  /** A request under way never stalls: some step is possible, unless the chip was not the one expected. */
  lemma SomeStep(s: State, initial: Store) returns (t: State)
    requires Inv(s, initial) && !s.client.Idle? && !s.worker.WorkerStuck?
    ensures Next(s, t)
  {
    if s.client.Typed? {
      t := s.(client := Waiting, commands := s.commands + 1);
    } else if s.client.Got? {
      t := s.(client := Idle, requestType := 0, told := s.told + [s.client.status]);
    } else if s.replies != [] {
      t := s.(client := Got(s.replies[0]), replies := s.replies[1..]);
    } else if s.worker.Taken? {
      t := s.(worker := Chosen(s.requestType));
    } else if s.worker.Chosen? {
      var r := s.asked[|s.asked| - 1];
      assert r in s.asked;
      var (store, buffer, status) := Serve(s.store, r);
      t := s.(worker := Answering(status), store := store, buffer := buffer);
    } else if s.worker.Answering? {
      t := s.(worker := Deciding, replies := s.replies + [s.worker.status]);
    } else if s.worker.Receiving? {
      t := s.(worker := Taken, commands := s.commands - 1);
    } else {
      t := s.(worker := Receiving);
    }
  }

  /** Every step, of either thread, brings the reply nearer, so every schedule delivers it. */
  lemma EveryStepCounts(s: State, t: State, initial: Store)
    requires Inv(s, initial) && !s.client.Idle? && Next(s, t)
    ensures Rank(t) < Rank(s)
  {
    hide Pending, Handled, Served, Statuses, AllFit, Serve;
  }
}
