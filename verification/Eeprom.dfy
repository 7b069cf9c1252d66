/** The EEPROM manager: a write-through cache of 8-byte blocks in front of the chip. */
module Eeprom {
  import opened Bytes

  /** Eight bytes, moved and compared as one 64-bit word. */
  datatype Block = Block(b0: Byte, b1: Byte, b2: Byte, b3: Byte, b4: Byte, b5: Byte, b6: Byte, b7: Byte)

  const EEPROM_MAXBLOCKS := 64
  const EEP16K_MAXBLOCKS := 256

  /** Blocks of each chip type: none, 4 Kbit, 16 Kbit. */
  function MaxBlocks(kind: int): nat
    requires 0 <= kind <= 2
  {
    if kind == 0 then 0 else if kind == 1 then EEPROM_MAXBLOCKS else EEP16K_MAXBLOCKS
  }

  /** Whether the access to a given block succeeds during one request. */
  type Outcome = nat -> bool

  /* ----- requests on values ----- */

  datatype Store = Store(kind: int, cached: bool, cache: seq<Block>, device: seq<Block>) {
    ghost predicate Valid() {
      && 0 <= kind <= 2
      && |cache| == |device| == MaxBlocks(kind)
      && (cached ==> cache == device)
    }
  }

  /** The first `k` blocks already new, the others still old. */
  function Torn(now: seq<Block>, was: seq<Block>, k: nat): (t: seq<Block>)
    requires k <= |was| <= |now|
    ensures |t| == |was|
  {
    now[..k] + was[k..]
  }

  lemma TornNext(now: seq<Block>, was: seq<Block>, i: nat)
    requires i < |was| <= |now|
    ensures Torn(now, was, i)[i] == was[i]
    ensures Torn(now, was, i + 1) == Torn(now, was, i)[i := now[i]]
    ensures now[i] == was[i] ==> Torn(now, was, i + 1) == Torn(now, was, i)
  {
  }

  lemma TornNone(now: seq<Block>, was: seq<Block>, past: seq<seq<Block>>)
    requires |was| <= |now|
    ensures Torn(now, was, 0) == was && past + Trace(now, was, 0) == past
  {
  }

  /** The first block from `i` on that must be written and cannot be, or the number of blocks. */
  function Stop(now: seq<Block>, was: seq<Block>, ok: Outcome, i: nat): (k: nat)
    requires i <= |was| <= |now|
    ensures i <= k <= |was|
    ensures forall j :: i <= j < k ==> now[j] == was[j] || ok(j)
    ensures k < |was| ==> now[k] != was[k] && !ok(k)
    decreases |was| - i
  {
    if i == |was| then i
    else if now[i] != was[i] && !ok(i) then i
    else Stop(now, was, ok, i + 1)
  }

  /** The states the device passes through when the first `k` blocks are written: one per block that differs. */
  function Trace(now: seq<Block>, was: seq<Block>, k: nat): (t: seq<seq<Block>>)
    requires k <= |was| <= |now|
  {
    if k == 0 then []
    else if now[k - 1] != was[k - 1] then Trace(now, was, k - 1) + [Torn(now, was, k)]
    else Trace(now, was, k - 1)
  }

  function Write(s: Store, buffer: seq<Block>, ok: Outcome): (Store, int)
    requires s.Valid() && |buffer| >= |s.device|
  {
    if s.kind == 0 || !s.cached then (s, -1)
    else
      var k := Stop(buffer, s.device, ok, 0);
      var t := Torn(buffer, s.device, k);
      (s.(cache := t, device := t), if k == |s.device| then 0 else -1)
  }

  /** The states the device passes through during a write request. */
  function WriteTrace(s: Store, buffer: seq<Block>, ok: Outcome): seq<seq<Block>>
    requires s.Valid() && |buffer| >= |s.device|
  {
    if s.kind == 0 || !s.cached then [] else Trace(buffer, s.device, Stop(buffer, s.device, ok, 0))
  }

  /** The first block that cannot be read, or the number of blocks. */
  function ReadStop(n: nat, ok: Outcome, i: nat): (k: nat)
    requires i <= n
    ensures i <= k <= n && (forall j :: i <= j < k ==> ok(j)) && (k < n ==> !ok(k))
    decreases n - i
  {
    if i == n || !ok(i) then i else ReadStop(n, ok, i + 1)
  }

  lemma ReadStopNext(n: nat, ok: Outcome, i: nat)
    requires i <= n
    ensures ReadStop(n, ok, i) == if i == n || !ok(i) then i else ReadStop(n, ok, i + 1)
  {
  }

  /** The new store, the buffer the caller gets, and the status. */
  function Read(s: Store, buffer: seq<Block>, ok: Outcome): (Store, seq<Block>, int)
    requires s.Valid() && |buffer| >= |s.device|
  {
    if s.kind == 0 then (s, buffer, -1)
    else if s.cached then (s, s.cache + buffer[|s.cache|..], 0)
    else
      var k := ReadStop(|s.device|, ok, 0);
      if k < |s.device| then (s.(cache := s.device[..k] + s.cache[k..]), buffer, -1)
      else (s.(cache := s.device, cached := true), s.device + buffer[|s.device|..], 0)
  }

  /* ----- what requests do ----- */

  function Differing(now: seq<Block>, was: seq<Block>, k: nat): set<nat>
    requires k <= |was| <= |now|
  {
    set b: nat | b < k && now[b] != was[b]
  }

  lemma DifferingNext(now: seq<Block>, was: seq<Block>, k: nat)
    requires k < |was| <= |now|
    ensures |Differing(now, was, k + 1)| == |Differing(now, was, k)| + if now[k] != was[k] then 1 else 0
  {
    var before := Differing(now, was, k);
    assert Differing(now, was, k + 1) == if now[k] != was[k] then before + {k} else before;
  }

  /** One device write for each block that differs, and no other. */
  lemma {:induction false} TraceCount(now: seq<Block>, was: seq<Block>, k: nat)
    requires k <= |was| <= |now|
    ensures |Trace(now, was, k)| == |Differing(now, was, k)|
  {
    if k > 0 {
      hide Differing, Torn;
      TraceCount(now, was, k - 1);
      DifferingNext(now, was, k - 1);
    }
  }

  /** Every state on the way has a prefix of new blocks, ending in the one just written. */
  lemma {:induction false} TraceIsTorn(now: seq<Block>, was: seq<Block>, k: nat, t: nat) returns (b: nat)
    requires k <= |was| <= |now| && t < |Trace(now, was, k)|
    ensures b < k && now[b] != was[b] && Trace(now, was, k)[t] == Torn(now, was, b + 1)
  {
    if t == |Trace(now, was, k - 1)| {
      b := k - 1;
    } else {
      b := TraceIsTorn(now, was, k - 1, t);
    }
  }

  /**
   A write request succeeds exactly when every differing block can be written, and then the device is the
   buffer; otherwise it ends at the first block the chip refuses, new before it and old from it on.
   */
  lemma WriteOutcome(s: Store, buffer: seq<Block>, ok: Outcome)
    requires s.Valid() && s.cached && s.kind != 0 && |buffer| >= |s.device|
    ensures
      var (s', status) := Write(s, buffer, ok);
      var n := |s.device|;
      && (status == 0 <==> forall b: nat :: b < n && buffer[b] != s.device[b] ==> ok(b))
      && (status == 0 ==>
            && s'.device == buffer[..n]
            && |WriteTrace(s, buffer, ok)| == |Differing(buffer, s.device, n)|)
      && (status != 0 ==> exists k: nat ::
            && k < n && buffer[k] != s.device[k] && !ok(k)
            && s'.device == buffer[..k] + s.device[k..]
            && (forall b: nat :: b < k && buffer[b] != s.device[b] ==> ok(b)))
  {
    TraceCount(buffer, s.device, |s.device|);
  }

  /** A read request that succeeds hands out the device, whatever was cached. */
  lemma ReadOutcome(s: Store, buffer: seq<Block>, ok: Outcome)
    requires s.Valid() && |buffer| >= |s.device|
    ensures
      var (s', buffer', status) := Read(s, buffer, ok);
      && (status == 0 <==> s.kind != 0 && (s.cached || forall b: nat :: b < |s.device| ==> ok(b)))
      && (if status == 0 then s'.cached && buffer' == s.device + buffer[|s.device|..]
          else buffer' == buffer && s'.cached == s.cached)
      && s'.device == s.device
  {
  }

  /** What the client asks for, with its buffer; the outcomes of the chip's accesses go with it. */
  datatype Request = ReadRequest(buffer: seq<Block>, ok: Outcome) | WriteRequest(buffer: seq<Block>, ok: Outcome)

  ghost predicate Fits(r: Request, s: Store) { |r.buffer| >= |s.device| }

  /** The store, the client's buffer and the status after one request. */
  function Serve(s: Store, r: Request): (Store, seq<Block>, int)
    requires s.Valid() && Fits(r, s)
  {
    match r
    case ReadRequest(buffer, ok) => Read(s, buffer, ok)
    case WriteRequest(buffer, ok) => var (s', status) := Write(s, buffer, ok); (s', buffer, status)
  }

  /** The cache stays coherent with the device through any requests, failed ones included. */
  lemma ServeKeepsValid(s: Store, r: Request)
    requires s.Valid() && Fits(r, s)
    ensures Serve(s, r).0.Valid() && Serve(s, r).0.kind == s.kind
    ensures s.cached ==> Serve(s, r).0.cached
  {
  }

  lemma DeviceSize(s: Store)
    requires s.Valid()
    ensures |s.device| == if s.kind == 0 then 0 else if s.kind == 1 then 64 else 256
  {
  }

  /* ----- the chip and the manager ----- */

  /** The chip, with a record of every state that a completed block write left it in. */
  class Chip {
    const blocks: array<Block>
    ghost var history: seq<seq<Block>>

    constructor (initial: seq<Block>)
      ensures fresh(blocks) && blocks[..] == initial && history == []
    {
      blocks := new Block[|initial|](i requires 0 <= i < |initial| => initial[i]);
      history := [];
    }

    /** A block write either completes or, with a non-zero status, leaves the chip as it was. */
    method WriteBlock(i: nat, b: Block, ok: bool) returns (status: int)
      requires i < blocks.Length
      modifies this`history, blocks
      ensures if ok then status == 0 && blocks[..] == old(blocks[..])[i := b] && history == old(history) + [blocks[..]]
              else status == -1 && blocks[..] == old(blocks[..]) && history == old(history)
    {
      if !ok {
        return -1;
      }
      blocks[i] := b;
      history := history + [blocks[..]];
      return 0;
    }

    method ReadBlock(i: nat, ok: bool) returns (status: int, b: Block)
      requires i < blocks.Length
      ensures if ok then status == 0 && b == blocks[i] else status == -1
    {
      b := blocks[i];
      status := if ok then 0 else -1;
    }
  }

  class EepMgr {
    const chip: Chip
    const kind: int
    const numBlocks: int
    const cache: array<Block>
    var cached: bool

    ghost function Repr(): set<object>
      reads chip
    {
      {this, chip, cache, chip.blocks}
    }

    ghost predicate Shaped()
      reads this, chip
    {
      && 0 <= kind <= 2 && numBlocks == MaxBlocks(kind) == cache.Length == chip.blocks.Length
      && cache != chip.blocks
    }

    ghost function Value(): Store
      reads this, chip, cache, chip.blocks
    {
      Store(kind, cached, cache[..], chip.blocks[..])
    }

    ghost predicate Valid()
      reads this, chip, cache, chip.blocks
    {
      Shaped() && Value().Valid()
    }

    constructor (chip: Chip, kind: int, cache: array<Block>)
      requires 0 <= kind <= 2 && cache.Length == chip.blocks.Length == MaxBlocks(kind) && cache != chip.blocks
      ensures Valid() && this.chip == chip && this.cache == cache && Value() == Store(kind, false, cache[..], chip.blocks[..])
    {
      this.chip := chip;
      this.kind := kind;
      this.numBlocks := MaxBlocks(kind);
      this.cache := cache;
      this.cached := false;
    }

    /** The first `i` blocks of a write request are done; `was` and `past` are the device and its history before it. */
    ghost predicate Written(now: seq<Block>, was: seq<Block>, past: seq<seq<Block>>, i: nat)
      reads this, chip, cache, chip.blocks
    {
      && i <= |was| <= |now| && |was| == cache.Length == chip.blocks.Length && cache != chip.blocks
      && chip.blocks[..] == cache[..] == Torn(now, was, i)
      && chip.history == past + Trace(now, was, i)
    }

    /** One block: skipped when the cache already has it, otherwise sent to the chip and then cached. */
    method WriteThrough(i: nat, b: Block, ok: bool, ghost now: seq<Block>, ghost was: seq<Block>, ghost past: seq<seq<Block>>)
      returns (status: int)
      requires Written(now, was, past, i) && i < |was| && now[i] == b
      modifies chip`history, cache, chip.blocks
      ensures status == if now[i] != was[i] && !ok then -1 else 0
      ensures Written(now, was, past, if status == 0 then i + 1 else i)
    {
      TornNext(now, was, i);
      if b != cache[i] {
        var s := chip.WriteBlock(i, b, ok);
        if s != 0 {
          return -1;
        }
        cache[i] := b;
        assert chip.history == past + (Trace(now, was, i) + [Torn(now, was, i + 1)]);
      }
      return 0;
    }

    method WriteBlocks(buffer: array<Block>, ok: Outcome, ghost was: seq<Block>, ghost past: seq<seq<Block>>)
      returns (status: int)
      requires Shaped() && Written(buffer[..], was, past, 0)
      requires buffer != cache && buffer != chip.blocks
      modifies chip`history, cache, chip.blocks
      ensures Written(buffer[..], was, past, Stop(buffer[..], was, ok, 0))
      ensures status == if Stop(buffer[..], was, ok, 0) < |was| then -1 else 0
    {
      ghost var now := buffer[..];
      var i := 0;
      while i < numBlocks
        invariant 0 <= i <= numBlocks && buffer[..] == now
        invariant Written(now, was, past, i)
        invariant Stop(now, was, ok, 0) == Stop(now, was, ok, i)
      {
        hide Torn, Trace;
        var s := WriteThrough(i, buffer[i], ok(i), now, was, past);
        if s != 0 {
          return -1;
        }
        i := i + 1;
      }
      return 0;
    }

    /** Writes through every block that differs, stopping at the first the chip refuses. */
    method HandleWrite(buffer: array<Block>, ok: Outcome) returns (status: int)
      requires Valid() && buffer !in Repr() && buffer.Length >= numBlocks
      modifies chip`history, cache, chip.blocks
      ensures Valid() && (Value(), status) == Write(old(Value()), buffer[..], ok)
      ensures chip.history == old(chip.history) + WriteTrace(old(Value()), buffer[..], ok)
    {
      hide Torn, Stop, Trace;
      if kind == 0 {
        return -1;
      }
      if !cached {
        return -1;
      }
      TornNone(buffer[..], cache[..], chip.history);
      status := WriteBlocks(buffer, ok, cache[..], chip.history);
    }

    method FillCache(ok: Outcome) returns (status: int)
      requires Valid() && !cached
      modifies cache
      ensures Shaped()
      ensures var k := ReadStop(numBlocks, ok, 0);
        && cache[..] == chip.blocks[..k] + old(cache[..])[k..]
        && status == if k < numBlocks then -1 else 0
    {
      hide ReadStop, MaxBlocks, Store.Valid;
      var i := 0;
      while i < numBlocks
        invariant 0 <= i <= numBlocks
        invariant ReadStop(numBlocks, ok, 0) == ReadStop(numBlocks, ok, i)
        invariant forall j :: 0 <= j < i ==> cache[j] == chip.blocks[j]
        invariant forall j :: i <= j < numBlocks ==> cache[j] == old(cache[j])
      {
        ReadStopNext(numBlocks, ok, i);
        var s, b := chip.ReadBlock(i, ok(i));
        if s != 0 {
          FilledIs(cache[..], chip.blocks[..], old(cache[..]), i);
          return -1;
        }
        cache[i] := b;
        i := i + 1;
      }
      ReadStopNext(numBlocks, ok, i);
      FilledIs(cache[..], chip.blocks[..], old(cache[..]), i);
      return 0;
    }

    static lemma FilledIs(now: seq<Block>, blocks: seq<Block>, was: seq<Block>, k: nat)
      requires |now| == |blocks| == |was| && k <= |now|
      requires forall j :: 0 <= j < k ==> now[j] == blocks[j]
      requires forall j :: k <= j < |now| ==> now[j] == was[j]
      ensures now == blocks[..k] + was[k..]
    {
    }

    method CopyOut(buffer: array<Block>)
      requires Shaped() && buffer != cache && buffer.Length >= numBlocks
      modifies buffer
      ensures buffer[..] == cache[..] + old(buffer[..])[numBlocks..]
    {
      for i := 0 to numBlocks
        invariant forall j :: 0 <= j < i ==> buffer[j] == cache[j]
        invariant forall j :: i <= j < buffer.Length ==> buffer[j] == old(buffer[j])
      {
        buffer[i] := cache[i];
      }
    }

    method HandleRead(buffer: array<Block>, ok: Outcome) returns (status: int)
      requires Valid() && buffer !in Repr() && buffer.Length >= numBlocks
      modifies this`cached, cache, buffer
      ensures Valid() && (Value(), buffer[..], status) == Read(old(Value()), old(buffer[..]), ok)
    {
      if kind == 0 {
        return -1;
      }
      if !cached {
        var s := FillCache(ok);
        if s != 0 {
          return -1;
        }
        cached := true;
      }
      CopyOut(buffer);
      return 0;
    }
  }
}
