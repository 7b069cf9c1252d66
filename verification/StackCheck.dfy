/** The registry of thread stacks, and the check of how much of each was never written. */
module StackCheck {
  import opened Bytes

  type Signed = n: int | -0x8000_0000 <= n < 0x8000_0000

  datatype Status = StatusOk | Warning | Overflow

  class StackEntry {
    var next: StackEntry?
    var prev: StackEntry?
    var head: nat
    var tail: nat
    var initValue: Word
    var minSpace: Signed
    var name: string

    constructor () {
      next, prev, head, tail, initValue, minSpace, name := null, null, 0, 0, 0, 0, "";
    }
  }

  /** A signed value as the unsigned one that a comparison with a size makes of it. */
  function Unsigned(n: Signed): (u: Word)
    ensures (u - n) % 0x1_0000_0000 == 0
    ensures n < 0 <==> u >= 0x8000_0000
  {
    if n >= 0 then n else n + 0x1_0000_0000
  }

  /** The word after the last that starts below `tail`. */
  function WordEnd(head: nat, tail: nat): (n: nat)
    ensures head % 4 == 0 ==> n >= head / 4 && forall w :: head / 4 <= w ==> (w < n <==> 4 * w < tail)
  {
    if tail <= head then head / 4 else (tail + 3) / 4
  }

  /** How many words from `lo` on, and before `hi`, still hold `v`. */
  function Untouched(ram: seq<Word>, lo: nat, hi: nat, v: Word): (n: nat)
    requires lo <= hi <= |ram|
    ensures lo + n <= hi
    ensures forall w :: lo <= w < lo + n ==> ram[w] == v
    ensures lo + n < hi ==> ram[lo + n] != v
    decreases hi - lo
  {
    if lo < hi && ram[lo] == v then 1 + Untouched(ram, lo + 1, hi, v) else 0
  }

  lemma {:induction false} UntouchedIs(ram: seq<Word>, lo: nat, hi: nat, v: Word, n: nat)
    requires lo <= hi <= |ram| && lo + n <= hi && (forall w :: lo <= w < lo + n ==> ram[w] == v)
    requires lo + n == hi || ram[lo + n] != v
    ensures Untouched(ram, lo, hi, v) == n
    decreases n
  {
    if n > 0 {
      UntouchedIs(ram, lo + 1, hi, v, n - 1);
    }
  }

  /** Only a stack's own words matter. */
  lemma UntouchedElsewhere(ram: seq<Word>, other: seq<Word>, lo: nat, hi: nat, v: Word)
    requires lo <= hi <= |ram| == |other| && ram[lo..hi] == other[lo..hi]
    ensures Untouched(ram, lo, hi, v) == Untouched(other, lo, hi, v)
  {
    assert forall w :: lo <= w < hi ==> other[w] == ram[lo..hi][w - lo] == ram[w];
    UntouchedIs(other, lo, hi, v, Untouched(ram, lo, hi, v));
  }

  predicate Fits(e: StackEntry, words: nat)
    reads e
  {
    e.head % 4 == 0 && WordEnd(e.head, e.tail) <= words
  }

  /** The bytes that were never written, from the far end of the stack. */
  ghost function Free(e: StackEntry, ram: array<Word>): nat
    requires Fits(e, ram.Length)
    reads e, ram
  {
    4 * Untouched(ram[..], e.head / 4, WordEnd(e.head, e.tail), e.initValue)
  }

  ghost predicate Healthy(e: StackEntry, ram: array<Word>)
    requires Fits(e, ram.Length)
    reads e, ram
  {
    Free(e, ram) > 0 && (e.minSpace == -1 || Unsigned(e.minSpace) <= Free(e, ram))
  }

  /** A stack that was just filled is in order exactly if it is not empty and as large as it has to be. */
  lemma FilledIsHealthy(e: StackEntry, ram: array<Word>)
    requires Fits(e, ram.Length)
    requires forall w :: e.head / 4 <= w < WordEnd(e.head, e.tail) ==> ram[w] == e.initValue
    ensures var size := 4 * (WordEnd(e.head, e.tail) - e.head / 4);
      Healthy(e, ram) <==> size > 0 && (e.minSpace == -1 || Unsigned(e.minSpace) <= size)
  {
    var lo, hi := e.head / 4, WordEnd(e.head, e.tail);
    UntouchedIs(ram[..], lo, hi, e.initValue, hi - lo);
  }

  /** A negative minimum, other than the one that asks for no check, is never met by a stack of less than 2 GB. */
  lemma NegativeMinimumWarns(e: StackEntry, ram: array<Word>)
    requires Fits(e, ram.Length) && e.minSpace < -1 && 4 * (WordEnd(e.head, e.tail) - e.head / 4) < 0x8000_0000
    ensures !Healthy(e, ram)
  {
    var free := Free(e, ram);
    assert free <= 4 * (WordEnd(e.head, e.tail) - e.head / 4);
  }

  ghost function After(list: seq<StackEntry>, i: nat): StackEntry? { if i < |list| then list[i] else null }

  ghost function Before(list: seq<StackEntry>, i: nat): StackEntry?
    requires i <= |list|
  {
    if i > 0 then list[i - 1] else null
  }

  ghost predicate Distinct(list: seq<StackEntry>) {
    forall i, j :: 0 <= i < j < |list| ==> list[i] != list[j]
  }

  ghost predicate Unlisted(e: StackEntry?, list: seq<StackEntry>) {
    forall i :: 0 <= i < |list| ==> list[i] != e
  }

  /** Following `next` from `start` visits `list`, and ends. */
  ghost predicate Forward(start: StackEntry?, list: seq<StackEntry>)
    reads list
  {
    && start == After(list, 0)
    && Distinct(list)
    && forall i :: 0 <= i < |list| ==> list[i].next == After(list, i + 1)
  }

  /** And `prev` leads back. */
  ghost predicate Backward(end: StackEntry?, list: seq<StackEntry>)
    reads list
  {
    && end == Before(list, |list|)
    && forall i :: 0 <= i < |list| ==> list[i].prev == Before(list, i)
  }

  ghost function Without(list: seq<StackEntry>, k: nat): seq<StackEntry>
    requires k < |list|
  {
    list[..k] + list[k + 1..]
  }

  /** A thread's stack is registered when the thread is made, and taken out when it ends. */
  datatype Op =
    | Enter(entry: StackEntry, bottom: nat, top: nat, initValue: Word, minSpace: Signed, name: string)
    | Leave(entry: StackEntry)

  ghost function Effect(list: seq<StackEntry>, op: Op): seq<StackEntry> {
    match op
    case Enter(entry, _, _, _, _, _) => list + [entry]
    case Leave(_) => if list == [] then list else list[..|list| - 1]
  }

  /** New entries enter, and the last entry leaves. */
  ghost predicate Allowed(list: seq<StackEntry>, op: Op, words: nat) {
    match op
    case Enter(entry, bottom, top, _, _, _) => entry !in list && bottom % 4 == 0 && WordEnd(bottom, top) <= words
    case Leave(entry) => list != [] && entry == list[|list| - 1]
  }

  ghost function ListAfter(list: seq<StackEntry>, ops: seq<Op>): seq<StackEntry>
    decreases |ops|
  {
    if ops == [] then list else ListAfter(Effect(list, ops[0]), ops[1..])
  }

  ghost predicate AllAllowed(list: seq<StackEntry>, ops: seq<Op>, words: nat)
    decreases |ops|
  {
    ops == [] || (Allowed(list, ops[0], words) && AllAllowed(Effect(list, ops[0]), ops[1..], words))
  }

  ghost function Entries(ops: seq<Op>): (r: set<StackEntry>)
    ensures forall i :: 0 <= i < |ops| ==> ops[i].entry in r
  {
    set i | 0 <= i < |ops| :: ops[i].entry
  }

  class Registry {
    var start: StackEntry?
    var end: StackEntry?
    const ram: array<Word>

    constructor (ram: array<Word>)
      ensures this.ram == ram && Linked([])
    {
      start, end := null, null;
      this.ram := ram;
    }

    /** The registry holds `list`, in order. */
    ghost predicate Lists(list: seq<StackEntry>)
      reads this, list
    {
      Forward(start, list)
    }

    ghost predicate Linked(list: seq<StackEntry>)
      reads this, list
    {
      Forward(start, list) && Backward(end, list)
    }

    ghost predicate AllFit(list: seq<StackEntry>)
      reads list
    {
      forall i :: 0 <= i < |list| ==> Fits(list[i], ram.Length)
    }

    method Fill(e: StackEntry)
      requires Fits(e, ram.Length)
      modifies ram
      ensures var lo, hi := e.head / 4, WordEnd(e.head, e.tail);
        forall w :: 0 <= w < ram.Length ==> ram[w] == if lo <= w < hi then e.initValue else old(ram[w])
    {
      var addr := e.head;
      var hi := WordEnd(e.head, e.tail);
      while addr < e.tail
        invariant addr % 4 == 0 && e.head / 4 <= addr / 4 <= hi
        invariant forall w :: 0 <= w < ram.Length ==>
          ram[w] == if e.head / 4 <= w < addr / 4 then e.initValue else old(ram[w])
        decreases hi - addr / 4
      {
        ram[addr / 4] := e.initValue;
        addr := addr + 4;
      }
    }

    /** Registers an entry at the end, and fills its stack unless nothing is to be kept free. */
    method Init(entry: StackEntry, stackBottom: nat, stackTop: nat, initValue: Word, minSpace: Signed, name: string,
                ghost list: seq<StackEntry>)
      requires Linked(list) && entry !in list
      requires stackBottom % 4 == 0 && WordEnd(stackBottom, stackTop) <= ram.Length
      modifies this, entry, {end}, ram
      ensures Linked(list + [entry])
      ensures entry.head == stackBottom && entry.tail == stackTop && entry.initValue == initValue
        && entry.minSpace == minSpace && entry.name == name
      ensures var lo, hi := stackBottom / 4, WordEnd(stackBottom, stackTop);
        forall w :: 0 <= w < ram.Length ==> ram[w] == if minSpace != -1 && lo <= w < hi then initValue else old(ram[w])
      ensures forall e :: e in list ==> Registered(e)
    {
      hide Forward, Backward, Fits, WordEnd;
      Append(entry, stackBottom, stackTop, initValue, minSpace, name, list);
      FitsSame(entry, stackBottom, stackTop);
      if entry.minSpace != -1 {
        Fill(entry);
      }
    }

    lemma FitsSame(e: StackEntry, stackBottom: nat, stackTop: nat)
      requires stackBottom % 4 == 0 && WordEnd(stackBottom, stackTop) <= ram.Length
      requires e.head == stackBottom && e.tail == stackTop
      ensures Fits(e, ram.Length)
    {
    }

    method Append(entry: StackEntry, stackBottom: nat, stackTop: nat, initValue: Word, minSpace: Signed, name: string,
                  ghost list: seq<StackEntry>)
      requires Linked(list) && entry !in list
      modifies this, entry, {end}
      ensures Linked(list + [entry])
      ensures entry.head == stackBottom && entry.tail == stackTop && entry.initValue == initValue
        && entry.minSpace == minSpace && entry.name == name
      ensures forall e :: e in list ==> Registered(e)
    {
      ghost var n := |list|;
      assert n > 0 ==> end == list[n - 1] && end != entry;
      Register(entry, stackBottom, stackTop, initValue, minSpace, name);
      ghost var more := list + [entry];
      forall i | 0 <= i < n + 1 ensures more[i].next == After(more, i + 1) && more[i].prev == Before(more, i) {
        if i < n - 1 {
          assert list[i] != list[n - 1] && list[i].next == After(list, i + 1) && list[i].prev == Before(list, i);
        }
      }
    }

    /** The entry's own fields are as they were. */
    twostate predicate Registered(e: StackEntry)
      reads e
    {
      e.head == old(e.head) && e.tail == old(e.tail) && e.initValue == old(e.initValue) && e.minSpace == old(e.minSpace)
      && e.name == old(e.name)
    }

    method Register(entry: StackEntry, stackBottom: nat, stackTop: nat, initValue: Word, minSpace: Signed, name: string)
      modifies this, entry, {end}
      ensures entry.head == stackBottom && entry.tail == stackTop && entry.initValue == initValue
        && entry.minSpace == minSpace && entry.name == name
      ensures old(end) != entry ==> entry.prev == old(end) && entry.next == null
      ensures end == entry && start == if old(start) == null then entry else old(start)
      ensures old(end) != null && old(end) != entry ==>
        old(end).next == entry && old(end).prev == old(end.prev) && Registered(old(end))
      ensures old(end) == entry ==> entry.next == entry
    {
      entry.head := stackBottom;
      entry.tail := stackTop;
      entry.initValue := initValue;
      entry.minSpace := minSpace;
      entry.name := name;
      entry.prev := end;
      entry.next := null;
      if end != null {
        end.next := entry;
      }
      end := entry;
      if start == null {
        start := entry;
      }
    }

    /** What the registration of no entry does: the list is empty, but its end is not forgotten. */
    method InitNone()
      modifies `start
      ensures Lists([]) && end == old(end)
      ensures Linked([]) <==> old(end) == null
    {
      start := null;
    }

    /** Takes an entry out, whatever its links say. */
    method Cleanup(entry: StackEntry)
      modifies this, {entry.prev}
      ensures start == if old(entry.prev) == null then old(entry.next) else old(start)
      ensures end == if old(entry.next) == null then old(entry.prev) else old(end)
      ensures entry.prev == old(entry.prev) && entry.next == old(entry.next)
      ensures old(entry.prev) != null ==>
        entry.prev.next == old(entry.next) && entry.prev.prev == old(entry.prev.prev) && Registered(entry.prev)
    {
      if entry.prev == null {
        start := entry.next;
      } else {
        entry.prev.next := entry.next;
      }
      if entry.next == null {
        end := entry.prev;
      }
    }

    /**
     One entry of a list is taken out.  What follows it is not told, so that the list stays fully linked exactly
     if the entry was the last.
     */
    method CleanupListed(entry: StackEntry, ghost list: seq<StackEntry>, ghost k: nat)
      requires Lists(list) && k < |list| && entry == list[k] && entry.prev == Before(list, k)
      modifies this, {entry.prev}
      ensures Lists(Without(list, k))
      ensures end == if k == |list| - 1 then entry.prev else old(end)
      ensures entry.prev == old(entry.prev)
      ensures forall e :: e in list ==> Registered(e) && e.prev == old(e.prev)
      ensures old(Linked(list)) ==> (Linked(Without(list, k)) <==> k == |list| - 1)
    {
      Unlink(entry, list, k);
      if old(Linked(list)) {
        BackLinks(list, k);
      }
    }

    lemma LastKnown(list: seq<StackEntry>)
      requires Linked(list) && list != []
      ensures list[|list| - 1].prev == Before(list, |list| - 1) && Without(list, |list| - 1) == list[..|list| - 1]
    {
    }

    lemma EndKnown(list: seq<StackEntry>)
      requires Linked(list)
      ensures end == null || end in list
    {
    }

    /** One registration, or one removal of the last entry. */
    method Perform(op: Op, ghost list: seq<StackEntry>)
      requires Linked(list) && AllFit(list) && Allowed(list, op, ram.Length)
      modifies this, op.entry, list, ram
      ensures Linked(Effect(list, op)) && AllFit(Effect(list, op))
    {
      hide Forward, Backward, WordEnd, Without;
      EndKnown(list);
      match op {
        case Enter(entry, bottom, top, initValue, minSpace, name) =>
          Init(entry, bottom, top, initValue, minSpace, name, list);
          assert forall e :: e in list ==> Registered(e) && old(Fits(e, ram.Length));
        case Leave(entry) =>
          LastKnown(list);
          CleanupListed(entry, list, |list| - 1);
          assert forall e :: e in list ==> Registered(e) && old(Fits(e, ram.Length));
      }
    }

    /** Any sequence of registrations, and of removals of the last entry: the list stays fully linked. */
    method PerformAll(ops: seq<Op>, ghost list: seq<StackEntry>) returns (ghost now: seq<StackEntry>)
      requires Linked(list) && AllFit(list) && AllAllowed(list, ops, ram.Length)
      modifies this, Entries(ops), list, ram
      ensures now == ListAfter(list, ops) && Linked(now) && AllFit(now)
    {
      hide Forward, Backward, Fits, WordEnd, Allowed, Effect;
      now := list;
      for i := 0 to |ops|
        invariant Linked(now) && AllFit(now) && AllAllowed(now, ops[i..], ram.Length)
        invariant ListAfter(now, ops[i..]) == ListAfter(list, ops)
        invariant forall e :: e in now ==> e in list || e in Entries(ops)
      {
        assert ops[i..][0] == ops[i] && ops[i..][1..] == ops[i + 1..];
        EffectIn(now, ops[i]);
        Perform(ops[i], now);
        now := Effect(now, ops[i]);
      }
    }

    /** An entry whose back link leads outside the list is not taken out. */
    method CleanupStale(entry: StackEntry, ghost list: seq<StackEntry>)
      requires Lists(list) && entry.prev != null && Unlisted(entry.prev, list)
      modifies this, {entry.prev}
      ensures Lists(list) && end == if old(entry.next) == null then entry.prev else old(end)
    {
      Cleanup(entry);
    }

    /** So when two neighbours are taken out, the first one first, the second one stays in the list. */
    method CleanupNeighbours(entry: StackEntry, follower: StackEntry, ghost list: seq<StackEntry>, ghost k: nat)
      requires Linked(list) && k + 1 < |list| && entry == list[k] && follower == list[k + 1]
      modifies this, list
      ensures Lists(Without(list, k)) && Without(list, k)[k] == follower
      ensures k + 1 == |list| - 1 ==> end == entry
    {
      hide *;
      Neighbours(list, k);
      CleanupListed(entry, list, k);
      CleanupStale(follower, Without(list, k));
    }

    lemma Neighbours(list: seq<StackEntry>, k: nat)
      requires Linked(list) && k + 1 < |list|
      ensures Lists(list) && list[k].prev == Before(list, k) && list[k + 1].prev == list[k] && list[k + 1] != list[k].prev
      ensures (list[k].prev == null || list[k].prev in list) && (k + 1 == |list| - 1 ==> list[k + 1].next == null)
      ensures Unlisted(list[k], Without(list, k)) && k < |Without(list, k)| && Without(list, k)[k] == list[k + 1]
    {
      NotIn(list, k);
      WithoutAt(list, k);
      hide Without, Unlisted;
      OnlyOne(list, k);
    }

    /** After the list was emptied by registering no entry, a new entry is linked to the old end; it cannot be taken out. */
    method InitAfterNone(entry: StackEntry, stackBottom: nat, stackTop: nat, initValue: Word, minSpace: Signed, name: string)
      requires Lists([]) && end != null && end != entry
      modifies this, entry, {end}
      ensures Lists([entry]) && entry.prev == old(end) && !Linked([entry])
      ensures Unlisted(entry.prev, [entry])
    {
      Register(entry, stackBottom, stackTop, initValue, minSpace, name);
    }

    method Unlink(entry: StackEntry, ghost list: seq<StackEntry>, ghost k: nat)
      requires Lists(list) && k < |list| && entry == list[k] && entry.prev == Before(list, k)
      modifies this, {entry.prev}
      ensures Lists(Without(list, k))
      ensures end == if k == |list| - 1 then entry.prev else old(end)
      ensures entry.prev == old(entry.prev)
      ensures forall e :: e in list ==> Registered(e) && e.prev == old(e.prev)
    {
      ghost var rest, p := Without(list, k), entry.prev;
      WithoutAt(list, k);
      OnlyOne(list, k);
      hide Without, Distinct;
      Cleanup(entry);
      forall i | 0 <= i < |rest| ensures rest[i].next == After(rest, i + 1) {
        if i == k - 1 {
          assert rest[i] == p;
        } else {
          ghost var j := if i < k then i else i + 1;
          assert rest[i] == list[j] && list[j].next == After(list, j + 1);
        }
      }
    }

    /** Of the back links, only the one that led to the entry is wrong now. */
    lemma BackLinks(list: seq<StackEntry>, k: nat)
      requires k < |list| && Lists(Without(list, k))
      requires forall i :: 0 <= i < |list| ==> list[i].prev == Before(list, i)
      requires Distinct(list)
      requires end == if k == |list| - 1 then list[k].prev else list[|list| - 1]
      ensures Linked(Without(list, k)) <==> k == |list| - 1
    {
      var rest := Without(list, k);
      WithoutAt(list, k);
      hide Forward, Without;
      if k < |list| - 1 {
        assert rest[k].prev == list[k] != Before(rest, k);
      }
    }

    /** The status of one stack. */
    method CheckOne(entry: StackEntry) returns (status: Status)
      requires Fits(entry, ram.Length)
      ensures status == StatusOk <==> Healthy(entry, ram)
      ensures status == Overflow <==> Free(entry, ram) == 0
    {
      var iter := entry.head;
      ghost var lo, hi := entry.head / 4, WordEnd(entry.head, entry.tail);
      while iter < entry.tail && ram[iter / 4] == entry.initValue
        invariant iter % 4 == 0 && lo <= iter / 4 <= hi
        invariant forall w :: lo <= w < iter / 4 ==> ram[w] == entry.initValue
        decreases hi - iter / 4
      {
        iter := iter + 4;
      }
      UntouchedIs(ram[..], lo, hi, entry.initValue, iter / 4 - lo);
      var free := iter - entry.head;
      if free == 0 {
        status := Overflow;
      } else if free < Unsigned(entry.minSpace) && entry.minSpace != -1 {
        status := Warning;
      } else {
        status := StatusOk;
      }
    }

    ghost predicate AllHealthy(list: seq<StackEntry>)
      requires AllFit(list)
      reads list, ram
    {
      forall i :: 0 <= i < |list| ==> Healthy(list[i], ram)
    }

    lemma HealthyNext(list: seq<StackEntry>, i: nat)
      requires AllFit(list) && i < |list|
      ensures AllFit(list[..i]) && AllFit(list[..i + 1]) && Fits(list[i], ram.Length)
      ensures AllHealthy(list[..i + 1]) <==> AllHealthy(list[..i]) && Healthy(list[i], ram)
    {
      hide Fits, Healthy;
      var less, more := list[..i], list[..i + 1];
      assert more[i] == list[i] && forall j :: 0 <= j < i ==> more[j] == less[j];
    }

    lemma NextOf(list: seq<StackEntry>, i: nat)
      requires Lists(list) && i < |list|
      ensures list[i].next == After(list, i + 1) && After(list, i) == list[i]
    {
    }

    /** Checks all stacks, and reports 1 if any of them is in a bad state. */
    method CheckAll(ghost list: seq<StackEntry>) returns (r: int)
      requires Lists(list) && AllFit(list)
      ensures r == if AllHealthy(list) then 0 else 1
    {
      hide Healthy, Fits, Distinct, Unsigned, WordEnd, Free, Backward, Forward, AllHealthy;
      AllNone();
      StartOf(list);
      var iter := start;
      r := 0;
      ghost var i: nat := 0;
      while iter != null
        invariant i <= |list| && iter == After(list, i)
        invariant AllFit(list[..i]) && r == if AllHealthy(list[..i]) then 0 else 1
        decreases |list| - i
      {
        HealthyNext(list, i);
        NextOf(list, i);
        var status := CheckOne(iter);
        if status != StatusOk {
          r := 1;
        }
        iter := iter.next;
        i := i + 1;
      }
      assert list[..i] == list;
    }

    lemma AllNone()
      ensures AllHealthy([])
    {
    }

    lemma StartOf(list: seq<StackEntry>)
      requires Lists(list)
      ensures start == After(list, 0)
    {
    }
  }

  lemma EffectIn(list: seq<StackEntry>, op: Op)
    ensures forall e :: e in Effect(list, op) ==> e in list || e == op.entry
  {
  }

  lemma WithoutAt(list: seq<StackEntry>, k: nat)
    requires k < |list|
    ensures |Without(list, k)| == |list| - 1
    ensures forall i :: 0 <= i < |list| - 1 ==> Without(list, k)[i] == if i < k then list[i] else list[i + 1]
    ensures Distinct(list) ==> Distinct(Without(list, k))
  {
  }

  lemma NotIn(list: seq<StackEntry>, k: nat)
    requires Distinct(list) && k < |list|
    ensures Unlisted(list[k], Without(list, k))
  {
  }

  lemma OnlyOne(list: seq<StackEntry>, k: nat)
    requires Distinct(list) && k <= |list|
    ensures forall i :: 0 <= i < |list| && i != k - 1 ==> list[i] != Before(list, k)
  {
  }
}
