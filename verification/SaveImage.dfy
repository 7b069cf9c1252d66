/** The save file: two checksummed copies of the game's data, and what survives a loss of power. */
module SaveImage {
  import opened Bytes
  import opened Eeprom

  const DATA_SIZE := 0x3FA
  const COPY_SIZE := 0x400
  const COPY_BLOCKS := 128

  const MAGIC: seq<Byte> := [0x81, 0x31, 0x75, 0x31]

  /** The checksum of the data bytes; its code is not shown. */
  type Checksum = seq<Byte> -> Half

  type Data = d: seq<Byte> | |d| == DATA_SIZE witness seq(DATA_SIZE, _ => 0)

  /* ----- blocks and bytes ----- */

  function BlockAt(s: seq<Byte>, i: nat): Block
    requires 8 * i + 8 <= |s|
  {
    Block(s[8 * i], s[8 * i + 1], s[8 * i + 2], s[8 * i + 3], s[8 * i + 4], s[8 * i + 5], s[8 * i + 6], s[8 * i + 7])
  }

  function ToBlocks(s: seq<Byte>): (b: seq<Block>)
    requires |s| == COPY_SIZE
    ensures |b| == COPY_BLOCKS
  {
    seq(COPY_BLOCKS, i requires 0 <= i < COPY_BLOCKS => BlockAt(s, i))
  }

  function ByteAt(b: Block, k: nat): Byte {
    match k
    case 0 => b.b0
    case 1 => b.b1
    case 2 => b.b2
    case 3 => b.b3
    case 4 => b.b4
    case 5 => b.b5
    case 6 => b.b6
    case _ => b.b7
  }

  function ToBytes(b: seq<Block>): (s: seq<Byte>)
    requires |b| == COPY_BLOCKS
    ensures |s| == COPY_SIZE
  {
    seq(COPY_SIZE, i requires 0 <= i < COPY_SIZE => ByteAt(b[i / 8], i % 8))
  }

  lemma BlocksRoundTrip(s: seq<Byte>)
    requires |s| == COPY_SIZE
    ensures ToBytes(ToBlocks(s)) == s
  {
    forall i | 0 <= i < COPY_SIZE ensures ToBytes(ToBlocks(s))[i] == s[i] {
      assert i == 8 * (i / 8) + i % 8;
    }
  }

  lemma ByteBack(b: seq<Block>, i: nat, k: nat)
    requires |b| == COPY_BLOCKS && i < COPY_BLOCKS && k < 8
    ensures ToBytes(b)[8 * i + k] == ByteAt(b[i], k)
  {
    hide ByteAt;
    assert (8 * i + k) / 8 == i && (8 * i + k) % 8 == k;
  }

  lemma BlockBack(b: seq<Block>, i: nat)
    requires |b| == COPY_BLOCKS && i < COPY_BLOCKS
    ensures BlockAt(ToBytes(b), i) == b[i]
  {
    hide ToBytes;
    ByteBack(b, i, 0);
    ByteBack(b, i, 1);
    ByteBack(b, i, 2);
    ByteBack(b, i, 3);
    ByteBack(b, i, 4);
    ByteBack(b, i, 5);
    ByteBack(b, i, 6);
    ByteBack(b, i, 7);
  }

  lemma BytesRoundTrip(b: seq<Block>)
    requires |b| == COPY_BLOCKS
    ensures ToBlocks(ToBytes(b)) == b
  {
    hide ToBytes, BlockAt;
    forall i | 0 <= i < COPY_BLOCKS ensures ToBlocks(ToBytes(b))[i] == b[i] {
      BlockBack(b, i);
    }
  }

  /* ----- one copy, and the whole file ----- */

  function Copy(d: Data, sum: Checksum): (c: seq<Byte>)
    ensures |c| == COPY_SIZE
  {
    d + EncodeHalf(sum(d)) + MAGIC
  }

  function DataOf(c: seq<Byte>): Data
    requires |c| == COPY_SIZE
  {
    c[..DATA_SIZE]
  }

  /** What a copy holds behind its data is right for `d`. */
  predicate Seals(c: seq<Byte>, d: Data, sum: Checksum)
    requires |c| == COPY_SIZE
  {
    DecodeHalf(c[DATA_SIZE..DATA_SIZE + 2]) == sum(d) && c[DATA_SIZE + 2..] == MAGIC
  }

  predicate Intact(c: seq<Byte>, sum: Checksum)
    requires |c| == COPY_SIZE
  {
    Seals(c, DataOf(c), sum)
  }

  function SaveFile(d: Data, sum: Checksum): (f: seq<Block>)
    ensures |f| == EEP16K_MAXBLOCKS
  {
    ToBlocks(Copy(d, sum)) + ToBlocks(Copy(d, sum))
  }

  datatype Loaded = Loaded(data: Data) | Corrupt

  /** The first copy if it is intact, else the second. */
  function LoadFile(f: seq<Block>, sum: Checksum): Loaded
    requires |f| == EEP16K_MAXBLOCKS
  {
    var c0, c1 := ToBytes(f[..COPY_BLOCKS]), ToBytes(f[COPY_BLOCKS..]);
    if Intact(c0, sum) then Loaded(DataOf(c0))
    else if Intact(c1, sum) then Loaded(DataOf(c1))
    else Corrupt
  }

  lemma CopySeals(was: Data, d: Data, sum: Checksum)
    ensures Seals(Copy(was, sum), d, sum) <==> sum(was) == sum(d)
  {
    hide DecodeHalf, EncodeHalf;
    HalfRoundTrip(sum(was));
    assert Copy(was, sum)[DATA_SIZE..DATA_SIZE + 2] == EncodeHalf(sum(was));
    assert Copy(was, sum)[DATA_SIZE + 2..] == MAGIC;
  }

  lemma CopyIsIntact(d: Data, sum: Checksum)
    ensures Intact(Copy(d, sum), sum) && DataOf(Copy(d, sum)) == d
  {
    hide Seals;
    CopySeals(d, d, sum);
    assert DataOf(Copy(d, sum)) == d;
  }

  /* ----- what the reader takes for a save ----- */

  /** Data, then their checksum with its high byte first, then the four bytes of the magic number. */
  ghost predicate Saved(c: seq<Byte>, d: Data, sum: Checksum)
    requires |c| == 0x400
  {
    && c[..0x3FA] == d
    && 256 * c[0x3FA] as int + c[0x3FB] as int == sum(d)
    && c[0x3FC] == 0x81 && c[0x3FD] == 0x31 && c[0x3FE] == 0x75 && c[0x3FF] == 0x31
  }

  lemma SealsAre(c: seq<Byte>, d: Data, sum: Checksum)
    requires |c| == COPY_SIZE
    ensures Seals(c, d, sum) <==>
      && 256 * c[0x3FA] as int + c[0x3FB] as int == sum(d)
      && c[0x3FC] == 0x81 && c[0x3FD] == 0x31 && c[0x3FE] == 0x75 && c[0x3FF] == 0x31
  {
    var m := c[0x3FC..];
    assert m[0] == c[0x3FC] && m[1] == c[0x3FD] && m[2] == c[0x3FE] && m[3] == c[0x3FF];
    assert m == [m[0], m[1], m[2], m[3]];
  }

  /** A copy is intact exactly if it is the copy of its own data, byte for byte. */
  lemma IntactIs(c: seq<Byte>, sum: Checksum)
    requires |c| == COPY_SIZE
    ensures Intact(c, sum) <==> Saved(c, DataOf(c), sum)
    ensures Intact(c, sum) <==> c == Copy(DataOf(c), sum)
  {
    hide Seals, EncodeHalf, DecodeHalf;
    var d := DataOf(c);
    SealsAre(c, d, sum);
    if Intact(c, sum) {
      SealedIsCopy(c, d, sum);
    } else if c == Copy(d, sum) {
      CopyIsIntact(d, sum);
    }
  }

  lemma SealedIsCopy(c: seq<Byte>, d: Data, sum: Checksum)
    requires |c| == COPY_SIZE && c[..DATA_SIZE] == d && Seals(c, d, sum)
    ensures c == Copy(d, sum)
  {
    hide EncodeHalf, DecodeHalf;
    HalfBack(c[DATA_SIZE..DATA_SIZE + 2]);
    assert c == c[..DATA_SIZE] + c[DATA_SIZE..DATA_SIZE + 2] + c[DATA_SIZE + 2..];
  }

  /** This half of the chip holds the copy of some data. */
  ghost predicate HoldsCopy(b: seq<Block>, d: Data, sum: Checksum)
    requires |b| == COPY_BLOCKS
  {
    b == ToBlocks(Copy(d, sum))
  }

  lemma HoldsIff(b: seq<Block>, d: Data, sum: Checksum)
    requires |b| == COPY_BLOCKS
    ensures HoldsCopy(b, d, sum) <==> Intact(ToBytes(b), sum) && DataOf(ToBytes(b)) == d
  {
    hide ToBlocks, ToBytes, Copy, Intact;
    IntactIs(ToBytes(b), sum);
    BytesRoundTrip(b);
    BlocksRoundTrip(Copy(d, sum));
    CopyIsIntact(d, sum);
  }

  /** The data of the first half that is a copy, or nothing if neither half is a copy of any data. */
  ghost predicate LoadsFrom(r: Loaded, f: seq<Block>, sum: Checksum)
    requires |f| == EEP16K_MAXBLOCKS
  {
    match r
    case Loaded(d) =>
      || HoldsCopy(f[..COPY_BLOCKS], d, sum)
      || (HoldsCopy(f[COPY_BLOCKS..], d, sum) && forall e :: !HoldsCopy(f[..COPY_BLOCKS], e, sum))
    case Corrupt => forall e :: !HoldsCopy(f[..COPY_BLOCKS], e, sum) && !HoldsCopy(f[COPY_BLOCKS..], e, sum)
  }

  /** A load is this, and nothing else is: of two results that it could be, both are the same. */
  lemma LoadIs(f: seq<Block>, sum: Checksum, r: Loaded)
    requires |f| == EEP16K_MAXBLOCKS
    ensures r == LoadFile(f, sum) <==> LoadsFrom(r, f, sum)
  {
    hide ToBlocks, ToBytes, Copy, Intact, DataOf, HoldsCopy;
    var b0, b1 := f[..COPY_BLOCKS], f[COPY_BLOCKS..];
    forall e: Data ensures HoldsCopy(b0, e, sum) <==> Intact(ToBytes(b0), sum) && DataOf(ToBytes(b0)) == e {
      HoldsIff(b0, e, sum);
    }
    forall e: Data ensures HoldsCopy(b1, e, sum) <==> Intact(ToBytes(b1), sum) && DataOf(ToBytes(b1)) == e {
      HoldsIff(b1, e, sum);
    }
    assert HoldsCopy(b0, DataOf(ToBytes(b0)), sum) <==> Intact(ToBytes(b0), sum);
    assert HoldsCopy(b1, DataOf(ToBytes(b1)), sum) <==> Intact(ToBytes(b1), sum);
  }

  lemma LoadAfterSave(d: Data, sum: Checksum)
    ensures LoadFile(SaveFile(d, sum), sum) == Loaded(d)
  {
    var f := SaveFile(d, sum);
    assert f[..COPY_BLOCKS] == ToBlocks(Copy(d, sum));
    BlocksRoundTrip(Copy(d, sum));
    CopyIsIntact(d, sum);
  }

  /* ----- loss of power ----- */

  /** The data of a first copy `c` when power fails with `k` of its blocks written. */
  function MixedOn(now: Data, c: seq<Byte>, k: nat): Data
    requires |c| == COPY_SIZE && k < COPY_BLOCKS
  {
    now[..8 * k] + c[8 * k..DATA_SIZE]
  }

  function Mixed(now: Data, was: Data, k: nat): Data
    requires k < COPY_BLOCKS
  {
    now[..8 * k] + was[8 * k..]
  }

  lemma MixedOnCopy(now: Data, was: Data, sum: Checksum, k: nat)
    requires k < COPY_BLOCKS
    ensures MixedOn(now, Copy(was, sum), k) == Mixed(now, was, k)
  {
    assert Copy(was, sum)[..DATA_SIZE] == was;
    assert Copy(was, sum)[8 * k..DATA_SIZE] == Copy(was, sum)[..DATA_SIZE][8 * k..];
  }

  lemma BlocksOfMix(a: seq<Byte>, b: seq<Byte>, k: nat)
    requires |a| == |b| == COPY_SIZE && k <= COPY_BLOCKS
    ensures ToBlocks(a)[..k] + ToBlocks(b)[k..] == ToBlocks(a[..8 * k] + b[8 * k..])
  {
    var m := a[..8 * k] + b[8 * k..];
    forall i | 0 <= i < COPY_BLOCKS ensures BlockAt(m, i) == if i < k then BlockAt(a, i) else BlockAt(b, i) {
    }
  }

  lemma MixData(now: Data, c: seq<Byte>, sum: Checksum, k: nat)
    requires |c| == COPY_SIZE && k < COPY_BLOCKS
    ensures (Copy(now, sum)[..8 * k] + c[8 * k..])[..DATA_SIZE] == MixedOn(now, c, k)
  {
    var p := Copy(now, sum)[..8 * k];
    assert Copy(now, sum)[..DATA_SIZE] == now;
    assert p == now[..8 * k];
    assert c[8 * k..][..DATA_SIZE - 8 * k] == c[8 * k..DATA_SIZE];
  }

  lemma MixSeals(p: seq<Byte>, c: seq<Byte>, d: Data, sum: Checksum)
    requires |c| == COPY_SIZE && |p| <= DATA_SIZE
    ensures Seals(p + c[|p|..], d, sum) <==> Seals(c, d, sum)
  {
    hide DecodeHalf;
    var m := p + c[|p|..];
    assert m[DATA_SIZE..DATA_SIZE + 2] == c[DATA_SIZE..DATA_SIZE + 2];
    assert m[DATA_SIZE + 2..] == c[DATA_SIZE + 2..];
  }

  /** The first copy in the middle of its writing over any contents: its data are mixed, and the rest is from before. */
  lemma TornFirst(now: Data, f: seq<Block>, sum: Checksum, k: nat)
    requires |f| == EEP16K_MAXBLOCKS && k < COPY_BLOCKS
    ensures var c, t := ToBytes(f[..COPY_BLOCKS]), ToBytes(Torn(SaveFile(now, sum), f, k)[..COPY_BLOCKS]);
      DataOf(t) == MixedOn(now, c, k) && (Intact(t, sum) <==> Seals(c, MixedOn(now, c, k), sum))
  {
    hide ToBlocks, ToBytes, Copy, Seals, MixedOn;
    var a, c := Copy(now, sum), ToBytes(f[..COPY_BLOCKS]);
    var m := a[..8 * k] + c[8 * k..];
    BytesRoundTrip(f[..COPY_BLOCKS]);
    assert Torn(SaveFile(now, sum), f, k)[..COPY_BLOCKS] == ToBlocks(a)[..k] + f[..COPY_BLOCKS][k..];
    BlocksOfMix(a, c, k);
    BlocksRoundTrip(m);
    MixData(now, c, sum, k);
    MixSeals(a[..8 * k], c, DataOf(m), sum);
  }

  /** The second copy is untouched until the first is complete, and the first is new from then on. */
  lemma WholeCopies(now: Data, f: seq<Block>, sum: Checksum, k: nat)
    requires |f| == EEP16K_MAXBLOCKS && k <= EEP16K_MAXBLOCKS
    ensures var t := Torn(SaveFile(now, sum), f, k);
      && (k < COPY_BLOCKS ==> t[COPY_BLOCKS..] == f[COPY_BLOCKS..])
      && (k >= COPY_BLOCKS ==> ToBytes(t[..COPY_BLOCKS]) == Copy(now, sum))
  {
    hide ToBlocks, ToBytes, Copy;
    var t := Torn(SaveFile(now, sum), f, k);
    if k < COPY_BLOCKS {
      assert t[COPY_BLOCKS..] == f[COPY_BLOCKS..];
    } else {
      assert t[..COPY_BLOCKS] == ToBlocks(Copy(now, sum));
      BlocksRoundTrip(Copy(now, sum));
    }
  }

  /**
   Whatever was on the chip, with `k` blocks of a save written a load gives the new data if the first copy is
   complete; before that, the mixed data if what stood behind the old data happens to suit them, and else the
   second copy, if that was intact.
   */
  lemma SaveOverAnything(now: Data, f: seq<Block>, sum: Checksum, k: nat)
    requires |f| == EEP16K_MAXBLOCKS && k <= EEP16K_MAXBLOCKS
    ensures
      var c0, c1 := ToBytes(f[..COPY_BLOCKS]), ToBytes(f[COPY_BLOCKS..]);
      LoadFile(Torn(SaveFile(now, sum), f, k), sum) ==
        if k >= COPY_BLOCKS then Loaded(now)
        else if Seals(c0, MixedOn(now, c0, k), sum) then Loaded(MixedOn(now, c0, k))
        else if Intact(c1, sum) then Loaded(DataOf(c1))
        else Corrupt
  {
    hide ToBytes, Copy, Seals, MixedOn, SaveFile, Torn;
    WholeCopies(now, f, sum, k);
    if k < COPY_BLOCKS {
      TornFirst(now, f, sum, k);
    } else {
      CopyIsIntact(now, sum);
    }
  }

  lemma SavedCopies(d: Data, sum: Checksum)
    ensures ToBytes(SaveFile(d, sum)[..COPY_BLOCKS]) == ToBytes(SaveFile(d, sum)[COPY_BLOCKS..]) == Copy(d, sum)
  {
    hide ToBlocks, ToBytes, Copy;
    BlocksRoundTrip(Copy(d, sum));
    assert SaveFile(d, sum)[..COPY_BLOCKS] == ToBlocks(Copy(d, sum)) == SaveFile(d, sum)[COPY_BLOCKS..];
  }

  /**
   With `k` blocks of a save written over an earlier one, a load always succeeds.  It gives the old or the new data
   exactly unless the half-written first copy has mixed data with the old checksum.
   */
  lemma SaveIsAtomic(now: Data, was: Data, sum: Checksum, k: nat)
    requires k <= EEP16K_MAXBLOCKS
    ensures
      var r := LoadFile(Torn(SaveFile(now, sum), SaveFile(was, sum), k), sum);
      && r.Loaded?
      && (k >= COPY_BLOCKS ==> r.data == now)
      && (k < COPY_BLOCKS ==> r.data == if sum(Mixed(now, was, k)) == sum(was) then Mixed(now, was, k) else was)
      && (r.data in {was, now} <==>
            !(k < COPY_BLOCKS && Mixed(now, was, k) !in {was, now} && sum(Mixed(now, was, k)) == sum(was)))
  {
    hide ToBytes, Copy, Seals, MixedOn, Mixed, SaveFile, Torn, Intact, LoadFile;
    SaveOverAnything(now, SaveFile(was, sum), sum, k);
    SavedCopies(was, sum);
    CopyIsIntact(was, sum);
    if k < COPY_BLOCKS {
      MixedOnCopy(now, was, sum, k);
      CopySeals(was, Mixed(now, was, k), sum);
    }
  }

  /** Power lost after any number of block writes of a save, also one that the chip cuts short. */
  lemma PowerLoss(now: Data, f: seq<Block>, sum: Checksum, ok: Outcome, t: nat) returns (k: nat)
    requires |f| == EEP16K_MAXBLOCKS && t < |WriteTrace(Store(2, true, f, f), SaveFile(now, sum), ok)|
    ensures k <= EEP16K_MAXBLOCKS
    ensures WriteTrace(Store(2, true, f, f), SaveFile(now, sum), ok)[t] == Torn(SaveFile(now, sum), f, k)
  {
    var a := SaveFile(now, sum);
    var j := TraceIsTorn(a, f, Stop(a, f, ok, 0), t);
    k := j + 1;
  }

  /** The second copy in the middle of its writing. */
  lemma TornSecond(now: Data, was: Data, sum: Checksum, k: nat)
    requires COPY_BLOCKS <= k < EEP16K_MAXBLOCKS
    ensures var c, m := ToBytes(Torn(SaveFile(now, sum), SaveFile(was, sum), k)[COPY_BLOCKS..]), Mixed(now, was, k - COPY_BLOCKS);
      DataOf(c) == m && (Intact(c, sum) <==> sum(m) == sum(was))
  {
    hide ToBlocks, ToBytes, Copy, Seals, MixedOn, Mixed;
    var j, f := k - COPY_BLOCKS, SaveFile(was, sum);
    assert Torn(SaveFile(now, sum), f, k)[COPY_BLOCKS..] == Torn(SaveFile(now, sum), f, j)[..COPY_BLOCKS];
    TornFirst(now, f, sum, j);
    SavedCopies(was, sum);
    MixedOnCopy(now, was, sum, j);
    CopySeals(was, Mixed(now, was, j), sum);
  }

  /**
   Two saves in a row cut short, the first after `i` blocks and the second after `k`.  All data are lost exactly if
   the first was writing its second copy, the second its first copy, and neither mixture suits its old checksum.
   */
  lemma TwoLosses(now: Data, mid: Data, was: Data, sum: Checksum, i: nat, k: nat)
    requires i <= EEP16K_MAXBLOCKS && k <= EEP16K_MAXBLOCKS
    ensures
      LoadFile(Torn(SaveFile(now, sum), Torn(SaveFile(mid, sum), SaveFile(was, sum), i), k), sum).Corrupt? <==>
        && k < COPY_BLOCKS <= i < EEP16K_MAXBLOCKS
        && sum(Mixed(now, mid, k)) != sum(mid)
        && sum(Mixed(mid, was, i - COPY_BLOCKS)) != sum(was)
  {
    hide ToBytes, Copy, Seals, MixedOn, Mixed, SaveFile, Torn, Intact, LoadFile;
    var f := Torn(SaveFile(mid, sum), SaveFile(was, sum), i);
    SaveOverAnything(now, f, sum, k);
    if k < COPY_BLOCKS {
      SecondAfter(mid, was, sum, i);
      if i >= COPY_BLOCKS {
        WholeCopies(mid, SaveFile(was, sum), sum, i);
        MixedOnCopy(now, mid, sum, k);
        CopySeals(mid, Mixed(now, mid, k), sum);
      }
    }
  }

  /** What becomes of the second copy. */
  lemma SecondAfter(now: Data, was: Data, sum: Checksum, k: nat)
    requires k <= EEP16K_MAXBLOCKS
    ensures Intact(ToBytes(Torn(SaveFile(now, sum), SaveFile(was, sum), k)[COPY_BLOCKS..]), sum) <==>
      !(COPY_BLOCKS <= k < EEP16K_MAXBLOCKS && sum(Mixed(now, was, k - COPY_BLOCKS)) != sum(was))
  {
    hide ToBytes, Copy, Seals, Mixed, SaveFile, Intact;
    var f, t := SaveFile(was, sum), Torn(SaveFile(now, sum), SaveFile(was, sum), k);
    SavedCopies(was, sum);
    SavedCopies(now, sum);
    CopyIsIntact(was, sum);
    CopyIsIntact(now, sum);
    if k < COPY_BLOCKS {
      WholeCopies(now, f, sum, k);
    } else if k == EEP16K_MAXBLOCKS {
      assert t == SaveFile(now, sum);
    } else {
      TornSecond(now, was, sum, k);
    }
  }

  /* ----- the save and load calls ----- */

  class SaveSlot {
    const mgr: EepMgr
    const buff: array<Block>
    const sum: Checksum

    ghost predicate Valid()
      reads this, mgr, mgr.chip, mgr.cache, mgr.chip.blocks
    {
      mgr.Valid() && mgr.kind == 2 && buff.Length == EEP16K_MAXBLOCKS && buff !in mgr.Repr()
    }

    constructor (mgr: EepMgr, buff: array<Block>, sum: Checksum)
      requires mgr.Valid() && mgr.kind == 2 && buff.Length == EEP16K_MAXBLOCKS && buff !in mgr.Repr()
      ensures Valid() && this.mgr == mgr && this.buff == buff && this.sum == sum
    {
      this.mgr := mgr;
      this.buff := buff;
      this.sum := sum;
    }

    /** Builds the first copy in the buffer and duplicates it. */
    method Fill(data: Data)
      requires buff.Length == EEP16K_MAXBLOCKS
      modifies buff
      ensures buff[..] == ToBlocks(Copy(data, sum)) + ToBlocks(Copy(data, sum))
    {
      var c := ToBlocks(Copy(data, sum));
      hide *;
      for i := 0 to COPY_BLOCKS
        invariant forall j :: 0 <= j < i ==> buff[j] == c[j]
      {
        buff[i] := c[i];
      }
      for i := 0 to COPY_BLOCKS
        invariant forall j :: 0 <= j < COPY_BLOCKS ==> buff[j] == c[j]
        invariant forall j :: 0 <= j < i ==> buff[COPY_BLOCKS + j] == c[j]
      {
        buff[COPY_BLOCKS + i] := buff[i];
      }
      assert buff[..] == c + c;
    }

    method Save(data: Data, ok: Outcome) returns (r: int)
      requires Valid()
      modifies buff, mgr.chip`history, mgr.cache, mgr.chip.blocks
      ensures Valid() && r == (if Write(old(mgr.Value()), SaveFile(data, sum), ok).1 != 0 then 1 else 0)
      ensures mgr.Value() == Write(old(mgr.Value()), SaveFile(data, sum), ok).0
      ensures mgr.chip.history == old(mgr.chip.history) + WriteTrace(old(mgr.Value()), SaveFile(data, sum), ok)
    {
      Fill(data);
      var status := mgr.HandleWrite(buff, ok);
      r := if status != 0 then 1 else 0;
    }

    method Load(ok: Outcome) returns (r: int, out: Loaded)
      requires Valid()
      modifies buff, mgr`cached, mgr.cache
      ensures Valid() && mgr.chip.blocks[..] == old(mgr.chip.blocks[..])
      ensures r == if out.Loaded? then 0 else 1
      ensures (forall b: nat :: b < EEP16K_MAXBLOCKS ==> ok(b)) || old(mgr.cached) ==>
        mgr.cached && out == LoadFile(old(mgr.chip.blocks[..]), sum)
      ensures r == 0 ==> out == LoadFile(old(mgr.chip.blocks[..]), sum)
      ensures mgr.cached ==> LoadsFrom(out, old(mgr.chip.blocks[..]), sum)
    {
      hide LoadsFrom, Intact, DataOf, ToBytes, EncodeHalf, DecodeHalf, Write, Stop, Torn, Trace;
      ghost var before := mgr.Value();
      ReadOutcome(before, buff[..], ok);
      LoadIs(before.device, sum, LoadFile(before.device, sum));
      var status := mgr.HandleRead(buff, ok);
      if status != 0 {
        return 1, Corrupt;
      }
      assert buff[..] == before.device;
      var c0, c1 := ToBytes(buff[..COPY_BLOCKS]), ToBytes(buff[COPY_BLOCKS..]);
      if Intact(c0, sum) {
        return 0, Loaded(DataOf(c0));
      }
      if Intact(c1, sum) {
        return 0, Loaded(DataOf(c1));
      }
      return 1, Corrupt;
    }
  }
}
