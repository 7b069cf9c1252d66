/** One DMA request from its first read to its reply: a probe of the header, then a raw or a compressed transfer. */
module Dma {
  import opened Bytes

  const HEADER := 0x10
  const CHUNK := 0x1000

  /** "CMPR" */
  const MAGIC: seq<Byte> := [0x43, 0x4D, 0x50, 0x52]

  /** The cartridge and the decompressor, whose code is not shown. */
  datatype Source = Source(rom: seq<Byte>, inflate: seq<Byte> -> seq<Byte>) {
    predicate Has(vrom: nat, size: nat) { vrom + size <= |rom| }

    function Slice(vrom: nat, size: nat): (s: seq<Byte>)
      requires Has(vrom, size)
      ensures |s| == size
    {
      rom[vrom..vrom + size]
    }

    /** Requests of less than a header are never taken for compressed data. */
    predicate Compressed(vrom: nat, size: nat)
      requires Has(vrom, size)
    {
      size >= 16 && rom[vrom..vrom + 4] == [0x43, 0x4D, 0x50, 0x52]
    }

    /** The second word of the header, most significant byte first. */
    function PayloadSize(vrom: nat): nat
      requires Has(vrom, 16)
    {
      0x100_0000 * rom[vrom + 4] as int + 0x1_0000 * rom[vrom + 5] as int + 0x100 * rom[vrom + 6] as int + rom[vrom + 7] as int
    }

    /** What follows the 16 bytes of the header. */
    function Payload(vrom: nat): seq<Byte>
      requires Has(vrom, 16) && Has(vrom + 16, PayloadSize(vrom))
    {
      rom[vrom + 16..vrom + 16 + PayloadSize(vrom)]
    }

    /** What a request needs of the cartridge and of the memory it fills. */
    predicate Serves(vrom: nat, size: nat, room: nat) {
      && Has(vrom, size) && size <= room
      && (Compressed(vrom, size) ==> Has(vrom + 16, PayloadSize(vrom)) && |inflate(Payload(vrom))| <= room)
    }

    /** Memory after the request: the cartridge's bytes, or their decompression over the header the probe left there. */
    function Delivered(vrom: nat, size: nat, before: seq<Byte>): seq<Byte>
      requires Serves(vrom, size, |before|)
    {
      if Compressed(vrom, size) then
        var out := inflate(Payload(vrom));
        out + (Slice(vrom, 16) + before[16..])[|out|..]
      else
        Slice(vrom, size) + before[size..]
    }
  }

  class DmaRequest {
    var ram: array<Byte>
    var size: nat
    var work: array?<Byte>   // the caller's buffer for compressed data, if any
    var probing: bool
    var compressed: bool
    var source: nat
    var target: array<Byte>
    var length: nat

    constructor (ram: array<Byte>, vrom: nat, size: nat, work: array?<Byte>)
      ensures this.ram == ram && this.size == size && this.work == work && this.source == vrom && this.target == ram
      ensures !compressed && probing == (size >= HEADER) && length == if size < HEADER then size else HEADER
    {
      this.ram, this.size, this.work := ram, size, work;
      source, target := vrom, ram;
      compressed := false;
      probing := size >= HEADER;
      length := if size < HEADER then size else HEADER;
    }
  }

  /** The manager thread's queues, and its dealings with the allocator. */
  class DmaManager {
    const src: Source
    var tokens: nat
    var descriptors: seq<DmaRequest>
    var live: set<object>
    var frees: nat

    constructor (src: Source)
      ensures this.src == src && tokens == 0 && descriptors == [] && live == {} && frees == 0
    {
      this.src := src;
      tokens, descriptors, live, frees := 0, [], {}, 0;
    }

    /** One transfer by the hardware, whose completion may post a token. */
    method StartDma(vrom: nat, dst: array<Byte>, at: nat, size: nat, post: bool)
      requires src.Has(vrom, size) && at + size <= dst.Length
      modifies dst, this`tokens
      ensures forall j :: at <= j < at + size ==> dst[j] == src.rom[vrom + (j - at)]
      ensures forall j :: 0 <= j < dst.Length && !(at <= j < at + size) ==> dst[j] == old(dst[j])
      ensures tokens == old(tokens) + if post then 1 else 0
    {
      for i := 0 to size
        invariant tokens == old(tokens)
        invariant forall j :: at <= j < at + i ==> dst[j] == src.rom[vrom + (j - at)]
        invariant forall j :: 0 <= j < dst.Length && !(at <= j < at + i) ==> dst[j] == old(dst[j])
      {
        dst[at + i] := src.rom[vrom + i];
      }
      if post {
        tokens := tokens + 1;
      }
    }

    /** Reads in chunks, waiting for each but the last, which alone posts a token. */
    method Read(vrom: nat, dst: array<Byte>, size: nat, chunk: nat)
      requires src.Has(vrom, size) && size <= dst.Length && (chunk > 0 || size == 0)
      modifies dst, this`tokens
      ensures dst[..] == src.Slice(vrom, size) + old(dst[size..])
      ensures tokens == old(tokens) + 1
    {
      var left, from, at := size, vrom, 0;
      while chunk < left
        invariant 0 <= at && 0 <= left && at + left == size && from == vrom + at
        invariant tokens == old(tokens)
        invariant forall j :: 0 <= j < at ==> dst[j] == src.rom[vrom + j]
        invariant forall j :: at <= j < dst.Length ==> dst[j] == old(dst[j])
      {
        StartDma(from, dst, at, chunk, false);
        left := left - chunk;
        from := from + chunk;
        at := at + chunk;
      }
      StartDma(from, dst, at, left, true);
    }
  
    /** Queues the descriptor and starts the read it describes. */
    method Start(req: DmaRequest, chunk: nat)
      requires src.Has(req.source, req.length) && req.length <= req.target.Length && (chunk > 0 || req.length == 0)
      modifies this`tokens, this`descriptors, req.target
      ensures descriptors == old(descriptors) + [req] && tokens == old(tokens) + 1
      ensures req.target[..] == src.Slice(req.source, req.length) + old(req.target[req.length..])
    {
      descriptors := descriptors + [req];
      Read(req.source, req.target, req.length, chunk);
    }

    /** The header of a large request is in memory, at the front of its destination. */
    ghost predicate Probed(req: DmaRequest)
      reads req, req.ram
    {
      && req.probing && !req.compressed && req.target == req.ram && req.length == HEADER <= req.size
      && src.Serves(req.source, req.size, req.ram.Length)
      && req.ram[..HEADER] == src.Slice(req.source, HEADER)
      && (req.work != null && src.Compressed(req.source, req.size) ==>
            req.work != req.ram && src.PayloadSize(req.source) <= req.work.Length)
    }

    /** The second phase of a request: its final read, from the payload if there is one. */
    ghost predicate Final(req: DmaRequest, vrom: nat, size: nat)
      reads req, req.target
    {
      && !req.probing && src.Serves(vrom, size, req.ram.Length) && req.length <= req.target.Length
      && req.compressed == src.Compressed(vrom, size)
      && (if req.compressed then req.target != req.ram
        && req.target[..req.length] == src.Payload(vrom) else req.target == req.ram)
    }

    /** The fields of the header that was read. */
    static lemma HeaderFields(src: Source, vrom: nat, header: seq<Byte>)
      requires src.Has(vrom, HEADER) && header == src.Slice(vrom, HEADER)
      ensures src.Compressed(vrom, HEADER) <==> header[..4] == MAGIC
      ensures DecodeWord(header[4..8]) as int == src.PayloadSize(vrom)
    {
      assert header[..4] == src.rom[vrom..vrom + 4];
      var f := header[4..8];
      assert f[0] == src.rom[vrom + 4] && f[1] == src.rom[vrom + 5] && f[2] == src.rom[vrom + 6] && f[3] == src.rom[vrom + 7];
      WordIs(f);
    }

    /** Without a payload, the whole request is read over its own probe. */
    method StartRaw(req: DmaRequest)
      requires !req.probing && !req.compressed && req.target == req.ram
      requires src.Serves(req.source, req.size, req.ram.Length) && !src.Compressed(req.source, req.size)
      modifies this`tokens, this`descriptors, req`length, req.ram
      ensures Final(req, req.source, req.size) && tokens == old(tokens) + 1 && descriptors == old(descriptors) + [req]
      ensures req.ram[..] == src.Slice(req.source, req.size) + old(req.ram[req.size..])
    {
      hide Source.Compressed;
      req.length := req.size;
      Start(req, CHUNK);
    }

    /** The payload is read into the caller's buffer, or into a new one if there is memory for it. */
    method StartPayload(req: DmaRequest, length: nat, granted: bool, ghost vrom: nat) returns (r: int)
      requires !req.probing && req.target == req.ram && req.source == vrom && req.work !in live
      requires src.Serves(vrom, req.size, req.ram.Length) && src.Compressed(vrom, req.size) && length == src.PayloadSize(vrom)
      requires req.work != null ==> req.work != req.ram && length <= req.work.Length
      modifies this`tokens, this`descriptors, this`live, req`compressed, req`source, req`target, req`length, req.work
      ensures r == if req.work == null && !granted then -1 else 1
      ensures req.ram[..] == old(req.ram[..])
      ensures r != 1 ==> tokens == old(tokens) && descriptors == old(descriptors)
      ensures r == 1 ==>
        req.compressed && Final(req, vrom, req.size) && tokens == old(tokens) + 1 && descriptors == old(descriptors) + [req]
      ensures if req.work == null && granted then fresh(req.target) && live == old(live) + {req.target} else live == old(live)
      ensures r == 1 && req.work != null ==> req.target == req.work
    {
      hide Source.Compressed;
      PayloadServed(src, vrom, req.size, req.ram.Length);
      req.compressed := true;
      req.source := req.source + HEADER;
      req.length := length;
      if req.work != null {
        req.target := req.work;
      } else if !granted {
        return -1;
      } else {
        req.target := new Byte[req.length];
        live := live + {req.target};
      }
      Start(req, CHUNK);
      r := 1;
    }

    static lemma PayloadServed(src: Source, vrom: nat, size: nat, room: nat)
      requires src.Serves(vrom, size, room) && src.Compressed(vrom, size)
      ensures src.Has(vrom, HEADER) && src.Has(vrom + HEADER, src.PayloadSize(vrom))
      ensures src.Payload(vrom) == src.Slice(vrom + HEADER, src.PayloadSize(vrom))
    {
    }

    /** Decides what the probed header calls for: 1 if another read is started, 0 if there is none to do, -1 without memory. */
    method Advance(req: DmaRequest, granted: bool) returns (r: int)
      requires req.probing ==> Probed(req) && req.work !in live
      modifies this`tokens, this`descriptors, this`live, req, req.target, req.work
      ensures req.ram == old(req.ram) && req.size == old(req.size) && req.work == old(req.work)
      ensures !old(req.probing) ==>
        && r == 0 && live == old(live) && tokens == old(tokens) && descriptors == old(descriptors) && !req.probing
        && req.target == old(req.target) && req.length == old(req.length) && req.compressed == old(req.compressed)
        && req.ram[..] == old(req.ram[..]) && req.target[..] == old(req.target[..])
      ensures old(req.probing) ==>
        var vrom, size := old(req.source), old(req.size);
        var wanted := src.Compressed(vrom, size) && req.work == null;
        && r == (if wanted && !granted then -1 else 1)
        && (r != 1 ==> tokens == old(tokens) && descriptors == old(descriptors))
        && (r == 1 ==> Final(req, vrom, size) && tokens == old(tokens) + 1 && descriptors == old(descriptors) + [req])
        && (r == 1 ==> req.ram[..] == if req.compressed then old(req.ram[..]) else src.Slice(vrom, size) + old(req.ram[size..]))
        && (if wanted && granted then fresh(req.target) && live == old(live) + {req.target} else live == old(live))
        && (r == 1 && req.compressed && !wanted ==> req.target == req.work)
    {
      if !req.probing {
        return 0;
      }
      if req.length < HEADER {
        return 0;
      }
      var header := req.target[..HEADER];
      HeaderFields(src, req.source, header);
      req.probing := false;
      if header[..4] == MAGIC {
        r := StartPayload(req, DecodeWord(header[4..8]), granted, req.source);
      } else {
        StartRaw(req);
        r := 1;
      }
    }

    /** Writes the decompressed payload over the front of the destination. */
    method Inflate(req: DmaRequest)
      requires req.length <= req.target.Length && req.target != req.ram
      requires |src.inflate(req.target[..req.length])| <= req.ram.Length
      modifies req.ram
      ensures var out := src.inflate(req.target[..req.length]);
        req.ram[..] == out + old(req.ram[|out|..])
    {
      var out := src.inflate(req.target[..req.length]);
      for i := 0 to |out|
        invariant forall j :: 0 <= j < i ==> req.ram[j] == out[j]
        invariant forall j :: i <= j < req.ram.Length ==> req.ram[j] == old(req.ram[j])
      {
        req.ram[i] := out[i];
      }
    }

    /** Returns a buffer to the allocator, which must have handed it out. */
    method Free(buffer: array<Byte>)
      requires buffer in live
      modifies this`live, this`frees
      ensures live == old(live) - {buffer} && frees == old(frees) + 1
    {
      live := live - {buffer};
      frees := frees + 1;
    }
  
    /** One round of the manager thread: a token, a descriptor, and either another read or the reply. */
    method Serve(granted: bool, ghost vrom: nat, ghost size: nat) returns (replied: bool)
      requires tokens > 0 && descriptors != []
      requires var req := descriptors[0];
        && (if req.probing then Probed(req) && req.source == vrom && req.size == size
          && req.work !in live else Final(req, vrom, size))
        && (!req.probing && req.compressed && req.work == null ==> req.target in live)
      modifies this`tokens, this`descriptors, this`live, this`frees
      modifies descriptors[0], descriptors[0].ram, descriptors[0].target, descriptors[0].work
      ensures var req := old(descriptors[0]);
        && req.ram == old(req.ram) && req.work == old(req.work)
        && (old(req.probing) ==>
              var wanted := src.Compressed(vrom, size) && req.work == null;
              && !replied && frees == old(frees)
              && (if wanted && !granted then tokens == old(tokens) - 1 && descriptors == old(descriptors[1..])
                && live == old(live)
                  else
                    && tokens == old(tokens) && descriptors == old(descriptors[1..]) + [req] && Final(req, vrom, size)
                    && req.ram[..] == (if req.compressed then old(req.ram[..]) else src.Slice(vrom, size) + old(req.ram[size..]))
                    && (if wanted then fresh(req.target) && live == old(live) + {req.target} else live == old(live))))
        && (!old(req.probing) ==>
              && replied && tokens == old(tokens) - 1 && descriptors == old(descriptors[1..])
              && (if old(req.compressed) && req.work == null then live == old(live) - {old(req.target)} && frees == old(frees) + 1
                  else live == old(live) && frees == old(frees))
              && req.ram[..] == (if old(req.compressed) then
                                   var out := src.inflate(src.Payload(vrom)); out + old(req.ram[|out|..])
                                 else old(req.ram[..])))
    {
      tokens := tokens - 1;
      var req := descriptors[0];
      descriptors := descriptors[1..];
      var r := Advance(req, granted);
      if r != 0 {
        return false;
      }
      if req.compressed {
        Inflate(req);
        if req.work == null {
          Free(req.target);
        }
      }
      replied := true;
    }

    /**
     A synchronous request, with the manager otherwise at rest.  It is answered unless it needs a buffer that
     the allocator refuses, after one or two rounds, and leaves no token, descriptor or buffer behind.
     */
    method RequestSync(ram: array<Byte>, vrom: nat, size: nat, granted: bool) returns (replied: bool, rounds: nat)
      requires tokens == 0 && descriptors == [] && src.Serves(vrom, size, ram.Length)
      modifies this`tokens, this`descriptors, this`live, this`frees, ram
      ensures replied <==> !src.Compressed(vrom, size) || granted
      ensures rounds == if size >= HEADER && replied then 2 else 1
      ensures replied ==> ram[..] == src.Delivered(vrom, size, old(ram[..]))
      ensures tokens == 0 && descriptors == [] && live == old(live)
      ensures frees == old(frees) + if src.Compressed(vrom, size) && granted then 1 else 0
    {
      var req := new DmaRequest(ram, vrom, size, null);
      Start(req, req.length);
      rounds := 1;
      replied := Serve(granted, vrom, size);
      if tokens > 0 {
        rounds := 2;
        replied := Serve(granted, vrom, size);
      }
    }
  }
}
