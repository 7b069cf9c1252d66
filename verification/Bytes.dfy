/** Bytes, and unsigned integers stored in them most significant byte first. */
module Bytes {
  type Byte = b: int | 0 <= b < 256

  type Half = h: int | 0 <= h < 0x1_0000

  function EncodeHalf(h: Half): (s: seq<Byte>)
    ensures |s| == 2
  {
    [h / 256, h % 256]
  }

  function DecodeHalf(s: seq<Byte>): Half
    requires |s| == 2
  {
    256 * (s[0] as int) + s[1] as int
  }

  lemma HalfRoundTrip(h: Half)
    ensures DecodeHalf(EncodeHalf(h)) == h
  {
  }

  type Word = w: int | 0 <= w < 0x1_0000_0000

  function EncodeWord(w: Word): (s: seq<Byte>)
    ensures |s| == 4
  {
    EncodeHalf(w / 0x1_0000) + EncodeHalf(w % 0x1_0000)
  }

  function DecodeWord(s: seq<Byte>): Word
    requires |s| == 4
  {
    0x1_0000 * (DecodeHalf(s[..2]) as int) + DecodeHalf(s[2..]) as int
  }

  /** The most significant byte comes first. */
  lemma WordIs(s: seq<Byte>)
    requires |s| == 4
    ensures DecodeWord(s) as int == 0x100_0000 * s[0] as int + 0x1_0000 * s[1] as int + 0x100 * s[2] as int + s[3] as int
  {
  }

  lemma WordRoundTrip(w: Word)
    ensures DecodeWord(EncodeWord(w)) == w
  {
    var hi, lo := w / 0x1_0000, w % 0x1_0000;
    HalfRoundTrip(hi);
    HalfRoundTrip(lo);
    assert EncodeWord(w)[..2] == EncodeHalf(hi) && EncodeWord(w)[2..] == EncodeHalf(lo);
  }

  lemma HalfBack(s: seq<Byte>)
    requires |s| == 2
    ensures EncodeHalf(DecodeHalf(s)) == s
  {
  }

  lemma Halves(hi: Half, lo: Half)
    ensures (0x1_0000 * hi + lo) / 0x1_0000 == hi && (0x1_0000 * hi + lo) % 0x1_0000 == lo
  {
  }

  lemma WordBack(s: seq<Byte>)
    requires |s| == 4
    ensures EncodeWord(DecodeWord(s)) == s
  {
    hide EncodeHalf, DecodeHalf;
    HalfBack(s[..2]);
    HalfBack(s[2..]);
    Halves(DecodeHalf(s[..2]), DecodeHalf(s[2..]));
    assert s == s[..2] + s[2..];
  }
}
