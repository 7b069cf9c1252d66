/** Records of halves and words packed in either byte order. */
module ElfFormat {
  import opened Bytes

  datatype Kind = H | I

  type Format = seq<Kind>

  function Width(k: Kind): nat { if k.H? then 2 else 4 }

  function Size(f: Format): nat { if f == [] then 0 else Width(f[0]) + Size(f[1..]) }

  function Repeat(k: Kind, n: nat): (f: Format)
    ensures |f| == n
  {
    if n == 0 then [] else [k] + Repeat(k, n - 1)
  }

  lemma {:induction false} SizeRepeat(k: Kind, n: nat)
    ensures Size(Repeat(k, n)) == Width(k) * n
  {
    if n > 0 {
      SizeRepeat(k, n - 1);
    }
  }

  lemma {:induction false} SizeAppend(f: Format, g: Format)
    ensures Size(f + g) == Size(f) + Size(g)
  {
    if f == [] {
      assert f + g == g;
    } else {
      assert (f + g)[1..] == f[1..] + g;
      SizeAppend(f[1..], g);
    }
  }

  predicate InRange(k: Kind, v: int) { 0 <= v < if k.H? then 0x1_0000 else 0x1_0000_0000 }

  predicate Packable(f: Format, vs: seq<int>) {
    |vs| == |f| && forall i :: 0 <= i < |f| ==> InRange(f[i], vs[i])
  }

  function Reverse(s: seq<Byte>): (r: seq<Byte>)
    ensures |r| == |s|
  {
    seq(|s|, i requires 0 <= i < |s| => s[|s| - 1 - i])
  }

  function PackOne(big: bool, k: Kind, v: int): (s: seq<Byte>)
    requires InRange(k, v)
    ensures |s| == Width(k)
  {
    var s := if k.H? then EncodeHalf(v) else EncodeWord(v);
    if big then s else Reverse(s)
  }

  function UnpackOne(big: bool, k: Kind, s: seq<Byte>): (v: int)
    requires |s| == Width(k)
    ensures InRange(k, v)
  {
    var t := if big then s else Reverse(s);
    if k.H? then DecodeHalf(t) else DecodeWord(t)
  }

  lemma OneRoundTrip(big: bool, k: Kind, v: int)
    requires InRange(k, v)
    ensures UnpackOne(big, k, PackOne(big, k, v)) == v
  {
    hide EncodeHalf, DecodeHalf, EncodeWord, DecodeWord;
    var s := if k.H? then EncodeHalf(v) else EncodeWord(v);
    assert Reverse(Reverse(s)) == s;
    if k.H? {
      HalfRoundTrip(v);
    } else {
      WordRoundTrip(v);
    }
  }

  lemma OneBack(big: bool, k: Kind, s: seq<Byte>)
    requires |s| == Width(k)
    ensures PackOne(big, k, UnpackOne(big, k, s)) == s
  {
    hide EncodeHalf, DecodeHalf, EncodeWord, DecodeWord;
    var t := if big then s else Reverse(s);
    assert Reverse(Reverse(s)) == s;
    if k.H? {
      HalfBack(t);
    } else {
      WordBack(t);
    }
  }

  function Pack(big: bool, f: Format, vs: seq<int>): (s: seq<Byte>)
    requires Packable(f, vs)
    ensures |s| == Size(f)
    decreases |f|
  {
    if f == [] then [] else PackOne(big, f[0], vs[0]) + Pack(big, f[1..], vs[1..])
  }

  function Unpack(big: bool, f: Format, s: seq<Byte>): (vs: seq<int>)
    requires |s| == Size(f)
    ensures Packable(f, vs)
    decreases |f|
  {
    if f == [] then []
    else [UnpackOne(big, f[0], s[..Width(f[0])])] + Unpack(big, f[1..], s[Width(f[0])..])
  }

  lemma {:induction false} PackRoundTrip(big: bool, f: Format, vs: seq<int>)
    requires Packable(f, vs)
    ensures Unpack(big, f, Pack(big, f, vs)) == vs
    decreases |f|
  {
    hide PackOne, UnpackOne;
    if f != [] {
      var s := Pack(big, f, vs);
      OneRoundTrip(big, f[0], vs[0]);
      PackRoundTrip(big, f[1..], vs[1..]);
      assert s[..Width(f[0])] == PackOne(big, f[0], vs[0]);
      assert s[Width(f[0])..] == Pack(big, f[1..], vs[1..]);
    }
  }

  lemma PackCons(big: bool, f: Format, v: int, vs: seq<int>)
    requires f != [] && InRange(f[0], v) && Packable(f[1..], vs)
    ensures Packable(f, [v] + vs) && Pack(big, f, [v] + vs) == PackOne(big, f[0], v) + Pack(big, f[1..], vs)
  {
    hide PackOne;
    assert ([v] + vs)[1..] == vs;
  }

  lemma UnpackCons(big: bool, f: Format, s: seq<Byte>)
    requires f != [] && |s| == Size(f)
    ensures Width(f[0]) <= |s| && |s| - Width(f[0]) == Size(f[1..])
    ensures Unpack(big, f, s) == [UnpackOne(big, f[0], s[..Width(f[0])])] + Unpack(big, f[1..], s[Width(f[0])..])
  {
    hide UnpackOne;
  }

  lemma UnpackNone(big: bool, s: seq<Byte>)
    requires |s| == Size([])
    ensures Pack(big, [], Unpack(big, [], s)) == s
  {
  }

  lemma {:induction false} UnpackRoundTrip(big: bool, f: Format, s: seq<Byte>)
    requires |s| == Size(f)
    ensures Pack(big, f, Unpack(big, f, s)) == s
    decreases |f|
  {
    hide *;
    if f == [] {
      UnpackNone(big, s);
    } else {
      var n := Width(f[0]);
      UnpackCons(big, f, s);
      var v, vs := UnpackOne(big, f[0], s[..n]), Unpack(big, f[1..], s[n..]);
      OneBack(big, f[0], s[..n]);
      UnpackRoundTrip(big, f[1..], s[n..]);
      PackCons(big, f, v, vs);
      assert s == s[..n] + s[n..];
    }
  }
}
