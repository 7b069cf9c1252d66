/** The text fields of archive headers: padding, white space, and numbers in a given base. */
module ArchiveText {
  import opened Bytes

  type Text = seq<Byte>

  const SPACE: Byte := 32
  const SLASH: Byte := 47
  const NEWLINE: Byte := 10

  datatype Result<+T> = Ok(value: T) | Failed

  /** What `str.strip` removes. */
  predicate White(b: Byte) { 9 <= b <= 13 || 28 <= b <= 32 }

  predicate Ascii(s: Text) { forall i :: 0 <= i < |s| ==> s[i] < 128 }

  /** A text that padding cannot hurt: no white space at its ends. */
  predicate Trimmed(s: Text) { Ascii(s) && (s != [] ==> !White(s[0]) && !White(s[|s| - 1])) }

  function Spaces(n: nat): (s: Text)
    ensures |s| == n && forall i :: 0 <= i < n ==> s[i] == SPACE
  {
    seq(n, _ => SPACE)
  }

  /** Padded on the right to a width; a longer text stays as it is. */
  function Pad(s: Text, w: nat): (p: Text)
    ensures |p| == if |s| <= w then w else |s|
  {
    if |s| <= w then s + Spaces(w - |s|) else s
  }

  function StripLeft(s: Text): Text {
    if s != [] && White(s[0]) then StripLeft(s[1..]) else s
  }

  function StripRight(s: Text): Text {
    if s != [] && White(s[|s| - 1]) then StripRight(s[..|s| - 1]) else s
  }

  function Strip(s: Text): Text { StripRight(StripLeft(s)) }

  lemma {:induction false} StripSpaces(s: Text, n: nat)
    requires s != [] ==> !White(s[|s| - 1])
    ensures StripRight(s + Spaces(n)) == s
  {
    var p := s + Spaces(n);
    if n == 0 {
      assert p == s;
    } else {
      assert p[..|p| - 1] == s + Spaces(n - 1);
      StripSpaces(s, n - 1);
    }
  }

  lemma {:induction false} StripBlanks(n: nat)
    ensures StripLeft(Spaces(n)) == []
  {
    if n > 0 {
      assert Spaces(n)[1..] == Spaces(n - 1);
      StripBlanks(n - 1);
    }
  }

  lemma StripPadded(s: Text, w: nat)
    requires Trimmed(s) && |s| <= w
    ensures Strip(Pad(s, w)) == s && Ascii(Pad(s, w))
  {
    var p := Pad(s, w);
    if s == [] {
      assert p == Spaces(w);
      StripBlanks(w);
    } else {
      assert p[0] == s[0];
      StripSpaces(s, w - |s|);
    }
  }

  /* ----- numbers ----- */

  function Digits(n: nat, base: nat): (s: Text)
    requires base == 8 || base == 10
    ensures s != [] && forall i :: 0 <= i < |s| ==> 48 <= s[i] < 48 + base
  {
    if n < base then [48 + n] else Digits(n / base, base) + [48 + n % base]
  }

  function Value(s: Text, base: nat): nat
    requires base == 8 || base == 10
    requires forall i :: 0 <= i < |s| ==> 48 <= s[i] < 48 + base
  {
    if s == [] then 0 else Value(s[..|s| - 1], base) * base + (s[|s| - 1] - 48)
  }

  /** `int` of a stripped field. */
  function ParseNat(field: Text, base: nat): Result<nat>
    requires base == 8 || base == 10
  {
    var s := Strip(field);
    if s != [] && forall i :: 0 <= i < |s| ==> 48 <= s[i] < 48 + base then Ok(Value(s, base)) else Failed
  }

  lemma {:induction false} DigitsValue(n: nat, base: nat)
    requires base == 8 || base == 10
    ensures Value(Digits(n, base), base) == n
  {
    if n < base {
      assert Digits(n, base)[..0] == [];
    } else {
      DigitsValue(n / base, base);
      var s := Digits(n, base);
      assert s[..|s| - 1] == Digits(n / base, base) && s[|s| - 1] == 48 + n % base;
      Recompose(n, base);
    }
  }

  lemma Recompose(n: nat, base: nat)
    requires base == 8 || base == 10
    ensures n / base * base + n % base == n
  {
  }

  lemma NumberField(n: nat, base: nat, w: nat)
    requires base == 8 || base == 10
    requires |Digits(n, base)| <= w
    ensures ParseNat(Pad(Digits(n, base), w), base) == Ok(n)
  {
    StripPadded(Digits(n, base), w);
    DigitsValue(n, base);
  }
}
