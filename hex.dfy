/**
 * The hexadecimal colour decoder (`hex_to_colour`): `#RGB`, `#RGBA`,
 * `#RRGGBB` and `#RRGGBBAA`, tried from the longest form down, each failed
 * form retrying on a shorter prefix of the same text.
 */
module Hex {
  import opened Wrappers
  import opened Palette

  /** What the decoder returns: how many characters it used, and the colour (None when nothing decoded). */
  datatype HexResult = HexResult(consumed: nat, colour: Option<Colour>)

  predicate IsHexDigit(c: char) {
    '0' <= c <= '9' || 'a' <= c <= 'f' || 'A' <= c <= 'F'
  }

  predicate AllHex(s: string) {
    forall i :: 0 <= i < |s| ==> IsHexDigit(s[i])
  }

  function DigitValue(c: char): (v: nat)
    requires IsHexDigit(c)
    ensures v < 16
  {
    if '0' <= c <= '9' then c as int - '0' as int
    else if 'a' <= c <= 'f' then c as int - 'a' as int + 10
    else c as int - 'A' as int + 10
  }

  /** The byte written by the two digits at positions 2i and 2i+1. */
  function ByteAt(h: string, i: nat): (v: nat)
    requires 2 * i + 2 <= |h| && IsHexDigit(h[2 * i]) && IsHexDigit(h[2 * i + 1])
    ensures v < 256
  {
    16 * DigitValue(h[2 * i]) + DigitValue(h[2 * i + 1])
  }

  /** A shorthand digit at position i stands for the byte 16d + d. */
  function NibbleAt(h: string, i: nat): (v: nat)
    requires i < |h| && IsHexDigit(h[i])
    ensures v < 256 && v % 17 == 0
  {
    17 * DigitValue(h[i])
  }

  /** The digits of an all-hex prefix, one by one. */
  lemma HexDigits(h: string, n: nat)
    requires n <= |h| && AllHex(h[..n])
    ensures forall k :: 0 <= k < n ==> IsHexDigit(h[k])
  {
    forall k | 0 <= k < n ensures IsHexDigit(h[k]) {
      assert h[..n][k] == h[k];
    }
  }

  /** One leading `#` is dropped. */
  function Unhash(h: string): (r: string)
    ensures |r| <= |h|
    ensures r == h || ([h[0]] + r == h && h[0] == '#')
  {
    if |h| > 0 && h[0] == '#' then h[1..] else h
  }

  function HexToColour(h: string): (r: HexResult)
    ensures r.consumed == 0 || r.consumed == 3 || r.consumed == 6 || r.consumed == 8
    ensures r.consumed == 0 <==> r.colour.None?
    ensures r.consumed <= |Unhash(h)|
    ensures r.colour.Some? ==> InByteRange(r.colour.value)
    decreases |h|
  {
    var h := Unhash(h);
    if |h| >= 8 then
      if AllHex(h[..8]) then
        HexDigits(h, 8);
        HexResult(8, Some(Colour(ByteAt(h, 0), ByteAt(h, 1), ByteAt(h, 2), ByteAt(h, 3))))
      else HexToColour(h[..6])
    else if |h| >= 6 then
      if AllHex(h[..6]) then
        HexDigits(h, 6);
        HexResult(6, Some(Colour(ByteAt(h, 0), ByteAt(h, 1), ByteAt(h, 2), 255)))
      else HexToColour(h[..4])
    else if |h| >= 4 then
      if AllHex(h[..4]) then
        HexDigits(h, 4);
        HexResult(3, Some(Colour(NibbleAt(h, 0), NibbleAt(h, 1), NibbleAt(h, 2), NibbleAt(h, 3))))
      else HexToColour(h[..3])
    else if |h| >= 3 && AllHex(h[..3]) then
      HexDigits(h, 3);
      HexResult(3, Some(Colour(NibbleAt(h, 0), NibbleAt(h, 1), NibbleAt(h, 2), 255)))
    else
      HexResult(0, None)
  }

  /**
   * Reference decoding without retries: the longest form whose digits are
   * all valid wins. The four-digit form reports 3 characters, as the decoder does.
   */
  function HexSpec(h: string): HexResult {
    if |h| >= 8 && AllHex(h[..8]) then
      HexResult(8, Some(Colour(ByteAt(h, 0), ByteAt(h, 1), ByteAt(h, 2), ByteAt(h, 3))))
    else if |h| >= 6 && AllHex(h[..6]) then
      HexResult(6, Some(Colour(ByteAt(h, 0), ByteAt(h, 1), ByteAt(h, 2), 255)))
    else if |h| >= 4 && AllHex(h[..4]) then
      HexResult(3, Some(Colour(NibbleAt(h, 0), NibbleAt(h, 1), NibbleAt(h, 2), NibbleAt(h, 3))))
    else if |h| >= 3 && AllHex(h[..3]) then
      HexResult(3, Some(Colour(NibbleAt(h, 0), NibbleAt(h, 1), NibbleAt(h, 2), 255)))
    else
      HexResult(0, None)
  }

  /** Once a leading `#` is gone and no second one follows, the retrying decoder is the reference decoding. */
  lemma {:induction false} HexToColourIsSpec(h: string)
    requires |Unhash(h)| == 0 || Unhash(h)[0] != '#'
    ensures HexToColour(h) == HexSpec(Unhash(h))
  {
    var u := Unhash(h);
    if |u| >= 8 && !AllHex(u[..8]) {
      var p := u[..6];
      assert Unhash(p) == p;
      HexToColourIsSpec(p);
      SpecOf6(u);
    } else if 6 <= |u| < 8 && !AllHex(u[..6]) {
      var p := u[..4];
      assert Unhash(p) == p;
      HexToColourIsSpec(p);
      SpecOf4(u);
    } else if 4 <= |u| < 6 && !AllHex(u[..4]) {
      var p := u[..3];
      assert Unhash(p) == p;
      SpecOf3(u);
    }
  }

  /** A prefix of a prefix, and a bad digit in a shorter prefix spoils the longer one. */
  lemma Prefixes(u: string, m: nat, n: nat)
    requires m <= n <= |u|
    ensures u[..n][..m] == u[..m]
    ensures AllHex(u[..n]) ==> AllHex(u[..m])
  {
    if AllHex(u[..n]) {
      forall k | 0 <= k < m ensures IsHexDigit(u[..m][k]) {
        assert u[..m][k] == u[..n][k];
      }
    }
  }

  /** Decoding the first six characters, when the eight-digit form fails, is decoding the whole. */
  lemma SpecOf6(u: string)
    requires |u| >= 8 && !AllHex(u[..8])
    ensures HexSpec(u[..6]) == HexSpec(u)
  {
    Prefixes(u, 6, 6);
    Prefixes(u, 4, 6);
    Prefixes(u, 3, 6);
    Prefixes(u, 3, 4);
  }

  /** Decoding the first four characters, when the longer forms fail, is decoding the whole. */
  lemma SpecOf4(u: string)
    requires 6 <= |u| && !AllHex(u[..6])
    ensures HexSpec(u[..4]) == HexSpec(u)
  {
    if |u| >= 8 {
      Prefixes(u, 6, 8);
    }
    Prefixes(u, 4, 4);
    Prefixes(u, 3, 4);
  }

  /** Decoding the first three characters, when the longer forms fail, is decoding the whole. */
  lemma SpecOf3(u: string)
    requires 4 <= |u| && !AllHex(u[..4])
    ensures HexSpec(u[..3]) == HexSpec(u)
  {
    if |u| >= 6 {
      Prefixes(u, 4, 6);
    }
    if |u| >= 8 {
      Prefixes(u, 4, 8);
    }
    Prefixes(u, 3, 3);
  }

  function HexDigit(v: nat): (c: char)
    requires v < 16
    ensures IsHexDigit(c) && DigitValue(c) == v
  {
    if v < 10 then ('0' as int + v) as char else ('a' as int + v - 10) as char
  }

  /** Two lower-case digits for one byte. */
  function ByteHex(v: nat): (s: string)
    requires v < 256
    ensures |s| == 2 && AllHex(s) && 16 * DigitValue(s[0]) + DigitValue(s[1]) == v
  {
    [HexDigit(v / 16), HexDigit(v % 16)]
  }

  /** The `RRGGBBAA` spelling of a colour. */
  function ToHex8(c: Colour): (s: string)
    requires InByteRange(c)
    ensures |s| == 8 && AllHex(s)
  {
    ByteHex(c.r) + ByteHex(c.g) + ByteHex(c.b) + ByteHex(c.a)
  }

  /** The `RRGGBB` spelling of a colour's red, green and blue. */
  function ToHex6(c: Colour): (s: string)
    requires InByteRange(c)
    ensures |s| == 6 && AllHex(s)
  {
    ByteHex(c.r) + ByteHex(c.g) + ByteHex(c.b)
  }

  /** The `RGB` shorthand of a colour whose channels are multiples of 17. */
  function ToHex3(c: Colour): (s: string)
    requires InByteRange(c) && c.r % 17 == 0 && c.g % 17 == 0 && c.b % 17 == 0
    ensures |s| == 3 && AllHex(s)
  {
    [HexDigit(c.r / 17), HexDigit(c.g / 17), HexDigit(c.b / 17)]
  }

  /** Eight digits decode back to the colour they spell, with or without the `#`. */
  lemma HexRoundTrip8(c: Colour)
    requires InByteRange(c)
    ensures HexToColour(ToHex8(c)) == HexResult(8, Some(c))
    ensures HexToColour("#" + ToHex8(c)) == HexResult(8, Some(c))
  {
    var s := ToHex8(c);
    assert s[..8] == s;
    assert Unhash("#" + s) == s;
    assert ByteAt(s, 0) == c.r && ByteAt(s, 1) == c.g && ByteAt(s, 2) == c.b && ByteAt(s, 3) == c.a;
  }

  /** Six digits decode to an opaque colour and report six characters. */
  lemma HexRoundTrip6(c: Colour)
    requires InByteRange(c)
    ensures HexToColour("#" + ToHex6(c)) == HexResult(6, Some(c.(a := 255)))
  {
    var s := ToHex6(c);
    assert s[..6] == s;
    assert Unhash("#" + s) == s;
    assert ByteAt(s, 0) == c.r && ByteAt(s, 1) == c.g && ByteAt(s, 2) == c.b;
  }

  /** Three shorthand digits decode to the colour they abbreviate and report three characters. */
  lemma HexRoundTrip3(c: Colour)
    requires InByteRange(c) && c.r % 17 == 0 && c.g % 17 == 0 && c.b % 17 == 0
    ensures HexToColour("#" + ToHex3(c)) == HexResult(3, Some(c.(a := 255)))
  {
    var s := ToHex3(c);
    assert s[..3] == s;
    assert Unhash("#" + s) == s;
  }

  /** A `#RGBA` literal decodes all four digits but reports only three characters used. */
  lemma ShorthandAlphaReportsThree(h: string)
    requires |h| == 4 && AllHex(h)
    ensures HexToColour(h) == HexResult(3, Some(Colour(NibbleAt(h, 0), NibbleAt(h, 1), NibbleAt(h, 2), NibbleAt(h, 3))))
  {
    assert h[..4] == h;
  }
}
