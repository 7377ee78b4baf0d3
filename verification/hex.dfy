/**
  Parsing of the line colour: an optional `#` and exactly six hexadecimal
  digits, letters in either case, three bytes in the order red, green, blue.
  Any other string gives black.
 */
module Hex {
  import opened Raster
  import opened Types

  predicate IsHexDigit(c: char) {
    ('0' <= c <= '9') || ('a' <= c <= 'f') || ('A' <= c <= 'F')
  }

  predicate AllHex(s: string) {
    forall i :: 0 <= i < |s| ==> IsHexDigit(s[i])
  }

  /** The colour pattern: six hex digits, optionally preceded by `#`, and nothing else. */
  predicate IsHexColor(s: string) {
    (|s| == 6 && AllHex(s)) || (|s| == 7 && s[0] == '#' && AllHex(s[1..]))
  }

  /** The six digits of a string that matches the colour pattern. */
  function Digits(s: string): (d: string)
    requires IsHexColor(s)
    ensures |d| == 6 && AllHex(d)
    ensures s == d || s == "#" + d
  {
    if |s| == 6 then s else s[1..]
  }

  function DigitValue(c: char): (v: nat)
    requires IsHexDigit(c)
    ensures v < 16
  {
    if '0' <= c <= '9' then (c - '0') as nat
    else if 'a' <= c <= 'f' then (c - 'a') as nat + 10
    else (c - 'A') as nat + 10
  }

  /** The lower-case digit for a value below 16. */
  function DigitChar(v: nat): (c: char)
    requires v < 16
    ensures IsHexDigit(c) && DigitValue(c) == v
    ensures !('A' <= c <= 'F')
  {
    if v < 10 then ('0' as int + v) as char else ('a' as int + v - 10) as char
  }

  /** A hex digit in lower case. */
  function LowerDigit(c: char): (l: char)
    requires IsHexDigit(c)
    ensures IsHexDigit(l) && DigitValue(l) == DigitValue(c)
  {
    if 'A' <= c <= 'F' then (c as int - 'A' as int + 'a' as int) as char else c
  }

  function LowerDigits(s: string): (l: string)
    requires AllHex(s)
    ensures |l| == |s| && AllHex(l)
    ensures forall i :: 0 <= i < |s| ==> l[i] == LowerDigit(s[i])
  {
    seq(|s|, (i: int) requires 0 <= i < |s| => LowerDigit(s[i]))
  }

  /** The byte written by two hex digits, high digit first. */
  function PairValue(hi: char, lo: char): (b: Byte)
    requires IsHexDigit(hi) && IsHexDigit(lo)
    ensures b / 16 == DigitValue(hi) && b % 16 == DigitValue(lo)
  {
    DigitValue(hi) * 16 + DigitValue(lo)
  }

  /** The colour a matching string denotes, or `None` when the pattern does not match. */
  function ParseHexColor(s: string): (r: Option<Rgb>)
    ensures r.Some? <==> IsHexColor(s)
  {
    if IsHexColor(s) then
      var d := Digits(s);
      Some(Rgb(PairValue(d[0], d[1]), PairValue(d[2], d[3]), PairValue(d[4], d[5])))
    else
      None
  }

  /** The line colour used by the pipeline: black whenever the string does not parse. */
  function HexToRgb(s: string): (c: Rgb)
    ensures !IsHexColor(s) ==> c == Black
    ensures IsHexColor(s) ==> ParseHexColor(s) == Some(c)
  {
    match ParseHexColor(s)
    case Some(c) => c
    case None => Black
  }

  /** The canonical `#rrggbb` spelling of a colour, lower case. */
  function ToHex(c: Rgb): (s: string)
    ensures |s| == 7 && IsHexColor(s)
  {
    var s := ['#', DigitChar(c.r / 16), DigitChar(c.r % 16),
                   DigitChar(c.g / 16), DigitChar(c.g % 16),
                   DigitChar(c.b / 16), DigitChar(c.b % 16)];
    assert AllHex(s[1..]) by {
      forall i | 0 <= i < 6
        ensures IsHexDigit(s[1..][i])
      {
        assert s[1..][i] == s[i + 1];
      }
    }
    s
  }

  /** Printing a colour and parsing it back gives the same colour. */
  lemma ParseToHex(c: Rgb)
    ensures HexToRgb(ToHex(c)) == c
  {
    var s := ToHex(c);
    var d := Digits(s);
    assert d == s[1..];
    assert DigitValue(d[0]) == c.r / 16 && DigitValue(d[1]) == c.r % 16;
    assert DigitValue(d[2]) == c.g / 16 && DigitValue(d[3]) == c.g % 16;
    assert DigitValue(d[4]) == c.b / 16 && DigitValue(d[5]) == c.b % 16;
  }

  /** Parsing a matching string and printing the result gives its digits in lower case. */
  lemma ToHexParse(s: string)
    requires IsHexColor(s)
    ensures ToHex(HexToRgb(s)) == "#" + LowerDigits(Digits(s))
  {
    var d := Digits(s);
    var c := HexToRgb(s);
    var t := ToHex(c);
    var l := "#" + LowerDigits(d);
    forall i | 1 <= i < 7
      ensures t[i] == l[i]
    {
      var k := i - 1;
      var v := DigitValue(d[k]);
      assert l[i] == LowerDigit(d[k]);
      assert DigitValue(t[i]) == v;
      DigitCharOfValue(d[k]);
    }
  }

  /** A digit is determined by its value and case: the lower-case digit of value v is `DigitChar(v)`. */
  lemma DigitCharOfValue(c: char)
    requires IsHexDigit(c)
    ensures DigitChar(DigitValue(c)) == LowerDigit(c)
  {
  }

  /** Letter case does not matter: upper- and lower-case spellings denote the same colour. */
  lemma CaseInsensitive(s: string)
    requires IsHexColor(s)
    ensures IsHexColor("#" + LowerDigits(Digits(s)))
    ensures HexToRgb("#" + LowerDigits(Digits(s))) == HexToRgb(s)
  {
    ToHexParse(s);
    ParseToHex(HexToRgb(s));
  }

  /** The default line colour `#000000` is black. */
  lemma DefaultLineColorIsBlack()
    ensures HexToRgb(DefaultSettings.lineColor) == Black
  {
    var s := DefaultSettings.lineColor;
    assert AllHex(s[1..]) by {
      forall i | 0 <= i < 6
        ensures IsHexDigit(s[1..][i])
      {
        assert s[1..][i] == '0';
      }
    }
  }

  /** Three-digit shorthand is not accepted: `#FFF` gives black, not white. */
  lemma ShorthandIsBlack()
    ensures HexToRgb("#FFF") == Black
  {
  }
}
