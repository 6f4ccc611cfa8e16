/**
 * `hex_to_rgb`: strip leading `#`, cut the text at positions 0-2, 2-4 and
 * 4-6, read each piece as a base-16 integer and scale it by 1/255.
 * Python's `int(piece, 16)` raises `ValueError` on an empty piece or a
 * piece with a non-hex character; here that is `None`.
 */
module HexColor {
  import opened Wrappers
  import opened Strings
  import opened ColorPayload

  /** Value of one hex digit, either case. */
  function DigitValue(c: char): (d: nat)
    requires IsHexDigit(c)
    ensures d < 16
  {
    if '0' <= c <= '9' then c as int - '0' as int
    else if 'A' <= c <= 'F' then c as int - 'A' as int + 10
    else c as int - 'a' as int + 10
  }

  function Pow16(n: nat): nat
  {
    if n == 0 then 1 else 16 * Pow16(n - 1)
  }

  predicate AllHex(t: string)
  {
    forall k :: 0 <= k < |t| ==> IsHexDigit(t[k])
  }

  /** Big-endian base-16 value of a string of hex digits. */
  function HexValue(t: string): (n: nat)
    requires AllHex(t)
    ensures n < Pow16(|t|)
  {
    if t == [] then 0 else 16 * HexValue(t[..|t| - 1]) + DigitValue(t[|t| - 1])
  }

  /** `int(t, 16)` on the inputs the payload pattern lets through. */
  function ParseHex(t: string): (r: Option<nat>)
    ensures r.Some? <==> |t| > 0 && AllHex(t)
    ensures r.Some? ==> r.value < Pow16(|t|)
  {
    if |t| > 0 && AllHex(t) then Some(HexValue(t)) else None
  }

  /** A colour as three channels, each a fraction of full intensity. */
  datatype Rgb = Rgb(r: real, g: real, b: real)

  predicate InUnitCube(c: Rgb)
  {
    0.0 <= c.r <= 1.0 && 0.0 <= c.g <= 1.0 && 0.0 <= c.b <= 1.0
  }

  /** `n / 255.0`, as an exact real. */
  function Channel(n: nat): real { n as real / 255.0 }

  lemma ShortPieceIsByte(t: string)
    requires |t| <= 2 && ParseHex(t).Some?
    ensures ParseHex(t).value <= 255
  {
    assert Pow16(|t|) <= 256 by {
      if |t| == 2 { assert Pow16(2) == 16 * Pow16(1); }
    }
  }

  /** The conversion of `hex_to_rgb` applied to the already stripped text `h`. */
  function RgbOfStripped(h: string): Option<Rgb>
  {
    match ParseHex(Slice(h, 0, 2))
    case None => None
    case Some(r) =>
      match ParseHex(Slice(h, 2, 4))
      case None => None
      case Some(g) =>
        match ParseHex(Slice(h, 4, 6))
        case None => None
        case Some(b) => Some(Rgb(Channel(r), Channel(g), Channel(b)))
  }

  /** `hex_to_rgb(hexstr)`; `None` where Python raises `ValueError`. */
  function HexToRgb(hexstr: string): Option<Rgb>
  {
    RgbOfStripped(LStrip(hexstr, '#'))
  }

  /** Every successful conversion has its three channels in [0, 1]. */
  lemma HexToRgbInUnitCube(s: string)
    requires HexToRgb(s).Some?
    ensures InUnitCube(HexToRgb(s).value)
  {
    var h := LStrip(s, '#');
    ShortPieceIsByte(Slice(h, 0, 2));
    ShortPieceIsByte(Slice(h, 2, 4));
    ShortPieceIsByte(Slice(h, 4, 6));
  }

  /** The characters of `h` at positions [lo, hi) that exist are hex digits. */
  predicate HexBetween(h: string, lo: nat, hi: nat)
  {
    forall k :: lo <= k < hi && k < |h| ==> IsHexDigit(h[k])
  }

  /** The piece `h[i:i+2]` parses exactly when it is non-empty and all hex. */
  lemma PieceParses(h: string, i: nat)
    ensures ParseHex(Slice(h, i, i + 2)).Some? <==> i < |h| && HexBetween(h, i, i + 2)
  {
    var p := Slice(h, i, i + 2);
    if i < |h| && HexBetween(h, i, i + 2) {
      forall k | 0 <= k < |p| ensures IsHexDigit(p[k]) {
        assert p[k] == h[i + k];
      }
    }
    if ParseHex(p).Some? {
      forall k | i <= k < i + 2 && k < |h| ensures IsHexDigit(h[k]) {
        assert p[k - i] == h[k];
      }
    }
  }

  lemma RgbOfStrippedSome(h: string)
    ensures RgbOfStripped(h).Some?
        <==> ParseHex(Slice(h, 0, 2)).Some? && ParseHex(Slice(h, 2, 4)).Some? && ParseHex(Slice(h, 4, 6)).Some?
  {
  }

  lemma HexBetweenSplit(h: string)
    ensures HexBetween(h, 0, 6) <==> HexBetween(h, 0, 2) && HexBetween(h, 2, 4) && HexBetween(h, 4, 6)
  {
  }

  lemma StrippedSucceedsIff(h: string)
    ensures RgbOfStripped(h).Some? <==> |h| >= 5 && HexBetween(h, 0, 6)
  {
    RgbOfStrippedSome(h);
    PieceParses(h, 0);
    PieceParses(h, 2);
    PieceParses(h, 4);
    HexBetweenSplit(h);
  }

  /**
   * The conversion succeeds exactly when, after stripping `#`, at least five
   * characters remain and the first (up to) six of them are hex digits.
   */
  lemma HexToRgbSucceedsIff(s: string)
    ensures var h := LStrip(s, '#');
      HexToRgb(s).Some? <==> |h| >= 5 && HexBetween(h, 0, 6)
  {
    StrippedSucceedsIff(LStrip(s, '#'));
  }

  /** A string that does not start with `#` is its own stripped form. */
  lemma StripHexForm(s: string)
    requires IsLongHex(s) || IsShortHex(s)
    ensures LStrip(s, '#') == s[1..]
  {
    StripUnchanged(s[1..], '#');
  }

  /** Every validated `#RRGGBB` converts, channel by channel, to n/255. */
  lemma LongFormChannels(s: string)
    requires IsLongHex(s)
    ensures HexToRgb(s) == Some(Rgb(Channel(HexValue(s[1..3])), Channel(HexValue(s[3..5])),
                                    Channel(HexValue(s[5..7]))))
  {
    StripHexForm(s);
    var h := s[1..];
    assert Slice(h, 0, 2) == s[1..3];
    assert Slice(h, 2, 4) == s[3..5];
    assert Slice(h, 4, 6) == s[5..7];
  }

  /** Every validated `#RGB` short form makes the conversion raise, with or without `#`. */
  lemma ShortFormFails(s: string)
    requires IsShortHex(s)
    ensures HexToRgb(s) == None
    ensures HexToRgb(LStrip(s, '#')) == None
  {
    StripHexForm(s);
    StripIdempotent(s, '#');
    HexToRgbSucceedsIff(s);
    HexToRgbSucceedsIff(LStrip(s, '#'));
  }

  /** Stripping `#` before the call, as `set_color` does, changes nothing. */
  lemma DoubleStrip(s: string)
    ensures HexToRgb(LStrip(s, '#')) == HexToRgb(s)
  {
    StripIdempotent(s, '#');
  }

  /** Lower-case letters parse only when the first five or six are all in `a`-`f`. */
  lemma ColorNameParsesIff(s: string)
    requires IsColorName(s)
    ensures HexToRgb(s).Some? <==> |s| >= 5 && forall k :: 0 <= k < 6 && k < |s| ==> 'a' <= s[k] <= 'f'
  {
    StripUnchanged(s, '#');
    assert HexToRgb(s) == RgbOfStripped(s);
    StrippedSucceedsIff(s);
    forall k | 0 <= k < |s| ensures IsHexDigit(s[k]) <==> 'a' <= s[k] <= 'f' {
      LowerHexDigit(s[k]);
    }
  }

  lemma LowerHexDigit(c: char)
    requires IsLowerLetter(c)
    ensures IsHexDigit(c) <==> 'a' <= c <= 'f'
  {
  }

  /** Two names from the pattern that happen to be hex, and two common ones that are not. */
  lemma ColorNameExamples()
    ensures HexToRgb("decade") == Some(Rgb(Channel(222), Channel(202), Channel(222)))
    ensures HexToRgb("red") == None && HexToRgb("blue") == None
  {
    assert IsColorName("red") && IsColorName("blue");
    ColorNameParsesIff("red");
    ColorNameParsesIff("blue");
    StripUnchanged("decade", '#');
    DecadePieces();
  }

  lemma DecadePieces()
    ensures ParseHex(Slice("decade", 0, 2)) == Some(222)
    ensures ParseHex(Slice("decade", 2, 4)) == Some(202)
    ensures ParseHex(Slice("decade", 4, 6)) == Some(222)
  {
    assert Slice("decade", 0, 2) == "de";
    assert Slice("decade", 2, 4) == "ca";
    assert Slice("decade", 4, 6) == "de";
    assert HexValue("de") == 16 * HexValue("d") + 14;
    assert HexValue("ca") == 16 * HexValue("c") + 10;
  }

  lemma SliceOfPrefix(h: string, t: string, i: nat, j: nat)
    requires j <= |h|
    ensures Slice(h + t, i, j) == Slice(h, i, j)
  {
    var x, y := Slice(h + t, i, j), Slice(h, i, j);
    assert |x| == |y|;
    forall k | 0 <= k < |x| ensures x[k] == y[k] {
      assert x[k] == (h + t)[i + k];
    }
  }

  /** Characters past the sixth after the `#` run are ignored. */
  lemma TrailingIgnored(s: string, t: string)
    requires |LStrip(s, '#')| >= 6
    ensures HexToRgb(s + t) == HexToRgb(s)
  {
    StripAppend(s, t, '#');
    var h := LStrip(s, '#');
    SliceOfPrefix(h, t, 0, 2);
    SliceOfPrefix(h, t, 2, 4);
    SliceOfPrefix(h, t, 4, 6);
  }

  lemma {:induction false} HexValueLower(t: string)
    requires AllHex(t)
    ensures AllHex(Lower(t)) && HexValue(Lower(t)) == HexValue(t)
  {
    if t != [] {
      var init := t[..|t| - 1];
      HexValueLower(init);
      assert Lower(t)[..|t| - 1] == Lower(init);
    }
  }

  lemma {:induction false} StripLower(s: string)
    ensures LStrip(Lower(s), '#') == Lower(LStrip(s, '#'))
  {
    if s != [] {
      assert Lower(s)[1..] == Lower(s[1..]);
      if s[0] == '#' {
        StripLower(s[1..]);
      }
    }
  }

  /** Lower-casing a piece does not change what `int(piece, 16)` returns. */
  lemma ParseHexLower(h: string, i: nat, j: nat)
    ensures ParseHex(Slice(Lower(h), i, j)) == ParseHex(Slice(h, i, j))
  {
    var p := Slice(h, i, j);
    var q := Slice(Lower(h), i, j);
    assert q == Lower(p);
    assert forall k :: 0 <= k < |p| ==> (IsHexDigit(Lower(p)[k]) <==> IsHexDigit(p[k]));
    assert AllHex(Lower(p)) <==> AllHex(p);
    if AllHex(p) { HexValueLower(p); }
  }

  /** Upper- and lower-case hex digits give identical channels. */
  lemma CaseInsensitive(s: string)
    ensures HexToRgb(Lower(s)) == HexToRgb(s)
  {
    StripLower(s);
    var h := LStrip(s, '#');
    ParseHexLower(h, 0, 2);
    ParseHexLower(h, 2, 4);
    ParseHexLower(h, 4, 6);
  }

  /** One lower-case hex digit for a value below 16. */
  function HexChar(d: nat): (c: char)
    requires d < 16
    ensures IsHexDigit(c) && DigitValue(c) == d
  {
    if d < 10 then ('0' as int + d) as char else ('a' as int + d - 10) as char
  }

  /** Two hex digits for a byte, as `format(n, "02x")`. */
  function Hex2(n: nat): string
    requires n < 256
  {
    [HexChar(n / 16), HexChar(n % 16)]
  }

  /** `#RRGGBB` for three bytes. */
  function FormatHex(r: nat, g: nat, b: nat): string
    requires r < 256 && g < 256 && b < 256
  {
    "#" + Hex2(r) + Hex2(g) + Hex2(b)
  }

  lemma Hex2Value(n: nat)
    requires n < 256
    ensures AllHex(Hex2(n)) && HexValue(Hex2(n)) == n
  {
    var t := Hex2(n);
    assert t[..1] == [HexChar(n / 16)];
    assert HexValue([HexChar(n / 16)]) == DigitValue(HexChar(n / 16));
  }

  /** Formatting three bytes as `#RRGGBB` passes the pattern and parses back to r/255, g/255, b/255. */
  lemma FormatParseRoundTrip(r: nat, g: nat, b: nat)
    requires r < 256 && g < 256 && b < 256
    ensures ValidColor(FormatHex(r, g, b))
    ensures HexToRgb(FormatHex(r, g, b)) == Some(Rgb(Channel(r), Channel(g), Channel(b)))
  {
    var s := FormatHex(r, g, b);
    Hex2Value(r);
    Hex2Value(g);
    Hex2Value(b);
    assert s[1..3] == Hex2(r) && s[3..5] == Hex2(g) && s[5..7] == Hex2(b);
    assert IsLongHex(s);
    LongFormChannels(s);
  }

  // ---------------------------------------------------------------------------
  // The `#RGB` short form: accepted by the pattern, rejected by the parser.
  // The corrected conversion expands it the CSS way before parsing.
  // ---------------------------------------------------------------------------

  /** `#RGB` becomes `#RRGGBB`; every other string is left alone. */
  function ExpandShortForm(color: string): (e: string)
    ensures IsShortHex(color) ==> IsLongHex(e)
  {
    if IsShortHex(color) then
      ['#', color[1], color[1], color[2], color[2], color[3], color[3]]
    else color
  }

  /** The conversion at `set_color`, with the short form expanded first. */
  function ColorToRgb(color: string): Option<Rgb>
  {
    HexToRgb(LStrip(ExpandShortForm(color), '#'))
  }

  /** Apart from the short form, the corrected conversion is the one the handler runs. */
  lemma ColorToRgbAgreesOffShortForm(color: string)
    requires !IsShortHex(color)
    ensures ColorToRgb(color) == HexToRgb(LStrip(color, '#'))
  {
  }

  lemma DoubledDigit(c: char)
    requires IsHexDigit(c)
    ensures AllHex([c, c]) && HexValue([c, c]) == 17 * DigitValue(c)
  {
    assert [c, c][..1] == [c];
  }

  lemma ExpandedPieces(s: string)
    requires IsShortHex(s)
    ensures var e := ExpandShortForm(s);
      e[1..3] == [s[1], s[1]] && e[3..5] == [s[2], s[2]] && e[5..7] == [s[3], s[3]]
  {
  }

  /** A short form `#RGB` gets the channels of `#RRGGBB`: 17 times each digit, over 255. */
  lemma ShortFormChannels(s: string)
    requires IsShortHex(s)
    ensures ColorToRgb(s) == Some(Rgb(Channel(17 * DigitValue(s[1])),
                                      Channel(17 * DigitValue(s[2])),
                                      Channel(17 * DigitValue(s[3]))))
  {
    var e := ExpandShortForm(s);
    assert ColorToRgb(s) == HexToRgb(LStrip(e, '#'));
    DoubleStrip(e);
    LongFormChannels(e);
    ExpandedPieces(s);
    DoubledDigit(s[1]);
    DoubledDigit(s[2]);
    DoubledDigit(s[3]);
  }

  /** Every hex form the pattern accepts converts under the corrected conversion. */
  lemma ColorToRgbAcceptsHexForms(s: string)
    requires IsLongHex(s) || IsShortHex(s)
    ensures ColorToRgb(s).Some?
  {
    if IsShortHex(s) {
      ShortFormChannels(s);
    } else {
      DoubleStrip(s);
      LongFormChannels(s);
    }
  }

  /** `#f00` passes the pattern and makes the conversion raise, as written. */
  lemma ShortFormExample()
    ensures ValidColor("#f00") && HexToRgb(LStrip("#f00", '#')) == None
  {
    var s := "#f00";
    assert s[1] == 'f' && s[2] == '0' && s[3] == '0';
    assert IsShortHex(s);
    ShortFormFails(s);
  }
}
