/**
 * The `ColorPayload` body model: its `color` field must fully match
 *   ^(#(?:[0-9A-Fa-f]{6}|[0-9A-Fa-f]{3})|[a-z]+)$
 * The regular expression is written down as data with its language
 * semantics, and the predicate the handler uses, `ValidColor`, is proved
 * to accept exactly that language.
 */
module ColorPayload {

  /** Regular expressions, with character classes given as inclusive ranges. */
  datatype Regex =
    | Eps                                 // the empty string
    | Class(ranges: seq<(char, char)>)    // one character from the ranges
    | Cat(left: Regex, right: Regex)      // concatenation
    | Alt(left: Regex, right: Regex)      // alternation `|`
    | Star(body: Regex)                   // Kleene star

  /** The literal character `c`. */
  function Lit(c: char): Regex { Class([(c, c)]) }

  /** `r{n}`: exactly `n` consecutive matches of `r`. */
  function Power(r: Regex, n: nat): Regex
  {
    if n == 0 then Eps else Cat(r, Power(r, n - 1))
  }

  /** `r+`: one or more matches of `r`. */
  function Plus(r: Regex): Regex { Cat(r, Star(r)) }

  const HexRanges: seq<(char, char)> := [('0', '9'), ('A', 'F'), ('a', 'f')]
  const LowerRanges: seq<(char, char)> := [('a', 'z')]

  /** The `ColorPayload.color` pattern; the `^...$` anchors make it a full match. */
  const ColorRegex: Regex :=
    Alt(Cat(Lit('#'), Alt(Power(Class(HexRanges), 6), Power(Class(HexRanges), 3))),
        Plus(Class(LowerRanges)))

  ghost predicate InClass(ranges: seq<(char, char)>, c: char)
  {
    exists k :: 0 <= k < |ranges| && ranges[k].0 <= c <= ranges[k].1
  }

  /** `s` as a whole belongs to the language of `r`. */
  ghost predicate Matches(r: Regex, s: string)
    decreases r, |s|
  {
    match r
    case Eps => s == []
    case Class(ranges) => |s| == 1 && InClass(ranges, s[0])
    case Cat(a, b) => exists i :: 0 <= i <= |s| && Matches(a, s[..i]) && Matches(b, s[i..])
    case Alt(a, b) => Matches(a, s) || Matches(b, s)
    case Star(a) =>
      s == [] || exists i :: 0 < i <= |s| && Matches(a, s[..i]) && Matches(Star(a), s[i..])
  }

  predicate IsHexDigit(c: char)
  {
    '0' <= c <= '9' || 'A' <= c <= 'F' || 'a' <= c <= 'f'
  }

  predicate IsLowerLetter(c: char)
  {
    'a' <= c <= 'z'
  }

  /** `#RRGGBB`, digits in either case. */
  predicate IsLongHex(s: string)
  {
    |s| == 7 && s[0] == '#' && forall k :: 1 <= k < 7 ==> IsHexDigit(s[k])
  }

  /** `#RGB`, digits in either case. */
  predicate IsShortHex(s: string)
  {
    |s| == 4 && s[0] == '#' && forall k :: 1 <= k < 4 ==> IsHexDigit(s[k])
  }

  /** A non-empty run of lower-case ASCII letters, such as `red`. */
  predicate IsColorName(s: string)
  {
    |s| >= 1 && forall k :: 0 <= k < |s| ==> IsLowerLetter(s[k])
  }

  /** The payload check the handler runs before anything else. */
  predicate ValidColor(s: string)
  {
    IsLongHex(s) || IsShortHex(s) || IsColorName(s)
  }

  lemma HexClass(c: char)
    ensures InClass(HexRanges, c) <==> IsHexDigit(c)
  {
    if '0' <= c <= '9' { assert HexRanges[0].0 <= c <= HexRanges[0].1; }
    if 'A' <= c <= 'F' { assert HexRanges[1].0 <= c <= HexRanges[1].1; }
    if 'a' <= c <= 'f' { assert HexRanges[2].0 <= c <= HexRanges[2].1; }
  }

  lemma LowerClass(c: char)
    ensures InClass(LowerRanges, c) <==> IsLowerLetter(c)
  {
    if IsLowerLetter(c) { assert LowerRanges[0].0 <= c <= LowerRanges[0].1; }
  }

  /** A class followed by `r` matches one class character, then `r`. */
  lemma CatClass(ranges: seq<(char, char)>, r: Regex, s: string)
    ensures Matches(Cat(Class(ranges), r), s)
        <==> |s| >= 1 && InClass(ranges, s[0]) && Matches(r, s[1..])
  {
    if |s| >= 1 && InClass(ranges, s[0]) && Matches(r, s[1..]) {
      assert s[..1] == [s[0]];
      assert Matches(Class(ranges), s[..1]);
    }
    if Matches(Cat(Class(ranges), r), s) {
      var i :| 0 <= i <= |s| && Matches(Class(ranges), s[..i]) && Matches(r, s[i..]);
      assert i == 1 && s[..i][0] == s[0];
    }
  }

  /** `C{n}` matches exactly the strings of `n` characters from `C`. */
  lemma {:induction false} PowerClass(ranges: seq<(char, char)>, n: nat, s: string)
    ensures Matches(Power(Class(ranges), n), s)
        <==> |s| == n && forall k :: 0 <= k < |s| ==> InClass(ranges, s[k])
  {
    if n > 0 {
      CatClass(ranges, Power(Class(ranges), n - 1), s);
      if |s| >= 1 {
        PowerClass(ranges, n - 1, s[1..]);
        assert forall k :: 1 <= k < |s| ==> s[1..][k - 1] == s[k];
      }
    }
  }

  /** `C*` matches exactly the strings whose characters are all from `C`. */
  lemma {:induction false} StarClass(ranges: seq<(char, char)>, s: string)
    ensures Matches(Star(Class(ranges)), s)
        <==> forall k :: 0 <= k < |s| ==> InClass(ranges, s[k])
    decreases |s|
  {
    var c := Class(ranges);
    if s != [] {
      StarClass(ranges, s[1..]);
      assert forall k :: 1 <= k < |s| ==> s[1..][k - 1] == s[k];
      if forall k :: 0 <= k < |s| ==> InClass(ranges, s[k]) {
        assert s[..1] == [s[0]];
        assert Matches(c, s[..1]);
      }
      if Matches(Star(c), s) {
        var i :| 0 < i <= |s| && Matches(c, s[..i]) && Matches(Star(c), s[i..]);
        assert i == 1 && s[..i][0] == s[0];
      }
    }
  }

  lemma HashClass(c: char)
    ensures InClass([('#', '#')], c) <==> c == '#'
  {
    if c == '#' { assert [('#', '#')][0].0 <= c <= [('#', '#')][0].1; }
  }

  /** `[0-9A-Fa-f]{n}` matches exactly the strings of `n` hex digits. */
  lemma PowerHex(n: nat, t: string)
    ensures Matches(Power(Class(HexRanges), n), t)
        <==> |t| == n && forall k :: 0 <= k < |t| ==> IsHexDigit(t[k])
  {
    PowerClass(HexRanges, n, t);
    forall k | 0 <= k < |t| ensures InClass(HexRanges, t[k]) <==> IsHexDigit(t[k]) {
      HexClass(t[k]);
    }
  }

  lemma TailHex(s: string)
    requires |s| >= 1
    ensures (forall k :: 0 <= k < |s[1..]| ==> IsHexDigit(s[1..][k]))
        <==> (forall k :: 1 <= k < |s| ==> IsHexDigit(s[k]))
  {
    assert forall k :: 1 <= k < |s| ==> s[1..][k - 1] == s[k];
  }

  /** The first alternative matches exactly `#RRGGBB` and `#RGB`. */
  lemma HexAlternative(s: string)
    ensures Matches(Cat(Lit('#'), Alt(Power(Class(HexRanges), 6), Power(Class(HexRanges), 3))), s)
        <==> IsLongHex(s) || IsShortHex(s)
  {
    var hex := Class(HexRanges);
    CatClass([('#', '#')], Alt(Power(hex, 6), Power(hex, 3)), s);
    if |s| >= 1 {
      HashClass(s[0]);
      PowerHex(6, s[1..]);
      PowerHex(3, s[1..]);
      TailHex(s);
    }
  }

  /** The second alternative matches exactly the lower-case names. */
  lemma NameAlternative(s: string)
    ensures Matches(Plus(Class(LowerRanges)), s) <==> IsColorName(s)
  {
    CatClass(LowerRanges, Star(Class(LowerRanges)), s);
    forall k | 0 <= k < |s| ensures InClass(LowerRanges, s[k]) <==> IsLowerLetter(s[k]) {
      LowerClass(s[k]);
    }
    if |s| >= 1 {
      StarClass(LowerRanges, s[1..]);
      assert forall k :: 1 <= k < |s| ==> s[1..][k - 1] == s[k];
    }
  }

  /**
   * The validator accepts exactly the strings that fully match the pattern:
   * `#` and six hex digits, `#` and three hex digits, or lower-case letters.
   */
  lemma ValidColorMatchesPattern(s: string)
    ensures ValidColor(s) <==> Matches(ColorRegex, s)
  {
    HexAlternative(s);
    NameAlternative(s);
  }
}
