/** The clean-up module's three fixed regular expressions (heading, numeric
    heading text, domain-shaped heading) and its structure-line test, written
    out as character predicates over ASCII. Every regex is applied to a
    stripped line, so the functions that model them require one. */
module Classify {
  import opened Text

  /** Number of leading `#` characters. */
  function HashRun(s: string): (n: nat)
    ensures n <= |s|
    ensures forall i | 0 <= i < n :: s[i] == '#'
    ensures n == |s| || s[n] != '#'
  {
    if |s| > 0 && s[0] == '#' then 1 + HashRun(s[1..]) else 0
  }

  /** Number of leading ASCII digits. */
  function DigitRun(s: string): (n: nat)
    ensures n <= |s|
    ensures forall i | 0 <= i < n :: IsDigit(s[i])
    ensures n == |s| || !IsDigit(s[n])
  {
    if |s| > 0 && IsDigit(s[0]) then 1 + DigitRun(s[1..]) else 0
  }

  // ---------------------------------------------------------------------------
  // Headings: ^(#{1,6})\s*(.+?)\s*$
  // ---------------------------------------------------------------------------

  datatype Heading = Heading(level: nat, text: string)

  /** No line feed in `t[a..b]`: the one character the regex `.` does not
      match. */
  predicate NoLineFeed(t: string, a: nat, b: nat)
    requires b <= |t|
  {
    forall i | a <= i < b :: t[i] != '\n'
  }

  /** Only whitespace in `t[a..b]`. */
  predicate SpaceIn(t: string, a: nat, b: nat)
    requires b <= |t|
  {
    forall i | a <= i < b :: IsSpace(t[i])
  }

  /** One way the heading regex can match `t`: `level` hashes, whitespace up
      to `a`, the text `t[a..b]` and whitespace up to the end. */
  ghost predicate HeadingMatchAt(t: string, level: nat, a: nat, b: nat) {
    && 1 <= level <= 6 && level <= a < b <= |t|
    && (forall i | 0 <= i < level :: t[i] == '#')
    && SpaceIn(t, level, a) && NoLineFeed(t, a, b) && SpaceIn(t, b, |t|)
  }

  /** A whitespace-only tail of a stripped text is empty. */
  lemma SpaceEnd(t: string, j: nat)
    requires Stripped(t) && j <= |t| && SpaceIn(t, j, |t|)
    ensures j == |t|
  {
  }

  /** `_HEADING_PATTERN.match(t)` on a stripped line `t`: the level is the
      hash run capped at six and the text is the rest without its leading
      whitespace; a line of two to six `#` matches only by giving one `#` back
      to the text. */
  function ParseHeading(t: string): (r: Option<Heading>)
    requires Stripped(t)
    ensures r.Some? ==>
      && |r.value.text| <= |t|
      && r.value.text == t[|t| - |r.value.text|..]
      && HeadingMatchAt(t, r.value.level, |t| - |r.value.text|, |t|)
      && Stripped(r.value.text)
  {
    var m := HashRun(t);
    var level := if m < 6 then m else 6;
    var j := SkipSpace(t, level);
    if m == 0 then None
    else if j < |t| then
      if NoLineFeed(t, j, |t|) then Some(Heading(level, t[j..])) else None
    else if m >= 2 then
      SpaceEnd(t, level);
      Some(Heading(m - 1, "#"))
    else None
  }

  /** The heading regex matches exactly when `ParseHeading` finds a heading,
      and the greedy `#{1,6}` makes its level the largest possible one. */
  lemma ParseHeadingComplete(t: string, level: nat, a: nat, b: nat)
    requires Stripped(t) && HeadingMatchAt(t, level, a, b)
    ensures ParseHeading(t).Some? && level <= ParseHeading(t).value.level
  {
    SpaceEnd(t, b);
    var m := HashRun(t);
    var k := if m < 6 then m else 6;
    var j := SkipSpace(t, k);
    if j < |t| {
      assert j >= a by {
        if k > level {
          assert t[level] == '#';
        }
      }
    } else {
      SpaceEnd(t, k);
    }
  }

  /** The heading regex yields a level from one to six and a non-empty,
      stripped text without line feeds. */
  lemma HeadingText(t: string)
    requires Stripped(t) && ParseHeading(t).Some?
    ensures var h := ParseHeading(t).value;
      1 <= h.level <= 6 && h.text != [] && Stripped(h.text) && NoLineFeed(h.text, 0, |h.text|)
  {
    var h := ParseHeading(t).value;
    var a := |t| - |h.text|;
    forall i | 0 <= i < |h.text| ensures h.text[i] != '\n' {
      assert h.text[i] == t[a + i];
    }
  }

  /** A heading written out as its hashes, one space and its text. */
  function RenderHeading(h: Heading): string {
    Hashes(h.level) + " " + h.text
  }

  /** Writing out a heading of level one to six whose text is stripped and
      has no line feed, and parsing the line again, gives the heading back,
      even when the text itself begins with `#`. */
  lemma ParseRenderHeading(h: Heading)
    requires 1 <= h.level <= 6 && h.text != [] && Stripped(h.text)
    requires NoLineFeed(h.text, 0, |h.text|)
    ensures Stripped(RenderHeading(h)) && ParseHeading(RenderHeading(h)) == Some(h)
  {
    var t := RenderHeading(h);
    var L := h.level;
    assert t[L] == ' ' && t[L + 1] == h.text[0];
    assert t[|t| - 1] == h.text[|h.text| - 1];
    assert HashRun(t) == L by {
      assert forall i | 0 <= i < L :: t[i] == '#';
    }
    assert SkipSpace(t, L) == L + 1;
    assert NoLineFeed(t, L + 1, |t|) by {
      forall i | L + 1 <= i < |t| ensures t[i] != '\n' {
        assert t[i] == h.text[i - L - 1];
      }
    }
    assert t[L + 1..] == h.text;
  }

  // ---------------------------------------------------------------------------
  // Numeric heading text: ^(\d+)([.)])?$
  // ---------------------------------------------------------------------------

  datatype Numeric = Numeric(digits: string, sep: string)

  /** The language of the numeric regex: one or more ASCII digits, then
      optionally one `.` or `)`. */
  predicate IsNumericText(t: string) {
    (|t| >= 1 && AllDigits(t)) ||
    (|t| >= 2 && AllDigits(t[..|t| - 1]) && t[|t| - 1] in ".)")
  }

  /** `_NUMERIC_HEADING_PATTERN.match(t)` on a stripped text, with its two
      groups; the second is empty when the optional group did not take part. */
  function ParseNumeric(t: string): (r: Option<Numeric>)
    requires Stripped(t)
    ensures r.Some? <==> IsNumericText(t)
    ensures r.Some? ==>
      && t == r.value.digits + r.value.sep
      && |r.value.digits| >= 1 && AllDigits(r.value.digits)
      && r.value.sep in {"", ".", ")"}
  {
    var d := DigitRun(t);
    assert IsNumericText(t) ==> d >= |t| - 1;
    if d == 0 then
      assert |t| >= 2 ==> t[0] == t[..|t| - 1][0];
      None
    else if d == |t| then Some(Numeric(t, ""))
    else if d + 1 == |t| && t[d] in ".)" then
      assert t[..d] + t[d..] == t && t[d..] == [t[d]];
      Some(Numeric(t[..d], t[d..]))
    else None
  }

  // ---------------------------------------------------------------------------
  // Domain-shaped headings:
  // ^(#{1,6})\s*([A-Za-z0-9](?:[A-Za-z0-9-]*[A-Za-z0-9])?(?:\.[A-Za-z0-9-]+)+)\s*$
  // ---------------------------------------------------------------------------

  predicate IsLabelChar(c: char) { IsAlnum(c) || c == '-' }

  /** Index of the first `.`, or the length when there is none. */
  function FirstDot(s: string): (d: nat)
    ensures d <= |s|
    ensures d < |s| ==> s[d] == '.'
    ensures forall i | 0 <= i < d :: s[i] != '.'
  {
    if s == [] || s[0] == '.' then 0 else 1 + FirstDot(s[1..])
  }

  /** The language of the second group of the domain regex: at least two
      non-empty labels of letters, digits and `-`, separated by single dots,
      the first label starting and ending with a letter or digit. */
  predicate IsDomainName(s: string) {
    var d := FirstDot(s);
    && 0 < d < |s| - 1
    && IsAlnum(s[0]) && IsAlnum(s[d - 1])
    && s[|s| - 1] != '.'
    && (forall i | 0 <= i < |s| :: IsLabelChar(s[i]) || s[i] == '.')
    && (forall i | 0 <= i < |s| - 1 :: s[i] == '.' ==> s[i + 1] != '.')
  }

  /** One way the domain regex can match `t`: `level` hashes, whitespace up
      to `a`, the domain name `t[a..b]`, whitespace up to the end. */
  ghost predicate DomainMatchAt(t: string, level: nat, a: nat, b: nat) {
    && 1 <= level <= 6 && level <= a <= b <= |t|
    && (forall i | 0 <= i < level :: t[i] == '#')
    && SpaceIn(t, level, a) && IsDomainName(t[a..b]) && SpaceIn(t, b, |t|)
  }

  /** `_DOMAIN_HEADING_PATTERN.match(t).group(2)` on a stripped line `t`
      (`None` when the regex does not match). */
  function DomainName(t: string): (r: Option<string>)
    requires Stripped(t)
    ensures r.Some? ==>
      && |r.value| <= |t|
      && r.value == t[|t| - |r.value|..|t|]
      && DomainMatchAt(t, HashRun(t), |t| - |r.value|, |t|)
  {
    var m := HashRun(t);
    if 1 <= m <= 6 then
      var j := SkipSpace(t, m);
      if IsDomainName(t[j..|t|]) then Some(t[j..|t|]) else None
    else None
  }

  /** The domain regex has at most one match, and `DomainName` finds it. */
  lemma DomainNameComplete(t: string, level: nat, a: nat, b: nat)
    requires Stripped(t) && DomainMatchAt(t, level, a, b)
    ensures DomainName(t) == Some(t[a..b])
  {
    var name := t[a..b];
    assert IsAlnum(name[0]) && name[0] == t[a];
    SpaceEnd(t, b);
    var m := HashRun(t);
    assert IsSpace(t[level]) || t[level] == t[a];
    assert m == level;
    var j := SkipSpace(t, m);
    assert j == a;
    assert t[a..b] == t[j..];
  }

  /** Every domain-shaped heading is a heading whose text is its domain name. */
  lemma DomainNameIsHeading(t: string)
    requires Stripped(t) && DomainName(t).Some?
    ensures ParseHeading(t) == Some(Heading(HashRun(t), DomainName(t).value))
  {
    var m := HashRun(t);
    var j := SkipSpace(t, m);
    var name := t[j..|t|];
    assert IsDomainName(name);
    assert name == t[j..];
    assert NoLineFeed(t, j, |t|) by {
      forall i | j <= i < |t| ensures t[i] != '\n' {
        assert t[i] == name[i - j];
        assert IsLabelChar(name[i - j]) || name[i - j] == '.';
      }
    }
  }

  // ---------------------------------------------------------------------------
  // Structure lines (`_is_structure_line`)
  // ---------------------------------------------------------------------------

  /** `^(?:\*|-|\+|\d+\.)\s+` at the start of a stripped line. */
  predicate IsListItem(s: string) {
    (|s| >= 2 && s[0] in "*-+" && IsSpace(s[1])) ||
    (var d := DigitRun(s); 0 < d && d + 1 < |s| && s[d] == '.' && IsSpace(s[d + 1]))
  }

  /** `^={3,}$|^-{3,}$` on a stripped line. */
  predicate IsThematicBreak(s: string) {
    |s| >= 3 &&
    ((forall i | 0 <= i < |s| :: s[i] == '=') || (forall i | 0 <= i < |s| :: s[i] == '-'))
  }

  /** `str.count(c)`. */
  function CountChar(s: string, c: char): nat {
    if s == [] then 0 else (if s[0] == c then 1 else 0) + CountChar(s[1..], c)
  }

  /** A line that paragraph reflow never absorbs into a paragraph: a heading
      marker (a plain leading `#`, not the heading regex), a quote, a list
      item, an indented line, a table row, an HTML comment or a thematic
      break. `stripped` is the stripped line and `raw` the line as given. */
  predicate IsStructureLine(stripped: string, raw: string) {
    && stripped != []
    && (|| StartsWith(stripped, "#") || StartsWith(stripped, ">")
        || IsListItem(stripped)
        || StartsWith(raw, "    ") || StartsWith(raw, "\t")
        || (StartsWith(stripped, "|") && CountChar(stripped, '|') >= 2)
        || (StartsWith(stripped, "<!--") && EndsWith(stripped, "-->"))
        || IsThematicBreak(stripped))
  }

  /** Whatever the heading regex accepts, reflow treats as structure. */
  lemma HeadingIsStructure(t: string, raw: string)
    requires Stripped(t) && ParseHeading(t).Some?
    ensures IsStructureLine(t, raw)
  {
    assert t[..1] == "#" by { assert t[0] == '#'; }
  }
}
