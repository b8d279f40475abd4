/** `_combine_numbered_headings`: a heading holding only a chapter number
    (`## 2`) followed by a heading of the same level holding the title
    (`## Hope`) become one heading (`## 2. Hope`). */
module NumberedHeadings {
  import opened Text
  import opened Classify

  /** A title that attaches to the number without a space. */
  predicate TightTitle(title: string) {
    title != [] && title[0] in ".)-\U{2013}"
  }

  /** The separator written after the number: its own, or `.`. */
  function Separator(number: Numeric): string {
    Strip(if number.sep == "" then "." else number.sep)
  }

  /** The space between separator and title. */
  function Space(title: string): string {
    if title == [] || TightTitle(title) then "" else " "
  }

  /** The merged line: the hashes, a space, the number, its separator, a
      space unless the title begins with punctuation, and the title,
      right-stripped. */
  function Merged(level: nat, number: Numeric, title: string): (r: string)
    ensures |number.digits| > 0 && AllDigits(number.digits) ==>
      level + 1 + |number.digits| <= |r| && r[..level + 1 + |number.digits|] == Hashes(level) + " " + number.digits
  {
    var u := Hashes(level) + " " + (number.digits + Separator(number) + Space(title) + title);
    assert |number.digits| > 0 && AllDigits(number.digits) ==>
      level + 1 + |number.digits| <= |RStrip(u)| && RStrip(u)[..level + 1 + |number.digits|] == Hashes(level) + " " + number.digits
    by {
      if |number.digits| > 0 && AllDigits(number.digits) {
        NumberPrefixKept(level, number.digits, Separator(number), Space(title), title);
      }
    }
    RStrip(u)
  }

  /** Right-stripping a merged line never cuts into the hashes, the space
      or the number, since the number ends in a digit. */
  lemma NumberPrefixKept(level: nat, digits: string, sep: string, space: string, title: string)
    requires |digits| > 0 && AllDigits(digits)
    ensures var u := Hashes(level) + " " + (digits + sep + space + title);
      var n := level + 1 + |digits|;
      n <= |RStrip(u)| && RStrip(u)[..n] == Hashes(level) + " " + digits
  {
    var head := Hashes(level) + " " + digits;
    assert Hashes(level) + " " + (digits + sep + space + title) == head + (sep + space + title);
    assert head[|head| - 1] == digits[|digits| - 1];
    RStripKeeps(head, sep + space + title);
  }

  /** The merge of line `a` with the line `b` after it, when `a` is a
      heading whose text is a number and `b` a heading of the same level
      whose text is not. */
  function MergeAt(a: string, b: string): Option<string> {
    var h := ParseHeading(Strip(a));
    if h.None? then None
    else
      var number := ParseNumeric(Strip(h.value.text));
      var g := ParseHeading(Strip(b));
      if number.None? || g.None? || g.value.level != h.value.level then None
      else
        var title := Strip(g.value.text);
        if ParseNumeric(title).Some? then None
        else Some(Merged(h.value.level, number.value, title))
  }

  /** A pair-merge decision: the merged line, or `None` to keep the first
      line and move on. The scan below is stated for any such decision and
      the stage uses `MergeAt`. */
  type MergeRule = (string, string) -> Option<string>

  /** Line `i` and the line after it merge. */
  predicate MergesAt(lines: seq<string>, i: nat, merge: MergeRule) {
    i + 1 < |lines| && merge(lines[i], lines[i + 1]).Some?
  }

  /** The output of the scan from index `i`: each mergeable pair is replaced
      by its merge and every other line is kept. */
  function CombineFrom(lines: seq<string>, i: nat, merge: MergeRule): seq<string>
    decreases |lines| - i
  {
    if i >= |lines| then []
    else if MergesAt(lines, i, merge) then [merge(lines[i], lines[i + 1]).value] + CombineFrom(lines, i + 2, merge)
    else [lines[i]] + CombineFrom(lines, i + 1, merge)
  }

  /** What the stage returns. */
  function Combine(lines: seq<string>): seq<string> {
    CombineFrom(lines, 0, MergeAt)
  }

  /** The number of merges the scan from index `i` performs. */
  function MergesFrom(lines: seq<string>, i: nat, merge: MergeRule): nat
    decreases |lines| - i
  {
    if i >= |lines| then 0
    else if MergesAt(lines, i, merge) then 1 + MergesFrom(lines, i + 2, merge)
    else MergesFrom(lines, i + 1, merge)
  }

  /** The stage as the source runs it: the index advances past both lines of
      a merge and past one line otherwise. */
  method CombineNumberedHeadings(lines: seq<string>) returns (combined: seq<string>)
    ensures combined == Combine(lines)
  {
    combined := [];
    var i := 0;
    while i < |lines|
      invariant i <= |lines|
      invariant combined + CombineFrom(lines, i, MergeAt) == Combine(lines)
    {
      var line := lines[i];
      if i + 1 < |lines| {
        var merged := MergeAt(line, lines[i + 1]);
        if merged.Some? {
          Assoc(combined, [merged.value], CombineFrom(lines, i + 2, MergeAt));
          combined := combined + [merged.value];
          i := i + 2;
          continue;
        }
      }
      Assoc(combined, [line], CombineFrom(lines, i + 1, MergeAt));
      combined := combined + [line];
      i := i + 1;
    }
  }

  /** Each merge turns two lines into one and nothing else changes the
      count: the output is shorter than the input by the number of merges,
      and there are at most half as many merges as lines. */
  lemma {:induction false} CombineLength(lines: seq<string>, i: nat, merge: MergeRule)
    requires i <= |lines|
    ensures |CombineFrom(lines, i, merge)| == |lines| - i - MergesFrom(lines, i, merge)
    ensures 2 * MergesFrom(lines, i, merge) <= |lines| - i
    decreases |lines| - i
  {
    if i < |lines| {
      if MergesAt(lines, i, merge) {
        CombineLength(lines, i + 2, merge);
      } else {
        CombineLength(lines, i + 1, merge);
      }
    }
  }

  /** Where no line merges with its successor, the stage returns its
      input unchanged. */
  lemma {:induction false} NoMergeKeepsAll(lines: seq<string>, i: nat, merge: MergeRule)
    requires i <= |lines|
    requires forall j | i <= j < |lines| :: !MergesAt(lines, j, merge)
    ensures CombineFrom(lines, i, merge) == lines[i..]
    decreases |lines| - i
  {
    if i < |lines| {
      NoMergeKeepsAll(lines, i + 1, merge);
      assert lines[i..] == [lines[i]] + lines[i + 1..];
    }
  }

  /** Every output line is an input line or the merge of two consecutive
      input lines. */
  lemma {:induction false} CombineOrigin(lines: seq<string>, i: nat, k: nat, merge: MergeRule)
    requires i <= |lines| && k < |CombineFrom(lines, i, merge)|
    ensures exists j | i <= j < |lines| ::
      || CombineFrom(lines, i, merge)[k] == lines[j]
      || (MergesAt(lines, j, merge) && CombineFrom(lines, i, merge)[k] == merge(lines[j], lines[j + 1]).value)
    decreases |lines| - i
  {
    if MergesAt(lines, i, merge) {
      if k == 0 {
        assert MergesAt(lines, i, merge) && CombineFrom(lines, i, merge)[k] == merge(lines[i], lines[i + 1]).value;
      } else {
        CombineOrigin(lines, i + 2, k - 1, merge);
      }
    } else if k == 0 {
      assert CombineFrom(lines, i, merge)[k] == lines[i];
    } else {
      CombineOrigin(lines, i + 1, k - 1, merge);
    }
  }

  /** The second line of a merge never starts a merge itself: its text
      is not a number. */
  lemma MergesDoNotOverlap(lines: seq<string>, i: nat)
    ensures MergesAt(lines, i, MergeAt) ==> !MergesAt(lines, i + 1, MergeAt)
  {
    if MergesAt(lines, i, MergeAt) {
      HeadingText(Strip(lines[i + 1]));
      StrippedStrip(ParseHeading(Strip(lines[i + 1])).value.text);
    }
  }

  /** No two merges share a line. */
  predicate NoOverlap(lines: seq<string>, merge: MergeRule) {
    forall j | 0 <= j < |lines| :: MergesAt(lines, j, merge) ==> !MergesAt(lines, j + 1, merge)
  }

  /** The scan looks at line `i`: it is the first line, or the line before
      it does not start a merge. */
  predicate Starts(lines: seq<string>, i: nat, merge: MergeRule) {
    i == 0 || !MergesAt(lines, i - 1, merge)
  }

  /** How many of the lines `a` to `b` start a merge with their successor. */
  function MergeCount(lines: seq<string>, a: nat, b: nat, merge: MergeRule): nat
    requires a <= b <= |lines|
    decreases b - a
  {
    if a == b then 0 else (if MergesAt(lines, a, merge) then 1 else 0) + MergeCount(lines, a + 1, b, merge)
  }

  lemma {:induction false} MergeCountSplit(lines: seq<string>, a: nat, i: nat, b: nat, merge: MergeRule)
    requires a <= i <= b <= |lines|
    ensures MergeCount(lines, a, b, merge) == MergeCount(lines, a, i, merge) + MergeCount(lines, i, b, merge)
    decreases i - a
  {
    if a < i {
      MergeCountSplit(lines, a + 1, i, b, merge);
    }
  }

  /** Without overlaps the scan merges every pair that can merge: from a
      line it looks at, it performs as many merges as there are lines that
      can start one. */
  lemma {:induction false} MergesFromCount(lines: seq<string>, i: nat, merge: MergeRule)
    requires i <= |lines| && NoOverlap(lines, merge) && Starts(lines, i, merge)
    ensures MergesFrom(lines, i, merge) == MergeCount(lines, i, |lines|, merge)
    decreases |lines| - i
  {
    if i < |lines| {
      if MergesAt(lines, i, merge) {
        assert !MergesAt(lines, i + 1, merge);
        MergesFromCount(lines, i + 2, merge);
        assert MergeCount(lines, i + 1, |lines|, merge) == MergeCount(lines, i + 2, |lines|, merge);
      } else {
        MergesFromCount(lines, i + 1, merge);
      }
    }
  }

  /** The output of the scan from a line it looks at ends the whole
      output. */
  lemma {:induction false} CombineSuffix(lines: seq<string>, i: nat, merge: MergeRule)
    requires i <= |lines| && NoOverlap(lines, merge) && Starts(lines, i, merge)
    ensures |CombineFrom(lines, i, merge)| <= |CombineFrom(lines, 0, merge)|
    ensures var out := CombineFrom(lines, 0, merge);
      out[|out| - |CombineFrom(lines, i, merge)|..] == CombineFrom(lines, i, merge)
    decreases i
  {
    if i > 0 {
      var out := CombineFrom(lines, 0, merge);
      var rest := CombineFrom(lines, i, merge);
      var j := if Starts(lines, i - 1, merge) then i - 1 else i - 2;
      if j == i - 2 && j > 0 {
        assert !MergesAt(lines, j - 1, merge);
      }
      CombineSuffix(lines, j, merge);
      var longer := CombineFrom(lines, j, merge);
      assert longer[|longer| - |rest|..] == rest;
      assert out[|out| - |rest|..] == longer[|longer| - |rest|..];
    }
  }

  /** Without overlaps, a line the scan looks at lands at its own index
      less the merges before it: as its merge with its successor if they
      merge, and unchanged otherwise. */
  lemma CombinePosition(lines: seq<string>, i: nat, merge: MergeRule)
    requires i < |lines| && NoOverlap(lines, merge) && Starts(lines, i, merge)
    ensures var out := CombineFrom(lines, 0, merge);
      var p := i - MergeCount(lines, 0, i, merge);
      && 0 <= p < |out|
      && out[p] == if MergesAt(lines, i, merge) then merge(lines[i], lines[i + 1]).value else lines[i]
  {
    CombineSuffix(lines, i, merge);
    CombineLength(lines, 0, merge);
    CombineLength(lines, i, merge);
    MergesFromCount(lines, 0, merge);
    MergesFromCount(lines, i, merge);
    MergeCountSplit(lines, 0, i, |lines|, merge);
  }

  /** `MergeAt` merges never overlap. */
  lemma MergeAtNoOverlap(lines: seq<string>)
    ensures NoOverlap(lines, MergeAt)
  {
    forall j | 0 <= j < |lines| ensures MergesAt(lines, j, MergeAt) ==> !MergesAt(lines, j + 1, MergeAt) {
      MergesDoNotOverlap(lines, j);
    }
  }

  /** `CombineAt` for any merge rule without overlaps. */
  lemma CombineAtRule(lines: seq<string>, i: nat, merge: MergeRule)
    requires i < |lines| && NoOverlap(lines, merge)
    ensures var out := CombineFrom(lines, 0, merge);
      var p := i - MergeCount(lines, 0, i, merge);
      && (MergesAt(lines, i, merge) ==>
            0 <= p < |out| && out[p] == merge(lines[i], lines[i + 1]).value)
      && (!MergesAt(lines, i, merge) && (i == 0 || !MergesAt(lines, i - 1, merge)) ==>
            0 <= p < |out| && out[p] == lines[i])
  {
    if i > 0 {
      assert MergesAt(lines, i - 1, merge) ==> !MergesAt(lines, i, merge);
    }
    if Starts(lines, i, merge) {
      CombinePosition(lines, i, merge);
    }
  }

  /** The converse of `CombineOrigin`: with `p` the line's index less the
      merges before it, every line that starts a merge comes out at `p` as
      that merge, and every line in no merge comes out at `p` unchanged;
      the output is as long as the input less the merges, so the line after
      a merge's first line is consumed with it and nothing else is added. */
  lemma CombineAt(lines: seq<string>, i: nat)
    requires i < |lines|
    ensures var out := Combine(lines);
      var p := i - MergeCount(lines, 0, i, MergeAt);
      && (MergesAt(lines, i, MergeAt) ==>
            0 <= p < |out| && out[p] == MergeAt(lines[i], lines[i + 1]).value)
      && (!MergesAt(lines, i, MergeAt) && (i == 0 || !MergesAt(lines, i - 1, MergeAt)) ==>
            0 <= p < |out| && out[p] == lines[i])
    ensures |Combine(lines)| == |lines| - MergeCount(lines, 0, |lines|, MergeAt)
  {
    MergeAtNoOverlap(lines);
    CombineAtRule(lines, i, MergeAt);
    CombineLength(lines, 0, MergeAt);
    MergesFromCount(lines, 0, MergeAt);
  }

  /** The merged line of a heading of level `level` holding `number` and
      the title `title` is that heading's hashes, a space, the number with
      its separator and the title, and it is itself a heading of the same
      level whose text is number and title. */
  lemma MergedIsHeading(level: nat, number: Numeric, title: string)
    requires 1 <= level <= 6
    requires |number.digits| >= 1 && AllDigits(number.digits) && number.sep in {"", ".", ")"}
    requires title != [] && Stripped(title) && NoLineFeed(title, 0, |title|)
    ensures
      var text := number.digits + Separator(number) + Space(title) + title;
      && Merged(level, number, title) == RenderHeading(Heading(level, text))
      && Stripped(Merged(level, number, title))
      && ParseHeading(Merged(level, number, title)) == Some(Heading(level, text))
  {
    StrippedStrip(".");
    StrippedStrip(")");
    var sep := Separator(number);
    assert sep == "." || sep == ")";
    var text := number.digits + sep + Space(title) + title;
    NumberTitleText(number.digits, sep, Space(title), title);
    var line := RenderHeading(Heading(level, text));
    assert line[|line| - 1] == text[|text| - 1];
    assert TrailingStart(line) == |line|;
    assert RStrip(line) == line;
    ParseRenderHeading(Heading(level, text));
  }

  /** Digits, a separator, an optional space and a title form a stripped
      heading text without line feed that begins with a digit. */
  lemma NumberTitleText(digits: string, sep: string, space: string, title: string)
    requires |digits| >= 1 && AllDigits(digits) && sep in {".", ")"} && space in {"", " "}
    requires title != [] && Stripped(title) && NoLineFeed(title, 0, |title|)
    ensures var text := digits + sep + space + title;
      Stripped(text) && NoLineFeed(text, 0, |text|) && IsDigit(text[0])
  {
    var prefix := digits + sep + space;
    var text := prefix + title;
    assert text == digits + sep + space + title;
    assert text[|text| - 1] == title[|title| - 1];
    assert text[0] == digits[0];
    forall i | 0 <= i < |text| ensures text[i] != '\n' {
      if i >= |prefix| {
        assert text[i] == title[i - |prefix|];
      } else if i < |digits| {
        assert text[i] == digits[i];
      }
    }
  }

  /** The merge case on the two input lines: a numeric heading followed by
      a non-numeric heading of the same level merge into a heading of that
      level whose text is the number, its separator and the title. */
  lemma MergedLine(a: string, b: string)
    requires MergeAt(a, b).Some?
    ensures
      var h := ParseHeading(Strip(a)).value;
      var g := ParseHeading(Strip(b)).value;
      && h.level == g.level
      && Stripped(h.text) && ParseNumeric(h.text).Some? && ParseNumeric(g.text).None?
      && var number := ParseNumeric(h.text).value;
         var text := number.digits + Separator(number) + Space(g.text) + g.text;
         && MergeAt(a, b).value == RenderHeading(Heading(h.level, text))
         && ParseHeading(Strip(MergeAt(a, b).value)) == Some(Heading(h.level, text))
  {
    var h := ParseHeading(Strip(a)).value;
    var g := ParseHeading(Strip(b)).value;
    HeadingText(Strip(a));
    HeadingText(Strip(b));
    StrippedStrip(h.text);
    StrippedStrip(g.text);
    var number := ParseNumeric(h.text).value;
    assert MergeAt(a, b).value == Merged(h.level, number, g.text);
    MergedIsHeading(h.level, number, g.text);
    StrippedStrip(MergeAt(a, b).value);
  }

  /** A line written as `hashes + " " + text` parses as that heading. */
  lemma ParsesAs(line: string, h: Heading)
    requires line == RenderHeading(h)
    requires 1 <= h.level <= 6 && h.text != [] && Stripped(h.text)
    requires NoLineFeed(h.text, 0, |h.text|)
    ensures ParseHeading(Strip(line)) == Some(h)
  {
    ParseRenderHeading(h);
    StrippedStrip(line);
  }

  /** `MergeAt` in terms of the parsed lines. */
  lemma MergeOfParsed(a: string, b: string, h: Heading, g: Heading, number: Numeric)
    requires ParseHeading(Strip(a)) == Some(h) && ParseHeading(Strip(b)) == Some(g)
    requires Stripped(h.text) && ParseNumeric(h.text) == Some(number)
    requires g.level == h.level && Stripped(g.text) && ParseNumeric(g.text).None?
    ensures MergeAt(a, b) == Some(Merged(h.level, number, g.text))
  {
    StrippedStrip(h.text);
    StrippedStrip(g.text);
  }

  /** The numeric regex has one way to match: digits and separator are
      determined by the text. */
  lemma ParseNumericOf(number: Numeric)
    requires |number.digits| >= 1 && AllDigits(number.digits) && number.sep in {"", ".", ")"}
    ensures Stripped(number.digits + number.sep)
    ensures ParseNumeric(number.digits + number.sep) == Some(number)
  {
    var t := number.digits + number.sep;
    var last := t[|t| - 1];
    assert number.sep == "" ==> last == number.digits[|number.digits| - 1];
    assert number.sep != "" ==> last == number.sep[0];
    assert t[0] == number.digits[0];
    var r := ParseNumeric(t).value;
    assert r.sep == "" ==> last == r.digits[|r.digits| - 1];
    assert r.sep != "" ==> last == r.sep[0];
    assert r.sep == number.sep;
    assert r.digits == t[..|r.digits|] == number.digits;
  }

  /** The merge case, from the two headings to the merged one: a level-L
      heading holding a number, then a level-L heading holding a title that
      is not a number, merge into one level-L heading holding the number,
      its separator (`.` if it had none), a space unless the title begins
      with `.`, `)`, `-` or an en dash, and the title. */
  lemma NumberedPairMerges(level: nat, number: Numeric, title: string)
    requires 1 <= level <= 6
    requires |number.digits| >= 1 && AllDigits(number.digits) && number.sep in {"", ".", ")"}
    requires title != [] && Stripped(title) && NoLineFeed(title, 0, |title|)
    requires !IsNumericText(title)
    ensures MergeAt(RenderHeading(Heading(level, number.digits + number.sep)), RenderHeading(Heading(level, title)))
            == Some(RenderHeading(Heading(level, number.digits + Separator(number) + Space(title) + title)))
  {
    var numbered := number.digits + number.sep;
    ParseNumericOf(number);
    assert numbered[0] == number.digits[0];
    assert NoLineFeed(numbered, 0, |numbered|) by {
      forall i | 0 <= i < |numbered| ensures numbered[i] != '\n' {
        if i < |number.digits| {
          assert numbered[i] == number.digits[i];
        } else {
          assert numbered[i] == number.sep[i - |number.digits|];
        }
      }
    }
    ParsesAs(RenderHeading(Heading(level, numbered)), Heading(level, numbered));
    ParsesAs(RenderHeading(Heading(level, title)), Heading(level, title));
    MergeOfParsed(RenderHeading(Heading(level, numbered)), RenderHeading(Heading(level, title)),
                  Heading(level, numbered), Heading(level, title), number);
    MergedIsHeading(level, number, title);
  }

  /** The scan over three lines when only the last two merge. */
  lemma ScanThree(x: string, y: string, z: string, merge: MergeRule)
    requires merge(x, y).None? && merge(y, z).Some?
    ensures CombineFrom([x, y, z], 0, merge) == [x, merge(y, z).value]
  {
    var xs := [x, y, z];
    assert !MergesAt(xs, 0, merge) && MergesAt(xs, 1, merge);
    assert CombineFrom(xs, 1, merge) == [merge(y, z).value];
  }

  /** The scan over two lines that merge. */
  lemma ScanTwo(x: string, y: string, merge: MergeRule)
    requires merge(x, y).Some?
    ensures CombineFrom([x, y], 0, merge) == [merge(x, y).value]
  {
    assert MergesAt([x, y], 0, merge);
  }

  /** A string of digits is a stripped heading text without a line feed. */
  lemma DigitsText(a: string)
    requires |a| >= 1 && AllDigits(a)
    ensures Stripped(a) && NoLineFeed(a, 0, |a|) && Space(a) == " "
  {
    forall i | 0 <= i < |a| ensures a[i] != '\n' { assert IsDigit(a[i]); }
    assert IsDigit(a[0]) && IsDigit(a[|a| - 1]);
  }

  /** A numeric heading followed by a numeric heading does not merge. */
  lemma NumberThenNumber(level: nat, a: string, b: string)
    requires 1 <= level <= 6 && |a| >= 1 && AllDigits(a) && |b| >= 1 && AllDigits(b)
    ensures MergeAt(RenderHeading(Heading(level, a)), RenderHeading(Heading(level, b))).None?
  {
    assert a + "" == a && b + "" == b;
    ParseNumericOf(Numeric(a, ""));
    ParseNumericOf(Numeric(b, ""));
    DigitsText(a);
    DigitsText(b);
    ParsesAs(RenderHeading(Heading(level, a)), Heading(level, a));
    ParsesAs(RenderHeading(Heading(level, b)), Heading(level, b));
    StrippedStrip(a);
    StrippedStrip(b);
  }

  /** The text of a merge with separator `.` and a space can be merged
      into again: it is stripped, has no line feed, begins with a digit and
      is not itself a number. */
  lemma MergedTextFacts(b: string, title: string)
    requires |b| >= 1 && AllDigits(b)
    requires title != [] && Stripped(title) && NoLineFeed(title, 0, |title|)
    ensures var t := b + "." + " " + title;
      Stripped(t) && NoLineFeed(t, 0, |t|) && !IsNumericText(t) && Space(t) == " "
  {
    var t := b + "." + " " + title;
    assert t[|b|] == '.' && !IsDigit(t[|b|]);
    assert t[..|t| - 1][|b|] == '.';
    forall i | 0 <= i < |t| ensures t[i] != '\n' {
      if i < |b| { assert IsDigit(b[i]); }
      else if i >= |b| + 2 { assert t[i] == title[i - |b| - 2]; }
    }
    assert t[|t| - 1] == title[|title| - 1];
    assert IsDigit(t[0]);
  }

  /** The stage is not idempotent: of the headings `a`, `b`, `title`, where
      `a` and `b` are numbers, the first pass keeps `a` (its successor is a
      number) and merges `b` with the title; the second pass merges `a` with
      that result. */
  lemma MergeNotIdempotent(level: nat, a: string, b: string, title: string)
    requires 1 <= level <= 6
    requires |a| >= 1 && AllDigits(a) && |b| >= 1 && AllDigits(b)
    requires title != [] && Stripped(title) && NoLineFeed(title, 0, |title|)
    requires !TightTitle(title) && !IsNumericText(title)
    ensures var once := Combine([RenderHeading(Heading(level, a)), RenderHeading(Heading(level, b)),
                                 RenderHeading(Heading(level, title))]);
      && once == [RenderHeading(Heading(level, a)), RenderHeading(Heading(level, b + "." + " " + title))]
      && Combine(once) == [RenderHeading(Heading(level, a + "." + " " + (b + "." + " " + title)))]
  {
    var h1 := RenderHeading(Heading(level, a));
    var h2 := RenderHeading(Heading(level, b));
    var h3 := RenderHeading(Heading(level, title));
    var t := b + "." + " " + title;
    StrippedStrip(".");
    assert Separator(Numeric(b, "")) == "." && Space(title) == " ";
    assert b + "" == b && a + "" == a;
    NumberThenNumber(level, a, b);
    NumberedPairMerges(level, Numeric(b, ""), title);
    assert MergeAt(h2, h3) == Some(RenderHeading(Heading(level, t)));
    ScanThree(h1, h2, h3, MergeAt);
    MergedTextFacts(b, title);
    DigitsText(a);
    NumberedPairMerges(level, Numeric(a, ""), t);
    ScanTwo(h1, RenderHeading(Heading(level, t)), MergeAt);
  }
}
