/** `_reflow_paragraphs`: outside code fences, every run of prose lines
    becomes one line; fences, code, structure lines and blank lines are kept
    as lines of their own.

    Every test the loop makes on a line depends on that line alone, except
    whether it lies inside a fence. So the model classifies each line once
    (`KindOf`) and states the loop over the sequence of kinds; being inside
    a fence is the parity of the fence lines before. */
module Reflow {
  import opened Text
  import opened Classify

  /** `line.strip()` of the right-stripped line: the form prose takes in a
      paragraph. */
  function Bare(raw: string): string {
    Strip(RStrip(raw))
  }

  /** What the loop's tests make of a line, in the order it makes them
      (whether the line is inside a fence is decided between the first test
      and the others). */
  datatype Kind = Fence | Structure | Blank | Prose

  function KindOf(raw: string): Kind {
    var stripped := Bare(raw);
    if StartsWith(stripped, "```") then Fence
    else if IsStructureLine(stripped, raw) then Structure
    else if stripped == [] then Blank
    else Prose
  }

  function Kinds(lines: seq<string>): (kinds: seq<Kind>)
    ensures |kinds| == |lines|
  {
    seq(|lines|, i requires 0 <= i < |lines| => KindOf(lines[i]))
  }

  /** `in_code_block` before line `i`: an odd number of fence lines
      precede it. */
  predicate InCode(kinds: seq<Kind>, i: nat)
    requires i <= |kinds|
  {
    if i == 0 then false
    else if kinds[i - 1] == Fence then !InCode(kinds, i - 1)
    else InCode(kinds, i - 1)
  }

  /** Line `i` goes into the paragraph buffer. */
  predicate IsProse(kinds: seq<Kind>, i: nat)
    requires i < |kinds|
  {
    kinds[i] == Prose && !InCode(kinds, i)
  }

  /** Where the run of prose lines ending just before `i` starts (`i` when
      line `i - 1` is not prose). */
  function RunStart(kinds: seq<Kind>, i: nat): (r: nat)
    requires i <= |kinds|
    ensures r <= i
  {
    if i == 0 then 0
    else if IsProse(kinds, i - 1) then RunStart(kinds, i - 1)
    else i
  }

  /** The stripped lines `a` to `b`. */
  function Paragraph(lines: seq<string>, a: nat, b: nat): (p: seq<string>)
    requires a <= b <= |lines|
    ensures |p| == b - a
  {
    seq(b - a, k requires 0 <= k < b - a => Bare(lines[a + k]))
  }

  /** `" ".join(parts)`. */
  function JoinSpaced(parts: seq<string>): string {
    if |parts| == 0 then ""
    else if |parts| == 1 then parts[0]
    else JoinSpaced(parts[..|parts| - 1]) + " " + parts[|parts| - 1]
  }

  /** A spaced join begins with the first part and ends with the last, so
      parts that are non-empty and stripped join into a non-empty stripped
      line. */
  lemma {:induction false} JoinSpacedEnds(parts: seq<string>)
    requires |parts| > 0
    ensures |parts[0]| <= |JoinSpaced(parts)| && JoinSpaced(parts)[..|parts[0]|] == parts[0]
    ensures EndsWith(JoinSpaced(parts), parts[|parts| - 1])
    ensures (forall k | 0 <= k < |parts| :: parts[k] != [] && Stripped(parts[k])) ==>
      JoinSpaced(parts) != [] && Stripped(JoinSpaced(parts))
    decreases |parts|
  {
    if |parts| > 1 {
      var init := parts[..|parts| - 1];
      JoinSpacedEnds(init);
      assert init[0] == parts[0];
      if forall k | 0 <= k < |parts| :: parts[k] != [] && Stripped(parts[k]) {
        assert forall k | 0 <= k < |init| :: init[k] == parts[k];
      }
    }
  }

  /** What `flush_paragraph` appends: the joined paragraph, if there is
      one. */
  function Flushed(paragraph: seq<string>): (r: seq<string>)
    ensures |r| <= 1
    ensures r == [] <==> paragraph == []
  {
    if |paragraph| == 0 then [] else [JoinSpaced(paragraph)]
  }

  /** The output once the first `n` lines are read, without the paragraph
      still being collected. A fence, structure or blank line first flushes
      the paragraph, a line inside a fence does not; a blank line outside a
      fence becomes the empty line, the others their right-stripped form. */
  function Settled(lines: seq<string>, kinds: seq<Kind>, n: nat): seq<string>
    requires |kinds| == |lines| && n <= |lines|
  {
    if n == 0 then []
    else
      var i := n - 1;
      var flushed := Settled(lines, kinds, i) + Flushed(Paragraph(lines, RunStart(kinds, i), i));
      if kinds[i] == Fence then flushed + [RStrip(lines[i])]
      else if InCode(kinds, i) then Settled(lines, kinds, i) + [RStrip(lines[i])]
      else if kinds[i] == Structure then flushed + [RStrip(lines[i])]
      else if kinds[i] == Blank then flushed + [""]
      else Settled(lines, kinds, i)
  }

  /** The output for the classification `kinds`: the settled lines and the
      last paragraph. */
  function ReflowedAs(lines: seq<string>, kinds: seq<Kind>): seq<string>
    requires |kinds| == |lines|
  {
    Settled(lines, kinds, |lines|) + Flushed(Paragraph(lines, RunStart(kinds, |lines|), |lines|))
  }

  /** What the stage returns. */
  function Reflowed(lines: seq<string>): seq<string> {
    ReflowedAs(lines, Kinds(lines))
  }

  lemma ParagraphStep(lines: seq<string>, a: nat, i: nat)
    requires a <= i < |lines|
    ensures Paragraph(lines, a, i + 1) == Paragraph(lines, a, i) + [Bare(lines[i])]
  {
  }

  /** A fence line flushes the paragraph, is emitted right-stripped and
      toggles the fence state. */
  lemma FenceLine(lines: seq<string>, kinds: seq<Kind>, i: nat)
    requires |kinds| == |lines| && i < |lines| && kinds[i] == Fence
    ensures Settled(lines, kinds, i + 1) ==
            Settled(lines, kinds, i) + Flushed(Paragraph(lines, RunStart(kinds, i), i)) + [RStrip(lines[i])]
    ensures InCode(kinds, i + 1) == !InCode(kinds, i) && RunStart(kinds, i + 1) == i + 1
  {
  }

  /** A line inside a fence is emitted right-stripped; no paragraph is
      pending there. */
  lemma CodeLine(lines: seq<string>, kinds: seq<Kind>, i: nat)
    requires |kinds| == |lines| && i < |lines| && kinds[i] != Fence && InCode(kinds, i)
    ensures Settled(lines, kinds, i + 1) == Settled(lines, kinds, i) + [RStrip(lines[i])]
    ensures InCode(kinds, i + 1) && RunStart(kinds, i) == i && RunStart(kinds, i + 1) == i + 1
  {
  }

  /** Outside fences, a structure line flushes the paragraph and is emitted
      right-stripped. */
  lemma StructureLine(lines: seq<string>, kinds: seq<Kind>, i: nat)
    requires |kinds| == |lines| && i < |lines| && kinds[i] == Structure && !InCode(kinds, i)
    ensures Settled(lines, kinds, i + 1) ==
            Settled(lines, kinds, i) + Flushed(Paragraph(lines, RunStart(kinds, i), i)) + [RStrip(lines[i])]
    ensures !InCode(kinds, i + 1) && RunStart(kinds, i + 1) == i + 1
  {
  }

  /** Outside fences, a blank line flushes the paragraph and is emitted as
      the empty line. */
  lemma BlankLine(lines: seq<string>, kinds: seq<Kind>, i: nat)
    requires |kinds| == |lines| && i < |lines| && kinds[i] == Blank && !InCode(kinds, i)
    ensures Settled(lines, kinds, i + 1) ==
            Settled(lines, kinds, i) + Flushed(Paragraph(lines, RunStart(kinds, i), i)) + [""]
    ensures !InCode(kinds, i + 1) && RunStart(kinds, i + 1) == i + 1
  {
  }

  /** A prose line only extends the paragraph. */
  lemma ProseLine(lines: seq<string>, kinds: seq<Kind>, i: nat)
    requires |kinds| == |lines| && i < |lines| && IsProse(kinds, i)
    ensures Settled(lines, kinds, i + 1) == Settled(lines, kinds, i)
    ensures !InCode(kinds, i + 1) && RunStart(kinds, i + 1) == RunStart(kinds, i)
    ensures Paragraph(lines, RunStart(kinds, i + 1), i + 1) == Paragraph(lines, RunStart(kinds, i), i) + [Bare(lines[i])]
  {
    ParagraphStep(lines, RunStart(kinds, i), i);
  }

  /** One iteration of the loop over the lines: line `i` is read. */
  method ReflowLine(lines: seq<string>, i: nat, reflowed: seq<string>, paragraph: seq<string>, inCodeBlock: bool)
    returns (reflowed': seq<string>, paragraph': seq<string>, inCodeBlock': bool)
    requires i < |lines|
    requires inCodeBlock == InCode(Kinds(lines), i)
    requires paragraph == Paragraph(lines, RunStart(Kinds(lines), i), i)
    requires reflowed == Settled(lines, Kinds(lines), i)
    ensures inCodeBlock' == InCode(Kinds(lines), i + 1)
    ensures paragraph' == Paragraph(lines, RunStart(Kinds(lines), i + 1), i + 1)
    ensures reflowed' == Settled(lines, Kinds(lines), i + 1)
  {
    var kinds := Kinds(lines);
    var rawLine := lines[i];
    var line := RStrip(rawLine);
    var stripped := Strip(line);
    assert kinds[i] == KindOf(rawLine);
    if StartsWith(stripped, "```") {
      FenceLine(lines, kinds, i);
      reflowed' := reflowed + Flushed(paragraph) + [line];
      paragraph' := [];
      inCodeBlock' := !inCodeBlock;
    } else if inCodeBlock {
      CodeLine(lines, kinds, i);
      reflowed' := reflowed + [line];
      paragraph' := paragraph;
      inCodeBlock' := inCodeBlock;
    } else if IsStructureLine(stripped, rawLine) {
      StructureLine(lines, kinds, i);
      reflowed' := reflowed + Flushed(paragraph) + [line];
      paragraph' := [];
      inCodeBlock' := inCodeBlock;
    } else if stripped == [] {
      BlankLine(lines, kinds, i);
      reflowed' := reflowed + Flushed(paragraph) + [""];
      paragraph' := [];
      inCodeBlock' := inCodeBlock;
    } else {
      ProseLine(lines, kinds, i);
      reflowed' := reflowed;
      paragraph' := paragraph + [stripped];
      inCodeBlock' := inCodeBlock;
    }
  }

  /** The stage as the source runs it; `flush_paragraph` is written out
      where the loop body calls it. */
  method ReflowParagraphs(lines: seq<string>) returns (reflowed: seq<string>)
    ensures reflowed == Reflowed(lines)
  {
    reflowed := [];
    var paragraph: seq<string> := [];
    var inCodeBlock := false;
    for i := 0 to |lines|
      invariant inCodeBlock == InCode(Kinds(lines), i)
      invariant paragraph == Paragraph(lines, RunStart(Kinds(lines), i), i)
      invariant reflowed == Settled(lines, Kinds(lines), i)
    {
      reflowed, paragraph, inCodeBlock := ReflowLine(lines, i, reflowed, paragraph, inCodeBlock);
    }
    reflowed := reflowed + Flushed(paragraph);
  }

  /** Each settled line uses up at least one input line before the pending
      paragraph. */
  lemma {:induction false} SettledBound(lines: seq<string>, kinds: seq<Kind>, n: nat)
    requires |kinds| == |lines| && n <= |lines|
    ensures |Settled(lines, kinds, n)| <= RunStart(kinds, n)
  {
    if n > 0 {
      SettledBound(lines, kinds, n - 1);
    }
  }

  /** The output is never longer than the input. */
  lemma ReflowedLength(lines: seq<string>, kinds: seq<Kind>)
    requires |kinds| == |lines|
    ensures |ReflowedAs(lines, kinds)| <= |lines|
  {
    SettledBound(lines, kinds, |lines|);
  }

  /** `lines[a..b]` right-stripped, one output line each. */
  function TrimmedLines(lines: seq<string>, a: nat, b: nat): (r: seq<string>)
    requires a <= b <= |lines|
    ensures |r| == b - a
    decreases b
  {
    if b == a then [] else TrimmedLines(lines, a, b - 1) + [RStrip(lines[b - 1])]
  }

  /** A fence: from an opening fence line at `a` up to the next fence line
      or the end, every line is emitted right-stripped and nothing else,
      whatever it looks like; the paragraph pending before `a` is flushed
      first. */
  lemma {:induction false} FencedBlock(lines: seq<string>, kinds: seq<Kind>, a: nat, c: nat)
    requires |kinds| == |lines| && a < c <= |lines| && kinds[a] == Fence && !InCode(kinds, a)
    requires forall k | a < k < c :: kinds[k] != Fence
    ensures InCode(kinds, c) && RunStart(kinds, c) == c
    ensures Settled(lines, kinds, c) ==
            Settled(lines, kinds, a) + Flushed(Paragraph(lines, RunStart(kinds, a), a)) + TrimmedLines(lines, a, c)
    decreases c
  {
    if c == a + 1 {
      FencedOpen(lines, kinds, a);
    } else {
      FencedBlock(lines, kinds, a, c - 1);
      FencedStep(lines, kinds, a, c - 1, Settled(lines, kinds, a) + Flushed(Paragraph(lines, RunStart(kinds, a), a)));
    }
  }

  /** The opening fence line of a block: the first step of `FencedBlock`. */
  lemma FencedOpen(lines: seq<string>, kinds: seq<Kind>, a: nat)
    requires |kinds| == |lines| && a < |lines| && kinds[a] == Fence && !InCode(kinds, a)
    ensures InCode(kinds, a + 1) && RunStart(kinds, a + 1) == a + 1
    ensures Settled(lines, kinds, a + 1) ==
            Settled(lines, kinds, a) + Flushed(Paragraph(lines, RunStart(kinds, a), a)) + TrimmedLines(lines, a, a + 1)
  {
    FenceLine(lines, kinds, a);
    LeftUnit([RStrip(lines[a])]);
    assert TrimmedLines(lines, a, a + 1) == [RStrip(lines[a])];
  }

  /** One more line of a fence is emitted right-stripped after the ones
      before it. */
  lemma FencedStep(lines: seq<string>, kinds: seq<Kind>, a: nat, i: nat, head: seq<string>)
    requires |kinds| == |lines| && a < i < |lines| && kinds[i] != Fence && InCode(kinds, i)
    requires Settled(lines, kinds, i) == head + TrimmedLines(lines, a, i)
    ensures InCode(kinds, i + 1) && RunStart(kinds, i + 1) == i + 1
    ensures Settled(lines, kinds, i + 1) == head + TrimmedLines(lines, a, i + 1)
  {
    CodeLine(lines, kinds, i);
    Assoc(head, TrimmedLines(lines, a, i), [RStrip(lines[i])]);
  }

  /** A run of prose lines from `a` to `b`, not preceded by prose, settles
      nothing: it is the paragraph pending at `b`. */
  lemma {:induction false} ProseRun(lines: seq<string>, kinds: seq<Kind>, a: nat, b: nat)
    requires |kinds| == |lines| && a <= b <= |lines| && RunStart(kinds, a) == a
    requires forall k | a <= k < b :: IsProse(kinds, k)
    ensures RunStart(kinds, b) == a && Settled(lines, kinds, b) == Settled(lines, kinds, a)
    decreases b
  {
    if b > a {
      ProseRun(lines, kinds, a, b - 1);
      ProseLine(lines, kinds, b - 1);
    }
  }

  /** A prose run reaching the end of the input becomes the last output
      line: its stripped lines joined by single spaces. */
  lemma FinalProseRun(lines: seq<string>, kinds: seq<Kind>, a: nat)
    requires |kinds| == |lines| && a < |lines| && RunStart(kinds, a) == a
    requires forall k | a <= k < |lines| :: IsProse(kinds, k)
    ensures ReflowedAs(lines, kinds) == Settled(lines, kinds, a) + [JoinSpaced(Paragraph(lines, a, |lines|))]
  {
    ProseRun(lines, kinds, a, |lines|);
  }

  /** A prose run ended by a blank line becomes one line, its stripped lines
      joined by single spaces, and the blank line an empty one. */
  lemma ProseRunThenBlank(lines: seq<string>, kinds: seq<Kind>, a: nat, b: nat)
    requires |kinds| == |lines| && a < b < |lines| && RunStart(kinds, a) == a
    requires forall k | a <= k < b :: IsProse(kinds, k)
    requires kinds[b] == Blank
    ensures Settled(lines, kinds, b + 1) == Settled(lines, kinds, a) + [JoinSpaced(Paragraph(lines, a, b)), ""]
  {
    ProseRun(lines, kinds, a, b);
    assert IsProse(kinds, b - 1);
    BlankLine(lines, kinds, b);
  }

  /** Reading one more line appends to the settled output. */
  lemma SettledStep(lines: seq<string>, kinds: seq<Kind>, i: nat)
    requires |kinds| == |lines| && i < |lines|
    ensures Settled(lines, kinds, i) <= Settled(lines, kinds, i + 1)
  {
    if kinds[i] == Fence {
      FenceLine(lines, kinds, i);
    } else if InCode(kinds, i) {
      CodeLine(lines, kinds, i);
    } else if kinds[i] == Structure {
      StructureLine(lines, kinds, i);
    } else if kinds[i] == Blank {
      BlankLine(lines, kinds, i);
    } else {
      ProseLine(lines, kinds, i);
    }
  }

  /** Output is only ever appended to: what the first `m` lines settle is
      a prefix of what any longer input prefix settles, so output lines keep
      the order of the input lines they come from. */
  lemma {:induction false} SettledGrows(lines: seq<string>, kinds: seq<Kind>, m: nat, n: nat)
    requires |kinds| == |lines| && m <= n <= |lines|
    ensures Settled(lines, kinds, m) <= Settled(lines, kinds, n)
    decreases n
  {
    if m == n {
      PrefixRefl(Settled(lines, kinds, m));
    } else {
      SettledGrows(lines, kinds, m, n - 1);
      SettledStep(lines, kinds, n - 1);
      PrefixTrans(Settled(lines, kinds, m), Settled(lines, kinds, n - 1), Settled(lines, kinds, n));
    }
  }

  /** What any prefix of the input settles is a prefix of the output. */
  lemma SettledInOutput(lines: seq<string>, kinds: seq<Kind>, n: nat)
    requires |kinds| == |lines| && n <= |lines|
    ensures Settled(lines, kinds, n) <= ReflowedAs(lines, kinds)
  {
    SettledGrows(lines, kinds, n, |lines|);
  }

  /** Two prose lines make one output line: their stripped forms joined by
      a single space. */
  lemma TwoProseLines(x: string, y: string)
    requires KindOf(x) == Prose && KindOf(y) == Prose
    ensures Reflowed([x, y]) == [Bare(x) + " " + Bare(y)]
  {
    var lines := [x, y];
    var kinds := Kinds(lines);
    assert kinds[0] == Prose && kinds[1] == Prose;
    assert IsProse(kinds, 0);
    assert IsProse(kinds, 1);
    FinalProseRun(lines, kinds, 0);
    var p := Paragraph(lines, 0, 2);
    assert p == [Bare(x), Bare(y)];
    assert p[..1] == [Bare(x)];
    assert JoinSpaced(p) == Bare(x) + " " + Bare(y);
    assert Settled(lines, kinds, 0) == [];
  }
}
