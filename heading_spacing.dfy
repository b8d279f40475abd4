/** `_ensure_heading_spacing`: an empty line is inserted after a line
    whose stripped form starts with `#` when the next INPUT line exists, is
    not blank and does not itself start with `#`. The test is a plain prefix
    test, not the heading regex.

    Whether a line gets an empty line after it depends on the input alone,
    so the model computes those flags first (`Gaps`) and states the stage
    over them. */
module HeadingSpacing {
  import opened Text

  /** `line.strip().startswith("#")`. */
  predicate HashLine(line: string) {
    StartsWith(Strip(line), "#")
  }

  /** An empty line goes after input line `i`. */
  predicate Gap(lines: seq<string>, i: nat)
    requires i < |lines|
  {
    HashLine(lines[i]) && i + 1 < |lines| && !IsBlank(lines[i + 1]) && !HashLine(lines[i + 1])
  }

  function Gaps(lines: seq<string>): (gaps: seq<bool>)
    ensures |gaps| == |lines|
  {
    seq(|lines|, i requires 0 <= i < |lines| => Gap(lines, i))
  }

  /** The output for the first `n` input lines, `gaps` saying which of them
      get an empty line after them. */
  function SpacedUpTo(lines: seq<string>, gaps: seq<bool>, n: nat): seq<string>
    requires |gaps| == |lines| && n <= |lines|
  {
    if n == 0 then []
    else SpacedUpTo(lines, gaps, n - 1) + ([lines[n - 1]] + (if gaps[n - 1] then [""] else []))
  }

  function Spaced(lines: seq<string>): seq<string> {
    SpacedUpTo(lines, Gaps(lines), |lines|)
  }

  /** How many of the first `n` flags are set. */
  function GapCount(gaps: seq<bool>, n: nat): (c: nat)
    requires n <= |gaps|
    ensures c <= n
  {
    if n == 0 then 0 else GapCount(gaps, n - 1) + (if gaps[n - 1] then 1 else 0)
  }

  /** The flag of line `i`, in the tests the loop makes. */
  lemma GapTests(lines: seq<string>, i: nat)
    requires i < |lines|
    ensures Gaps(lines)[i] <==>
      && StartsWith(Strip(lines[i]), "#") && i + 1 < |lines|
      && !(Strip(lines[i + 1]) == [] || StartsWith(Strip(lines[i + 1]), "#"))
  {
  }

  /** The stage as the source runs it, appending to `spaced`. */
  method EnsureHeadingSpacing(lines: seq<string>) returns (spaced: seq<string>)
    ensures spaced == Spaced(lines)
  {
    spaced := [];
    ghost var gaps := Gaps(lines);
    for i := 0 to |lines|
      invariant spaced == SpacedUpTo(lines, gaps, i)
    {
      var line := lines[i];
      ghost var before := spaced;
      spaced := spaced + [line];
      GapTests(lines, i);
      var stripped := Strip(line);
      if !StartsWith(stripped, "#") {
        RightUnit([line]);
        continue;
      }
      if i + 1 >= |lines| {
        RightUnit([line]);
        continue;
      }
      var nextLine := lines[i + 1];
      if Strip(nextLine) == [] || StartsWith(Strip(nextLine), "#") {
        RightUnit([line]);
        continue;
      }
      Assoc(before, [line], [""]);
      spaced := spaced + [""];
    }
  }

  /** One empty line more per gap. */
  lemma {:induction false} SpacedLength(lines: seq<string>, gaps: seq<bool>, n: nat)
    requires |gaps| == |lines| && n <= |lines|
    ensures |SpacedUpTo(lines, gaps, n)| == n + GapCount(gaps, n)
  {
    if n > 0 {
      SpacedLength(lines, gaps, n - 1);
    }
  }

  /** The output for a prefix of the input is a prefix of the output. */
  lemma {:induction false} SpacedGrows(lines: seq<string>, gaps: seq<bool>, m: nat, n: nat)
    requires |gaps| == |lines| && m <= n <= |lines|
    ensures SpacedUpTo(lines, gaps, m) <= SpacedUpTo(lines, gaps, n)
    decreases n
  {
    if m == n {
      PrefixRefl(SpacedUpTo(lines, gaps, m));
    } else {
      SpacedGrows(lines, gaps, m, n - 1);
      var prev := SpacedUpTo(lines, gaps, n - 1);
      PrefixTrans(SpacedUpTo(lines, gaps, m), prev, SpacedUpTo(lines, gaps, n));
    }
  }

  /** Reading input line `i` appends it, and an empty line when its flag
      is set. */
  lemma SpacedStep(lines: seq<string>, gaps: seq<bool>, i: nat)
    requires |gaps| == |lines| && i < |lines|
    ensures var p := i + GapCount(gaps, i);
      var upto := SpacedUpTo(lines, gaps, i + 1);
      |upto| == p + 1 + (if gaps[i] then 1 else 0) && upto[p] == lines[i]
      && (gaps[i] ==> upto[p + 1] == "")
  {
    SpacedLength(lines, gaps, i);
  }

  /** Where input line `i` lands: after the `i` lines before it and the
      empty lines inserted among them. It is followed by an empty line
      exactly when its flag is set; otherwise by the next input line, if
      there is one. */
  lemma LineAt(lines: seq<string>, gaps: seq<bool>, i: nat)
    requires |gaps| == |lines| && i < |lines|
    ensures var p := i + GapCount(gaps, i);
      var out := SpacedUpTo(lines, gaps, |lines|);
      p < |out| && out[p] == lines[i]
      && (gaps[i] ==> p + 1 < |out| && out[p + 1] == "")
      && (!gaps[i] && i + 1 < |lines| ==> p + 1 < |out| && out[p + 1] == lines[i + 1])
  {
    var p := i + GapCount(gaps, i);
    var out := SpacedUpTo(lines, gaps, |lines|);
    var upto := SpacedUpTo(lines, gaps, i + 1);
    SpacedStep(lines, gaps, i);
    SpacedGrows(lines, gaps, i + 1, |lines|);
    PrefixAt(upto, out, p);
    if gaps[i] {
      PrefixAt(upto, out, p + 1);
    } else if i + 1 < |lines| {
      SpacedStep(lines, gaps, i + 1);
      SpacedGrows(lines, gaps, i + 2, |lines|);
      assert GapCount(gaps, i + 1) == GapCount(gaps, i);
      PrefixAt(SpacedUpTo(lines, gaps, i + 2), out, p + 1);
    }
  }

  /** The output has one line more per gap and ends with the last input
      line: that line never gets an empty line after it. */
  lemma LastLine(lines: seq<string>)
    requires |lines| > 0
    ensures var out := Spaced(lines);
      |out| == |lines| + GapCount(Gaps(lines), |lines|) && out[|out| - 1] == lines[|lines| - 1]
  {
    var gaps := Gaps(lines);
    SpacedLength(lines, gaps, |lines|);
    assert !gaps[|lines| - 1];
  }

  /** Which output lines are input lines: the others are the inserted
      ones. */
  function InputMask(gaps: seq<bool>, n: nat): (mask: seq<bool>)
    requires n <= |gaps|
    ensures |mask| == n + GapCount(gaps, n)
  {
    if n == 0 then []
    else InputMask(gaps, n - 1) + ([true] + (if gaps[n - 1] then [false] else []))
  }

  /** What one input line emits, masked, is that line. */
  lemma SelectPiece(line: string, gap: bool)
    ensures Select([line] + (if gap then [""] else []), [true] + (if gap then [false] else [])) == [line]
  {
    var extra := if gap then [""] else [];
    var extraMask := if gap then [false] else [];
    assert ([line] + extra)[1..] == extra && ([true] + extraMask)[1..] == extraMask;
    if gap {
      assert extra[1..] == [] && extraMask[1..] == [];
    }
  }

  /** Taking the input lines of the output back gives the input. */
  lemma {:induction false} RemovingInsertedLines(lines: seq<string>, gaps: seq<bool>, n: nat)
    requires |gaps| == |lines| && n <= |lines|
    ensures |SpacedUpTo(lines, gaps, n)| == |InputMask(gaps, n)|
    ensures Select(SpacedUpTo(lines, gaps, n), InputMask(gaps, n)) == lines[..n]
  {
    SpacedLength(lines, gaps, n);
    if n > 0 {
      RemovingInsertedLines(lines, gaps, n - 1);
      var prev := SpacedUpTo(lines, gaps, n - 1);
      var mask := InputMask(gaps, n - 1);
      var extra := if gaps[n - 1] then [""] else [];
      var extraMask := if gaps[n - 1] then [false] else [];
      var piece := [lines[n - 1]] + extra;
      var pieceMask := [true] + extraMask;
      SelectAppend(prev, mask, piece, pieceMask);
      SelectPiece(lines[n - 1], gaps[n - 1]);
      assert lines[..n] == lines[..n - 1] + [lines[n - 1]];
    }
  }

  /** Every output line that is not an input line is empty. */
  lemma {:induction false} InsertedAreEmpty(lines: seq<string>, gaps: seq<bool>, n: nat)
    requires |gaps| == |lines| && n <= |lines|
    ensures |SpacedUpTo(lines, gaps, n)| == |InputMask(gaps, n)|
    ensures forall k | 0 <= k < |InputMask(gaps, n)| && !InputMask(gaps, n)[k] :: SpacedUpTo(lines, gaps, n)[k] == ""
  {
    SpacedLength(lines, gaps, n);
    if n > 0 {
      InsertedAreEmpty(lines, gaps, n - 1);
      var prev := SpacedUpTo(lines, gaps, n - 1);
      var mask := InputMask(gaps, n - 1);
      var out := SpacedUpTo(lines, gaps, n);
      var outMask := InputMask(gaps, n);
      forall k | 0 <= k < |outMask| && !outMask[k]
        ensures out[k] == ""
      {
        if k < |mask| {
          assert outMask[k] == mask[k] && out[k] == prev[k];
        } else {
          assert k == |mask| + 1 && gaps[n - 1];
        }
      }
    }
  }

  /** The stage does not look at code fences: a line starting with `#`
      inside a fenced block, followed by text, gets an empty line after it
      too. */
  lemma HashLineInFence()
    ensures Gap(["```", "#c", "x", "```"], 1)
  {
    StrippedStrip("#c");
    StrippedStrip("x");
    assert !IsSpace("x"[0]);
  }
}
