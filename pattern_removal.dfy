/** `_remove_pattern_matches`: drop every line in which one of the caller's
    patterns is found. A pattern is modelled by what its compiled,
    case-insensitive regex `search` answers for a string. */
module PatternRemoval {
  import opened Text

  /** A compiled user pattern: does `regex.search(s)` find a match in `s`? */
  type Pattern = string -> bool

  /** `any(regex.search(stripped) for regex in compiled)`: never true when
      there are no patterns. */
  predicate MatchesAny(patterns: seq<Pattern>, stripped: string)
    ensures patterns == [] ==> !MatchesAny(patterns, stripped)
  {
    exists k | 0 <= k < |patterns| :: patterns[k](stripped)
  }

  /** The test a line must pass to be kept: no pattern is found in its
      stripped form. */
  function Survives(patterns: seq<Pattern>): string -> bool {
    line => !MatchesAny(patterns, Strip(line))
  }

  /** The lines the stage keeps, unchanged and in order. */
  function Kept(lines: seq<string>, patterns: seq<Pattern>): seq<string> {
    FilterFrom(lines, 0, Survives(patterns))
  }

  /** The stage as the source runs it: a copy when there are no patterns,
      otherwise one pass appending the lines that pass `Survives`. */
  method RemovePatternMatches(lines: seq<string>, patterns: seq<Pattern>)
    returns (cleaned: seq<string>)
    ensures cleaned == Kept(lines, patterns)
  {
    if |patterns| == 0 {
      NoPatternsKeepAll(lines);
      return lines;
    }
    cleaned := FilterLines(lines, Survives(patterns));
  }

  /** Kept lines are input lines, unchanged and in their original order. */
  lemma KeptIsSubsequence(lines: seq<string>, patterns: seq<Pattern>)
    ensures IsSubsequence(Kept(lines, patterns), lines)
  {
    FilterFromIsSubsequence(lines, 0, Survives(patterns));
    assert lines[0..] == lines;
  }

  /** A line survives exactly when no pattern matches its stripped form:
      each such line keeps all its occurrences, every other line loses all
      of them. */
  lemma KeptCount(lines: seq<string>, patterns: seq<Pattern>, x: string)
    ensures multiset(Kept(lines, patterns))[x] ==
            if MatchesAny(patterns, Strip(x)) then 0 else multiset(lines)[x]
  {
    FilterFromCount(lines, 0, Survives(patterns), x);
    assert lines[0..] == lines;
  }

  /** No kept line matches any pattern. */
  lemma KeptNoMatch(lines: seq<string>, patterns: seq<Pattern>, k: nat)
    requires k < |Kept(lines, patterns)|
    ensures !MatchesAny(patterns, Strip(Kept(lines, patterns)[k]))
  {
    var x := Kept(lines, patterns)[k];
    assert x in multiset(Kept(lines, patterns));
    KeptCount(lines, patterns, x);
  }

  /** With no patterns the stage returns a copy of its input. */
  lemma NoPatternsKeepAll(lines: seq<string>)
    ensures Kept(lines, []) == lines
  {
    FilterFromAll(lines, 0, Survives([]));
    assert lines[0..] == lines;
  }

  /** `re.compile(r"^Noise line$", re.IGNORECASE).search`. */
  predicate NoiseLinePattern(s: string) {
    Lower(s) == "noise line"
  }

  lemma NoiseLineMatches()
    ensures !Survives([NoiseLinePattern])("Noise line")
  {
    StrippedStrip("Noise line");
    assert Lower("Noise line") == "noise line";
    assert [NoiseLinePattern][0]("Noise line");
  }

  lemma ActualContentSurvives()
    ensures Survives([NoiseLinePattern])("Actual content")
  {
    StrippedStrip("Actual content");
    assert !NoiseLinePattern("Actual content") by {
      assert |Lower("Actual content")| != |"noise line"|;
    }
    assert !MatchesAny([NoiseLinePattern], "Actual content");
  }

  /** The pattern `^Noise line$` removes the first of
      `Noise line` / `Actual content` and keeps the second. */
  lemma NoiseLineRemoved()
    ensures Kept(["Noise line", "Actual content"], [NoiseLinePattern]) == ["Actual content"]
  {
    var lines := ["Noise line", "Actual content"];
    NoiseLineMatches();
    ActualContentSurvives();
    assert FilterFrom(lines, 2, Survives([NoiseLinePattern])) == [];
    assert FilterFrom(lines, 1, Survives([NoiseLinePattern])) == ["Actual content"];
  }
}
