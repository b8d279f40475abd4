/** `_squash_blank_lines`: a blank line (one that strips to nothing) is
    dropped when the line before it in the input is blank too, so each run
    of blank lines shrinks to its first line. */
module BlankSquash {
  import opened Text

  /** Line `i` is yielded: it is not blank, or it opens a run of blanks. */
  predicate Keep(lines: seq<string>, i: nat)
    requires i < |lines|
  {
    !(IsBlank(lines[i]) && i > 0 && IsBlank(lines[i - 1]))
  }

  /** The lines yielded from line `i` on. */
  function SquashFrom(lines: seq<string>, i: nat): seq<string>
    requires i <= |lines|
    decreases |lines| - i
  {
    if i == |lines| then []
    else (if Keep(lines, i) then [lines[i]] else []) + SquashFrom(lines, i + 1)
  }

  function Squash(lines: seq<string>): seq<string> {
    SquashFrom(lines, 0)
  }

  /** No two neighbouring lines are blank. */
  predicate NoAdjacentBlanks(lines: seq<string>) {
    forall k | 0 < k < |lines| :: !(IsBlank(lines[k - 1]) && IsBlank(lines[k]))
  }

  /** The generator as the source runs it, collected into a list:
      `previousBlank` is whether the line read before was blank. */
  method SquashBlankLines(lines: seq<string>) returns (squashed: seq<string>)
    ensures squashed == Squash(lines)
  {
    squashed := [];
    var previousBlank := false;
    for i := 0 to |lines|
      invariant previousBlank == (i > 0 && IsBlank(lines[i - 1]))
      invariant squashed + SquashFrom(lines, i) == Squash(lines)
    {
      var line := lines[i];
      var isBlank := Strip(line) == [];
      if isBlank && previousBlank {
        LeftUnit(SquashFrom(lines, i + 1));
        continue;
      }
      Assoc(squashed, [line], SquashFrom(lines, i + 1));
      squashed := squashed + [line];
      previousBlank := isBlank;
    }
  }

  /** The output is the input with some lines deleted. */
  lemma {:induction false} SquashIsSubsequence(lines: seq<string>, i: nat)
    requires i <= |lines|
    ensures IsSubsequence(SquashFrom(lines, i), lines[i..])
    decreases |lines| - i
  {
    if i < |lines| {
      SquashIsSubsequence(lines, i + 1);
      assert lines[i..][1..] == lines[i + 1..];
      if Keep(lines, i) {
        assert SquashFrom(lines, i)[1..] == SquashFrom(lines, i + 1);
      } else {
        LeftUnit(SquashFrom(lines, i + 1));
        SubsequenceOfTail(SquashFrom(lines, i + 1), lines[i..]);
      }
    }
  }

  /** Non-blank lines are never dropped: each occurs in the output as often
      as in the input. */
  lemma {:induction false} NonBlankKept(lines: seq<string>, i: nat, x: string)
    requires i <= |lines| && !IsBlank(x)
    ensures multiset(SquashFrom(lines, i))[x] == multiset(lines[i..])[x]
    decreases |lines| - i
  {
    if i < |lines| {
      NonBlankKept(lines, i + 1, x);
      var rest := SquashFrom(lines, i + 1);
      SliceCount(lines, i, x);
      if Keep(lines, i) {
        CountCons(lines[i], rest, x);
      } else {
        LeftUnit(rest);
        assert IsBlank(lines[i]);
        assert lines[i] != x;
      }
    }
  }

  /** What is yielded from line `i` on ends the whole output. */
  lemma {:induction false} SquashSuffix(lines: seq<string>, i: nat)
    requires i <= |lines|
    ensures |SquashFrom(lines, i)| <= |Squash(lines)|
    ensures Squash(lines)[|Squash(lines)| - |SquashFrom(lines, i)|..] == SquashFrom(lines, i)
    decreases i
  {
    if i > 0 {
      SquashSuffix(lines, i - 1);
      var out := Squash(lines);
      var longer := SquashFrom(lines, i - 1);
      var rest := SquashFrom(lines, i);
      assert longer[|longer| - |rest|..] == rest;
      assert out[|out| - |rest|..] == longer[|longer| - |rest|..];
    }
  }

  /** Every line that is not blank, and every blank line that opens a run of
      blanks, appears in the output, after the lines yielded before it. */
  lemma KeptLineAt(lines: seq<string>, i: nat)
    requires i < |lines| && (!IsBlank(lines[i]) || i == 0 || !IsBlank(lines[i - 1]))
    ensures var out := Squash(lines);
      var p := |out| - |SquashFrom(lines, i)|;
      0 <= p < |out| && out[p] == lines[i]
  {
    SquashSuffix(lines, i);
    assert SquashFrom(lines, i)[0] == lines[i];
  }

  /** No two adjacent output lines are blank; after a blank input line the
      output goes on with a non-blank one. */
  lemma {:induction false} SquashShape(lines: seq<string>, i: nat)
    requires i <= |lines|
    ensures NoAdjacentBlanks(SquashFrom(lines, i))
    ensures i > 0 && IsBlank(lines[i - 1]) && SquashFrom(lines, i) != [] ==> !IsBlank(SquashFrom(lines, i)[0])
    decreases |lines| - i
  {
    if i < |lines| {
      SquashShape(lines, i + 1);
      var rest := SquashFrom(lines, i + 1);
      if Keep(lines, i) {
        var r := [lines[i]] + rest;
        assert SquashFrom(lines, i) == r;
        forall k | 0 < k < |r|
          ensures !(IsBlank(r[k - 1]) && IsBlank(r[k]))
        {
          if k > 1 {
            assert r[k - 1] == rest[k - 2] && r[k] == rest[k - 1];
          }
        }
      } else {
        LeftUnit(rest);
      }
    }
  }

  lemma NoAdjacentBlanksInOutput(lines: seq<string>)
    ensures NoAdjacentBlanks(Squash(lines))
  {
    SquashShape(lines, 0);
  }

  /** Input without adjacent blanks is left alone. */
  lemma {:induction false} SquashNoAdjacent(lines: seq<string>, i: nat)
    requires i <= |lines| && NoAdjacentBlanks(lines)
    ensures SquashFrom(lines, i) == lines[i..]
    decreases |lines| - i
  {
    if i < |lines| {
      SquashNoAdjacent(lines, i + 1);
      if i > 0 {
        assert !(IsBlank(lines[i - 1]) && IsBlank(lines[i]));
      }
      assert Keep(lines, i);
      assert lines[i..] == [lines[i]] + lines[i + 1..];
    }
  }

  /** Squashing twice is squashing once. */
  lemma SquashIdempotent(lines: seq<string>)
    ensures Squash(Squash(lines)) == Squash(lines)
  {
    NoAdjacentBlanksInOutput(lines);
    SquashNoAdjacent(Squash(lines), 0);
  }
}
