/** Character and line primitives shared by every clean-up stage: the ASCII
    part of Python's `str.isspace`, `str.strip`, `str.lower`, `str.startswith`,
    `str.splitlines` and `"\n".join`, together with the order-preserving
    filters and subsequences the stages are specified with. */
module Text {

  datatype Option<T> = None | Some(value: T)

  // ---------------------------------------------------------------------------
  // Characters
  // ---------------------------------------------------------------------------

  /** `str.isspace` on ASCII: space, tab, line feed, vertical tab, form feed,
      carriage return and the four separators 0x1C to 0x1F. */
  predicate IsSpace(c: char) {
    c == ' ' || '\t' <= c <= '\r' || '\U{1C}' <= c <= '\U{1F}'
  }

  predicate IsDigit(c: char) { '0' <= c <= '9' }

  predicate IsAlnum(c: char) { IsDigit(c) || 'a' <= c <= 'z' || 'A' <= c <= 'Z' }

  predicate AllSpace(s: string) {
    forall i | 0 <= i < |s| :: IsSpace(s[i])
  }

  predicate AllDigits(s: string) {
    forall i | 0 <= i < |s| :: IsDigit(s[i])
  }

  /** A string that `str.strip()` leaves alone: empty, or with a non-space
      character at both ends. */
  predicate Stripped(s: string) {
    s == [] || (!IsSpace(s[0]) && !IsSpace(s[|s| - 1]))
  }

  function LowerChar(c: char): char {
    if 'A' <= c <= 'Z' then (c as int + 32) as char else c
  }

  /** `str.lower()` on ASCII letters. */
  function Lower(s: string): string {
    seq(|s|, i requires 0 <= i < |s| => LowerChar(s[i]))
  }

  /** Lowering keeps the length, leaves no upper-case letter and keeps
      every other character. */
  lemma LowerFacts(s: string)
    ensures |Lower(s)| == |s|
    ensures forall i | 0 <= i < |s| :: !('A' <= Lower(s)[i] <= 'Z')
    ensures forall i | 0 <= i < |s| :: 'A' <= s[i] <= 'Z' || Lower(s)[i] == s[i]
  {
  }

  // ---------------------------------------------------------------------------
  // Stripping
  // ---------------------------------------------------------------------------

  /** The first index at or after `k` that does not hold whitespace, or the
      length when there is none. */
  function SkipSpace(s: string, k: nat): (j: nat)
    requires k <= |s|
    ensures k <= j <= |s|
    ensures forall i | k <= i < j :: IsSpace(s[i])
    ensures j == |s| || !IsSpace(s[j])
    decreases |s| - k
  {
    if k < |s| && IsSpace(s[k]) then SkipSpace(s, k + 1) else k
  }

  /** Length of `s` without its trailing whitespace. */
  function TrailingStart(s: string): (n: nat)
    ensures n <= |s|
    ensures forall i | n <= i < |s| :: IsSpace(s[i])
    ensures n == 0 || !IsSpace(s[n - 1])
  {
    if |s| > 0 && IsSpace(s[|s| - 1]) then TrailingStart(s[..|s| - 1]) else |s|
  }

  /** `str.rstrip()`. */
  function RStrip(s: string): string {
    s[..TrailingStart(s)]
  }

  /** Right-stripping keeps a prefix that is empty or ends in a non-space
      character, and all that it cuts is whitespace. */
  lemma RStripCuts(s: string)
    ensures |RStrip(s)| <= |s| && RStrip(s) == s[..|RStrip(s)|]
    ensures RStrip(s) == [] || !IsSpace(RStrip(s)[|RStrip(s)| - 1])
    ensures forall i | |RStrip(s)| <= i < |s| :: IsSpace(s[i])
  {
  }

  /** Right-stripping never cuts into a part that ends in a non-space
      character. */
  lemma RStripKeeps(head: string, rest: string)
    requires head != [] && !IsSpace(head[|head| - 1])
    ensures |head| <= |RStrip(head + rest)| && RStrip(head + rest)[..|head|] == head
  {
    RStripCuts(head + rest);
    assert (head + rest)[|head| - 1] == head[|head| - 1];
    assert (head + rest)[..|head|] == head;
  }

  /** `str.strip()`: both ends stripped, the rest untouched. */
  function Strip(s: string): (r: string)
    ensures |r| <= |s| && Stripped(r)
    ensures r == [] <==> AllSpace(s)
  {
    var i := SkipSpace(s, 0);
    var j := TrailingStart(s);
    if i == |s| then [] else s[i..j]
  }

  /** What `str.strip()` keeps: the slice between the leading and the
      trailing whitespace. */
  lemma StripSlice(s: string)
    requires !AllSpace(s)
    ensures SkipSpace(s, 0) < TrailingStart(s) && Strip(s) == s[SkipSpace(s, 0)..TrailingStart(s)]
  {
  }

  /** The test `not line.strip()`: by `Strip`'s contract, the line is
      whitespace only. */
  predicate IsBlank(s: string) {
    AllSpace(s)
  }

  lemma StrippedStrip(s: string)
    requires Stripped(s)
    ensures Strip(s) == s
  {
  }

  predicate StartsWith(s: string, p: string) {
    |p| <= |s| && s[..|p|] == p
  }

  predicate EndsWith(s: string, p: string) {
    |p| <= |s| && s[|s| - |p|..] == p
  }

  /** `"#" * n`. */
  function Hashes(n: nat): (r: string)
    ensures |r| == n && forall i | 0 <= i < n :: r[i] == '#'
  {
    if n == 0 then [] else Hashes(n - 1) + "#"
  }

  // ---------------------------------------------------------------------------
  // Splitting into lines and joining them again
  // ---------------------------------------------------------------------------

  /** The pieces of `s` between line feeds (always at least one piece). */
  function Split(s: string): (r: seq<string>)
    ensures |r| >= 1
    ensures forall k | 0 <= k < |r| :: '\n' !in r[k]
  {
    if s == [] then [[]]
    else
      var rest := Split(s[1..]);
      if s[0] == '\n' then [[]] + rest
      else
        var r := [[s[0]] + rest[0]] + rest[1..];
        assert forall k | 1 <= k < |r| :: r[k] == rest[k];
        r
  }

  /** `"\n".join(lines)`: it begins with the first line, and it is empty
      only for no lines or a single empty line. */
  function Join(lines: seq<string>): (r: string)
    ensures |lines| > 0 ==> |lines[0]| <= |r| && r[..|lines[0]|] == lines[0]
    ensures r == [] <==> lines == [] || lines == [""]
  {
    if |lines| == 0 then []
    else if |lines| == 1 then lines[0]
    else lines[0] + "\n" + Join(lines[1..])
  }

  /** `str.splitlines()` with `\n` as the only separator: a final line feed
      does not open an extra empty line, and the empty text has no lines. */
  function SplitLines(s: string): (r: seq<string>)
    ensures r == [] <==> s == []
    ensures forall k | 0 <= k < |r| :: '\n' !in r[k]
  {
    if s == [] then []
    else if s[|s| - 1] == '\n' then Split(s[..|s| - 1])
    else Split(s)
  }

  /** Joining the pieces restores the text. */
  lemma {:induction false} JoinSplit(s: string)
    ensures Join(Split(s)) == s
  {
    if s != [] {
      var rest := Split(s[1..]);
      JoinSplit(s[1..]);
      if s[0] == '\n' {
        assert Split(s) == [[]] + rest;
        assert Join(Split(s)) == [] + "\n" + Join(rest);
      } else if |rest| == 1 {
        assert Split(s) == [[s[0]] + rest[0]];
      } else {
        assert Split(s)[1..] == rest[1..];
        assert Join(rest) == rest[0] + "\n" + Join(rest[1..]);
      }
    }
  }

  /** Splitting at one line feed splits the pieces. */
  lemma {:induction false} SplitAppend(x: string, y: string)
    ensures Split(x + "\n" + y) == Split(x) + Split(y)
  {
    if x == [] {
      assert ([] + "\n" + y)[1..] == y;
    } else {
      assert (x + "\n" + y)[0] == x[0];
      assert (x + "\n" + y)[1..] == x[1..] + "\n" + y;
      SplitAppend(x[1..], y);
    }
  }

  /** A text without line feeds is one piece. */
  lemma {:induction false} SplitSingle(x: string)
    requires '\n' !in x
    ensures Split(x) == [x]
  {
    if x != [] {
      assert x[0] in x;
      assert forall c | c in x[1..] :: c in x;
      SplitSingle(x[1..]);
      assert [x[0]] + x[1..] == x;
    }
  }

  /** Splitting a join of line-feed-free lines gives the lines back. */
  lemma {:induction false} SplitJoin(lines: seq<string>)
    requires |lines| >= 1
    requires forall k | 0 <= k < |lines| :: '\n' !in lines[k]
    ensures Split(Join(lines)) == lines
  {
    if |lines| == 1 {
      SplitSingle(lines[0]);
    } else {
      SplitJoin(lines[1..]);
      SplitSingle(lines[0]);
      SplitAppend(lines[0], Join(lines[1..]));
      assert [lines[0]] + lines[1..] == lines;
    }
  }

  /** Splitting into lines and joining them again loses exactly the final
      line feed, if there is one. */
  lemma JoinSplitLines(s: string)
    requires s != []
    ensures Join(SplitLines(s)) == if s[|s| - 1] == '\n' then s[..|s| - 1] else s
  {
    if s[|s| - 1] == '\n' { JoinSplit(s[..|s| - 1]); } else { JoinSplit(s); }
  }

  // ---------------------------------------------------------------------------
  // Order-preserving selections
  // ---------------------------------------------------------------------------

  /** Concatenation is associative; stated once so that loops appending to
      an accumulator need not rediscover it. */
  lemma Assoc<T>(a: seq<T>, b: seq<T>, c: seq<T>)
    ensures (a + b) + c == a + (b + c)
  {
  }

  /** The empty sequence is a left unit of concatenation. */
  lemma LeftUnit<T>(s: seq<T>)
    ensures [] + s == s
  {
  }

  lemma RightUnit<T>(s: seq<T>)
    ensures s + [] == s
  {
  }

  /** Occurrences of `x` in a sequence with `a` in front. */
  lemma CountCons<T>(a: T, rest: seq<T>, x: T)
    ensures multiset([a] + rest)[x] == (if a == x then 1 else 0) + multiset(rest)[x]
  {
    assert multiset([a] + rest) == multiset{a} + multiset(rest);
  }

  /** `[x for x in s[i:] if keep(x)]`. */
  function FilterFrom<T>(s: seq<T>, i: nat, keep: T -> bool): seq<T>
    requires i <= |s|
    decreases |s| - i
  {
    if i == |s| then [] else (if keep(s[i]) then [s[i]] else []) + FilterFrom(s, i + 1, keep)
  }

  /** The loop `for x in s: if keep(x): out.append(x)`. */
  method FilterLines<T>(s: seq<T>, keep: T -> bool) returns (out: seq<T>)
    ensures out == FilterFrom(s, 0, keep)
  {
    out := [];
    for i := 0 to |s|
      invariant out + FilterFrom(s, i, keep) == FilterFrom(s, 0, keep)
    {
      var x := s[i];
      if keep(x) {
        Assoc(out, [x], FilterFrom(s, i + 1, keep));
        out := out + [x];
      } else {
        LeftUnit(FilterFrom(s, i + 1, keep));
      }
    }
  }

  /** A kept value occurs in the filtered sequence as often as in the
      input, any other value not at all. */
  lemma {:induction false} FilterFromCount<T>(s: seq<T>, i: nat, keep: T -> bool, x: T)
    requires i <= |s|
    ensures multiset(FilterFrom(s, i, keep))[x] == if keep(x) then multiset(s[i..])[x] else 0
    decreases |s| - i
  {
    if i < |s| {
      FilterFromCount(s, i + 1, keep, x);
      var rest := FilterFrom(s, i + 1, keep);
      SliceCount(s, i, x);
      if keep(s[i]) {
        CountCons(s[i], rest, x);
      } else {
        LeftUnit(rest);
        assert s[i] != x || !keep(x);
      }
    }
  }

  /** When every value is kept, the filter is the identity. */
  lemma {:induction false} FilterFromAll<T>(s: seq<T>, i: nat, keep: T -> bool)
    requires i <= |s|
    requires forall k | i <= k < |s| :: keep(s[k])
    ensures FilterFrom(s, i, keep) == s[i..]
    decreases |s| - i
  {
    if i < |s| {
      FilterFromAll(s, i + 1, keep);
      assert s[i..] == [s[i]] + s[i + 1..];
    }
  }

  /** Occurrences of `x` in `s[i..]`: the first element, then the rest. */
  lemma SliceCount<T>(s: seq<T>, i: nat, x: T)
    requires i < |s|
    ensures multiset(s[i..])[x] == (if s[i] == x then 1 else 0) + multiset(s[i + 1..])[x]
  {
    assert s[i..] == [s[i]] + s[i + 1..];
    CountCons(s[i], s[i + 1..], x);
  }

  /** Facts about prefixes (`a <= b`). */
  lemma PrefixRefl<T>(a: seq<T>)
    ensures a <= a
  {
  }

  lemma PrefixTrans<T>(a: seq<T>, b: seq<T>, c: seq<T>)
    requires a <= b && b <= c
    ensures a <= c
  {
    assert a == b[..|a|] && b == c[..|b|];
    assert c[..|b|][..|a|] == c[..|a|];
  }

  lemma PrefixAt<T>(a: seq<T>, b: seq<T>, k: nat)
    requires a <= b && k < |a|
    ensures k < |b| && b[k] == a[k]
  {
  }

  /** `a` is obtained from `b` by deleting elements. */
  predicate IsSubsequence<T(==)>(a: seq<T>, b: seq<T>)
    decreases |b|
  {
    if a == [] then true
    else if b == [] then false
    else if a[0] == b[0] then IsSubsequence(a[1..], b[1..])
    else IsSubsequence(a, b[1..])
  }

  lemma {:induction false} SubsequenceOfTail<T>(a: seq<T>, b: seq<T>)
    requires b != [] && IsSubsequence(a, b[1..])
    ensures IsSubsequence(a, b)
    decreases |b|, |a|
  {
    if a != [] && a[0] == b[0] {
      SubsequenceDropHead(a, b[1..]);
    }
  }

  lemma {:induction false} SubsequenceDropHead<T>(a: seq<T>, b: seq<T>)
    requires a != [] && IsSubsequence(a, b)
    ensures IsSubsequence(a[1..], b)
    decreases |b|, |a|
  {
    if b != [] {
      if a[0] == b[0] {
        SubsequenceOfTail(a[1..], b);
      } else {
        SubsequenceDropHead(a, b[1..]);
        SubsequenceOfTail(a[1..], b);
      }
    }
  }

  /** The elements of `s` whose mask bit is set, in order. */
  function Select<T>(s: seq<T>, mask: seq<bool>): (r: seq<T>)
    requires |mask| == |s|
    ensures |r| <= |s|
  {
    if s == [] then []
    else (if mask[0] then [s[0]] else []) + Select(s[1..], mask[1..])
  }

  /** Selecting from a concatenation selects from each part. */
  lemma {:induction false} SelectAppend<T>(a: seq<T>, ma: seq<bool>, b: seq<T>, mb: seq<bool>)
    requires |ma| == |a| && |mb| == |b|
    ensures Select(a + b, ma + mb) == Select(a, ma) + Select(b, mb)
  {
    if a == [] {
      assert a + b == b && ma + mb == mb;
    } else {
      SelectAppend(a[1..], ma[1..], b, mb);
      assert (a + b)[1..] == a[1..] + b;
      assert (ma + mb)[1..] == ma[1..] + mb;
      var first := if ma[0] then [a[0]] else [];
      assert Select(a + b, ma + mb) == first + Select(a[1..] + b, ma[1..] + mb);
      assert Select(a, ma) == first + Select(a[1..], ma[1..]);
      Assoc(first, Select(a[1..], ma[1..]), Select(b, mb));
    }
  }

  /** The filter keeps values unchanged and in their order. */
  lemma {:induction false} FilterFromIsSubsequence<T>(s: seq<T>, i: nat, keep: T -> bool)
    requires i <= |s|
    ensures IsSubsequence(FilterFrom(s, i, keep), s[i..])
    decreases |s| - i
  {
    if i < |s| {
      FilterFromIsSubsequence(s, i + 1, keep);
      var rest := FilterFrom(s, i + 1, keep);
      assert s[i..][1..] == s[i + 1..];
      if keep(s[i]) {
        assert FilterFrom(s, i, keep)[1..] == rest;
      } else {
        LeftUnit(rest);
        SubsequenceOfTail(rest, s[i..]);
      }
    }
  }
}
