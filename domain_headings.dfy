/** `_remove_repeated_domain_headings` and `_iter_domain_heading_text`: a
    heading that looks like a domain name (`## OceanofPDF.com`) and occurs
    more than once, compared in lower case, is taken for a watermark and every
    occurrence of it is removed.

    The counting and the filter only ever ask a line for its key, so both
    are stated for any key function (`KeyRule`); the stage uses
    `DomainKey`. */
module DomainHeadings {
  import opened Text
  import opened Classify

  /** The lowercased domain text of a line, when its stripped form matches the
      domain-heading regex. */
  function DomainKey(line: string): (r: Option<string>)
    ensures r.Some? ==>
      ParseHeading(Strip(line)).Some? && r.value == Lower(ParseHeading(Strip(line)).value.text)
    ensures r.Some? ==> forall i | 0 <= i < |r.value| :: !('A' <= r.value[i] <= 'Z')
  {
    var name := DomainName(Strip(line));
    if name.Some? then
      DomainNameIsHeading(Strip(line));
      LowerFacts(name.value);
      Some(Lower(name.value))
    else None
  }

  /** What a line is counted under, if anything. */
  type KeyRule = string -> Option<string>

  /** `_iter_domain_heading_text` from line `i` on: the keys, in order. */
  function TextsFrom(lines: seq<string>, i: nat, rule: KeyRule): seq<string>
    requires i <= |lines|
    decreases |lines| - i
  {
    if i == |lines| then []
    else (if rule(lines[i]).Some? then [rule(lines[i]).value] else []) + TextsFrom(lines, i + 1, rule)
  }

  function DomainTexts(lines: seq<string>): seq<string> {
    TextsFrom(lines, 0, DomainKey)
  }

  /** How often `text` occurs among the keys of `lines`. */
  function Occurrences(lines: seq<string>, rule: KeyRule, text: string): nat {
    multiset(TextsFrom(lines, 0, rule))[text]
  }

  /** `{text for text, count in counts.items() if count > 1}`. */
  function RepeatedKeys(lines: seq<string>, rule: KeyRule): set<string> {
    set text | text in TextsFrom(lines, 0, rule) && Occurrences(lines, rule, text) > 1
  }

  /** A line that the filter drops: one whose key is repeated. */
  predicate IsWatermark(rule: KeyRule, repeated: set<string>, line: string) {
    rule(line).Some? && rule(line).value in repeated
  }

  /** The test a line must pass to be kept. */
  function NotWatermark(rule: KeyRule, repeated: set<string>): string -> bool {
    line => !IsWatermark(rule, repeated, line)
  }

  /** What the stage returns. */
  function WithoutRepeated(lines: seq<string>): seq<string> {
    FilterFrom(lines, 0, NotWatermark(DomainKey, RepeatedKeys(lines, DomainKey)))
  }

  /** `counts[text] += 1` keeps `counts` the tally of what has been seen. */
  lemma CountOneMore(counts: map<string, nat>, seen: seq<string>, text: string)
    requires forall key :: key in counts <==> key in seen
    requires forall key | key in counts :: counts[key] == multiset(seen)[key]
    ensures var counts' := counts[text := (if text in counts then counts[text] else 0) + 1];
      (forall key :: key in counts' <==> key in seen + [text])
      && (forall key | key in counts' :: counts'[key] == multiset(seen + [text])[key])
  {
    assert multiset(seen + [text]) == multiset(seen) + multiset{text};
    assert text !in counts ==> multiset(seen)[text] == 0;
  }

  /** The first loop: a `Counter` of the keys, here for any key
      function. */
  method CountKeys(lines: seq<string>, rule: KeyRule) returns (counts: map<string, nat>)
    ensures forall key :: key in counts <==> key in TextsFrom(lines, 0, rule)
    ensures forall key | key in counts :: counts[key] == Occurrences(lines, rule, key)
  {
    counts := map[];
    ghost var seen: seq<string> := [];
    for i := 0 to |lines|
      invariant seen + TextsFrom(lines, i, rule) == TextsFrom(lines, 0, rule)
      invariant forall key :: key in counts <==> key in seen
      invariant forall key | key in counts :: counts[key] == multiset(seen)[key]
    {
      var key := rule(lines[i]);
      if key.Some? {
        var text := key.value;
        var oldCount := if text in counts then counts[text] else 0;
        CountOneMore(counts, seen, text);
        Assoc(seen, [text], TextsFrom(lines, i + 1, rule));
        seen := seen + [text];
        counts := counts[text := oldCount + 1];
      } else {
        LeftUnit(TextsFrom(lines, i + 1, rule));
      }
    }
  }

  /** The keys counted more than once are the repeated ones. */
  lemma RepeatedFromCounts(lines: seq<string>, rule: KeyRule, counts: map<string, nat>)
    requires forall key :: key in counts <==> key in TextsFrom(lines, 0, rule)
    requires forall key | key in counts :: counts[key] == Occurrences(lines, rule, key)
    ensures (set text | text in counts && counts[text] > 1) == RepeatedKeys(lines, rule)
  {
  }

  /** The stage: count the domain heading keys, collect the repeated ones,
      and return a copy when there are none, otherwise filter them out. */
  method RemoveRepeatedDomainHeadings(lines: seq<string>) returns (cleaned: seq<string>)
    ensures cleaned == WithoutRepeated(lines)
  {
    var counts := CountKeys(lines, DomainKey);
    var repeated := set text | text in counts && counts[text] > 1;
    RepeatedFromCounts(lines, DomainKey, counts);
    if repeated == {} {
      NothingRepeatedKeepsAll(lines);
      return lines;
    }
    cleaned := FilterLines(lines, NotWatermark(DomainKey, repeated));
  }

  /** A domain heading whose key occurs more than once in the input is
      removed, all of its occurrences. */
  lemma RepeatedHeadingsRemoved(lines: seq<string>, x: string)
    requires DomainKey(x).Some? && Occurrences(lines, DomainKey, DomainKey(x).value) > 1
    ensures x !in WithoutRepeated(lines)
  {
    var key := DomainKey(x).value;
    var repeated := RepeatedKeys(lines, DomainKey);
    assert key in multiset(DomainTexts(lines));
    assert key in repeated;
    FilterFromCount(lines, 0, NotWatermark(DomainKey, repeated), x);
  }

  /** A domain heading whose key occurs once, and every line that is not a
      domain heading, keeps all of its occurrences. */
  lemma OtherLinesKept(lines: seq<string>, x: string)
    requires DomainKey(x).None? || Occurrences(lines, DomainKey, DomainKey(x).value) <= 1
    ensures multiset(WithoutRepeated(lines))[x] == multiset(lines)[x]
  {
    FilterFromCount(lines, 0, NotWatermark(DomainKey, RepeatedKeys(lines, DomainKey)), x);
    assert lines[0..] == lines;
  }

  /** The filter keeps lines unchanged and in their original order. */
  lemma WithoutRepeatedIsSubsequence(lines: seq<string>)
    ensures IsSubsequence(WithoutRepeated(lines), lines)
  {
    FilterFromIsSubsequence(lines, 0, NotWatermark(DomainKey, RepeatedKeys(lines, DomainKey)));
    assert lines[0..] == lines;
  }

  /** If no domain heading repeats, the stage returns its input. */
  lemma NothingRepeatedKeepsAll(lines: seq<string>)
    requires RepeatedKeys(lines, DomainKey) == {}
    ensures WithoutRepeated(lines) == lines
  {
    FilterFromAll(lines, 0, NotWatermark(DomainKey, {}));
    assert lines[0..] == lines;
  }
}
