/** `cleanup_markdown`: split the text into lines, run the enabled stages
    in their fixed order, heading spacing and blank squashing always, join
    the lines again and put back a final line feed that went missing. */
module Cleanup {
  import opened Text
  import opened PatternRemoval
  import opened DomainHeadings
  import opened NumberedHeadings
  import opened Reflow
  import opened HeadingSpacing
  import opened BlankSquash

  /** `MarkdownCleanupOptions`: the caller's patterns and one switch per
      optional stage. */
  datatype MarkdownCleanupOptions = MarkdownCleanupOptions(
    removePatterns: seq<Pattern>,
    autoRemoveDomainHeadings: bool,
    combineNumberedHeadings: bool,
    reflowParagraphs: bool)

  /** The dataclass defaults: no patterns, every optional stage on. */
  function DefaultOptions(): (options: MarkdownCleanupOptions)
    ensures options.removePatterns == []
    ensures options.autoRemoveDomainHeadings && options.combineNumberedHeadings && options.reflowParagraphs
  {
    MarkdownCleanupOptions([], true, true, true)
  }

  /** The lines the stages leave, before they are joined. */
  function CleanedLines(lines: seq<string>, options: MarkdownCleanupOptions): seq<string> {
    var a := if |options.removePatterns| > 0 then Kept(lines, options.removePatterns) else lines;
    var b := if options.autoRemoveDomainHeadings then WithoutRepeated(a) else a;
    var c := if options.combineNumberedHeadings then Combine(b) else b;
    var d := if options.reflowParagraphs then Reflowed(c) else c;
    Squash(Spaced(d))
  }

  /** The last step: a line feed is appended when the input ended with
      one and the cleaned text is not empty and does not. */
  function RestoreNewline(markdown: string, cleaned: string): (r: string)
    ensures r == cleaned || r == cleaned + "\n"
    ensures !EndsWith(markdown, "\n") ==> r == cleaned
    ensures EndsWith(markdown, "\n") && cleaned != [] ==> EndsWith(r, "\n")
  {
    if EndsWith(markdown, "\n") && cleaned != [] && !EndsWith(cleaned, "\n") then cleaned + "\n"
    else cleaned
  }

  /** The text `cleanup_markdown` returns. */
  function Cleanup(markdown: string, options: MarkdownCleanupOptions): string {
    if markdown == [] then markdown
    else RestoreNewline(markdown, Join(CleanedLines(SplitLines(markdown), options)))
  }

  /** The stages, in the order `cleanup_markdown` runs them. */
  method CleanLines(lines: seq<string>, options: MarkdownCleanupOptions) returns (cleaned: seq<string>)
    ensures cleaned == CleanedLines(lines, options)
  {
    var current := lines;
    if |options.removePatterns| > 0 {
      current := RemovePatternMatches(current, options.removePatterns);
    }
    if options.autoRemoveDomainHeadings {
      current := RemoveRepeatedDomainHeadings(current);
    }
    if options.combineNumberedHeadings {
      current := CombineNumberedHeadings(current);
    }
    if options.reflowParagraphs {
      current := ReflowParagraphs(current);
    }
    current := EnsureHeadingSpacing(current);
    cleaned := SquashBlankLines(current);
  }

  /** The pipeline as the source runs it. */
  method CleanupMarkdown(markdown: string, options: MarkdownCleanupOptions) returns (result: string)
    ensures result == Cleanup(markdown, options)
  {
    if markdown == [] {
      return markdown;
    }
    var lines := SplitLines(markdown);
    var originalTrailingNewline := EndsWith(markdown, "\n");
    var squashed := CleanLines(lines, options);
    var cleaned := Join(squashed);
    if originalTrailingNewline && cleaned != [] && !EndsWith(cleaned, "\n") {
      cleaned := cleaned + "\n";
    }
    return cleaned;
  }

  /** Empty input is returned unchanged. */
  lemma EmptyUnchanged(options: MarkdownCleanupOptions)
    ensures Cleanup("", options) == ""
  {
  }

  /** Squashing runs last, so the final lines never hold two adjacent blank
      lines. */
  lemma FinalNoAdjacentBlanks(lines: seq<string>, options: MarkdownCleanupOptions)
    ensures NoAdjacentBlanks(CleanedLines(lines, options))
  {
    var a := if |options.removePatterns| > 0 then Kept(lines, options.removePatterns) else lines;
    var b := if options.autoRemoveDomainHeadings then WithoutRepeated(a) else a;
    var c := if options.combineNumberedHeadings then Combine(b) else b;
    var d := if options.reflowParagraphs then Reflowed(c) else c;
    NoAdjacentBlanksInOutput(Spaced(d));
  }

  /** The final line feed, for any cleaned text: a line feed is appended
      exactly when the input ended with one, the text is not empty and does
      not already end with one. So an input ending in a line feed gives an
      output ending in one unless nothing is left, an input without one gets
      none added, and a line feed is never doubled. */
  lemma RestoreNewlineFacts(markdown: string, joined: string)
    requires markdown != []
    ensures var out := RestoreNewline(markdown, joined);
      (out == joined + "\n" <==> markdown[|markdown| - 1] == '\n' && joined != [] && !EndsWith(joined, "\n"))
      && (out != joined + "\n" ==> out == joined)
      && (markdown[|markdown| - 1] == '\n' && joined != [] ==> EndsWith(out, "\n"))
  {
    assert EndsWith(markdown, "\n") <==> markdown[|markdown| - 1] == '\n' by {
      if markdown[|markdown| - 1] == '\n' {
        assert markdown[|markdown| - 1..] == "\n";
      }
    }
    if joined != [] && EndsWith(joined, "\n") {
      assert |joined + "\n"| != |joined|;
    }
    if markdown[|markdown| - 1] == '\n' && joined != [] && !EndsWith(joined, "\n") {
      assert (joined + "\n")[|joined|..] == "\n";
    }
  }

  /** The same for the whole pipeline. */
  lemma TrailingNewline(markdown: string, options: MarkdownCleanupOptions)
    requires markdown != []
    ensures var joined := Join(CleanedLines(SplitLines(markdown), options));
      var out := Cleanup(markdown, options);
      (out == joined + "\n" <==> markdown[|markdown| - 1] == '\n' && joined != [] && !EndsWith(joined, "\n"))
      && (out != joined + "\n" ==> out == joined)
      && (markdown[|markdown| - 1] == '\n' && joined != [] ==> EndsWith(out, "\n"))
  {
    RestoreNewlineFacts(markdown, Join(CleanedLines(SplitLines(markdown), options)));
  }
}
