# Markdown cleanup of docling-serve, modelled in Dafny

docling-serve converts documents with Docling. It can post-process the
Markdown it exports with `cleanup_markdown`, which repairs the usual
artefacts of a PDF conversion. This project models that function and the
stages it runs, and proves what each stage guarantees.

`cleanup_markdown` splits the text into lines and runs the stages below, in
this order:

1. pattern removal (optional): drops every line in which one of the caller's
   patterns is found;
2. repeated domain headings (optional): drops every heading that looks like
   a domain name (`## OceanofPDF.com`) and occurs more than once, since it is
   taken for a watermark;
3. numbered headings (optional): merges a heading that holds only a chapter
   number with the title heading that follows it (`## 2`, `## Hope` →
   `## 2. Hope`);
4. paragraph reflow (optional): joins each run of prose lines into one line,
   and keeps fences, code, structure lines and blank lines as lines of their
   own, right-stripped (a blank line becomes `""`);
5. heading spacing (always): inserts an empty line after a heading that is
   directly followed by text;
6. blank-line squashing (always): shrinks every run of blank lines to its
   first line.

After the stages it joins the lines with `\n`. If the input ended with a line
feed and the joined text is non-empty and does not end with one, it appends
one. The joined text can be empty: `"\n"` becomes `""`.

Modules:

- `Text`: Python's `str.strip`/`rstrip`, `splitlines` and `join`, and generic
  helpers for filters and subsequences.
- `Classify`: the three regular expressions of the file, written as parsers
  proved to find a match whenever one exists, and `_is_structure_line`.
- One module per stage: `PatternRemoval`, `DomainHeadings`,
  `NumberedHeadings`, `Reflow`, `HeadingSpacing`, `BlankSquash`.
- `Cleanup`: the options and the pipeline.

The modelled behaviour follows the source code:
- Each stage that loops in the source is a `method` with that loop.
- Each method is proved equal to a specification function.
- The guarantees are lemmas about those functions.

Facts about the code that the model keeps, and that are easy to get wrong:
- There is no single shared line classification. Reflow calls
  `_is_structure_line`, while heading spacing tests only for a leading `#`.
  The model keeps the two tests separate.
- The code does not keep a missing final line feed missing: `"a\n  "` becomes
  `"a\n"`, because the whitespace-only last line comes out of reflow as `""`.
  `Cleanup.TrailingNewline` proves only the direction the code guarantees.
- The code is not idempotent. The numbered-heading stage alone shows this:
  `NumberedHeadings.MergeNotIdempotent` proves that `# 1`, `# 2`, `# Title`
  gives `# 1`, `# 2. Title` after one pass, and one line after a second pass.
- Only reflow knows about code fences. Pattern removal, domain headings,
  numbered headings, heading spacing and squashing treat fenced lines like
  any others, so a fenced block can change: a `#` line inside one that is
  followed by text gets `""` after it (`HeadingSpacing.HashLineInFence`).
- Heading spacing and blank-line squashing always run, so turning every
  option off does not return the input unchanged.

## Model

| member | source | states |
|---|---|---|
| Text.Strip | docling_serve/markdown_cleanup.py:89 | `str.strip()`: the result is no longer than the input and has no whitespace at either end; it is empty exactly when the line is whitespace only |
| Text.StripSlice | docling_serve/markdown_cleanup.py:89 | a line that is not whitespace only strips to the slice between its first and its last non-space character |
| Text.SkipSpace | docling_serve/markdown_cleanup.py:89 | the index returned is the first non-space character at or after the start, and everything skipped is whitespace |
| Text.TrailingStart | docling_serve/markdown_cleanup.py:167 | `rstrip` cuts exactly the trailing whitespace: all of it, and nothing before the last non-space character |
| Text.RStrip | docling_serve/markdown_cleanup.py:167 | `str.rstrip()`: the string up to the start of its trailing whitespace |
| Text.RStripCuts | docling_serve/markdown_cleanup.py:167 | right-stripping keeps a prefix that is empty or ends in a non-space character, and everything it cuts is whitespace |
| Text.RStripKeeps | docling_serve/markdown_cleanup.py:146 | right-stripping never cuts into a leading part that ends in a non-space character |
| Text.Lower | docling_serve/markdown_cleanup.py:119 | `str.lower()`, on ASCII letters only |
| Text.LowerFacts | docling_serve/markdown_cleanup.py:119 | lowering keeps the length, leaves no upper-case ASCII letter, and keeps every other character |
| Text.StrippedStrip | docling_serve/markdown_cleanup.py:130 | stripping a stripped string changes nothing |
| Text.Hashes | docling_serve/markdown_cleanup.py:146 | the level marker of a merged heading is exactly `n` `#` characters |
| Text.Split | docling_serve/markdown_cleanup.py:59 | splitting on line feeds gives at least one piece, and no piece holds a line feed |
| Text.JoinSplit | docling_serve/markdown_cleanup.py:59 | joining the pieces of a split with `\n` restores the text |
| Text.SplitJoin | docling_serve/markdown_cleanup.py:76 | splitting the join of lines that hold no line feed gives those lines back |
| Text.JoinSplitLines | docling_serve/markdown_cleanup.py:59-60 | `"\n".join(text.splitlines())` is the text without its final line feed, if it has one |
| Text.Join | docling_serve/markdown_cleanup.py:76 | `"\n".join(lines)`: it begins with the first line, and it is empty exactly for no lines or a single empty line |
| Text.SplitLines | docling_serve/markdown_cleanup.py:59 | `str.splitlines()` on line feeds: the result is empty exactly when the text is, and no line holds a line feed (that a final line feed opens no extra empty line is `Text.JoinSplitLines`) |
| Text.FilterLines | docling_serve/markdown_cleanup.py:87-93 | the loop that appends the lines passing a test computes `FilterFrom` |
| Text.FilterFromCount | docling_serve/markdown_cleanup.py:87-93 | a filter keeps every occurrence of a value that passes the test and none of one that fails it |
| Text.FilterFromAll | docling_serve/markdown_cleanup.py:84-85 | a filter whose test every line passes returns its input |
| Text.FilterFromIsSubsequence | docling_serve/markdown_cleanup.py:106-112 | a filter's output is its input with some elements deleted, in order |
| Classify.HashRun | docling_serve/markdown_cleanup.py:22 | the leading run of `#` is maximal: all `#`, followed by the end or a non-`#` |
| Classify.DigitRun | docling_serve/markdown_cleanup.py:203 | the leading run of digits is maximal |
| Classify.ParseHeading | docling_serve/markdown_cleanup.py:22 | `_HEADING_PATTERN.match` on a stripped line: a returned heading is a regex match, and its text is a stripped suffix of the line |
| Classify.ParseHeadingComplete | docling_serve/markdown_cleanup.py:22 | whenever the regex can match, the parser returns a heading, whose level is the greatest one the line allows |
| Classify.HeadingText | docling_serve/markdown_cleanup.py:22 | a parsed heading has level 1 to 6 and a non-empty, stripped text without line feed |
| Classify.ParseRenderHeading | docling_serve/markdown_cleanup.py:22 | writing a heading out as `hashes + " " + text` and parsing it again gives the same heading |
| Classify.ParseNumeric | docling_serve/markdown_cleanup.py:23 | `_NUMERIC_HEADING_PATTERN`: it matches exactly the texts that are digits with an optional final `.` or `)`, and the groups are the digits and that separator |
| Classify.FirstDot | docling_serve/markdown_cleanup.py:25 | the index of the first `.`, or the length when there is none |
| Classify.DomainName | docling_serve/markdown_cleanup.py:24-27 | `_DOMAIN_HEADING_PATTERN.match(...).group(2)`: a returned name is a suffix of the line that the regex accepts as its domain group |
| Classify.DomainNameComplete | docling_serve/markdown_cleanup.py:24-27 | whenever the domain regex can match, the parser returns exactly that domain name |
| Classify.DomainNameIsHeading | docling_serve/markdown_cleanup.py:22-27 | a domain heading is also a heading, whose text is the domain name |
| Classify.HeadingIsStructure | docling_serve/markdown_cleanup.py:196-201 | anything the heading regex accepts, reflow treats as structure |
| Classify.IsStructureLine | docling_serve/markdown_cleanup.py:196-218 | `_is_structure_line`: never for a blank line; otherwise a leading `#` or `>` (a prefix test, not the heading regex), a list marker `*`, `-`, `+` or digits and `.` followed by whitespace, a raw line indented by four spaces or a tab, a table row with at least two `\|`, an HTML comment, or a run of three or more `=` or `-` |
| PatternRemoval.RemovePatternMatches | docling_serve/markdown_cleanup.py:82-93 | the stage returns the lines whose stripped form no pattern matches, with or without patterns |
| PatternRemoval.MatchesAny | docling_serve/markdown_cleanup.py:90 | `any(regex.search(stripped) for regex in compiled)`: some pattern accepts the stripped line; with no patterns it is always false |
| PatternRemoval.KeptIsSubsequence | docling_serve/markdown_cleanup.py:87-93 | kept lines are input lines, unchanged and in their original order |
| PatternRemoval.KeptCount | docling_serve/markdown_cleanup.py:88-92 | a line is dropped iff some pattern matches its stripped form; every other line keeps all of its occurrences |
| PatternRemoval.KeptNoMatch | docling_serve/markdown_cleanup.py:90-91 | no pattern matches any kept line |
| PatternRemoval.NoPatternsKeepAll | docling_serve/markdown_cleanup.py:84-85 | with no patterns, the stage returns its input |
| PatternRemoval.NoiseLineMatches | tests/test_markdown_cleanup.py:51-52 | `^Noise line$`, case-insensitive, matches `Noise line`, so that line does not survive |
| PatternRemoval.ActualContentSurvives | tests/test_markdown_cleanup.py:51-52 | the same pattern does not match `Actual content`, so that line survives |
| PatternRemoval.NoiseLineRemoved | tests/test_markdown_cleanup.py:50-57 | the pattern `^Noise line$` removes `Noise line` and keeps `Actual content` |
| DomainHeadings.CountOneMore | docling_serve/markdown_cleanup.py:100 | `counts[text] += 1` keeps the map the tally of the keys seen |
| DomainHeadings.CountKeys | docling_serve/markdown_cleanup.py:98-100 | the `Counter` loop: the keys of the map are the domain texts found, and each maps to its number of occurrences |
| DomainHeadings.RepeatedFromCounts | docling_serve/markdown_cleanup.py:102 | the keys counted more than once are exactly the texts that occur more than once |
| DomainHeadings.RemoveRepeatedDomainHeadings | docling_serve/markdown_cleanup.py:96-119 | the stage returns the input without the lines whose lowercased domain text is repeated |
| DomainHeadings.DomainKey | docling_serve/markdown_cleanup.py:117-119 | `match.group(2).lower()` of the stripped line: present only for a heading, it is that heading's text lowercased, with no upper-case ASCII letter left |
| DomainHeadings.RepeatedHeadingsRemoved | docling_serve/markdown_cleanup.py:106-111 | a domain heading whose lowercased text occurs more than once is removed, all of its occurrences |
| DomainHeadings.OtherLinesKept | docling_serve/markdown_cleanup.py:106-112 | a domain heading occurring once, and every line that is not a domain heading, keeps all of its occurrences |
| DomainHeadings.WithoutRepeatedIsSubsequence | docling_serve/markdown_cleanup.py:106-112 | the filter keeps lines unchanged and in order |
| DomainHeadings.NothingRepeatedKeepsAll | docling_serve/markdown_cleanup.py:103-104 | if no domain text repeats, the output equals the input |
| NumberedHeadings.CombineNumberedHeadings | docling_serve/markdown_cleanup.py:122-152 | the loop computes the scan `Combine`; it advances by two after a merge and by one otherwise |
| NumberedHeadings.MergeAt | docling_serve/markdown_cleanup.py:126-149 | the merge decision for a line and its successor: both are headings of the same level, the first text is a number, the second is not; the result is the merged line |
| NumberedHeadings.CombineLength | docling_serve/markdown_cleanup.py:147-151 | the output is shorter than the input by the number of merges, and there are at most half as many merges as lines |
| NumberedHeadings.NoMergeKeepsAll | docling_serve/markdown_cleanup.py:150-151 | where no line merges with the next, lines are emitted unchanged |
| NumberedHeadings.CombineOrigin | docling_serve/markdown_cleanup.py:147-151 | every output line is an input line, or the merge of an input line with the line after it |
| NumberedHeadings.MergesDoNotOverlap | docling_serve/markdown_cleanup.py:131-137 | the second line of a merge never starts a merge of its own, because its text is not a number |
| NumberedHeadings.MergeAtNoOverlap | docling_serve/markdown_cleanup.py:131-137 | no two merges share a line |
| NumberedHeadings.MergeCountSplit | docling_serve/markdown_cleanup.py:148 | the number of merge starts in a range is the sum over its two parts |
| NumberedHeadings.MergesFromCount | docling_serve/markdown_cleanup.py:125-151 | without overlaps, the scan merges every pair that can merge: it performs exactly as many merges as there are lines that start one |
| NumberedHeadings.CombineSuffix | docling_serve/markdown_cleanup.py:125-151 | the output from any line the scan looks at is the end of the whole output |
| NumberedHeadings.CombinePosition | docling_serve/markdown_cleanup.py:125-151 | a line the scan looks at lands at its index less the merges before it, as its merge or unchanged |
| NumberedHeadings.CombineAtRule | docling_serve/markdown_cleanup.py:125-151 | `CombineAt` for any merge rule without overlaps |
| NumberedHeadings.CombineAt | docling_serve/markdown_cleanup.py:125-151 | the converse of `CombineOrigin`: a line that can merge with its successor comes out, at its index less the merges before it, as that merge; a line in no merge comes out there unchanged; the output is as long as the input less the merges, so the line after a merge start is consumed and nothing is added |
| NumberedHeadings.MergedIsHeading | docling_serve/markdown_cleanup.py:138-146 | the merged line is `hashes + " " + digits + separator + space + title`, and it is itself a heading of the same level |
| NumberedHeadings.Merged | docling_serve/markdown_cleanup.py:146 | the f-string, right-stripped: for a number of digits it begins with the hashes, a space and those digits, which the right-strip never cuts |
| NumberedHeadings.NumberPrefixKept | docling_serve/markdown_cleanup.py:146 | right-stripping a line `hashes + " " + digits + rest` keeps everything up to the last digit |
| NumberedHeadings.NumberTitleText | docling_serve/markdown_cleanup.py:146 | digits, a separator, an optional space and a title form a stripped text without line feed that begins with a digit |
| NumberedHeadings.MergedLine | docling_serve/markdown_cleanup.py:127-146 | a merge happens only for a numeric heading followed by a same-level heading whose text is not numeric, and it yields that heading's merge |
| NumberedHeadings.ParsesAs | docling_serve/markdown_cleanup.py:127 | a line written as a heading parses as that heading |
| NumberedHeadings.MergeOfParsed | docling_serve/markdown_cleanup.py:127-146 | the merge decision in terms of the two parsed headings |
| NumberedHeadings.ParseNumericOf | docling_serve/markdown_cleanup.py:23 | digits with an optional separator parse back as those digits and that separator |
| NumberedHeadings.NumberedPairMerges | docling_serve/markdown_cleanup.py:131-148 | a level-L number heading followed by a level-L non-numeric title merges into `hashes + " " + digits + (sep or ".") + space + title`; the space is omitted before `.`, `)`, `-` or an en dash (`## 2`, `## Hope` → `## 2. Hope`) |
| NumberedHeadings.ScanThree | docling_serve/markdown_cleanup.py:125-151 | over three lines where only the last two merge, the scan emits the first line and the merge |
| NumberedHeadings.ScanTwo | docling_serve/markdown_cleanup.py:125-151 | over two lines that merge, the scan emits the merge alone |
| NumberedHeadings.DigitsText | docling_serve/markdown_cleanup.py:137-144 | a run of digits is a stripped heading text, without line feed, that takes a space before it |
| NumberedHeadings.NumberThenNumber | docling_serve/markdown_cleanup.py:136-137 | a digits-only heading followed by a digits-only heading of the same level does not merge |
| NumberedHeadings.MergedTextFacts | docling_serve/markdown_cleanup.py:130-137 | a merged text (digits, `.`, space, title) is stripped, holds no line feed and is not itself numeric, so it can be merged into again |
| NumberedHeadings.MergeNotIdempotent | docling_serve/markdown_cleanup.py:122-152 | the stage is not idempotent: `# a`, `# b`, `# title` gives `# a`, `# b. title`, and a second pass gives `# a. b. title` |
| Reflow.ParagraphStep | docling_serve/markdown_cleanup.py:190 | a prose line appends its stripped form to the paragraph |
| Reflow.JoinSpaced | docling_serve/markdown_cleanup.py:163 | `" ".join(paragraph)`: the parts in order, with one space between neighbours |
| Reflow.JoinSpacedEnds | docling_serve/markdown_cleanup.py:163 | the join begins with the first part and ends with the last, so non-empty stripped parts join into a non-empty stripped line |
| Reflow.Flushed | docling_serve/markdown_cleanup.py:160-164 | `flush_paragraph`: at most one line is appended, and one exactly when the paragraph is not empty |
| Reflow.FenceLine | docling_serve/markdown_cleanup.py:170-174 | a fence line flushes the paragraph, is emitted right-stripped and toggles fence mode |
| Reflow.CodeLine | docling_serve/markdown_cleanup.py:176-178 | inside a fence, a line is emitted right-stripped, with no paragraph pending |
| Reflow.StructureLine | docling_serve/markdown_cleanup.py:180-183 | outside fences, a structure line flushes the paragraph and is emitted right-stripped |
| Reflow.BlankLine | docling_serve/markdown_cleanup.py:185-188 | outside fences, a blank line flushes the paragraph and is emitted as `""` |
| Reflow.ProseLine | docling_serve/markdown_cleanup.py:190 | a prose line emits nothing and extends the pending paragraph by its stripped form |
| Reflow.ReflowLine | docling_serve/markdown_cleanup.py:166-190 | one iteration of the loop keeps `reflowed`, `paragraph` and `in_code_block` equal to their specification after one more line |
| Reflow.KindOf | docling_serve/markdown_cleanup.py:166-190 | the tests of the loop, in its order: a stripped line starting with three backticks is a fence, then a structure line, then an empty stripped line is blank, and everything else is prose |
| Reflow.ReflowParagraphs | docling_serve/markdown_cleanup.py:155-193 | the stage, including the final flush, computes `Reflowed` |
| Reflow.SettledBound | docling_serve/markdown_cleanup.py:160-188 | the output holds no more lines than lines were read before the pending paragraph |
| Reflow.ReflowedLength | docling_serve/markdown_cleanup.py:155-193 | the output is never longer than the input |
| Reflow.FencedBlock | docling_serve/markdown_cleanup.py:170-178 | a fence opened outside code, and every line up to the next fence, is emitted right-stripped only, after the flushed paragraph |
| Reflow.FencedStep | docling_serve/markdown_cleanup.py:176-177 | one more line inside a fence is emitted right-stripped after the ones before it, and the fence stays open |
| Reflow.ProseRun | docling_serve/markdown_cleanup.py:190 | a run of prose lines emits nothing while it lasts |
| Reflow.FinalProseRun | docling_serve/markdown_cleanup.py:192 | prose lines at the end become one line: their stripped forms joined by single spaces |
| Reflow.ProseRunThenBlank | docling_serve/markdown_cleanup.py:185-190 | a prose run ended by a blank line becomes one joined line followed by `""` |
| Reflow.SettledStep | docling_serve/markdown_cleanup.py:166-190 | reading a line only appends to the output |
| Reflow.SettledGrows | docling_serve/markdown_cleanup.py:166-190 | what is emitted after `m` lines is a prefix of what is emitted after `n >= m` lines, so relative order is kept |
| Reflow.SettledInOutput | docling_serve/markdown_cleanup.py:166-193 | what is emitted up to any line is a prefix of the final output |
| Reflow.TwoProseLines | tests/test_markdown_cleanup.py:30-31 | two prose lines become one line of their stripped forms joined by a space (`First`, `sentence` → `First sentence`) |
| HeadingSpacing.EnsureHeadingSpacing | docling_serve/markdown_cleanup.py:231-247 | the loop emits each line, followed by `""` exactly when the line starts with `#` and the next input line exists, is not blank and does not start with `#` |
| HeadingSpacing.GapTests | docling_serve/markdown_cleanup.py:235-246 | a line gets an empty line after it exactly when it strips to something starting with `#` and the next line exists, does not strip to nothing and does not start with `#` |
| HeadingSpacing.SpacedLength | docling_serve/markdown_cleanup.py:231-247 | the output is as long as the input plus the number of inserted lines |
| HeadingSpacing.SpacedGrows | docling_serve/markdown_cleanup.py:233-246 | the output up to a line is a prefix of the output up to any later line |
| HeadingSpacing.SpacedStep | docling_serve/markdown_cleanup.py:234-246 | line `i` is emitted at its position, followed by `""` when it has a gap |
| HeadingSpacing.LineAt | docling_serve/markdown_cleanup.py:233-246 | in the output, every input line sits at its own index plus the gaps before it; after it comes `""` if it has a gap, otherwise the next input line |
| HeadingSpacing.LastLine | docling_serve/markdown_cleanup.py:239-241 | the last input line is the last output line: it never gets a blank after it |
| HeadingSpacing.RemovingInsertedLines | docling_serve/markdown_cleanup.py:231-247 | removing the inserted lines from the output gives back the input |
| HeadingSpacing.InsertedAreEmpty | docling_serve/markdown_cleanup.py:246 | every inserted line is `""` |
| HeadingSpacing.HashLineInFence | docling_serve/markdown_cleanup.py:231-247 | the stage ignores fences: a `#c` line inside a fenced block, followed by `x`, gets an empty line after it |
| BlankSquash.SquashBlankLines | docling_serve/markdown_cleanup.py:221-228 | the generator, with its `previous_blank` flag, yields a line unless it is blank and the input line before it was blank |
| BlankSquash.SquashIsSubsequence | docling_serve/markdown_cleanup.py:221-228 | the output is the input with some lines deleted, in order |
| BlankSquash.NonBlankKept | docling_serve/markdown_cleanup.py:224-227 | every non-blank line keeps all of its occurrences |
| BlankSquash.SquashSuffix | docling_serve/markdown_cleanup.py:223-228 | what is yielded from any line on is the end of the output |
| BlankSquash.KeptLineAt | docling_serve/markdown_cleanup.py:224-227 | every non-blank line, and the first line of every blank run, appears in the output after the lines yielded before it |
| BlankSquash.SquashShape | docling_serve/markdown_cleanup.py:224-228 | whitespace-only lines count as blank; no two adjacent output lines are blank, and after a blank input line the output goes on with a non-blank line |
| BlankSquash.NoAdjacentBlanksInOutput | docling_serve/markdown_cleanup.py:221-228 | no two adjacent output lines are blank |
| BlankSquash.SquashNoAdjacent | docling_serve/markdown_cleanup.py:221-228 | input without adjacent blank lines is returned unchanged |
| BlankSquash.SquashIdempotent | docling_serve/markdown_cleanup.py:221-228 | squashing twice equals squashing once |
| Cleanup.DefaultOptions | docling_serve/markdown_cleanup.py:30-37 | the defaults: no patterns, and every optional stage on |
| Cleanup.CleanLines | docling_serve/markdown_cleanup.py:62-76 | the stages run in their fixed order, each optional one only when its switch is on, then heading spacing and squashing always |
| Cleanup.CleanupMarkdown | docling_serve/markdown_cleanup.py:40-79 | `cleanup_markdown` computes `Cleanup`: the empty text is returned as is, and any other text is split, cleaned, joined, and given back a missing final line feed |
| Cleanup.RestoreNewline | docling_serve/markdown_cleanup.py:77-78 | the result is the cleaned text, with a line feed added or not; an input without a final line feed adds none, and a non-empty cleaned text of an input with one ends in one |
| Cleanup.EmptyUnchanged | docling_serve/markdown_cleanup.py:56-57 | the empty input is returned unchanged |
| Cleanup.FinalNoAdjacentBlanks | docling_serve/markdown_cleanup.py:74-76 | because squashing runs last, the final lines never hold two adjacent blank lines, whatever the options |
| Cleanup.RestoreNewlineFacts | docling_serve/markdown_cleanup.py:77-78 | a line feed is appended exactly when the input ends with one and the cleaned text is non-empty and lacks one; so it is never doubled, and otherwise the text is unchanged |
| Cleanup.TrailingNewline | docling_serve/markdown_cleanup.py:60-78 | for the whole function: if the input ends with `\n` and the cleaned text is non-empty, the output ends with `\n`; the line feed is added only when missing, and nothing else changes |

## Left out

- The rest of the repository is not part of this model: the web API
  (`app.py`), response preparation, settings, the orchestrator factory, the
  websocket notifier and the request data model. They only call
  `cleanup_markdown` or carry its options.
- Regular expressions given by the caller are modelled as predicates on the
  stripped line (`Pattern = string -> bool`). What such a predicate answers
  is what the compiled, case-insensitive `search` would answer; the regex
  engine itself is not modelled.
- The error path of compiling a pattern (`re.error` raised, at line 83) is
  not modelled: a `Pattern` is already compiled.
- Whitespace, digits and letters are the ASCII ones. Python's `str.strip`,
  `\d`, `\s` and `str.lower` also treat some non-ASCII characters as
  whitespace, digits or letters; those are not modelled.
- `str.splitlines` also splits on `\r`, `\r\n`, `\v`, `\f`, `\x1c` to `\x1e`,
  `\x85` and the Unicode line and paragraph separators. The model splits on
  `\n` only.
- The generator `_iter_domain_heading_text` and the generator returned by
  `_squash_blank_lines` are modelled as the sequences they yield. How lazily
  they are consumed is not modelled.
- The two end-to-end tests (`OceanofPDF.com` removed and `## 2. Hope`;
  `First sentence` with a list and a code block) are not evaluated on their
  literal inputs. Their stage steps are proved for all inputs instead: by
  `DomainHeadings.RepeatedHeadingsRemoved`, `NumberedHeadings.NumberedPairMerges`,
  `Reflow.TwoProseLines`, `Reflow.FencedBlock` and `Reflow.StructureLine`.
- Cleanup.FinalNoAdjacentBlanks: this is stated on the cleaned line list,
  before it is joined. That the join and the final line feed keep the lines
  apart is given separately, by `Text.SplitJoin`, for lines without a line
  feed.
- Cleanup.TrailingNewline: this does not claim that an input without a
  final line feed gives an output without one. The code does not guarantee
  that.
- Whole-pipeline idempotence is not claimed, because the code does not
  provide it (see `NumberedHeadings.MergeNotIdempotent`).
