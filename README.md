# CodeBlock.Parse, verified

This project models the Markdown code-block parser of the Pixeval Markdown
renderer: `CodeBlock.Parse` and `CodeBlock.ToString` in
`src/Pixeval/CommunityToolkit/Markdown/Parsers/Markdown/Blocks/CodeBlock.cs`.
`Parse` looks at the region `markdown[start..maxEnd]` one line at a time and
recognises two forms of code block:

- the **fenced** form: a line starting with three backticks opens the block,
  the rest of that line is the language, and the next such line closes it;
- the **indented** form: each line starts with a tab or with 4 space units,
  where a space counts 1 and a tab counts 4.

The parser builds the body in a buffer. It expands tabs to 4-column stops
counted from the start of each line and writes the platform newline between
lines. At the end it trims CR/LF from both ends of the body. It returns the
block and the offset `actualEnd` where the block ends, or null with
`actualEnd == start`.

## Structure

- `strings.dfy` (`Strings`): the `System.String` members the parser calls.
  These are `Trim(char[])`, `Trim()`, `IsNullOrWhiteSpace` and the
  `Char.IsWhiteSpace` set, with their meaning proved (`TrimSpec`). The module
  also holds `Option`, the stand-in for a nullable reference.
- `markdown_lines.dfy` (`MarkdownLines`): the line descriptors that
  `Helpers.Common.ParseLines` yields, and `ValidLines`, which states what the
  parser assumes about them:
  - every line lies in `[start, maxEnd]`;
  - the offsets are ordered, and lines strictly increase;
  - there is no CR/LF inside a line;
  - a line ends at a CR/LF or at `maxEnd`.
- `code_block_spec.dfy` (`CodeBlockSpec`): the meaning of `Parse` as
  functions.
  - `Classify` gives the decision on one line: close, reject, or accept from
    an offset, possibly opening a fence.
  - `ScanFrom`/`ScanLine` give the sequence of decisions over the lines.
  - `ParseResult` gives the returned pair.
  - The module also holds the loop functions `TickCount`, `IndentScan` and
    `ExpandTabs`.
- `code_block_parser.dfy` (`CodeBlockParser`): `Parse` written as the
  source's imperative scanner. It keeps the mutable locals `pos`,
  `insideCodeBlock`, `codeLanguage`, the `code` buffer and `actualEnd`. The
  source's loops each become a method with invariants: the backtick loop,
  the language loop, the indentation loop and the tab-expansion loop. The
  `foreach` over lines breaks on a closing fence or a rejected line. `Parse`
  is proved to return exactly `ParseResult`.
- `code_block_properties.dfy` (`CodeBlockProperties`): what `Parse`
  promises, proved about `ParseResult`:
  - the failure rule;
  - the bounds of `actualEnd`;
  - the fenced and indented forms, each against a reference description of
    their segments;
  - the language;
  - tab expansion;
  - the separators;
  - the trimmed text.

Points of the code that are easy to misread:

- A fence is **at least** three backticks. The backtick loop stops at three,
  so a fourth backtick becomes the first character of the language.
- A lone opening fence yields a block with **empty** text, not null. After
  opening the fence, the line falls through to the append step with `pos` at
  the end of the line, so it contributes an empty segment.
- The two forms **can mix** in one block. Indented (or blank) lines may come
  before the first fence line, and that line then opens a fence within the
  same block (`MixedBlock`).
- One or two leading backticks are dropped from a line, both inside a fence
  and, outside one, before the indentation test. The backtick loop has
  already moved `pos` past them.
- While counting indentation, a tab after spaces counts 4 units, and the scan
  continues until 4 units are reached.

## Model

All source paths are in `src/Pixeval/CommunityToolkit/Markdown/Parsers/Markdown/Blocks/`.

| member | source | states |
|---|---|---|
| CodeBlockParser.Parse | src/Pixeval/CommunityToolkit/Markdown/Parsers/Markdown/Blocks/CodeBlock.cs:41-181 | The imperative parser returns exactly `ParseResult`: the block (or null) and `actualEnd`, for any valid line sequence and any separator. |
| CodeBlockParser.ScanLines | src/Pixeval/CommunityToolkit/Markdown/Parsers/Markdown/Blocks/CodeBlock.cs:43-166 | The line loop leaves `code` as the separator-joined segments of the accepted lines, or null when none was accepted. `codeLanguage` holds the collected language text. `actualEnd` is the `StartOfNextLine` of the last consumed line, or `start`. |
| CodeBlockParser.ParseLine | src/Pixeval/CommunityToolkit/Markdown/Parsers/Markdown/Blocks/CodeBlock.cs:56-165 | One loop pass on line i. A closing or rejected line finishes the scan, and only a closing line is consumed. Otherwise the loop invariant holds for i+1, with this line's segment added. |
| CodeBlockParser.ScanLineStart | src/Pixeval/CommunityToolkit/Markdown/Parsers/Markdown/Blocks/CodeBlock.cs:56-93 | The start of a line: `closes` holds exactly when a fence is open and the line is a fence line. An opening fence sets the state to inside and appends the rest of its line to the language. Otherwise `pos` is after the leading backticks, and the language is unchanged. |
| CodeBlockParser.CountBackTicks | src/Pixeval/CommunityToolkit/Markdown/Parsers/Markdown/Blocks/CodeBlock.cs:59-72 | The loop counts the backticks of the leading run, at most three and before maxEnd, and leaves `pos` just after them. |
| CodeBlockParser.CollectLanguage | src/Pixeval/CommunityToolkit/Markdown/Parsers/Markdown/Blocks/CodeBlock.cs:86-90 | Appending the characters one at a time yields the language so far followed by `markdown[pos..EndOfLine]`. |
| CodeBlockParser.ScanIndentation | src/Pixeval/CommunityToolkit/Markdown/Parsers/Markdown/Blocks/CodeBlock.cs:95-133 | Outside a fence, a leading tab or 4 space units are skipped. The line is rejected exactly when it has neither and is not blank. `pos` stays within the line. |
| CodeBlockParser.CountIndent | src/Pixeval/CommunityToolkit/Markdown/Parsers/Markdown/Blocks/CodeBlock.cs:104-121 | The loop counts space units (a space 1, a tab 4) until 4 are reached, another character or maxEnd. The result equals the `IndentScan` reference. |
| CodeBlockParser.AppendCodeLine | src/Pixeval/CommunityToolkit/Markdown/Parsers/Markdown/Blocks/CodeBlock.cs:135-162 | The buffer becomes: nothing for the first line, or the old buffer plus a separator. The line's tab-expanded text from `pos` follows, and nothing at all for a blank line. |
| CodeBlockParser.AppendExpanded | src/Pixeval/CommunityToolkit/Markdown/Parsers/Markdown/Blocks/CodeBlock.cs:147-161 | The append loop adds `ExpandTabs(lineText)` to the buffer, with tab stops counted from the start of the line's output and not of the buffer. |
| CodeBlockParser.JoinSnoc | src/Pixeval/CommunityToolkit/Markdown/Parsers/Markdown/Blocks/CodeBlock.cs:136-143 | Adding a segment to the join writes a separator before it unless it is the first. |
| CodeBlockSpec.TickCount | src/Pixeval/CommunityToolkit/Markdown/Parsers/Markdown/Blocks/CodeBlock.cs:59-72 | The count is at most the cap and stays before maxEnd. When the cap is not reached, the next character is not a backtick. |
| CodeBlockSpec.TickCountCovers | src/Pixeval/CommunityToolkit/Markdown/Parsers/Markdown/Blocks/CodeBlock.cs:59-72 | Every counted character is a backtick. |
| CodeBlockSpec.IndentScan | src/Pixeval/CommunityToolkit/Markdown/Parsers/Markdown/Blocks/CodeBlock.cs:104-121 | The scan only moves forward, only adds units, and once it moves it does not pass maxEnd. Below 4 units it stops at maxEnd or at a character that is neither a space nor a tab. |
| CodeBlockSpec.IndentScanCovers | src/Pixeval/CommunityToolkit/Markdown/Parsers/Markdown/Blocks/CodeBlock.cs:104-121 | Every character the indentation scan passes is a space or a tab. |
| CodeBlockSpec.IndentStrip | src/Pixeval/CommunityToolkit/Markdown/Parsers/Markdown/Blocks/CodeBlock.cs:104-121 | The scan passes only spaces and tabs, and its count is exactly their width (`Width`: 1 per space, 4 per tab). It stops as soon as the count reaches 4: the characters before the last one passed are worth less than 4 units. This fixes how much indentation is removed before the text is appended (:147). |
| CodeBlockSpec.TicksStayInLine | src/Pixeval/CommunityToolkit/Markdown/Parsers/Markdown/Blocks/CodeBlock.cs:57-72 | The backtick run never passes the end of the line, though the loop tests only maxEnd. |
| CodeBlockSpec.IndentStaysInLine | src/Pixeval/CommunityToolkit/Markdown/Parsers/Markdown/Blocks/CodeBlock.cs:104-121 | The indentation scan never passes the end of the line, so `Substring(pos, EndOfLine - pos)` is in range. |
| CodeBlockSpec.OutsideAction | src/Pixeval/CommunityToolkit/Markdown/Parsers/Markdown/Blocks/CodeBlock.cs:95-133 | Only a non-blank line is rejected. An accepted line's text starts within the line, at or after `pos`, and never opens a fence. |
| CodeBlockSpec.Classify | src/Pixeval/CommunityToolkit/Markdown/Parsers/Markdown/Blocks/CodeBlock.cs:56-133 | A line closes exactly when a fence is open and it is a fence line. Only a non-blank line outside a fence is rejected. An accepted line opens a fence exactly when it is a fence line, and its text then starts at its end. |
| CodeBlockSpec.ScanFrom | src/Pixeval/CommunityToolkit/Markdown/Parsers/Markdown/Blocks/CodeBlock.cs:54-166 | The scan consumes at most the remaining lines, and every consumed line adds a segment except at most one (the closing fence line). |
| CodeBlockSpec.CodeLanguageSpec | src/Pixeval/CommunityToolkit/Markdown/Parsers/Markdown/Blocks/CodeBlock.cs:179 | The language is null exactly when the text is empty or white space. Otherwise it is that text with the white space at both ends dropped: non-empty, an infix of the text, and with no white space at either end. |
| Strings.TrimSpec | src/Pixeval/CommunityToolkit/Markdown/Parsers/Markdown/Blocks/CodeBlock.cs:178 | `Trim(cs)` leaves the infix after the longest prefix and suffix drawn from `cs`, with neither end in `cs`. It is empty exactly when every character is in `cs`. |
| Strings.TrimStartSpec | src/Pixeval/CommunityToolkit/Markdown/Parsers/Markdown/Blocks/CodeBlock.cs:178 | TrimStart leaves a suffix, drops only characters of `cs`, and stops at a character outside `cs`. |
| Strings.TrimEndSpec | src/Pixeval/CommunityToolkit/Markdown/Parsers/Markdown/Blocks/CodeBlock.cs:178 | TrimEnd leaves a prefix, drops only characters of `cs`, and stops at a character outside `cs`. |
| MarkdownLines.OrderedPairs | src/Pixeval/CommunityToolkit/Markdown/Parsers/Markdown/Blocks/CodeBlock.cs:54 | The assumed ordering of the lines holds pairwise: a later line starts after an earlier one and at or after its `StartOfNextLine`. |
| MarkdownLines.NoNewlineInSpec | src/Pixeval/CommunityToolkit/Markdown/Parsers/Markdown/Blocks/CodeBlock.cs:54 | The recursive no-CR/LF test on a line's content is equivalent to "no character in the range is CR or LF". |
| CodeBlockProperties.ExpandPrefixLength | src/Pixeval/CommunityToolkit/Markdown/Parsers/Markdown/Blocks/CodeBlock.cs:150-161 | The expansion of the first n characters of a line is between n and 4n characters long. |
| CodeBlockProperties.TabStop | src/Pixeval/CommunityToolkit/Markdown/Parsers/Markdown/Blocks/CodeBlock.cs:153-156 | A tab emits only spaces, 1 to 4 of them, just enough for the line's column after it to be a multiple of 4. |
| CodeBlockProperties.ExpandPrefixChars | src/Pixeval/CommunityToolkit/Markdown/Parsers/Markdown/Blocks/CodeBlock.cs:150-161 | The expanded text holds no tab. Every character is a space or a character of the line. |
| CodeBlockProperties.ExpandPrefixNoTabs | src/Pixeval/CommunityToolkit/Markdown/Parsers/Markdown/Blocks/CodeBlock.cs:150-161 | Without tabs, the expansion is the text itself. |
| CodeBlockProperties.ExpandTabsNoTabs | src/Pixeval/CommunityToolkit/Markdown/Parsers/Markdown/Blocks/CodeBlock.cs:148-161 | A line without tabs is appended unchanged. |
| CodeBlockProperties.SegmentClean | src/Pixeval/CommunityToolkit/Markdown/Parsers/Markdown/Blocks/CodeBlock.cs:145-161 | What a line appends holds no CR, LF or tab. |
| CodeBlockProperties.InterleaveSnoc | src/Pixeval/CommunityToolkit/Markdown/Parsers/Markdown/Blocks/CodeBlock.cs:136-143 | The front-built reference join, extended at the back, writes one separator before the new segment. |
| CodeBlockProperties.JoinIsInterleave | src/Pixeval/CommunityToolkit/Markdown/Parsers/Markdown/Blocks/CodeBlock.cs:136-143 | The join built by `AppendLine` before every line after the first equals the reference join: the first segment, then a separator and a segment for each further one. |
| CodeBlockProperties.InsideContent | src/Pixeval/CommunityToolkit/Markdown/Parsers/Markdown/Blocks/CodeBlock.cs:57-72 | Inside a fence, a line's text starts within the line, after its leading backticks. |
| CodeBlockProperties.OutsideFence | src/Pixeval/CommunityToolkit/Markdown/Parsers/Markdown/Blocks/CodeBlock.cs:74-92 | Outside a fence, a fence line opens one, and the segment it appends is empty. |
| CodeBlockProperties.FirstFenceSpec | src/Pixeval/CommunityToolkit/Markdown/Parsers/Markdown/Blocks/CodeBlock.cs:74-82 | `FirstFence` is the first fence line at or after i: no line before it is a fence. |
| CodeBlockProperties.InsideScan | src/Pixeval/CommunityToolkit/Markdown/Parsers/Markdown/Blocks/CodeBlock.cs:54-166 | Inside a fence, the scan takes exactly the lines up to the next fence line. Each line counts from after its leading backticks, as the reference `InsideSegments` lists. No language is collected, and the closing line is consumed when present. |
| CodeBlockProperties.FirstStop | src/Pixeval/CommunityToolkit/Markdown/Parsers/Markdown/Blocks/CodeBlock.cs:95-133 | The first stop, if any line remains, is a fence line or a rejected line. |
| CodeBlockProperties.FirstStopSpec | src/Pixeval/CommunityToolkit/Markdown/Parsers/Markdown/Blocks/CodeBlock.cs:95-133 | Every line before the first stop is accepted and is not a fence line. |
| CodeBlockProperties.IndentedPrefix | src/Pixeval/CommunityToolkit/Markdown/Parsers/Markdown/Blocks/CodeBlock.cs:95-165 | Outside a fence, the scan is the reference `IndentedSegments` of the lines before the first stop, followed by the scan from the stop. |
| CodeBlockProperties.OutsideEnds | src/Pixeval/CommunityToolkit/Markdown/Parsers/Markdown/Blocks/CodeBlock.cs:123-131 | When the first stop is a rejected line or the end of the lines, the scan is exactly the indented (or blank) lines before it, with no language. |
| CodeBlockProperties.OutsideOpenStep | src/Pixeval/CommunityToolkit/Markdown/Parsers/Markdown/Blocks/CodeBlock.cs:74-92 | A fence line outside a fence is a stop. It adds an empty segment and its rest of line as language, and the scan continues inside the fence. |
| CodeBlockProperties.OutsideAcceptStep | src/Pixeval/CommunityToolkit/Markdown/Parsers/Markdown/Blocks/CodeBlock.cs:95-165 | An accepted non-fence line outside a fence adds the same segment to the scan and to the reference, and does not move the first stop. |
| CodeBlockProperties.IndentUnits | src/Pixeval/CommunityToolkit/Markdown/Parsers/Markdown/Blocks/CodeBlock.cs:104-123 | The capped count reaches 4 units exactly when the full width of the leading spaces and tabs does. |
| CodeBlockProperties.RejectIff | src/Pixeval/CommunityToolkit/Markdown/Parsers/Markdown/Blocks/CodeBlock.cs:95-133 | Outside a fence, a line is rejected exactly when it is not blank, is not a fence line, and after its leading backticks neither starts with a tab nor has leading whitespace worth 4 units. |
| CodeBlockProperties.IndentRemoved | src/Pixeval/CommunityToolkit/Markdown/Parsers/Markdown/Blocks/CodeBlock.cs:95-148 | Outside a fence, an accepted line that is not a fence line keeps its text from just after a leading tab. Otherwise the indentation removed is all spaces and tabs, is worth at least 4 units on a non-blank line, and loses that once its last character is dropped. So it is the shortest such run, not all leading whitespace. |
| CodeBlockProperties.NoMatchIff | src/Pixeval/CommunityToolkit/Markdown/Parsers/Markdown/Blocks/CodeBlock.cs:168-173 | Parse returns null exactly when there are no lines or the first line is rejected, and then `actualEnd == start`. |
| CodeBlockProperties.ActualEndBounds | src/Pixeval/CommunityToolkit/Markdown/Parsers/Markdown/Blocks/CodeBlock.cs:164-173 | `start <= actualEnd <= maxEnd`. On success, actualEnd is at or after the end of every consumed line and at or before the start of the first line not consumed. |
| CodeBlockProperties.FencedScan | src/Pixeval/CommunityToolkit/Markdown/Parsers/Markdown/Blocks/CodeBlock.cs:57-92 | A block opening with a fence scans an empty segment, then the lines up to the closing fence. The language is the rest of the opening line, and the closing line is consumed. |
| CodeBlockProperties.FencedBlock | src/Pixeval/CommunityToolkit/Markdown/Parsers/Markdown/Blocks/CodeBlock.cs:74-180 | For a fenced block, the text is the trimmed join of the empty opening segment and the fenced lines. The language comes from the opening line. `actualEnd` is past the closing fence, or past the last line when there is none. |
| CodeBlockProperties.MixedScan | src/Pixeval/CommunityToolkit/Markdown/Parsers/Markdown/Blocks/CodeBlock.cs:74-165 | When the first stop outside a fence is a fence line, the scan holds the indented or blank lines before it, then an empty segment for that fence line, then the lines up to the closing fence. The language text is that fence line's rest of line, and the closing fence line is consumed. |
| CodeBlockProperties.MixedBlock | src/Pixeval/CommunityToolkit/Markdown/Parsers/Markdown/Blocks/CodeBlock.cs:74-180 | When indented or blank lines come before the first fence line, they and the fenced lines form one block. The text is the trimmed join of the indented segments, the empty segment of the fence line and the fenced lines. The language comes from that fence line. `actualEnd` is past the closing fence, or past the last line when there is none. |
| CodeBlockProperties.LoneFence | src/Pixeval/CommunityToolkit/Markdown/Parsers/Markdown/Blocks/CodeBlock.cs:136-143 | A lone opening fence is a block with empty text, not null. |
| CodeBlockProperties.IndentedBlock | src/Pixeval/CommunityToolkit/Markdown/Parsers/Markdown/Blocks/CodeBlock.cs:95-180 | Without a fence before the first stop, the block is the trimmed join of the accepted lines before the stop, with no language, ending after the last of them. It is null exactly when the first line is the stop. |
| CodeBlockProperties.LanguageFromOpeningFence | src/Pixeval/CommunityToolkit/Markdown/Parsers/Markdown/Blocks/CodeBlock.cs:84-90 | The language comes only from the rest of the opening fence line, through `CodeLanguage`. It is null when the block opens no fence. |
| CodeBlockProperties.ScanSegmentsClean | src/Pixeval/CommunityToolkit/Markdown/Parsers/Markdown/Blocks/CodeBlock.cs:145-161 | No segment of a scan holds CR, LF or tab. |
| CodeBlockProperties.JoinNoTab | src/Pixeval/CommunityToolkit/Markdown/Parsers/Markdown/Blocks/CodeBlock.cs:142-161 | Joining tab-free segments with a CR/LF separator gives text without tabs. |
| CodeBlockProperties.TextHasNoTab | src/Pixeval/CommunityToolkit/Markdown/Parsers/Markdown/Blocks/CodeBlock.cs:148-178 | The text of a parsed block holds no tab, since every tab has been expanded into spaces. |
| CodeBlockProperties.ParsedText | src/Pixeval/CommunityToolkit/Markdown/Parsers/Markdown/Blocks/CodeBlock.cs:176-190 | `ToString` returns `Text`. `Text` is the reference join of the segments with the CR/LF at both ends dropped, so it neither starts nor ends with CR or LF. |

## Left out

- `Helpers.Common.ParseLines` is not part of this model: its descriptors are an input (`lines`), and `ValidLines` states what the parser assumes about them (the bounds, the ordering, no CR/LF inside a line, a line ending at CR/LF or maxEnd). The model takes `LineInfo.isLineBlank` as given, not tied to the line's content, and every lemma holds whatever its value. `quoteDepth` only feeds that splitter and therefore does not appear.
- `Environment.NewLine` is a parameter, `newline`. `TextHasNoTab` assumes it is a non-empty run of CR/LF characters (`IsLineSeparator`); `Parse` itself assumes nothing about it.
- `StringBuilder` is modelled as a string value (`Option<string>`, with `None` for the null builder); its capacity and in-place growth are not modelled.
- Strings are sequences of Dafny `char`, and a Dafny `char` is a Unicode scalar value, not a UTF-16 code unit. The model reads its input as one `char` per UTF-16 code unit of the .NET string, with each surrogate half of a character outside the Basic Multilingual Plane written as a stand-in `char` that is not a space, tab, backtick, CR, LF or white space. Read that way, `Parse` takes every decision that .NET takes.
- CodeBlockSpec.ExpandTabs: when a character outside the Basic Multilingual Plane is written as a single `char`, tab stops later on the same line differ from .NET. The tab stop at CodeBlock.cs:155 counts columns in UTF-16 units, where that character takes two. For the line text U+1F600, tab, `x`, .NET pads the tab with 2 spaces and `ExpandTabs` pads it with 3.
- `Char.IsWhiteSpace` is written out as its set of characters.
- `CodeBlock` is a value with `Text` and `CodeLanguage`; the settable properties of the C# class and the rest of the block-type hierarchy (`MarkdownBlock`, the other block parsers, inline parsing) are not modelled.
- CodeBlockSpec.CodeBlock.ToString: carries no contract of its own; `ParsedText` states that it returns `Text`.
