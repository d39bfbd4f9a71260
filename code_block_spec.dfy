/** The meaning of CodeBlock.Parse as functions over the markdown text and the
    line descriptors: what each line does (`Classify`), which lines a scan
    takes (`ScanFrom`), and the block it yields (`ParseResult`). The imperative
    parser in CodeBlockParser is proved to compute `ParseResult`. */
module CodeBlockSpec {
  import opened Strings
  import opened MarkdownLines

  /** A parsed code block: its body and the optional language after the fence. */
  datatype CodeBlock = CodeBlock(text: string, codeLanguage: Option<string>)
  {
    /** The textual representation of a code block is its text. */
    function ToString(): string {
      text
    }
  }

  /** The pair Parse hands back: the block (None for null) and `actualEnd`. */
  datatype Parsed = Parsed(block: Option<CodeBlock>, actualEnd: int)

  // ---------------------------------------------------------------------------
  // Scanning the start of a line
  // ---------------------------------------------------------------------------

  /** The backticks counted at `pos`: at most `cap` of them, in one run, before maxEnd. */
  function TickCount(markdown: string, maxEnd: int, pos: int, cap: nat): (n: nat)
    requires 0 <= pos && maxEnd <= |markdown|
    ensures n <= cap
    ensures n > 0 ==> pos + n <= maxEnd
    ensures n < cap && pos + n < maxEnd ==> markdown[pos + n] != '`'
    decreases cap
  {
    if cap == 0 || pos >= maxEnd || markdown[pos] != '`' then 0
    else 1 + TickCount(markdown, maxEnd, pos + 1, cap - 1)
  }

  /** Where the indentation scan stops and how many space units it counted. */
  datatype Indent = Indent(pos: int, units: nat)

  /** The indentation scan: a space counts 1 unit and a tab 4, and the scan stops
      once 4 units are reached, at another character, or at maxEnd. */
  function IndentScan(markdown: string, maxEnd: int, pos: int, units: nat): (r: Indent)
    requires 0 <= pos && maxEnd <= |markdown|
    ensures pos <= r.pos && units <= r.units
    ensures r.pos == pos || r.pos <= maxEnd
    ensures r.units < 4 && r.pos < maxEnd ==> markdown[r.pos] != ' ' && markdown[r.pos] != '\t'
    decreases maxEnd - pos
  {
    if pos >= maxEnd || units >= 4 then Indent(pos, units)
    else if markdown[pos] == ' ' then IndentScan(markdown, maxEnd, pos + 1, units + 1)
    else if markdown[pos] == '\t' then IndentScan(markdown, maxEnd, pos + 1, units + 4)
    else Indent(pos, units)
  }

  /** Every character the backtick count covers is a backtick. */
  lemma {:induction false} TickCountCovers(markdown: string, maxEnd: int, pos: int, cap: nat)
    requires 0 <= pos && maxEnd <= |markdown|
    ensures forall k :: pos <= k < pos + TickCount(markdown, maxEnd, pos, cap) ==> markdown[k] == '`'
    decreases cap
  {
    if cap > 0 && pos < maxEnd && markdown[pos] == '`' {
      TickCountCovers(markdown, maxEnd, pos + 1, cap - 1);
    }
  }

  /** Every character the indentation scan passes is a space or a tab. */
  lemma {:induction false} IndentScanCovers(markdown: string, maxEnd: int, pos: int, units: nat)
    requires 0 <= pos && maxEnd <= |markdown|
    ensures forall k :: pos <= k < IndentScan(markdown, maxEnd, pos, units).pos ==>
      markdown[k] == ' ' || markdown[k] == '\t'
    decreases maxEnd - pos
  {
    if pos < maxEnd && units < 4 {
      if markdown[pos] == ' ' {
        IndentScanCovers(markdown, maxEnd, pos + 1, units + 1);
      } else if markdown[pos] == '\t' {
        IndentScanCovers(markdown, maxEnd, pos + 1, units + 4);
      }
    }
  }

  /** The space units a run of indentation is worth: 1 per space, 4 per tab. */
  function Width(s: string): nat
  {
    if s == [] then 0
    else (if s[0] == '\t' then 4 else if s[0] == ' ' then 1 else 0) + Width(s[1..])
  }

  /** How much indentation the scan strips: it passes only spaces and tabs,
      counts exactly their width, and stops as soon as the count reaches 4
      (the character that reaches it is the last one passed). */
  lemma {:induction false} IndentStrip(markdown: string, maxEnd: int, pos: int, units: nat)
    requires 0 <= pos <= maxEnd <= |markdown|
    ensures var r := IndentScan(markdown, maxEnd, pos, units);
      pos <= r.pos <= maxEnd &&
      (forall k :: pos <= k < r.pos ==> markdown[k] == ' ' || markdown[k] == '\t') &&
      r.units == units + Width(markdown[pos..r.pos]) &&
      (r.pos > pos ==> units + Width(markdown[pos..r.pos - 1]) < 4)
    decreases maxEnd - pos
  {
    var r := IndentScan(markdown, maxEnd, pos, units);
    if pos < maxEnd && units < 4 && (markdown[pos] == ' ' || markdown[pos] == '\t') {
      var step := if markdown[pos] == ' ' then 1 else 4;
      IndentStrip(markdown, maxEnd, pos + 1, units + step);
      assert markdown[pos..r.pos][1..] == markdown[pos + 1..r.pos];
      if r.pos > pos + 1 {
        assert markdown[pos..r.pos - 1][1..] == markdown[pos + 1..r.pos - 1];
      }
    }
  }

  /** The full width of the run of spaces and tabs at `pos` (no cap): a
      reference for what the capped scan decides. */
  function LeadingWidth(markdown: string, maxEnd: int, pos: int): nat
    requires 0 <= pos && maxEnd <= |markdown|
    decreases maxEnd - pos
  {
    if pos >= maxEnd then 0
    else if markdown[pos] == ' ' then 1 + LeadingWidth(markdown, maxEnd, pos + 1)
    else if markdown[pos] == '\t' then 4 + LeadingWidth(markdown, maxEnd, pos + 1)
    else 0
  }

  /** The backtick run at the start of a line never passes the line's end. */
  lemma TicksStayInLine(markdown: string, maxEnd: int, line: LineInfo)
    requires LineWithin(markdown, maxEnd, line)
    ensures line.startOfLine + TickCount(markdown, maxEnd, line.startOfLine, 3) <= line.endOfLine
  {
    TickCountCovers(markdown, maxEnd, line.startOfLine, 3);
  }

  /** The indentation scan, started inside a line, never passes the line's end. */
  lemma IndentStaysInLine(markdown: string, maxEnd: int, line: LineInfo, pos: int)
    requires LineWithin(markdown, maxEnd, line)
    requires line.startOfLine <= pos <= line.endOfLine
    ensures IndentScan(markdown, maxEnd, pos, 0).pos <= line.endOfLine
  {
    IndentScanCovers(markdown, maxEnd, pos, 0);
  }

  // ---------------------------------------------------------------------------
  // The text a line adds to the block
  // ---------------------------------------------------------------------------

  /** `n` spaces, as StringBuilder.Append(' ', n) writes them. */
  function Spaces(n: nat): string {
    seq(n, _ => ' ')
  }

  /** Tab expansion of the first `n` characters of a line: each tab becomes
      spaces up to the next column that is a multiple of 4, counted from the
      start of the line's output. */
  function ExpandPrefix(s: string, n: nat): string
    requires n <= |s|
  {
    if n == 0 then []
    else
      var done := ExpandPrefix(s, n - 1);
      done + (if s[n - 1] == '\t' then Spaces(4 - |done| % 4) else [s[n - 1]])
  }

  /** Tab expansion of a whole line. */
  function ExpandTabs(s: string): string {
    ExpandPrefix(s, |s|)
  }

  /** What an accepted line appends after its separator: nothing for a blank
      line, otherwise the tab-expanded rest of the line from `from`. */
  function Segment(markdown: string, line: LineInfo, from: int): string
    requires 0 <= line.startOfLine <= from <= line.endOfLine <= |markdown|
  {
    if line.isLineBlank then [] else ExpandTabs(markdown[from..line.endOfLine])
  }

  // ---------------------------------------------------------------------------
  // One line of the scan
  // ---------------------------------------------------------------------------

  /** What a line does to the scan: it closes the fence (the scan stops after
      it), it is rejected (the scan stops before it), or it is accepted: its
      text from `contentStart` to the end of the line is appended, and it may
      open a fence. */
  datatype Action = Close | Reject | Accept(contentStart: int, opensFence: bool)

  /** A fence line starts with (at least) three backticks. */
  predicate IsFence(markdown: string, maxEnd: int, line: LineInfo)
    requires LineWithin(markdown, maxEnd, line)
  {
    TickCount(markdown, maxEnd, line.startOfLine, 3) == 3
  }

  /** The text after the three backticks of a fence line. */
  function FenceTag(markdown: string, maxEnd: int, line: LineInfo): string
    requires LineWithin(markdown, maxEnd, line) && IsFence(markdown, maxEnd, line)
  {
    TicksStayInLine(markdown, maxEnd, line);
    markdown[line.startOfLine + 3..line.endOfLine]
  }

  /** The decision outside a fence, once the backticks (if any) before `pos`
      are passed: a tab is skipped, otherwise up to 4 space units are; a
      line with fewer than 4 units is rejected unless it is blank. */
  function OutsideAction(markdown: string, maxEnd: int, line: LineInfo, pos: int): (r: Action)
    requires LineWithin(markdown, maxEnd, line) && line.startOfLine <= pos <= line.endOfLine
    ensures r.Reject? ==> !line.isLineBlank
    ensures r.Accept? ==> !r.opensFence && pos <= r.contentStart <= line.endOfLine
  {
    IndentStaysInLine(markdown, maxEnd, line, pos);
    if pos < maxEnd && markdown[pos] == '\t' then Accept(pos + 1, false)
    else
      var indent := IndentScan(markdown, maxEnd, pos, 0);
      if indent.units < 4 && !line.isLineBlank then Reject else Accept(indent.pos, false)
  }

  /** The decision CodeBlock.Parse takes on one line, given whether a fence is
      open. An opening fence hands the rest of its line to the language, so
      its content starts at the end of the line. */
  function Classify(markdown: string, maxEnd: int, line: LineInfo, inside: bool): (r: Action)
    requires LineWithin(markdown, maxEnd, line)
    ensures r.Close? <==> inside && IsFence(markdown, maxEnd, line)
    ensures r.Reject? ==> !inside && !line.isLineBlank
    ensures r.Accept? ==>
      line.startOfLine <= r.contentStart <= line.endOfLine &&
      (r.opensFence <==> IsFence(markdown, maxEnd, line)) &&
      (r.opensFence ==> r.contentStart == line.endOfLine)
  {
    TicksStayInLine(markdown, maxEnd, line);
    var afterTicks := line.startOfLine + TickCount(markdown, maxEnd, line.startOfLine, 3);
    if afterTicks == line.startOfLine + 3 then
      if inside then Close else Accept(line.endOfLine, true)
    else if inside then Accept(afterTicks, false)
    else OutsideAction(markdown, maxEnd, line, afterTicks)
  }

  /** The language text an accepted line contributes: the rest of an opening
      fence line, nothing for any other line. */
  function LineTag(markdown: string, maxEnd: int, line: LineInfo, a: Action): string
    requires LineWithin(markdown, maxEnd, line) && a.Accept?
    requires a.opensFence ==> IsFence(markdown, maxEnd, line)
  {
    if a.opensFence then FenceTag(markdown, maxEnd, line) else []
  }

  // ---------------------------------------------------------------------------
  // The whole scan
  // ---------------------------------------------------------------------------

  /** The outcome of scanning lines: the segments appended, the raw language
      text collected, and how many lines were consumed (a closing fence line
      is consumed but appends nothing). */
  datatype Scan = Scan(segments: seq<string>, tag: string, consumed: nat)

  /** Scans lines[i..] in order, starting inside a fence or not, until a line
      closes the fence, a line is rejected, or the lines run out. */
  function ScanFrom(markdown: string, maxEnd: int, lines: seq<LineInfo>, i: nat, inside: bool): (r: Scan)
    requires forall j :: 0 <= j < |lines| ==> LineWithin(markdown, maxEnd, lines[j])
    ensures |r.segments| <= r.consumed <= |lines| - i || (i >= |lines| && r == Scan([], [], 0))
    ensures r.consumed <= |r.segments| + 1
    decreases |lines| - i, 1
  {
    if i >= |lines| then Scan([], [], 0) else ScanLine(markdown, maxEnd, lines, i, inside)
  }

  /** Classifies line i and, when it is accepted, goes on with the next line. */
  function ScanLine(markdown: string, maxEnd: int, lines: seq<LineInfo>, i: nat, inside: bool): (r: Scan)
    requires forall j :: 0 <= j < |lines| ==> LineWithin(markdown, maxEnd, lines[j])
    requires i < |lines|
    ensures |r.segments| <= r.consumed <= |lines| - i
    ensures r.consumed <= |r.segments| + 1
    decreases |lines| - i, 0
  {
    match Classify(markdown, maxEnd, lines[i], inside)
    case Close => Scan([], [], 1)
    case Reject => Scan([], [], 0)
    case Accept(from, opens) =>
      var a := Accept(from, opens);
      var rest := ScanFrom(markdown, maxEnd, lines, i + 1, inside || opens);
      Scan([Segment(markdown, lines[i], from)] + rest.segments,
           LineTag(markdown, maxEnd, lines[i], a) + rest.tag, 1 + rest.consumed)
  }

  /** The first `n` segments joined with one separator between neighbours,
      as StringBuilder.AppendLine between the lines builds them. */
  function JoinFirst(segments: seq<string>, n: nat, newline: string): string
    requires n <= |segments|
  {
    if n == 0 then []
    else if n == 1 then segments[0]
    else JoinFirst(segments, n - 1, newline) + newline + segments[n - 1]
  }

  /** All the segments joined with one separator between neighbours. */
  function Join(segments: seq<string>, newline: string): string {
    JoinFirst(segments, |segments|, newline)
  }

  /** The language: null when the collected text is empty or white space,
      otherwise that text trimmed of white space. */
  function CodeLanguage(raw: string): Option<string> {
    if IsNullOrWhiteSpace(raw) then None else Some(Trim(raw, WhiteSpaceChars))
  }

  /** The language is null exactly for empty or white-space text; otherwise it
      is the infix of that text left when the white space at both ends is
      dropped, non-empty, and with no white space at either end. */
  lemma CodeLanguageSpec(raw: string)
    ensures CodeLanguage(raw).None? <==> IsNullOrWhiteSpace(raw)
    ensures CodeLanguage(raw).Some? ==>
      var v := CodeLanguage(raw).value;
      var i := |raw| - |TrimStart(raw, WhiteSpaceChars)|;
      v != [] && Trimmed(raw, WhiteSpaceChars, v, i)
  {
    TrimSpec(raw, WhiteSpaceChars);
  }

  /** What CodeBlock.Parse returns for the region markdown[start..maxEnd] split
      into `lines`, with `newline` as the line separator. */
  function ParseResult(markdown: string, start: int, maxEnd: int, lines: seq<LineInfo>, newline: string): Parsed
    requires ValidLines(markdown, start, maxEnd, lines)
  {
    var scan := ScanFrom(markdown, maxEnd, lines, 0, false);
    if scan.segments == [] then Parsed(None, start)
    else
      Parsed(Some(CodeBlock(Trim(Join(scan.segments, newline), NewlineChars), CodeLanguage(scan.tag))),
             lines[scan.consumed - 1].startOfNextLine)
  }
}
