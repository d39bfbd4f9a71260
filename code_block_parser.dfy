/** CodeBlock.Parse: the line-by-line scanner, with its mutable locals, its
    nested loops and its early exits, proved to compute `ParseResult`. */
module CodeBlockParser {
  import opened Strings
  import opened MarkdownLines
  import opened CodeBlockSpec

  /** Joining one more segment appends a separator and that segment. */
  lemma JoinSnoc(done: seq<string>, segment: string, newline: string)
    ensures Join(done + [segment], newline) == if done == [] then segment else Join(done, newline) + newline + segment
  {
    JoinFirstAppend(done, [segment], |done|, newline);
  }

  /** The first n segments are joined the same way whatever follows them. */
  lemma {:induction false} JoinFirstAppend(s: seq<string>, t: seq<string>, n: nat, newline: string)
    requires n <= |s|
    ensures JoinFirst(s + t, n, newline) == JoinFirst(s, n, newline)
  {
    if n > 0 {
      assert (s + t)[n - 1] == s[n - 1];
      JoinFirstAppend(s, t, n - 1, newline);
    }
  }

  /** The loop invariant of Parse, for the scan `whole` of all the lines:
      lines[..i] have been accepted and gave the segments `done`, the fence is
      open or not as `inside` says, `language` and `code` hold what those lines
      contributed, and the scan of the remaining lines supplies the rest of
      `whole`. */
  ghost predicate Progress(markdown: string, maxEnd: int, lines: seq<LineInfo>, newline: string, whole: Scan,
                           i: nat, done: seq<string>, inside: bool, language: string, code: Option<string>)
    requires forall j :: 0 <= j < |lines| ==> LineWithin(markdown, maxEnd, lines[j])
  {
    var rest := ScanFrom(markdown, maxEnd, lines, i, inside);
    i == |done| <= |lines| &&
    whole == Scan(done + rest.segments, language + rest.tag, i + rest.consumed) &&
    (!inside ==> language == []) &&
    code == if done == [] then None else Some(Join(done, newline))
  }

  /** The state after the loop: `consumed` lines were taken (a closing fence
      line is taken but adds no segment), and `whole` is fully accounted for. */
  ghost predicate Finished(lines: seq<LineInfo>, newline: string, whole: Scan,
                           language: string, code: Option<string>, consumed: nat)
  {
    whole.tag == language && whole.consumed == consumed && consumed <= |lines| &&
    code == if whole.segments == [] then None else Some(Join(whole.segments, newline))
  }

  /** Nothing is accepted before the first line. */
  lemma StartProgress(markdown: string, maxEnd: int, lines: seq<LineInfo>, newline: string)
    requires forall j :: 0 <= j < |lines| ==> LineWithin(markdown, maxEnd, lines[j])
    ensures Progress(markdown, maxEnd, lines, newline, ScanFrom(markdown, maxEnd, lines, 0, false), 0, [], false, [], None)
  {
    var whole := ScanFrom(markdown, maxEnd, lines, 0, false);
    assert [] + whole.segments == whole.segments;
    assert [] + whole.tag == whole.tag;
  }

  /** Accepting line i appends its segment to the code and its language text
      to the language, and the scan goes on with the next line. */
  lemma StepAccept(markdown: string, maxEnd: int, lines: seq<LineInfo>, newline: string, whole: Scan,
                   i: nat, done: seq<string>, inside: bool, language: string, code: Option<string>,
                   a: Action, nowInside: bool, newLanguage: string, buffer: string)
    requires forall j :: 0 <= j < |lines| ==> LineWithin(markdown, maxEnd, lines[j])
    requires Progress(markdown, maxEnd, lines, newline, whole, i, done, inside, language, code)
    requires i < |lines| && Classify(markdown, maxEnd, lines[i], inside) == a && a.Accept?
    requires nowInside == (inside || a.opensFence)
    requires newLanguage == language + LineTag(markdown, maxEnd, lines[i], a)
    requires buffer == (if code.None? then [] else code.value + newline) + Segment(markdown, lines[i], a.contentStart)
    ensures Progress(markdown, maxEnd, lines, newline, whole, i + 1,
                     done + [Segment(markdown, lines[i], a.contentStart)], nowInside, newLanguage, Some(buffer))
  {
    var rest := ScanFrom(markdown, maxEnd, lines, i + 1, nowInside);
    var segment := Segment(markdown, lines[i], a.contentStart);
    var tag := LineTag(markdown, maxEnd, lines[i], a);
    assert ScanFrom(markdown, maxEnd, lines, i, inside) == Scan([segment] + rest.segments, tag + rest.tag, 1 + rest.consumed);
    AppendAssoc(done, [segment], rest.segments);
    AppendAssoc(language, tag, rest.tag);
    JoinSnoc(done, segment, newline);
    if done == [] {
      assert buffer == [] + segment == segment;
    }
  }

  /** A line that is not accepted ends the scan: a closing fence line is
      taken, a rejected line is not. */
  lemma StopAt(markdown: string, maxEnd: int, lines: seq<LineInfo>, newline: string, whole: Scan,
               i: nat, done: seq<string>, inside: bool, language: string, code: Option<string>)
    requires forall j :: 0 <= j < |lines| ==> LineWithin(markdown, maxEnd, lines[j])
    requires Progress(markdown, maxEnd, lines, newline, whole, i, done, inside, language, code)
    requires i < |lines| && !Classify(markdown, maxEnd, lines[i], inside).Accept?
    ensures Finished(lines, newline, whole, language, code,
                     if Classify(markdown, maxEnd, lines[i], inside).Close? then i + 1 else i)
  {
    assert ScanFrom(markdown, maxEnd, lines, i, inside) == ScanLine(markdown, maxEnd, lines, i, inside);
    assert done + [] == done;
    assert language + [] == language;
  }

  /** Running out of lines ends the scan with every line taken. */
  lemma EndOfLines(markdown: string, maxEnd: int, lines: seq<LineInfo>, newline: string, whole: Scan,
                   done: seq<string>, inside: bool, language: string, code: Option<string>)
    requires forall j :: 0 <= j < |lines| ==> LineWithin(markdown, maxEnd, lines[j])
    requires Progress(markdown, maxEnd, lines, newline, whole, |lines|, done, inside, language, code)
    ensures Finished(lines, newline, whole, language, code, |lines|)
  {
    assert done + [] == done;
    assert language + [] == language;
  }

  /** The finished scan of all the lines is what ParseResult describes. */
  lemma Finish(markdown: string, start: int, maxEnd: int, lines: seq<LineInfo>, newline: string,
               language: string, code: Option<string>, consumed: nat)
    requires ValidLines(markdown, start, maxEnd, lines)
    requires Finished(lines, newline, ScanFrom(markdown, maxEnd, lines, 0, false), language, code, consumed)
    ensures code.Some? ==> 0 < consumed <= |lines|
    ensures ParseResult(markdown, start, maxEnd, lines, newline) ==
      if code.None? then Parsed(None, start)
      else Parsed(Some(CodeBlock(Trim(code.value, NewlineChars), CodeLanguage(language))),
                  lines[consumed - 1].startOfNextLine)
  {
  }

  /** A line starting with three backticks closes an open fence or opens one. */
  lemma ClassifyFence(markdown: string, maxEnd: int, line: LineInfo, inside: bool)
    requires LineWithin(markdown, maxEnd, line)
    requires TickCount(markdown, maxEnd, line.startOfLine, 3) == 3
    ensures line.startOfLine + 3 <= line.endOfLine
    ensures Classify(markdown, maxEnd, line, inside) == if inside then Close else Accept(line.endOfLine, true)
    ensures FenceTag(markdown, maxEnd, line) == markdown[line.startOfLine + 3..line.endOfLine]
  {
    TicksStayInLine(markdown, maxEnd, line);
  }

  /** The backtick loop: counts at most three backticks from `from`. */
  method CountBackTicks(markdown: string, maxEnd: int, from: int) returns (backTickCount: nat, pos: int)
    requires 0 <= from && maxEnd <= |markdown|
    ensures backTickCount == TickCount(markdown, maxEnd, from, 3)
    ensures pos == from + backTickCount
  {
    backTickCount, pos := 0, from;
    while pos < maxEnd && backTickCount < 3
      invariant backTickCount <= 3
      invariant pos == from + backTickCount
      invariant TickCount(markdown, maxEnd, from, 3) == backTickCount + TickCount(markdown, maxEnd, pos, 3 - backTickCount)
    {
      if markdown[pos] == '`' {
        backTickCount := backTickCount + 1;
      } else {
        break;
      }
      pos := pos + 1;
    }
  }

  /** The language loop: appends markdown[from..to] to `codeLanguage` one character at a time. */
  method CollectLanguage(markdown: string, from: int, to: int, codeLanguage: string) returns (language: string)
    requires 0 <= from <= to <= |markdown|
    ensures language == codeLanguage + markdown[from..to]
  {
    language := codeLanguage;
    var pos := from;
    while pos < to
      invariant from <= pos <= to
      invariant language == codeLanguage + markdown[from..pos]
    {
      language := language + [markdown[pos]];
      pos := pos + 1;
    }
  }

  /** The indentation loop: counts space units from `from` until 4 are reached. */
  method CountIndent(markdown: string, maxEnd: int, from: int) returns (spaceCount: nat, pos: int)
    requires 0 <= from && maxEnd <= |markdown|
    ensures Indent(pos, spaceCount) == IndentScan(markdown, maxEnd, from, 0)
  {
    spaceCount, pos := 0, from;
    while pos < maxEnd && spaceCount < 4
      invariant from <= pos
      invariant IndentScan(markdown, maxEnd, from, 0) == IndentScan(markdown, maxEnd, pos, spaceCount)
    {
      if markdown[pos] == ' ' {
        spaceCount := spaceCount + 1;
      } else if markdown[pos] == '\t' {
        spaceCount := spaceCount + 4;
      } else {
        break;
      }
      pos := pos + 1;
    }
  }

  /** The append loop: writes `lineText` after `code`, turning each tab into
      spaces up to the next 4-column stop counted from the start of the line. */
  method AppendExpanded(code: string, lineText: string) returns (result: string)
    ensures result == code + ExpandTabs(lineText)
  {
    result := code;
    var startOfLinePos := |code|;
    for i := 0 to |lineText|
      invariant result == code + ExpandPrefix(lineText, i)
    {
      var c := lineText[i];
      if c == '\t' {
        result := result + Spaces(4 - (|result| - startOfLinePos) % 4);
      } else {
        result := result + [c];
      }
    }
  }

  /** The start of a line (CodeBlock.cs:56-93): three backticks toggle the
      fence; an opening fence hands the rest of its line to the language, a
      closing fence ends the scan (`closes`). Otherwise `pos` is left after
      the backticks, if any. */
  method ScanLineStart(markdown: string, maxEnd: int, lineInfo: LineInfo, insideCodeBlock: bool, codeLanguage: string)
    returns (pos: int, nowInside: bool, language: string, closes: bool)
    requires LineWithin(markdown, maxEnd, lineInfo)
    ensures closes <==> Classify(markdown, maxEnd, lineInfo, insideCodeBlock).Close?
    ensures closes ==> language == codeLanguage
    ensures !closes ==> lineInfo.startOfLine <= pos <= lineInfo.endOfLine
    ensures !closes && nowInside ==>
      var a := Classify(markdown, maxEnd, lineInfo, insideCodeBlock);
      a.Accept? && a.contentStart == pos && nowInside == (insideCodeBlock || a.opensFence) &&
      language == codeLanguage + LineTag(markdown, maxEnd, lineInfo, a)
    ensures !closes && !nowInside ==>
      !insideCodeBlock && language == codeLanguage &&
      Classify(markdown, maxEnd, lineInfo, insideCodeBlock) == OutsideAction(markdown, maxEnd, lineInfo, pos)
  {
    TicksStayInLine(markdown, maxEnd, lineInfo);
    pos, nowInside, language, closes := lineInfo.startOfLine, insideCodeBlock, codeLanguage, false;
    if pos < maxEnd && markdown[pos] == '`' {
      var backTickCount;
      backTickCount, pos := CountBackTicks(markdown, maxEnd, pos);
      if backTickCount == 3 {
        ClassifyFence(markdown, maxEnd, lineInfo, insideCodeBlock);
        nowInside := !nowInside;
        if !nowInside {
          closes := true;
        } else {
          // The language follows the opening backticks.
          language := CollectLanguage(markdown, pos, lineInfo.endOfLine, language);
          pos := lineInfo.endOfLine;
        }
      }
    }
  }

  /** The indentation test outside a fence (CodeBlock.cs:95-133): a leading
      tab, or 4 space units, is skipped; `indented` says whether either was
      found. A line that is neither indented nor blank is the one the scan
      stops before. */
  method ScanIndentation(markdown: string, maxEnd: int, lineInfo: LineInfo, from: int)
    returns (pos: int, indented: bool)
    requires LineWithin(markdown, maxEnd, lineInfo)
    requires lineInfo.startOfLine <= from <= lineInfo.endOfLine
    ensures lineInfo.startOfLine <= pos <= lineInfo.endOfLine
    ensures OutsideAction(markdown, maxEnd, lineInfo, from) ==
      if !indented && !lineInfo.isLineBlank then Reject else Accept(pos, false)
  {
    pos := from;
    if pos < maxEnd && markdown[pos] == '\t' {
      pos, indented := pos + 1, true;
    } else {
      var spaceCount;
      spaceCount, pos := CountIndent(markdown, maxEnd, pos);
      IndentStaysInLine(markdown, maxEnd, lineInfo, from);
      indented := spaceCount >= 4;
    }
  }

  /** Appending a line (CodeBlock.cs:135-162): a separator first unless this is
      the first line, then, unless the line is blank, the rest of the line
      from `pos` with its tabs expanded. */
  method AppendCodeLine(code: Option<string>, newline: string, markdown: string, lineInfo: LineInfo, pos: int)
    returns (buffer: string)
    requires 0 <= lineInfo.startOfLine <= pos <= lineInfo.endOfLine <= |markdown|
    ensures buffer == (if code.None? then [] else code.value + newline) + Segment(markdown, lineInfo, pos)
  {
    if code.None? {
      buffer := [];
    } else {
      buffer := code.value + newline;
    }
    if !lineInfo.isLineBlank {
      buffer := AppendExpanded(buffer, markdown[pos..lineInfo.endOfLine]);
    } else {
      assert buffer + [] == buffer;
    }
  }

  /** One pass of the loop body (CodeBlock.cs:56-165) on lines[i]: `closes`
      when it is a closing fence, `rejected` when the scan stops before it,
      otherwise the fence state, the language and the code after it. */
  method ParseLine(markdown: string, maxEnd: int, lineInfo: LineInfo, newline: string,
                   insideCodeBlock: bool, codeLanguage: string, code: Option<string>,
                   ghost lines: seq<LineInfo>, ghost i: nat, ghost done: seq<string>, ghost whole: Scan)
    returns (closes: bool, rejected: bool, nowInside: bool, language: string, buffer: string,
             ghost accepted: seq<string>, ghost consumed: nat)
    requires forall j :: 0 <= j < |lines| ==> LineWithin(markdown, maxEnd, lines[j])
    requires i < |lines| && lines[i] == lineInfo
    requires Progress(markdown, maxEnd, lines, newline, whole, i, done, insideCodeBlock, codeLanguage, code)
    ensures closes || rejected ==>
      Finished(lines, newline, whole, language, code, consumed) && consumed == if closes then i + 1 else i
    ensures !closes && !rejected ==>
      Progress(markdown, maxEnd, lines, newline, whole, i + 1, accepted, nowInside, language, Some(buffer))
  {
    ghost var action := Classify(markdown, maxEnd, lineInfo, insideCodeBlock);
    var pos;
    pos, nowInside, language, closes := ScanLineStart(markdown, maxEnd, lineInfo, insideCodeBlock, codeLanguage);
    rejected := false;
    buffer := [];
    accepted := done;
    consumed := i + 1;
    if closes {
      StopAt(markdown, maxEnd, lines, newline, whole, i, done, insideCodeBlock, codeLanguage, code);
      return;
    }

    if !nowInside {
      var indented;
      pos, indented := ScanIndentation(markdown, maxEnd, lineInfo, pos);
      if !indented && !lineInfo.isLineBlank {
        StopAt(markdown, maxEnd, lines, newline, whole, i, done, insideCodeBlock, codeLanguage, code);
        rejected := true;
        consumed := i;
        return;
      }
      assert codeLanguage + [] == codeLanguage;
    }

    buffer := AppendCodeLine(code, newline, markdown, lineInfo, pos);
    StepAccept(markdown, maxEnd, lines, newline, whole, i, done, insideCodeBlock, codeLanguage, code,
               action, nowInside, language, buffer);
    accepted := done + [Segment(markdown, lineInfo, pos)];
  }

  /** The line loop of Parse: reads lines until a closing fence, a rejected
      line or the end of the lines. */
  method ScanLines(markdown: string, start: int, maxEnd: int, lines: seq<LineInfo>, newline: string)
    returns (code: Option<string>, codeLanguage: string, actualEnd: int, ghost consumed: nat)
    requires forall k :: 0 <= k < |lines| ==> LineWithin(markdown, maxEnd, lines[k])
    ensures Finished(lines, newline, ScanFrom(markdown, maxEnd, lines, 0, false), codeLanguage, code, consumed)
    ensures actualEnd == if consumed == 0 then start else lines[consumed - 1].startOfNextLine
  {
    code := None;
    actualEnd := start;
    var insideCodeBlock := false;
    codeLanguage := [];

    ghost var whole := ScanFrom(markdown, maxEnd, lines, 0, false);
    ghost var done: seq<string> := [];
    StartProgress(markdown, maxEnd, lines, newline);

    var i := 0;
    while i < |lines|
      invariant i <= |lines|
      invariant Progress(markdown, maxEnd, lines, newline, whole, i, done, insideCodeBlock, codeLanguage, code)
      invariant actualEnd == if i == 0 then start else lines[i - 1].startOfNextLine
    {
      var lineInfo := lines[i];
      var closes, rejected, buffer;
      closes, rejected, insideCodeBlock, codeLanguage, buffer, done, consumed :=
        ParseLine(markdown, maxEnd, lineInfo, newline, insideCodeBlock, codeLanguage, code, lines, i, done, whole);
      if closes {
        // The closing fence ends the block; its line is consumed but adds nothing.
        actualEnd := lineInfo.startOfNextLine;
        return;
      }
      if rejected {
        // Neither a tab nor 4 spaces, and not blank: the block ends before this line.
        return;
      }
      code := Some(buffer);
      actualEnd := lineInfo.startOfNextLine;
      i := i + 1;
    }
    EndOfLines(markdown, maxEnd, lines, newline, whole, done, insideCodeBlock, codeLanguage, code);
    consumed := i;
  }

  /** Parses a code block from the region markdown[start..maxEnd], whose lines
      are `lines`; `newline` is the separator written between lines. Returns
      the block, or None with actualEnd == start when the region does not
      begin with a code block. */
  method Parse(markdown: string, start: int, maxEnd: int, lines: seq<LineInfo>, newline: string)
    returns (block: Option<CodeBlock>, actualEnd: int)
    requires ValidLines(markdown, start, maxEnd, lines)
    ensures Parsed(block, actualEnd) == ParseResult(markdown, start, maxEnd, lines, newline)
  {
    var code, codeLanguage;
    ghost var consumed;
    code, codeLanguage, actualEnd, consumed := ScanLines(markdown, start, maxEnd, lines, newline);
    Finish(markdown, start, maxEnd, lines, newline, codeLanguage, code, consumed);

    if code.None? {
      // Not a code block.
      actualEnd := start;
      return None, actualEnd;
    }

    // Blank lines are trimmed from the start and the end.
    block := Some(CodeBlock(Trim(code.value, NewlineChars), CodeLanguage(codeLanguage)));
  }
}
