/** What CodeBlock.Parse promises, stated about `ParseResult` (which the
    imperative parser is proved to compute): tab expansion, the separators,
    the fenced and the indented forms, the language, the end offset and the
    trimmed text. */
module CodeBlockProperties {
  import opened Strings
  import opened MarkdownLines
  import opened CodeBlockSpec

  // ---------------------------------------------------------------------------
  // Tab expansion
  // ---------------------------------------------------------------------------

  /** Expanding the first n characters emits at least one and at most four
      characters for each of them. */
  lemma {:induction false} ExpandPrefixLength(s: string, n: nat)
    requires n <= |s|
    ensures n <= |ExpandPrefix(s, n)| <= 4 * n
  {
    if n > 0 {
      ExpandPrefixLength(s, n - 1);
    }
  }

  /** A tab emits 1 to 4 spaces and ends on a column that is a multiple of 4,
      counted from the start of the line. */
  lemma TabStop(s: string, m: nat)
    requires 0 < m <= |s| && s[m - 1] == '\t'
    ensures |ExpandPrefix(s, m)| % 4 == 0
    ensures |ExpandPrefix(s, m - 1)| < |ExpandPrefix(s, m)| <= |ExpandPrefix(s, m - 1)| + 4
    ensures ExpandPrefix(s, m)[|ExpandPrefix(s, m - 1)|..] == Spaces(|ExpandPrefix(s, m)| - |ExpandPrefix(s, m - 1)|)
  {
    var done := ExpandPrefix(s, m - 1);
    assert ExpandPrefix(s, m) == done + Spaces(4 - |done| % 4);
  }

  /** Expansion leaves no tab, and every character it emits is a space or a
      character of the line. */
  lemma {:induction false} ExpandPrefixChars(s: string, n: nat)
    requires n <= |s|
    ensures forall c :: c in ExpandPrefix(s, n) ==> c != '\t' && (c == ' ' || c in s)
  {
    if n > 0 {
      ExpandPrefixChars(s, n - 1);
      var done := ExpandPrefix(s, n - 1);
      if s[n - 1] == '\t' {
        assert ExpandPrefix(s, n) == done + Spaces(4 - |done| % 4);
      } else {
        assert ExpandPrefix(s, n) == done + [s[n - 1]];
      }
    }
  }

  /** A line without tabs is copied unchanged. */
  lemma {:induction false} ExpandPrefixNoTabs(s: string, n: nat)
    requires n <= |s|
    requires '\t' !in s
    ensures ExpandPrefix(s, n) == s[..n]
  {
    if n > 0 {
      ExpandPrefixNoTabs(s, n - 1);
      assert s[..n] == s[..n - 1] + [s[n - 1]];
    }
  }

  /** ExpandTabs leaves a tab-free line as it is. */
  lemma ExpandTabsNoTabs(s: string)
    requires '\t' !in s
    ensures ExpandTabs(s) == s
  {
    ExpandPrefixNoTabs(s, |s|);
  }

  /** No CR, LF or tab in a piece of text. */
  predicate Clean(text: string) {
    forall c :: c in text ==> c !in NewlineChars && c != '\t'
  }

  /** A segment holds neither CR, LF nor tab: the line's own text has no CR
      or LF, and tab expansion adds only spaces. */
  lemma SegmentClean(markdown: string, maxEnd: int, line: LineInfo, from: int)
    requires LineWithin(markdown, maxEnd, line)
    requires line.startOfLine <= from <= line.endOfLine
    ensures Clean(Segment(markdown, line, from))
  {
    if !line.isLineBlank {
      var text := markdown[from..line.endOfLine];
      NoNewlineInSpec(markdown, line.startOfLine, line.endOfLine);
      ExpandPrefixChars(text, |text|);
      forall c | c in text
        ensures c !in NewlineChars
      {
        var k :| 0 <= k < |text| && text[k] == c;
        assert markdown[from + k] == c;
      }
    }
  }

  // ---------------------------------------------------------------------------
  // Separators
  // ---------------------------------------------------------------------------

  /** A reference join, built from the front: the first segment, then a
      separator and the join of the rest. */
  function Interleave(segments: seq<string>, newline: string): string
  {
    if |segments| == 0 then []
    else if |segments| == 1 then segments[0]
    else segments[0] + newline + Interleave(segments[1..], newline)
  }

  lemma {:induction false} InterleaveSnoc(segments: seq<string>, last: string, newline: string)
    requires segments != []
    ensures Interleave(segments + [last], newline) == Interleave(segments, newline) + newline + last
    decreases |segments|
  {
    if |segments| == 1 {
      assert (segments + [last])[1..] == [last];
    } else {
      assert (segments + [last])[1..] == segments[1..] + [last];
      InterleaveSnoc(segments[1..], last, newline);
    }
  }

  /** The join CodeBlock.Parse builds line by line puts exactly one separator
      between neighbouring segments and none before the first or after the
      last. */
  lemma {:induction false} JoinIsInterleave(segments: seq<string>, n: nat, newline: string)
    requires n <= |segments|
    ensures JoinFirst(segments, n, newline) == Interleave(segments[..n], newline)
  {
    if n > 1 {
      JoinIsInterleave(segments, n - 1, newline);
      assert segments[..n] == segments[..n - 1] + [segments[n - 1]];
      InterleaveSnoc(segments[..n - 1], segments[n - 1], newline);
    } else if n == 1 {
      assert segments[..1] == [segments[0]];
    }
  }

  // ---------------------------------------------------------------------------
  // Steps of the scan
  // ---------------------------------------------------------------------------

  /** An accepted line adds its segment and its language text, and the scan
      goes on with the next line. */
  lemma ScanAccepts(markdown: string, maxEnd: int, lines: seq<LineInfo>, i: nat, inside: bool)
    requires forall j :: 0 <= j < |lines| ==> LineWithin(markdown, maxEnd, lines[j])
    requires i < |lines| && Classify(markdown, maxEnd, lines[i], inside).Accept?
    ensures var a := Classify(markdown, maxEnd, lines[i], inside);
      var rest := ScanFrom(markdown, maxEnd, lines, i + 1, inside || a.opensFence);
      ScanFrom(markdown, maxEnd, lines, i, inside) ==
        Scan([Segment(markdown, lines[i], a.contentStart)] + rest.segments,
             LineTag(markdown, maxEnd, lines[i], a) + rest.tag, 1 + rest.consumed)
  {
    assert ScanFrom(markdown, maxEnd, lines, i, inside) == ScanLine(markdown, maxEnd, lines, i, inside);
  }

  /** A closing or rejected line ends the scan; only the closing line is consumed. */
  lemma ScanStops(markdown: string, maxEnd: int, lines: seq<LineInfo>, i: nat, inside: bool)
    requires forall j :: 0 <= j < |lines| ==> LineWithin(markdown, maxEnd, lines[j])
    requires i < |lines| && !Classify(markdown, maxEnd, lines[i], inside).Accept?
    ensures ScanFrom(markdown, maxEnd, lines, i, inside) ==
      Scan([], [], if Classify(markdown, maxEnd, lines[i], inside).Close? then 1 else 0)
  {
    assert ScanFrom(markdown, maxEnd, lines, i, inside) == ScanLine(markdown, maxEnd, lines, i, inside);
  }

  /** Where an accepted line's text starts inside a fence: after the one or
      two backticks the line may begin with. */
  function InsideContent(markdown: string, maxEnd: int, line: LineInfo): (c: int)
    requires LineWithin(markdown, maxEnd, line)
    ensures line.startOfLine <= c <= line.endOfLine
  {
    TicksStayInLine(markdown, maxEnd, line);
    line.startOfLine + TickCount(markdown, maxEnd, line.startOfLine, 3)
  }

  /** Inside a fence a fence line closes and any other line is accepted from
      after its leading backticks. */
  lemma InsideClassify(markdown: string, maxEnd: int, line: LineInfo)
    requires LineWithin(markdown, maxEnd, line)
    ensures Classify(markdown, maxEnd, line, true) ==
      if IsFence(markdown, maxEnd, line) then Close else Accept(InsideContent(markdown, maxEnd, line), false)
  {
  }

  /** Outside a fence a fence line opens a fence, and its text starts at the
      end of the line. */
  lemma OutsideFence(markdown: string, maxEnd: int, line: LineInfo)
    requires LineWithin(markdown, maxEnd, line) && IsFence(markdown, maxEnd, line)
    ensures Classify(markdown, maxEnd, line, false) == Accept(line.endOfLine, true)
    ensures Segment(markdown, line, line.endOfLine) == []
  {
    TicksStayInLine(markdown, maxEnd, line);
    assert ExpandPrefix(markdown[line.endOfLine..line.endOfLine], 0) == [];
  }

  // ---------------------------------------------------------------------------
  // Inside a fence
  // ---------------------------------------------------------------------------

  /** The first fence line at or after line i (or |lines| when there is none). */
  function FirstFence(markdown: string, maxEnd: int, lines: seq<LineInfo>, i: nat): (k: nat)
    requires forall j :: 0 <= j < |lines| ==> LineWithin(markdown, maxEnd, lines[j])
    requires i <= |lines|
    ensures i <= k <= |lines|
    decreases |lines| - i
  {
    if i == |lines| || IsFence(markdown, maxEnd, lines[i]) then i
    else FirstFence(markdown, maxEnd, lines, i + 1)
  }

  lemma {:induction false} FirstFenceSpec(markdown: string, maxEnd: int, lines: seq<LineInfo>, i: nat)
    requires forall j :: 0 <= j < |lines| ==> LineWithin(markdown, maxEnd, lines[j])
    requires i <= |lines|
    ensures var k := FirstFence(markdown, maxEnd, lines, i);
      (forall j :: i <= j < k ==> !IsFence(markdown, maxEnd, lines[j])) &&
      (k < |lines| ==> IsFence(markdown, maxEnd, lines[k]))
    decreases |lines| - i
  {
    if i < |lines| && !IsFence(markdown, maxEnd, lines[i]) {
      FirstFenceSpec(markdown, maxEnd, lines, i + 1);
    }
  }

  /** Reference for the text of lines[i..k] inside a fence: each line from
      after its leading backticks. */
  function InsideSegments(markdown: string, maxEnd: int, lines: seq<LineInfo>, i: nat, k: nat): (s: seq<string>)
    requires forall j :: 0 <= j < |lines| ==> LineWithin(markdown, maxEnd, lines[j])
    requires i <= k <= |lines|
    ensures |s| == k - i
    decreases k - i
  {
    if i == k then []
    else [Segment(markdown, lines[i], InsideContent(markdown, maxEnd, lines[i]))] + InsideSegments(markdown, maxEnd, lines, i + 1, k)
  }

  /** Inside a fence every line up to the next fence line is accepted, with
      any leading one or two backticks dropped; that fence line closes the
      block and is consumed without adding anything; no language text is
      collected. */
  lemma {:induction false} InsideScan(markdown: string, maxEnd: int, lines: seq<LineInfo>, i: nat)
    requires forall j :: 0 <= j < |lines| ==> LineWithin(markdown, maxEnd, lines[j])
    requires i <= |lines|
    ensures var r := ScanFrom(markdown, maxEnd, lines, i, true);
      var k := FirstFence(markdown, maxEnd, lines, i);
      r.tag == [] && r.segments == InsideSegments(markdown, maxEnd, lines, i, k) &&
      r.consumed == (if k < |lines| then k - i + 1 else k - i)
    decreases |lines| - i
  {
    if i < |lines| {
      InsideClassify(markdown, maxEnd, lines[i]);
      if IsFence(markdown, maxEnd, lines[i]) {
        ScanStops(markdown, maxEnd, lines, i, true);
      } else {
        ScanAccepts(markdown, maxEnd, lines, i, true);
        InsideScan(markdown, maxEnd, lines, i + 1);
        var rest := ScanFrom(markdown, maxEnd, lines, i + 1, true);
        assert [] + rest.tag == rest.tag;
      }
    }
  }

  // ---------------------------------------------------------------------------
  // Outside a fence
  // ---------------------------------------------------------------------------

  /** The first line at or after line i that, outside a fence, is a fence line
      or is rejected (or |lines| when there is none). */
  function FirstStop(markdown: string, maxEnd: int, lines: seq<LineInfo>, i: nat): (k: nat)
    requires forall j :: 0 <= j < |lines| ==> LineWithin(markdown, maxEnd, lines[j])
    requires i <= |lines|
    ensures i <= k <= |lines|
    ensures k < |lines| ==> IsFence(markdown, maxEnd, lines[k]) || Classify(markdown, maxEnd, lines[k], false).Reject?
    decreases |lines| - i
  {
    if i == |lines| || IsFence(markdown, maxEnd, lines[i]) || Classify(markdown, maxEnd, lines[i], false).Reject? then i
    else FirstStop(markdown, maxEnd, lines, i + 1)
  }

  /** Reference for the text of lines[i..k] outside a fence: each line from
      where its indentation ends. */
  function IndentedSegments(markdown: string, maxEnd: int, lines: seq<LineInfo>, i: nat, k: nat): (s: seq<string>)
    requires forall j :: 0 <= j < |lines| ==> LineWithin(markdown, maxEnd, lines[j])
    requires i <= k <= |lines|
    ensures |s| == k - i
    decreases k - i
  {
    if i == k then []
    else
      var a := Classify(markdown, maxEnd, lines[i], false);
      var from := if a.Accept? then a.contentStart else lines[i].endOfLine;
      [Segment(markdown, lines[i], from)] + IndentedSegments(markdown, maxEnd, lines, i + 1, k)
  }

  /** Every line before the first stop is an accepted line that is not a
      fence line. */
  lemma {:induction false} FirstStopSpec(markdown: string, maxEnd: int, lines: seq<LineInfo>, i: nat)
    requires forall j :: 0 <= j < |lines| ==> LineWithin(markdown, maxEnd, lines[j])
    requires i <= |lines|
    ensures var k := FirstStop(markdown, maxEnd, lines, i);
      forall j :: i <= j < k ==>
        !IsFence(markdown, maxEnd, lines[j]) && Classify(markdown, maxEnd, lines[j], false).Accept?
    decreases |lines| - i
  {
    if i < |lines| && !IsFence(markdown, maxEnd, lines[i]) && !Classify(markdown, maxEnd, lines[i], false).Reject? {
      FirstStopSpec(markdown, maxEnd, lines, i + 1);
    }
  }

  /** Outside a fence the scan takes the lines before the first stop as
      indented (or blank) lines, each from where its indentation ends, and
      then goes on as the scan from the stop. */
  lemma {:induction false} IndentedPrefix(markdown: string, maxEnd: int, lines: seq<LineInfo>, i: nat)
    requires forall j :: 0 <= j < |lines| ==> LineWithin(markdown, maxEnd, lines[j])
    requires i <= |lines|
    ensures var k := FirstStop(markdown, maxEnd, lines, i);
      var s := ScanFrom(markdown, maxEnd, lines, k, false);
      ScanFrom(markdown, maxEnd, lines, i, false) ==
        Scan(IndentedSegments(markdown, maxEnd, lines, i, k) + s.segments, s.tag, k - i + s.consumed)
    decreases |lines| - i
  {
    var k := FirstStop(markdown, maxEnd, lines, i);
    var s := ScanFrom(markdown, maxEnd, lines, k, false);
    if i < |lines| && !IsFence(markdown, maxEnd, lines[i]) && !Classify(markdown, maxEnd, lines[i], false).Reject? {
      var head := OutsideAcceptStep(markdown, maxEnd, lines, i);
      IndentedPrefix(markdown, maxEnd, lines, i + 1);
      var tail := IndentedSegments(markdown, maxEnd, lines, i + 1, k);
      AppendAssoc([head], tail, s.segments);
    } else {
      assert k == i;
      assert [] + s.segments == s.segments;
    }
  }

  /** Outside a fence, when the first stop is a rejected line or the end of
      the lines, the scan is exactly the indented (or blank) lines before it,
      with no language text. */
  lemma OutsideEnds(markdown: string, maxEnd: int, lines: seq<LineInfo>, i: nat)
    requires forall j :: 0 <= j < |lines| ==> LineWithin(markdown, maxEnd, lines[j])
    requires i <= |lines|
    requires var k := FirstStop(markdown, maxEnd, lines, i);
      k == |lines| || !IsFence(markdown, maxEnd, lines[k])
    ensures var k := FirstStop(markdown, maxEnd, lines, i);
      ScanFrom(markdown, maxEnd, lines, i, false) == Scan(IndentedSegments(markdown, maxEnd, lines, i, k), [], k - i)
  {
    var k := FirstStop(markdown, maxEnd, lines, i);
    IndentedPrefix(markdown, maxEnd, lines, i);
    if k < |lines| {
      ScanStops(markdown, maxEnd, lines, k, false);
    }
    assert IndentedSegments(markdown, maxEnd, lines, i, k) + [] == IndentedSegments(markdown, maxEnd, lines, i, k);
  }

  /** A fence line outside a fence is the first stop; it adds an empty
      segment and its rest of line, and the scan goes on inside the fence. */
  lemma OutsideOpenStep(markdown: string, maxEnd: int, lines: seq<LineInfo>, i: nat)
    requires forall j :: 0 <= j < |lines| ==> LineWithin(markdown, maxEnd, lines[j])
    requires i < |lines| && IsFence(markdown, maxEnd, lines[i])
    ensures FirstStop(markdown, maxEnd, lines, i) == i
    ensures var inner := ScanFrom(markdown, maxEnd, lines, i + 1, true);
      ScanFrom(markdown, maxEnd, lines, i, false) ==
        Scan([[]] + inner.segments, FenceTag(markdown, maxEnd, lines[i]) + inner.tag, 1 + inner.consumed)
  {
    OutsideFence(markdown, maxEnd, lines[i]);
    ScanAccepts(markdown, maxEnd, lines, i, false);
  }

  /** One accepted, non-fence line outside a fence: the first stop is the
      same from the next line, and both the scan and the reference add the
      line's segment in front. */
  lemma OutsideAcceptStep(markdown: string, maxEnd: int, lines: seq<LineInfo>, i: nat) returns (head: string)
    requires forall j :: 0 <= j < |lines| ==> LineWithin(markdown, maxEnd, lines[j])
    requires i < |lines| && !IsFence(markdown, maxEnd, lines[i])
    requires Classify(markdown, maxEnd, lines[i], false).Accept?
    ensures var k := FirstStop(markdown, maxEnd, lines, i);
      k == FirstStop(markdown, maxEnd, lines, i + 1) &&
      IndentedSegments(markdown, maxEnd, lines, i, k) == [head] + IndentedSegments(markdown, maxEnd, lines, i + 1, k)
    ensures var rest := ScanFrom(markdown, maxEnd, lines, i + 1, false);
      ScanFrom(markdown, maxEnd, lines, i, false) == Scan([head] + rest.segments, rest.tag, 1 + rest.consumed)
  {
    head := Segment(markdown, lines[i], Classify(markdown, maxEnd, lines[i], false).contentStart);
    ScanAccepts(markdown, maxEnd, lines, i, false);
    assert [] + ScanFrom(markdown, maxEnd, lines, i + 1, false).tag == ScanFrom(markdown, maxEnd, lines, i + 1, false).tag;
  }

  // ---------------------------------------------------------------------------
  // One line outside a fence
  // ---------------------------------------------------------------------------

  /** Below 4 space units, the capped indentation scan agrees with the full
      width of the run of spaces and tabs. */
  lemma {:induction false} IndentUnits(markdown: string, maxEnd: int, pos: int, units: nat)
    requires 0 <= pos && maxEnd <= |markdown|
    requires units < 4
    ensures IndentScan(markdown, maxEnd, pos, units).units < 4 <==> units + LeadingWidth(markdown, maxEnd, pos) < 4
    decreases maxEnd - pos
  {
    if pos < maxEnd && markdown[pos] == ' ' && units + 1 < 4 {
      IndentUnits(markdown, maxEnd, pos + 1, units + 1);
    }
  }

  /** Outside a fence a line is rejected exactly when it is not blank, is not
      a fence line, and, after its leading backticks (one or two), neither
      starts with a tab nor starts with spaces and tabs worth 4 units. A blank
      line is never rejected. */
  lemma RejectIff(markdown: string, maxEnd: int, line: LineInfo)
    requires LineWithin(markdown, maxEnd, line)
    ensures Classify(markdown, maxEnd, line, false).Reject? <==>
      !line.isLineBlank && !IsFence(markdown, maxEnd, line) &&
      var p := line.startOfLine + TickCount(markdown, maxEnd, line.startOfLine, 3);
      !(p < maxEnd && markdown[p] == '\t') && LeadingWidth(markdown, maxEnd, p) < 4
  {
    var p := line.startOfLine + TickCount(markdown, maxEnd, line.startOfLine, 3);
    IndentUnits(markdown, maxEnd, p, 0);
  }

  /** Outside a fence, an accepted line that is not a fence line keeps its
      text from just after a leading tab; otherwise the indentation removed
      is the shortest run of spaces and tabs worth 4 units (all of a blank
      line's shorter run). */
  lemma IndentRemoved(markdown: string, maxEnd: int, line: LineInfo)
    requires LineWithin(markdown, maxEnd, line)
    requires !IsFence(markdown, maxEnd, line) && Classify(markdown, maxEnd, line, false).Accept?
    ensures var p := line.startOfLine + TickCount(markdown, maxEnd, line.startOfLine, 3);
      var c := Classify(markdown, maxEnd, line, false).contentStart;
      p <= c <= line.endOfLine &&
      (p < maxEnd && markdown[p] == '\t' ==> c == p + 1) &&
      (!(p < maxEnd && markdown[p] == '\t') ==>
        (forall k :: p <= k < c ==> markdown[k] == ' ' || markdown[k] == '\t') &&
        (c > p ==> Width(markdown[p..c - 1]) < 4) &&
        (!line.isLineBlank ==> Width(markdown[p..c]) >= 4))
  {
    TicksStayInLine(markdown, maxEnd, line);
    var p := line.startOfLine + TickCount(markdown, maxEnd, line.startOfLine, 3);
    IndentStrip(markdown, maxEnd, p, 0);
  }

  // ---------------------------------------------------------------------------
  // The parsed block
  // ---------------------------------------------------------------------------

  /** Parse finds no block exactly when there are no lines or the first line
      is rejected; it then reports actualEnd == start. */
  lemma NoMatchIff(markdown: string, start: int, maxEnd: int, lines: seq<LineInfo>, newline: string)
    requires ValidLines(markdown, start, maxEnd, lines)
    ensures var p := ParseResult(markdown, start, maxEnd, lines, newline);
      (p.block.None? <==> lines == [] || Classify(markdown, maxEnd, lines[0], false).Reject?) &&
      (p.block.None? ==> p.actualEnd == start)
  {
    if lines != [] {
      assert ScanFrom(markdown, maxEnd, lines, 0, false) == ScanLine(markdown, maxEnd, lines, 0, false);
    }
  }

  /** The block covers exactly the lines it consumed: actualEnd lies in
      [start, maxEnd], is at or after the end of every consumed line, and at
      or before the start of the first line left over. */
  lemma ActualEndBounds(markdown: string, start: int, maxEnd: int, lines: seq<LineInfo>, newline: string)
    requires ValidLines(markdown, start, maxEnd, lines)
    ensures var p := ParseResult(markdown, start, maxEnd, lines, newline);
      var c := ScanFrom(markdown, maxEnd, lines, 0, false).consumed;
      start <= p.actualEnd <= maxEnd &&
      (p.block.Some? ==>
        c <= |lines| &&
        (forall j :: 0 <= j < c ==> lines[j].startOfNextLine <= p.actualEnd) &&
        (c < |lines| ==> p.actualEnd <= lines[c].startOfLine))
  {
    OrderedPairs(lines, 0, start - 1, start);
  }

  /** The scan of a block that opens with a fence: an empty segment for the
      opening line, then the lines up to the closing fence; the language text
      is the rest of the opening line; the closing fence line, if any, is
      consumed too. */
  lemma FencedScan(markdown: string, maxEnd: int, lines: seq<LineInfo>)
    requires forall j :: 0 <= j < |lines| ==> LineWithin(markdown, maxEnd, lines[j])
    requires lines != [] && IsFence(markdown, maxEnd, lines[0])
    ensures var k := FirstFence(markdown, maxEnd, lines, 1);
      ScanFrom(markdown, maxEnd, lines, 0, false) ==
        Scan([[]] + InsideSegments(markdown, maxEnd, lines, 1, k), FenceTag(markdown, maxEnd, lines[0]),
             if k < |lines| then k + 1 else |lines|)
  {
    var tag := FenceTag(markdown, maxEnd, lines[0]);
    OutsideOpenStep(markdown, maxEnd, lines, 0);
    InsideScan(markdown, maxEnd, lines, 1);
    assert tag + [] == tag;
  }

  /** A block that opens with a fence: the opening line adds an empty
      segment, the lines up to the closing fence follow (each from after its
      leading backticks), the language is the rest of the opening line, and
      actualEnd is past the closing fence line (or the last line when there
      is no closing fence). */
  lemma FencedBlock(markdown: string, start: int, maxEnd: int, lines: seq<LineInfo>, newline: string)
    requires ValidLines(markdown, start, maxEnd, lines)
    requires lines != [] && IsFence(markdown, maxEnd, lines[0])
    ensures var p := ParseResult(markdown, start, maxEnd, lines, newline);
      var k := FirstFence(markdown, maxEnd, lines, 1);
      var body := InsideSegments(markdown, maxEnd, lines, 1, k);
      p.block == Some(CodeBlock(Trim(Join([[]] + body, newline), NewlineChars),
                                CodeLanguage(FenceTag(markdown, maxEnd, lines[0])))) &&
      p.actualEnd == (if k < |lines| then lines[k].startOfNextLine else lines[|lines| - 1].startOfNextLine)
  {
    FencedScan(markdown, maxEnd, lines);
  }

  /** The scan of a block whose first stop is a fence line: the indented (or
      blank) lines before it, an empty segment for the fence line, then the
      lines up to the closing fence; the language text is the fence line's
      rest of line; the closing fence line, if any, is consumed too. */
  lemma MixedScan(markdown: string, maxEnd: int, lines: seq<LineInfo>)
    requires forall j :: 0 <= j < |lines| ==> LineWithin(markdown, maxEnd, lines[j])
    requires var k := FirstStop(markdown, maxEnd, lines, 0);
      k < |lines| && IsFence(markdown, maxEnd, lines[k])
    ensures var k := FirstStop(markdown, maxEnd, lines, 0);
      var f := FirstFence(markdown, maxEnd, lines, k + 1);
      ScanFrom(markdown, maxEnd, lines, 0, false) ==
        Scan(IndentedSegments(markdown, maxEnd, lines, 0, k) + [[]] + InsideSegments(markdown, maxEnd, lines, k + 1, f),
             FenceTag(markdown, maxEnd, lines[k]), if f < |lines| then f + 1 else |lines|)
  {
    var k := FirstStop(markdown, maxEnd, lines, 0);
    var tag := FenceTag(markdown, maxEnd, lines[k]);
    IndentedPrefix(markdown, maxEnd, lines, 0);
    OutsideOpenStep(markdown, maxEnd, lines, k);
    InsideScan(markdown, maxEnd, lines, k + 1);
    assert tag + [] == tag;
    var f := FirstFence(markdown, maxEnd, lines, k + 1);
    AppendAssoc(IndentedSegments(markdown, maxEnd, lines, 0, k), [[]], InsideSegments(markdown, maxEnd, lines, k + 1, f));
  }

  /** A scan that collected some segments makes a block of their trimmed
      join, with the language from its tag, ending after its last consumed
      line. */
  lemma BlockOfScan(markdown: string, start: int, maxEnd: int, lines: seq<LineInfo>, newline: string,
                    segments: seq<string>, tag: string, last: nat)
    requires ValidLines(markdown, start, maxEnd, lines)
    requires ScanFrom(markdown, maxEnd, lines, 0, false) == Scan(segments, tag, last + 1)
    requires segments != [] && last < |lines|
    ensures ParseResult(markdown, start, maxEnd, lines, newline) ==
      Parsed(Some(CodeBlock(Trim(Join(segments, newline), NewlineChars), CodeLanguage(tag))),
             lines[last].startOfNextLine)
  {
  }

  /** A block whose first stop is a fence line: the indented (or blank) lines
      before it come first, then the fence opens within the same block, with
      an empty segment for the fence line and the lines up to the closing
      fence after it; the language is that fence line's rest of line, and
      actualEnd is past the closing fence line (or the last line). */
  lemma MixedBlock(markdown: string, start: int, maxEnd: int, lines: seq<LineInfo>, newline: string)
    requires ValidLines(markdown, start, maxEnd, lines)
    requires var k := FirstStop(markdown, maxEnd, lines, 0);
      k < |lines| && IsFence(markdown, maxEnd, lines[k])
    ensures var p := ParseResult(markdown, start, maxEnd, lines, newline);
      var k := FirstStop(markdown, maxEnd, lines, 0);
      var f := FirstFence(markdown, maxEnd, lines, k + 1);
      var text := IndentedSegments(markdown, maxEnd, lines, 0, k) + [[]] + InsideSegments(markdown, maxEnd, lines, k + 1, f);
      p.block == Some(CodeBlock(Trim(Join(text, newline), NewlineChars),
                                CodeLanguage(FenceTag(markdown, maxEnd, lines[k])))) &&
      p.actualEnd == (if f < |lines| then lines[f].startOfNextLine else lines[|lines| - 1].startOfNextLine)
  {
    var k := FirstStop(markdown, maxEnd, lines, 0);
    var f := FirstFence(markdown, maxEnd, lines, k + 1);
    var text := IndentedSegments(markdown, maxEnd, lines, 0, k) + [[]] + InsideSegments(markdown, maxEnd, lines, k + 1, f);
    MixedScan(markdown, maxEnd, lines);
    assert |text| == k + 1 + (f - k - 1);
    BlockOfScan(markdown, start, maxEnd, lines, newline, text, FenceTag(markdown, maxEnd, lines[k]),
                if f < |lines| then f else |lines| - 1);
  }

  /** A lone opening fence is a block with empty text, not a failed match. */
  lemma LoneFence(markdown: string, start: int, maxEnd: int, lines: seq<LineInfo>, newline: string)
    requires ValidLines(markdown, start, maxEnd, lines)
    requires |lines| == 1 && IsFence(markdown, maxEnd, lines[0])
    ensures ParseResult(markdown, start, maxEnd, lines, newline) ==
      Parsed(Some(CodeBlock([], CodeLanguage(FenceTag(markdown, maxEnd, lines[0])))), lines[0].startOfNextLine)
  {
    FencedBlock(markdown, start, maxEnd, lines, newline);
    assert [[]] + InsideSegments(markdown, maxEnd, lines, 1, 1) == [[]];
    assert Join([[]], newline) == [];
  }

  /** A block whose first stop is not a fence line is an indented block: it
      takes the lines before that stop, each an accepted line from where its
      indentation ends, has no language, and ends after the last of them; it
      is no block at all when the first line already stops it. */
  lemma IndentedBlock(markdown: string, start: int, maxEnd: int, lines: seq<LineInfo>, newline: string)
    requires ValidLines(markdown, start, maxEnd, lines)
    requires var k := FirstStop(markdown, maxEnd, lines, 0);
      k == |lines| || !IsFence(markdown, maxEnd, lines[k])
    ensures var p := ParseResult(markdown, start, maxEnd, lines, newline);
      var k := FirstStop(markdown, maxEnd, lines, 0);
      (forall j :: 0 <= j < k ==> Classify(markdown, maxEnd, lines[j], false).Accept?) &&
      (p.block.None? <==> k == 0) &&
      (p.block.Some? ==>
        p.block.value == CodeBlock(Trim(Join(IndentedSegments(markdown, maxEnd, lines, 0, k), newline), NewlineChars), None) &&
        p.actualEnd == lines[k - 1].startOfNextLine)
  {
    OutsideEnds(markdown, maxEnd, lines, 0);
    FirstStopSpec(markdown, maxEnd, lines, 0);
    assert IsNullOrWhiteSpace([]);
  }

  /** The language comes only from the opening fence: it is that fence line's
      rest of line (null when empty or white space, trimmed otherwise), and
      null when the block never opens a fence. */
  lemma LanguageFromOpeningFence(markdown: string, start: int, maxEnd: int, lines: seq<LineInfo>, newline: string)
    requires ValidLines(markdown, start, maxEnd, lines)
    ensures var p := ParseResult(markdown, start, maxEnd, lines, newline);
      var k := FirstStop(markdown, maxEnd, lines, 0);
      p.block.Some? ==>
        p.block.value.codeLanguage ==
          if k < |lines| && IsFence(markdown, maxEnd, lines[k]) then CodeLanguage(FenceTag(markdown, maxEnd, lines[k]))
          else None
  {
    var k := FirstStop(markdown, maxEnd, lines, 0);
    if k < |lines| && IsFence(markdown, maxEnd, lines[k]) {
      IndentedPrefix(markdown, maxEnd, lines, 0);
      OutsideOpenStep(markdown, maxEnd, lines, k);
      InsideScan(markdown, maxEnd, lines, k + 1);
      assert FenceTag(markdown, maxEnd, lines[k]) + [] == FenceTag(markdown, maxEnd, lines[k]);
    } else {
      OutsideEnds(markdown, maxEnd, lines, 0);
      assert IsNullOrWhiteSpace([]);
    }
  }

  /** Every segment in a list is free of CR, LF and tab. */
  predicate AllClean(segments: seq<string>) {
    forall k :: 0 <= k < |segments| ==> Clean(segments[k])
  }

  lemma AllCleanCons(head: string, rest: seq<string>)
    requires Clean(head) && AllClean(rest)
    ensures AllClean([head] + rest)
  {
    forall k | 0 < k < |[head] + rest|
      ensures Clean(([head] + rest)[k])
    {
      assert ([head] + rest)[k] == rest[k - 1];
    }
  }

  /** Every segment of a scan is free of CR, LF and tab. */
  lemma {:induction false} ScanSegmentsClean(markdown: string, maxEnd: int, lines: seq<LineInfo>, i: nat, inside: bool)
    requires forall j :: 0 <= j < |lines| ==> LineWithin(markdown, maxEnd, lines[j])
    ensures AllClean(ScanFrom(markdown, maxEnd, lines, i, inside).segments)
    decreases |lines| - i
  {
    if i < |lines| {
      var a := Classify(markdown, maxEnd, lines[i], inside);
      if a.Accept? {
        ScanAccepts(markdown, maxEnd, lines, i, inside);
        ScanSegmentsClean(markdown, maxEnd, lines, i + 1, inside || a.opensFence);
        SegmentClean(markdown, maxEnd, lines[i], a.contentStart);
        AllCleanCons(Segment(markdown, lines[i], a.contentStart),
                     ScanFrom(markdown, maxEnd, lines, i + 1, inside || a.opensFence).segments);
      } else {
        ScanStops(markdown, maxEnd, lines, i, inside);
      }
    }
  }

  /** Joining segments free of tabs with a CR/LF separator gives text with no tab. */
  lemma {:induction false} JoinNoTab(segments: seq<string>, n: nat, newline: string)
    requires n <= |segments| && AllClean(segments) && IsLineSeparator(newline)
    ensures '\t' !in JoinFirst(segments, n, newline)
  {
    if n == 1 {
      assert Clean(segments[0]);
    } else if n > 1 {
      JoinNoTab(segments, n - 1, newline);
      assert Clean(segments[n - 1]);
    }
  }

  /** The text of a parsed block holds no tab: every tab of the source lines
      has been expanded into spaces. */
  lemma TextHasNoTab(markdown: string, start: int, maxEnd: int, lines: seq<LineInfo>, newline: string)
    requires ValidLines(markdown, start, maxEnd, lines)
    requires IsLineSeparator(newline)
    ensures var p := ParseResult(markdown, start, maxEnd, lines, newline);
      p.block.Some? ==> '\t' !in p.block.value.text
  {
    var segments := ScanFrom(markdown, maxEnd, lines, 0, false).segments;
    var joined := Join(segments, newline);
    ScanSegmentsClean(markdown, maxEnd, lines, 0, false);
    JoinNoTab(segments, |segments|, newline);
    TrimSpec(joined, NewlineChars);
  }

  /** The text of a parsed block: ToString returns it; it is the joined
      segments with the CR/LF at both ends removed, so it neither starts nor
      ends with CR or LF. */
  lemma ParsedText(markdown: string, start: int, maxEnd: int, lines: seq<LineInfo>, newline: string)
    requires ValidLines(markdown, start, maxEnd, lines)
    ensures var p := ParseResult(markdown, start, maxEnd, lines, newline);
      p.block.Some? ==>
        var t := p.block.value.text;
        var joined := Interleave(ScanFrom(markdown, maxEnd, lines, 0, false).segments, newline);
        p.block.value.ToString() == t &&
        Trimmed(joined, NewlineChars, t, |joined| - |TrimStart(joined, NewlineChars)|)
  {
    var segments := ScanFrom(markdown, maxEnd, lines, 0, false).segments;
    JoinIsInterleave(segments, |segments|, newline);
    assert segments[..|segments|] == segments;
    var joined := Interleave(segments, newline);
    assert Join(segments, newline) == joined;
    TrimSpec(joined, NewlineChars);
    var p := ParseResult(markdown, start, maxEnd, lines, newline);
    assert p.block.Some? ==> p.block.value.text == Trim(joined, NewlineChars);
  }
}
