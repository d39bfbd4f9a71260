/** The line descriptors that the shared line splitter (Helpers.Common.ParseLines)
    hands to the block parsers. The splitter itself is not part of this model:
    its output is an input here, and `ValidLines` states what the parsers assume
    about it. */
module MarkdownLines {
  import opened Strings

  /** One line of the region: its content is markdown[startOfLine..endOfLine]
      (quote markers already skipped), and the next line begins at or after
      startOfNextLine. */
  datatype LineInfo = LineInfo(startOfLine: int, endOfLine: int, startOfNextLine: int, isLineBlank: bool)

  /** A line inside markdown[..maxEnd]: ordered offsets, no CR or LF inside its
      content, and its end is either a CR/LF or the end of the region. */
  predicate LineWithin(markdown: string, maxEnd: int, line: LineInfo) {
    0 <= line.startOfLine <= line.endOfLine <= line.startOfNextLine <= maxEnd <= |markdown| &&
    (line.endOfLine < maxEnd ==> markdown[line.endOfLine] in NewlineChars) &&
    NoNewlineIn(markdown, line.startOfLine, line.endOfLine)
  }

  /** No CR or LF in markdown[lo..hi]. */
  predicate NoNewlineIn(markdown: string, lo: int, hi: int)
    requires 0 <= lo <= hi <= |markdown|
    decreases hi - lo
  {
    hi <= lo || (markdown[lo] !in NewlineChars && NoNewlineIn(markdown, lo + 1, hi))
  }

  lemma {:induction false} NoNewlineInSpec(markdown: string, lo: int, hi: int)
    requires 0 <= lo <= hi <= |markdown|
    ensures NoNewlineIn(markdown, lo, hi) <==> (forall k :: lo <= k < hi ==> markdown[k] !in NewlineChars)
    decreases hi - lo
  {
    if lo < hi {
      NoNewlineInSpec(markdown, lo + 1, hi);
    }
  }

  /** From line i on, each line starts at or after `bound` and after
      `prevStart`, and the next one starts at or after its startOfNextLine. */
  predicate OrderedFrom(lines: seq<LineInfo>, i: nat, prevStart: int, bound: int)
    decreases |lines| - i
  {
    i >= |lines| ||
    (bound <= lines[i].startOfLine && prevStart < lines[i].startOfLine &&
     OrderedFrom(lines, i + 1, lines[i].startOfLine, lines[i].startOfNextLine))
  }

  /** The whole sequence the splitter yields for markdown[start..maxEnd]: every
      line lies in the region, the first starts at or after `start`, and each
      later line starts after the previous one and at or after its
      startOfNextLine. */
  predicate ValidLines(markdown: string, start: int, maxEnd: int, lines: seq<LineInfo>) {
    0 <= start <= maxEnd <= |markdown| &&
    (forall i :: 0 <= i < |lines| ==> LineWithin(markdown, maxEnd, lines[i])) &&
    OrderedFrom(lines, 0, start - 1, start)
  }

  /** The ordering in pairwise form: every line starts at or after `bound`
      and after `prevStart`, and a later line starts after an earlier one
      and at or after its startOfNextLine. */
  lemma {:induction false} OrderedPairs(lines: seq<LineInfo>, i: nat, prevStart: int, bound: int)
    requires OrderedFrom(lines, i, prevStart, bound)
    ensures forall j :: i <= j < |lines| ==> bound <= lines[j].startOfLine && prevStart < lines[j].startOfLine
    ensures forall j, k :: i <= j < k < |lines| ==>
      lines[j].startOfNextLine <= lines[k].startOfLine && lines[j].startOfLine < lines[k].startOfLine
    decreases |lines| - i
  {
    if i < |lines| {
      OrderedPairs(lines, i + 1, lines[i].startOfLine, lines[i].startOfNextLine);
    }
  }

  /** Environment.NewLine, as far as the parser relies on it: a non-empty run of
      CR/LF characters. */
  predicate IsLineSeparator(newline: string) {
    |newline| > 0 && forall k :: 0 <= k < |newline| ==> newline[k] in NewlineChars
  }
}
