/**
 `get_source_range`: the source text of a declaration, flattened to one display
 line. Lines are numbered from 1 and the range is inclusive; a range that leaves
 the file yields the sentinel `"?"` instead of failing.
 */
module Snippet {
  import opened Text
  import Sequences

  const Unknown := "?"

  /** One line `rstrip()`ed then `strip()`ed: its display text, or nothing when it is blank. */
  function LinePart(l: string): (p: seq<string>)
    ensures |p| <= 1
    ensures forall k :: 0 <= k < |p| ==> p[k] != [] && Trimmed(p[k])
  {
    var t := Strip(RStrip(l, Whitespace));
    if t != [] then [t] else []
  }

  /** The display text of every non-blank line, in order. */
  function DisplayParts(ls: seq<string>): (ps: seq<string>)
    ensures forall k :: 0 <= k < |ps| ==> ps[k] != [] && Trimmed(ps[k])
    ensures |ps| <= |ls|
  {
    if |ls| == 0 then [] else LinePart(ls[0]) + DisplayParts(ls[1..])
  }

  /** Both line numbers name a line of the file. */
  predicate InFile(lines: seq<string>, line: int) {
    1 <= line <= |lines|
  }

  /** `get_source_range(lines, start_line, end_line)` */
  function SourceRange(lines: seq<string>, startLine: int, endLine: int): (r: string)
    ensures !(InFile(lines, startLine) && InFile(lines, endLine)) ==> r == Unknown
    ensures Trimmed(r)
  {
    if InFile(lines, startLine) && InFile(lines, endLine) then
      var selected := if startLine <= endLine then lines[startLine - 1..endLine] else [];
      JoinTrimmed(DisplayParts(selected));
      Join(" ", DisplayParts(selected))
    else
      Unknown
  }

  /** A reversed range inside the file selects no lines and yields the empty snippet. */
  lemma ReversedRangeIsEmpty(lines: seq<string>, startLine: int, endLine: int)
    requires InFile(lines, startLine) && InFile(lines, endLine) && startLine > endLine
    ensures SourceRange(lines, startLine, endLine) == ""
  {
  }

  /** A one-line declaration is shown as that line with its surrounding whitespace trimmed. */
  lemma SingleLine(lines: seq<string>, line: int)
    requires InFile(lines, line)
    ensures SourceRange(lines, line, line) == Strip(lines[line - 1])
  {
    assert lines[line - 1..line] == [lines[line - 1]];
    StripAfterRStrip(lines[line - 1]);
  }

  lemma {:induction false} DisplayPartsSnoc(ls: seq<string>, l: string)
    ensures DisplayParts(ls + [l]) == DisplayParts(ls) + LinePart(l)
    decreases |ls|
  {
    if |ls| == 0 {
      assert DisplayParts([l]) == LinePart(l) + DisplayParts([]);
    } else {
      assert (ls + [l])[1..] == ls[1..] + [l];
      DisplayPartsSnoc(ls[1..], l);
      Sequences.AppendAssoc(LinePart(ls[0]), DisplayParts(ls[1..]), LinePart(l));
    }
  }

  /**
   Extending the range by one line appends that line's trimmed text, separated by
   one space, or leaves the snippet unchanged when the line is blank.
   */
  lemma ExtendByOneLine(lines: seq<string>, startLine: int, endLine: int)
    requires 1 <= startLine <= endLine < |lines|
    ensures var t := Strip(lines[endLine]);
            var prev := SourceRange(lines, startLine, endLine);
            SourceRange(lines, startLine, endLine + 1)
              == if t == [] then prev else if prev == [] then t else prev + " " + t
  {
    var before, line := lines[startLine - 1..endLine], lines[endLine];
    var parts, t := DisplayParts(before), Strip(line);
    var prev, next := SourceRange(lines, startLine, endLine), SourceRange(lines, startLine, endLine + 1);
    RangeParts(lines, startLine, endLine);
    RangeParts(lines, startLine, endLine + 1);
    Sequences.SliceSnoc(lines, startLine - 1, endLine);
    LinePartIsStrip(line);
    DisplayPartsSnoc(before, line);
    assert next == Join(" ", parts + LinePart(line));
    if t != [] {
      JoinTrimmed(parts);
      JoinSnoc(" ", parts, t);
      assert prev == [] <==> |parts| == 0;
      assert next == if prev == [] then t else prev + " " + t;
    } else {
      assert parts + [] == parts;
      assert next == prev;
    }
  }

  /** Inside the file, a forward range shows the display text of the lines it selects. */
  lemma RangeParts(lines: seq<string>, startLine: int, endLine: int)
    requires 1 <= startLine <= endLine <= |lines|
    ensures SourceRange(lines, startLine, endLine)
         == Join(" ", DisplayParts(lines[startLine - 1..endLine]))
  {
  }

  lemma LinePartIsStrip(line: string)
    ensures LinePart(line) == if Strip(line) != [] then [Strip(line)] else []
  {
    StripAfterRStrip(line);
  }
}
