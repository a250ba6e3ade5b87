/**
 * The SubRip writer of `transcribe_audio` (main.py): for each segment, in
 * order, its 1-based index, the line `start --> end`, the stripped text and a
 * blank line. The output file is modelled as the string written to it.
 */
module Srt {
  import opened Wrappers
  import opened Decimal
  import opened Timestamp
  import opened Whitespace

  /** One transcription segment: offsets in seconds and the recognised text. */
  datatype Segment = Segment(start: Seconds, end: Seconds, text: string)

  /** The timing line, without its line break. */
  function TimeLine(seg: Segment): string
  {
    Format(seg.start) + " --> " + Format(seg.end)
  }

  /**
   * The block written for the segment with 1-based index `index`: the index
   * line, the timing line and the text line followed by a blank line.
   */
  function Block(index: nat, seg: Segment): string
  {
    (Digits(index) + "\n") + (TimeLine(seg) + "\n") + (Strip(seg.text) + "\n\n")
  }

  /** The whole file: the blocks of the segments, numbered from 1, one after another. */
  function Document(segs: seq<Segment>): string
    decreases |segs|
  {
    if segs == [] then "" else Document(segs[..|segs| - 1]) + Block(|segs|, segs[|segs| - 1])
  }

  /**
   * The writing loop: three writes per segment into the output, which ends
   * up holding exactly the document.
   */
  method WriteSrt(segs: seq<Segment>) returns (out: string)
    ensures out == Document(segs)
  {
    out := "";
    for i := 0 to |segs|
      invariant out == Document(segs[..i])
    {
      ghost var before := out;
      var seg := segs[i];
      var start, end := seg.start, seg.end;
      var text := Strip(seg.text);
      var indexLine := Digits(i + 1) + "\n";
      var timeLine := Format(start) + " --> " + Format(end) + "\n";
      var textLine := text + "\n\n";
      out := out + indexLine;
      out := out + timeLine;
      out := out + textLine;
      AppendThree(before, indexLine, timeLine, textLine);
      DocumentStep(segs, i);
    }
    assert segs[..|segs|] == segs;
  }

  /** Three writes in a row append their concatenation. */
  lemma AppendThree(s: string, a: string, b: string, c: string)
    ensures s + a + b + c == s + (a + b + c)
  {
  }

  lemma DocumentStep(segs: seq<Segment>, i: nat)
    requires i < |segs|
    ensures Document(segs[..i + 1]) == Document(segs[..i]) + Block(i + 1, segs[i])
  {
    assert segs[..i + 1] == segs[..i] + [segs[i]];
    AppendSegment(segs[..i], segs[i]);
  }

  /** The file for the first `i` segments is a prefix of the whole file. */
  lemma {:induction false} PrefixDocument(segs: seq<Segment>, i: nat)
    requires i <= |segs|
    ensures Document(segs[..i]) <= Document(segs)
    decreases |segs|
  {
    if i == |segs| {
      assert segs[..i] == segs;
    } else {
      var n := |segs| - 1;
      assert segs[..n][..i] == segs[..i];
      PrefixDocument(segs[..n], i);
      PrefixExtend(Document(segs[..i]), Document(segs[..n]), Block(|segs|, segs[n]));
    }
  }

  lemma PrefixExtend(a: string, b: string, x: string)
    requires a <= b
    ensures a <= b + x
  {
    assert (b + x)[..|b|] == b;
  }

  /** Where block `i` (0-based) starts in the file. */
  function Offset(segs: seq<Segment>, i: nat): nat
    requires i <= |segs|
  {
    |Document(segs[..i])|
  }

  lemma SliceAfterPrefix(p: string, b: string, q: string, d: string)
    requires q == p + b && q <= d
    ensures |p| <= |q| <= |d| && d[|p|..|q|] == b
  {
    assert d[..|q|] == q;
  }

  /**
   * The file is exactly one block per segment, in order: the text between
   * consecutive offsets is the block of segment `i`, numbered `i + 1`, and
   * the offsets run from 0 to the end of the file.
   */
  lemma BlockAt(segs: seq<Segment>, i: nat)
    requires i < |segs|
    ensures Offset(segs, i) <= Offset(segs, i + 1) <= |Document(segs)|
    ensures Document(segs)[Offset(segs, i)..Offset(segs, i + 1)] == Block(i + 1, segs[i])
  {
    DocumentStep(segs, i);
    PrefixDocument(segs, i + 1);
    SliceAfterPrefix(Document(segs[..i]), Block(i + 1, segs[i]), Document(segs[..i + 1]), Document(segs));
  }

  lemma DocumentSpan(segs: seq<Segment>)
    ensures Offset(segs, 0) == 0 && Offset(segs, |segs|) == |Document(segs)|
  {
    assert segs[..0] == [];
    assert segs[..|segs|] == segs;
  }

  /** Appending a segment appends exactly its block, numbered after the others. */
  lemma AppendSegment(segs: seq<Segment>, seg: Segment)
    ensures Document(segs + [seg]) == Document(segs) + Block(|segs| + 1, seg)
  {
    var all := segs + [seg];
    assert all[..|all| - 1] == segs;
  }

  /**
   * Every block ends with a blank line, the last one included, so a
   * non-empty file ends in "\n\n".
   */
  lemma EndsWithBlankLine(segs: seq<Segment>)
    requires segs != []
    ensures var d := Document(segs); |d| >= 2 && d[|d| - 2..] == "\n\n"
  {
    var n := |segs| - 1;
    BlankTail(Document(segs), Document(segs[..n]), Block(n + 1, segs[n]),
      (Digits(n + 1) + "\n") + (TimeLine(segs[n]) + "\n"), Strip(segs[n].text) + "\n\n");
  }

  lemma BlankTail(d: string, head: string, block: string, lines: string, tail: string)
    requires d == head + block && block == lines + tail && |tail| >= 2 && tail[|tail| - 2..] == "\n\n"
    ensures |d| >= 2 && d[|d| - 2..] == "\n\n"
  {
    assert d[|d| - 2..] == tail[|tail| - 2..];
  }

  /** Position of the first space, or the length when there is none. */
  function SpaceIndex(s: string): (k: nat)
    ensures k <= |s|
    ensures forall i :: 0 <= i < k ==> s[i] != ' '
    ensures k < |s| ==> s[k] == ' '
  {
    if s == [] || s[0] == ' ' then 0 else 1 + SpaceIndex(s[1..])
  }

  /** Reads a timing line back into its two timestamps. */
  function ParseTimeLine(line: string): Option<(Fields, Fields)> {
    var k := SpaceIndex(line);
    if k + 5 <= |line| && line[k..k + 5] == " --> " then
      match (Parse(line[..k]), Parse(line[k + 5..]))
      case (Some(a), Some(b)) => Some((a, b))
      case _ => None
    else None
  }

  /**
   * The timing line is recoverable: it reads back as the fields of the start
   * and end offsets, so as their whole milliseconds, truncated.
   */
  lemma TimeLineRoundTrip(seg: Segment)
    ensures ParseTimeLine(TimeLine(seg)) == Some((Split(seg.start), Split(seg.end)))
  {
    var a, b := Format(seg.start), Format(seg.end);
    var line := TimeLine(seg);
    FormatShape(seg.start);
    ParseFormat(seg.start);
    ParseFormat(seg.end);
    assert forall i :: 0 <= i < |a| ==> line[i] == a[i];
    assert line[|a|] == ' ';
    assert SpaceIndex(line) == |a|;
    assert line[..|a|] == a;
    assert line[|a|..|a| + 5] == " --> ";
    assert line[|a| + 5..] == b;
  }

  /**
   * The parts of a block: the index line reads back as the index, the timing
   * line as the two offsets, and the text line is the stripped text, with no
   * leading or trailing whitespace.
   */
  lemma BlockParts(index: nat, seg: Segment)
    ensures var d := Digits(index); var t := TimeLine(seg); var b := Block(index, seg);
      b == (d + "\n") + (t + "\n") + (Strip(seg.text) + "\n\n")
      && Value(d) == index
      && ParseTimeLine(t) == Some((Split(seg.start), Split(seg.end)))
      && Trimmed(Strip(seg.text))
  {
    ValueOfDigits(index);
    TimeLineRoundTrip(seg);
    StripParts(seg.text);
  }
}
