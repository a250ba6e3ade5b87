/**
 * Worked examples of the timestamp and SubRip rendering, checked against the
 * definitions: each timestamp is reduced to its fields, then rendered.
 */
module Examples {
  import opened Decimal
  import opened Timestamp
  import opened Whitespace
  import opened Srt

  lemma RenderedHourMinuteSecond()
    ensures Render(Fields(1, 2, 5, 456)) == "01:02:05,456"
  {
    assert ZeroPad(1, 2) == "01" && ZeroPad(2, 2) == "02" && ZeroPad(5, 2) == "05";
    assert ZeroPad(456, 3) == "456";
  }

  /** 3725.4567 s is one hour, two minutes and 5.4567 s; the 0.7 ms is dropped. */
  lemma FormatExample()
    ensures Format(3725.4567) == "01:02:05,456"
  {
    assert 3725.4567.Floor == 3725;
    assert (3725.4567 * 1000.0).Floor == 3725456;
    SplitUnique(3725.4567, 1, 2, 5, 456);
    RenderedHourMinuteSecond();
  }

  lemma RenderedZero()
    ensures Render(Fields(0, 0, 0, 0)) == "00:00:00,000"
  {
    assert ZeroPad(0, 2) == "00" && ZeroPad(0, 3) == "000";
  }

  lemma RenderedOneAndAHalf()
    ensures Render(Fields(0, 0, 1, 500)) == "00:00:01,500"
  {
    assert ZeroPad(0, 2) == "00" && ZeroPad(1, 2) == "01" && ZeroPad(500, 3) == "500";
  }

  lemma RenderedThree()
    ensures Render(Fields(0, 0, 3, 0)) == "00:00:03,000"
  {
    assert ZeroPad(0, 2) == "00" && ZeroPad(3, 2) == "03" && ZeroPad(0, 3) == "000";
  }

  lemma StampZero()
    ensures Format(0.0) == "00:00:00,000"
  {
    SplitUnique(0.0, 0, 0, 0, 0);
    RenderedZero();
  }

  lemma StampOneAndAHalf()
    ensures Format(1.5) == "00:00:01,500"
  {
    assert 1.5.Floor == 1 && (1.5 * 1000.0).Floor == 1500;
    SplitUnique(1.5, 0, 0, 1, 500);
    RenderedOneAndAHalf();
  }

  lemma StampThree()
    ensures Format(3.0) == "00:00:03,000"
  {
    assert 3.0.Floor == 3 && (3.0 * 1000.0).Floor == 3000;
    SplitUnique(3.0, 0, 0, 3, 0);
    RenderedThree();
  }

  /** A block assembled from already-rendered parts. */
  lemma BlockFrom(index: nat, seg: Segment, d: string, t1: string, t2: string, text: string)
    requires Digits(index) == d && Format(seg.start) == t1 && Format(seg.end) == t2
    requires Strip(seg.text) == text
    ensures Block(index, seg) == d + "\n" + t1 + " --> " + t2 + "\n" + text + "\n\n"
  {
  }

  lemma StripHello()
    ensures Strip(" Hello ") == "Hello"
  {
    StripUnique(" Hello ", " ", "Hello", " ");
  }

  lemma StripWorld()
    ensures Strip("world") == "world"
  {
    StripUnique("world", "", "world", "");
  }

  lemma FirstBlock(seg: Segment)
    requires seg == Segment(0.0, 1.5, " Hello ")
    ensures Block(1, seg) == "1" + "\n" + "00:00:00,000" + " --> " + "00:00:01,500" + "\n" + "Hello" + "\n\n"
  {
    StampZero();
    StampOneAndAHalf();
    StripHello();
    BlockFrom(1, seg, "1", "00:00:00,000", "00:00:01,500", "Hello");
  }

  lemma SecondBlock(seg: Segment)
    requires seg == Segment(1.5, 3.0, "world")
    ensures Block(2, seg) == "2" + "\n" + "00:00:01,500" + " --> " + "00:00:03,000" + "\n" + "world" + "\n\n"
  {
    StampOneAndAHalf();
    StampThree();
    StripWorld();
    BlockFrom(2, seg, "2", "00:00:01,500", "00:00:03,000", "world");
  }

  lemma OneSegment(s0: Segment)
    ensures Document([s0]) == Block(1, s0)
  {
    AppendSegment([], s0);
    assert [] + [s0] == [s0];
  }

  lemma TwoSegments(s0: Segment, s1: Segment)
    ensures Document([s0, s1]) == Document([s0]) + Block(2, s1)
  {
    AppendSegment([s0], s1);
    assert [s0] + [s1] == [s0, s1];
  }

  /** The first block's parts, written as one literal. */
  lemma FirstText()
    ensures "1" + "\n" + "00:00:00,000" + " --> " + "00:00:01,500" + "\n" + "Hello" + "\n\n"
         == "1\n00:00:00,000 --> 00:00:01,500\nHello\n\n"
  {
  }

  /** The second block's parts, written as one literal. */
  lemma SecondText()
    ensures "2" + "\n" + "00:00:01,500" + " --> " + "00:00:03,000" + "\n" + "world" + "\n\n"
         == "2\n00:00:01,500 --> 00:00:03,000\nworld\n\n"
  {
  }

  /**
   * Two segments, the first with padded text: the text is stripped, the
   * offsets truncated to milliseconds, and the last block keeps its blank line.
   */
  lemma ExampleDocument(s0: Segment, s1: Segment)
    requires s0 == Segment(0.0, 1.5, " Hello ") && s1 == Segment(1.5, 3.0, "world")
    ensures Document([s0, s1])
         == "1\n00:00:00,000 --> 00:00:01,500\nHello\n\n" + "2\n00:00:01,500 --> 00:00:03,000\nworld\n\n"
  {
    FirstBlock(s0);
    SecondBlock(s1);
    FirstText();
    SecondText();
    OneSegment(s0);
    TwoSegments(s0, s1);
  }
}
