/**
 * The worked example that documents `jsonl_encode_ben`: two lines with the
 * assignment vectors [1,1,1,2,2,2] and [1,1,2,2,1,2] give a file of the magic
 * text followed by the blocks [2,2,0,0,0,1,123] and [2,2,0,0,0,2,106,89].
 */
module BenExamples {
  import opened Ints
  import opened Wrappers
  import opened RunLength
  import opened BenBlockCodec
  import opened BenFile
  import opened Seqs

  /** Two runs with different labels, written out, encode back to those runs. */
  lemma RleOfTwoRuns(r1: Run, r2: Run)
    requires r1.length >= 1 && r2.length >= 1 && r1.value != r2.value
    ensures Rle(Repeat(r1.value, r1.length) + Repeat(r2.value, r2.length)) == [r1, r2]
  {
    var a := Repeat(r1.value, r1.length);
    assert [] + a == a;
    RleAppendRun([], r1.value, r1.length);
    RleAppendRun(a, r2.value, r2.length);
  }

  /** The same for four runs. */
  lemma RleOfFourRuns(r1: Run, r2: Run, r3: Run, r4: Run)
    requires r1.length >= 1 && r2.length >= 1 && r3.length >= 1 && r4.length >= 1
    requires r1.value != r2.value && r2.value != r3.value && r3.value != r4.value
    ensures Rle(Repeat(r1.value, r1.length) + Repeat(r2.value, r2.length) +
                Repeat(r3.value, r3.length) + Repeat(r4.value, r4.length)) == [r1, r2, r3, r4]
  {
    var ab := Repeat(r1.value, r1.length) + Repeat(r2.value, r2.length);
    var abc := ab + Repeat(r3.value, r3.length);
    RleOfTwoRuns(r1, r2);
    RleAppendRun(ab, r3.value, r3.length);
    assert [r1, r2] + [r3] == [r1, r2, r3];
    RleAppendRun(abc, r4.value, r4.length);
    assert [r1, r2, r3] + [r4] == [r1, r2, r3, r4];
  }

  lemma SampleOneVec()
    ensures [1, 1, 1, 2, 2, 2] == Repeat(1, 3) + Repeat(2, 3)
  {
  }

  lemma RleSampleOne(s: seq<u16>)
    requires s == [1, 1, 1, 2, 2, 2]
    ensures IsFixtureOne(Rle(s))
  {
    SampleOneVec();
    RleOfTwoRuns(Run(1, 3), Run(2, 3));
  }

  lemma SampleTwoVec()
    ensures [1, 1, 2, 2, 1, 2] == Repeat(1, 2) + Repeat(2, 2) + Repeat(1, 1) + Repeat(2, 1)
  {
  }

  lemma RleSampleTwo(s: seq<u16>)
    requires s == [1, 1, 2, 2, 1, 2]
    ensures IsFixtureTwo(Rle(s))
  {
    SampleTwoVec();
    RleOfFourRuns(Run(1, 2), Run(2, 2), Run(1, 1), Run(2, 1));
  }

  /** A file of two lines is the magic text, then the first line's block, then the second's. */
  lemma TwoLineFile(lines: seq<Line>, x: seq<byte>, y: seq<byte>)
    requires |lines| == 2 && LineBlock(lines[0]) == x && LineBlock(lines[1]) == y
    ensures Blocks(lines) == x + y
  {
    BlocksSnoc(lines, 0);
    BlocksSnoc(lines, 1);
    assert lines[..0] == [] && lines[..2] == lines;
    assert [] + x == x;
  }

  lemma TwoLinesEncodable(lines: seq<Line>)
    requires |lines| == 2 && LineEncodable(lines[0]) && LineEncodable(lines[1])
    ensures LinesEncodable(lines)
  {
    forall k | 0 <= k < |lines|
      ensures LineEncodable(lines[k])
    {
      if k == 0 {
      } else {
        assert k == 1;
      }
    }
  }

  lemma EncodableLineBlock(line: Line)
    requires line.Some? && Encodable(Rle(line.value))
    ensures LineEncodable(line) && LineBlock(line) == BenBlock(Rle(line.value))
  {
  }

  /** The two lines of the documented example: their runs and their blocks. */
  lemma SampleBlocks(lines: seq<Line>)
    requires lines == [Some([1, 1, 1, 2, 2, 2]), Some([1, 1, 2, 2, 1, 2])]
    ensures LinesEncodable(lines)
    ensures Blocks(lines) == [2, 2, 0, 0, 0, 1, 123] + [2, 2, 0, 0, 0, 2, 106, 89]
  {
    RleSampleOne(lines[0].value);
    RleSampleTwo(lines[1].value);
    GoldenBlockOne(Rle(lines[0].value));
    GoldenBlockTwo(Rle(lines[1].value));
    EncodableLineBlock(lines[0]);
    EncodableLineBlock(lines[1]);
    TwoLinesEncodable(lines);
    TwoLineFile(lines, [2, 2, 0, 0, 0, 1, 123], [2, 2, 0, 0, 0, 2, 106, 89]);
  }

  /** The whole file of the documented example: the magic text, then the two blocks. */
  lemma SampleFile(lines: seq<Line>)
    requires lines == [Some([1, 1, 1, 2, 2, 2]), Some([1, 1, 2, 2, 1, 2])]
    ensures LinesEncodable(lines)
    ensures BenFileBytes(lines) == Magic + [2, 2, 0, 0, 0, 1, 123] + [2, 2, 0, 0, 0, 2, 106, 89]
  {
    SampleBlocks(lines);
    var one: seq<byte>, two: seq<byte> := [2, 2, 0, 0, 0, 1, 123], [2, 2, 0, 0, 0, 2, 106, 89];
    AppendAssoc(Magic, one, two);
  }
}
