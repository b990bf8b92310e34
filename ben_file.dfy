/**
 * A BEN file: the 17 bytes of the text "STANDARD BEN FILE", then one block per
 * input line that carries an assignment vector, in input order. Lines whose JSON
 * object has no "assignment" array add nothing.
 */
module BenFile {
  import opened Ints
  import opened Seqs
  import opened Wrappers
  import opened RunLength
  import opened BenBlockCodec

  /** The bytes of "STANDARD BEN FILE". */
  const Magic: seq<byte> := [83, 84, 65, 78, 68, 65, 82, 68, 32, 66, 69, 78, 32, 70, 73, 76, 69]

  lemma MagicIsText()
    ensures |Magic| == 17
    ensures forall k :: 0 <= k < |Magic| ==> Magic[k] == "STANDARD BEN FILE"[k] as int
  {
  }

  /**
   * One input line after JSON parsing: `Some(labels)` when it has an
   * "assignment" array (each label read as `u16`), `None` when it has none.
   */
  type Line = Option<seq<u16>>

  /** The line has no assignment vector, or one the block encoder accepts. */
  predicate LineEncodable(line: Line)
  {
    line.Some? ==> Encodable(Rle(line.value))
  }

  predicate LinesEncodable(lines: seq<Line>)
  {
    forall k :: 0 <= k < |lines| ==> LineEncodable(lines[k])
  }

  /**
   * The block one line contributes. Only encodable lines are ever given to the
   * encoder; for any other line this is left empty so that the function is total.
   */
  function LineBlock(line: Line): seq<byte>
  {
    match line
    case None => []
    case Some(assign) => if Encodable(Rle(assign)) then BenBlock(Rle(assign)) else []
  }

  /** The blocks of all lines, in order. */
  function Blocks(lines: seq<Line>): seq<byte>
  {
    if lines == [] then []
    else Blocks(lines[..|lines| - 1]) + LineBlock(lines[|lines| - 1])
  }

  /** The whole file `jsonl_encode_ben` writes. */
  function BenFileBytes(lines: seq<Line>): seq<byte>
  {
    Magic + Blocks(lines)
  }

  /** The assignment vectors of the lines that have one, in order. */
  function Samples(lines: seq<Line>): seq<seq<u16>>
  {
    if lines == [] then []
    else
      Samples(lines[..|lines| - 1]) +
      (match lines[|lines| - 1] case None => [] case Some(assign) => [assign])
  }

  /**
   * `jsonl_encode_ben` over the parsed lines: the magic text first, then for every
   * line with an assignment vector its run-length encoding as one block.
   */
  method JsonlEncodeBen(lines: seq<Line>) returns (written: seq<byte>)
    requires LinesEncodable(lines)
    ensures written == BenFileBytes(lines)
    ensures written[..|Magic|] == Magic
  {
    written := Magic;
    for i := 0 to |lines|
      invariant written == Magic + Blocks(lines[..i])
    {
      BlocksSnoc(lines, i);
      ghost var before := Blocks(lines[..i]);
      match lines[i] {
        case None =>
        case Some(assignVec) =>
          var rleVec := Rle(assignVec);
          var encoded := EncodeBenVecFromRle(rleVec);
          written := written + encoded;
      }
      assert written == Magic + before + LineBlock(lines[i]);
      AppendAssoc(Magic, before, LineBlock(lines[i]));
    }
    assert lines[..|lines|] == lines;
  }

  /** One more line appends its block. */
  lemma BlocksSnoc(lines: seq<Line>, i: nat)
    requires i < |lines|
    ensures Blocks(lines[..i + 1]) == Blocks(lines[..i]) + LineBlock(lines[i])
  {
    assert lines[..i + 1][..i] == lines[..i];
  }

  datatype IoError = UnexpectedEof | InvalidData

  /**
   * The check `encode_ben_to_xben` makes before anything else: read exactly 17
   * bytes and compare them with the magic text; on success the rest of the input.
   */
  function ReadMagic(input: seq<byte>): (r: Result<seq<byte>, IoError>)
    ensures r == Err(UnexpectedEof) <==> |input| < |Magic|
    ensures r == Err(InvalidData) <==> |input| >= |Magic| && input[..|Magic|] != Magic
    ensures r.Ok? <==> |input| >= |Magic| && input[..|Magic|] == Magic
    ensures r.Ok? ==> input == Magic + r.value
  {
    if |input| < |Magic| then Err(UnexpectedEof)
    else if input[..|Magic|] != Magic then Err(InvalidData)
    else
      assert input == input[..|Magic|] + input[|Magic|..];
      Ok(input[|Magic|..])
  }

  /** A file written by the encoder passes the check, leaving exactly its blocks. */
  lemma ReadMagicOfFile(lines: seq<Line>)
    ensures ReadMagic(BenFileBytes(lines)) == Ok(Blocks(lines))
  {
    var f := BenFileBytes(lines);
    assert f[..|Magic|] == Magic && f[|Magic|..] == Blocks(lines);
  }

  datatype FileError = BadHeader(io: IoError) | BadBlock(block: DecodeError)

  /** Reads blocks until the input is used up. */
  function DecodeBlocks(bytes: seq<byte>): Result<seq<seq<Run>>, DecodeError>
    decreases |bytes|
  {
    if bytes == [] then Ok([])
    else
      match DecodeBlock(bytes)
      case Err(e) => Err(e)
      case Ok((runs, rest)) =>
        match DecodeBlocks(rest)
        case Err(e) => Err(e)
        case Ok(more) => Ok([runs] + more)
  }

  function ExpandAll(samples: seq<seq<Run>>): (r: seq<seq<u16>>)
    ensures |r| == |samples|
  {
    if samples == [] then [] else [Expand(samples[0])] + ExpandAll(samples[1..])
  }

  /** Reads a whole BEN file back into its assignment vectors. */
  function DecodeBenFile(input: seq<byte>): Result<seq<seq<u16>>, FileError>
  {
    match ReadMagic(input)
    case Err(e) => Err(BadHeader(e))
    case Ok(body) =>
      match DecodeBlocks(body)
      case Err(e) => Err(BadBlock(e))
      case Ok(samples) => Ok(ExpandAll(samples))
  }

  /** The runs of the lines that have an assignment vector, in order. */
  function SampleRuns(lines: seq<Line>): seq<seq<Run>>
  {
    if lines == [] then [] else LineRuns(lines[0]) + SampleRuns(lines[1..])
  }

  /** The runs one line contributes: none, or those of its assignment vector. */
  function LineRuns(line: Line): seq<seq<Run>>
  {
    match line
    case None => []
    case Some(assign) => [Rle(assign)]
  }

  lemma LinesEncodableSlice(lines: seq<Line>, i: nat, j: nat)
    requires LinesEncodable(lines) && i <= j <= |lines|
    ensures LinesEncodable(lines[i..j])
  {
    assert forall k :: 0 <= k < j - i ==> lines[i..j][k] == lines[i + k];
  }

  /** The blocks split at the first line as well as at the last. */
  lemma {:induction false} BlocksCons(lines: seq<Line>)
    requires lines != []
    ensures Blocks(lines) == LineBlock(lines[0]) + Blocks(lines[1..])
    decreases |lines|
  {
    var n := |lines|;
    if n == 1 {
      assert lines[..0] == [] && lines[1..] == [];
    } else {
      var init, tail := lines[..n - 1], lines[1..];
      BlocksCons(init);
      assert init[0] == lines[0] && init[1..] == tail[..n - 2] && tail[n - 2] == lines[n - 1];
      AppendAssoc(LineBlock(lines[0]), Blocks(init[1..]), LineBlock(lines[n - 1]));
    }
  }

  lemma {:induction false} ExpandSampleRuns(lines: seq<Line>)
    ensures ExpandAll(SampleRuns(lines)) == Samples(lines)
    decreases |lines|
  {
    if lines != [] {
      ExpandSampleRuns(lines[1..]);
      var head := LineRuns(lines[0]);
      SamplesCons(lines);
      if lines[0].Some? {
        RleExpand(lines[0].value);
        assert ExpandAll(SampleRuns(lines)) == [Expand(Rle(lines[0].value))] + ExpandAll(SampleRuns(lines[1..])) by {
          assert (head + SampleRuns(lines[1..]))[1..] == SampleRuns(lines[1..]);
        }
      } else {
        assert head + SampleRuns(lines[1..]) == SampleRuns(lines[1..]);
      }
    }
  }

  /** The samples split at the first line. */
  lemma {:induction false} SamplesCons(lines: seq<Line>)
    requires lines != []
    ensures Samples(lines) ==
      (match lines[0] case None => [] case Some(assign) => [assign]) + Samples(lines[1..])
    decreases |lines|
  {
    if |lines| > 1 {
      var init := lines[..|lines| - 1];
      SamplesCons(init);
      assert init[0] == lines[0];
      assert init[1..] == lines[1..][..|lines[1..]| - 1];
      assert lines[1..][|lines[1..]| - 1] == lines[|lines| - 1];
    } else {
      assert lines[..0] == [] && lines[1..] == [];
    }
  }

  /** A block in front of decodable blocks adds its runs in front of theirs. */
  lemma DecodeFirstBlock(runs: seq<Run>, rest: seq<byte>, more: seq<seq<Run>>)
    requires Encodable(runs) && forall k :: 0 <= k < |runs| ==> runs[k].length >= 1
    requires DecodeBlocks(rest) == Ok(more)
    ensures DecodeBlocks(BenBlock(runs) + rest) == Ok([runs] + more)
  {
    BlockRoundTrip(runs, rest);
    assert |BenBlock(runs)| >= 6 by {
      BlockLayout(runs);
    }
  }

  /** A line's block in front of decodable blocks adds that line's runs in front of theirs. */
  lemma LineRoundTrip(line: Line, rest: seq<byte>, more: seq<seq<Run>>)
    requires LineEncodable(line) && DecodeBlocks(rest) == Ok(more)
    ensures DecodeBlocks(LineBlock(line) + rest) == Ok(LineRuns(line) + more)
  {
    match line {
      case None =>
        assert LineBlock(line) + rest == rest && LineRuns(line) + more == more;
      case Some(assign) =>
        RleMaximal(assign);
        DecodeFirstBlock(Rle(assign), rest, more);
    }
  }

  /** The blocks of all lines decode to the runs of every assignment vector. */
  lemma {:induction false} BlocksRoundTrip(lines: seq<Line>)
    requires LinesEncodable(lines)
    ensures DecodeBlocks(Blocks(lines)) == Ok(SampleRuns(lines))
    decreases |lines|
  {
    if lines != [] {
      BlocksCons(lines);
      LinesEncodableSlice(lines, 1, |lines|);
      BlocksRoundTrip(lines[1..]);
      LineRoundTrip(lines[0], Blocks(lines[1..]), SampleRuns(lines[1..]));
    }
  }

  /** Reading back a file the encoder wrote gives every assignment vector, in order. */
  lemma FileRoundTrip(lines: seq<Line>)
    requires LinesEncodable(lines)
    ensures DecodeBenFile(BenFileBytes(lines)) == Ok(Samples(lines))
  {
    ReadMagicOfFile(lines);
    BlocksRoundTrip(lines);
    ExpandSampleRuns(lines);
  }
}
