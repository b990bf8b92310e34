/**
 * The "ben32" line format: every run of an assignment vector as one big-endian
 * 32-bit word `(value << 16) | count`, and a zero word closing the line. It is the
 * byte-aligned intermediate form that the XBEN compressor feeds to LZMA2.
 */
module Ben32 {
  import opened Ints
  import opened Wrappers
  import opened RunLength

  /** The 32-bit word of one run: the value in the high half, the count in the low half. */
  function WordOf(r: Run): (w: nat)
    requires r.length < 0x1_0000
    ensures w < U32_LIMIT
    ensures w / 0x1_0000 == r.value && w % 0x1_0000 == r.length
  {
    DivMod16(r.value, r.length);
    0x1_0000 * r.value + r.length
  }

  /** `encoded.to_be_bytes()` for one run. */
  function Word(r: Run): (b: seq<byte>)
    requires r.length < 0x1_0000
    ensures |b| == 4 && FromBigEndian32(b) == WordOf(r)
  {
    BigEndian32(WordOf(r))
  }

  /** The words of all runs, in order (the body of a ben32 line). */
  function Words(runs: seq<Run>): (b: seq<byte>)
    requires U16Runs(runs)
    ensures |b| == 4 * |runs|
  {
    if runs == [] then []
    else Words(runs[..|runs| - 1]) + Word(runs[|runs| - 1])
  }

  const Sentinel: seq<byte> := [0, 0, 0, 0]

  /** A whole ben32 line: the run words, then the zero word. */
  function Ben32Line(runs: seq<Run>): seq<byte>
    requires U16Runs(runs)
  {
    Words(runs) + Sentinel
  }

  lemma WordsSnoc(runs: seq<Run>, r: Run)
    requires U16Runs(runs) && r.length < 0x1_0000
    ensures U16Runs(runs + [r]) && Words(runs + [r]) == Words(runs) + Word(r)
  {
    assert (runs + [r])[..|runs|] == runs;
  }

  lemma {:induction false} WordsAppend(a: seq<Run>, b: seq<Run>)
    requires U16Runs(a) && U16Runs(b)
    ensures U16Runs(a + b) && Words(a + b) == Words(a) + Words(b)
    decreases |b|
  {
    assert U16Runs(a + b);
    if b == [] {
      assert a + b == a;
    } else {
      var init, last := b[..|b| - 1], b[|b| - 1];
      assert b == init + [last];
      assert a + b == (a + init) + [last];
      WordsAppend(a, init);
      WordsSnoc(a + init, last);
      WordsSnoc(init, last);
    }
  }

  /**
   * A word splits back into its run, and a run of at least one node never
   * yields the zero word, so the sentinel cannot be mistaken for a run.
   */
  lemma WordFields(r: Run)
    requires r.length < 0x1_0000
    ensures FromBigEndian32(Word(r)) / 0x1_0000 == r.value
    ensures FromBigEndian32(Word(r)) % 0x1_0000 == r.length
    ensures Word(r) == Sentinel <==> r.value == 0 && r.length == 0
  {
    var w := WordOf(r);
    assert FromBigEndian32(Word(r)) == w == 0x1_0000 * r.value + r.length;
    DivMod16(r.value, r.length);
    assert FromBigEndian32(Sentinel) == 0;
    if r.value == 0 && r.length == 0 {
      assert w == 0;
      ZeroWord();
    }
  }

  lemma ZeroWord()
    ensures BigEndian32(0) == Sentinel
  {
  }

  /**
   * `encode_ben_32_line` on the assignment vector `assignVec` (its labels already
   * read as `u16`): the counting loop, the last run, and the zero word.
   */
  method EncodeBen32Line(assignVec: seq<u16>) returns (ret: seq<byte>)
    requires U16Runs(Rle(assignVec))
    ensures ret == Ben32Line(Rle(assignVec))
    ensures |ret| == 4 * (|Rle(assignVec)| + 1)
    ensures |assignVec| == 0 ==> ret == Sentinel
  {
    var prevAssign: u16 := 0;
    var count: u16 := 0;
    var first := true;
    ret := [];
    for i := 0 to |assignVec|
      invariant first <==> i == 0
      invariant i == 0 ==> ret == [] && count == 0
      invariant i > 0 ==> LoopState(assignVec[..i], prevAssign, count, ret)
    {
      var assign := assignVec[i];
      if first {
        prevAssign := assign;
        count := 1;
        first := false;
        LoopStart(assignVec);
        continue;
      }
      prevAssign, count, ret := CountNode(assignVec, i, assign, prevAssign, count, ret);
    }
    assert assignVec[..|assignVec|] == assignVec;
    // Handle the last run.
    if count > 0 {
      LoopFinish(assignVec, prevAssign, count, ret);
      ret := ret + Word(Run(prevAssign, count));
    }
    ret := ret + Sentinel;
  }

  /**
   * After a non-empty prefix `t`: the open run is `(prevAssign, count)`, the last
   * run of `Rle(t)`, and `ret` holds the words of every run before it.
   */
  ghost predicate LoopState(t: seq<u16>, prevAssign: u16, count: nat, ret: seq<byte>)
  {
    var r := Rle(t);
    |r| > 0 && r[|r| - 1] == Run(prevAssign, count) && count >= 1 &&
    U16Runs(r[..|r| - 1]) && ret == Words(r[..|r| - 1])
  }

  lemma LoopStart(s: seq<u16>)
    requires |s| > 0
    ensures LoopState(s[..1], s[0], 1, [])
  {
    assert s[..1] == [] + [s[0]];
    RleSnocNew([], s[0]);
  }

  /**
   * One node after the first: the same label lengthens the open run; a new
   * label writes the open run's word and opens a run of one.
   */
  method CountNode(s: seq<u16>, i: nat, assign: u16, prevAssign: u16, count: u16, ret: seq<byte>)
    returns (prevAssign': u16, count': u16, ret': seq<byte>)
    requires 0 < i < |s| && assign == s[i] && U16Runs(Rle(s))
    requires LoopState(s[..i], prevAssign, count, ret)
    ensures LoopState(s[..i + 1], prevAssign', count', ret')
    ensures prevAssign' == assign
    ensures assign == prevAssign ==> ret' == ret
    ensures assign != prevAssign ==> ret' == ret + Word(Run(prevAssign, count))
  {
    var t := s[..i];
    assert s[..i + 1] == t + [assign];
    RlePrefixU16(s, i + 1);
    if assign == prevAssign {
      assert count + 1 < 0x1_0000 by {
        LoopExtend(t, prevAssign, count, ret);
        var q := Rle(t + [assign]);
        assert q[|q| - 1] == Run(prevAssign, count + 1);
      }
      LoopExtend(t, prevAssign, count, ret);
      prevAssign', count', ret' := prevAssign, count + 1, ret;
    } else {
      LoopClose(t, assign, prevAssign, count, ret);
      ret' := ret + Word(Run(prevAssign, count));
      prevAssign' := assign;
      count' := 1;
    }
  }

  /** The same label again: the open run grows by one and nothing is written. */
  lemma LoopExtend(t: seq<u16>, prevAssign: u16, count: nat, ret: seq<byte>)
    requires LoopState(t, prevAssign, count, ret)
    ensures var q := Rle(t + [prevAssign]); |q| > 0 && q[|q| - 1] == Run(prevAssign, count + 1)
    ensures LoopState(t + [prevAssign], prevAssign, count + 1, ret)
  {
    var p := Rle(t);
    assert p == p[..|p| - 1] + [Run(prevAssign, count)];
    RleSnocSame(t, prevAssign, p[..|p| - 1], count);
    RleSnoc(t, prevAssign);
    StepShape(p, prevAssign);
  }

  /** A new label: the open run's word is written and a run of one opens. */
  lemma LoopClose(t: seq<u16>, x: u16, prevAssign: u16, count: nat, ret: seq<byte>)
    requires LoopState(t, prevAssign, count, ret) && x != prevAssign && count < 0x1_0000
    ensures LoopState(t + [x], x, 1, ret + Word(Run(prevAssign, count)))
  {
    var p := Rle(t);
    RleSnocNew(t, x);
    RleSnoc(t, x);
    StepShape(p, x);
    assert p[..|p|] == p;
    assert p == p[..|p| - 1] + [Run(prevAssign, count)];
    WordsSnoc(p[..|p| - 1], Run(prevAssign, count));
  }

  /** After the last node the open run's word completes the words of all runs. */
  lemma LoopFinish(s: seq<u16>, prevAssign: u16, count: nat, ret: seq<byte>)
    requires LoopState(s, prevAssign, count, ret) && count < 0x1_0000
    ensures U16Runs(Rle(s)) && ret + Word(Run(prevAssign, count)) == Words(Rle(s))
  {
    var r := Rle(s);
    assert r == r[..|r| - 1] + [Run(prevAssign, count)];
    WordsSnoc(r[..|r| - 1], Run(prevAssign, count));
  }

  /**
   * Every word `encode_ben_32_line` writes for a run has a count of at least one in
   * its low half, so none of them is the zero word that ends the line.
   */
  lemma WordsNotSentinel(assignVec: seq<u16>)
    requires U16Runs(Rle(assignVec))
    ensures forall k :: 0 <= k < |Rle(assignVec)| ==>
      FromBigEndian32(Word(Rle(assignVec)[k])) % 0x1_0000 >= 1 && Word(Rle(assignVec)[k]) != Sentinel
  {
    var runs := Rle(assignVec);
    RleMaximal(assignVec);
    forall k | 0 <= k < |runs|
      ensures FromBigEndian32(Word(runs[k])) % 0x1_0000 >= 1 && Word(runs[k]) != Sentinel
    {
      WordFields(runs[k]);
    }
  }

  datatype Ben32Error = Truncated

  /** Reads words until the zero word; returns the runs and the bytes after the line. */
  function ReadBen32Line(bytes: seq<byte>): (r: Result<(seq<Run>, seq<byte>), Ben32Error>)
    ensures r.Ok? ==> U16Runs(r.value.0) && |r.value.1| <= |bytes| - 4
    decreases |bytes|
  {
    if |bytes| < 4 then Err(Truncated)
    else
      var w := FromBigEndian32(bytes[..4]);
      if w == 0 then Ok(([], bytes[4..]))
      else
        match ReadBen32Line(bytes[4..])
        case Err(e) => Err(e)
        case Ok((runs, rest)) =>
          var run := Run(w / 0x1_0000, w % 0x1_0000);
          assert U16Runs([run] + runs);
          Ok(([run] + runs, rest))
  }

  /** A ben32 line reads back as its runs, leaving what follows it. */
  lemma {:induction false} Ben32RoundTrip(runs: seq<Run>, rest: seq<byte>)
    requires U16Runs(runs)
    requires forall k :: 0 <= k < |runs| ==> runs[k].length >= 1
    ensures ReadBen32Line(Ben32Line(runs) + rest) == Ok((runs, rest))
  {
    var bytes := Ben32Line(runs) + rest;
    if runs == [] {
      assert bytes[..4] == Sentinel && bytes[4..] == rest;
    } else {
      var r, tail := runs[0], runs[1..];
      assert runs == [r] + tail;
      WordsAppend([r], tail);
      assert Words([r]) == Word(r) by {
        WordsSnoc([], r);
      }
      assert bytes == Word(r) + (Ben32Line(tail) + rest);
      assert bytes[..4] == Word(r) && bytes[4..] == Ben32Line(tail) + rest;
      WordFields(r);
      Ben32RoundTrip(tail, rest);
    }
  }

  /**
   * What a line carries: one word per run and the zero word, each run's label in
   * the high half and count in the low half, and counts that add up to the
   * number of nodes.
   */
  lemma Ben32Layout(assignVec: seq<u16>)
    requires U16Runs(Rle(assignVec))
    ensures var runs, b := Rle(assignVec), Ben32Line(Rle(assignVec));
      |b| == 4 * (|runs| + 1) && b[4 * |runs|..] == Sentinel &&
      TotalLength(runs) == |assignVec| &&
      ReadBen32Line(b) == Ok((runs, [])) && Expand(runs) == assignVec
  {
    var runs := Rle(assignVec);
    RleTotalLength(assignVec);
    RleExpand(assignVec);
    RleMaximal(assignVec);
    Ben32RoundTrip(runs, []);
    assert Ben32Line(runs) + [] == Ben32Line(runs);
  }
}
