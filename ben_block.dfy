/**
 * One sample's BEN block, as `encode_ben_vec_from_rle` writes it: a byte holding
 * the value width, a byte holding the length width, the payload size as a
 * big-endian `u32`, then the bit-packed runs.
 */
module BenBlockCodec {
  import opened Ints
  import opened Seqs
  import opened Wrappers
  import opened RunLength
  import opened BitPacking

  /** `x.leading_zeros()` for `x` held in a `w`-bit word. */
  function LeadingZeros(x: nat, w: nat): (r: nat)
    requires x < Pow2(w)
    ensures r <= w && x < Pow2(w - r)
    ensures r < w ==> Pow2(w - r - 1) <= x
  {
    if w == 0 || x >= Pow2(w - 1) then 0 else 1 + LeadingZeros(x, w - 1)
  }

  /** `16 - x.leading_zeros()` for a `u16`: the bits needed to write `x` (0 for 0). */
  function BitLength(x: u16): (r: nat)
    ensures r <= 16 && x < Pow2(r)
    ensures r > 0 ==> Pow2(r - 1) <= x
    ensures x > 0 ==> r > 0
  {
    Pow2Values();
    16 - LeadingZeros(x, 16)
  }

  /** The bit length is the one width `k` with `2^(k-1) <= x < 2^k`. */
  lemma BitLengthIs(x: u16, k: nat)
    requires k >= 1 && Pow2(k - 1) <= x < Pow2(k)
    ensures BitLength(x) == k
  {
    var r := BitLength(x);
    if r < k {
      Pow2Monotone(r, k - 1);
    } else if r > k {
      Pow2Monotone(k, r - 1);
    }
  }

  /** The largest value among the runs (`max_by_key(|x| x.0)`). */
  function MaxValue(runs: seq<Run>): (m: u16)
    requires |runs| > 0
    ensures forall k :: 0 <= k < |runs| ==> runs[k].value <= m
    ensures exists k :: 0 <= k < |runs| && runs[k].value == m
  {
    if |runs| == 1 then runs[0].value
    else
      var m := MaxValue(runs[1..]);
      assert forall k :: 1 <= k < |runs| ==> runs[k] == runs[1..][k - 1];
      if runs[0].value > m then runs[0].value else m
  }

  /** The largest length among the runs (`max_by_key(|x| x.1)`). */
  function MaxLength(runs: seq<Run>): (m: nat)
    requires |runs| > 0
    ensures forall k :: 0 <= k < |runs| ==> runs[k].length <= m
    ensures exists k :: 0 <= k < |runs| && runs[k].length == m
  {
    if |runs| == 1 then runs[0].length
    else
      var m := MaxLength(runs[1..]);
      assert forall k :: 1 <= k < |runs| ==> runs[k] == runs[1..][k - 1];
      if runs[0].length > m then runs[0].length else m
  }

  /** `max_val_bits`: the bit length of the largest value, at least 1. */
  function ValueBits(runs: seq<Run>): nat
    requires |runs| > 0
  {
    var b := BitLength(MaxValue(runs));
    if b < 1 then 1 else b
  }

  /** `max_len_bits`: the bit length of the largest run length. */
  function LengthBits(runs: seq<Run>): nat
    requires |runs| > 0 && U16Runs(runs)
  {
    BitLength(MaxLength(runs))
  }

  /** `assign_bits * rle_vec.len()`: the number of payload bits before padding. */
  function BitCount(runs: seq<Run>): nat
    requires |runs| > 0 && U16Runs(runs)
  {
    MulNonNegative(|runs|, ValueBits(runs) + LengthBits(runs));
    |runs| * (ValueBits(runs) + LengthBits(runs))
  }

  /**
   * What the encoder demands of its input: at least one run (`unwrap` on the
   * maximum), `u16` lengths, and a bit count `assign_bits * len` that fits a `u32`.
   */
  predicate Encodable(runs: seq<Run>)
  {
    |runs| > 0 && U16Runs(runs) && BitCount(runs) < U32_LIMIT
  }

  /** The payload size in bytes: the packed bits rounded up to whole bytes. */
  function ByteCount(runs: seq<Run>): nat
    requires Encodable(runs)
  {
    (BitCount(runs) + 7) / 8
  }

  function Header(runs: seq<Run>): seq<byte>
    requires Encodable(runs)
  {
    [ValueBits(runs), LengthBits(runs)] + BigEndian32(ByteCount(runs))
  }

  /** The whole block: header, then the runs' fields packed MSB-first and zero-padded. */
  function BenBlock(runs: seq<Run>): seq<byte>
    requires Encodable(runs)
  {
    Header(runs) + PackBytes(RunBits(runs, ValueBits(runs), LengthBits(runs)))
  }

  /**
   * The widths are the least that hold every value (but at least 1 bit) and every
   * length; both lie in 1..16 when every length is at least 1.
   */
  lemma Widths(runs: seq<Run>)
    requires |runs| > 0 && U16Runs(runs)
    ensures 1 <= ValueBits(runs) <= 16 && LengthBits(runs) <= 16
    ensures forall k :: 0 <= k < |runs| ==>
      runs[k].value < Pow2(ValueBits(runs)) && runs[k].length < Pow2(LengthBits(runs))
    ensures ValueBits(runs) > 1 ==>
      exists k :: 0 <= k < |runs| && Pow2(ValueBits(runs) - 1) <= runs[k].value
    ensures LengthBits(runs) > 0 ==>
      exists k :: 0 <= k < |runs| && Pow2(LengthBits(runs) - 1) <= runs[k].length
    ensures (forall k :: 0 <= k < |runs| ==> runs[k].length >= 1) ==> LengthBits(runs) >= 1
  {
    var vb, lb := ValueBits(runs), LengthBits(runs);
    var mv, ml := MaxValue(runs), MaxLength(runs);
    assert mv < Pow2(BitLength(mv));
    Pow2Monotone(BitLength(mv), vb);
  }

  /** The header and payload in detail: the layout a reader relies on. */
  lemma BlockLayout(runs: seq<Run>)
    requires Encodable(runs)
    ensures var b := BenBlock(runs);
      |b| == 6 + ByteCount(runs) &&
      b[0] == ValueBits(runs) && b[1] == LengthBits(runs) &&
      FromBigEndian32(b[2..6]) == |b| - 6 &&
      8 * (|b| - 6) - 8 < BitCount(runs) <= 8 * (|b| - 6) &&
      BitsOfBytes(b[6..]) == RunBits(runs, ValueBits(runs), LengthBits(runs))
                            + Zeros(8 * (|b| - 6) - BitCount(runs))
  {
    var b := BenBlock(runs);
    var bits := RunBits(runs, ValueBits(runs), LengthBits(runs));
    var header, payload := Header(runs), PackBytes(bits);
    assert |header| == 6 && b == header + payload;
    assert |payload| == ByteCount(runs) by {
      BitCountIsPayloadLength(runs);
    }
    assert b[2..6] == BigEndian32(ByteCount(runs));
    assert b[6..] == payload;
    CeilDiv8Bounds(BitCount(runs));
    BitCountIsPayloadLength(runs);
  }

  /** An `n`-bit `hi` shifted over an `m`-bit `lo` fits `n + m` bits. */
  lemma ShiftOrBound(hi: nat, lo: nat, n: nat, m: nat)
    requires hi < Pow2(n) && lo < Pow2(m)
    ensures Join(hi, lo, m) < Pow2(n + m)
  {
    var p := Pow2(m);
    Pow2Add(n, m);
    MulMonotone(Pow2(n), hi + 1, p);
    assert (hi + 1) * p == hi * p + p;
  }

  /** One byte taken off the top of an accumulator of `n + 8` bits. */
  lemma DrainStep(bytes: seq<byte>, x: nat, n: nat)
    requires x < Pow2(n + 8)
    ensures x / Pow2(n) < 0x100 && x % Pow2(n) < Pow2(n)
    ensures BitsOfBytes(bytes + [(x / Pow2(n)) % 0x100]) + Bits(x % Pow2(n), n)
            == BitsOfBytes(bytes) + Bits(x, n + 8)
  {
    DivPow2Bound(x, 8, n);
    var hi: nat, lo: nat := x / Pow2(n), x % Pow2(n);
    Pow2Values();
    assert Bits(x, 8 + n) == Bits(hi, 8) + Bits(lo, n) by {
      BitsSplit(hi, lo, 8, n);
    }
    ModSmall(hi, 0x100);
    assert [hi][1..] == [];
    assert BitsOfBytes([hi]) == Bits(hi, 8);
    BitsOfBytesAppend(bytes, [hi]);
  }

  /**
   * The `while n_bits_left >= 8` loop: emits the top 8 bits of the accumulator as a
   * byte and masks them off, until fewer than 8 bits are left.
   */
  method DrainBytes(newVal: nat, nBitsLeft: nat) returns (bytes: seq<byte>, rest: nat, restBits: nat)
    requires nBitsLeft < 32 && newVal < Pow2(nBitsLeft)
    ensures restBits < 8 && rest < Pow2(restBits)
    ensures 8 * |bytes| + restBits == nBitsLeft
    ensures BitsOfBytes(bytes) + Bits(rest, restBits) == Bits(newVal, nBitsLeft)
  {
    bytes, rest, restBits := [], newVal, nBitsLeft;
    while restBits >= 8
      invariant 8 * |bytes| + restBits == nBitsLeft
      invariant rest < Pow2(restBits)
      invariant BitsOfBytes(bytes) + Bits(rest, restBits) == Bits(newVal, nBitsLeft)
    {
      restBits := restBits - 8;
      // `(new_val >> n_bits_left) as u8`
      var buff := (rest / Pow2(restBits)) % 0x100;
      DrainStep(bytes, rest, restBits);
      bytes := bytes + [buff];
      // `new_val & !(0xFFFFFFFF << n_bits_left)`
      rest := rest % Pow2(restBits);
    }
  }

  /**
   * One field through the carry accumulator: `new_val = (remainder << width) | field`,
   * `n_bits_left = remainder_bits + width`, then the drain loop. The bytes emitted
   * followed by the bits still held spell the old held bits followed by the field.
   */
  method PushField(remainder: nat, remainderBits: nat, field: nat, width: nat)
    returns (bytes: seq<byte>, newRemainder: nat, newRemainderBits: nat)
    requires remainderBits < 8 && remainder < Pow2(remainderBits)
    requires width <= 16 && field < Pow2(width)
    ensures newRemainderBits < 8 && newRemainder < Pow2(newRemainderBits)
    ensures 8 * |bytes| + newRemainderBits == remainderBits + width
    ensures BitsOfBytes(bytes) + Bits(newRemainder, newRemainderBits)
            == Bits(remainder, remainderBits) + Bits(field, width)
  {
    var newVal := Join(remainder, field, width);
    var nBitsLeft := remainderBits + width;
    JoinField(remainder, remainderBits, field, width);
    bytes, newRemainder, newRemainderBits := DrainBytes(newVal, nBitsLeft);
  }

  /**
   * `(remainder << width) | field` holds the held bits followed by the field, in
   * at most 23 bits, so the `u32` accumulator never overflows.
   */
  lemma JoinField(remainder: nat, remainderBits: nat, field: nat, width: nat)
    requires remainderBits < 8 && remainder < Pow2(remainderBits)
    requires width <= 16 && field < Pow2(width)
    ensures var newVal := Join(remainder, field, width);
      0 <= newVal < Pow2(remainderBits + width) && newVal < 0x80_0000 &&
      Bits(newVal, remainderBits + width) == Bits(remainder, remainderBits) + Bits(field, width)
  {
    ShiftOrBound(remainder, field, remainderBits, width);
    BitsSplit(remainder, field, remainderBits, width);
    assert Pow2(remainderBits + width) <= 0x80_0000 by {
      Pow2Monotone(remainderBits + width, 23);
      Pow2Values();
    }
  }

  /** `(remainder << (8 - remainder_bits)) as u8`: the held bits, zero-padded to a byte. */
  lemma FlushByte(remainder: nat, remainderBits: nat)
    requires 0 < remainderBits < 8 && remainder < Pow2(remainderBits)
    ensures remainder * Pow2(8 - remainderBits) < 0x100
    ensures Bits((remainder * Pow2(8 - remainderBits)) % 0x100, 8)
            == Bits(remainder, remainderBits) + Zeros(8 - remainderBits)
  {
    var pad := 8 - remainderBits;
    MulNonNegative(remainder, Pow2(pad));
    var x: nat := remainder * Pow2(pad);
    assert x < 0x100 by {
      Pow2Values();
      ShiftOrBound(remainder, 0, remainderBits, pad);
    }
    assert x % 0x100 == x by {
      ModSmall(x, 0x100);
    }
    assert Bits(x, remainderBits + pad) == Bits(remainder, remainderBits) + Bits(0, pad) by {
      BitsSplit(remainder, 0, remainderBits, pad);
    }
    BitsOfZero(pad);
  }

  /** Bits emitted so far plus the bits still held, carried across two fields. */
  lemma CarryChain(a: seq<bool>, b1: seq<bool>, b2: seq<bool>,
                   held0: seq<bool>, held1: seq<bool>, held2: seq<bool>,
                   v: seq<bool>, l: seq<bool>, done: seq<bool>)
    requires a + held0 == done
    requires b1 + held1 == held0 + v
    requires b2 + held2 == held1 + l
    ensures a + b1 + b2 + held2 == done + (v + l)
  {
    calc {
      a + b1 + b2 + held2;
      a + b1 + (b2 + held2);
      a + b1 + (held1 + l);
      a + (b1 + held1) + l;
      a + (held0 + v) + l;
      (a + held0) + (v + l);
      done + (v + l);
    }
  }

  /** The bookkeeping of one loop iteration: run `i`'s two fields join the stream. */
  lemma PushRun(payload: seq<byte>, bytes1: seq<byte>, bytes2: seq<byte>,
                held0: seq<bool>, held1: seq<bool>, held2: seq<bool>,
                runs: seq<Run>, i: nat, vb: nat, lb: nat)
    requires i < |runs|
    requires BitsOfBytes(payload) + held0 == RunBits(runs[..i], vb, lb)
    requires BitsOfBytes(bytes1) + held1 == held0 + Bits(runs[i].value, vb)
    requires BitsOfBytes(bytes2) + held2 == held1 + Bits(runs[i].length, lb)
    ensures BitsOfBytes(payload + bytes1 + bytes2) + held2 == RunBits(runs[..i + 1], vb, lb)
  {
    var v, l := Bits(runs[i].value, vb), Bits(runs[i].length, lb);
    assert BitsOfBytes(payload + bytes1 + bytes2)
        == BitsOfBytes(payload) + BitsOfBytes(bytes1) + BitsOfBytes(bytes2) by {
      BitsOfBytesAppend(payload, bytes1);
      BitsOfBytesAppend(payload + bytes1, bytes2);
    }
    RunBitsSnoc(runs, i, vb, lb);
    CarryChain(BitsOfBytes(payload), BitsOfBytes(bytes1), BitsOfBytes(bytes2),
               held0, held1, held2, v, l, RunBits(runs[..i], vb, lb));
  }

  /** The final partial byte completes the packed payload. */
  lemma FlushRemainder(payload: seq<byte>, remainder: nat, remainderBits: nat, bits: seq<bool>)
    requires remainderBits < 8 && remainder < Pow2(remainderBits)
    requires BitsOfBytes(payload) + Bits(remainder, remainderBits) == bits
    ensures remainderBits == 0 ==> payload == PackBytes(bits)
    ensures remainderBits > 0 ==>
      payload + [(remainder * Pow2(8 - remainderBits)) % 0x100] == PackBytes(bits)
  {
    if remainderBits > 0 {
      var buff := (remainder * Pow2(8 - remainderBits)) % 0x100;
      FlushByte(remainder, remainderBits);
      BitsOfBytesAppend(payload, [buff]);
      assert [buff][1..] == [];
      assert BitsOfBytes([buff]) == Bits(buff, 8);
      assert BitsOfBytes(payload + [buff]) == bits + Zeros(8 - remainderBits);
      PackedPayload(payload + [buff], bits, 8 - remainderBits);
    } else {
      assert BitsOfBytes(payload) == bits + Zeros(0);
      PackedPayload(payload, bits, 0);
    }
  }

  /** `n_bytes` as the source computes it agrees with `ByteCount` and fits a `u32`. */
  lemma SourceByteCount(runs: seq<Run>, assignBits: nat)
    requires Encodable(runs) && assignBits == ValueBits(runs) + LengthBits(runs)
    ensures var p := assignBits * |runs|;
      (if p % 8 == 0 then p / 8 else p / 8 + 1) == ByteCount(runs) < U32_LIMIT
  {
    MulCommutes(assignBits, |runs|);
    CeilDiv8(assignBits * |runs|);
  }

  /**
   * The packing loop of `encode_ben_vec_from_rle` (its `for` over the runs and the
   * final partial byte): feeds each run's value and length through the carry
   * accumulator `remainder`/`remainder_bits`, emitting every completed byte.
   */
  method PackRuns(rleVec: seq<Run>, maxValBits: nat, maxLenBits: nat) returns (payload: seq<byte>)
    requires maxValBits <= 16 && maxLenBits <= 16
    requires forall k :: 0 <= k < |rleVec| ==>
      rleVec[k].value < Pow2(maxValBits) && rleVec[k].length < Pow2(maxLenBits)
    ensures payload == PackBytes(RunBits(rleVec, maxValBits, maxLenBits))
  {
    payload := [];
    var remainder: nat := 0;
    var remainderBits: nat := 0;
    for i := 0 to |rleVec|
      invariant remainderBits < 8 && remainder < Pow2(remainderBits)
      invariant BitsOfBytes(payload) + Bits(remainder, remainderBits)
                == RunBits(rleVec[..i], maxValBits, maxLenBits)
    {
      var val, len := rleVec[i].value, rleVec[i].length;
      var bytes1, rest1, restBits1 := PushField(remainder, remainderBits, val, maxValBits);
      var bytes2, rest2, restBits2 := PushField(rest1, restBits1, len, maxLenBits);
      PushRun(payload, bytes1, bytes2, Bits(remainder, remainderBits), Bits(rest1, restBits1),
              Bits(rest2, restBits2), rleVec, i, maxValBits, maxLenBits);
      payload := payload + bytes1 + bytes2;
      remainderBits := restBits2;
      remainder := rest2;
    }
    assert rleVec[..|rleVec|] == rleVec;
    FlushRemainder(payload, remainder, remainderBits, RunBits(rleVec, maxValBits, maxLenBits));
    if remainderBits > 0 {
      // `(remainder << (8 - remainder_bits)) as u8`
      var buff := (remainder * Pow2(8 - remainderBits)) % 0x100;
      payload := payload + [buff];
    }
  }

  /**
   * The first half of `encode_ben_vec_from_rle`: chooses the widths from the
   * largest value and the largest length and writes the six header bytes.
   */
  method WriteHeader(rleVec: seq<Run>) returns (outputVec: seq<byte>, maxValBits: nat, maxLenBits: nat)
    requires Encodable(rleVec)
    ensures outputVec == Header(rleVec)
    ensures maxValBits == ValueBits(rleVec) && maxLenBits == LengthBits(rleVec)
  {
    var maxVal := MaxValue(rleVec);
    var maxLen := MaxLength(rleVec);
    maxValBits := BitLength(maxVal);
    if maxValBits < 1 {
      maxValBits := 1;
    }
    maxLenBits := BitLength(maxLen);
    var assignBits := maxValBits + maxLenBits;
    var nBytes := if (assignBits * |rleVec|) % 8 == 0 then (assignBits * |rleVec|) / 8
                  else (assignBits * |rleVec|) / 8 + 1;
    assert nBytes == ByteCount(rleVec) < U32_LIMIT by {
      SourceByteCount(rleVec, assignBits);
    }
    outputVec := [maxValBits, maxLenBits] + BigEndian32(nBytes);
  }

  /**
   * `encode_ben_vec_from_rle`: the header, then the runs packed with the widths
   * the header announces.
   */
  method EncodeBenVecFromRle(rleVec: seq<Run>) returns (outputVec: seq<byte>)
    requires Encodable(rleVec)
    ensures outputVec == BenBlock(rleVec)
  {
    var maxValBits, maxLenBits;
    outputVec, maxValBits, maxLenBits := WriteHeader(rleVec);
    assert maxValBits <= 16 && maxLenBits <= 16 &&
      forall k :: 0 <= k < |rleVec| ==>
        rleVec[k].value < Pow2(maxValBits) && rleVec[k].length < Pow2(maxLenBits) by {
      Widths(rleVec);
    }
    var payload := PackRuns(rleVec, maxValBits, maxLenBits);
    outputVec := outputVec + payload;
  }

  datatype DecodeError = Truncated | BadWidths

  /**
   * Reads one block from the front of `bytes`: the header, exactly `byteLength`
   * payload bytes, and the runs packed in them; returns the runs and what follows.
   */
  function DecodeBlock(bytes: seq<byte>): (r: Result<(seq<Run>, seq<byte>), DecodeError>)
    ensures r.Ok? ==> |r.value.1| <= |bytes| - 6
  {
    if |bytes| < 6 then Err(Truncated)
    else
      var vb, lb, n := bytes[0], bytes[1], FromBigEndian32(bytes[2..6]);
      if |bytes| - 6 < n then Err(Truncated)
      else if vb > 16 || lb > 16 || vb + lb == 0 then Err(BadWidths)
      else Ok((UnpackRuns(BitsOfBytes(bytes[6..6 + n]), vb, lb), bytes[6 + n..]))
  }

  /** A well-formed header selects exactly the `n` payload bytes after it. */
  lemma DecodeHeader(bytes: seq<byte>, vb: nat, lb: nat, n: nat)
    requires |bytes| >= 6 + n && bytes[0] == vb && bytes[1] == lb
    requires FromBigEndian32(bytes[2..6]) == n && 1 <= vb <= 16 && 1 <= lb <= 16
    ensures DecodeBlock(bytes) == Ok((UnpackRuns(BitsOfBytes(bytes[6..6 + n]), vb, lb), bytes[6 + n..]))
  {
  }

  /** The header, payload and rest of a block followed by more bytes. */
  lemma HeaderSlices(b: seq<byte>, rest: seq<byte>)
    requires 6 <= |b|
    ensures (b + rest)[2..6] == b[2..6]
    ensures (b + rest)[6..|b|] == b[6..] && (b + rest)[|b|..] == rest
  {
  }

  /** A block decodes back to its runs, and the bytes after it are left untouched. */
  lemma BlockRoundTrip(runs: seq<Run>, rest: seq<byte>)
    requires Encodable(runs)
    requires forall k :: 0 <= k < |runs| ==> runs[k].length >= 1
    ensures DecodeBlock(BenBlock(runs) + rest) == Ok((runs, rest))
  {
    var b := BenBlock(runs);
    var vb, lb := ValueBits(runs), LengthBits(runs);
    var bytes := b + rest;
    BlockLayout(runs);
    var n := |b| - 6;
    HeaderSlices(b, rest);
    assert 1 <= vb <= 16 && 1 <= lb <= 16 && Fits(runs, vb, lb) by {
      Widths(runs);
    }
    DecodeHeader(bytes, vb, lb, n);
    assert UnpackRuns(BitsOfBytes(bytes[6..6 + n]), vb, lb) == runs by {
      UnpackRunBits(runs, vb, lb, 8 * n - BitCount(runs));
    }
  }

  /** Bytes whose bits are already whole bytes pack to themselves. */
  lemma PackBytesOfBytes(bs: seq<byte>)
    ensures PackBytes(BitsOfBytes(bs)) == bs
  {
    assert BitsOfBytes(bs) + Zeros(0) == BitsOfBytes(bs);
    PackedPayload(bs, BitsOfBytes(bs), 0);
  }

  /** The runs of the sample assignment `[1,1,1,2,2,2]`. */
  predicate IsFixtureOne(runs: seq<Run>)
  {
    |runs| == 2 && runs[0] == Run(1, 3) && runs[1] == Run(2, 3)
  }

  /** The runs of the sample assignment `[1,1,2,2,1,2]`. */
  predicate IsFixtureTwo(runs: seq<Run>)
  {
    |runs| == 4 && runs[0] == Run(1, 2) && runs[1] == Run(2, 2) &&
    runs[2] == Run(1, 1) && runs[3] == Run(2, 1)
  }

  /** The widths follow from where the maxima lie between powers of two. */
  lemma WidthsOfMaxima(runs: seq<Run>, vb: nat, lb: nat)
    requires |runs| > 0 && U16Runs(runs) && vb >= 1 && lb >= 1
    requires Pow2(vb - 1) <= MaxValue(runs) < Pow2(vb)
    requires Pow2(lb - 1) <= MaxLength(runs) < Pow2(lb)
    ensures ValueBits(runs) == vb && LengthBits(runs) == lb
  {
    BitLengthIs(MaxValue(runs), vb);
    BitLengthIs(MaxLength(runs), lb);
  }

  lemma FixtureOneMaxima(runs: seq<Run>)
    requires IsFixtureOne(runs)
    ensures MaxValue(runs) == 2 && MaxLength(runs) == 3
  {
    assert runs[1..] == [Run(2, 3)];
  }

  lemma FixtureOneWidths(runs: seq<Run>)
    requires IsFixtureOne(runs)
    ensures |runs| > 0 && U16Runs(runs)
    ensures ValueBits(runs) == 2 && LengthBits(runs) == 2
  {
    FixtureOneMaxima(runs);
    WidthsOfMaxima(runs, 2, 2);
  }

  lemma FixtureTwoMaxima(runs: seq<Run>)
    requires IsFixtureTwo(runs)
    ensures MaxValue(runs) == 2 && MaxLength(runs) == 2
  {
    assert runs[3..] == [Run(2, 1)];
    assert MaxValue(runs[3..]) == 2 && MaxLength(runs[3..]) == 1;
    assert runs[2..][1..] == runs[3..];
    assert MaxValue(runs[2..]) == 2 && MaxLength(runs[2..]) == 1;
    assert runs[1..][1..] == runs[2..];
    assert MaxValue(runs[1..]) == 2 && MaxLength(runs[1..]) == 2;
  }

  lemma FixtureTwoWidths(runs: seq<Run>)
    requires IsFixtureTwo(runs)
    ensures |runs| > 0 && U16Runs(runs)
    ensures ValueBits(runs) == 2 && LengthBits(runs) == 2
  {
    FixtureTwoMaxima(runs);
    WidthsOfMaxima(runs, 2, 2);
  }

  /** Four `w`-bit fields in a row spell the number they form, the first field on top. */
  lemma FourFields(a: nat, b: nat, c: nat, d: nat, w: nat)
    requires b < Pow2(w) && c < Pow2(w) && d < Pow2(w)
    ensures Bits(a, w) + Bits(b, w) + Bits(c, w) + Bits(d, w) == Bits(Join(Join(Join(a, b, w), c, w), d, w), 4 * w)
  {
    var ab := Join(a, b, w);
    var abc := Join(ab, c, w);
    BitsSplit(a, b, w, w);
    BitsSplit(ab, c, w + w, w);
    BitsSplit(abc, d, w + w + w, w);
  }

  /** Two runs with `w`-bit fields spell the number their four fields form. */
  lemma TwoRunsBits(r1: Run, r2: Run, w: nat)
    requires r1.length < Pow2(w) && r2.value < Pow2(w) && r2.length < Pow2(w)
    ensures RunBits([r1, r2], w, w) == Bits(Join(Join(Join(r1.value, r1.length, w), r2.value, w), r2.length, w), 4 * w)
  {
    RunBitsAppend([r1], [r2], w, w);
    RunBitsOne(r1, w, w);
    RunBitsOne(r2, w, w);
    assert [r1] + [r2] == [r1, r2];
    FourFields(r1.value, r1.length, r2.value, r2.length, w);
  }

  lemma FixtureOnePayloadBits(runs: seq<Run>)
    requires IsFixtureOne(runs)
    ensures RunBits(runs, 2, 2) == BitsOfBytes([123])
  {
    assert runs == [runs[0], runs[1]];
    assert Pow2(2) == 4;
    TwoRunsBits(runs[0], runs[1], 2);
  }

  lemma FixtureTwoPayloadBits(runs: seq<Run>)
    requires IsFixtureTwo(runs)
    ensures RunBits(runs, 2, 2) == BitsOfBytes([106, 89])
  {
    assert runs == [runs[0], runs[1]] + [runs[2], runs[3]];
    RunBitsAppend([runs[0], runs[1]], [runs[2], runs[3]], 2, 2);
    assert Pow2(2) == 4;
    TwoRunsBits(runs[0], runs[1], 2);
    TwoRunsBits(runs[2], runs[3], 2);
    BitsOfBytesAppend([106], [89]);
    assert [106] + [89] == [106, 89];
  }

  /** The bit count is the length of the payload bits before padding. */
  lemma BitCountIsPayloadLength(runs: seq<Run>)
    requires |runs| > 0 && U16Runs(runs)
    ensures BitCount(runs) == |RunBits(runs, ValueBits(runs), LengthBits(runs))|
  {
    RunBitsLength(runs, ValueBits(runs), LengthBits(runs));
  }

  /** A block whose runs fill whole bytes is the header, then exactly those bytes. */
  lemma WholeByteBlock(runs: seq<Run>, payload: seq<byte>)
    requires |runs| > 0 && U16Runs(runs)
    requires RunBits(runs, ValueBits(runs), LengthBits(runs)) == BitsOfBytes(payload)
    requires |payload| < 0x1000_0000
    ensures Encodable(runs) && ByteCount(runs) == |payload|
    ensures BenBlock(runs) == [ValueBits(runs), LengthBits(runs)] + BigEndian32(|payload|) + payload
  {
    var vb, lb := ValueBits(runs), LengthBits(runs);
    var p := |payload|;
    assert BitCount(runs) == 8 * p by {
      BitCountIsPayloadLength(runs);
    }
    assert ByteCount(runs) == p by {
      DivMod8(p, 7);
    }
    assert PackBytes(RunBits(runs, vb, lb)) == payload by {
      PackBytesOfBytes(payload);
    }
  }

  lemma SmallCountWords()
    ensures forall c :: 0 <= c < 0x100 ==> BigEndian32(c) == [0, 0, 0, c]
  {
  }

  lemma HeaderConcat(vb: byte, lb: byte, c: byte, payload: seq<byte>)
    ensures [vb, lb] + [0, 0, 0, c] + payload == [vb, lb, 0, 0, 0, c] + payload
  {
  }

  /** With fewer than 256 payload bytes the byte count is three zeros and one byte. */
  lemma ShortBlock(runs: seq<Run>, payload: seq<byte>, vb: byte, lb: byte)
    requires |runs| > 0 && U16Runs(runs)
    requires ValueBits(runs) == vb && LengthBits(runs) == lb
    requires RunBits(runs, vb, lb) == BitsOfBytes(payload) && |payload| < 0x100
    ensures Encodable(runs) && BenBlock(runs) == [vb, lb, 0, 0, 0, |payload|] + payload
  {
    WholeByteBlock(runs, payload);
    var c: byte := |payload|;
    assert BigEndian32(c) == [0, 0, 0, c] by {
      SmallCountWords();
    }
    HeaderConcat(vb, lb, c, payload);
  }

  lemma GoldenBytes()
    ensures [2, 2, 0, 0, 0, 1] + [123] == [2, 2, 0, 0, 0, 1, 123]
    ensures [2, 2, 0, 0, 0, 2] + [106, 89] == [2, 2, 0, 0, 0, 2, 106, 89]
  {
  }

  /** The first sample of the documented example, `[1,1,1,2,2,2]`, as a block. */
  lemma GoldenBlockOne(runs: seq<Run>)
    requires IsFixtureOne(runs)
    ensures Encodable(runs)
    ensures BenBlock(runs) == [2, 2, 0, 0, 0, 1, 123]
  {
    FixtureOneWidths(runs);
    FixtureOnePayloadBits(runs);
    ShortBlock(runs, [123], 2, 2);
    GoldenBytes();
  }

  /** The second sample of the documented example, `[1,1,2,2,1,2]`, as a block. */
  lemma GoldenBlockTwo(runs: seq<Run>)
    requires IsFixtureTwo(runs)
    ensures Encodable(runs)
    ensures BenBlock(runs) == [2, 2, 0, 0, 0, 2, 106, 89]
  {
    FixtureTwoWidths(runs);
    FixtureTwoPayloadBits(runs);
    ShortBlock(runs, [106, 89], 2, 2);
    GoldenBytes();
  }
}
