/**
 * The abstract bitstream of a BEN payload. Bits are `seq<bool>`, most significant
 * first. A run contributes its value in `valueBits` bits followed by its length in
 * `lengthBits` bits; the stream is cut into bytes MSB-first and the last partial
 * byte is padded with zero bits.
 */
module BitPacking {
  import opened Ints
  import opened Seqs
  import opened RunLength

  function Zeros(n: nat): (z: seq<bool>)
    ensures |z| == n && forall k :: 0 <= k < n ==> !z[k]
  {
    seq(n, _ => false)
  }

  /** The low `w` bits of `x`, most significant first. */
  function Bits(x: nat, w: nat): (r: seq<bool>)
    ensures |r| == w
  {
    if w == 0 then [] else Bits(x / 2, w - 1) + [x % 2 == 1]
  }

  /** The number whose binary digits, most significant first, are `b`. */
  function FromBits(b: seq<bool>): (r: nat)
    ensures r < Pow2(|b|)
    ensures Bits(r, |b|) == b
  {
    if b == [] then 0
    else
      var q := FromBits(b[..|b| - 1]);
      assert b == b[..|b| - 1] + [b[|b| - 1]];
      2 * q + (if b[|b| - 1] then 1 else 0)
  }

  lemma {:induction false} FromBitsOfBits(x: nat, w: nat)
    requires x < Pow2(w)
    ensures FromBits(Bits(x, w)) == x
  {
    if w > 0 {
      FromBitsOfBits(x / 2, w - 1);
      assert Bits(x, w)[..w - 1] == Bits(x / 2, w - 1);
    }
  }

  lemma {:induction false} BitsOfZero(w: nat)
    ensures Bits(0, w) == Zeros(w)
  {
    if w > 0 {
      BitsOfZero(w - 1);
    }
  }

  lemma {:induction false} FromBitsOfZeros(n: nat)
    ensures FromBits(Zeros(n)) == 0
  {
    BitsOfZero(n);
    FromBitsOfBits(0, n);
  }

  /** `(hi << w) | lo`, which is `hi * 2^w + lo` when `lo` is below `2^w`. */
  function Join(hi: nat, lo: nat, w: nat): nat
  {
    MulNonNegative(hi, Pow2(w));
    hi * Pow2(w) + lo
  }

  /** `hi` in `n` bits followed by `lo` in `m` bits spell `(hi << m) | lo` in `n + m` bits. */
  lemma {:induction false} BitsSplit(hi: nat, lo: nat, n: nat, m: nat)
    requires lo < Pow2(m)
    ensures Bits(Join(hi, lo, m), n + m) == Bits(hi, n) + Bits(lo, m)
  {
    if m > 0 {
      var x := hi * Pow2(m) + lo;
      assert hi * Pow2(m) == 2 * (hi * Pow2(m - 1));
      assert x / 2 == hi * Pow2(m - 1) + lo / 2;
      assert x % 2 == lo % 2;
      BitsSplit(hi, lo / 2, n, m - 1);
    }
  }

  /** Splitting `x < 2^(n+m)` at bit `m`: the quotient fits `n` bits. */
  lemma DivPow2Bound(x: nat, n: nat, m: nat)
    requires x < Pow2(n + m)
    ensures 0 <= x / Pow2(m) < Pow2(n) && 0 <= x % Pow2(m) < Pow2(m)
    ensures x == (x / Pow2(m)) * Pow2(m) + x % Pow2(m)
  {
    Pow2Add(n, m);
    DivBound(x, Pow2(m), Pow2(n));
  }

  lemma DivBound(x: nat, p: nat, n: nat)
    requires p > 0 && x < n * p
    ensures 0 <= x / p < n && 0 <= x % p < p && x == (x / p) * p + x % p
  {
    var q := x / p;
    assert q * p <= x;
    MulMonotone(q, n, p);
  }

  lemma MulMonotone(a: nat, b: nat, c: nat)
    ensures a >= b ==> a * c >= b * c
  {
  }

  /** The bits of a byte string: eight per byte, most significant first. */
  function BitsOfBytes(bs: seq<byte>): (r: seq<bool>)
    ensures |r| == 8 * |bs|
  {
    if bs == [] then [] else Bits(bs[0], 8) + BitsOfBytes(bs[1..])
  }

  lemma {:induction false} BitsOfBytesAppend(a: seq<byte>, b: seq<byte>)
    ensures BitsOfBytes(a + b) == BitsOfBytes(a) + BitsOfBytes(b)
  {
    if a != [] {
      assert (a + b)[0] == a[0];
      assert (a + b)[1..] == a[1..] + b;
      BitsOfBytesAppend(a[1..], b);
      assert BitsOfBytes(a + b) == Bits(a[0], 8) + BitsOfBytes(a[1..] + b);
    } else {
      assert a + b == b;
    }
  }

  /** Distinct byte strings have distinct bits. */
  lemma {:induction false} BitsOfBytesInjective(a: seq<byte>, b: seq<byte>)
    requires BitsOfBytes(a) == BitsOfBytes(b)
    ensures a == b
  {
    Pow2Values();
    if a != [] {
      assert BitsOfBytes(a)[..8] == Bits(a[0], 8);
      assert BitsOfBytes(b)[..8] == Bits(b[0], 8);
      FromBitsOfBits(a[0], 8);
      FromBitsOfBits(b[0], 8);
      assert BitsOfBytes(a)[8..] == BitsOfBytes(a[1..]);
      assert BitsOfBytes(b)[8..] == BitsOfBytes(b[1..]);
      BitsOfBytesInjective(a[1..], b[1..]);
    }
  }

  /** Groups a whole number of bytes' worth of bits into bytes. */
  function BytesOf(bits: seq<bool>): (r: seq<byte>)
    requires |bits| % 8 == 0
    ensures 8 * |r| == |bits| && BitsOfBytes(r) == bits
  {
    if |bits| == 0 then []
    else
      Pow2Values();
      var b := FromBits(bits[..8]);
      assert bits == bits[..8] + bits[8..];
      [b] + BytesOf(bits[8..])
  }

  /** Zero bits that bring a stream of `n` bits up to a byte boundary. */
  function PadLength(n: nat): nat
  {
    (8 - n % 8) % 8
  }

  /**
   * The bytes of a bitstream, MSB-first: as many bytes as the bits need, and
   * their bits are the stream followed by zero padding.
   */
  function PackBytes(bits: seq<bool>): (r: seq<byte>)
    ensures |r| == (|bits| + 7) / 8
    ensures BitsOfBytes(r) == bits + Zeros(8 * |r| - |bits|)
  {
    BytesOf(bits + Zeros(PadLength(|bits|)))
  }

  /** Bytes whose bits are a stream plus fewer than 8 zero bits are the packed stream. */
  lemma PackedPayload(payload: seq<byte>, bits: seq<bool>, pad: nat)
    requires pad < 8 && BitsOfBytes(payload) == bits + Zeros(pad)
    ensures payload == PackBytes(bits)
  {
    var r := PackBytes(bits);
    assert 8 * |payload| == |bits| + pad;
    assert |r| == |payload|;
    BitsOfBytesInjective(payload, r);
  }

  /** A run's field bits: the value in `vb` bits, then the length in `lb` bits. */
  function FieldBits(r: Run, vb: nat, lb: nat): (b: seq<bool>)
    ensures |b| == vb + lb
  {
    Bits(r.value, vb) + Bits(r.length, lb)
  }

  /** The fields of all runs, in order, with nothing between them. */
  function RunBits(runs: seq<Run>, vb: nat, lb: nat): seq<bool>
  {
    if runs == [] then [] else FieldBits(runs[0], vb, lb) + RunBits(runs[1..], vb, lb)
  }

  lemma {:induction false} RunBitsLength(runs: seq<Run>, vb: nat, lb: nat)
    ensures |RunBits(runs, vb, lb)| == |runs| * (vb + lb)
  {
    if runs != [] {
      RunBitsLength(runs[1..], vb, lb);
    }
  }

  lemma {:induction false} RunBitsAppend(a: seq<Run>, b: seq<Run>, vb: nat, lb: nat)
    ensures RunBits(a + b, vb, lb) == RunBits(a, vb, lb) + RunBits(b, vb, lb)
  {
    if a != [] {
      assert (a + b)[0] == a[0];
      assert (a + b)[1..] == a[1..] + b;
      RunBitsAppend(a[1..], b, vb, lb);
      assert RunBits(a + b, vb, lb) == FieldBits(a[0], vb, lb) + RunBits(a[1..] + b, vb, lb);
    } else {
      assert a + b == b;
    }
  }

  lemma RunBitsOne(r: Run, vb: nat, lb: nat)
    ensures RunBits([r], vb, lb) == FieldBits(r, vb, lb)
  {
    assert [r][1..] == [];
  }

  /** One more run appends its two fields. */
  lemma RunBitsSnoc(runs: seq<Run>, i: nat, vb: nat, lb: nat)
    requires i < |runs|
    ensures RunBits(runs[..i + 1], vb, lb) == RunBits(runs[..i], vb, lb) + FieldBits(runs[i], vb, lb)
  {
    SliceSnoc(runs, i);
    RunBitsOne(runs[i], vb, lb);
    RunBitsAppend(runs[..i], [runs[i]], vb, lb);
  }

  /** Every value fits `vb` bits and every length is non-zero and fits `lb` bits. */
  ghost predicate Fits(runs: seq<Run>, vb: nat, lb: nat)
  {
    forall k :: 0 <= k < |runs| ==>
      runs[k].value < Pow2(vb) && 1 <= runs[k].length < Pow2(lb)
  }

  /**
   * Reads runs back from a bitstream: a value field, then a length field, while a
   * whole pair is left; a zero length can only be padding and ends the stream.
   */
  function UnpackRuns(bits: seq<bool>, vb: nat, lb: nat): seq<Run>
    requires vb <= 16 && lb <= 16 && vb + lb > 0
    decreases |bits|
  {
    if |bits| < vb + lb then []
    else
      Pow2Monotone(vb, 16);
      Pow2Values();
      var v := FromBits(bits[..vb]);
      var l := FromBits(bits[vb..vb + lb]);
      if l == 0 then [] else [Run(v, l)] + UnpackRuns(bits[vb + lb..], vb, lb)
  }

  /** One run's fields at the front of the stream come back as that run. */
  lemma UnpackFront(r: Run, tail: seq<bool>, vb: nat, lb: nat)
    requires vb <= 16 && lb <= 16 && vb + lb > 0
    requires r.value < Pow2(vb) && 1 <= r.length < Pow2(lb)
    ensures UnpackRuns(FieldBits(r, vb, lb) + tail, vb, lb) == [r] + UnpackRuns(tail, vb, lb)
  {
    var bits := FieldBits(r, vb, lb) + tail;
    ThreeSlices(Bits(r.value, vb), Bits(r.length, lb), tail);
    FromBitsOfBits(r.value, vb);
    FromBitsOfBits(r.length, lb);
  }

  /** Padding alone unpacks to no runs: its first length field reads as zero. */
  lemma UnpackZeros(pad: nat, vb: nat, lb: nat)
    requires vb <= 16 && lb <= 16 && vb + lb > 0
    ensures UnpackRuns(Zeros(pad), vb, lb) == []
  {
    var bits := Zeros(pad);
    if |bits| >= vb + lb {
      assert bits[vb..vb + lb] == Zeros(lb);
      FromBitsOfZeros(lb);
    }
  }

  /** The first run unpacks in front of whatever the rest unpacks to. */
  lemma UnpackCons(runs: seq<Run>, vb: nat, lb: nat, pad: nat)
    requires vb <= 16 && lb <= 16 && vb + lb > 0
    requires runs != [] && runs[0].value < Pow2(vb) && 1 <= runs[0].length < Pow2(lb)
    requires UnpackRuns(RunBits(runs[1..], vb, lb) + Zeros(pad), vb, lb) == runs[1..]
    ensures UnpackRuns(RunBits(runs, vb, lb) + Zeros(pad), vb, lb) == runs
  {
    var r := runs[0];
    var tail := RunBits(runs[1..], vb, lb) + Zeros(pad);
    AppendAssoc(FieldBits(r, vb, lb), RunBits(runs[1..], vb, lb), Zeros(pad));
    UnpackFront(r, tail, vb, lb);
    ConsSplit(runs);
  }

  /** Unpacking inverts packing, whatever zero padding follows the fields. */
  lemma {:induction false} UnpackRunBits(runs: seq<Run>, vb: nat, lb: nat, pad: nat)
    requires vb <= 16 && lb <= 16 && vb + lb > 0
    requires Fits(runs, vb, lb)
    ensures UnpackRuns(RunBits(runs, vb, lb) + Zeros(pad), vb, lb) == runs
  {
    if runs == [] {
      assert RunBits(runs, vb, lb) + Zeros(pad) == Zeros(pad);
      UnpackZeros(pad, vb, lb);
    } else {
      assert Fits(runs[1..], vb, lb);
      UnpackRunBits(runs[1..], vb, lb, pad);
      UnpackCons(runs, vb, lb, pad);
    }
  }
}
