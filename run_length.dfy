/**
 * The run-length transform of an assignment vector: consecutive nodes that share
 * a label form one run `(value, length)`. `Rle` scans left to right exactly as the
 * loop of `encode_ben_32_line` does (and as `assign_to_rle` is used by
 * `jsonl_encode_ben`); `Expand` is its inverse.
 */
module RunLength {
  import opened Ints

  /** `length` consecutive occurrences of the label `value`. */
  datatype Run = Run(value: u16, length: nat)

  function Repeat(v: u16, n: nat): (s: seq<u16>)
    ensures |s| == n && forall k :: 0 <= k < n ==> s[k] == v
  {
    if n == 0 then [] else Repeat(v, n - 1) + [v]
  }

  /** Each run becomes `length` copies of `value`, in order. */
  function Expand(runs: seq<Run>): seq<u16>
  {
    if runs == [] then []
    else Expand(runs[..|runs| - 1]) + Repeat(runs[|runs| - 1].value, runs[|runs| - 1].length)
  }

  function TotalLength(runs: seq<Run>): nat
  {
    if runs == [] then 0 else TotalLength(runs[..|runs| - 1]) + runs[|runs| - 1].length
  }

  /** Every run is non-empty and no two neighbouring runs share a value. */
  ghost predicate Maximal(runs: seq<Run>)
  {
    (forall k :: 0 <= k < |runs| ==> runs[k].length >= 1) &&
    (forall k :: 0 < k < |runs| ==> runs[k - 1].value != runs[k].value)
  }

  /** Every run length fits the `u16` counter the encoders keep. */
  predicate U16Runs(runs: seq<Run>)
  {
    forall k :: 0 <= k < |runs| ==> runs[k].length < 0x1_0000
  }

  lemma ExpandSnoc(q: seq<Run>, r: Run)
    ensures Expand(q + [r]) == Expand(q) + Repeat(r.value, r.length)
    ensures TotalLength(q + [r]) == TotalLength(q) + r.length
  {
    assert (q + [r])[..|q|] == q;
  }

  lemma ExpandLength(runs: seq<Run>)
    ensures |Expand(runs)| == TotalLength(runs)
  {
  }

  /**
   * One node of the scan: a label equal to that of the open (last) run extends
   * it, any other label closes it and opens a run of one.
   */
  function Step(p: seq<Run>, x: u16): (q: seq<Run>)
    ensures |p| <= |q| <= |p| + 1 && |q| > 0
  {
    if |p| > 0 && p[|p| - 1].value == x then p[..|p| - 1] + [Run(x, p[|p| - 1].length + 1)]
    else p + [Run(x, 1)]
  }

  /**
   * What a step does to the runs: the runs before the open one are kept, the
   * open run carries the new label, and no run is added exactly when the label
   * repeats that of the open run, whose count then grows by one.
   */
  lemma StepShape(p: seq<Run>, x: u16)
    ensures var q := Step(p, x);
      q[..|q| - 1] == p[..|q| - 1] && q[|q| - 1].value == x &&
      (|q| == |p| <==> |p| > 0 && p[|p| - 1].value == x) &&
      (|q| == |p| ==> q[|q| - 1].length == p[|p| - 1].length + 1) &&
      (|q| == |p| + 1 ==> q[|q| - 1].length == 1)
  {
  }

  /** Run-length encoding: the first element opens a run, then `Step` for each node. */
  function Rle(s: seq<u16>): (r: seq<Run>)
    ensures |r| <= |s| && (|r| == 0 <==> |s| == 0)
  {
    if |s| == 0 then [] else Step(Rle(s[..|s| - 1]), s[|s| - 1])
  }

  lemma RleSnoc(t: seq<u16>, x: u16)
    ensures Rle(t + [x]) == Step(Rle(t), x)
  {
    assert (t + [x])[..|t|] == t;
  }

  /** A step adds exactly its node to the expansion. */
  lemma StepExpand(p: seq<Run>, x: u16)
    ensures Expand(Step(p, x)) == Expand(p) + [x]
  {
    if |p| > 0 && p[|p| - 1].value == x {
      var init, last := p[..|p| - 1], p[|p| - 1];
      assert p == init + [last];
      ExpandSnoc(init, last);
      ExpandSnoc(init, Run(x, last.length + 1));
    } else {
      ExpandSnoc(p, Run(x, 1));
      assert Repeat(x, 1) == [x];
    }
  }

  /** Expanding the runs of a vector gives the vector back. */
  lemma {:induction false} RleExpand(s: seq<u16>)
    ensures Expand(Rle(s)) == s
  {
    if |s| > 0 {
      var t, x := s[..|s| - 1], s[|s| - 1];
      assert s == t + [x];
      RleExpand(t);
      RleSnoc(t, x);
      StepExpand(Rle(t), x);
    }
  }

  /** One more node with the label of the last run lengthens that run. */
  lemma RleSnocSame(t: seq<u16>, x: u16, init: seq<Run>, n: nat)
    requires Rle(t) == init + [Run(x, n)]
    ensures Rle(t + [x]) == init + [Run(x, n + 1)]
  {
    RleSnoc(t, x);
    var p := Rle(t);
    assert p[..|p| - 1] == init && p[|p| - 1] == Run(x, n);
  }

  /** Runs of a prefix keep the `u16` bound of the runs of the whole. */
  lemma RlePrefixU16(s: seq<u16>, i: nat)
    requires i <= |s| && U16Runs(Rle(s))
    ensures U16Runs(Rle(s[..i]))
  {
    RlePrefix(s, i);
    PrefixLengths(Rle(s[..i]), Rle(s));
  }

  /** No run of a cut-short list is longer than the run at its place in the whole. */
  lemma PrefixLengths(a: seq<Run>, b: seq<Run>)
    requires RunsPrefix(a, b)
    ensures forall k :: 0 <= k < |a| ==> a[k].length <= b[k].length
  {
    forall k | 0 <= k < |a|
      ensures a[k].length <= b[k].length
    {
      if k < |a| - 1 {
        assert a[k] == b[k];
      }
    }
  }

  /** One more node with a new label opens a run of one. */
  lemma RleSnocNew(t: seq<u16>, x: u16)
    requires |Rle(t)| > 0 ==> Rle(t)[|Rle(t)| - 1].value != x
    ensures Rle(t + [x]) == Rle(t) + [Run(x, 1)]
  {
    RleSnoc(t, x);
  }

  /** A maximal list stays maximal when a non-empty run with a new value is appended. */
  lemma MaximalSnoc(p: seq<Run>, r: Run)
    requires Maximal(p) && r.length >= 1
    requires |p| > 0 ==> p[|p| - 1].value != r.value
    ensures Maximal(p + [r])
  {
    var q := p + [r];
    assert forall k :: 0 <= k < |p| ==> q[k] == p[k];
  }

  lemma MaximalInit(p: seq<Run>)
    requires Maximal(p) && |p| > 0
    ensures Maximal(p[..|p| - 1])
  {
  }

  /** A step keeps a run list maximal. */
  lemma StepMaximal(p: seq<Run>, x: u16)
    requires Maximal(p)
    ensures Maximal(Step(p, x))
  {
    if |p| > 0 && p[|p| - 1].value == x {
      var init := p[..|p| - 1];
      MaximalInit(p);
      assert |init| > 0 ==> init[|init| - 1].value != x by {
        if |init| > 0 {
          assert init[|init| - 1] == p[|p| - 2];
        }
      }
      MaximalSnoc(init, Run(x, p[|p| - 1].length + 1));
    } else {
      MaximalSnoc(p, Run(x, 1));
    }
  }

  /** The runs Rle produces are maximal. */
  lemma {:induction false} RleMaximal(s: seq<u16>)
    ensures Maximal(Rle(s))
  {
    if |s| > 0 {
      var t, x := s[..|s| - 1], s[|s| - 1];
      assert s == t + [x];
      RleMaximal(t);
      RleSnoc(t, x);
      StepMaximal(Rle(t), x);
    }
  }

  /** The run lengths add up to the length of the vector. */
  lemma RleTotalLength(s: seq<u16>)
    ensures TotalLength(Rle(s)) == |s|
  {
    RleExpand(s);
    ExpandLength(Rle(s));
  }

  /**
   * `a` is `b` cut short: every run of `a` but the last is the run of `b` at the
   * same place, and the last has the same value and is at most as long.
   */
  ghost predicate RunsPrefix(a: seq<Run>, b: seq<Run>)
  {
    |a| <= |b| && (forall k :: 0 <= k < |a| - 1 ==> a[k] == b[k]) &&
    (|a| > 0 ==> a[|a| - 1].value == b[|a| - 1].value && a[|a| - 1].length <= b[|a| - 1].length)
  }

  lemma RunsPrefixTrans(a: seq<Run>, b: seq<Run>, c: seq<Run>)
    requires RunsPrefix(a, b) && RunsPrefix(b, c)
    ensures RunsPrefix(a, c)
  {
  }

  lemma StepPrefix(p: seq<Run>, x: u16)
    ensures RunsPrefix(p, Step(p, x))
  {
    var q := Step(p, x);
    if |p| > 0 && p[|p| - 1].value == x {
      assert forall k :: 0 <= k < |p| - 1 ==> q[k] == p[k];
    } else {
      assert forall k :: 0 <= k < |p| ==> q[k] == p[k];
    }
  }

  /** Runs of a prefix are the runs of the whole, except that the last may be shorter. */
  lemma {:induction false} RlePrefix(s: seq<u16>, i: nat)
    requires i <= |s|
    ensures RunsPrefix(Rle(s[..i]), Rle(s))
  {
    if i < |s| {
      var t, x := s[..|s| - 1], s[|s| - 1];
      assert s[..i] == t[..i] && s == t + [x];
      RlePrefix(t, i);
      RleSnoc(t, x);
      StepPrefix(Rle(t), x);
      RunsPrefixTrans(Rle(s[..i]), Rle(t), Rle(s));
    } else {
      assert s[..i] == s;
    }
  }

  /** The runs of `t + Repeat(v, j)` when `v` differs from the last label of `t`. */
  lemma {:induction false} RleAppendRun(t: seq<u16>, v: u16, j: nat)
    requires j >= 1
    requires |Rle(t)| > 0 ==> Rle(t)[|Rle(t)| - 1].value != v
    ensures Rle(t + Repeat(v, j)) == Rle(t) + [Run(v, j)]
    decreases j
  {
    if j == 1 {
      assert t + Repeat(v, 1) == t + [v];
      RleSnocNew(t, v);
    } else {
      var u := t + Repeat(v, j - 1);
      assert t + Repeat(v, j) == u + [v];
      RleAppendRun(t, v, j - 1);
      RleSnocSame(u, v, Rle(t), j - 1);
    }
  }

  /** Rle is the only maximal run list with a given expansion: Rle(Expand(runs)) == runs. */
  lemma {:induction false} RleOfExpand(runs: seq<Run>)
    requires Maximal(runs)
    ensures Rle(Expand(runs)) == runs
  {
    if runs != [] {
      var init := runs[..|runs| - 1];
      var last := runs[|runs| - 1];
      assert runs == init + [last];
      assert Rle(Expand(init)) == init by {
        assert Maximal(init);
        RleOfExpand(init);
      }
      assert |init| > 0 ==> init[|init| - 1].value != last.value by {
        if |init| > 0 {
          assert init[|init| - 1] == runs[|runs| - 2];
        }
      }
      RleAppendRun(Expand(init), last.value, last.length);
      assert Expand(runs) == Expand(init) + Repeat(last.value, last.length);
    }
  }

}
