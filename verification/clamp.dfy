/**
 The range limit applied to the demosaicked buffer before derotation: every
 sample is brought into the 16-bit range [0, 65535].
 */
module Clamp {

  /** The largest value of a 16-bit output sample. */
  const MaxSample: real := 65535.0

  predicate InRange(v: real)
  {
    0.0 <= v <= MaxSample
  }

  /**
   One sample through the two tests of the source, in their order: a
   negative value becomes 0, then a value above 65535 becomes 65535.
   */
  function Limit(v: real): (r: real)
    ensures InRange(r)
    ensures r == v <==> InRange(v)
  {
    var low := if 0.0 > v then 0.0 else v;
    if MaxSample < low then MaxSample else low
  }

  /** The limited value is the point of [0, 65535] nearest to the sample. */
  lemma LimitNearest(v: real, u: real)
    requires InRange(u)
    ensures var r := Limit(v);
            (r - v) * (r - v) <= (u - v) * (u - v)
  {
    var r := Limit(v);
    if v < 0.0 {
      assert 0.0 <= -v <= u - v;
    } else if v > MaxSample {
      assert 0.0 <= v - MaxSample <= v - u;
    }
  }

  /** The limited buffer: each sample limited, none moved. */
  function LimitAll(buf: seq<real>): (r: seq<real>)
    ensures |r| == |buf|
    ensures forall k | 0 <= k < |r| :: InRange(r[k])
    ensures forall k | 0 <= k < |r| :: InRange(buf[k]) ==> r[k] == buf[k]
  {
    seq(|buf|, k requires 0 <= k < |buf| => Limit(buf[k]))
  }

  /** Limiting a limited buffer changes nothing. */
  lemma LimitAllIdempotent(buf: seq<real>)
    ensures LimitAll(LimitAll(buf)) == LimitAll(buf)
  {
  }

  /** The limit loop: walk the buffer once, applying both tests to each sample. */
  method LimitBuffer(buf: seq<real>) returns (out: seq<real>)
    ensures out == LimitAll(buf)
  {
    out := buf;
    var i := 0;
    while i < |out|
      invariant |out| == |buf|
      invariant i <= |out|
      invariant forall k | 0 <= k < i :: out[k] == Limit(buf[k])
      invariant forall k | i <= k < |out| :: out[k] == buf[k]
    {
      if 0.0 > out[i] {
        out := out[i := 0.0];
      }
      if MaxSample < out[i] {
        out := out[i := MaxSample];
      }
      i := i + 1;
    }
  }
}
