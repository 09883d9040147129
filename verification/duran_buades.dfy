/**
 The command-line driver of the Duran-Buades demosaicker: it checks its
 arguments, reads a Bayer image, validates the channel-correlation
 parameter beta, derives the filtering threshold h from it, hands the image
 to the demosaicking chain with a fixed parameter set, and stacks the three
 demosaicked channels into one planar buffer for the RGB writer.
 */
module DuranBuades {
  import opened Results
  import Planar
  import opened Images

  /** Why a run ends unsuccessfully, in the order the driver checks. */
  datatype RunError =
    | Usage           // fewer than three command-line arguments
    | ReadError       // the Bayer image could not be read
    | BetaOutOfRange  // beta lies outside [0, 1]
    | ChainFailed     // the demosaicking chain reported failure
    | WriteError      // the RGB image could not be written

  /** The program name plus input path, output path and beta. */
  const RequiredArgs: nat := 4

  /** The argument-count check: fewer than four entries of argv print the usage text. */
  function CheckArgCount(argc: nat): (r: Result<(), RunError>)
    ensures r.Err? <==> argc < RequiredArgs
    ensures r.Err? ==> r.error == Usage
  {
    if argc < RequiredArgs then Err(Usage) else Ok(())
  }

  /** Beta is accepted on the closed interval [0, 1], zero included. */
  predicate BetaValid(beta: real)
  {
    0.0 <= beta <= 1.0
  }

  /**
   The beta check: a value below 0 or above 1 ends the run. Beta is the
   float the driver narrows the parsed double to, before the check.
   */
  function CheckBeta(beta: real): (r: Result<real, RunError>)
    ensures r.Ok? <==> BetaValid(beta)
    ensures r.Ok? ==> r.value == beta
    ensures r.Err? ==> r.error == BetaOutOfRange
  {
    if beta < 0.0 || beta > 1.0 then Err(BetaOutOfRange) else Ok(beta)
  }

  /**
   The filtering threshold h: zero when beta is zero, otherwise the affine
   function (310 * beta - 214) / 3.
   */
  function Threshold(beta: real): (h: real)
    ensures beta == 0.0 ==> h == 0.0
    ensures beta != 0.0 ==> 3.0 * h + 214.0 == 310.0 * beta
  {
    if beta != 0.0 then (310.0 * beta - 214.0) / 3.0 else 0.0
  }

  /** The beta a non-zero threshold comes from: the inverse of the affine branch of Threshold. */
  function BetaOf(h: real): (beta: real)
    ensures 310.0 * beta == 3.0 * h + 214.0
  {
    (3.0 * h + 214.0) / 310.0
  }

  /** For every non-zero beta, the threshold determines beta back. */
  lemma ThresholdInverse(beta: real)
    requires beta != 0.0
    ensures BetaOf(Threshold(beta)) == beta
  {
  }

  /**
   On accepted, non-zero beta the threshold lies in (-214/3, 32], and it
   reaches 32 exactly at beta = 1.
   */
  lemma ThresholdRange(beta: real)
    requires BetaValid(beta) && beta != 0.0
    ensures -214.0 / 3.0 < Threshold(beta) <= 32.0
    ensures Threshold(beta) == 32.0 <==> beta == 1.0
  {
    var h := Threshold(beta);
    assert 3.0 * h == 310.0 * beta - 214.0;
  }

  /** The threshold grows strictly with beta away from zero. */
  lemma ThresholdIncreasing(beta: real, beta': real)
    requires 0.0 < beta < beta'
    ensures Threshold(beta) < Threshold(beta')
  {
    assert 3.0 * Threshold(beta) + 214.0 == 310.0 * beta;
    assert 3.0 * Threshold(beta') + 214.0 == 310.0 * beta';
  }

  /**
   The threshold vanishes at beta = 0, by the special case, and again at
   beta = 107/155, where the affine branch crosses zero; everywhere else on
   the accepted range it is non-zero. Zero is therefore no escape value: a
   beta just above 0 gives h near -214/3, not near 0.
   */
  lemma ThresholdZeros(beta: real)
    requires BetaValid(beta)
    ensures Threshold(beta) == 0.0 <==> beta == 0.0 || beta == 107.0 / 155.0
    ensures 0.0 < beta < 107.0 / 155.0 ==> Threshold(beta) < 0.0
  {
    if beta != 0.0 {
      assert 3.0 * Threshold(beta) + 214.0 == 310.0 * beta;
    }
  }

  /** The parameter set the driver hands to the demosaicking chain. */
  datatype Parameters = Parameters(
    beta: real, h: real, epsilon: real, bound: real,
    halfL: nat, reswind: nat, compwind: nat, similar: nat,
    redx: nat, redy: nat)

  /**
   The chain's parameters for a given beta: only beta and h vary, the rest
   is fixed (epsilon 1e-8, M 13, halfL 1, reswind 10, compwind 1, N 10, first
   red sample at (1, 0)).
   */
  function ChainParameters(beta: real): (p: Parameters)
    ensures p.beta == beta && p.h == Threshold(beta)
  {
    Parameters(beta, Threshold(beta), 0.00000001, 13.0, 1, 10, 1, 10, 1, 0)
  }

  /** Two runs hand the chain the same parameters apart from beta and h. */
  lemma ChainParametersFixed(beta: real, beta': real)
    ensures ChainParameters(beta').(beta := beta, h := Threshold(beta)) == ChainParameters(beta)
  {
  }

  /** Three demosaicked channels, each a row-major plane. */
  datatype Channels = Channels(red: seq<real>, green: seq<real>, blue: seq<real>)

  /** Every channel holds `dim` samples, as the driver allocates them. */
  predicate ChannelsOfSize(ch: Channels, dim: nat)
  {
    |ch.red| == dim && |ch.green| == dim && |ch.blue| == dim
  }

  /** Channel c of the three: 0 red, 1 green, 2 blue. */
  function ChannelAt(ch: Channels, c: nat): seq<real>
    requires c < 3
  {
    if c == 0 then ch.red else if c == 1 then ch.green else ch.blue
  }

  /**
   The planar output buffer the RGB writer expects: the channels one after
   another, each in its own row-major order.
   */
  function Stack(ch: Channels, dim: nat): (out: seq<real>)
    requires ChannelsOfSize(ch, dim)
    ensures |out| == 3 * dim
    ensures forall c, i | 0 <= c < 3 && 0 <= i < dim :: out[c * dim + i] == ChannelAt(ch, c)[i]
  {
    ch.red + ch.green + ch.blue
  }

  /** Splits a planar buffer of three planes back into its channels. */
  function Unstack(buf: seq<real>, dim: nat): (ch: Channels)
    requires |buf| == 3 * dim
    ensures ChannelsOfSize(ch, dim)
    ensures forall c, i | 0 <= c < 3 && 0 <= i < dim :: ChannelAt(ch, c)[i] == buf[c * dim + i]
  {
    Channels(buf[..dim], buf[dim..2 * dim], buf[2 * dim..])
  }

  /** Stacking and splitting are inverse to each other. */
  lemma StackRoundTrip(ch: Channels, buf: seq<real>, dim: nat)
    requires ChannelsOfSize(ch, dim) && |buf| == 3 * dim
    ensures Unstack(Stack(ch, dim), dim) == ch
    ensures Stack(Unstack(buf, dim), dim) == buf
  {
    var s := Stack(ch, dim);
    assert s[..dim] == ch.red;
    assert s[dim..2 * dim] == ch.green;
    assert s[2 * dim..] == ch.blue;
    var u := Unstack(buf, dim);
    assert u.red + u.green + u.blue == buf;
  }

  /** Slot c * dim + i of the stacked buffer exists and holds sample i of channel c. */
  lemma StackSlot(ch: Channels, dim: nat, c: nat, i: nat)
    requires ChannelsOfSize(ch, dim) && c < 3 && i < dim
    ensures c * dim + i < 3 * dim
    ensures Stack(ch, dim)[c * dim + i] == ChannelAt(ch, c)[i]
  {
    Planar.MulMonotone(c + 1, 3, dim);
  }

  /** The output holds the channels that end before position k of the copy loop. */
  ghost predicate CopiedBefore(ch: Channels, dim: nat, k: nat, out: seq<real>)
    requires ChannelsOfSize(ch, dim)
  {
    && |out| == 3 * dim && k <= 3 * dim
    && forall j | 0 <= j < k :: out[j] == Stack(ch, dim)[j]
  }

  /**
   The copy loop of the driver: for each channel c and each index i, write
   demosaicked[c][i] at output position k and advance k.
   */
  method Repack(ch: Channels, dim: nat) returns (out: seq<real>, k: nat)
    requires ChannelsOfSize(ch, dim)
    ensures k == 3 * dim
    ensures out == Stack(ch, dim)
  {
    out := seq(3 * dim, _ => 0.0);
    k := 0;
    var c := 0;
    while c < 3
      invariant c <= 3
      invariant k == c * dim
      invariant CopiedBefore(ch, dim, k, out)
    {
      var i := 0;
      while i < dim
        invariant i <= dim
        invariant k == c * dim + i
        invariant CopiedBefore(ch, dim, k, out)
      {
        StackSlot(ch, dim, c, i);
        CopyStep(ch, dim, k, out);
        out := out[k := ChannelAt(ch, c)[i]];
        k := k + 1;
        i := i + 1;
      }
      assert k == (c + 1) * dim;
      c := c + 1;
    }
    CopyDone(ch, dim, out);
  }

  /** Copying slot k of the stack keeps CopiedBefore. */
  lemma CopyStep(ch: Channels, dim: nat, k: nat, out: seq<real>)
    requires ChannelsOfSize(ch, dim) && CopiedBefore(ch, dim, k, out) && k < 3 * dim
    ensures CopiedBefore(ch, dim, k + 1, out[k := Stack(ch, dim)[k]])
  {
  }

  /** A fully copied output is the stack. */
  lemma CopyDone(ch: Channels, dim: nat, out: seq<real>)
    requires ChannelsOfSize(ch, dim) && CopiedBefore(ch, dim, 3 * dim, out)
    ensures out == Stack(ch, dim)
  {
  }

  /** Each output sample is the sample of its channel at the same row and column. */
  lemma StackIsPlanar(ch: Channels, width: nat, height: nat, c: nat, row: nat, col: nat)
    requires ChannelsOfSize(ch, width * height) && c < 3 && row < height && col < width
    ensures var k := Planar.Offset(width, height, c, row, col);
            k < 3 * (width * height)
            && Stack(ch, width * height)[k] == Planar.PlaneSample(width, height, ChannelAt(ch, c), row, col)
  {
    Planar.OffsetBound(width, height, 3, c, row, col);
    Planar.InPlane(width, height, row, col);
  }

  /** What the driver writes: an RGB image of the input's size, planar. */
  datatype Written = Written(width: nat, height: nat, samples: seq<real>)

  /**
   One run of the driver. The image reader, the demosaicking chain and the
   writer are outside the model: `input` is what the reader returned (None
   on failure), `chain` is the chain's result for an image and a parameter
   set (None when it does not report success), `writeOk` whether the writer
   succeeded.
   */
  function Run(argc: nat, input: Option<Frame>, beta: real,
               chain: (Frame, Parameters) -> Option<Channels>, writeOk: bool): (r: Result<Written, RunError>)
    requires input.Some? ==> WellFormed(input.value)
    requires forall f: Frame, p: Parameters :: chain(f, p).Some? ==> ChannelsOfSize(chain(f, p).value, f.nx * f.ny)
    ensures argc < RequiredArgs ==> r == Err(Usage)
    ensures argc >= RequiredArgs && input.None? ==> r == Err(ReadError)
    ensures argc >= RequiredArgs && input.Some? && !BetaValid(beta) ==> r == Err(BetaOutOfRange)
    ensures r.Ok? ==> && argc >= RequiredArgs && input.Some? && BetaValid(beta) && writeOk
                      && chain(input.value, ChainParameters(beta)).Some?
                      && r.value.width == input.value.nx && r.value.height == input.value.ny
                      && r.value.samples == Stack(chain(input.value, ChainParameters(beta)).value,
                                                 input.value.nx * input.value.ny)
    ensures argc >= RequiredArgs && input.Some? && BetaValid(beta) ==>
              (r.Ok? <==> chain(input.value, ChainParameters(beta)).Some? && writeOk)
  {
    match CheckArgCount(argc)
    case Err(e) => Err(e)
    case Ok(_) =>
      match input
      case None => Err(ReadError)
      case Some(bayer) =>
        match CheckBeta(beta)
        case Err(e) => Err(e)
        case Ok(b) =>
          var dim := bayer.nx * bayer.ny;
          match chain(bayer, ChainParameters(b))
          case None => Err(ChainFailed)
          case Some(channels) =>
            if !writeOk then Err(WriteError)
            else Ok(Written(bayer.nx, bayer.ny, Stack(channels, dim)))
  }
}
