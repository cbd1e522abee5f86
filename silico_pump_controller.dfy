/** `SilicoPumpController`: the simulated rig. A mixture is clamped and normalised as on the
    hardware, the colour is the weighted sum of four fixed primaries, noise is added and each
    channel is clipped to [0, 255]. The noise draw is a parameter. */
module Silico {
  import opened Wrappers
  import opened Mixture
  import opened HostFraming

  /** The rows of `true_coefficients`: red, green, blue and yellow as RGB. */
  const Primaries: seq<seq<real>> := [[255.0, 0.0, 0.0], [0.0, 255.0, 0.0], [0.0, 0.0, 255.0], [255.0, 255.0, 0.0]]

  /** Column `c` of a matrix given by its rows. */
  function Column(rows: seq<seq<real>>, c: nat): (col: seq<real>)
    requires forall i :: 0 <= i < |rows| ==> c < |rows[i]|
    ensures |col| == |rows| && forall i :: 0 <= i < |rows| ==> col[i] == rows[i][c]
  {
    seq(|rows|, i requires 0 <= i < |rows| => rows[i][c])
  }

  /** The inner product of two vectors of the same length. */
  function Inner(a: seq<real>, b: seq<real>): real
    requires |a| == |b|
  {
    if a == [] then 0.0 else a[0] * b[0] + Inner(a[1..], b[1..])
  }

  /** `np.dot(weights, true_coefficients)`: the noise-free colour, which is the weighted sum
      of the primaries channel by channel. */
  function Exact(w: seq<real>): (rgb: seq<real>)
    requires |w| == 4
    ensures rgb == [255.0 * (w[0] + w[3]), 255.0 * (w[1] + w[3]), 255.0 * w[2]]
  {
    var red, green, blue := Column(Primaries, 0), Column(Primaries, 1), Column(Primaries, 2);
    assert red == [255.0, 0.0, 0.0, 255.0] && green == [0.0, 255.0, 0.0, 255.0] && blue == [0.0, 0.0, 255.0, 0.0];
    InnerOfFour(w, red);
    InnerOfFour(w, green);
    InnerOfFour(w, blue);
    var rgb := seq(3, c requires 0 <= c < 3 => Inner(w, Column(Primaries, c)));
    assert rgb[0] == Inner(w, red) == 255.0 * (w[0] + w[3]);
    assert rgb[1] == Inner(w, green) == 255.0 * (w[1] + w[3]);
    assert rgb[2] == Inner(w, blue) == 255.0 * w[2];
    rgb
  }

  /** `np.clip(x, 0, 255)` on one channel. */
  function Clip(x: real): (y: real)
    ensures 0.0 <= y <= 255.0
    ensures 0.0 <= x <= 255.0 ==> y == x
  {
    if x < 0.0 then 0.0 else if x > 255.0 then 255.0 else x
  }

  /** A colour whose every channel lies in [0, 255]. */
  predicate InGamut(rgb: seq<real>) {
    forall c :: 0 <= c < |rgb| ==> 0.0 <= rgb[c] <= 255.0
  }

  /** `np.clip(mixed_color + noise, 0, 255)`. */
  function ClipSum(rgb: seq<real>, noise: seq<real>): (r: seq<real>)
    requires |noise| == |rgb|
    ensures |r| == |rgb| && InGamut(r)
  {
    seq(|rgb|, c requires 0 <= c < |rgb| => Clip(rgb[c] + noise[c]))
  }

  /** The colour `mix_color` returns for a mixture of four weights and one noise draw. */
  function Mix(m: seq<real>, noise: seq<real>): (rgb: seq<real>)
    requires |m| == 4 && Mixable(m) && |noise| == 3
    ensures |rgb| == 3 && InGamut(rgb)
  {
    ClipSum(Exact(Normalize(m)), noise)
  }

  lemma InnerOfFour(a: seq<real>, b: seq<real>)
    requires |a| == 4 && |b| == 4
    ensures Inner(a, b) == a[0] * b[0] + a[1] * b[1] + a[2] * b[2] + a[3] * b[3]
  {
    assert a[3..][1..] == [] && b[3..][1..] == [];
    assert Inner(a[3..], b[3..]) == a[3] * b[3];
    assert a[2..][1..] == a[3..] && b[2..][1..] == b[3..];
    assert Inner(a[2..], b[2..]) == a[2] * b[2] + a[3] * b[3];
    assert a[1..][1..] == a[2..] && b[1..][1..] == b[2..];
  }

  /** A convex combination of the primaries lies in the gamut. */
  lemma {:induction false} ExactInGamut(w: seq<real>)
    requires |w| == 4 && NonNegative(w) && Sum(w) == 1.0
    ensures InGamut(Exact(w))
  {
    SumOfFour(w);
  }

  /** With no noise, clipping changes nothing: the result is the exact weighted sum. */
  lemma NoiselessIsExact(m: seq<real>)
    requires |m| == 4 && Mixable(m)
    ensures Mix(m, [0.0, 0.0, 0.0]) == Exact(Normalize(m))
  {
    NormalizeIsDistribution(m);
    ExactInGamut(Normalize(m));
  }

  /** A mixture that is already a distribution is mixed as it stands. */
  lemma DistributionMix(w: seq<real>)
    requires |w| == 4 && NonNegative(w) && w[0] + w[1] + w[2] + w[3] == 1.0
    ensures Mixable(w)
    ensures Mix(w, [0.0, 0.0, 0.0]) == [255.0 * (w[0] + w[3]), 255.0 * (w[1] + w[3]), 255.0 * w[2]]
  {
    assert Clamp(w) == w;
    SumOfFour(w);
    assert Normalize(w) == w;
    NoiselessIsExact(w);
  }

  /** Pure red gives red and pure yellow gives yellow. */
  lemma PrimaryExamples()
    ensures Mix([1.0, 0.0, 0.0, 0.0], [0.0, 0.0, 0.0]) == [255.0, 0.0, 0.0]
    ensures Mix([0.0, 0.0, 0.0, 1.0], [0.0, 0.0, 0.0]) == [255.0, 255.0, 0.0]
  {
    DistributionMix([1.0, 0.0, 0.0, 0.0]);
    DistributionMix([0.0, 0.0, 0.0, 1.0]);
  }

  class SilicoPumpController {
    const noiseStd: real
    var targetMixture: Option<seq<real>>
    var targetColor: Option<seq<real>>
    var log: seq<LogRecord>

    /** `__init__`: no target yet and an empty log. */
    constructor (noiseStd: real)
      ensures this.noiseStd == noiseStd
      ensures targetMixture == None && targetColor == None && log == []
    {
      this.noiseStd := noiseStd;
      targetMixture := None;
      targetColor := None;
      log := [];
    }

    /** `mix_color` with `noise` standing for the draw from `np.random.normal`. A mixture
        without four weights makes `np.dot` raise; with a target unset, or a target of fewer
        than two values, the log write raises after the colour was computed. */
    method MixColor(m: seq<real>, noise: seq<real>, changingTarget: bool) returns (r: Result<seq<real>, Fault>)
      requires (|m| == 4 ==> Mixable(m)) && |noise| == 3
      modifies this
      ensures targetMixture == old(targetMixture) && targetColor == old(targetColor)
      ensures |m| != 4 ==> r == Err(WrongShape) && log == old(log)
      ensures |m| == 4 && changingTarget ==> r == Ok(Mix(m, noise)) && log == old(log)
      ensures |m| == 4 && !changingTarget ==>
        match Record(Normalize(m), Mix(m, noise), old(targetMixture), old(targetColor))
        case Err(f) => r == Err(f) && log == old(log)
        case Ok(row) => r == Ok(Mix(m, noise)) && log == old(log) + [row]
      ensures |m| == 4 && !changingTarget ==>
        (r.Ok? <==> old(targetMixture).Some? && old(targetColor).Some?
                    && |old(targetMixture).value| >= 2 && |old(targetColor).value| >= 2)
    {
      if |m| != 4 {
        return Err(WrongShape);
      }
      var mixture := Normalize(m);
      var mixedColorWithNoise := ClipSum(Exact(mixture), noise);
      if !changingTarget {
        var row := Record(mixture, mixedColorWithNoise, targetMixture, targetColor);
        if row.Err? {
          return Err(row.error);
        }
        log := log + [row.value];
      }
      return Ok(mixedColorWithNoise);
    }

    /** `change_target`: the raw mixture is stored first, then the colour it mixes to; nothing
        is logged. */
    method ChangeTarget(m: seq<real>, noise: seq<real>) returns (r: Result<seq<real>, Fault>)
      requires (|m| == 4 ==> Mixable(m)) && |noise| == 3
      modifies this
      ensures targetMixture == Some(m) && log == old(log)
      ensures |m| == 4 ==> r == Ok(Mix(m, noise)) && targetColor == Some(Mix(m, noise))
      ensures |m| != 4 ==> r == Err(WrongShape) && targetColor == old(targetColor)
    {
      targetMixture := Some(m);
      r := MixColor(m, noise, true);
      if r.Ok? {
        targetColor := Some(r.value);
      }
    }
  }
}
