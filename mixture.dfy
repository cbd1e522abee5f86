/** The mixture arithmetic both controllers share (clamp negative weights, divide by the sum,
    scale by the cell volume) and the record `write_to_logfile` appends to the mixture log. */
module Mixture {
  import opened Wrappers
  import opened HostFraming

  /** `col_list[col_list < 0] = 0`. */
  function Clamp(m: seq<real>): (c: seq<real>)
    ensures |c| == |m| && NonNegative(c)
    ensures forall i :: 0 <= i < |m| && m[i] >= 0.0 ==> c[i] == m[i]
  {
    seq(|m|, i requires 0 <= i < |m| => if m[i] < 0.0 then 0.0 else m[i])
  }

  /** `np.sum`. */
  function Sum(s: seq<real>): real {
    if s == [] then 0.0 else s[0] + Sum(s[1..])
  }

  /** Every element multiplied by `k` (`[i * cell_volume for i in col_list]`). */
  function Scale(s: seq<real>, k: real): (r: seq<real>)
    ensures |r| == |s|
  {
    seq(|s|, i requires 0 <= i < |s| => s[i] * k)
  }

  /** The normalising sum is positive: the clamped weights are not all zero. */
  predicate Mixable(m: seq<real>) {
    Sum(Clamp(m)) > 0.0
  }

  /** `np.divide(s, d)` for a scalar divisor. */
  function Divide(s: seq<real>, d: real): (r: seq<real>)
    requires d != 0.0
    ensures |r| == |s|
  {
    seq(|s|, i requires 0 <= i < |s| => s[i] / d)
  }

  /** `np.divide(col_list, np.sum(col_list))` after clamping. */
  function Normalize(m: seq<real>): (w: seq<real>)
    requires Mixable(m)
    ensures |w| == |m| && NonNegative(w)
  {
    Divide(Clamp(m), Sum(Clamp(m)))
  }

  predicate NonNegative(s: seq<real>) {
    forall i :: 0 <= i < |s| ==> s[i] >= 0.0
  }

  lemma {:induction false} SumScale(s: seq<real>, k: real)
    ensures Sum(Scale(s, k)) == Sum(s) * k
  {
    if s != [] {
      var t := Scale(s, k);
      forall i | 0 <= i < |s| - 1 ensures t[1..][i] == Scale(s[1..], k)[i] {
        assert t[1..][i] == s[i + 1] * k;
      }
      assert t[1..] == Scale(s[1..], k);
      SumScale(s[1..], k);
      assert Sum(t) == t[0] + Sum(t[1..]);
      assert (s[0] + Sum(s[1..])) * k == s[0] * k + Sum(s[1..]) * k;
    }
  }

  lemma SumOfFour(v: seq<real>)
    requires |v| == 4
    ensures Sum(v) == v[0] + v[1] + v[2] + v[3]
  {
    assert v[3..][1..] == [];
    assert Sum(v[3..]) == v[3];
    assert v[2..][1..] == v[3..];
    assert Sum(v[2..]) == v[2] + v[3];
    assert v[1..][1..] == v[2..];
    assert Sum(v[1..]) == v[1] + v[2] + v[3];
  }

  lemma {:induction false} SumNonNegative(s: seq<real>)
    requires NonNegative(s)
    ensures Sum(s) >= 0.0
  {
    if s != [] {
      SumNonNegative(s[1..]);
    }
  }

  lemma DivideIsScale(c: seq<real>, s: real)
    requires s != 0.0
    ensures Divide(c, s) == Scale(c, 1.0 / s)
  {
    forall i | 0 <= i < |c| ensures Divide(c, s)[i] == Scale(c, 1.0 / s)[i] {
      assert c[i] / s == c[i] * (1.0 / s);
    }
  }

  /** After clamping and dividing by a positive sum the weights form a probability vector. */
  lemma NormalizeIsDistribution(m: seq<real>)
    requires Mixable(m)
    ensures NonNegative(Normalize(m))
    ensures Sum(Normalize(m)) == 1.0
  {
    var c := Clamp(m);
    var s := Sum(c);
    var w := Normalize(m);
    forall i | 0 <= i < |w| ensures w[i] >= 0.0 {
      assert c[i] >= 0.0;
    }
    DivideIsScale(c, s);
    SumScale(c, 1.0 / s);
    assert s * (1.0 / s) == 1.0;
  }

  /** A negative weight is treated as zero, and every other weight keeps its share
      of the clamped total. */
  lemma NormalizeShares(m: seq<real>, i: nat)
    requires Mixable(m) && i < |m|
    ensures m[i] <= 0.0 ==> Normalize(m)[i] == 0.0
    ensures m[i] >= 0.0 ==> Normalize(m)[i] * Sum(Clamp(m)) == m[i]
  {
  }

  /** The four dispensed volumes add up to the cell volume. */
  lemma VolumesFillCell(m: seq<real>, cellVolume: real)
    requires Mixable(m)
    ensures Sum(Scale(Normalize(m), cellVolume)) == cellVolume
    ensures cellVolume >= 0.0 ==> NonNegative(Scale(Normalize(m), cellVolume))
  {
    var w := Normalize(m);
    NormalizeIsDistribution(m);
    SumScale(w, cellVolume);
    if cellVolume >= 0.0 {
      forall i | 0 <= i < |w| ensures Scale(w, cellVolume)[i] >= 0.0 {
        assert w[i] >= 0.0;
      }
    }
  }

  /** A negative weight is dropped: `[-0.5, 0.5, 0.5, 0.5]` mixes like `[0, 1/3, 1/3, 1/3]`. */
  lemma NegativeWeightExample()
    ensures Mixable([-0.5, 0.5, 0.5, 0.5])
    ensures Normalize([-0.5, 0.5, 0.5, 0.5]) == [0.0, 1.0 / 3.0, 1.0 / 3.0, 1.0 / 3.0]
  {
    var c := Clamp([-0.5, 0.5, 0.5, 0.5]);
    assert c == [0.0, 0.5, 0.5, 0.5];
    assert Sum(c) == 1.5 by {
      assert c[1..][1..][1..][1..] == [];
    }
  }

  /** One row of the mixture log: `mixture, measurement, target_mixture, target_measurement`,
      each read back as a list of floats. */
  datatype LogRecord = LogRecord(mixture: seq<real>, measurement: seq<real>,
                                 targetMixture: seq<real>, targetMeasurement: seq<real>)

  /** `write_to_logfile`: the row it appends. `map(str, None)` raises `TypeError` while a
      target is still unset. Then `literal_eval` reads every field back, and an empty field
      raises `SyntaxError`; only after all four are read does the float conversion run, and a
      field of one value, read back as a number, raises `TypeError` there. */
  function Record(mixture: seq<real>, measurement: seq<real>,
                  targetMixture: Option<seq<real>>, targetColor: Option<seq<real>>): (r: Result<LogRecord, Fault>)
    ensures r.Ok? <==> targetMixture.Some? && targetColor.Some? && |mixture| >= 2 && |measurement| >= 2
                       && |targetMixture.value| >= 2 && |targetColor.value| >= 2
    ensures targetMixture.None? || targetColor.None? ==> r == Err(TargetUnset)
    ensures r == Err(EmptyField) <==>
      targetMixture.Some? && targetColor.Some?
      && (|mixture| == 0 || |measurement| == 0 || |targetMixture.value| == 0 || |targetColor.value| == 0)
    ensures r == Err(ScalarField) <==>
      targetMixture.Some? && targetColor.Some?
      && |mixture| > 0 && |measurement| > 0 && |targetMixture.value| > 0 && |targetColor.value| > 0
      && (|mixture| == 1 || |measurement| == 1 || |targetMixture.value| == 1 || |targetColor.value| == 1)
    ensures r.Err? && r.error != TargetUnset ==>
      (r.error == EmptyField || r.error == ScalarField) && (|mixture| < 2 || |measurement| < 2
       || |targetMixture.value| < 2 || |targetColor.value| < 2)
    ensures r.Ok? ==> r.value == LogRecord(mixture, measurement, targetMixture.value, targetColor.value)
  {
    if targetMixture.None? || targetColor.None? then Err(TargetUnset)
    else
      var row := LogRecord(mixture, measurement, targetMixture.value, targetColor.value);
      if |row.mixture| == 0 || |row.measurement| == 0 || |row.targetMixture| == 0 || |row.targetMeasurement| == 0 then
        Err(EmptyField)
      else if |row.mixture| == 1 || |row.measurement| == 1 || |row.targetMixture| == 1 || |row.targetMeasurement| == 1 then
        Err(ScalarField)
      else Ok(row)
  }

  /** An empty field wins over a one-value field in another column, because every field is
      read back before any is converted. */
  lemma EmptyBeforeScalar()
    ensures Record([0.25, 0.25, 0.25, 0.25], [5.0], Some([]), Some([1.0, 2.0, 3.0])) == Err(EmptyField)
  {
  }
}
