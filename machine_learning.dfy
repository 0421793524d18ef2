// The arithmetic that the machine-learning module wraps around scikit-learn and statsmodels:
// the confusion-matrix metrics of compute_performance and the cut-offs that turn model
// outputs into 0/1 labels. The fitted models and their raw predictions are inputs.
module MachineLearning {
  import opened Tables

  // ------------------------------------------------------------- compute_performance

  /** The four cells of a binary confusion matrix, in the order ravel() returns them. */
  datatype Confusion = Confusion(tn: nat, fp: nat, fn: nat, tp: nat)

  /** The odds ratio (tp * tn) / (fp * fn), or 0 when either off-diagonal cell is empty. */
  function OddsRatio(m: Confusion): (r: real)
    ensures m.fp == 0 || m.fn == 0 ==> r == 0.0
    ensures m.fp != 0 && m.fn != 0 ==> r * (m.fp * m.fn) as real == (m.tp * m.tn) as real
    ensures r >= 0.0
  {
    if m.fp != 0 && m.fn != 0 then (m.tp * m.tn) as real / (m.fp * m.fn) as real else 0.0
  }

  /** Swapping which class counts as positive swaps tp with tn and fp with fn. */
  function Relabelled(m: Confusion): Confusion {
    Confusion(m.tp, m.fn, m.fp, m.tn)
  }

  /** The odds ratio does not depend on which class is called positive. */
  lemma OddsRatioSymmetric(m: Confusion)
    ensures OddsRatio(Relabelled(m)) == OddsRatio(m)
  {
    if m.fp != 0 && m.fn != 0 {
      assert m.fn * m.fp == m.fp * m.fn && m.tn * m.tp == m.tp * m.tn;
    }
  }

  /** Where it is defined, the odds ratio exceeds one exactly when the diagonal outweighs the off-diagonal. */
  lemma OddsRatioAboveOne(m: Confusion)
    requires m.fp != 0 && m.fn != 0
    ensures OddsRatio(m) > 1.0 <==> m.tp * m.tn > m.fp * m.fn
  {
    var d := (m.fp * m.fn) as real;
    var r := OddsRatio(m);
    assert (r - 1.0) * d == (m.tp * m.tn) as real - d;
    PositiveFactor(r - 1.0, d);
  }

  /** With a positive factor d, x * d has the sign of x. */
  lemma PositiveFactor(x: real, d: real)
    requires d > 0.0
    ensures x > 0.0 <==> x * d > 0.0
    ensures x < 0.0 <==> x * d < 0.0
  {
  }

  /** A share a / b of a positive whole b that contains it lies in [0, 1], and is 1 exactly when a is all of b. */
  lemma ShareFacts(a: nat, b: nat, q: real)
    requires 0 < b && a <= b && q * b as real == a as real
    ensures 0.0 <= q <= 1.0
    ensures q == 1.0 <==> a == b
  {
    var d := b as real;
    assert q == a as real / d;
    assert (1.0 - q) * d == (b - a) as real;
    PositiveFactor(1.0 - q, d);
  }

  /** Precision tp / (tp + fp); numpy's integer division gives NaN when nothing was predicted positive. */
  function Precision(m: Confusion): (v: Value)
    ensures v.NonFinite? <==> m.tp + m.fp == 0
    ensures v.Num? ==> v.x * (m.tp + m.fp) as real == m.tp as real
    ensures v.Num? ==> 0.0 <= v.x <= 1.0
    ensures v.Num? ==> (v.x == 1.0 <==> m.fp == 0)
  {
    var v := Divide(m.tp as real, (m.tp + m.fp) as real);
    if v.Num? then ShareFacts(m.tp, m.tp + m.fp, v.x); v else v
  }

  /** More false positives at the same true positives never raise precision. */
  lemma PrecisionFalls(m: Confusion, extra: nat)
    requires m.tp + m.fp > 0
    ensures Precision(Confusion(m.tn, m.fp + extra, m.fn, m.tp)).x <= Precision(m).x
  {
    var p := Precision(m).x;
    var q := Precision(Confusion(m.tn, m.fp + extra, m.fn, m.tp)).x;
    var d := (m.tp + m.fp) as real;
    var e := (m.tp + m.fp + extra) as real;
    assert p * d == m.tp as real && q * e == m.tp as real;
    assert (p - q) * d == p * d - q * d;
    assert q * (e - d) == q * e - q * d;
    assert q * (e - d) >= 0.0 by {
      if extra > 0 {
        PositiveFactor(q, e - d);
      }
    }
    PositiveFactor(p - q, d);
  }

  // ---------------------------------------------------------------------- thresholds

  /** The cut-off the regressions and the logistic model share. */
  const Cutoff: real := 0.5

  /** np.where(predicted < 0.5, 0, 1): the regressors' outputs as labels. */
  function RegressionLabels(predicted: seq<real>): (labels: seq<int>)
    ensures |labels| == |predicted|
    ensures forall i :: 0 <= i < |labels| ==> (labels[i] == 0 <==> predicted[i] < Cutoff)
    ensures forall i :: 0 <= i < |labels| ==> (labels[i] == 1 <==> predicted[i] >= Cutoff)
  {
    seq(|predicted|, i requires 0 <= i < |predicted| => if predicted[i] < Cutoff then 0 else 1)
  }

  /** np.where(raw_prediction >= 0.5, 1, 0): the logistic model's probabilities as labels. */
  function ProbabilityLabels(probabilities: seq<real>): (labels: seq<int>)
    ensures |labels| == |probabilities|
    ensures forall i :: 0 <= i < |labels| ==> (labels[i] == 1 <==> probabilities[i] >= Cutoff)
    ensures forall i :: 0 <= i < |labels| ==> (labels[i] == 0 <==> probabilities[i] < Cutoff)
  {
    seq(|probabilities|, i requires 0 <= i < |probabilities| => if probabilities[i] >= Cutoff then 1 else 0)
  }

  /** The two ways of writing the cut-off label every output alike. */
  lemma CutoffsAgree(xs: seq<real>)
    ensures RegressionLabels(xs) == ProbabilityLabels(xs)
  {
    var a := RegressionLabels(xs);
    var b := ProbabilityLabels(xs);
    forall i | 0 <= i < |xs|
      ensures a[i] == b[i]
    {
      if xs[i] < Cutoff {
        assert a[i] == 0 && b[i] == 0;
      } else {
        assert a[i] == 1 && b[i] == 1;
      }
    }
  }

  /** Thresholding is monotone: a larger output never gets the smaller label. */
  lemma LabelsMonotone(xs: seq<real>, i: nat, j: nat)
    requires i < |xs| && j < |xs| && xs[i] <= xs[j]
    ensures RegressionLabels(xs)[i] <= RegressionLabels(xs)[j]
  {
    var labels := RegressionLabels(xs);
    if labels[i] == 1 {
      assert xs[i] >= Cutoff;
      assert labels[j] == 1;
    } else {
      assert labels[i] == 0;
      assert labels[j] == 0 || labels[j] == 1;
    }
  }

  /** np.where(predicted < 0, 1, 0): the one-class SVM's -1 (outlier) becomes label 1. */
  function OutlierLabels(predicted: seq<int>): (labels: seq<int>)
    ensures |labels| == |predicted|
    ensures forall i :: 0 <= i < |labels| ==> (labels[i] == 1 <==> predicted[i] < 0)
    ensures forall i :: 0 <= i < |labels| ==> (labels[i] == 0 <==> predicted[i] >= 0)
  {
    seq(|predicted|, i requires 0 <= i < |predicted| => if predicted[i] < 0 then 1 else 0)
  }

  /** On the SVM's own outputs (-1 and +1) the flip exchanges them for 1 and 0. */
  lemma OutlierFlip(predicted: seq<int>)
    requires forall i :: 0 <= i < |predicted| ==> predicted[i] == -1 || predicted[i] == 1
    ensures forall i :: 0 <= i < |predicted| ==> OutlierLabels(predicted)[i] == (1 - predicted[i]) / 2
  {
    var labels := OutlierLabels(predicted);
    forall i | 0 <= i < |predicted|
      ensures labels[i] == (1 - predicted[i]) / 2
    {
      if predicted[i] == -1 {
        assert labels[i] == 1;
      } else {
        assert labels[i] == 0;
      }
    }
  }
}
