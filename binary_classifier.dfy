/**
 * The bookkeeping of a binary (one label against the rest) classifier: the per-fold counters of
 * true positives, predicted positives and actual positives, the recall/precision/F1 computation, the
 * relabelling of the data set for one label, and the consensus of several models' predictions.
 */
module BinaryClassifier {
  import opened Wrappers
  import opened Text
  import opened Seqs

  /** The number of `__label__` lines a label needs before its classifier is enabled. */
  const MinimumAmount: int := 50

  /** The length of the per-fold counter lists. */
  const Slots: int := 100

  /** The label that replaces every other label in the binary data set. */
  const OtherLabel: string := "__label__other"

  const LabelMarker: string := "__label__"

  // ---------------------------------------------------------------------------------------------
  // calculate_metrics
  // ---------------------------------------------------------------------------------------------

  datatype Metrics = Metrics(recall: real, precision: real, f1: real)

  /** `calculate_metrics(tp, tp_fn, tp_fp)`; Python's true division becomes exact division. */
  function CalculateMetrics(tp: int, tpFn: int, tpFp: int): Metrics
  {
    if tpFp == 0 then Metrics(0.0, 0.0, 0.0)
    else if tpFn == 0 then Metrics(0.0, 0.0, 0.0)
    else
      var recall := tp as real / tpFn as real;
      var precision := tp as real / tpFp as real;
      var f1 := if precision + recall == 0.0 then 0.0 else 2.0 * ((precision * recall) / (precision + recall));
      Metrics(recall, precision, f1)
  }

  /** Without predicted positives or without actual positives every metric is 0. */
  lemma MetricsGuards(tp: int, tpFn: int, tpFp: int)
    requires tpFp == 0 || tpFn == 0
    ensures CalculateMetrics(tp, tpFn, tpFp) == Metrics(0.0, 0.0, 0.0)
  {
  }

  /** Otherwise recall and precision are the two ratios and F1 is their harmonic mean. */
  lemma MetricsRatios(tp: int, tpFn: int, tpFp: int)
    requires tpFp != 0 && tpFn != 0
    ensures var m := CalculateMetrics(tp, tpFn, tpFp);
      && m.recall * tpFn as real == tp as real
      && m.precision * tpFp as real == tp as real
      && (m.precision + m.recall == 0.0 ==> m.f1 == 0.0)
      && (m.precision + m.recall != 0.0 ==> m.f1 * (m.precision + m.recall) == 2.0 * m.precision * m.recall)
  {
    var m := CalculateMetrics(tp, tpFn, tpFp);
    if m.precision + m.recall != 0.0 {
      var s := m.precision + m.recall;
      var q := (m.precision * m.recall) / s;
      assert q * s == m.precision * m.recall;
      assert m.f1 == 2.0 * q;
    }
  }

  /** A ratio of counts `0 <= a <= b` with `b > 0` lies in [0, 1]. */
  lemma RatioInUnit(a: int, b: int)
    requires 0 <= a <= b && b > 0
    ensures 0.0 <= a as real / b as real <= 1.0
  {
    var q := a as real / b as real;
    assert q * b as real == a as real;
    assert (1.0 - q) * b as real == b as real - a as real;
    FactorSign(q, b as real);
    FactorSign(1.0 - q, b as real);
  }

  /** A product with a positive factor that is not negative has a factor that is not negative. */
  lemma FactorSign(x: real, y: real)
    requires y > 0.0 && x * y >= 0.0
    ensures x >= 0.0
  {
  }

  /** Twice a product of two numbers in [0, 1] is at most their sum. */
  lemma HarmonicBound(p: real, r: real)
    requires 0.0 <= p <= 1.0 && 0.0 <= r <= 1.0
    ensures 2.0 * p * r <= p + r
  {
    ProductNonNegative(p, 1.0 - r);
    ProductNonNegative(r, 1.0 - p);
    assert p * (1.0 - r) == p - p * r;
    assert r * (1.0 - p) == r - p * r;
  }

  lemma ProductNonNegative(a: real, b: real)
    requires a >= 0.0 && b >= 0.0
    ensures a * b >= 0.0
  {
  }

  /** When the true positives are no more than either total, all three metrics lie in [0, 1]. */
  lemma MetricsInUnitInterval(tp: int, tpFn: int, tpFp: int)
    requires 0 <= tp <= tpFn && tp <= tpFp
    ensures var m := CalculateMetrics(tp, tpFn, tpFp);
      0.0 <= m.recall <= 1.0 && 0.0 <= m.precision <= 1.0 && 0.0 <= m.f1 <= 1.0
  {
    if tpFp != 0 && tpFn != 0 {
      var m := CalculateMetrics(tp, tpFn, tpFp);
      RatioInUnit(tp, tpFn);
      RatioInUnit(tp, tpFp);
      var p, r := m.precision, m.recall;
      if p + r != 0.0 {
        HarmonicMeanInUnit(p, r);
      }
    }
  }

  /** The harmonic mean of two numbers in [0, 1] lies in [0, 1]. */
  lemma HarmonicMeanInUnit(p: real, r: real)
    requires 0.0 <= p <= 1.0 && 0.0 <= r <= 1.0 && p + r != 0.0
    ensures 0.0 <= 2.0 * ((p * r) / (p + r)) <= 1.0
  {
    var s := p + r;
    var q := (p * r) / s;
    assert q * s == p * r;
    HalfHarmonicInUnit(q, p, r);
  }

  /** A `q` with `q * (p + r) == p * r`, for `p` and `r` in [0, 1], has `2 * q` in [0, 1]. */
  lemma HalfHarmonicInUnit(q: real, p: real, r: real)
    requires 0.0 <= p <= 1.0 && 0.0 <= r <= 1.0 && p + r != 0.0 && q * (p + r) == p * r
    ensures 0.0 <= 2.0 * q <= 1.0
  {
    var s := p + r;
    HarmonicBound(p, r);
    ProductNonNegative(p, r);
    var pr := p * r;
    assert 2.0 * p * r == 2.0 * pr;
    var f := 2.0 * q;
    assert f * s == 2.0 * (q * s);
    assert s > 0.0 && q * s == pr;
    assert 0.0 <= f * s <= s;
    F1Bounds(f, s);
  }

  lemma F1Bounds(f: real, s: real)
    requires s > 0.0 && 0.0 <= f * s <= s
    ensures 0.0 <= f <= 1.0
  {
    FactorSign(f, s);
    assert (1.0 - f) * s == s - f * s;
    FactorSign(1.0 - f, s);
  }

  /** F1 is 0 exactly when there is no true positive (once the guards pass). */
  lemma F1ZeroIff(tp: int, tpFn: int, tpFp: int)
    requires 0 <= tp && tpFn > 0 && tpFp > 0
    ensures CalculateMetrics(tp, tpFn, tpFp).f1 == 0.0 <==> tp == 0
  {
    var m := CalculateMetrics(tp, tpFn, tpFp);
    if tp > 0 {
      QuotientPositive(tp as real, tpFn as real);
      QuotientPositive(tp as real, tpFp as real);
      ProductPositive(m.precision, m.recall);
      QuotientPositive(m.precision * m.recall, m.precision + m.recall);
    } else {
      assert tp as real == 0.0;
    }
  }

  lemma QuotientPositive(x: real, y: real)
    requires x > 0.0 && y > 0.0
    ensures x / y > 0.0
  {
  }

  lemma ProductPositive(x: real, y: real)
    requires x > 0.0 && y > 0.0
    ensures x * y > 0.0
  {
  }

  // ---------------------------------------------------------------------------------------------
  // The label prefix (`re.match(r'__label__\w+', comment)`)
  // ---------------------------------------------------------------------------------------------

  /** The end of the run of word characters of `s` that starts at `i`. */
  function WordEnd(s: string, i: nat): (r: nat)
    requires i <= |s|
    ensures i <= r <= |s| && (r == |s| || !IsWordChar(s[r]))
    ensures forall k :: i <= k < r ==> IsWordChar(s[k])
    decreases |s| - i
  {
    if i < |s| && IsWordChar(s[i]) then WordEnd(s, i + 1) else i
  }

  /** Where the match of `__label__\w+` at the start of `s` ends, or None when `s` does not start with one. */
  function PrefixEnd(s: string): Option<nat>
  {
    if LabelMarker <= s && WordEnd(s, |LabelMarker|) > |LabelMarker| then Some(WordEnd(s, |LabelMarker|)) else None
  }

  /** The line `match_label` returns: the prefix kept when it is the label, `__label__other` otherwise, then the rest. */
  function Relabelled(s: string, classLabel: string): Option<string>
  {
    match PrefixEnd(s)
    case None => None
    case Some(e) => Some((if s[..e] == classLabel then classLabel else OtherLabel) + s[e..])
  }

  /** The prefix of `s` is the label. */
  predicate HasLabel(s: string, classLabel: string)
  {
    PrefixEnd(s).Some? && s[..PrefixEnd(s).value] == classLabel
  }

  /** A line with the classifier's label is left as it is; any other labelled line gets `__label__other` in front of the same rest. */
  lemma RelabelledShape(s: string, classLabel: string)
    requires PrefixEnd(s).Some?
    ensures var e := PrefixEnd(s).value;
      && (HasLabel(s, classLabel) ==> Relabelled(s, classLabel) == Some(s))
      && (!HasLabel(s, classLabel) ==> Relabelled(s, classLabel) == Some(OtherLabel + s[e..]))
      && (e == |s| || !IsWordChar(s[e]))
  {
    var e := PrefixEnd(s).value;
    assert s[..e] + s[e..] == s;
  }

  /** A word-character prefix `w` followed by a rest that does not start with one: the run from `i` ends at `|w|`. */
  lemma {:induction false} WordEndAppend(w: string, rest: string, i: nat)
    requires i <= |w|
    requires forall k :: i <= k < |w| ==> IsWordChar(w[k])
    requires rest == [] || !IsWordChar(rest[0])
    ensures WordEnd(w + rest, i) == |w|
    decreases |w| - i
  {
    var s := w + rest;
    if i < |w| {
      assert s[i] == w[i];
      WordEndAppend(w, rest, i + 1);
    } else if rest != [] {
      assert s[i] == rest[0];
    }
  }

  /** `__label__other` is itself a well-formed prefix. */
  lemma OtherLabelShape()
    ensures LabelMarker <= OtherLabel
    ensures forall k :: |LabelMarker| <= k < |OtherLabel| ==> IsWordChar(OtherLabel[k])
  {
  }

  /** Relabelling is idempotent: the binary data set does not change when it is relabelled again. */
  lemma RelabelIdempotent(s: string, classLabel: string)
    requires PrefixEnd(s).Some?
    ensures Relabelled(Relabelled(s, classLabel).value, classLabel) == Relabelled(s, classLabel)
  {
    RelabelledShape(s, classLabel);
    if !HasLabel(s, classLabel) {
      var e := PrefixEnd(s).value;
      var t := OtherLabel + s[e..];
      OtherLabelShape();
      assert t[..|OtherLabel|] == OtherLabel;
      forall k | |LabelMarker| <= k < |OtherLabel| ensures IsWordChar(OtherLabel[k]) {
      }
      WordEndAppend(OtherLabel, s[e..], |LabelMarker|);
      assert LabelMarker <= t by {
        assert t[..|LabelMarker|] == OtherLabel[..|LabelMarker|];
      }
      assert PrefixEnd(t) == Some(|OtherLabel|);
      assert t[|OtherLabel|..] == s[e..];
    }
  }

  /** The number of lines whose prefix is the label. */
  function Matches(lines: seq<string>, classLabel: string): nat
  {
    if lines == [] then 0
    else Matches(lines[..|lines| - 1], classLabel) + (if HasLabel(lines[|lines| - 1], classLabel) then 1 else 0)
  }

  /** Every line starts with a `__label__` prefix (`match_label` raises on a line that does not). */
  predicate AllLabelled(lines: seq<string>)
  {
    forall k :: 0 <= k < |lines| ==> PrefixEnd(lines[k]).Some?
  }

  /** The binary data set: every line relabelled, in order. */
  function BinaryLines(lines: seq<string>, classLabel: string): (r: seq<string>)
    requires AllLabelled(lines)
    ensures |r| == |lines|
  {
    if lines == [] then []
    else
      var front := lines[..|lines| - 1];
      assert AllLabelled(front) by {
        forall k | 0 <= k < |front| ensures PrefixEnd(front[k]).Some? {
          assert front[k] == lines[k];
        }
      }
      BinaryLines(front, classLabel) + [Relabelled(lines[|lines| - 1], classLabel).value]
  }

  /** Line `k` of the binary data set is line `k` of the input, relabelled. */
  lemma {:induction false} BinaryLinesAt(lines: seq<string>, classLabel: string, k: nat)
    requires AllLabelled(lines) && k < |lines|
    ensures BinaryLines(lines, classLabel)[k] == Relabelled(lines[k], classLabel).value
  {
    var front := lines[..|lines| - 1];
    if k < |front| {
      assert AllLabelled(front) by {
        forall j | 0 <= j < |front| ensures PrefixEnd(front[j]).Some? {
          assert front[j] == lines[j];
        }
      }
      BinaryLinesAt(front, classLabel, k);
      assert front[k] == lines[k];
    }
  }

  /** A record of `get_benchmarks`: the fold, the metrics and the three counters. */
  datatype Benchmark = Benchmark(fold: int, recall: real, precision: real, f1: real, tp: int, tpFn: int, tpFp: int)

  /** The list slot a Python index into a 100-element list refers to (negative indices count from the end). */
  function Slot(fold: int): (k: int)
    requires -Slots <= fold < Slots
    ensures 0 <= k < Slots
  {
    if fold < 0 then fold + Slots else fold
  }

  class Classifier {
    const classLabel: string
    var amount: int
    var enabled: bool
    /** The binary data set, line by line (`text2array`). */
    var dataArray: seq<string>
    /** `TP`, `TP_FP` and `TP_FN`, per fold. */
    const tp: array<int>
    const tpFp: array<int>
    const tpFn: array<int>
    var recall: seq<real>
    var precision: seq<real>
    var f1: seq<real>
    var metrics: seq<Benchmark>

    /** The counter lists are distinct, 100 long, and no fold has more true positives than either total. */
    ghost predicate Valid()
      reads this, tp, tpFp, tpFn
    {
      && tp != tpFp && tp != tpFn && tpFp != tpFn
      && tp.Length == Slots && tpFp.Length == Slots && tpFn.Length == Slots
      && forall f :: 0 <= f < Slots ==> 0 <= tp[f] <= tpFp[f] && tp[f] <= tpFn[f]
    }

    /**
     * `__init__`: builds the binary data set from the lines of the original one (`create_binary_data_set`
     * and `text2array`), then zeroes the counters.
     */
    constructor (classLabel: string, lines: seq<string>)
      requires AllLabelled(lines)
      ensures this.classLabel == classLabel && Valid() && fresh(tp) && fresh(tpFp) && fresh(tpFn)
      ensures amount == Matches(lines, classLabel) && (enabled <==> amount >= MinimumAmount)
      ensures dataArray == BinaryLines(lines, classLabel)
      ensures forall f :: 0 <= f < Slots ==> tp[f] == 0 && tpFp[f] == 0 && tpFn[f] == 0
      ensures recall == seq(Slots, _ => 0.0) && precision == recall && f1 == recall && metrics == []
    {
      this.classLabel := classLabel;
      amount := 0;
      enabled := false;
      tp := new int[Slots](_ => 0);
      tpFp := new int[Slots](_ => 0);
      tpFn := new int[Slots](_ => 0);
      recall := seq(Slots, _ => 0.0);
      precision := seq(Slots, _ => 0.0);
      f1 := seq(Slots, _ => 0.0);
      metrics := [];
      new;
      dataArray := CreateBinaryDataSet(lines);
    }

    /** `create_binary_data_set`: relabels every line, counting the lines of this label, then decides `enabled`. */
    method CreateBinaryDataSet(lines: seq<string>) returns (out: seq<string>)
      requires AllLabelled(lines) && amount == 0 && !enabled
      modifies this`amount, this`enabled
      ensures out == BinaryLines(lines, classLabel)
      ensures amount == Matches(lines, classLabel) && (enabled <==> amount >= MinimumAmount)
    {
      out := [];
      var i := 0;
      while i < |lines|
        invariant 0 <= i <= |lines| && !enabled
        invariant AllLabelled(lines[..i])
        invariant out == BinaryLines(lines[..i], classLabel) && amount == Matches(lines[..i], classLabel)
      {
        TakeStep(lines, i);
        assert AllLabelled(lines[..i + 1]);
        var point := MatchLabel(lines[i]);
        out := out + [point.value];
        i := i + 1;
      }
      TakeAll(lines);
      if amount >= MinimumAmount {
        enabled := true;
      }
    }

    /** `match_label`: None stands for the error Python raises on a line without a `__label__` prefix. */
    method MatchLabel(comment: string) returns (r: Option<string>)
      modifies this`amount
      ensures r == Relabelled(comment, classLabel)
      ensures amount == old(amount) + (if HasLabel(comment, classLabel) then 1 else 0)
    {
      var m := |LabelMarker|;
      if !(LabelMarker <= comment) {
        return None;
      }
      var end := m;
      while end < |comment| && IsWordChar(comment[end])
        invariant m <= end <= |comment|
        invariant WordEnd(comment, m) == WordEnd(comment, end)
        decreases |comment| - end
      {
        end := end + 1;
      }
      if end == m {
        return None;
      }
      var prefix := comment[..end];
      var postfix := comment[end..];
      var newPrefix;
      if prefix == classLabel {
        newPrefix := classLabel;
        amount := amount + 1;
      } else {
        newPrefix := OtherLabel;
      }
      r := Some(newPrefix + postfix);
    }

    /** `assess_result`: counts one prediction against the correct answer, at list index `fold`. */
    method AssessResult(commonPrediction: string, correctAnswer: string, fold: int)
      requires Valid() && -Slots <= fold < Slots
      modifies tp, tpFp, tpFn
      ensures Valid()
      ensures var k := Slot(fold);
        && tpFp[k] == old(tpFp[k]) + (if commonPrediction == classLabel then 1 else 0)
        && tpFn[k] == old(tpFn[k]) + (if correctAnswer == classLabel then 1 else 0)
        && tp[k] == old(tp[k]) + (if commonPrediction == classLabel && commonPrediction == correctAnswer then 1 else 0)
      ensures forall f :: 0 <= f < Slots && f != Slot(fold) ==>
        tp[f] == old(tp[f]) && tpFp[f] == old(tpFp[f]) && tpFn[f] == old(tpFn[f])
    {
      var k := Slot(fold);
      if commonPrediction == classLabel {
        tpFp[k] := tpFp[k] + 1;
        if commonPrediction == correctAnswer {
          tp[k] := tp[k] + 1;
        }
      }
      if correctAnswer == classLabel {
        tpFn[k] := tpFn[k] + 1;
      }
    }

    /** `get_benchmarks`: the metrics of one fold, recorded once in each list; the counters are only read. */
    method GetBenchmarks(fold: int) returns (m: Metrics)
      requires Valid() && -Slots <= fold < Slots
      modifies this`metrics, this`recall, this`precision, this`f1
      ensures var k := Slot(fold);
        && m == CalculateMetrics(tp[k], tpFn[k], tpFp[k])
        && metrics == old(metrics) + [Benchmark(fold, m.recall, m.precision, m.f1, tp[k], tpFn[k], tpFp[k])]
      ensures recall == old(recall) + [m.recall] && precision == old(precision) + [m.precision] && f1 == old(f1) + [m.f1]
      ensures 0.0 <= m.recall <= 1.0 && 0.0 <= m.precision <= 1.0 && 0.0 <= m.f1 <= 1.0
    {
      var k := Slot(fold);
      m := CalculateMetrics(tp[k], tpFn[k], tpFp[k]);
      MetricsInUnitInterval(tp[k], tpFn[k], tpFp[k]);
      metrics := metrics + [Benchmark(fold, m.recall, m.precision, m.f1, tp[k], tpFn[k], tpFp[k])];
      recall := recall + [m.recall];
      precision := precision + [m.precision];
      f1 := f1 + [m.f1];
    }
  }

  // ---------------------------------------------------------------------------------------------
  // get_common_prediction
  // ---------------------------------------------------------------------------------------------

  /** The dict `r` after the loop: each label's last-written score. */
  function Scores(ps: seq<(string, real)>): map<string, real>
  {
    if ps == [] then map[] else Scores(ps[..|ps| - 1])[ps[|ps| - 1].0 := ps[|ps| - 1].1]
  }

  /** The dict's keys in insertion order: each label where it first occurs. */
  function KeyOrder(ps: seq<(string, real)>): seq<string>
  {
    if ps == [] then []
    else
      var keys := KeyOrder(ps[..|ps| - 1]);
      if ps[|ps| - 1].0 in keys then keys else keys + [ps[|ps| - 1].0]
  }

  /** The insertion order lists every key of the dict once and nothing else. */
  lemma {:induction false} KeyOrderKeys(ps: seq<(string, real)>)
    ensures forall l :: l in KeyOrder(ps) <==> l in Scores(ps)
    ensures NoDuplicates(KeyOrder(ps))
  {
    if ps != [] {
      KeyOrderKeys(ps[..|ps| - 1]);
    }
  }

  /**
   * `best` is what `max(r, key=r.get)` picks: a key of the dict with the highest score, and no key inserted
   * before it has that score.
   */
  ghost predicate Winner(ps: seq<(string, real)>, best: string)
  {
    var scores, keys := Scores(ps), KeyOrder(ps);
    && best in scores
    && (forall l :: l in scores ==> scores[l] <= scores[best])
    && (forall j, k :: 0 <= k < j < |keys| && keys[j] == best ==> keys[k] in scores && scores[keys[k]] < scores[best])
  }

  /** The winner is determined by the predictions: no two labels are both winners. */
  lemma WinnerUnique(ps: seq<(string, real)>, a: string, b: string)
    requires Winner(ps, a) && Winner(ps, b)
    ensures a == b
  {
    KeyOrderKeys(ps);
    var keys := KeyOrder(ps);
    var ja :| 0 <= ja < |keys| && keys[ja] == a;
    var jb :| 0 <= jb < |keys| && keys[jb] == b;
  }

  /**
   * `get_common_prediction`: the label whose last-written score is highest, the first such in insertion
   * order (`max` keeps the first of equal maxima); None stands for the error `max` raises on no predictions.
   */
  method GetCommonPrediction(predictions: seq<(string, real)>) returns (r: Option<string>)
    ensures r.None? <==> predictions == []
    ensures r.Some? ==> Winner(predictions, r.value)
  {
    var scores: map<string, real> := map[];
    var keys: seq<string> := [];
    var i := 0;
    while i < |predictions|
      invariant 0 <= i <= |predictions|
      invariant scores == Scores(predictions[..i]) && keys == KeyOrder(predictions[..i])
    {
      TakeStep(predictions, i);
      if predictions[i].0 !in keys {
        keys := keys + [predictions[i].0];
      }
      scores := scores[predictions[i].0 := predictions[i].1];
      i := i + 1;
    }
    TakeAll(predictions);
    KeyOrderKeys(predictions);
    if predictions != [] {
      assert predictions[|predictions| - 1].0 in Scores(predictions);
    }
    if keys == [] {
      return None;
    }
    var best := MaxKey(keys, scores);
    r := Some(best);
  }

  /** The scan of `max`: the first key whose score is not exceeded by any key. */
  method MaxKey(keys: seq<string>, scores: map<string, real>) returns (best: string)
    requires keys != [] && NoDuplicates(keys)
    requires forall l :: l in keys <==> l in scores
    ensures best in scores
    ensures forall l :: l in scores ==> scores[l] <= scores[best]
    ensures forall j, k :: 0 <= k < j < |keys| && keys[j] == best ==> keys[k] in scores && scores[keys[k]] < scores[best]
  {
    best := keys[0];
    ghost var b := 0;
    var j := 1;
    while j < |keys|
      invariant 1 <= j <= |keys| && 0 <= b < j && keys[b] == best
      invariant forall k :: 0 <= k < j ==> scores[keys[k]] <= scores[best]
      invariant forall k :: 0 <= k < b ==> scores[keys[k]] < scores[best]
    {
      if scores[keys[j]] > scores[best] {
        best := keys[j];
        b := j;
      }
      j := j + 1;
    }
    forall l | l in scores ensures scores[l] <= scores[best] {
      var k :| 0 <= k < |keys| && keys[k] == l;
    }
    forall j, k | 0 <= k < j < |keys| && keys[j] == best ensures scores[keys[k]] < scores[best] {
      NoDuplicatesIndex(keys, j, b);
    }
  }

  lemma NoDuplicatesIndex<T>(s: seq<T>, i: nat, j: nat)
    requires NoDuplicates(s) && i < |s| && j < |s| && s[i] == s[j]
    ensures i == j
  {
  }
}
