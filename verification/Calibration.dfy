/**
 The threshold searches of src/fastrag/calibrate.py over labelled scores, and the bands of
 src/fastrag/crag.py they are used as. Scores are exact reals.
 */
module Calibration {
  import opened Common
  import opened Ordering

  /** The best score of a calibration query, and whether the query is answerable. */
  datatype Scored = Scored(score: real, positive: bool)

  function Scores(s: seq<Scored>): (xs: seq<real>)
    ensures |xs| == |s| && forall i | 0 <= i < |s| :: xs[i] == s[i].score
  {
    seq(|s|, i requires 0 <= i < |s| => s[i].score)
  }

  function Passing(s: seq<Scored>, t: real, wanted: bool): nat {
    if s == [] then 0 else (if s[0].score >= t && s[0].positive == wanted then 1 else 0) + Passing(s[1..], t, wanted)
  }

  function Failing(s: seq<Scored>, t: real, wanted: bool): nat {
    if s == [] then 0 else (if s[0].score < t && s[0].positive == wanted then 1 else 0) + Failing(s[1..], t, wanted)
  }

  function Labelled(s: seq<Scored>, wanted: bool): nat {
    if s == [] then 0 else (if s[0].positive == wanted then 1 else 0) + Labelled(s[1..], wanted)
  }

  function Ratio(a: nat, b: nat): real { if b == 0 then 0.0 else a as real / b as real }

  function Rate(s: seq<Scored>, t: real): real { Ratio(Passing(s, t, false), Labelled(s, false)) }

  function F1Of(tp: nat, fp: nat, fn: nat): real {
    var precision := Ratio(tp, tp + fp);
    var recall := Ratio(tp, tp + fn);
    if precision + recall == 0.0 then 0.0 else 2.0 * precision * recall / (precision + recall)
  }

  function F1(s: seq<Scored>, t: real): real {
    F1Of(Passing(s, t, true), Passing(s, t, false), Failing(s, t, true))
  }

  /******* Counts are step functions *******/

  lemma {:induction false} PassOrFail(s: seq<Scored>, t: real, wanted: bool)
    ensures Passing(s, t, wanted) + Failing(s, t, wanted) == Labelled(s, wanted)
    decreases |s|
  {
    if s != [] {
      PassOrFail(s[1..], t, wanted);
    }
  }

  /******* What the measures are *******/

  lemma RatioIs(a: nat, b: nat)
    ensures b > 0 ==> Ratio(a, b) * b as real == a as real
  {
  }

  lemma Cancel(x: real, y: real, z: real)
    requires z != 0.0 && x * z == y * z
    ensures x == y
  {
  }

  lemma HarmonicOf(p: real, r: real, a: real, b: real, t: real, f: real)
    requires p * a == t && r * b == t && f * (p + r) == 2.0 * p * r && t > 0.0
    ensures f * (a + b) == 2.0 * t
  {
    var sum, product := p + r, a * b;
    assert sum * product == (p * a) * b + (r * b) * a;
    assert (p * a) * b + (r * b) * a == t * b + t * a;
    assert t * b + t * a == t * (a + b);
    assert sum * product == t * (a + b);
    Scaled(f, sum, product, 2.0 * p * r);
    Paired(p, r, a, b, t);
    assert f * (sum * product) == 2.0 * (t * t);
    Swap(f, t, a + b);
    assert (f * (a + b)) * t == (2.0 * t) * t;
    Cancel(f * (a + b), 2.0 * t, t);
  }

  lemma Scaled(f: real, sum: real, product: real, x: real)
    requires f * sum == x
    ensures f * (sum * product) == x * product
  {
  }

  lemma Paired(p: real, r: real, a: real, b: real, t: real)
    requires p * a == t && r * b == t
    ensures (2.0 * p * r) * (a * b) == 2.0 * (t * t)
  {
    assert (p * a) * (r * b) == t * t;
    assert (2.0 * p * r) * (a * b) == 2.0 * ((p * a) * (r * b));
  }

  lemma Swap(f: real, t: real, c: real)
    ensures f * (t * c) == (f * c) * t
  {
  }

  /** F1 is the harmonic mean of precision and recall: twice the hits over twice the hits and the errors. */
  lemma F1Is(tp: nat, fp: nat, fn: nat)
    ensures tp == 0 ==> F1Of(tp, fp, fn) == 0.0
    ensures tp > 0 ==> F1Of(tp, fp, fn) * (2 * tp + fp + fn) as real == (2 * tp) as real
  {
    var p, r := Ratio(tp, tp + fp), Ratio(tp, tp + fn);
    RatioZero(tp + fp);
    RatioIs(tp, tp + fp);
    RatioIs(tp, tp + fn);
    if tp > 0 {
      PositiveRatio(tp, tp + fp);
      PositiveRatio(tp, tp + fn);
      assert p + r > 0.0;
      var f := F1Of(tp, fp, fn);
      assert f * (p + r) == 2.0 * p * r;
      HarmonicOf(p, r, (tp + fp) as real, (tp + fn) as real, tp as real, f);
    }
  }

  lemma PositiveRatio(a: nat, b: nat)
    requires a > 0 && b > 0
    ensures Ratio(a, b) > 0.0
  {
  }

  /** The measures of a threshold: the share of unanswerable queries it lets pass, and its F1. */
  lemma MeasuresAre(s: seq<Scored>, t: real)
    ensures Labelled(s, false) > 0 ==> Rate(s, t) * Labelled(s, false) as real == Passing(s, t, false) as real
    ensures Labelled(s, false) == 0 ==> Rate(s, t) == 0.0
    ensures Passing(s, t, true) == 0 ==> F1(s, t) == 0.0
    ensures Passing(s, t, true) > 0 ==>
              F1(s, t) * (Labelled(s, true) + Passing(s, t, true) + Passing(s, t, false)) as real == (2 * Passing(s, t, true)) as real
  {
    hide F1Of, Ratio, Passing, Failing, Labelled;
    RatioIs(Passing(s, t, false), Labelled(s, false));
    RatioEmpty(Passing(s, t, false));
    PassOrFail(s, t, true);
    var tp, fp, fn := Passing(s, t, true), Passing(s, t, false), Failing(s, t, true);
    F1Is(tp, fp, fn);
    assert Labelled(s, true) + tp + fp == 2 * tp + fp + fn;
  }

  lemma RatioEmpty(a: nat)
    ensures Ratio(a, 0) == 0.0
  {
  }

  /** Some score is at least t. */
  predicate Reaches(s: seq<Scored>, t: real) {
    s != [] && (s[0].score >= t || Reaches(s[1..], t))
  }

  /** No score lies in [t, u). */
  predicate NoneBetween(s: seq<Scored>, t: real, u: real) {
    s == [] || ((s[0].score >= t ==> s[0].score >= u) && NoneBetween(s[1..], t, u))
  }

  /** With no score between them, both thresholds pass the same items. */
  lemma {:induction false} SameStep(s: seq<Scored>, t: real, u: real, wanted: bool)
    requires t <= u && NoneBetween(s, t, u)
    ensures Passing(s, t, wanted) == Passing(s, u, wanted)
    decreases |s|
  {
    if s != [] {
      SameStep(s[1..], t, u, wanted);
    }
  }

  lemma {:induction false} NonePass(s: seq<Scored>, t: real, wanted: bool)
    requires !Reaches(s, t)
    ensures Passing(s, t, wanted) == 0
    decreases |s|
  {
    if s != [] {
      NonePass(s[1..], t, wanted);
    }
  }

  lemma {:induction false} NoneBetweenLower(s: seq<Scored>, t: real, u: real, v: real)
    requires NoneBetween(s, t, u) && v <= u
    ensures NoneBetween(s, t, v)
    decreases |s|
  {
    if s != [] {
      NoneBetweenLower(s[1..], t, u, v);
    }
  }

  lemma {:induction false} NoneBetweenAny(s: seq<Scored>, t: real, u: real)
    requires !Reaches(s, t)
    ensures NoneBetween(s, t, u)
    decreases |s|
  {
    if s != [] {
      NoneBetweenAny(s[1..], t, u);
    }
  }

  lemma {:induction false} PassingAntitone(s: seq<Scored>, t: real, u: real, wanted: bool)
    requires t <= u
    ensures Passing(s, u, wanted) <= Passing(s, t, wanted) <= Labelled(s, wanted)
    decreases |s|
  {
    if s != [] {
      PassingAntitone(s[1..], t, u, wanted);
    }
  }

  lemma RatioMonotone(a: nat, b: nat, n: nat)
    requires a <= b
    ensures 0.0 <= Ratio(a, n) <= Ratio(b, n)
  {
    if n > 0 {
      var x, y, m := a as real, b as real, n as real;
      assert x / m * m == x && y / m * m == y;
      var u, v := x / m, y / m;
      if u > v {
        MulLess(v, u, m);
      }
      if u < 0.0 {
        MulLess(u, 0.0, m);
      }
    }
  }

  lemma MulLess(a: real, b: real, m: real)
    requires a < b && m > 0.0
    ensures a * m < b * m
  {
  }

  lemma RateAntitone(s: seq<Scored>, t: real, u: real)
    requires t <= u
    ensures Rate(s, u) <= Rate(s, t)
  {
    PassingAntitone(s, t, u, false);
    RatioMonotone(Passing(s, u, false), Passing(s, t, false), Labelled(s, false));
  }

  lemma F1NonNegative(tp: nat, fp: nat, fn: nat)
    ensures F1Of(tp, fp, fn) >= 0.0
    ensures F1Of(0, fp, fn) == 0.0
  {
    hide Ratio;
    RatioMonotone(0, tp, tp + fp);
    RatioMonotone(0, tp, tp + fn);
    RatioZero(fp);
    RatioZero(fn);
    HarmonicNonNegative(Ratio(tp, tp + fp), Ratio(tp, tp + fn));
  }

  lemma RatioZero(n: nat)
    ensures Ratio(0, n) == 0.0
  {
  }

  lemma HarmonicNonNegative(p: real, r: real)
    requires p >= 0.0 && r >= 0.0
    ensures p + r != 0.0 ==> 2.0 * p * r / (p + r) >= 0.0
  {
    if p + r != 0.0 {
      var x := 2.0 * p * r / (p + r);
      assert 2.0 * p * r >= 0.0;
      assert x * (p + r) == 2.0 * p * r;
      if x < 0.0 {
        MulLess(x, 0.0, p + r);
      }
    }
  }

  /** Every real threshold behaves like an observed one, or passes nothing at all. */
  lemma AnyThreshold(s: seq<Scored>, t: real)
    ensures (exists u :: u in Scores(s) && t <= u && F1(s, u) == F1(s, t) && Rate(s, u) == Rate(s, t))
         || (Passing(s, t, true) == 0 && Passing(s, t, false) == 0 && F1(s, t) == 0.0)
  {
    hide F1Of, Ratio;
    if Reaches(s, t) {
      var u := LeastAtOrAbove(s, t);
      SameStep(s, t, u, true);
      SameStep(s, t, u, false);
      PassOrFail(s, t, true);
      PassOrFail(s, u, true);
    } else {
      NonePass(s, t, true);
      NonePass(s, t, false);
      F1NonNegative(0, 0, Failing(s, t, true));
    }
  }

  lemma {:induction false} LeastAtOrAbove(s: seq<Scored>, t: real) returns (u: real)
    requires Reaches(s, t)
    ensures u in Scores(s) && t <= u && NoneBetween(s, t, u)
    decreases |s|
  {
    var rest := s[1..];
    assert Scores(s) == [s[0].score] + Scores(rest);
    if Reaches(rest, t) {
      u := LeastAtOrAbove(rest, t);
      if t <= s[0].score < u {
        NoneBetweenLower(rest, t, u, s[0].score);
        u := s[0].score;
      }
    } else {
      u := s[0].score;
      NoneBetweenAny(rest, t, u);
    }
  }

  /******* The abstention gate *******/

  datatype Gate = Gate(threshold: real, falseAnswerRate: real, f1: real)

  /** Tuple comparison: higher F1, then the lower rate, then the higher threshold. */
  predicate Beats(a: Gate, b: Gate) {
    || a.f1 > b.f1
    || (a.f1 == b.f1 && a.falseAnswerRate < b.falseAnswerRate)
    || (a.f1 == b.f1 && a.falseAnswerRate == b.falseAnswerRate && a.threshold > b.threshold)
  }

  function GateAt(s: seq<Scored>, t: real): Gate { Gate(t, Rate(s, t), F1(s, t)) }

  const MAX_FALSE_ANSWER_RATE := 0.05

  ghost predicate IsMax(s: seq<Scored>, m: real) {
    m in Scores(s) && forall x | x in Scores(s) :: x <= m
  }

  /** The gate is optimal over every real threshold, not only the observed scores it searches; among
      observed scores ties go to the lower rate, then the higher threshold. It fails exactly when
      there are no scores, or the highest score itself admits too many unanswerable queries. */
  method ChooseGate(s: seq<Scored>) returns (r: Option<Gate>)
    ensures r.None? <==> forall m | IsMax(s, m) :: Rate(s, m) > MAX_FALSE_ANSWER_RATE
    ensures r.Some? ==> r.value.threshold in Scores(s) && r.value == GateAt(s, r.value.threshold)
    ensures r.Some? ==> r.value.falseAnswerRate <= MAX_FALSE_ANSWER_RATE
    ensures r.Some? ==> forall t: real :: Rate(s, t) <= MAX_FALSE_ANSWER_RATE ==> F1(s, t) <= r.value.f1
    ensures r.Some? ==> forall t | t in Scores(s) && Rate(s, t) <= MAX_FALSE_ANSWER_RATE && F1(s, t) == r.value.f1 ::
              r.value.falseAnswerRate < Rate(s, t) || (r.value.falseAnswerRate == Rate(s, t) && t <= r.value.threshold)
  {
    hide F1, Rate;
    var thresholds := SortedSet(Scores(s));
    SortedSetMembers(Scores(s));
    r := None;
    for i := 0 to |thresholds|
      invariant r.Some? ==> r.value.threshold in Scores(s) && r.value == GateAt(s, r.value.threshold)
      invariant r.Some? ==> r.value.falseAnswerRate <= MAX_FALSE_ANSWER_RATE
      invariant forall j | 0 <= j < i && Rate(s, thresholds[j]) <= MAX_FALSE_ANSWER_RATE ::
                  r.Some? && !Beats(GateAt(s, thresholds[j]), r.value)
    {
      var candidate := GateAt(s, thresholds[i]);
      assert thresholds[i] in thresholds;
      if candidate.falseAnswerRate <= MAX_FALSE_ANSWER_RATE && (r.None? || Beats(candidate, r.value)) {
        r := Some(candidate);
      }
    }
    forall t | t in Scores(s) && Rate(s, t) <= MAX_FALSE_ANSWER_RATE
      ensures r.Some? && !Beats(GateAt(s, t), r.value)
    {
      assert t in thresholds;
    }
    if r.Some? {
      BestGate(s, r.value.threshold);
    }
  }

  lemma BestGate(s: seq<Scored>, best: real)
    requires best in Scores(s) && Rate(s, best) <= MAX_FALSE_ANSWER_RATE
    requires forall t | t in Scores(s) && Rate(s, t) <= MAX_FALSE_ANSWER_RATE :: !Beats(GateAt(s, t), GateAt(s, best))
    ensures forall t: real :: Rate(s, t) <= MAX_FALSE_ANSWER_RATE ==> F1(s, t) <= F1(s, best)
    ensures exists m :: IsMax(s, m) && Rate(s, m) <= MAX_FALSE_ANSWER_RATE
  {
    hide F1, Rate;
    F1AtNonNegative(s, best);
    forall t: real | Rate(s, t) <= MAX_FALSE_ANSWER_RATE ensures F1(s, t) <= F1(s, best) {
      AnyThreshold(s, t);
    }
    MaxExists(s);
    var m :| IsMax(s, m);
    RateAntitone(s, best, m);
  }

  lemma F1AtNonNegative(s: seq<Scored>, t: real)
    ensures F1(s, t) >= 0.0
  {
    F1NonNegative(Passing(s, t, true), Passing(s, t, false), Failing(s, t, true));
  }

  lemma {:induction false} MaxExists(s: seq<Scored>)
    requires s != []
    ensures exists m :: IsMax(s, m)
    decreases |s|
  {
    var rest := s[1..];
    if rest == [] {
      assert IsMax(s, Scores(s)[0]);
    } else {
      MaxExists(rest);
      var m :| IsMax(rest, m);
      var top := if s[0].score > m then s[0].score else m;
      assert Scores(s) == [s[0].score] + Scores(rest);
      assert IsMax(s, top);
    }
  }

  /******* The confident band *******/

  predicate NoUnanswerableFrom(s: seq<Scored>, t: real) {
    forall i | 0 <= i < |s| :: s[i].score >= t ==> s[i].positive
  }

  lemma {:induction false} ZeroFalsePositives(s: seq<Scored>, t: real)
    ensures Passing(s, t, false) == 0 <==> NoUnanswerableFrom(s, t)
    decreases |s|
  {
    if s != [] {
      ZeroFalsePositives(s[1..], t);
      assert forall i | 1 <= i < |s| :: s[i] == s[1..][i - 1];
      assert NoUnanswerableFrom(s, t) <==> ((s[0].score >= t ==> s[0].positive) && NoUnanswerableFrom(s[1..], t));
    }
  }

  /** The least observed score at or above the floor that no unanswerable query reaches; the highest
      observed score if each is reached; the floor itself if no score is that high. */
  method ChooseConfidentGate(s: seq<Scored>, floor: real) returns (t: real)
    ensures t >= floor
    ensures (forall x | x in Scores(s) :: x < floor) ==> t == floor
    ensures (exists x :: x in Scores(s) && x >= floor) ==> t in Scores(s)
    ensures (exists x :: x in Scores(s) && x >= floor && NoUnanswerableFrom(s, x)) ==>
              NoUnanswerableFrom(s, t) && forall x | x in Scores(s) && x >= floor && NoUnanswerableFrom(s, x) :: t <= x
    ensures (exists x :: x in Scores(s) && x >= floor) && !NoUnanswerableFrom(s, t) ==> IsMax(s, t)
  {
    var candidates := Above(SortedSet(Scores(s)), floor);
    SortedSetMembers(Scores(s));
    AboveMembers(SortedSet(Scores(s)), floor);
    for i := 0 to |candidates|
      invariant forall j | 0 <= j < i :: !NoUnanswerableFrom(s, candidates[j])
    {
      ZeroFalsePositives(s, candidates[i]);
      assert candidates[i] in candidates;
      if Passing(s, candidates[i], false) == 0 {
        LeastCandidate(s, candidates, i);
        return candidates[i];
      }
    }
    if candidates == [] {
      return floor;
    }
    t := candidates[|candidates| - 1];
    assert t in candidates;
    LastCandidate(s, candidates, floor);
  }

  lemma LeastCandidate(s: seq<Scored>, candidates: seq<real>, i: nat)
    requires StrictlyAscending(candidates) && i < |candidates|
    requires forall j | 0 <= j < i :: !NoUnanswerableFrom(s, candidates[j])
    ensures forall x | x in candidates && NoUnanswerableFrom(s, x) :: candidates[i] <= x
  {
    hide NoUnanswerableFrom;
    forall x | x in candidates && NoUnanswerableFrom(s, x) ensures candidates[i] <= x {
      var j :| 0 <= j < |candidates| && candidates[j] == x;
    }
  }

  lemma LastCandidate(s: seq<Scored>, candidates: seq<real>, floor: real)
    requires StrictlyAscending(candidates) && candidates != []
    requires forall x :: x in candidates <==> x in Scores(s) && x >= floor
    ensures IsMax(s, candidates[|candidates| - 1])
  {
    var t := candidates[|candidates| - 1];
    assert t in candidates;
    forall x | x in Scores(s) ensures x <= t {
      if x >= floor {
        assert x in candidates;
        var j :| 0 <= j < |candidates| && candidates[j] == x;
      }
    }
  }

  /** The elements of an ascending sequence at or above a floor. */
  function Above(xs: seq<real>, floor: real): (r: seq<real>)
    requires StrictlyAscending(xs)
    ensures StrictlyAscending(r)
  {
    if xs == [] || xs[0] >= floor then xs else Above(xs[1..], floor)
  }

  lemma {:induction false} AboveMembers(xs: seq<real>, floor: real)
    requires StrictlyAscending(xs)
    ensures forall x :: x in Above(xs, floor) <==> x in xs && x >= floor
    decreases |xs|
  {
    if xs != [] && xs[0] < floor {
      AboveMembers(xs[1..], floor);
      assert xs == [xs[0]] + xs[1..];
    }
  }

  datatype Grade = Correct | Ambiguous | Incorrect

  /** Grading by the top score; a query for which nothing ranked has none. */
  function GradeOf(top: Option<real>, threshold: real, confident: Option<real>): Grade {
    if top.None? then Incorrect
    else if top.value >= CragUpper(threshold, confident) then Correct
    else if top.value >= threshold then Ambiguous
    else Incorrect
  }

  function CragUpper(threshold: real, confident: Option<real>): real {
    if confident.None? then threshold else if confident.value > threshold then confident.value else threshold
  }

  /** A query is trusted when its top score reaches both gates, refined when it reaches the lower one only. */
  lemma GradesExactly(top: Option<real>, threshold: real, confident: Option<real>)
    ensures var g := GradeOf(top, threshold, confident);
      && (g.Correct? <==> top.Some? && top.value >= threshold && (confident.Some? ==> top.value >= confident.value))
      && (g.Ambiguous? <==> top.Some? && top.value >= threshold && confident.Some? && top.value < confident.value)
  {
  }

  function Admitted(s: seq<Scored>, threshold: real, confident: Option<real>): nat {
    if s == [] then 0
    else (if !s[0].positive && !GradeOf(Some(s[0].score), threshold, confident).Incorrect? then 1 else 0)
         + Admitted(s[1..], threshold, confident)
  }

  lemma {:induction false} AdmittedIsPassing(s: seq<Scored>, threshold: real, confident: Option<real>)
    ensures Admitted(s, threshold, confident) == Passing(s, threshold, false)
    decreases |s|
  {
    if s != [] {
      AdmittedIsPassing(s[1..], threshold, confident);
    }
  }

  /** Calibrating and then grading the calibration sample with the result: no unanswerable query is
      trusted as correct unless one of them has the highest score of all, and the share of
      unanswerable queries not graded incorrect is the reported rate, at most 0.05. */
  method CalibrateBands(s: seq<Scored>) returns (r: Option<(Gate, real)>)
    ensures r.Some? ==> var (gate, confident) := r.value;
      && confident >= gate.threshold
      && Ratio(Admitted(s, gate.threshold, Some(confident)), Labelled(s, false)) == gate.falseAnswerRate
      && gate.falseAnswerRate <= MAX_FALSE_ANSWER_RATE
      && forall i | 0 <= i < |s| && !s[i].positive && GradeOf(Some(s[i].score), gate.threshold, Some(confident)).Correct? ::
           IsMax(s, s[i].score)
  {
    hide F1;
    var gate := ChooseGate(s);
    if gate.None? {
      return None;
    }
    var confident := ChooseConfidentGate(s, gate.value.threshold);
    AdmittedIsPassing(s, gate.value.threshold, Some(confident));
    forall i | 0 <= i < |s| && !s[i].positive && GradeOf(Some(s[i].score), gate.value.threshold, Some(confident)).Correct?
      ensures IsMax(s, s[i].score)
    {
      assert !NoUnanswerableFrom(s, confident);
      assert Scores(s)[i] in Scores(s);
    }
    return Some((gate.value, confident));
  }

  /******* The cache distance *******/

  /** Pairs of questions by embedding distance, labelled equivalent or not. A distance at most t is a
      negated distance at least -t. */
  function Negated(p: seq<Scored>): (r: seq<Scored>)
    ensures |r| == |p| && forall i | 0 <= i < |p| :: r[i] == Scored(-p[i].score, p[i].positive)
  {
    seq(|p|, i requires 0 <= i < |p| => Scored(-p[i].score, p[i].positive))
  }

  function Within(p: seq<Scored>, t: real, wanted: bool): nat {
    if p == [] then 0 else (if p[0].score <= t && p[0].positive == wanted then 1 else 0) + Within(p[1..], t, wanted)
  }

  function Beyond(p: seq<Scored>, t: real, wanted: bool): nat {
    if p == [] then 0 else (if p[0].score > t && p[0].positive == wanted then 1 else 0) + Beyond(p[1..], t, wanted)
  }

  function FalseHitRate(p: seq<Scored>, t: real): real { Ratio(Within(p, t, false), Labelled(p, false)) }

  function HitF1(p: seq<Scored>, t: real): real {
    F1Of(Within(p, t, true), Within(p, t, false), Beyond(p, t, true))
  }

  lemma {:induction false} WithinNegated(p: seq<Scored>, t: real, wanted: bool)
    ensures Within(p, t, wanted) == Passing(Negated(p), -t, wanted)
    ensures Beyond(p, t, wanted) == Failing(Negated(p), -t, wanted)
    ensures Labelled(p, wanted) == Labelled(Negated(p), wanted)
    decreases |p|
  {
    if p != [] {
      WithinNegated(p[1..], t, wanted);
      assert Negated(p)[1..] == Negated(p[1..]);
    }
  }

  lemma DistanceAsScore(p: seq<Scored>, t: real)
    ensures FalseHitRate(p, t) == Rate(Negated(p), -t)
    ensures HitF1(p, t) == F1(Negated(p), -t)
  {
    hide F1Of, Ratio;
    WithinNegated(p, t, true);
    WithinNegated(p, t, false);
  }

  lemma AnyDistance(p: seq<Scored>, t: real)
    ensures (exists u :: u in Scores(p) && u <= t && HitF1(p, u) == HitF1(p, t) && FalseHitRate(p, u) == FalseHitRate(p, t))
         || HitF1(p, t) == 0.0
  {
    hide F1, Rate, HitF1, FalseHitRate;
    AnyThreshold(Negated(p), -t);
    DistanceAsScore(p, t);
    if u :| u in Scores(Negated(p)) && -t <= u && F1(Negated(p), u) == F1(Negated(p), -t) && Rate(Negated(p), u) == Rate(Negated(p), -t) {
      var i :| 0 <= i < |p| && Scores(Negated(p))[i] == u;
      assert Scores(p)[i] == -u;
      DistanceAsScore(p, -u);
      assert -(-u) == u;
    }
  }

  const MAX_FALSE_HIT_RATE := 0.01

  ghost predicate IsMin(p: seq<Scored>, m: real) {
    m in Scores(p) && forall x | x in Scores(p) :: m <= x
  }

  lemma {:induction false} MinExists(p: seq<Scored>)
    requires p != []
    ensures exists m :: IsMin(p, m)
    decreases |p|
  {
    var rest := p[1..];
    if rest == [] {
      assert IsMin(p, Scores(p)[0]);
    } else {
      MinExists(rest);
      var m :| IsMin(rest, m);
      var low := if p[0].score < m then p[0].score else m;
      assert Scores(p) == [p[0].score] + Scores(rest);
      assert IsMin(p, low);
    }
  }

  /** The cache threshold maximises F1 over every real distance with at most 1% false hits, ties going
      to the shortest distance; it fails exactly when there are no pairs, or the shortest distance
      itself admits too many. */
  method ChooseCacheDistance(p: seq<Scored>) returns (r: Option<real>)
    ensures r.None? <==> forall m | IsMin(p, m) :: FalseHitRate(p, m) > MAX_FALSE_HIT_RATE
    ensures r.Some? ==> r.value in Scores(p) && FalseHitRate(p, r.value) <= MAX_FALSE_HIT_RATE
    ensures r.Some? ==> forall t: real :: FalseHitRate(p, t) <= MAX_FALSE_HIT_RATE ==> HitF1(p, t) <= HitF1(p, r.value)
    ensures r.Some? ==> forall t | t in Scores(p) && FalseHitRate(p, t) <= MAX_FALSE_HIT_RATE && t < r.value ::
              HitF1(p, t) < HitF1(p, r.value)
  {
    hide HitF1, FalseHitRate;
    var thresholds := SortedSet(Scores(p));
    SortedSetMembers(Scores(p));
    r := None;
    ghost var best := 0;
    for i := 0 to |thresholds|
      invariant r.Some? ==> 0 <= best < i && thresholds[best] == r.value && FalseHitRate(p, r.value) <= MAX_FALSE_HIT_RATE
      invariant forall j | 0 <= j < i && FalseHitRate(p, thresholds[j]) <= MAX_FALSE_HIT_RATE ::
                  r.Some? && NoBetter(p, thresholds[j], r.value)
    {
      var t := thresholds[i];
      var f1 := HitF1(p, t);
      if FalseHitRate(p, t) <= MAX_FALSE_HIT_RATE
         && (r.None? || f1 > HitF1(p, r.value) || (f1 == HitF1(p, r.value) && -t > -r.value)) {
        r, best := Some(t), i;
      }
    }
    forall t | t in Scores(p) && FalseHitRate(p, t) <= MAX_FALSE_HIT_RATE ensures r.Some? && NoBetter(p, t, r.value) {
      assert t in thresholds;
      var j :| 0 <= j < |thresholds| && thresholds[j] == t;
    }
    if r.Some? {
      assert r.value in thresholds;
      BestDistance(p, r.value);
    }
  }

  /** Distance t does not beat distance u. */
  ghost predicate NoBetter(p: seq<Scored>, t: real, u: real) {
    HitF1(p, t) <= HitF1(p, u) && (t < u ==> HitF1(p, t) < HitF1(p, u))
  }

  lemma BestDistance(p: seq<Scored>, best: real)
    requires best in Scores(p) && FalseHitRate(p, best) <= MAX_FALSE_HIT_RATE
    requires forall t | t in Scores(p) && FalseHitRate(p, t) <= MAX_FALSE_HIT_RATE :: NoBetter(p, t, best)
    ensures forall t: real :: FalseHitRate(p, t) <= MAX_FALSE_HIT_RATE ==> HitF1(p, t) <= HitF1(p, best)
    ensures exists m :: IsMin(p, m) && FalseHitRate(p, m) <= MAX_FALSE_HIT_RATE
  {
    hide HitF1, FalseHitRate;
    DistanceAsScore(p, best);
    F1AtNonNegative(Negated(p), -best);
    forall t: real | FalseHitRate(p, t) <= MAX_FALSE_HIT_RATE ensures HitF1(p, t) <= HitF1(p, best) {
      AnyDistance(p, t);
    }
    MinExists(p);
    var m :| IsMin(p, m);
    DistanceAsScore(p, m);
    RateAntitone(Negated(p), -best, -m);
  }

  /******* The off-topic gate *******/

  /** A low quantile of the on-topic similarities: an observed one, with at most floor(n * quantile) of
      them strictly below it and more than that many at or below it. */
  function ChooseOfftopicThreshold(similarities: seq<real>, quantile: real): (r: Option<real>)
    ensures r.None? <==> similarities == []
    ensures r.Some? ==> IsQuantile(similarities, quantile, r.value)
  {
    if similarities == [] then None
    else
      RankIsQuantile(similarities, quantile);
      Some(Sort(similarities)[Rank(|similarities|, quantile)])
  }
}
