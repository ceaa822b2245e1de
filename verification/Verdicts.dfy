/** Substitution verdicts: a threshold calibrated on honest samples, and what it says of others. */
module Verdicts {
  import opened Prelude
  import opened Sorting
  import opened Sums
  import opened Reals

  const GREEDY := "greedy"
  const SAMPLED := "sampled"
  const RATE := "rate"
  const MARGIN := "margin"

  datatype Verdict = Pass | Cheat | Unproven

  datatype Statistic = Statistic(mode: string, positions: nat, disagreements: nat, rate: real, marginMean: real,
                                 marginMax: real, nll: real) {
    predicate Empty() { positions == 0 }

    function Value(aggregate: string): Result<real> {
      if mode == SAMPLED then Ok(nll)
      else if aggregate == RATE then Ok(rate)
      else if aggregate == MARGIN then Ok(marginMean)
      else Err("unknown aggregate")
    }
  }

  datatype Calibration = Calibration(
    mode: string, aggregate: string, threshold: real, alpha: real, honestSamples: nat, separated: bool,
    substitutedMin: real)

  datatype Judgement = Judgement(verdict: Verdict, score: real, threshold: real)

  // ---------------------------------------------------------------- margins and their summary

  function Largest(row: seq<real>): real
    requires |row| > 0
  {
    if |row| == 1 then row[0]
    else var rest := Largest(row[..|row| - 1]); if row[|row| - 1] > rest then row[|row| - 1] else rest
  }

  lemma {:induction false} LargestIsMax(row: seq<real>)
    requires |row| > 0
    ensures Largest(row) in row && forall i :: 0 <= i < |row| ==> row[i] <= Largest(row)
  {
    if |row| > 1 {
      LargestIsMax(row[..|row| - 1]);
    }
  }

  /** gap is what the token's logit lacks to be the largest of its row. */
  ghost predicate IsMargin(row: seq<real>, token: int, gap: real)
    requires 0 <= token < |row|
  {
    && gap >= 0.0
    && (forall k :: 0 <= k < |row| ==> row[k] <= row[token] + gap)
    && row[token] + gap in row
  }

  /** How far each chosen token's logit stays behind the largest of its row. */
  method Margins(logits: seq<seq<real>>, tokens: seq<int>) returns (r: Result<seq<real>>)
    ensures r.Ok? <==> |logits| == |tokens| && forall i :: 0 <= i < |logits| ==> 0 <= tokens[i] < |logits[i]|
    ensures r.Ok? ==>
      |r.value| == |logits| && forall i :: 0 <= i < |logits| ==> IsMargin(logits[i], tokens[i], r.value[i])
  {
    if |logits| != |tokens| {
      return Err("the caller must align them");
    }
    var found: seq<real> := [];
    for n := 0 to |logits|
      invariant |found| == n
      invariant forall i :: 0 <= i < n ==> 0 <= tokens[i] < |logits[i]| && IsMargin(logits[i], tokens[i], found[i])
    {
      var row, token := logits[n], tokens[n];
      if |row| == 0 {
        return Err("a logit row is empty");
      }
      if !(0 <= token < |row|) {
        return Err("token outside the vocabulary");
      }
      LargestIsMax(row);
      var gap := Largest(row) - row[token];
      assert row[token] + gap == Largest(row);
      found := found + [if gap > 0.0 then gap else 0.0];
    }
    return Ok(found);
  }

  function Over(gaps: seq<real>, tolerance: real): seq<real> {
    if |gaps| == 0 then []
    else Over(gaps[..|gaps| - 1], tolerance) + if gaps[|gaps| - 1] > tolerance then [gaps[|gaps| - 1]] else []
  }

  function Plus(s: seq<real>): real {
    if |s| == 0 then 0.0 else Plus(s[..|s| - 1]) + s[|s| - 1]
  }

  function Summarise(gaps: seq<real>, mode: string, nll: real, tolerance: real): Result<Statistic> {
    if mode != GREEDY && mode != SAMPLED then Err("unknown mode")
    else
      var over, n := Over(gaps, tolerance), |gaps| as real;
      Ok(Statistic(mode, |gaps|, |over|,
                   if |gaps| > 0 then |over| as real / n else 0.0,
                   if |gaps| > 0 then Plus(over) / n else 0.0,
                   if |over| > 0 then Largest(over) else 0.0,
                   nll))
  }

  lemma {:induction false} OverBounds(gaps: seq<real>, tolerance: real)
    ensures var over := Over(gaps, tolerance);
      |over| <= |gaps| && (|over| == 0 <==> forall i :: 0 <= i < |gaps| ==> gaps[i] <= tolerance)
  {
    if |gaps| > 0 {
      var n := |gaps| - 1;
      OverBounds(gaps[..n], tolerance);
      if |Over(gaps, tolerance)| > 0 && gaps[n] <= tolerance {
        var i :| 0 <= i < n && gaps[..n][i] > tolerance;
        assert gaps[i] > tolerance;
      }
    }
  }

  lemma {:induction false} OverAbove(gaps: seq<real>, tolerance: real, k: nat)
    requires k < |Over(gaps, tolerance)|
    ensures Over(gaps, tolerance)[k] > tolerance
  {
    var n := |gaps| - 1;
    if k < |Over(gaps[..n], tolerance)| {
      OverAbove(gaps[..n], tolerance, k);
    }
  }

  lemma {:induction false} PlusBounds(s: seq<real>, low: real, high: real)
    requires forall i :: 0 <= i < |s| ==> low < s[i] <= high
    ensures low * |s| as real <= Plus(s) <= high * |s| as real
  {
    if |s| > 0 {
      PlusBounds(s[..|s| - 1], low, high);
    }
  }

  lemma OverMean(over: seq<real>, many: nat)
    requires 0 < |over| <= many && forall i :: 0 <= i < |over| ==> over[i] > 0.0
    ensures 0.0 <= Plus(over) / many as real <= Largest(over)
  {
    LargestIsMax(over);
    PlusBounds(over, 0.0, Largest(over));
    ShareOf(Plus(over), Largest(over), |over| as real, many as real);
  }

  /**
   * Rates lie between zero and one, the mean never exceeds the largest margin, and all vanish together, exactly when no
   * gap is over the tolerance.
   */
  lemma SummaryBounds(gaps: seq<real>, mode: string, nll: real, tolerance: real)
    requires tolerance >= 0.0 && (mode == GREEDY || mode == SAMPLED)
    ensures var s := Summarise(gaps, mode, nll, tolerance).value;
      && 0.0 <= s.rate <= 1.0 && 0.0 <= s.marginMean <= s.marginMax
      && (s.disagreements == 0 <==> forall i :: 0 <= i < |gaps| ==> gaps[i] <= tolerance)
      && (s.disagreements == 0 ==> s.rate == 0.0 && s.marginMean == 0.0)
  {
    var over := Over(gaps, tolerance);
    OverBounds(gaps, tolerance);
    if |over| > 0 {
      forall k | 0 <= k < |over| ensures over[k] > 0.0 {
        OverAbove(gaps, tolerance, k);
      }
      OverMean(over, |gaps|);
      ShareOf(|over| as real, 1.0, |over| as real, |gaps| as real);
    } else if |gaps| > 0 {
      assert 0.0 / |gaps| as real == 0.0;
    }
  }

  /** How many of the gaps are over the tolerance, and what those come to. */
  function HowManyOver(gaps: seq<real>, tolerance: real): nat {
    if |gaps| == 0 then 0 else HowManyOver(gaps[..|gaps| - 1], tolerance) + if gaps[|gaps| - 1] > tolerance then 1
      else 0
  }

  function SumOver(gaps: seq<real>, tolerance: real): real {
    if |gaps| == 0 then 0.0
    else SumOver(gaps[..|gaps| - 1], tolerance) + if gaps[|gaps| - 1] > tolerance then gaps[|gaps| - 1] else 0.0
  }

  lemma PlusLast(s: seq<real>, x: real)
    ensures Plus(s + [x]) == Plus(s) + x
  {
    assert (s + [x])[..|s|] == s;
  }

  lemma {:induction false} OverExactly(gaps: seq<real>, tolerance: real)
    ensures var over := Over(gaps, tolerance);
      && |over| == HowManyOver(gaps, tolerance) && Plus(over) == SumOver(gaps, tolerance)
      && (forall x :: x in over <==> x in gaps && x > tolerance)
  {
    if |gaps| > 0 {
      var n := |gaps| - 1;
      OverExactly(gaps[..n], tolerance);
      assert gaps == gaps[..n] + [gaps[n]];
      var before := Over(gaps[..n], tolerance);
      assert before + [] == before;
      PlusLast(before, gaps[n]);
    }
  }

  /**
   * What a summary says: counts as they are, rate and mean over all positions, and the largest gap over the tolerance.
   */
  lemma SummaryExactly(gaps: seq<real>, mode: string, nll: real, tolerance: real)
    ensures Summarise(gaps, mode, nll, tolerance).Ok? <==> mode == "greedy" || mode == "sampled"
    ensures Summarise(gaps, mode, nll, tolerance).Ok? ==>
      var s := Summarise(gaps, mode, nll, tolerance).value;
      && s.mode == mode && s.nll == nll && s.positions == |gaps|
      && s.disagreements == HowManyOver(gaps, tolerance)
      && (|gaps| > 0 ==> s.rate == HowManyOver(gaps, tolerance) as real / |gaps| as real)
      && (|gaps| > 0 ==> s.marginMean == SumOver(gaps, tolerance) / |gaps| as real)
      && (gaps == [] ==> s.rate == 0.0 && s.marginMean == 0.0)
  {
    OverExactly(gaps, tolerance);
  }

  /** The largest of the gaps over the tolerance, zero if there is none. */
  ghost predicate IsLargestOver(gaps: seq<real>, tolerance: real, largest: real) {
    && (forall gap :: gap in gaps && gap > tolerance ==> gap <= largest)
    && if exists gap :: gap in gaps && gap > tolerance then largest in gaps && largest > tolerance else largest == 0.0
  }

  lemma LargestOver(gaps: seq<real>, tolerance: real)
    ensures var over := Over(gaps, tolerance);
      IsLargestOver(gaps, tolerance, if |over| > 0 then Largest(over) else 0.0)
  {
    var over := Over(gaps, tolerance);
    OverExactly(gaps, tolerance);
    if |over| > 0 {
      LargestIsMax(over);
      assert over[0] in over && Largest(over) in over;
    }
  }

  lemma LargestMarginExactly(gaps: seq<real>, mode: string, nll: real, tolerance: real)
    requires mode == "greedy" || mode == "sampled"
    ensures IsLargestOver(gaps, tolerance, Summarise(gaps, mode, nll, tolerance).value.marginMax)
  {
    LargestOver(gaps, tolerance);
  }

  /** Which number a sample is judged by. */
  lemma ValueExactly(s: Statistic, aggregate: string)
    ensures s.mode == "sampled" ==> s.Value(aggregate) == Ok(s.nll)
    ensures s.mode != "sampled" && aggregate == "rate" ==> s.Value(aggregate) == Ok(s.rate)
    ensures s.mode != "sampled" && aggregate == "margin" ==> s.Value(aggregate) == Ok(s.marginMean)
    ensures s.Value(aggregate).Err? <==> s.mode != "sampled" && aggregate != "rate" && aggregate != "margin"
    ensures s.Empty() <==> s.positions == 0
  {
  }

  // ---------------------------------------------------------------- the threshold

  predicate RealLe(a: real, b: real) {
    a <= b
  }

  /** Where in n sorted values a quantile stands, and the places before and after it. */
  function Position(n: nat, q: real): real
    requires n > 0
  {
    q * (n - 1) as real
  }

  function Below(n: nat, q: real): int
    requires n > 0
  {
    Position(n, q).Floor
  }

  function Beyond(n: nat, q: real): int
    requires n > 0
  {
    Ceil(Position(n, q))
  }

  lemma PositionInside(n: nat, q: real)
    requires n > 0 && 0.0 <= q <= 1.0
    ensures 0 <= Below(n, q) <= Beyond(n, q) < n
    ensures 0.0 <= Position(n, q) - Below(n, q) as real <= 1.0
  {
    ProductInside(q, (n - 1) as real);
    FloorsInside(Position(n, q), n - 1);
  }

  function Quantile(values: seq<real>, q: real): Result<real>
    requires 0.0 <= q <= 1.0
  {
    if |values| == 0 then Err("no honest samples to calibrate against")
    else if |values| == 1 then Ok(values[0])
    else
      var low, high := Below(|values|, q), Beyond(|values|, q);
      PositionInside(|values|, q);
      if low == high then Ok(values[low])
      else Ok(Mix(values[low], values[high], Position(|values|, q) - low as real))
  }

  function Mix(a: real, b: real, part: real): real {
    a + ShareOfGap(b - a, part)
  }

  lemma Between(a: real, b: real, part: real)
    requires a <= b && 0.0 <= part <= 1.0
    ensures a <= Mix(a, b, part) <= b
  {
    PartInside(b - a, part);
  }

  /** The quantile lies between the two values around its position. */
  lemma QuantileBetween(values: seq<real>, q: real)
    requires 0.0 <= q <= 1.0 && |values| > 0 && Ascending(values, RealLe)
    ensures var low, high := Below(|values|, q), Beyond(|values|, q);
      && 0 <= low <= high < |values|
      && Quantile(values, q).Ok? && values[low] <= Quantile(values, q).value <= values[high]
  {
    PositionInside(|values|, q);
    var low, high := Below(|values|, q), Beyond(|values|, q);
    if low < high {
      assert RealLe(values[low], values[high]);
      Between(values[low], values[high], Position(|values|, q) - low as real);
    }
  }

  /** Where the quantile stands between those two, in proportion to where its position stands between their places. */
  lemma QuantileExactly(values: seq<real>, q: real, low: nat, part: real)
    requires 0.0 <= q <= 1.0 && |values| > 0
    requires low < |values| && 0.0 <= part < 1.0 && q * (|values| - 1) as real == low as real + part
    ensures Quantile(values, q).Ok?
    ensures part > 0.0 ==> low + 1 < |values|
    ensures Quantile(values, q).value
      == if part > 0.0 then values[low] * (1.0 - part) + values[low + 1] * part else values[low]
  {
    var n := |values|;
    PositionInside(n, q);
    assert Position(n, q) == low as real + part;
    assert Below(n, q) == low;
    assert part > 0.0 ==> Beyond(n, q) == low + 1;
    assert part == 0.0 ==> Beyond(n, q) == low;
    if part > 0.0 {
      MixExactly(values[low], values[low + 1], part);
    }
  }

  lemma MixExactly(a: real, b: real, part: real)
    ensures Mix(a, b, part) == a * (1.0 - part) + b * part
  {
  }

  function Exceeds(threshold: real): real -> real {
    (x: real) => if x > threshold then 1.0 else 0.0
  }

  function Reaches(threshold: real): real -> real {
    (x: real) => if x >= threshold then 1.0 else 0.0
  }

  /** Those above, and those at or above, each count as one. */
  function HowManyAbove(s: seq<real>, threshold: real, orAt: bool): nat {
    if |s| == 0 then 0
    else (if s[0] > threshold || (orAt && s[0] == threshold) then 1 else 0) + HowManyAbove(s[1..], threshold, orAt)
  }

  lemma {:induction false} CountExactly(s: seq<real>, threshold: real)
    ensures Sum(s, Exceeds(threshold)) == HowManyAbove(s, threshold, false) as real
    ensures Sum(s, Reaches(threshold)) == HowManyAbove(s, threshold, true) as real
  {
    if |s| > 0 {
      CountExactly(s[1..], threshold);
    }
  }

  lemma {:induction false} NoneExceed(s: seq<real>, threshold: real)
    requires forall i :: 0 <= i < |s| ==> s[i] <= threshold
    ensures Sum(s, Exceeds(threshold)) == 0.0
  {
    if |s| > 0 {
      NoneExceed(s[1..], threshold);
    }
  }

  lemma {:induction false} CountBounds(s: seq<real>, threshold: real)
    ensures 0.0 <= Sum(s, Exceeds(threshold)) <= |s| as real
    ensures 0.0 <= Sum(s, Reaches(threshold)) <= |s| as real
  {
    if |s| > 0 {
      CountBounds(s[1..], threshold);
    }
  }

  lemma {:induction false} AllReach(s: seq<real>, threshold: real)
    requires forall i :: 0 <= i < |s| ==> s[i] >= threshold
    ensures Sum(s, Reaches(threshold)) == |s| as real
  {
    if |s| > 0 {
      AllReach(s[1..], threshold);
    }
  }

  lemma FewAbove(values: seq<real>, threshold: real, low: nat)
    requires low < |values| && Ascending(values, RealLe) && values[low] <= threshold
    ensures Sum(values, Exceeds(threshold)) <= (|values| - 1 - low) as real
  {
    var head, tail := values[..low + 1], values[low + 1..];
    assert values == head + tail;
    SumAppend(head, tail, Exceeds(threshold));
    forall i | 0 <= i < |head| ensures head[i] <= threshold {
      assert i < low ==> RealLe(values[i], values[low]);
    }
    NoneExceed(head, threshold);
    CountBounds(tail, threshold);
  }

  lemma EnoughReach(values: seq<real>, threshold: real, high: nat)
    requires high < |values| && Ascending(values, RealLe) && values[high] >= threshold
    ensures Sum(values, Reaches(threshold)) >= (|values| - high) as real
  {
    var head, tail := values[..high], values[high..];
    assert values == head + tail;
    SumAppend(head, tail, Reaches(threshold));
    forall i | 0 <= i < |tail| ensures tail[i] >= threshold {
      assert i > 0 ==> RealLe(values[high], values[high + i]);
    }
    AllReach(tail, threshold);
    CountBounds(head, threshold);
  }

  /** n - 1 less a position at 1 - alpha is a position at alpha. */
  lemma Complement(n: nat, alpha: real)
    requires n > 0
    ensures n - 1 - Below(n, 1.0 - alpha) == Beyond(n, alpha)
    ensures n - Beyond(n, 1.0 - alpha) == Below(n, alpha) + 1
  {
    var x := Position(n, alpha);
    OneLess(alpha, (n - 1) as real);
    assert ((n - 1) as real - x).Floor == n - 1 + (-x).Floor;
    assert (x - (n - 1) as real).Floor == x.Floor - (n - 1);
  }

  lemma AscendingCounts(ascending: seq<real>, alpha: real)
    requires 0.0 <= alpha <= 1.0 && |ascending| > 0 && Ascending(ascending, RealLe)
    ensures var t := Quantile(ascending, 1.0 - alpha);
      && t.Ok?
      && Sum(ascending, Exceeds(t.value)) <= Beyond(|ascending|, alpha) as real
      && Sum(ascending, Reaches(t.value)) >= (Below(|ascending|, alpha) + 1) as real
  {
    QuantileBetween(ascending, 1.0 - alpha);
    var t := Quantile(ascending, 1.0 - alpha).value;
    Complement(|ascending|, alpha);
    FewAbove(ascending, t, Below(|ascending|, 1.0 - alpha));
    EnoughReach(ascending, t, Beyond(|ascending|, 1.0 - alpha));
  }

  /**
   * Of any n values, at most ceil(alpha (n - 1)) lie above the threshold, and at least floor(alpha (n - 1)) + 1 reach
   * it.
   */
  lemma ThresholdCounts(values: seq<real>, alpha: real)
    requires 0.0 <= alpha <= 1.0 && |values| > 0
    ensures var t := Quantile(Sort(values, RealLe), 1.0 - alpha);
      && t.Ok?
      && Sum(values, Exceeds(t.value)) <= Beyond(|values|, alpha) as real
      && Sum(values, Reaches(t.value)) >= (Below(|values|, alpha) + 1) as real
  {
    var ascending := Sort(values, RealLe);
    SortAscends(values, RealLe);
    AscendingCounts(ascending, alpha);
    var t := Quantile(ascending, 1.0 - alpha).value;
    SumPermuted(values, ascending, Exceeds(t));
    SumPermuted(values, ascending, Reaches(t));
  }

  // ---------------------------------------------------------------- calibration

  /** The values of the samples that carry any position; an error if one of them has no such aggregate. */
  function Values(rows: seq<Statistic>, aggregate: string): Result<seq<real>> {
    if |rows| == 0 then Ok([])
    else if rows[0].Empty() then Values(rows[1..], aggregate)
    else if rows[0].Value(aggregate).Err? then Err("unknown aggregate")
    else
      var rest := Values(rows[1..], aggregate);
      if rest.Err? then rest else Ok([rows[0].Value(aggregate).value] + rest.value)
  }

  function Smallest(s: seq<real>): real
    requires |s| > 0
  {
    if |s| == 1 then s[0]
    else var rest := Smallest(s[1..]); if rest < s[0] then rest else s[0]
  }

  lemma {:induction false} SmallestIsMin(s: seq<real>, x: real)
    requires |s| > 0
    ensures Smallest(s) > x <==> forall i :: 0 <= i < |s| ==> s[i] > x
  {
    if |s| > 1 {
      SmallestIsMin(s[1..], x);
      assert s == [s[0]] + s[1..];
    }
  }

  function Calibrate(honest: seq<Statistic>, substituted: seq<Statistic>, mode: string, aggregate: string,
                     alpha: real): Result<Calibration>
  {
    if !(0.0 < alpha < 1.0) then Err("alpha must lie strictly between zero and one")
    else
      var values := Values(honest, aggregate);
      if values.Err? then Err(values.reason)
      else if |values.value| == 0 then Err("every honest sample was empty")
      else
        var threshold := Quantile(Sort(values.value, RealLe), 1.0 - alpha);
        var against := Values(substituted, aggregate);
        if threshold.Err? then Err(threshold.reason)
        else if against.Err? then Err(against.reason)
        else
          var least := if |against.value| > 0 then Smallest(against.value) else 0.0;
          Ok(Calibration(mode, aggregate, threshold.value, alpha, |values.value|,
                         |against.value| > 0 && least > threshold.value, least))
  }

  function Judge(found: Statistic, c: Calibration): Result<Judgement> {
    if found.mode != c.mode || found.Empty() then Ok(Judgement(Unproven, 0.0, c.threshold))
    else
      var value := found.Value(c.aggregate);
      if value.Err? then Err(value.reason)
      else if !c.separated then Ok(Judgement(Unproven, value.value, c.threshold))
      else if value.value > c.threshold then Ok(Judgement(Cheat, value.value, c.threshold))
      else Ok(Judgement(Pass, value.value, c.threshold))
  }

  predicate IsCheat(found: Statistic, c: Calibration) {
    Judge(found, c).Ok? && Judge(found, c).value.verdict == Cheat
  }

  /** How many of the samples are judged to cheat. */
  function Cheats(rows: seq<Statistic>, c: Calibration): nat {
    if |rows| == 0 then 0
    else (if IsCheat(rows[0], c) then 1 else 0) + Cheats(rows[1..], c)
  }

  /** Each sample judged to cheat counts as one. */
  lemma {:induction false} CheatsExactly(rows: seq<Statistic>, c: Calibration)
    ensures Cheats(rows, c) == |rows| <==> forall i :: 0 <= i < |rows| ==> IsCheat(rows[i], c)
    ensures Cheats(rows, c) == 0 <==> forall i :: 0 <= i < |rows| ==> !IsCheat(rows[i], c)
    ensures Cheats(rows, c) <= |rows|
  {
    if |rows| > 0 {
      CheatsExactly(rows[1..], c);
      assert forall i :: 0 < i < |rows| ==> rows[i] == rows[1..][i - 1];
      if forall i :: 0 <= i < |rows| ==> IsCheat(rows[i], c) {
        assert forall i :: 0 <= i < |rows[1..]| ==> rows[1..][i] == rows[i + 1];
      }
      if forall i :: 0 <= i < |rows| ==> !IsCheat(rows[i], c) {
        assert forall i :: 0 <= i < |rows[1..]| ==> rows[1..][i] == rows[i + 1];
      }
    }
  }

  /** The verdict on a sample, by mode, value and threshold. */
  lemma JudgeExactly(found: Statistic, c: Calibration)
    ensures var r := Judge(found, c);
      var proven := found.mode == c.mode && found.positions > 0;
      && (r.Err? <==> proven && found.Value(c.aggregate).Err?)
      && (r.Ok? ==>
            && r.value.threshold == c.threshold
            && r.value.score == (if proven then found.Value(c.aggregate).value else 0.0)
            && (r.value.verdict == Cheat <==> proven && c.separated && r.value.score > c.threshold)
            && (r.value.verdict == Pass <==> proven && c.separated && r.value.score <= c.threshold))
  {
  }

  /** The value of a sample that carries any position, and no such sample has a smaller one. */
  ghost predicate IsLeastValue(rows: seq<Statistic>, aggregate: string, least: real) {
    && (exists row :: row in rows && row.positions > 0 && row.Value(aggregate) == Ok(least))
    && forall row :: row in rows && row.positions > 0 ==>
         row.Value(aggregate).Ok? && row.Value(aggregate).value >= least
  }

  /** When samples can be calibrated on, and what the calibration then says of itself. */
  lemma CalibrateExactly(honest: seq<Statistic>, substituted: seq<Statistic>, mode: string, aggregate: string,
                         alpha: real)
    ensures var r := Calibrate(honest, substituted, mode, aggregate, alpha);
      && (r.Ok? <==>
            && 0.0 < alpha < 1.0
            && (exists row :: row in honest && row.positions > 0)
            && (forall row :: row in honest + substituted && row.positions > 0 ==> row.Value(aggregate).Ok?))
      && (r.Ok? ==>
            && r.value.mode == mode && r.value.aggregate == aggregate && r.value.alpha == alpha
            && r.value.honestSamples == Carrying(honest)
            && (Carrying(substituted) == 0 ==> r.value.substitutedMin == 0.0)
            && (Carrying(substituted) > 0 ==> IsLeastValue(substituted, aggregate, r.value.substitutedMin)))
  {
    ValuesExactly(honest, aggregate);
    ValuesExactly(substituted, aggregate);
    if Values(honest, aggregate).Ok? {
      AllValues(honest, aggregate, 0.0);
    }
    if Values(substituted, aggregate).Ok? && |Values(substituted, aggregate).value| > 0 {
      LeastValue(substituted, aggregate);
    }
  }

  /** How many of the samples carry any position. */
  function Carrying(rows: seq<Statistic>): nat {
    if |rows| == 0 then 0 else (if rows[0].positions > 0 then 1 else 0) + Carrying(rows[1..])
  }

  lemma {:induction false} ValuesExactly(rows: seq<Statistic>, aggregate: string)
    ensures Values(rows, aggregate).Ok? <==>
      forall row :: row in rows && row.positions > 0 ==> row.Value(aggregate).Ok?
    ensures Values(rows, aggregate).Ok? ==> |Values(rows, aggregate).value| == Carrying(rows)
  {
    if |rows| > 0 {
      ValuesExactly(rows[1..], aggregate);
      assert rows == [rows[0]] + rows[1..];
    }
  }

  lemma {:induction false} SmallestListed(s: seq<real>)
    requires |s| > 0
    ensures Smallest(s) in s && forall i :: 0 <= i < |s| ==> Smallest(s) <= s[i]
  {
    if |s| > 1 {
      SmallestListed(s[1..]);
      assert s == [s[0]] + s[1..];
    }
  }

  lemma LeastValue(rows: seq<Statistic>, aggregate: string)
    requires Values(rows, aggregate).Ok? && |Values(rows, aggregate).value| > 0
    ensures IsLeastValue(rows, aggregate, Smallest(Values(rows, aggregate).value))
  {
    var values := Values(rows, aggregate).value;
    SmallestListed(values);
    var i :| 0 <= i < |values| && values[i] == Smallest(values);
    var row := ListedValue(rows, aggregate, i);
    forall row | row in rows && row.positions > 0
      ensures row.Value(aggregate).Ok? && row.Value(aggregate).value >= Smallest(values)
    {
      ValueListed(rows, aggregate, row);
    }
  }

  lemma {:induction false} CheatsExceed(rows: seq<Statistic>, c: Calibration)
    requires Values(rows, c.aggregate).Ok?
    ensures Cheats(rows, c) as real <= Sum(Values(rows, c.aggregate).value, Exceeds(c.threshold))
  {
    if |rows| > 0 {
      CheatsExceed(rows[1..], c);
      if !rows[0].Empty() {
        var values, rest := Values(rows, c.aggregate).value, Values(rows[1..], c.aggregate).value;
        assert values[0] == rows[0].Value(c.aggregate).value && values[1..] == rest;
      }
    }
  }

  /**
   * Of the n non-empty honest samples it was calibrated on, at most ceil(alpha (n - 1)) are judged to cheat, and at
   * least floor(alpha (n - 1)) + 1 have values that reach the threshold: it is no higher than it must be.
   */
  lemma FalsePositives(honest: seq<Statistic>, substituted: seq<Statistic>, mode: string, aggregate: string,
                       alpha: real)
    requires Calibrate(honest, substituted, mode, aggregate, alpha).Ok?
    ensures var c := Calibrate(honest, substituted, mode, aggregate, alpha).value;
      && c.honestSamples > 0
      && Cheats(honest, c) <= Beyond(c.honestSamples, alpha)
      && Sum(Values(honest, aggregate).value, Reaches(c.threshold)) >= (Below(c.honestSamples, alpha) + 1) as real
  {
    var c := Calibrate(honest, substituted, mode, aggregate, alpha).value;
    ThresholdCounts(Values(honest, aggregate).value, alpha);
    CheatsExceed(honest, c);
  }

  lemma {:induction false} ValueListed(rows: seq<Statistic>, aggregate: string, row: Statistic)
    requires Values(rows, aggregate).Ok? && row in rows && !row.Empty()
    ensures row.Value(aggregate).Ok? && row.Value(aggregate).value in Values(rows, aggregate).value
  {
    if row != rows[0] {
      assert row in rows[1..];
      ValueListed(rows[1..], aggregate, row);
    }
  }

  lemma {:induction false} ListedValue(rows: seq<Statistic>, aggregate: string, i: nat) returns (row: Statistic)
    requires Values(rows, aggregate).Ok? && i < |Values(rows, aggregate).value|
    ensures row in rows && !row.Empty() && row.Value(aggregate) == Ok(Values(rows, aggregate).value[i])
  {
    if rows[0].Empty() {
      row := ListedValue(rows[1..], aggregate, i);
    } else if i == 0 {
      row := rows[0];
    } else {
      row := ListedValue(rows[1..], aggregate, i - 1);
    }
  }

  lemma {:induction false} AllValues(rows: seq<Statistic>, aggregate: string, x: real)
    requires Values(rows, aggregate).Ok?
    ensures var values := Values(rows, aggregate).value;
      && (|values| > 0 <==> exists row :: row in rows && !row.Empty())
      && ((forall i :: 0 <= i < |values| ==> values[i] > x)
          <==> forall row :: row in rows && !row.Empty() ==> row.Value(aggregate).Ok? && row.Value(aggregate).value > x)
  {
    var values := Values(rows, aggregate).value;
    if row :| row in rows && !row.Empty() {
      ValueListed(rows, aggregate, row);
    }
    if |values| > 0 {
      var row := ListedValue(rows, aggregate, 0);
    }
    if forall i :: 0 <= i < |values| ==> values[i] > x {
      forall row | row in rows && !row.Empty() ensures row.Value(aggregate).Ok? && row.Value(aggregate).value > x {
        ValueListed(rows, aggregate, row);
      }
    } else {
      var i :| 0 <= i < |values| && values[i] <= x;
      var row := ListedValue(rows, aggregate, i);
    }
  }

  /**
   * A calibration separates exactly when some substituted sample is not empty and every one that is not lies above the
   * threshold.
   */
  lemma SeparatedExactly(honest: seq<Statistic>, substituted: seq<Statistic>, mode: string, aggregate: string,
                         alpha: real)
    requires Calibrate(honest, substituted, mode, aggregate, alpha).Ok?
    ensures var c := Calibrate(honest, substituted, mode, aggregate, alpha).value;
      c.separated <==>
        && (exists row :: row in substituted && !row.Empty())
        && (forall row :: row in substituted && !row.Empty() ==>
            row.Value(aggregate).Ok? && row.Value(aggregate).value > c.threshold)
  {
    var c := Calibrate(honest, substituted, mode, aggregate, alpha).value;
    var against := Values(substituted, aggregate).value;
    AllValues(substituted, aggregate, c.threshold);
    if |against| > 0 {
      SmallestIsMin(against, c.threshold);
    }
  }

  /**
   * A separating calibration convicts each substituted sample that is not empty, if and only if that sample is of its
   * own mode.
   */
  lemma SubstitutionsCaught(honest: seq<Statistic>, substituted: seq<Statistic>, mode: string, aggregate: string,
                            alpha: real, row: Statistic)
    requires Calibrate(honest, substituted, mode, aggregate, alpha).Ok?
    requires Calibrate(honest, substituted, mode, aggregate, alpha).value.separated
    requires row in substituted && !row.Empty()
    ensures var c := Calibrate(honest, substituted, mode, aggregate, alpha).value;
      IsCheat(row, c) <==> row.mode == mode
  {
    SeparatedExactly(honest, substituted, mode, aggregate, alpha);
  }

  /** What was never shown to separate convicts nobody. */
  lemma UnseparatedConvictsNobody(c: Calibration, rows: seq<Statistic>)
    requires !c.separated
    ensures Cheats(rows, c) == 0
  {
    if |rows| > 0 {
      UnseparatedConvictsNobody(c, rows[1..]);
    }
  }

  lemma {:induction false} NonNegativeValues(rows: seq<Statistic>, aggregate: string)
    requires Values(rows, aggregate).Ok?
    requires forall row :: row in rows ==> row.rate >= 0.0 && row.marginMean >= 0.0 && row.nll >= 0.0
    ensures forall i :: 0 <= i < |Values(rows, aggregate).value| ==> Values(rows, aggregate).value[i] >= 0.0
  {
    if |rows| > 0 {
      assert rows[0] in rows;
      NonNegativeValues(rows[1..], aggregate);
    }
  }

  lemma ThresholdNonNegative(values: seq<real>, q: real)
    requires |values| > 0 && 0.0 <= q <= 1.0 && forall i :: 0 <= i < |values| ==> values[i] >= 0.0
    ensures Quantile(Sort(values, RealLe), q).Ok? && Quantile(Sort(values, RealLe), q).value >= 0.0
  {
    var ascending := Sort(values, RealLe);
    SortAscends(values, RealLe);
    QuantileBetween(ascending, q);
    SameMembers(values, ascending, ascending[Below(|values|, q)]);
  }

  /**
   * A greedy answer whose tokens are all within the tolerance of the largest logit is never convicted by a calibration
   * on summaries.
   */
  lemma FaithfulGreedyNeverConvicted(honest: seq<Statistic>, substituted: seq<Statistic>, aggregate: string,
                                     alpha: real, gaps: seq<real>, tolerance: real)
    requires Calibrate(honest, substituted, GREEDY, aggregate, alpha).Ok?
    requires forall row :: row in honest ==> row.rate >= 0.0 && row.marginMean >= 0.0 && row.nll >= 0.0
    requires tolerance >= 0.0 && forall i :: 0 <= i < |gaps| ==> gaps[i] <= tolerance
    ensures var c := Calibrate(honest, substituted, GREEDY, aggregate, alpha).value;
      !IsCheat(Summarise(gaps, GREEDY, 0.0, tolerance).value, c)
  {
    SummaryBounds(gaps, GREEDY, 0.0, tolerance);
    CalibratedNonNegative(honest, substituted, GREEDY, aggregate, alpha);
    FaithfulPasses(Summarise(gaps, GREEDY, 0.0, tolerance).value,
                   Calibrate(honest, substituted, GREEDY, aggregate, alpha).value);
  }

  lemma FaithfulPasses(found: Statistic, c: Calibration)
    requires found.mode != SAMPLED && found.rate == 0.0 && found.marginMean == 0.0 && c.threshold >= 0.0
    ensures !IsCheat(found, c)
  {
  }

  lemma CalibratedNonNegative(honest: seq<Statistic>, substituted: seq<Statistic>, mode: string, aggregate: string,
                              alpha: real)
    requires Calibrate(honest, substituted, mode, aggregate, alpha).Ok?
    requires forall row :: row in honest ==> row.rate >= 0.0 && row.marginMean >= 0.0 && row.nll >= 0.0
    ensures Calibrate(honest, substituted, mode, aggregate, alpha).value.threshold >= 0.0
  {
    NonNegativeValues(honest, aggregate);
    ThresholdNonNegative(Values(honest, aggregate).value, 1.0 - alpha);
  }

  lemma OneValue(row: Statistic, aggregate: string)
    requires !row.Empty() && row.Value(aggregate).Ok?
    ensures Values([row], aggregate) == Ok([row.Value(aggregate).value])
  {
    assert [row][1..] == [] && Values([row][1..], aggregate).value == [];
    assert Values([row], aggregate).Ok? && Values([row], aggregate).value == [row.Value(aggregate).value];
  }

  /**
   * A substituted sample of another mode counts when the calibration is said to separate, and still cannot be convicted
   * by it.
   */
  lemma OtherModeEscapes()
    ensures var honest := [Statistic(GREEDY, 1, 0, 0.0, 0.0, 0.0, 0.0)];
      var other := Statistic(SAMPLED, 1, 0, 0.0, 0.0, 0.0, 5.0);
      var c := Calibrate(honest, [other], GREEDY, MARGIN, 0.01);
      && c.Ok? && c.value.separated
      && Judge(other, c.value).Ok? && Judge(other, c.value).value.verdict == Unproven
  {
    var honest := [Statistic(GREEDY, 1, 0, 0.0, 0.0, 0.0, 0.0)];
    var other := Statistic(SAMPLED, 1, 0, 0.0, 0.0, 0.0, 5.0);
    OneValue(honest[0], MARGIN);
    OneValue(other, MARGIN);
    assert [0.0][1..] == [];
    assert Sort([0.0], RealLe) == [0.0];
  }
}
