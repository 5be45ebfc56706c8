/**
 * Spine motility over a table of timed length measurements
 * (spine_motility.py, calculate_motility): for every distinct spine, in order
 * of first appearance, its samples sorted by time give
 * motility = (sum of |l[i+1] - l[i]|) / (t_last - t_first).
 */
module Motility {
  import opened Wrappers

  /** One row of the input table: spine_name, Time (min), length_microns. */
  datatype Sample = Sample(spineName: string, time: real, lengthMicrons: real)

  /** One row of the output: spine_name, motility (microns per min); None where the time span is zero. */
  datatype MotilityResult = MotilityResult(spineName: string, motility: Option<real>)

  function Abs(x: real): real { if x < 0.0 then -x else x }

  function Names(rows: seq<Sample>): (r: seq<string>)
    ensures |r| == |rows| && forall k :: 0 <= k < |rows| ==> r[k] == rows[k].spineName
  {
    if rows == [] then [] else Names(rows[..|rows| - 1]) + [rows[|rows| - 1].spineName]
  }

  /** Series.unique(): each name once, in order of first appearance. */
  function Distinct(s: seq<string>): (r: seq<string>)
    ensures forall i, j :: 0 <= i < j < |r| ==> r[i] != r[j]
    ensures forall x :: x in r <==> x in s
  {
    if s == [] then []
    else
      var d := Distinct(s[..|s| - 1]);
      if s[|s| - 1] in d then d else d + [s[|s| - 1]]
  }

  /** The index at which x first occurs in s. */
  function FirstIndex(s: seq<string>, x: string): (r: nat)
    requires x in s
    ensures r < |s| && s[r] == x && forall k :: 0 <= k < r ==> s[k] != x
  {
    if x in s[..|s| - 1] then FirstIndex(s[..|s| - 1], x) else |s| - 1
  }

  /** Distinct lists the names in the order in which they first occur. */
  lemma {:induction false} DistinctInFirstAppearanceOrder(s: seq<string>)
    ensures forall i, j :: 0 <= i < j < |Distinct(s)| ==> FirstIndex(s, Distinct(s)[i]) < FirstIndex(s, Distinct(s)[j])
  {
    if s != [] {
      var p := s[..|s| - 1];
      DistinctInFirstAppearanceOrder(p);
      var d, r := Distinct(p), Distinct(s);
      forall x | x in p ensures FirstIndex(s, x) == FirstIndex(p, x) { }
      forall i, j | 0 <= i < j < |r| ensures FirstIndex(s, r[i]) < FirstIndex(s, r[j]) {
        assert i < |d| && r[i] == d[i] && d[i] in p;
        assert FirstIndex(s, r[i]) == FirstIndex(p, d[i]);
        if j < |d| {
          assert r[j] == d[j] && d[j] in p;
          assert FirstIndex(s, r[j]) == FirstIndex(p, d[j]);
          assert FirstIndex(p, d[i]) < FirstIndex(p, d[j]);
        } else {
          assert r[j] == s[|s| - 1] && r[j] !in p;
          assert FirstIndex(s, r[j]) == |s| - 1;
        }
      }
    }
  }

  /** df[df['spine_name'] == name]: the rows of one spine, in table order. */
  function SamplesOf(rows: seq<Sample>, name: string): (r: seq<Sample>)
    ensures forall x :: x in r <==> x in rows && x.spineName == name
    ensures forall x :: multiset(r)[x] == if x.spineName == name then multiset(rows)[x] else 0
    ensures |r| <= |rows|
  {
    if rows == [] then []
    else
      var init, last := rows[..|rows| - 1], rows[|rows| - 1];
      assert rows == init + [last];
      var p := SamplesOf(init, name);
      if last.spineName == name then p + [last] else p
  }

  predicate SortedByTime(s: seq<Sample>)
  {
    forall i, j :: 0 <= i < j < |s| ==> s[i].time <= s[j].time
  }

  /** A sample no later than the head of a sorted sequence can go in front of it. */
  lemma SortedCons(a: Sample, s: seq<Sample>)
    requires SortedByTime(s) && (s == [] || a.time <= s[0].time)
    ensures SortedByTime([a] + s)
  {
    var r := [a] + s;
    forall i, j | 0 <= i < j < |r| ensures r[i].time <= r[j].time {
      if i == 0 {
        assert r[j] == s[j - 1] && s[0].time <= s[j - 1].time;
      } else {
        assert r[i] == s[i - 1] && r[j] == s[j - 1];
      }
    }
  }

  /** x placed in front of the first element of sorted s that is not earlier than it. */
  function Insert(x: Sample, s: seq<Sample>): (r: seq<Sample>)
    requires SortedByTime(s)
    ensures SortedByTime(r)
    ensures multiset(r) == multiset(s) + multiset{x}
    ensures |r| == |s| + 1
    ensures r[0] == x || (s != [] && r[0] == s[0])
  {
    if s == [] || x.time <= s[0].time then
      SortedCons(x, s);
      [x] + s
    else
      assert s == [s[0]] + s[1..];
      var t := Insert(x, s[1..]);
      SortedCons(s[0], t);
      [s[0]] + t
  }

  /** sort_values('Time (min)'): the same rows ordered by time. */
  function SortByTime(s: seq<Sample>): (r: seq<Sample>)
    ensures SortedByTime(r)
    ensures multiset(r) == multiset(s)
    ensures |r| == |s|
  {
    if s == [] then []
    else
      assert s == [s[0]] + s[1..];
      Insert(s[0], SortByTime(s[1..]))
  }

  function Lengths(s: seq<Sample>): (r: seq<real>)
    ensures |r| == |s| && forall k :: 0 <= k < |s| ==> r[k] == s[k].lengthMicrons
  {
    seq(|s|, k requires 0 <= k < |s| => s[k].lengthMicrons)
  }

  /** The sum of the absolute differences of consecutive lengths: |l| - 1 terms. */
  function SumAbsDiffs(l: seq<real>): (r: real)
    ensures r >= 0.0
  {
    if |l| < 2 then 0.0 else SumAbsDiffs(l[..|l| - 1]) + Abs(l[|l| - 1] - l[|l| - 2])
  }

  /**
   * The motility of one spine from its samples sorted by time; None when all
   * samples share one time point, where 1/T is not a number.
   */
  function SpineMotility(s: seq<Sample>): (m: Option<real>)
    requires |s| > 0
    ensures m.Some? <==> Span(s) != 0.0
    ensures m.Some? ==> m.value * Span(s) == SumAbsDiffs(Lengths(s))
  {
    Rate(Span(s), SumAbsDiffs(Lengths(s)))
  }

  /** (1/T) * total, where T is not zero: the rate that accumulates total over T. */
  function Rate(span: real, total: real): (m: Option<real>)
    ensures m.Some? <==> span != 0.0
    ensures m.Some? ==> m.value * span == total
  {
    if span == 0.0 then None
    else
      InverseTimes(span, total);
      Some((1.0 / span) * total)
  }

  /** T: the time from the first to the last sample, never negative once they are sorted by time. */
  function Span(s: seq<Sample>): (r: real)
    requires |s| > 0
    ensures SortedByTime(s) ==> 0.0 <= r
  {
    s[|s| - 1].time - s[0].time
  }

  /** The output table: one entry per distinct spine, in order of first appearance. */
  function Motility(rows: seq<Sample>): (r: seq<MotilityResult>)
    ensures var names := Distinct(Names(rows));
      |r| == |names| && forall k :: 0 <= k < |r| ==> r[k].spineName == names[k]
  {
    var names := Distinct(Names(rows));
    seq(|names|, k requires 0 <= k < |names| => MotilityOfName(rows, names[k]))
  }

  /** The output entry of one spine that occurs in the table. */
  function MotilityOfName(rows: seq<Sample>, name: string): (r: MotilityResult)
    ensures r.spineName == name
  {
    var s := SortByTime(SamplesOf(rows, name));
    MotilityResult(name, if |s| == 0 then None else SpineMotility(s))
  }

  /** A spine observed at one time point only has no motility. */
  lemma SingleSampleHasNone(x: Sample)
    ensures SpineMotility([x]) == None
  {
  }

  /** Over samples sorted by time, motility is never negative. */
  lemma MotilityNonNegative(s: seq<Sample>)
    requires |s| > 0 && SortedByTime(s)
    ensures SpineMotility(s).Some? ==> SpineMotility(s).value >= 0.0
  {
    var t := s[|s| - 1].time - s[0].time;
    if t != 0.0 {
      assert t > 0.0;
      NonNegProduct(1.0 / t, SumAbsDiffs(Lengths(s)));
    }
  }

  lemma NonNegProduct(a: real, b: real)
    requires a >= 0.0 && b >= 0.0
    ensures a * b >= 0.0
  {
  }

  /** A spine whose length never changes has zero motility. */
  lemma {:induction false} ConstantLengthsSumZero(l: seq<real>)
    requires forall k :: 0 <= k < |l| ==> l[k] == l[0]
    ensures SumAbsDiffs(l) == 0.0
  {
    if |l| >= 2 {
      ConstantLengthsSumZero(l[..|l| - 1]);
    }
  }

  /** A spine whose length never changes has zero motility, once its span is positive. */
  lemma ConstantLengthsZeroMotility(s: seq<Sample>)
    requires |s| > 0 && s[|s| - 1].time != s[0].time
    requires forall k :: 0 <= k < |s| ==> s[k].lengthMicrons == s[0].lengthMicrons
    ensures SpineMotility(s) == Some(0.0)
  {
    var l := Lengths(s);
    assert forall k :: 0 <= k < |l| ==> l[k] == l[0];
    ConstantLengthsSumZero(l);
    assert SumAbsDiffs(l) == 0.0;
    var t := s[|s| - 1].time - s[0].time;
    assert t != 0.0;
    assert (1.0 / t) * SumAbsDiffs(l) == 0.0;
    assert SpineMotility(s) == Some((1.0 / t) * SumAbsDiffs(l));
  }

  /** The summed steps are at least the net change between the first and the last length. */
  lemma {:induction false} SumAtLeastNetChange(l: seq<real>)
    requires |l| > 0
    ensures SumAbsDiffs(l) >= Abs(l[|l| - 1] - l[0])
  {
    if |l| >= 2 {
      var p := l[..|l| - 1];
      SumAtLeastNetChange(p);
      assert p[|p| - 1] == l[|l| - 2] && p[0] == l[0];
    }
  }

  /** motility * T >= |l_last - l_first|: the net change bounds the motility from below. */
  lemma MotilityBoundsNetChange(s: seq<Sample>)
    requires |s| > 0
    ensures SpineMotility(s).Some? ==>
      SpineMotility(s).value * Span(s) >= Abs(s[|s| - 1].lengthMicrons - s[0].lengthMicrons)
  {
    var l := Lengths(s);
    var total := SumAbsDiffs(l);
    SumAtLeastNetChange(l);
    assert l[|l| - 1] == s[|s| - 1].lengthMicrons && l[0] == s[0].lengthMicrons;
  }

  lemma InverseTimes(t: real, x: real)
    requires t != 0.0
    ensures (1.0 / t) * x * t == x
  {
  }

  /** The sum loop of calculate_motility. */
  method SumOfSteps(lengths: seq<real>) returns (sum: real)
    requires |lengths| > 0
    ensures sum == SumAbsDiffs(lengths)
  {
    sum := 0.0;
    var i := 0;
    while i < |lengths| - 1
      invariant 0 <= i <= |lengths| - 1
      invariant sum == SumAbsDiffs(lengths[..i + 1])
    {
      assert lengths[..i + 2][..i + 1] == lengths[..i + 1];
      sum := sum + Abs(lengths[i + 1] - lengths[i]);
      i := i + 1;
    }
    assert lengths[..|lengths|] == lengths;
  }

  /** Rate written out, for use where the surrounding proof context is large. */
  lemma RateUnfold(span: real, total: real)
    ensures Rate(span, total) == if span == 0.0 then None else Some((1.0 / span) * total)
  {
  }

  /**
   * The body of the per-spine loop of calculate_motility: select the spine's
   * rows, sort them by time, sum the length steps and divide by the span.
   */
  method MotilityOfSpine(rows: seq<Sample>, name: string) returns (r: MotilityResult)
    ensures r == MotilityOfName(rows, name)
  {
    var spineData := SortByTime(SamplesOf(rows, name));
    var m: Option<real> := None;
    if |spineData| > 0 {
      var lengths := Lengths(spineData);
      var t := spineData[|spineData| - 1].time - spineData[0].time;
      var sum := SumOfSteps(lengths);
      m := if t == 0.0 then None else Some((1.0 / t) * sum);
      RateUnfold(t, sum);
    }
    r := MotilityResult(name, m);
  }

  /** calculate_motility on a table already read into memory. */
  method CalculateMotility(rows: seq<Sample>) returns (results: seq<MotilityResult>)
    ensures results == Motility(rows)
  {
    var spines := Distinct(Names(rows));
    results := [];
    for k := 0 to |spines|
      invariant |results| == k
      invariant forall j :: 0 <= j < k ==> results[j] == MotilityOfName(rows, spines[j])
    {
      var r := MotilityOfSpine(rows, spines[k]);
      results := results + [r];
    }
    var expected := Motility(rows);
    forall j | 0 <= j < |results| ensures results[j] == expected[j] { }
  }
}
