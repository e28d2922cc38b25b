/** `calculateSgpa`: the credit-weighted mean of grade points, rounded to
    two decimals. Arithmetic is exact (`real`); rounding is `Math.round`,
    which rounds halves toward positive infinity. */
module Sgpa {
  import opened Records
  import opened Grading

  /** Grade point times credits for one subject. */
  function WeightedPoints(s: Subject): real
  {
    GradeOf(s.marks).gp as real * s.credits
  }

  /** Sum of `WeightedPoints`, accumulated in subject order. */
  function TotalPoints(ss: seq<Subject>): real
  {
    if |ss| == 0 then 0.0 else TotalPoints(ss[..|ss| - 1]) + WeightedPoints(ss[|ss| - 1])
  }

  /** Plain sum of credits, accumulated in subject order. */
  function TotalCredits(ss: seq<Subject>): real
  {
    if |ss| == 0 then 0.0 else TotalCredits(ss[..|ss| - 1]) + ss[|ss| - 1].credits
  }

  /** A whole number of hundredths. */
  predicate IsCents(x: real)
  {
    (x * 100.0).Floor as real == x * 100.0
  }

  /** `Math.round(x * 100) / 100`: the nearest hundredth, halves rounded up. */
  function RoundCents(x: real): (r: real)
    ensures IsCents(r)
    ensures x - 0.005 < r <= x + 0.005
  {
    var n := (x * 100.0 + 0.5).Floor;
    assert (n as real / 100.0) * 100.0 == n as real;
    n as real / 100.0
  }

  /** The unrounded weighted mean the source rounds: 0 unless credits sum above 0. */
  function Mean(ss: seq<Subject>): real
  {
    if TotalCredits(ss) > 0.0 then TotalPoints(ss) / TotalCredits(ss) else 0.0
  }

  /** SGPA: 0 when the credits do not sum to a positive number, otherwise the
      weighted mean to the nearest hundredth. */
  function SgpaOf(ss: seq<Subject>): (r: real)
    ensures TotalCredits(ss) <= 0.0 ==> r == 0.0
    ensures IsCents(r)
    ensures Mean(ss) - 0.005 < r <= Mean(ss) + 0.005
  {
    RoundCents(Mean(ss))
  }

  /** The loop of `calculateSgpa`: accumulate points and credits, then divide
      and round. */
  method CalculateSgpa(ss: seq<Subject>) returns (sgpa: real)
    ensures TotalCredits(ss) <= 0.0 ==> sgpa == 0.0
    ensures IsCents(sgpa)
    ensures sgpa == SgpaOf(ss)
  {
    var totalPoints := 0.0;
    var totalCredits := 0.0;
    for i := 0 to |ss|
      invariant totalPoints == TotalPoints(ss[..i])
      invariant totalCredits == TotalCredits(ss[..i])
    {
      assert ss[..i + 1][..i] == ss[..i];
      var gp := GradeOf(ss[i].marks).gp;
      totalPoints := totalPoints + gp as real * ss[i].credits;
      totalCredits := totalCredits + ss[i].credits;
    }
    assert ss[..|ss|] == ss;
    var mean := if totalCredits > 0.0 then totalPoints / totalCredits else 0.0;
    sgpa := RoundCents(mean);
  }

  /** Rounding to hundredths has exactly one answer: any whole number of
      hundredths within half a hundredth (halves going up) is `RoundCents`. */
  lemma RoundCentsUnique(x: real, r: real)
    requires IsCents(r)
    requires x - 0.005 < r <= x + 0.005
    ensures r == RoundCents(x)
  {
    var n := (r * 100.0).Floor;
    var m := (x * 100.0 + 0.5).Floor;
    assert n as real == r * 100.0;
    assert n as real <= x * 100.0 + 0.5;
    assert n <= m;
    assert x * 100.0 - 0.5 < n as real;
    assert m as real - 1.0 <= x * 100.0 - 0.5;
    assert m <= n;
    assert RoundCents(x) == m as real / 100.0;
  }

  /** Rounding to hundredths never leaves an interval whose ends are whole numbers. */
  lemma RoundCentsWithin(x: real, lo: int, hi: int)
    requires lo as real <= x <= hi as real
    ensures lo as real <= RoundCents(x) <= hi as real
  {
    var m := (x * 100.0 + 0.5).Floor;
    assert m as real <= x * 100.0 + 0.5 <= (100 * hi) as real + 0.5;
    assert m <= 100 * hi;
    assert (100 * lo) as real <= x * 100.0 + 0.5 < m as real + 1.0;
    assert 100 * lo <= m;
  }

  /** lo x <= y <= hi x. */
  predicate Between(lo: real, hi: real, x: real, y: real)
  {
    lo * x <= y <= hi * x
  }

  /** Bounds of the form lo x <= y <= hi x add up. */
  lemma SumBetween(lo: real, hi: real, x1: real, x2: real, y1: real, y2: real)
    requires Between(lo, hi, x1, y1) && Between(lo, hi, x2, y2)
    ensures Between(lo, hi, x1 + x2, y1 + y2)
  {
  }

  /** One subject's weighted points lie between lo and hi times its credits. */
  lemma WeightedBetween(s: Subject, lo: real, hi: real)
    requires s.credits >= 0.0
    requires lo <= GradeOf(s.marks).gp as real <= hi
    ensures Between(lo, hi, s.credits, WeightedPoints(s))
  {
    var g := GradeOf(s.marks).gp as real;
    assert lo * s.credits <= g * s.credits <= hi * s.credits;
  }

  /** Dividing lo c <= p <= hi c by a positive c. */
  lemma DivideBetween(lo: real, hi: real, c: real, p: real)
    requires c > 0.0
    requires Between(lo, hi, c, p)
    ensures lo <= p / c <= hi
  {
    assert p / c * c == p;
  }

  /** With non-negative credits, grade points in [lo, hi] keep the weighted
      total between lo and hi times the credit total. */
  lemma {:induction false} PointsBetween(ss: seq<Subject>, lo: nat, hi: nat)
    requires forall i :: 0 <= i < |ss| ==> ss[i].credits >= 0.0
    requires forall i :: 0 <= i < |ss| ==> lo <= GradeOf(ss[i].marks).gp <= hi
    ensures Between(lo as real, hi as real, TotalCredits(ss), TotalPoints(ss))
    ensures TotalCredits(ss) >= 0.0
  {
    if |ss| > 0 {
      var init := ss[..|ss| - 1];
      var last := ss[|ss| - 1];
      assert forall i :: 0 <= i < |init| ==> init[i] == ss[i];
      PointsBetween(init, lo, hi);
      WeightedBetween(last, lo as real, hi as real);
      SumBetween(lo as real, hi as real, TotalCredits(init), last.credits,
        TotalPoints(init), WeightedPoints(last));
    } else {
      assert Between(lo as real, hi as real, 0.0, 0.0);
    }
  }

  /** With non-negative credits that sum above zero and every grade point in
      [lo, hi], the SGPA lies in [lo, hi]. */
  lemma SgpaBetween(ss: seq<Subject>, lo: nat, hi: nat)
    requires forall i :: 0 <= i < |ss| ==> ss[i].credits >= 0.0
    requires TotalCredits(ss) > 0.0
    requires forall i :: 0 <= i < |ss| ==> lo <= GradeOf(ss[i].marks).gp <= hi
    ensures lo as real <= SgpaOf(ss) <= hi as real
  {
    PointsBetween(ss, lo, hi);
    DivideBetween(lo as real, hi as real, TotalCredits(ss), TotalPoints(ss));
    assert Mean(ss) == TotalPoints(ss) / TotalCredits(ss);
    RoundCentsWithin(Mean(ss), lo, hi);
    assert SgpaOf(ss) == RoundCents(Mean(ss));
  }

  /** The SGPA of non-negative credits summing above zero is in [0, 10]. */
  lemma SgpaInRange(ss: seq<Subject>)
    requires forall i :: 0 <= i < |ss| ==> ss[i].credits >= 0.0
    requires TotalCredits(ss) > 0.0
    ensures 0.0 <= SgpaOf(ss) <= 10.0
  {
    SgpaBetween(ss, 0, 10);
  }

  /** Marks 95 and 85 on 4 and 3 credits: points 10 and 9, SGPA 67/7 = 9.5714...,
      reported as 9.57. */
  lemma WorkedExample()
    ensures SgpaOf([Subject("X", 95, 4.0), Subject("Y", 85, 3.0)]) == 9.57
  {
    var ss := [Subject("X", 95, 4.0), Subject("Y", 85, 3.0)];
    assert ss[..1] == [ss[0]];
    assert TotalPoints(ss) == 67.0;
    assert TotalCredits(ss) == 7.0;
    RoundCentsUnique(67.0 / 7.0, 9.57);
  }
}
