/**
 * Grading: the grade-point table, the GPA of a grade ledger in integer
 * hundredths, and the academic standing that the GPA decides.
 *
 * A ledger maps a course identifier to its grade, `None` while the course is
 * not yet graded. Grades are free text set by a registrar; only the letters of
 * the grade-point table take part in the GPA.
 */
module Grading {
  import opened Common

  /** Course identifier to grade, `None` when not yet graded. */
  type Ledger = map<string, Option<string>>

  /** Points of each letter grade on the 4-point scale. */
  const GradePoints: map<string, nat> := map["A" := 4, "B" := 3, "C" := 2, "D" := 1, "F" := 0]

  /** Every graded course weighs the same fixed number of credits, whatever the course declares. */
  const CreditWeight: nat := 3

  /** The largest GPA, 4.00, in hundredths. */
  const MaxGpa: nat := 400

  /**
   * A grade counts towards the GPA when it is present, non-empty and one of the
   * letters; the non-empty test is subsumed by the table lookup.
   */
  predicate Counted(grade: Option<string>): (c: bool)
    ensures c <==> grade.Some? && grade.value in GradePoints
  {
    grade.Some? && grade.value != "" && grade.value in GradePoints
  }

  /** The grade points a grade contributes: its table value when counted, else nothing. */
  function PointsOf(grade: Option<string>): (p: nat)
    ensures p <= 4
    ensures !Counted(grade) ==> p == 0
    ensures Counted(grade) ==> p == GradePoints[grade.value]
  {
    if Counted(grade) then GradePoints[grade.value] else 0
  }

  /** One for a counted grade, zero otherwise. */
  function CountOf(grade: Option<string>): (c: nat)
    ensures c <= 1
    ensures c == 1 <==> Counted(grade)
  {
    if Counted(grade) then 1 else 0
  }

  /** The sum of `w` over the grades filed under `keys`, in no particular order. */
  ghost function SumOver(ledger: Ledger, keys: set<string>, w: Option<string> -> nat): nat
    requires keys <= ledger.Keys
    decreases keys
  {
    if keys == {} then 0
    else
      var k :| k in keys;
      w(ledger[k]) + SumOver(ledger, keys - {k}, w)
  }

  /** Any key may be taken out first: the sum does not depend on the order of the entries. */
  lemma {:induction false} SumOverRemove(ledger: Ledger, keys: set<string>, w: Option<string> -> nat, k: string)
    requires keys <= ledger.Keys && k in keys
    ensures SumOver(ledger, keys, w) == w(ledger[k]) + SumOver(ledger, keys - {k}, w)
    decreases keys
  {
    var j :| j in keys && SumOver(ledger, keys, w) == w(ledger[j]) + SumOver(ledger, keys - {j}, w);
    if j != k {
      SumOverRemove(ledger, keys - {j}, w, k);
      SumOverRemove(ledger, keys - {k}, w, j);
      assert keys - {j} - {k} == keys - {k} - {j};
    }
  }

  /** Sum of the grade points of the counted grades. */
  ghost function GradePointSum(ledger: Ledger): nat {
    SumOver(ledger, ledger.Keys, PointsOf)
  }

  /** Number of counted grades. */
  ghost function GradedCount(ledger: Ledger): nat {
    SumOver(ledger, ledger.Keys, CountOf)
  }

  /** The grade points of a set of entries are at most four per counted grade. */
  lemma {:induction false} PointsAtMostFourEach(ledger: Ledger, keys: set<string>)
    requires keys <= ledger.Keys
    ensures SumOver(ledger, keys, PointsOf) <= 4 * SumOver(ledger, keys, CountOf)
    decreases keys
  {
    if keys != {} {
      var k :| k in keys;
      SumOverRemove(ledger, keys, PointsOf, k);
      SumOverRemove(ledger, keys, CountOf, k);
      PointsAtMostFourEach(ledger, keys - {k});
    }
  }

  /** The distance between two integers. */
  function Dist(a: int, b: int): nat {
    if a < b then b - a else a - b
  }

  /**
   * `x / d` rounded to the nearest integer, ties to the even neighbour: the
   * result is within half of `d` of `x` once scaled by `d`, and on an exact
   * tie it is even.
   */
  function RoundHalfEven(x: nat, d: nat): (r: nat)
    requires d > 0
    ensures 2 * Dist(r * d, x) <= d
    ensures 2 * Dist(r * d, x) == d ==> r % 2 == 0
  {
    var q, m := x / d, x % d;
    DivMod(x, d);
    MulAdd(q, 1, d);
    if 2 * m < d || (2 * m == d && q % 2 == 0) then q else q + 1
  }

  /** Euclidean division of a natural by a positive divisor. */
  lemma DivMod(x: nat, d: nat)
    requires d > 0
    ensures x == (x / d) * d + x % d && 0 <= x % d < d
  {
  }

  /** `d` times the distance of `a` and `b` is the distance of `d * a` and `d * b`. */
  lemma DistScale(a: int, b: int, c: nat)
    ensures Dist(c * a, c * b) == c * Dist(a, b)
  {
  }

  /** Multiplication distributes over a sum of two naturals. */
  lemma MulAdd(r: nat, k: nat, d: nat)
    ensures (r + k) * d == r * d + k * d
  {
  }

  /** A positive multiple of `d` is at least `d`, and exactly `d` only once. */
  lemma MulAtLeast(k: nat, d: nat)
    requires k >= 1 && d > 0
    ensures k * d >= d
    ensures k * d == d ==> k == 1
  {
  }

  /** The nearest-with-ties-to-even condition has only one solution. */
  lemma RoundHalfEvenUnique(x: nat, d: nat, r: nat)
    requires d > 0
    requires 2 * Dist(r * d, x) <= d
    requires 2 * Dist(r * d, x) == d ==> r % 2 == 0
    ensures r == RoundHalfEven(x, d)
  {
    var s := RoundHalfEven(x, d);
    if r < s {
      MulAdd(r, s - r, d);
      MulAtLeast(s - r, d);
      assert false;
    } else if r > s {
      MulAdd(s, r - s, d);
      MulAtLeast(r - s, d);
      assert false;
    }
  }

  /** A factor may be moved across a product: `a * (b * c) == b * (a * c)`. */
  lemma MulRegroup(a: int, b: int, c: int)
    ensures a * (b * c) == b * (a * c)
  {
  }

  /** Multiplying both sides of an inequality by a positive factor keeps it, and keeps equality only for equals. */
  lemma MulMonotone(a: nat, b: nat, c: nat)
    requires a <= b && c > 0
    ensures c * a <= c * b
    ensures c * a == c * b ==> a == b
  {
  }

  /** Scaling numerator and denominator by the same factor does not change the rounding. */
  lemma RoundHalfEvenScale(x: nat, d: nat, c: nat)
    requires d > 0 && c > 0
    ensures RoundHalfEven(c * x, c * d) == RoundHalfEven(x, d)
  {
    var r := RoundHalfEven(x, d);
    var rd, cd, cx := r * d, c * d, c * x;
    var e := Dist(rd, x);
    MulRegroup(r, c, d);
    DistScale(rd, x, c);
    assert Dist(r * cd, cx) == c * e;
    MulMonotone(2 * e, d, c);
    MulRegroup(2, c, e);
    RoundHalfEvenUnique(cx, cd, r);
  }

  /** Rounding a quotient that is at most `bound` gives at most `bound`. */
  lemma RoundHalfEvenAtMost(x: nat, d: nat, bound: nat)
    requires d > 0 && x <= bound * d
    ensures RoundHalfEven(x, d) <= bound
  {
    var r := RoundHalfEven(x, d);
    if r > bound {
      MulAdd(bound, r - bound, d);
      MulAtLeast(r - bound, d);
      assert false;
    }
  }

  /**
   * The GPA of a ledger, in hundredths: the mean grade point of the counted
   * grades rounded to two decimals, or 0 when no grade counts.
   */
  ghost function GpaOf(ledger: Ledger): (gpa: nat)
    ensures GradedCount(ledger) == 0 ==> gpa == 0
    ensures gpa <= MaxGpa
  {
    var n := GradedCount(ledger);
    if n == 0 then 0
    else
      PointsAtMostFourEach(ledger, ledger.Keys);
      RoundHalfEvenAtMost(100 * GradePointSum(ledger), n, MaxGpa);
      RoundHalfEven(100 * GradePointSum(ledger), n)
  }

  /**
   * The GPA is the mean grade point in hundredths, to the nearest hundredth
   * (ties to even); with no counted grade it is 0.
   */
  lemma GpaIsRoundedMean(ledger: Ledger)
    ensures GradedCount(ledger) == 0 ==> GpaOf(ledger) == 0
    ensures GradedCount(ledger) > 0 ==>
      2 * Dist(GpaOf(ledger) * GradedCount(ledger), 100 * GradePointSum(ledger)) <= GradedCount(ledger)
  {
  }

  /** Grades outside the table, and missing grades, never change the GPA. */
  lemma UncountedGradeIgnored(ledger: Ledger, k: string, grade: Option<string>)
    requires k !in ledger && !Counted(grade)
    ensures GpaOf(ledger[k := grade]) == GpaOf(ledger)
  {
    var l := ledger[k := grade];
    assert l.Keys - {k} == ledger.Keys;
    SumOverSameEntries(l, ledger, ledger.Keys, PointsOf);
    SumOverSameEntries(l, ledger, ledger.Keys, CountOf);
    SumOverRemove(l, l.Keys, PointsOf, k);
    SumOverRemove(l, l.Keys, CountOf, k);
  }

  /** Sums over keys on which two ledgers agree are equal. */
  lemma {:induction false} SumOverSameEntries(a: Ledger, b: Ledger, keys: set<string>, w: Option<string> -> nat)
    requires keys <= a.Keys && keys <= b.Keys
    requires forall k :: k in keys ==> a[k] == b[k]
    ensures SumOver(a, keys, w) == SumOver(b, keys, w)
    decreases keys
  {
    if keys != {} {
      var k :| k in keys;
      SumOverRemove(a, keys, w, k);
      SumOverRemove(b, keys, w, k);
      SumOverSameEntries(a, b, keys - {k}, w);
    }
  }

  /** The GPA of {CS101: A, CS201: B, CS301: C} is 3.00. */
  lemma GpaExampleMixed()
    ensures GpaOf(map["CS101" := Some("A"), "CS201" := Some("B"), "CS301" := Some("C")]) == 300
  {
    var l := map["CS101" := Some("A"), "CS201" := Some("B"), "CS301" := Some("C")];
    Sum3(l, "CS101", "CS201", "CS301");
    assert GradePointSum(l) == 9 && GradedCount(l) == 3;
  }

  /** The GPA of {CS101: A, CS201: A, MATH101: B} is 3.67: 11/3 rounds to 3.67. */
  lemma GpaExampleRounded()
    ensures GpaOf(map["CS101" := Some("A"), "CS201" := Some("A"), "MATH101" := Some("B")]) == 367
  {
    var l := map["CS101" := Some("A"), "CS201" := Some("A"), "MATH101" := Some("B")];
    Sum3(l, "CS101", "CS201", "MATH101");
    assert GradePointSum(l) == 11 && GradedCount(l) == 3;
  }

  /** The GPA of {CS101: D, CS201: F} is 0.50: an F counts with zero points. */
  lemma GpaExampleFailing()
    ensures GpaOf(map["CS101" := Some("D"), "CS201" := Some("F")]) == 50
  {
    var l := map["CS101" := Some("D"), "CS201" := Some("F")];
    Sum2(l, "CS101", "CS201");
    assert GradePointSum(l) == 1 && GradedCount(l) == 2;
  }

  /** A ledger with only an ungraded course, and an empty ledger, have GPA 0.00. */
  lemma GpaExampleUngraded()
    ensures GpaOf(map["CS101" := None]) == 0
    ensures GpaOf(map[]) == 0
  {
    Sum1(map["CS101" := None], "CS101");
  }

  /** The sums over a one-entry ledger. */
  lemma Sum1(ledger: Ledger, a: string)
    requires ledger.Keys == {a}
    ensures GradePointSum(ledger) == PointsOf(ledger[a])
    ensures GradedCount(ledger) == CountOf(ledger[a])
  {
    SumOverRemove(ledger, ledger.Keys, PointsOf, a);
    SumOverRemove(ledger, ledger.Keys, CountOf, a);
    assert ledger.Keys - {a} == {};
  }

  /** The sums over a two-entry ledger. */
  lemma Sum2(ledger: Ledger, a: string, b: string)
    requires ledger.Keys == {a, b} && a != b
    ensures GradePointSum(ledger) == PointsOf(ledger[a]) + PointsOf(ledger[b])
    ensures GradedCount(ledger) == CountOf(ledger[a]) + CountOf(ledger[b])
  {
    SumOverRemove(ledger, ledger.Keys, PointsOf, a);
    SumOverRemove(ledger, ledger.Keys, CountOf, a);
    assert ledger.Keys - {a} == {b};
    SumOverRemove(ledger, {b}, PointsOf, b);
    SumOverRemove(ledger, {b}, CountOf, b);
    assert {b} - {b} == {};
  }

  /** The sums over a three-entry ledger. */
  lemma Sum3(ledger: Ledger, a: string, b: string, c: string)
    requires ledger.Keys == {a, b, c} && a != b && b != c && a != c
    ensures GradePointSum(ledger) == PointsOf(ledger[a]) + PointsOf(ledger[b]) + PointsOf(ledger[c])
    ensures GradedCount(ledger) == CountOf(ledger[a]) + CountOf(ledger[b]) + CountOf(ledger[c])
  {
    SumOverRemove(ledger, ledger.Keys, PointsOf, a);
    SumOverRemove(ledger, ledger.Keys, CountOf, a);
    assert ledger.Keys - {a} == {b, c};
    SumOverRemove(ledger, {b, c}, PointsOf, b);
    SumOverRemove(ledger, {b, c}, CountOf, b);
    assert {b, c} - {b} == {c};
    SumOverRemove(ledger, {c}, PointsOf, c);
    SumOverRemove(ledger, {c}, CountOf, c);
    assert {c} - {c} == {};
  }

  // ---------------------------------------------------------------------------
  // Academic standing

  /** The academic standing classes. */
  datatype Standing = DeansList | GoodStanding | Probation
  {
    /** The label the standing is reported under. */
    function Label(): (text: string)
      ensures text == "Dean's List" <==> this == DeansList
      ensures text == "Good Standing" <==> this == GoodStanding
      ensures text == "Probation" <==> this == Probation
    {
      match this
      case DeansList => "Dean's List"
      case GoodStanding => "Good Standing"
      case Probation => "Probation"
    }

    /** Rank of the standing, higher is better. */
    function Rank(): nat {
      match this
      case DeansList => 2
      case GoodStanding => 1
      case Probation => 0
    }
  }

  /** Dean's List from 3.50, Good Standing from 2.00, Probation below; the GPA is in hundredths. */
  function StandingOf(gpa: nat): (s: Standing)
    ensures s == DeansList <==> gpa >= 350
    ensures s == GoodStanding <==> 200 <= gpa < 350
    ensures s == Probation <==> gpa < 200
    ensures s.Label() == "Dean's List" <==> gpa >= 350
    ensures s.Label() == "Good Standing" <==> 200 <= gpa < 350
    ensures s.Label() == "Probation" <==> gpa < 200
  {
    if gpa >= 350 then DeansList
    else if gpa >= 200 then GoodStanding
    else Probation
  }

  /** A higher GPA never gives a worse standing. */
  lemma StandingMonotone(g1: nat, g2: nat)
    requires g1 <= g2
    ensures StandingOf(g1).Rank() <= StandingOf(g2).Rank()
  {
  }

  /** A single A gives Dean's List, a single C Good Standing, a single F Probation. */
  lemma StandingExamples()
    ensures StandingOf(GpaOf(map["CS101" := Some("A")])) == DeansList
    ensures StandingOf(GpaOf(map["CS101" := Some("C")])) == GoodStanding
    ensures StandingOf(GpaOf(map["CS101" := Some("F")])) == Probation
    ensures StandingOf(350) == DeansList && StandingOf(200) == GoodStanding
    ensures StandingOf(199) == Probation && StandingOf(0) == Probation
  {
    Sum1(map["CS101" := Some("A")], "CS101");
    Sum1(map["CS101" := Some("C")], "CS101");
    Sum1(map["CS101" := Some("F")], "CS101");
  }
}
