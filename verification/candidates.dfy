/** Enumeration of the candidate flights: every pair of distinct profile altitudes whose climb
    leaves cruise time, each with nine ways of splitting that cruise time between the two
    altitudes. */
module Candidates {
  import opened Ordering
  import opened Geometry

  /** The distinct values of xs in ascending order (numpy's `unique` followed by `sort`). */
  function DistinctSorted(xs: seq<real>): (r: seq<real>)
    ensures Increasing(r)
    ensures forall y :: y in r <==> y in xs
  {
    if |xs| == 0 then [] else InsertDistinct(xs[0], DistinctSorted(xs[1..]))
  }

  /** Adds x to an increasing sequence unless it is already there. */
  function InsertDistinct(x: real, sorted: seq<real>): (r: seq<real>)
    requires Increasing(sorted)
    ensures Increasing(r)
    ensures forall y :: y in r <==> y == x || y in sorted
  {
    if |sorted| == 0 || x < sorted[0] then
      IncreasingCons(x, sorted);
      [x] + sorted
    else if x == sorted[0] then sorted
    else
      var rest := InsertDistinct(x, sorted[1..]);
      assert sorted == [sorted[0]] + sorted[1..];
      assert |rest| > 0 ==> rest[0] in rest;
      IncreasingCons(sorted[0], rest);
      [sorted[0]] + rest
  }

  /** Two non-empty increasing sequences with the same elements start with the same one. */
  lemma IncreasingSameHead(a: seq<real>, b: seq<real>)
    requires Increasing(a) && Increasing(b) && |a| > 0 && |b| > 0
    requires forall y :: y in a <==> y in b
    ensures a[0] == b[0]
  {
    assert a[0] in a && b[0] in b;
    var j :| 0 <= j < |b| && b[j] == a[0];
    var i :| 0 <= i < |a| && a[i] == b[0];
    IncreasingHeadLeast(a, i);
    IncreasingHeadLeast(b, j);
  }

  /** Removing a shared least element keeps the element sets equal. */
  lemma IncreasingSameTail(a: seq<real>, b: seq<real>)
    requires Increasing(a) && Increasing(b) && |a| > 0 && |b| > 0 && a[0] == b[0]
    requires forall y :: y in a <==> y in b
    ensures Increasing(a[1..]) && Increasing(b[1..])
    ensures forall y :: y in a[1..] <==> y in b[1..]
  {
    forall y ensures y in a[1..] <==> y in b[1..] {
      if y in a[1..] {
        var i :| 0 <= i < |a[1..]| && a[1..][i] == y;
        assert a[0] < a[i + 1];
        assert y in b && y != b[0];
      }
      if y in b[1..] {
        var i :| 0 <= i < |b[1..]| && b[1..][i] == y;
        assert b[0] < b[i + 1];
        assert y in a && y != a[0];
      }
    }
  }

  /** An increasing sequence is determined by its set of elements. */
  lemma {:induction false} IncreasingUnique(a: seq<real>, b: seq<real>)
    requires Increasing(a) && Increasing(b)
    requires forall y :: y in a <==> y in b
    ensures a == b
    decreases |a|
  {
    if |a| > 0 {
      assert a[0] in a;
    }
    if |b| > 0 {
      assert b[0] in b;
    }
    if |a| > 0 && |b| > 0 {
      IncreasingSameHead(a, b);
      IncreasingSameTail(a, b);
      IncreasingUnique(a[1..], b[1..]);
      assert a == [a[0]] + a[1..] && b == [b[0]] + b[1..];
    }
  }

  /** `DistinctSorted` is the only ascending, repetition-free arrangement of the values. */
  lemma DistinctSortedIsUnique(xs: seq<real>, ys: seq<real>)
    requires Increasing(ys)
    requires forall y :: y in ys <==> y in xs
    ensures ys == DistinctSorted(xs)
  {
    IncreasingUnique(ys, DistinctSorted(xs));
  }

  /** An altitude pair (h1, h2) in feet: the flight first drifts at h1, then at h2. */
  datatype AltitudePair = AltitudePair(h1: real, h2: real)

  /** Lexicographic order on pairs, the order in which `itertools.combinations` yields them. */
  predicate PairBefore(p: AltitudePair, q: AltitudePair) {
    p.h1 < q.h1 || (p.h1 == q.h1 && p.h2 < q.h2)
  }

  /** The pairs (h, x) for every x in rest, in order. */
  function PairsWith(h: real, rest: seq<real>): (r: seq<AltitudePair>)
    ensures |r| == |rest|
    ensures forall j :: 0 <= j < |rest| ==> r[j] == AltitudePair(h, rest[j])
  {
    seq(|rest|, j requires 0 <= j < |rest| => AltitudePair(h, rest[j]))
  }

  /** All two-element combinations (alts[i], alts[j]) with i < j, in the order of
      `itertools.combinations(alts, 2)`. */
  function Combinations(alts: seq<real>): (r: seq<AltitudePair>)
    ensures forall p :: p in r ==> p.h1 in alts && p.h2 in alts
  {
    if |alts| == 0 then []
    else
      var head := PairsWith(alts[0], alts[1..]);
      var rest := Combinations(alts[1..]);
      CombinationsMembers(alts, head, rest);
      head + rest
  }

  /** n altitudes give n(n-1)/2 pairs. */
  lemma {:induction false} CombinationsCount(alts: seq<real>)
    ensures 2 * |Combinations(alts)| == |alts| * (|alts| - 1)
  {
    if |alts| > 0 {
      CombinationsCount(alts[1..]);
      assert Combinations(alts) == PairsWith(alts[0], alts[1..]) + Combinations(alts[1..]);
      PairCount(|alts|);
    }
  }

  /** n(n-1) = 2(n-1) + (n-1)(n-2): the pairs with the first of n values, plus those of the rest. */
  lemma PairCount(n: nat)
    requires n > 0
    ensures n * (n - 1) == 2 * (n - 1) + (n - 1) * (n - 2)
  {
  }

  /** The pairs with the first value and the pairs of the remaining values draw both altitudes
      from the list. */
  lemma CombinationsMembers(alts: seq<real>, head: seq<AltitudePair>, rest: seq<AltitudePair>)
    requires |alts| > 0
    requires head == PairsWith(alts[0], alts[1..])
    requires forall p :: p in rest ==> p.h1 in alts[1..] && p.h2 in alts[1..]
    ensures forall p :: p in head + rest ==> p.h1 in alts && p.h2 in alts
  {
    forall p | p in head + rest ensures p.h1 in alts && p.h2 in alts {
      if p in head {
        var j :| 0 <= j < |head| && head[j] == p;
        assert p.h2 == alts[j + 1];
      } else {
        assert p in rest;
        var i :| 0 <= i < |alts| - 1 && alts[1..][i] == p.h1;
        var j :| 0 <= j < |alts| - 1 && alts[1..][j] == p.h2;
        assert alts[i + 1] == p.h1 && alts[j + 1] == p.h2;
      }
    }
  }

  /** Over ascending altitudes every enumerated pair climbs: h1 < h2. */
  lemma {:induction false} CombinationsClimb(alts: seq<real>)
    requires Increasing(alts)
    ensures forall p :: p in Combinations(alts) ==> p.h1 < p.h2
  {
    if |alts| > 0 {
      var head := PairsWith(alts[0], alts[1..]);
      var rest := Combinations(alts[1..]);
      assert Combinations(alts) == head + rest;
      CombinationsClimb(alts[1..]);
      forall p | p in head ensures p.h1 < p.h2 {
        var j :| 0 <= j < |head| && head[j] == p;
        assert p.h2 == alts[j + 1];
      }
    }
  }

  lemma FirstAltitudeBelowRest(alts: seq<real>)
    requires Increasing(alts) && |alts| > 0
    ensures forall p :: p in Combinations(alts[1..]) ==> alts[0] < p.h1
  {
    forall p | p in Combinations(alts[1..]) ensures alts[0] < p.h1 {
      var i :| 0 <= i < |alts[1..]| && alts[1..][i] == p.h1;
      assert alts[i + 1] == p.h1;
    }
  }

  /** Over ascending altitudes the pairs come in strictly increasing lexicographic order, so
      none is repeated. */
  lemma {:induction false} CombinationsLexOrdered(alts: seq<real>)
    requires Increasing(alts)
    ensures forall i, j :: 0 <= i < j < |Combinations(alts)| ==> PairBefore(Combinations(alts)[i], Combinations(alts)[j])
  {
    if |alts| > 0 {
      var head := PairsWith(alts[0], alts[1..]);
      var rest := Combinations(alts[1..]);
      var r := Combinations(alts);
      assert r == head + rest;
      CombinationsLexOrdered(alts[1..]);
      FirstAltitudeBelowRest(alts);
      forall i, j | 0 <= i < j < |r| ensures PairBefore(r[i], r[j]) {
        if j < |head| {
          assert r[i] == AltitudePair(alts[0], alts[i + 1]);
          assert r[j] == AltitudePair(alts[0], alts[j + 1]);
        } else if i < |head| {
          assert r[i].h1 == alts[0];
          assert r[j] == rest[j - |head|];
        } else {
          assert r[i] == rest[i - |head|] && r[j] == rest[j - |head|];
        }
      }
    }
  }

  /** Every pair of positions i < j of the altitudes is enumerated. */
  lemma {:induction false} CombinationsComplete(alts: seq<real>, i: int, j: int)
    requires 0 <= i < j < |alts|
    ensures AltitudePair(alts[i], alts[j]) in Combinations(alts)
    decreases |alts|
  {
    var head := PairsWith(alts[0], alts[1..]);
    assert Combinations(alts) == head + Combinations(alts[1..]);
    if i == 0 {
      assert head[j - 1] == AltitudePair(alts[i], alts[j]);
    } else {
      CombinationsComplete(alts[1..], i - 1, j - 1);
    }
  }

  /** Over ascending distinct altitudes, the enumerated pairs are exactly the pairs h1 < h2 of
      profile altitudes, each once. */
  lemma CombinationsExactly(alts: seq<real>, p: AltitudePair)
    requires Increasing(alts)
    ensures p in Combinations(alts) <==> p.h1 in alts && p.h2 in alts && p.h1 < p.h2
    ensures forall i, j :: 0 <= i < j < |Combinations(alts)| ==> Combinations(alts)[i] != Combinations(alts)[j]
  {
    CombinationsClimb(alts);
    CombinationsLexOrdered(alts);
    if p.h1 in alts && p.h2 in alts && p.h1 < p.h2 {
      var i :| 0 <= i < |alts| && alts[i] == p.h1;
      var j :| 0 <= j < |alts| && alts[j] == p.h2;
      IncreasingIndexOrder(alts, i, j);
      CombinationsComplete(alts, i, j);
    }
  }

  const FeetToMetres: real := 0.3048

  /** Seconds needed to change altitude between the pair at a constant rate in m/s. */
  function ClimbTime(p: AltitudePair, climbRate: real): (t: real)
    requires climbRate > 0.0
    ensures t >= 0.0
    ensures t == 0.0 <==> p.h1 == p.h2
  {
    Abs(p.h2 - p.h1) * FeetToMetres / climbRate
  }

  /** What remains of the flight duration after the climb, for drifting. */
  function CruiseTime(p: AltitudePair, durationSec: real, climbRate: real): (t: real)
    requires climbRate > 0.0
    ensures t <= durationSec
    ensures t == durationSec <==> p.h1 == p.h2
  {
    durationSec - ClimbTime(p, climbRate)
  }

  /** A pair is flown only if the climb leaves strictly positive cruise time. */
  predicate Feasible(p: AltitudePair, durationSec: real, climbRate: real)
    requires climbRate > 0.0
  {
    CruiseTime(p, durationSec, climbRate) > 0.0
  }

  /** A pair is feasible exactly when the climb between its altitudes, in metres, is shorter
      than the height the climb rate covers in the whole flight. */
  lemma FeasibleIff(p: AltitudePair, durationSec: real, climbRate: real)
    requires climbRate > 0.0
    ensures Feasible(p, durationSec, climbRate) <==> Abs(p.h2 - p.h1) * FeetToMetres < durationSec * climbRate
  {
    var metres := Abs(p.h2 - p.h1) * FeetToMetres;
    assert ClimbTime(p, climbRate) * climbRate == metres;
    if metres < durationSec * climbRate {
      assert ClimbTime(p, climbRate) * climbRate < durationSec * climbRate;
    } else {
      assert ClimbTime(p, climbRate) * climbRate >= durationSec * climbRate;
    }
  }

  /** The feasible pairs, in enumeration order. */
  function FeasiblePairs(pairs: seq<AltitudePair>, durationSec: real, climbRate: real): (r: seq<AltitudePair>)
    requires climbRate > 0.0
    ensures |r| <= |pairs|
    ensures forall p :: p in r <==> p in pairs && Feasible(p, durationSec, climbRate)
  {
    if |pairs| == 0 then []
    else
      var rest := FeasiblePairs(pairs[1..], durationSec, climbRate);
      assert pairs == [pairs[0]] + pairs[1..];
      if Feasible(pairs[0], durationSec, climbRate) then [pairs[0]] + rest else rest
  }

  /** Filtering keeps the enumeration order: a pair appended to the input is appended to the
      result exactly when it is feasible, so each kept pair appears once, where it was. */
  lemma {:induction false} FeasiblePairsAppend(pairs: seq<AltitudePair>, p: AltitudePair, durationSec: real, climbRate: real)
    requires climbRate > 0.0
    ensures FeasiblePairs(pairs + [p], durationSec, climbRate)
         == FeasiblePairs(pairs, durationSec, climbRate) + (if Feasible(p, durationSec, climbRate) then [p] else [])
  {
    if |pairs| == 0 {
      assert pairs + [p] == [p];
      assert [p][1..] == [];
    } else {
      assert (pairs + [p])[0] == pairs[0];
      assert (pairs + [p])[1..] == pairs[1..] + [p];
      FeasiblePairsAppend(pairs[1..], p, durationSec, climbRate);
    }
  }

  /** The number of ways the cruise time is split, and the denominator of the split fractions. */
  const SplitCount: nat := 9
  const SplitDenominator: real := 10.0

  /** The k-th split fraction, k in 1..9: 0.1, 0.2, ..., 0.9 (numpy's `linspace(0.1, 0.9, 9)`). */
  function Fraction(k: nat): real {
    k as real / SplitDenominator
  }

  /** One candidate flight: drift at h1 for t1 seconds, climb, drift at h2 for t2 seconds. */
  datatype Candidate = Candidate(h1: real, h2: real, t1: real, t2: real, climb: real)

  /** The candidate that gives fraction k/10 of the cruise time to the first altitude. */
  function SplitCandidate(p: AltitudePair, durationSec: real, climbRate: real, k: nat): Candidate
    requires climbRate > 0.0
  {
    var cruise := CruiseTime(p, durationSec, climbRate);
    var frac := Fraction(k);
    Candidate(p.h1, p.h2, cruise * frac, cruise * (1.0 - frac), ClimbTime(p, climbRate))
  }

  /** Split k flies the pair's altitudes, gives k/10 of the cruise to the first leg and the
      rest to the second, fills the flight with the climb, and for a feasible pair and
      1 <= k <= 9 has two legs of positive length. */
  lemma SplitCandidateShape(p: AltitudePair, durationSec: real, climbRate: real, k: nat)
    requires climbRate > 0.0
    ensures var c := SplitCandidate(p, durationSec, climbRate, k);
            && c.h1 == p.h1 && c.h2 == p.h2
            && c.climb == ClimbTime(p, climbRate)
            && c.t1 == CruiseTime(p, durationSec, climbRate) * Fraction(k)
            && c.t2 == CruiseTime(p, durationSec, climbRate) * (1.0 - Fraction(k))
            && c.t1 + c.t2 == CruiseTime(p, durationSec, climbRate)
            && c.t1 + c.t2 + c.climb == durationSec
            && (Feasible(p, durationSec, climbRate) && 1 <= k <= SplitCount ==> c.t1 > 0.0 && c.t2 > 0.0)
  {
    var cruise := CruiseTime(p, durationSec, climbRate);
    var frac := Fraction(k);
    assert 1 <= k <= SplitCount ==> 0.0 < frac && 0.0 < 1.0 - frac;
    var rest := 1.0 - frac;
    assert cruise * frac + cruise * rest == cruise * (frac + rest);
    assert cruise > 0.0 && frac > 0.0 ==> cruise * frac > 0.0;
    assert cruise > 0.0 && rest > 0.0 ==> cruise * rest > 0.0;
  }

  /** Of the nine splits, the even one (k = 5) gives the largest product of the two leg
      times, and every other split a strictly smaller one. */
  lemma SplitProductBound(cruise: real, k: nat)
    requires cruise > 0.0 && 1 <= k <= SplitCount
    ensures var f := Fraction(k);
            var h := Fraction(5);
            (cruise * f) * (cruise * (1.0 - f)) <= (cruise * h) * (cruise * (1.0 - h))
    ensures var f := Fraction(k);
            var h := Fraction(5);
            k != 5 ==> (cruise * f) * (cruise * (1.0 - f)) < (cruise * h) * (cruise * (1.0 - h))
  {
    var f := Fraction(k);
    var cc := cruise * cruise;
    assert cruise > 0.0 && cruise > 0.0 ==> cruise * cruise > 0.0;
    assert Fraction(5) == 0.5;
    assert (cruise * 0.5) * (cruise * (1.0 - 0.5)) == cc * 0.25;
    assert (cruise * f) * (cruise * (1.0 - f)) == cc * (f * (1.0 - f));
    assert f * (1.0 - f) <= 0.25 && (k != 5 ==> f * (1.0 - f) < 0.25) by {
      if k == 1 { assert f == 0.1; } else if k == 2 { assert f == 0.2; }
      else if k == 3 { assert f == 0.3; } else if k == 4 { assert f == 0.4; }
      else if k == 5 { assert f == 0.5; } else if k == 6 { assert f == 0.6; }
      else if k == 7 { assert f == 0.7; } else if k == 8 { assert f == 0.8; }
      else { assert f == 0.9; }
    }
  }

  /** Splits k and 10 - k give the same product of leg times, in swapped order. */
  lemma SplitProductSymmetric(cruise: real, k: nat)
    requires k <= 10
    ensures var f := Fraction(k);
            var g := Fraction(10 - k);
            (cruise * f) * (cruise * (1.0 - f)) == (cruise * g) * (cruise * (1.0 - g))
  {
    var f := Fraction(k);
    var g := Fraction(10 - k);
    assert g == 1.0 - f && 1.0 - g == f;
  }

  /** The drift area of split k, for wind rates v1 and v2 at the two altitudes. */
  function SplitDriftArea(v1: Vec, v2: Vec, cruise: real, k: nat): real {
    DriftArea(v1, cruise * Fraction(k), v2, cruise * (1.0 - Fraction(k)))
  }

  lemma SplitCandidateDriftArea(v1: Vec, v2: Vec, p: AltitudePair, durationSec: real, climbRate: real, k: nat)
    requires climbRate > 0.0
    ensures var c := SplitCandidate(p, durationSec, climbRate, k);
            DriftArea(v1, c.t1, v2, c.t2) == SplitDriftArea(v1, v2, CruiseTime(p, durationSec, climbRate), k)
  {
    SplitCandidateShape(p, durationSec, climbRate, k);
  }

  lemma SplitDriftSymmetric(v1: Vec, v2: Vec, cruise: real, k: nat)
    requires k <= 10
    ensures SplitDriftArea(v1, v2, cruise, k) == SplitDriftArea(v1, v2, cruise, 10 - k)
  {
    var f := Fraction(k);
    var g := Fraction(10 - k);
    SplitProductSymmetric(cruise, k);
    DriftAreaCompare(v1, v2, cruise * f, cruise * (1.0 - f), cruise * g, cruise * (1.0 - g));
  }

  lemma SplitDriftBest(v1: Vec, v2: Vec, cruise: real, k: nat)
    requires cruise > 0.0 && 1 <= k <= SplitCount
    ensures SplitDriftArea(v1, v2, cruise, k) <= SplitDriftArea(v1, v2, cruise, 5)
    ensures k != 5 && Cross(v1, v2) != 0.0 ==> SplitDriftArea(v1, v2, cruise, k) < SplitDriftArea(v1, v2, cruise, 5)
  {
    var f := Fraction(k);
    var h := Fraction(5);
    SplitProductBound(cruise, k);
    DriftAreaCompare(v1, v2, cruise * f, cruise * (1.0 - f), cruise * h, cruise * (1.0 - h));
  }

  /** The nine candidates of one pair, fraction 0.1 first: position i flies the pair's two
      altitudes, gives (i + 1)/10 of the cruise time to the first leg, fills the flight with
      the climb and, for a feasible pair, has two legs of positive length. */
  function Splits(p: AltitudePair, durationSec: real, climbRate: real): (r: seq<Candidate>)
    requires climbRate > 0.0
    ensures |r| == SplitCount
    ensures forall i :: 0 <= i < |r| ==>
              && r[i].h1 == p.h1 && r[i].h2 == p.h2 && r[i].climb == ClimbTime(p, climbRate)
              && r[i].t1 == CruiseTime(p, durationSec, climbRate) * ((i + 1) as real / 10.0)
              && r[i].t1 + r[i].t2 + r[i].climb == durationSec
    ensures Feasible(p, durationSec, climbRate) ==> forall i :: 0 <= i < |r| ==> r[i].t1 > 0.0 && r[i].t2 > 0.0
  {
    var r := seq(SplitCount, i requires 0 <= i < SplitCount => SplitCandidate(p, durationSec, climbRate, i + 1));
    forall i | 0 <= i < SplitCount
      ensures && r[i].h1 == p.h1 && r[i].h2 == p.h2 && r[i].climb == ClimbTime(p, climbRate)
              && r[i].t1 == CruiseTime(p, durationSec, climbRate) * ((i + 1) as real / 10.0)
              && r[i].t1 + r[i].t2 + r[i].climb == durationSec
              && (Feasible(p, durationSec, climbRate) ==> r[i].t1 > 0.0 && r[i].t2 > 0.0)
    {
      SplitCandidateShape(p, durationSec, climbRate, i + 1);
    }
    r
  }

  /** The candidates of all pairs in order; a pair whose climb uses up the duration gives none. */
  function Generate(pairs: seq<AltitudePair>, durationSec: real, climbRate: real): (r: seq<Candidate>)
    requires climbRate > 0.0
    ensures |r| == SplitCount * |FeasiblePairs(pairs, durationSec, climbRate)|
  {
    if |pairs| == 0 then []
    else
      var own := if Feasible(pairs[0], durationSec, climbRate) then Splits(pairs[0], durationSec, climbRate) else [];
      own + Generate(pairs[1..], durationSec, climbRate)
  }

  /** Every candidate comes from a feasible enumerated pair, both of its drift times are
      positive, and drift plus climb fill the flight duration exactly. */
  lemma {:induction false} GenerateSound(pairs: seq<AltitudePair>, durationSec: real, climbRate: real)
    requires climbRate > 0.0
    ensures forall c :: c in Generate(pairs, durationSec, climbRate) ==>
              && AltitudePair(c.h1, c.h2) in pairs
              && Feasible(AltitudePair(c.h1, c.h2), durationSec, climbRate)
              && c.t1 > 0.0 && c.t2 > 0.0 && c.t1 + c.t2 + c.climb == durationSec
  {
    if |pairs| > 0 {
      GenerateSound(pairs[1..], durationSec, climbRate);
      var own := if Feasible(pairs[0], durationSec, climbRate) then Splits(pairs[0], durationSec, climbRate) else [];
      var rest := Generate(pairs[1..], durationSec, climbRate);
      assert Generate(pairs, durationSec, climbRate) == own + rest;
      forall c | c in own
        ensures AltitudePair(c.h1, c.h2) == pairs[0]
        ensures c.t1 > 0.0 && c.t2 > 0.0 && c.t1 + c.t2 + c.climb == durationSec
      {
        var i :| 0 <= i < |own| && own[i] == c;
        SplitCandidateShape(pairs[0], durationSec, climbRate, i + 1);
      }
      assert forall c :: c in rest ==> AltitudePair(c.h1, c.h2) in pairs[1..];
    }
  }

  /** The j-th candidate of the i-th feasible pair sits at position 9 * i + j. */
  lemma {:induction false} GenerateLayout(pairs: seq<AltitudePair>, durationSec: real, climbRate: real, i: int, j: int)
    requires climbRate > 0.0
    requires 0 <= i < |FeasiblePairs(pairs, durationSec, climbRate)|
    requires 0 <= j < SplitCount
    ensures SplitCount * i + j < |Generate(pairs, durationSec, climbRate)|
    ensures Generate(pairs, durationSec, climbRate)[SplitCount * i + j]
         == SplitCandidate(FeasiblePairs(pairs, durationSec, climbRate)[i], durationSec, climbRate, j + 1)
    decreases |pairs|
  {
    var fp := FeasiblePairs(pairs, durationSec, climbRate);
    var fpRest := FeasiblePairs(pairs[1..], durationSec, climbRate);
    var g := Generate(pairs, durationSec, climbRate);
    var rest := Generate(pairs[1..], durationSec, climbRate);
    if Feasible(pairs[0], durationSec, climbRate) {
      var own := Splits(pairs[0], durationSec, climbRate);
      assert fp == [pairs[0]] + fpRest;
      assert g == own + rest;
      if i > 0 {
        GenerateLayout(pairs[1..], durationSec, climbRate, i - 1, j);
        assert fp[i] == fpRest[i - 1];
        var n := SplitCount * (i - 1) + j;
        assert SplitCount * i + j == |own| + n;
        assert g[|own| + n] == rest[n];
        assert g[SplitCount * i + j] == SplitCandidate(fp[i], durationSec, climbRate, j + 1);
      } else {
        assert g[j] == own[j];
        assert g[SplitCount * i + j] == SplitCandidate(fp[i], durationSec, climbRate, j + 1);
      }
    } else {
      assert fp == fpRest;
      assert g == rest;
      GenerateLayout(pairs[1..], durationSec, climbRate, i, j);
      assert g[SplitCount * i + j] == SplitCandidate(fp[i], durationSec, climbRate, j + 1);
    }
  }

  /** A climb of 3048 ft at 1 m/s takes 929.0304 s, so it cannot fit in a 600 s flight. */
  lemma LongClimbInfeasible()
    ensures ClimbTime(AltitudePair(0.0, 3048.0), 1.0) == 929.0304
    ensures !Feasible(AltitudePair(0.0, 3048.0), 600.0, 1.0)
    ensures Generate([AltitudePair(0.0, 3048.0)], 600.0, 1.0) == []
  {
  }
}
