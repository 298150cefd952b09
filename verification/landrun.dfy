/** The land-run search: every candidate flight of the profile is flown as a two-leg drift
    from the origin, scored by the area of the triangle it encloses, and the ten best are
    kept (`simulate_landrun` in app.py). */
module Landrun {
  import opened Geometry
  import opened WindProfile
  import opened Kinematics
  import opened Candidates
  import opened Ranking
  import opened TimeFormat

  /** Python's `round(x, 1)` and `round(x, 2)` on floats, left abstract. */
  datatype Rounding = Rounding(oneDecimal: real -> real, twoDecimals: real -> real)

  /** One row of the result table, with the three path points kept for plotting. */
  datatype Row = Row(
    h1: real, speedH1: real, h2: real, speedH2: real,
    t1Text: string, t2Text: string, climbText: string,
    areaKm2: real,
    p0: Vec, p1: Vec, p2: Vec)

  /** How many rows the search keeps. */
  const TopCount: nat := 10

  /** The ranking key: the stored, rounded area. */
  function AreaKey(row: Row): real {
    row.areaKm2
  }

  /** The unrounded area of the row's triangle. */
  function RawArea(row: Row): real {
    TriangleAreaKm2(row.p0, row.p1, row.p2)
  }

  /** Drift rate (m/s) at an altitude, from the interpolated wind there. */
  function WindRate(profile: seq<Sample>, trig: Trig, altitudeFt: real): Vec
    requires |profile| > 0 && DistinctAltitudes(profile)
  {
    WindVector(trig, DirectionAt(profile, altitudeFt), SpeedAt(profile, altitudeFt))
  }

  /** Drift (m) while holding an altitude for a number of seconds: the wind is sampled once,
      at that altitude, and held for the whole leg. */
  function IntegrateMotion(profile: seq<Sample>, trig: Trig, altitudeFt: real, seconds: real): Vec
    requires |profile| > 0 && DistinctAltitudes(profile)
  {
    Displacement(WindRate(profile, trig, altitudeFt), seconds)
  }

  /** Flies one candidate and builds its table row. */
  function Score(profile: seq<Sample>, trig: Trig, rnd: Rounding, c: Candidate): Row
    requires |profile| > 0 && DistinctAltitudes(profile)
  {
    var p0 := Origin;
    var p1 := Add(p0, IntegrateMotion(profile, trig, c.h1, c.t1));
    var p2 := Add(p1, IntegrateMotion(profile, trig, c.h2, c.t2));
    var area := TriangleAreaKm2(p0, p1, p2);
    Row(c.h1, rnd.oneDecimal(SpeedAt(profile, c.h1)),
        c.h2, rnd.oneDecimal(SpeedAt(profile, c.h2)),
        FormatMinSec(c.t1), FormatMinSec(c.t2), FormatMinSec(c.climb),
        rnd.twoDecimals(area), p0, p1, p2)
  }

  /** A row starts at the origin, each leg moves by the wind at its altitude for its
      duration, and the stored area is the rounded, non-negative triangle area. */
  lemma ScoreRow(profile: seq<Sample>, trig: Trig, rnd: Rounding, c: Candidate)
    requires |profile| > 0 && DistinctAltitudes(profile)
    ensures var row := Score(profile, trig, rnd, c);
            && row.h1 == c.h1 && row.h2 == c.h2 && row.p0 == Origin
            && Sub(row.p1, row.p0) == Scale(WindRate(profile, trig, c.h1), c.t1)
            && Sub(row.p2, row.p1) == Scale(WindRate(profile, trig, c.h2), c.t2)
            && RawArea(row) >= 0.0
            && row.areaKm2 == rnd.twoDecimals(RawArea(row))
  {
    var row := Score(profile, trig, rnd, c);
    var d1 := Scale(WindRate(profile, trig, c.h1), c.t1);
    var d2 := Scale(WindRate(profile, trig, c.h2), c.t2);
    assert row.p1 == Add(Origin, d1);
    assert row.p2 == Add(row.p1, d2);
    SubAddCancel(Origin, d1);
    SubAddCancel(row.p1, d2);
  }

  /** The enclosed area grows with the product of the two drift times and with the cross
      product of the two wind rates. */
  lemma ScoreAreaFactors(profile: seq<Sample>, trig: Trig, rnd: Rounding, c: Candidate)
    requires |profile| > 0 && DistinctAltitudes(profile)
    requires c.t1 >= 0.0 && c.t2 >= 0.0
    ensures RawArea(Score(profile, trig, rnd, c)) == DriftArea(WindRate(profile, trig, c.h1), c.t1, WindRate(profile, trig, c.h2), c.t2)
  {
    var row := Score(profile, trig, rnd, c);
    ScoreRow(profile, trig, rnd, c);
    TwoLegAreaAt(WindRate(profile, trig, c.h1), c.t1, WindRate(profile, trig, c.h2), c.t2, row.p0, row.p1, row.p2);
  }

  /** Flying a candidate between two table altitudes: each leg drifts with the wind of the
      table row at its altitude (converted by `WindVector`) for its duration, and the row
      reports the rounded table speeds. */
  lemma ScoreFromTable(profile: seq<Sample>, trig: Trig, rnd: Rounding, c: Candidate, s1: Sample, s2: Sample)
    requires DistinctAltitudes(profile)
    requires s1 in profile && s2 in profile
    requires s1.altitudeFt == c.h1 && s2.altitudeFt == c.h2
    ensures |profile| > 0
    ensures var row := Score(profile, trig, rnd, c);
            && row.p0 == Origin
            && row.p1 == Scale(WindVector(trig, s1.directionDeg, s1.speedKmh), c.t1)
            && row.p2 == Add(row.p1, Scale(WindVector(trig, s2.directionDeg, s2.speedKmh), c.t2))
            && row.speedH1 == rnd.oneDecimal(s1.speedKmh)
            && row.speedH2 == rnd.oneDecimal(s2.speedKmh)
  {
    WindAtSampledAltitude(profile, s1);
    WindAtSampledAltitude(profile, s2);
    ScoreRow(profile, trig, rnd, c);
  }

  /** The stored area of a candidate between two table altitudes is the rounded drift area of
      the two table winds over the two leg times. */
  lemma ScoreAreaFromTable(profile: seq<Sample>, trig: Trig, rnd: Rounding, c: Candidate, s1: Sample, s2: Sample)
    requires DistinctAltitudes(profile)
    requires s1 in profile && s2 in profile
    requires s1.altitudeFt == c.h1 && s2.altitudeFt == c.h2
    requires c.t1 >= 0.0 && c.t2 >= 0.0
    ensures |profile| > 0
    ensures Score(profile, trig, rnd, c).areaKm2
         == rnd.twoDecimals(DriftArea(WindVector(trig, s1.directionDeg, s1.speedKmh), c.t1,
                                      WindVector(trig, s2.directionDeg, s2.speedKmh), c.t2))
  {
    WindAtSampledAltitude(profile, s1);
    WindAtSampledAltitude(profile, s2);
    ScoreRow(profile, trig, rnd, c);
    ScoreAreaFactors(profile, trig, rnd, c);
  }

  /** The three time columns of a row read back as the whole minutes and leftover whole
      seconds of the two legs and of the climb. */
  lemma ScoreTimesReadBack(profile: seq<Sample>, trig: Trig, rnd: Rounding, c: Candidate)
    requires |profile| > 0 && DistinctAltitudes(profile)
    ensures var row := Score(profile, trig, rnd, c);
            ParseMinSec(row.t1Text) == Some(Clock(Minutes(c.t1), Seconds(c.t1)))
            && ParseMinSec(row.t2Text) == Some(Clock(Minutes(c.t2), Seconds(c.t2)))
            && ParseMinSec(row.climbText) == Some(Clock(Minutes(c.climb), Seconds(c.climb)))
  {
    FormatMinSecRoundTrip(c.t1);
    FormatMinSecRoundTrip(c.t2);
    FormatMinSecRoundTrip(c.climb);
  }

  /** With the same wind at both altitudes the path is a straight line and encloses nothing. */
  lemma SameWindNoArea(profile: seq<Sample>, trig: Trig, rnd: Rounding, c: Candidate)
    requires |profile| > 0 && DistinctAltitudes(profile)
    requires c.t1 >= 0.0 && c.t2 >= 0.0
    requires WindRate(profile, trig, c.h1) == WindRate(profile, trig, c.h2)
    ensures RawArea(Score(profile, trig, rnd, c)) == 0.0
  {
    ScoreAreaFactors(profile, trig, rnd, c);
    DriftAreaSameWind(WindRate(profile, trig, c.h1), c.t1, c.t2);
  }

  /** Scores a list of candidates in order. */
  function ScoreAll(profile: seq<Sample>, trig: Trig, rnd: Rounding, cs: seq<Candidate>): (rows: seq<Row>)
    requires DistinctAltitudes(profile)
    requires |cs| > 0 ==> |profile| > 0
    ensures |rows| == |cs|
    ensures forall i :: 0 <= i < |cs| ==> |profile| > 0 && rows[i] == Score(profile, trig, rnd, cs[i])
  {
    seq(|cs|, i requires 0 <= i < |cs| => Score(profile, trig, rnd, cs[i]))
  }

  /** The altitude pairs of a profile: combinations of its distinct altitudes, ascending. */
  function ProfilePairs(profile: seq<Sample>): seq<AltitudePair> {
    Combinations(DistinctSorted(Altitudes(profile)))
  }

  /** Every candidate flight of a profile, in generation order. */
  function AllCandidates(profile: seq<Sample>, durationSec: real, climbRate: real): (cs: seq<Candidate>)
    requires climbRate > 0.0
    ensures |cs| == SplitCount * |FeasiblePairs(ProfilePairs(profile), durationSec, climbRate)|
    ensures |cs| > 0 ==> |profile| > 0
  {
    var alts := DistinctSorted(Altitudes(profile));
    Generate(Combinations(alts), durationSec, climbRate)
  }

  /** The ranked table: the ten best rows by stored area, best first, ties in generation
      order. */
  function SimulateLandrun(profile: seq<Sample>, durationSec: real, climbRate: real, trig: Trig, rnd: Rounding): (rows: seq<Row>)
    requires DistinctAltitudes(profile)
    requires climbRate > 0.0
    ensures |rows| == Min(TopCount, SplitCount * |FeasiblePairs(ProfilePairs(profile), durationSec, climbRate)|)
    ensures SortedDesc(rows, AreaKey)
    ensures multiset(rows) <= multiset(ScoreAll(profile, trig, rnd, AllCandidates(profile, durationSec, climbRate)))
    ensures var all := ScoreAll(profile, trig, rnd, AllCandidates(profile, durationSec, climbRate));
            forall x, i :: x in multiset(all) - multiset(rows) && 0 <= i < |rows| ==> AreaKey(x) <= AreaKey(rows[i])
  {
    Rank(ScoreAll(profile, trig, rnd, AllCandidates(profile, durationSec, climbRate)), AreaKey, TopCount)
  }

  /** Equal stored areas keep generation order: for every area value, the kept rows with that
      area are the first rows with that area in generation order. */
  lemma SimulateLandrunStable(profile: seq<Sample>, durationSec: real, climbRate: real, trig: Trig, rnd: Rounding, k: real)
    requires DistinctAltitudes(profile)
    requires climbRate > 0.0
    ensures WithKey(SimulateLandrun(profile, durationSec, climbRate, trig, rnd), AreaKey, k)
         <= WithKey(ScoreAll(profile, trig, rnd, AllCandidates(profile, durationSec, climbRate)), AreaKey, k)
  {
    RankStable(ScoreAll(profile, trig, rnd, AllCandidates(profile, durationSec, climbRate)), AreaKey, TopCount, k);
  }

  /** The first row of the table has the largest stored area of any candidate of the
      profile. */
  lemma SimulateLandrunBestFirst(profile: seq<Sample>, durationSec: real, climbRate: real, trig: Trig, rnd: Rounding, c: Candidate)
    requires DistinctAltitudes(profile)
    requires climbRate > 0.0
    requires c in AllCandidates(profile, durationSec, climbRate)
    ensures |profile| > 0
    ensures var rows := SimulateLandrun(profile, durationSec, climbRate, trig, rnd);
            |rows| > 0 && AreaKey(Score(profile, trig, rnd, c)) <= AreaKey(rows[0])
  {
    var cs := AllCandidates(profile, durationSec, climbRate);
    var all := ScoreAll(profile, trig, rnd, cs);
    var i :| 0 <= i < |cs| && cs[i] == c;
    RankHeadBeats(all, AreaKey, TopCount, i);
  }

  /** Every row of the table is the score of one of the profile's candidates. */
  lemma RowScored(profile: seq<Sample>, durationSec: real, climbRate: real, trig: Trig, rnd: Rounding, row: Row)
    returns (c: Candidate)
    requires DistinctAltitudes(profile)
    requires climbRate > 0.0
    requires row in SimulateLandrun(profile, durationSec, climbRate, trig, rnd)
    ensures |profile| > 0
    ensures c in AllCandidates(profile, durationSec, climbRate)
    ensures row == Score(profile, trig, rnd, c)
  {
    var cs := AllCandidates(profile, durationSec, climbRate);
    var all := ScoreAll(profile, trig, rnd, cs);
    RankMember(all, AreaKey, TopCount, row);
    var i :| 0 <= i < |all| && all[i] == row;
    c := cs[i];
  }

  /** Every candidate of a profile climbs from one table altitude to a higher one. */
  lemma CandidateAltitudes(profile: seq<Sample>, durationSec: real, climbRate: real, c: Candidate)
    requires climbRate > 0.0
    requires c in AllCandidates(profile, durationSec, climbRate)
    ensures c.h1 < c.h2
    ensures c.h1 in Altitudes(profile) && c.h2 in Altitudes(profile)
  {
    var alts := DistinctSorted(Altitudes(profile));
    GenerateSound(Combinations(alts), durationSec, climbRate);
    var p := AltitudePair(c.h1, c.h2);
    assert p in Combinations(alts);
    CombinationsExactly(alts, p);
  }

  /** Every row of the table flies a climbing pair h1 < h2 of profile altitudes, starts at the
      origin, encloses a non-negative area, and reports the sampled wind speed of each of its
      altitudes. */
  lemma SimulateLandrunRows(profile: seq<Sample>, durationSec: real, climbRate: real, trig: Trig, rnd: Rounding, row: Row)
    requires DistinctAltitudes(profile)
    requires climbRate > 0.0
    requires row in SimulateLandrun(profile, durationSec, climbRate, trig, rnd)
    ensures row.h1 < row.h2
    ensures row.h1 in Altitudes(profile) && row.h2 in Altitudes(profile)
    ensures row.p0 == Origin && RawArea(row) >= 0.0
    ensures forall s :: s in profile && s.altitudeFt == row.h1 ==> row.speedH1 == rnd.oneDecimal(s.speedKmh)
    ensures forall s :: s in profile && s.altitudeFt == row.h2 ==> row.speedH2 == rnd.oneDecimal(s.speedKmh)
  {
    var c := RowScored(profile, durationSec, climbRate, trig, rnd, row);
    CandidateAltitudes(profile, durationSec, climbRate, c);
    ScoreRow(profile, trig, rnd, c);
    forall s | s in profile && s.altitudeFt == row.h1 ensures row.speedH1 == rnd.oneDecimal(s.speedKmh) {
      WindAtSampledAltitude(profile, s);
    }
    forall s | s in profile && s.altitudeFt == row.h2 ensures row.speedH2 == rnd.oneDecimal(s.speedKmh) {
      WindAtSampledAltitude(profile, s);
    }
  }

  /** The area of the split giving fraction k/10 of the cruise to the first altitude, unrounded. */
  function SplitArea(profile: seq<Sample>, trig: Trig, rnd: Rounding, p: AltitudePair, durationSec: real, climbRate: real, k: nat): real
    requires |profile| > 0 && DistinctAltitudes(profile)
    requires climbRate > 0.0
  {
    RawArea(Score(profile, trig, rnd, SplitCandidate(p, durationSec, climbRate, k)))
  }

  /** For a feasible pair, split k is the drift area of legs cruise · k/10 and cruise · (1 - k/10). */
  lemma SplitAreaFormula(profile: seq<Sample>, trig: Trig, rnd: Rounding, p: AltitudePair, durationSec: real, climbRate: real, k: nat)
    requires |profile| > 0 && DistinctAltitudes(profile)
    requires climbRate > 0.0
    requires Feasible(p, durationSec, climbRate) && 1 <= k <= SplitCount
    ensures SplitArea(profile, trig, rnd, p, durationSec, climbRate, k)
         == SplitDriftArea(WindRate(profile, trig, p.h1), WindRate(profile, trig, p.h2), CruiseTime(p, durationSec, climbRate), k)
  {
    var c := SplitCandidate(p, durationSec, climbRate, k);
    SplitCandidateShape(p, durationSec, climbRate, k);
    ScoreAreaFactors(profile, trig, rnd, c);
    SplitCandidateDriftArea(WindRate(profile, trig, p.h1), WindRate(profile, trig, p.h2), p, durationSec, climbRate, k);
  }

  /** Splitting k/10 : (10-k)/10 and (10-k)/10 : k/10 enclose the same area. */
  lemma SplitAreaSymmetric(profile: seq<Sample>, trig: Trig, rnd: Rounding, p: AltitudePair, durationSec: real, climbRate: real, k: nat)
    requires |profile| > 0 && DistinctAltitudes(profile)
    requires climbRate > 0.0
    requires Feasible(p, durationSec, climbRate) && 1 <= k <= SplitCount
    ensures SplitArea(profile, trig, rnd, p, durationSec, climbRate, k)
         == SplitArea(profile, trig, rnd, p, durationSec, climbRate, 10 - k)
  {
    SplitAreaFormula(profile, trig, rnd, p, durationSec, climbRate, k);
    SplitAreaFormula(profile, trig, rnd, p, durationSec, climbRate, 10 - k);
    SplitDriftSymmetric(WindRate(profile, trig, p.h1), WindRate(profile, trig, p.h2), CruiseTime(p, durationSec, climbRate), k);
  }

  /** The even split 0.5 : 0.5 encloses the most area of the nine; when the two winds are not
      parallel every other split encloses strictly less. */
  lemma EvenSplitBest(profile: seq<Sample>, trig: Trig, rnd: Rounding, p: AltitudePair, durationSec: real, climbRate: real, k: nat)
    requires |profile| > 0 && DistinctAltitudes(profile)
    requires climbRate > 0.0
    requires Feasible(p, durationSec, climbRate) && 1 <= k <= SplitCount
    ensures SplitArea(profile, trig, rnd, p, durationSec, climbRate, k)
         <= SplitArea(profile, trig, rnd, p, durationSec, climbRate, 5)
    ensures (k != 5 && Cross(WindRate(profile, trig, p.h1), WindRate(profile, trig, p.h2)) != 0.0) ==>
              SplitArea(profile, trig, rnd, p, durationSec, climbRate, k)
                < SplitArea(profile, trig, rnd, p, durationSec, climbRate, 5)
  {
    SplitAreaFormula(profile, trig, rnd, p, durationSec, climbRate, k);
    SplitAreaFormula(profile, trig, rnd, p, durationSec, climbRate, 5);
    SplitDriftBest(WindRate(profile, trig, p.h1), WindRate(profile, trig, p.h2), CruiseTime(p, durationSec, climbRate), k);
  }
}
