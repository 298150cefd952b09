/** The wind profile: altitude-indexed samples of wind direction and speed, sorted by altitude
    and interpolated at any queried altitude (`interpolate_wind_profile` in app.py). */
module WindProfile {
  import opened Interpolation

  /** One row of the wind table: altitude in feet, direction in degrees, speed in km/h. */
  datatype Sample = Sample(altitudeFt: real, directionDeg: real, speedKmh: real)

  /** The altitude column of the profile, in row order. */
  function Altitudes(profile: seq<Sample>): (alts: seq<real>)
    ensures |alts| == |profile|
    ensures forall i :: 0 <= i < |profile| ==> alts[i] == profile[i].altitudeFt
  {
    seq(|profile|, i requires 0 <= i < |profile| => profile[i].altitudeFt)
  }

  ghost predicate SortedByAltitude(s: seq<Sample>) {
    forall i, j :: 0 <= i < j < |s| ==> s[i].altitudeFt <= s[j].altitudeFt
  }

  ghost predicate StrictlySortedByAltitude(s: seq<Sample>) {
    forall i, j :: 0 <= i < j < |s| ==> s[i].altitudeFt < s[j].altitudeFt
  }

  /** No two rows of the profile share an altitude. */
  ghost predicate DistinctAltitudes(profile: seq<Sample>) {
    forall i, j :: 0 <= i < j < |profile| ==> profile[i].altitudeFt != profile[j].altitudeFt
  }

  /** Places s before the first row of `sorted` that is not lower than it. */
  function InsertByAltitude(s: Sample, sorted: seq<Sample>): (r: seq<Sample>)
    ensures multiset(r) == multiset(sorted) + multiset{s}
  {
    if |sorted| == 0 || s.altitudeFt <= sorted[0].altitudeFt then [s] + sorted
    else
      assert sorted == [sorted[0]] + sorted[1..];
      [sorted[0]] + InsertByAltitude(s, sorted[1..])
  }

  lemma InsertByAltitudeMembers(s: Sample, sorted: seq<Sample>)
    ensures forall t :: t in InsertByAltitude(s, sorted) ==> t == s || t in sorted
  {
    forall t | t in InsertByAltitude(s, sorted) ensures t == s || t in sorted {
      assert t in multiset(InsertByAltitude(s, sorted));
    }
  }

  /** Every row of a sorted profile lies at or above its first row. */
  lemma SortedHeadLowest(sorted: seq<Sample>)
    requires SortedByAltitude(sorted) && |sorted| > 0
    ensures forall t :: t in sorted ==> sorted[0].altitudeFt <= t.altitudeFt
  {
    forall t | t in sorted ensures sorted[0].altitudeFt <= t.altitudeFt {
      var k :| 0 <= k < |sorted| && sorted[k] == t;
    }
  }

  /** Every row after the first of a strictly sorted profile lies above the first. */
  lemma StrictlySortedHeadLowest(sorted: seq<Sample>)
    requires StrictlySortedByAltitude(sorted) && |sorted| > 0
    ensures forall t :: t in sorted[1..] ==> sorted[0].altitudeFt < t.altitudeFt
  {
    forall t | t in sorted[1..] ensures sorted[0].altitudeFt < t.altitudeFt {
      var k :| 0 <= k < |sorted| - 1 && sorted[1..][k] == t;
      assert sorted[k + 1] == t;
    }
  }

  /** A row at or below every row of a sorted profile can go in front of it. */
  lemma ConsSorted(h: Sample, rest: seq<Sample>)
    requires SortedByAltitude(rest)
    requires forall t :: t in rest ==> h.altitudeFt <= t.altitudeFt
    ensures SortedByAltitude([h] + rest)
  {
    var r := [h] + rest;
    forall i, j | 0 <= i < j < |r| ensures r[i].altitudeFt <= r[j].altitudeFt {
      assert r[j] == rest[j - 1] && rest[j - 1] in rest;
      if i > 0 {
        assert r[i] == rest[i - 1];
      }
    }
  }

  /** A row strictly below every row of a strictly sorted profile can go in front of it. */
  lemma ConsStrictlySorted(h: Sample, rest: seq<Sample>)
    requires StrictlySortedByAltitude(rest)
    requires forall t :: t in rest ==> h.altitudeFt < t.altitudeFt
    ensures StrictlySortedByAltitude([h] + rest)
  {
    var r := [h] + rest;
    forall i, j | 0 <= i < j < |r| ensures r[i].altitudeFt < r[j].altitudeFt {
      assert r[j] == rest[j - 1] && rest[j - 1] in rest;
      if i > 0 {
        assert r[i] == rest[i - 1];
      }
    }
  }

  /** Inserting into an altitude-sorted profile keeps it sorted. */
  lemma {:induction false} InsertByAltitudeSorted(s: Sample, sorted: seq<Sample>)
    requires SortedByAltitude(sorted)
    ensures SortedByAltitude(InsertByAltitude(s, sorted))
  {
    if |sorted| == 0 {
      assert InsertByAltitude(s, sorted) == [s];
    } else if s.altitudeFt <= sorted[0].altitudeFt {
      SortedHeadLowest(sorted);
      ConsSorted(s, sorted);
    } else {
      var rest := InsertByAltitude(s, sorted[1..]);
      assert SortedByAltitude(sorted[1..]) by {
        assert forall i :: 0 <= i < |sorted| - 1 ==> sorted[1..][i] == sorted[i + 1];
      }
      InsertByAltitudeSorted(s, sorted[1..]);
      InsertByAltitudeMembers(s, sorted[1..]);
      SortedHeadLowest(sorted);
      assert forall t :: t in sorted[1..] ==> t in sorted;
      ConsSorted(sorted[0], rest);
    }
  }

  /** Inserting a row at a new altitude into a strictly sorted profile keeps it strictly
      sorted. */
  lemma {:induction false} InsertNewAltitude(s: Sample, sorted: seq<Sample>)
    requires StrictlySortedByAltitude(sorted)
    requires forall t :: t in sorted ==> t.altitudeFt != s.altitudeFt
    ensures StrictlySortedByAltitude(InsertByAltitude(s, sorted))
  {
    if |sorted| == 0 {
      assert InsertByAltitude(s, sorted) == [s];
    } else if s.altitudeFt <= sorted[0].altitudeFt {
      assert sorted[0] in sorted;
      StrictlySortedHeadLowest(sorted);
      assert sorted == [sorted[0]] + sorted[1..];
      ConsStrictlySorted(s, sorted);
    } else {
      var rest := InsertByAltitude(s, sorted[1..]);
      assert StrictlySortedByAltitude(sorted[1..]) by {
        assert forall i :: 0 <= i < |sorted| - 1 ==> sorted[1..][i] == sorted[i + 1];
      }
      assert forall t :: t in sorted[1..] ==> t in sorted;
      InsertNewAltitude(s, sorted[1..]);
      InsertByAltitudeMembers(s, sorted[1..]);
      StrictlySortedHeadLowest(sorted);
      ConsStrictlySorted(sorted[0], rest);
    }
  }

  /** The profile sorted ascending by altitude (app.py sorts the table by its altitude column). */
  function SortByAltitude(profile: seq<Sample>): (r: seq<Sample>)
    ensures multiset(r) == multiset(profile)
    ensures SortedByAltitude(r)
    ensures DistinctAltitudes(profile) ==> StrictlySortedByAltitude(r)
  {
    if |profile| == 0 then []
    else
      var rest := SortByAltitude(profile[1..]);
      assert profile == [profile[0]] + profile[1..];
      assert multiset(profile) == multiset{profile[0]} + multiset(profile[1..]);
      DistinctTail(profile);
      HeadAltitudeIsNew(profile, rest);
      InsertByAltitudeSorted(profile[0], rest);
      assert DistinctAltitudes(profile) ==> StrictlySortedByAltitude(InsertByAltitude(profile[0], rest)) by {
        if DistinctAltitudes(profile) {
          InsertNewAltitude(profile[0], rest);
        }
      }
      InsertByAltitude(profile[0], rest)
  }

  /** Dropping the first row keeps the altitudes distinct. */
  lemma DistinctTail(profile: seq<Sample>)
    requires |profile| > 0
    ensures DistinctAltitudes(profile) ==> DistinctAltitudes(profile[1..])
  {
    assert forall i :: 0 <= i < |profile| - 1 ==> profile[1..][i] == profile[i + 1];
  }

  /** In a profile without repeated altitudes, no row after the first shares its altitude. */
  lemma HeadAltitudeIsNew(profile: seq<Sample>, rest: seq<Sample>)
    requires |profile| > 0
    requires multiset(rest) == multiset(profile[1..])
    ensures DistinctAltitudes(profile) ==> forall t :: t in rest ==> t.altitudeFt != profile[0].altitudeFt
  {
    if DistinctAltitudes(profile) {
      forall t | t in rest ensures t.altitudeFt != profile[0].altitudeFt {
        assert t in multiset(profile[1..]);
        var j :| 0 <= j < |profile[1..]| && profile[1..][j] == t;
        assert profile[j + 1] == t;
      }
    }
  }

  /** The (altitude, direction) and (altitude, speed) sample points of a sorted profile. */
  function DirectionPoints(s: seq<Sample>): (pts: seq<Point>)
    ensures |pts| == |s|
    ensures forall i :: 0 <= i < |s| ==> pts[i] == Point(s[i].altitudeFt, s[i].directionDeg)
  {
    seq(|s|, i requires 0 <= i < |s| => Point(s[i].altitudeFt, s[i].directionDeg))
  }

  function SpeedPoints(s: seq<Sample>): (pts: seq<Point>)
    ensures |pts| == |s|
    ensures forall i :: 0 <= i < |s| ==> pts[i] == Point(s[i].altitudeFt, s[i].speedKmh)
  {
    seq(|s|, i requires 0 <= i < |s| => Point(s[i].altitudeFt, s[i].speedKmh))
  }

  lemma StrictlySortedGivesValidSamples(s: seq<Sample>)
    requires |s| > 0 && StrictlySortedByAltitude(s)
    ensures ValidSamples(DirectionPoints(s)) && ValidSamples(SpeedPoints(s))
  {
    assert forall i :: 0 <= i < |s| ==> Xs(DirectionPoints(s))[i] == s[i].altitudeFt;
    assert forall i :: 0 <= i < |s| ==> Xs(SpeedPoints(s))[i] == s[i].altitudeFt;
  }

  /** Wind direction (degrees) at an altitude, linearly interpolated in the sorted profile. */
  function DirectionAt(profile: seq<Sample>, altitudeFt: real): real
    requires |profile| > 0 && DistinctAltitudes(profile)
  {
    var sorted := SortByAltitude(profile);
    assert |sorted| == |multiset(profile)|;
    StrictlySortedGivesValidSamples(sorted);
    Interp(DirectionPoints(sorted), altitudeFt)
  }

  /** Wind speed (km/h) at an altitude, linearly interpolated in the sorted profile. */
  function SpeedAt(profile: seq<Sample>, altitudeFt: real): real
    requires |profile| > 0 && DistinctAltitudes(profile)
  {
    var sorted := SortByAltitude(profile);
    assert |sorted| == |multiset(profile)|;
    StrictlySortedGivesValidSamples(sorted);
    Interp(SpeedPoints(sorted), altitudeFt)
  }

  /** Both lookups interpolate in the profile sorted by altitude, whose sample points are
      valid for interpolation. */
  lemma LookupInSorted(profile: seq<Sample>, altitudeFt: real)
    requires |profile| > 0 && DistinctAltitudes(profile)
    ensures var sorted := SortByAltitude(profile);
            && ValidSamples(DirectionPoints(sorted)) && ValidSamples(SpeedPoints(sorted))
            && DirectionAt(profile, altitudeFt) == Interp(DirectionPoints(sorted), altitudeFt)
            && SpeedAt(profile, altitudeFt) == Interp(SpeedPoints(sorted), altitudeFt)
  {
    var sorted := SortByAltitude(profile);
    assert |sorted| == |multiset(profile)|;
    StrictlySortedGivesValidSamples(sorted);
  }

  /** The interpolated direction and speed never leave the range of the table: each lies
      between the values of two of its rows. */
  lemma WindWithinTable(profile: seq<Sample>, altitudeFt: real)
    requires |profile| > 0 && DistinctAltitudes(profile)
    ensures exists lo, hi :: lo in profile && hi in profile
              && lo.directionDeg <= DirectionAt(profile, altitudeFt) <= hi.directionDeg
    ensures exists lo, hi :: lo in profile && hi in profile
              && lo.speedKmh <= SpeedAt(profile, altitudeFt) <= hi.speedKmh
  {
    var sorted := SortByAltitude(profile);
    LookupInSorted(profile, altitudeFt);
    DirectionWithin(profile, sorted, DirectionAt(profile, altitudeFt), altitudeFt);
    SpeedWithin(profile, sorted, SpeedAt(profile, altitudeFt), altitudeFt);
  }

  lemma DirectionWithin(profile: seq<Sample>, sorted: seq<Sample>, v: real, altitudeFt: real)
    requires multiset(sorted) == multiset(profile)
    requires ValidSamples(DirectionPoints(sorted))
    requires v == Interp(DirectionPoints(sorted), altitudeFt)
    ensures exists lo, hi :: lo in profile && hi in profile && lo.directionDeg <= v <= hi.directionDeg
  {
    InterpWithinSamples(DirectionPoints(sorted), altitudeFt);
    var a, b :| 0 <= a < |sorted| && 0 <= b < |sorted|
      && DirectionPoints(sorted)[a].y <= v <= DirectionPoints(sorted)[b].y;
    TableRow(profile, sorted, a);
    TableRow(profile, sorted, b);
  }

  lemma SpeedWithin(profile: seq<Sample>, sorted: seq<Sample>, v: real, altitudeFt: real)
    requires multiset(sorted) == multiset(profile)
    requires ValidSamples(SpeedPoints(sorted))
    requires v == Interp(SpeedPoints(sorted), altitudeFt)
    ensures exists lo, hi :: lo in profile && hi in profile && lo.speedKmh <= v <= hi.speedKmh
  {
    InterpWithinSamples(SpeedPoints(sorted), altitudeFt);
    var a, b :| 0 <= a < |sorted| && 0 <= b < |sorted|
      && SpeedPoints(sorted)[a].y <= v <= SpeedPoints(sorted)[b].y;
    TableRow(profile, sorted, a);
    TableRow(profile, sorted, b);
  }

  /** Every row of a permutation of the table is a row of the table. */
  lemma TableRow(profile: seq<Sample>, sorted: seq<Sample>, i: int)
    requires multiset(sorted) == multiset(profile)
    requires 0 <= i < |sorted|
    ensures sorted[i] in profile
  {
    assert sorted[i] in multiset(sorted);
  }

  /** Asking for the wind exactly at a sampled altitude returns that sample's direction and speed. */
  lemma WindAtSampledAltitude(profile: seq<Sample>, s: Sample)
    requires DistinctAltitudes(profile)
    requires s in profile
    ensures DirectionAt(profile, s.altitudeFt) == s.directionDeg
    ensures SpeedAt(profile, s.altitudeFt) == s.speedKmh
  {
    var sorted := SortByAltitude(profile);
    assert s in multiset(sorted);
    var i :| 0 <= i < |sorted| && sorted[i] == s;
    LookupInSorted(profile, s.altitudeFt);
    InterpAtSample(DirectionPoints(sorted), i);
    InterpAtSample(SpeedPoints(sorted), i);
  }

  /** In a strictly sorted profile the row no other row lies below comes first. */
  lemma SortedFirstIsLowest(sorted: seq<Sample>, lowest: Sample)
    requires StrictlySortedByAltitude(sorted)
    requires lowest in sorted
    requires forall t :: t in sorted ==> lowest.altitudeFt <= t.altitudeFt
    ensures sorted[0] == lowest
  {
    var i :| 0 <= i < |sorted| && sorted[i] == lowest;
    assert sorted[0] in sorted;
    assert lowest.altitudeFt <= sorted[0].altitudeFt;
    assert i == 0;
  }

  /** In a strictly sorted profile the row no other row lies above comes last. */
  lemma SortedLastIsHighest(sorted: seq<Sample>, highest: Sample)
    requires StrictlySortedByAltitude(sorted)
    requires highest in sorted
    requires forall t :: t in sorted ==> t.altitudeFt <= highest.altitudeFt
    ensures sorted[|sorted| - 1] == highest
  {
    var last := |sorted| - 1;
    var i :| 0 <= i < |sorted| && sorted[i] == highest;
    assert sorted[last] in sorted;
    assert sorted[last].altitudeFt <= highest.altitudeFt;
    assert i == last;
  }

  /** Sorting puts the lowest row of the profile first. */
  lemma LowestSortsAt(profile: seq<Sample>, lowest: Sample, sorted: seq<Sample>)
    requires DistinctAltitudes(profile)
    requires lowest in profile
    requires forall t :: t in profile ==> lowest.altitudeFt <= t.altitudeFt
    requires sorted == SortByAltitude(profile)
    ensures |sorted| > 0 && sorted[0] == lowest
  {
    assert lowest in sorted by {
      assert lowest in multiset(sorted);
    }
    assert forall t :: t in sorted ==> lowest.altitudeFt <= t.altitudeFt by {
      forall t | t in sorted ensures lowest.altitudeFt <= t.altitudeFt {
        assert t in multiset(profile);
      }
    }
    SortedFirstIsLowest(sorted, lowest);
  }

  /** Sorting puts the highest row of the profile last. */
  lemma HighestSortsAt(profile: seq<Sample>, highest: Sample, sorted: seq<Sample>)
    requires DistinctAltitudes(profile)
    requires highest in profile
    requires forall t :: t in profile ==> t.altitudeFt <= highest.altitudeFt
    requires sorted == SortByAltitude(profile)
    ensures |sorted| > 0 && sorted[|sorted| - 1] == highest
  {
    assert highest in sorted by {
      assert highest in multiset(sorted);
    }
    assert forall t :: t in sorted ==> t.altitudeFt <= highest.altitudeFt by {
      forall t | t in sorted ensures t.altitudeFt <= highest.altitudeFt {
        assert t in multiset(profile);
      }
    }
    SortedLastIsHighest(sorted, highest);
  }

  /** At or below the lowest sampled altitude the lowest sample's wind is held. */
  lemma WindBelowProfile(profile: seq<Sample>, lowest: Sample, altitudeFt: real)
    requires DistinctAltitudes(profile)
    requires lowest in profile
    requires forall t :: t in profile ==> lowest.altitudeFt <= t.altitudeFt
    requires altitudeFt <= lowest.altitudeFt
    ensures DirectionAt(profile, altitudeFt) == lowest.directionDeg
    ensures SpeedAt(profile, altitudeFt) == lowest.speedKmh
  {
    var sorted := SortByAltitude(profile);
    LowestSortsAt(profile, lowest, sorted);
    LookupInSorted(profile, altitudeFt);
    InterpClampBelow(DirectionPoints(sorted), altitudeFt);
    InterpClampBelow(SpeedPoints(sorted), altitudeFt);
  }

  /** At or above the highest sampled altitude the highest sample's wind is held. */
  lemma WindAboveProfile(profile: seq<Sample>, highest: Sample, altitudeFt: real)
    requires DistinctAltitudes(profile)
    requires highest in profile
    requires forall t :: t in profile ==> t.altitudeFt <= highest.altitudeFt
    requires highest.altitudeFt <= altitudeFt
    ensures DirectionAt(profile, altitudeFt) == highest.directionDeg
    ensures SpeedAt(profile, altitudeFt) == highest.speedKmh
  {
    var sorted := SortByAltitude(profile);
    HighestSortsAt(profile, highest, sorted);
    LookupInSorted(profile, altitudeFt);
    InterpClampAbove(DirectionPoints(sorted), altitudeFt);
    InterpClampAbove(SpeedPoints(sorted), altitudeFt);
  }

  /** Direction is interpolated as a plain number, not as an angle: halfway between two
      sampled altitudes the direction is the arithmetic mean of the two directions, so winds
      from 350 and from 10 degrees give a wind from 180 degrees. */
  lemma DirectionMidpointIsMean(profile: seq<Sample>)
    requires |profile| == 2 && profile[0].altitudeFt < profile[1].altitudeFt
    ensures DistinctAltitudes(profile)
    ensures DirectionAt(profile, (profile[0].altitudeFt + profile[1].altitudeFt) / 2.0)
         == (profile[0].directionDeg + profile[1].directionDeg) / 2.0
  {
    var a, b := Point(profile[0].altitudeFt, profile[0].directionDeg), Point(profile[1].altitudeFt, profile[1].directionDeg);
    TwoRowDirection(profile, (a.x + b.x) / 2.0);
    InterpMidpoint(a, b);
  }

  /** With two rows the direction lookup interpolates between their two points. */
  lemma TwoRowDirection(profile: seq<Sample>, altitudeFt: real)
    requires |profile| == 2 && profile[0].altitudeFt < profile[1].altitudeFt
    ensures DistinctAltitudes(profile)
    ensures var pts := [Point(profile[0].altitudeFt, profile[0].directionDeg), Point(profile[1].altitudeFt, profile[1].directionDeg)];
            ValidSamples(pts) && DirectionAt(profile, altitudeFt) == Interp(pts, altitudeFt)
  {
    SortTwoRows(profile);
    LookupInSorted(profile, altitudeFt);
    assert DirectionPoints(profile) == [Point(profile[0].altitudeFt, profile[0].directionDeg), Point(profile[1].altitudeFt, profile[1].directionDeg)];
  }

  /** Two rows already in altitude order stay as they are. */
  lemma SortTwoRows(profile: seq<Sample>)
    requires |profile| == 2 && profile[0].altitudeFt <= profile[1].altitudeFt
    ensures SortByAltitude(profile) == profile
  {
    var tail := profile[1..];
    assert SortByAltitude(tail) == tail by {
      assert tail[1..] == [];
    }
    assert InsertByAltitude(profile[0], tail) == [profile[0]] + tail;
    assert profile == [profile[0]] + tail;
  }
}
