# Land-run altitude strategy — Dafny model

The land-run tool helps a balloon pilot plan a "land run" task: the balloon flies for a
fixed time, first at one altitude, then climbs, then at a second altitude. The score is the
area of the triangle spanned by the launch point, the point where the first leg ends and the
final landing point. The tool reads a wind table (altitude in feet, wind direction in degrees,
wind speed in km/h). For every pair of table altitudes h1 < h2 it:

- computes the climb time between them at the given climb rate;
- drops the pair if the climb leaves no cruise time;
- splits the remaining cruise time nine ways (10 % : 90 % … 90 % : 10 %);
- drifts each leg with the interpolated wind at its altitude;
- scores each split by the enclosed triangle area in km².

It then keeps the ten largest areas.

This project models that computation (`wind_vector`, `interpolate_wind_profile` and
`simulate_landrun` in `app.py`) as pure Dafny functions over `real`, and proves what the
search promises. Modules:

- `Ordering`: strictly increasing real sequences.
- `Geometry`: plane vectors, the cross product, the triangle area in km², and the area of a
  two-leg drift.
- `Interpolation`: `np.interp` as clamped piecewise-linear interpolation over increasing
  sample abscissae.
- `WindProfile`: the wind table, its sort by altitude and the direction and speed lookup.
- `Kinematics`: the wind vector from direction and speed, and drift over time. Sine, cosine
  and π are a parameter record `Trig`.
- `Candidates`: the distinct sorted altitudes, their pairwise combinations, climb and cruise
  time, feasibility, and the nine splits.
- `Ranking`: a stable descending sort by key and the top-n prefix (Python's `sorted` with
  `key=-area` and `[:10]`).
- `TimeFormat`: the `M:SS` rendering of a duration with Python's floor `//` and `%`, and
  a parser that reads it back.
- `Landrun`: scoring a candidate into a table row and the whole ranked search.

Python's float `round(x, 1)` and `round(x, 2)` are a parameter record `Rounding`. The
ranking uses the stored, rounded area, as app.py does.

## Model

| member | source | states |
|---|---|---|
| Kinematics.WindVectorMagnitude | app.py:19-24 | `WindVector`: when sin² + cos² = 1 the drift rate's squared length is the squared speed in m/s (km/h ÷ 3.6) |
| Kinematics.WindVectorDueNorth | app.py:19-24 | a 36 km/h wind at 0° moves the balloon 10 m/s along the north axis and not at all east |
| Kinematics.WindVectorDueEast | app.py:19-24 | a 36 km/h wind at 90° moves the balloon 10 m/s east and not at all north |
| Kinematics.WindVectorLinearInSpeed | app.py:21-23 | scaling the speed scales the wind vector by the same factor |
| Interpolation.Interp | app.py:28-29 | an interpolated value lies between the least and greatest sample values |
| Interpolation.InterpAtSample | app.py:28-29 | at a sampled abscissa the interpolation returns that sample's value exactly |
| Interpolation.InterpClampBelow | app.py:28-29 | at or below the first abscissa the first value is held |
| Interpolation.InterpClampAbove | app.py:28-29 | at or above the last abscissa the last value is held |
| Interpolation.InterpBetweenSamples | app.py:28-29 | between two neighbouring samples the result is the straight line through them |
| Interpolation.InterpWithinSamples | app.py:28-29 | the interpolated value lies between two of the sampled values |
| Interpolation.LerpAtEnds | app.py:28-29 | the segment line `Lerp` passes through both of its end samples |
| Interpolation.LerpBetween | app.py:28-29 | a straight-line value between two samples lies between their two values |
| WindProfile.SortByAltitude | app.py:27 | the sorted profile is a permutation of the table, ordered by altitude, strictly when altitudes are distinct |
| WindProfile.WindWithinTable | app.py:26-29 | `DirectionAt` and `SpeedAt`: at any altitude the direction and the speed each lie between the values of two table rows |
| WindProfile.WindAtSampledAltitude | app.py:26-29 | at a table altitude the lookup returns that row's direction and speed, whatever the row order of the table |
| WindProfile.WindBelowProfile | app.py:26-29 | below the lowest table altitude the lowest row's wind is used |
| WindProfile.WindAboveProfile | app.py:26-29 | above the highest table altitude the highest row's wind is used |
| WindProfile.DirectionMidpointIsMean | app.py:28 | direction is interpolated as a plain number: on a two-row table, halfway between its two altitudes the direction is the mean of the two rows' directions, so 350° and 10° give 180° |
| Candidates.DistinctSorted | app.py:32-33 | the altitudes are strictly increasing and are exactly the values of the table column |
| Candidates.DistinctSortedIsUnique | app.py:32-33 | any strictly increasing list with the same values is that list |
| Candidates.Combinations | app.py:35 | both altitudes of every pair are drawn from the list |
| Candidates.CombinationsCount | app.py:35 | n altitudes give n(n-1)/2 pairs |
| Candidates.CombinationsExactly | app.py:35 | over increasing altitudes a pair is generated iff both altitudes are in the list and h1 < h2, and no pair twice |
| Candidates.CombinationsLexOrdered | app.py:35 | pairs come in lexicographic order, as itertools.combinations emits them |
| Candidates.CombinationsComplete | app.py:35 | every pair of positions i < j appears |
| Candidates.ClimbTime | app.py:36 | the climb time is non-negative and zero exactly when both altitudes coincide |
| Candidates.CruiseTime | app.py:36-37 | the cruise time is at most the flight duration, and equal to it exactly when no climb is needed |
| Candidates.FeasibleIff | app.py:36-39 | a pair is flown exactly when its altitude change in metres is less than climb rate × duration |
| Candidates.FeasiblePairs | app.py:35-39 | a pair is kept iff it is in the input and its cruise time is positive |
| Candidates.FeasiblePairsAppend | app.py:35-39 | the kept pairs stay in `combinations` order, once each: a pair appended to the input is appended to the result exactly when it is feasible |
| Candidates.LongClimbInfeasible | app.py:36-39 | a 3048 ft climb at 1 m/s takes 929.0304 s, so a 600 s flight has no candidate |
| Candidates.SplitCandidateShape | app.py:40-42 | `SplitCandidate`: the two legs share the cruise time k/10 : (10-k)/10, legs plus climb fill the flight, and both legs are positive for a feasible pair |
| Candidates.Splits | app.py:40-42 | a pair gives nine candidates; the one at position i flies the pair's altitudes, gives (i+1)/10 of the cruise time to the first leg, fills the flight with the climb, and has two positive legs when the pair is feasible |
| Candidates.Generate | app.py:35-42 | nine candidates per feasible pair |
| Candidates.GenerateSound | app.py:35-42 | every candidate comes from a feasible pair with two positive legs that fill the flight with the climb |
| Candidates.GenerateLayout | app.py:35-42 | candidate 9i + j is split j+1 of the i-th feasible pair |
| Candidates.SplitDriftBest | app.py:40-42 | for two fixed winds the even split encloses the most area; strictly more when the winds are not parallel |
| Geometry.TriangleAreaKm2 | app.py:49 | the area is non-negative and zero exactly when the three points are collinear |
| Geometry.AreaSymmetric | app.py:49 | swapping the last two points leaves the area unchanged |
| Geometry.AreaTranslationInvariant | app.py:49 | shifting all three points leaves the area unchanged |
| Geometry.TwoLegArea | app.py:46-49 | two drift legs from the origin enclose half the product of the leg times and the wind cross product, in km² |
| Landrun.ScoreFromTable | app.py:43-53 | `Score` between two table altitudes: the path starts at the origin, each leg drifts with the wind vector of the table row at its altitude for its duration, and the reported speeds are the rounded table speeds |
| Landrun.ScoreAreaFromTable | app.py:43-57 | for non-negative leg times, the stored area of such a row is the rounded drift area ½·t1·t2·\|w1 × w2\|/10⁶ of the two table winds |
| Landrun.ScoreAreaFactors | app.py:43-49 | a row's unrounded area is ½ · t1 · t2 · \|wind1 × wind2\| / 10⁶ |
| Landrun.ScoreTimesReadBack | app.py:54-56 | the T1, T2 and Climb texts read back as the whole minutes and leftover seconds of the durations |
| Landrun.SameWindNoArea | app.py:43-49 | identical winds at both altitudes enclose no area |
| Landrun.SplitAreaSymmetric | app.py:40-49 | split k/10 and split (10-k)/10 enclose the same area |
| Landrun.EvenSplitBest | app.py:40-49 | for one pair the 50 : 50 split encloses the most area |
| Landrun.AllCandidates | app.py:32-42 | nine candidates per feasible altitude pair of the table |
| Landrun.SimulateLandrun | app.py:31-60 | min(10, number of candidates) rows, sorted by area descending, drawn from the scored candidates; every scored candidate left out has an area no larger than any kept row |
| Landrun.SimulateLandrunBestFirst | app.py:31-60 | the first row has the largest stored area of every candidate of the profile |
| Landrun.SimulateLandrunStable | app.py:60 | rows of equal area keep their generation order |
| Landrun.SimulateLandrunRows | app.py:31-59 | every row flies table altitudes h1 < h2 from the origin and reports the rounded table speed of each |
| Ranking.SortDesc | app.py:60 | the sort is a permutation, ordered by key descending |
| Ranking.SortDescStable | app.py:60 | elements with equal keys keep their relative order |
| Ranking.Rank | app.py:60 | min(n, \|s\|) elements, ordered by key descending, drawn from the input; every element left out has a key no larger than any kept one |
| Ranking.RankHeadIsBest | app.py:60 | the first kept element has the largest key of the whole input |
| Ranking.RankStable | app.py:60 | the kept elements of each key are the first ones of that key in input order |
| TimeFormat.Seconds | app.py:54-56 | the seconds field is in 0..59 and minutes·60 + seconds is the duration's whole seconds |
| TimeFormat.FormatMinSec | app.py:54-56 | the text is the minutes as Python's `str` writes an integer (no leading zero, minus sign only for a negative number), a colon, and two digits |
| TimeFormat.FormatMinSecUnique | app.py:54-56 | no other text of that shape reads back as the same minutes and seconds, so a spelling with a leading zero is ruled out |
| TimeFormat.NatToDecimal | app.py:54-56 | the digits of a number have no leading zero, and start with '0' exactly when the number is 0 |
| TimeFormat.ParseIntCanonical | app.py:54-56 | a canonical integer text is exactly the rendering of the integer it reads back as |
| TimeFormat.FormatMinSecRoundTrip | app.py:54-56 | parsing `M:SS` gives back the floor minutes and seconds, which recombine to the whole seconds |
| TimeFormat.FormatExamples | app.py:54-56 | 125 s renders as `2:05`, 59 s as `0:59` |
| TimeFormat.IntToDecimalRoundTrip | app.py:54-56 | the decimal rendering of an integer parses back to it |

## Left out

- The Streamlit page: title, inputs and result table (app.py:8-17, 62-78). This is user interface.
- Reading the CSV (app.py:63). This is I/O; the model takes the parsed table as a sequence of rows.
- Plotting the best path (app.py:80-89). This is output only.
- `math.sin`, `math.cos` and π: a parameter record. Their values are real analysis that
  the model does not define. Lemmas about them state the trigonometric facts they rely on.
- Floating-point arithmetic: the model computes over exact reals. `round(x, 1)` and
  `round(x, 2)` are left abstract. `np.linspace(0.1, 0.9, 9)` is the exact k/10.
- Landrun.SimulateLandrun: requires distinct table altitudes. With duplicate altitudes
  `np.interp` meets two samples at one abscissa, and its answer there depends on the
  library's internals.
- Landrun.SimulateLandrun: requires a positive climb rate. The input field enforces at
  least 0.1 m/s (app.py:17). A zero rate would divide by zero at app.py:36.
- Interpolation.Interp: requires at least one sample. `np.interp` raises on empty input. The
  search never interpolates an empty table, because then there are no pairs.
- Wind direction is interpolated linearly without wrap-around at 360°, as the code does
  (see WindProfile.DirectionMidpointIsMean).
- TimeFormat.FormatMinSec: renders any real duration. The search only formats
  non-negative ones, since both legs are positive and climb time is non-negative.
