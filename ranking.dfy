/// How one attempt of the search turns fetched points into the ordered list
/// of candidates it hazard-checks: measure each point's distance from the
/// origin, keep those in the tolerance band, and sort by closeness to the
/// target distance with a stable sort.

module Ranking {
  import opened Types

  /** A fetched point together with its distance from the search's origin
      (the `{ ...point, distance }` objects of the source). */
  datatype Candidate = Candidate(point: Position, distance: real)

  /** The sort key: `Math.abs(candidate.distance - targetDistance)`. */
  function Closeness(c: Candidate, target: real): real
  {
    Abs(c.distance - target)
  }

  /** Every fetched point with its distance measured from the origin, not
      from the trial point the terrain query was centred on. */
  function Measure(distance: Metric, origin: Coord, points: seq<Position>): seq<Candidate>
  {
    seq(|points|, i requires 0 <= i < |points| =>
      Candidate(points[i], distance(origin.lat, origin.lon, points[i].latitude, points[i].longitude)))
  }

  /** `minDistance <= distance <= maxDistance`, both ends included. */
  predicate InBand(c: Candidate, minDistance: real, maxDistance: real)
  {
    minDistance <= c.distance <= maxDistance
  }

  function WithinBand(cs: seq<Candidate>, minDistance: real, maxDistance: real): seq<Candidate>
  {
    Filter(cs, c => InBand(c, minDistance, maxDistance))
  }

  /** A candidate survives the band filter exactly when its distance lies in
      the closed band, and survivors keep their fetch order. */
  lemma WithinBandKeepsExactlyTheBand(a: seq<Candidate>, b: seq<Candidate>, minDistance: real, maxDistance: real)
    ensures forall c :: c in WithinBand(a, minDistance, maxDistance) <==> c in a && minDistance <= c.distance <= maxDistance
    ensures WithinBand(a + b, minDistance, maxDistance) == WithinBand(a, minDistance, maxDistance) + WithinBand(b, minDistance, maxDistance)
  {
    FilterConcat(a, b, c => InBand(c, minDistance, maxDistance));
    FilterMembers(a, c => InBand(c, minDistance, maxDistance));
    forall c | c in a && minDistance <= c.distance <= maxDistance
      ensures c in WithinBand(a, minDistance, maxDistance)
    {
      var i :| 0 <= i < |a| && a[i] == c;
    }
  }

  /** Non-decreasing closeness to the target along the list. */
  predicate Ascending(cs: seq<Candidate>, target: real)
  {
    forall i, j :: 0 <= i < j < |cs| ==> Closeness(cs[i], target) <= Closeness(cs[j], target)
  }

  /** Places `c` in front of the first element that is not strictly closer
      than it, so `c` precedes the elements it ties with. */
  function Insert(c: Candidate, cs: seq<Candidate>, target: real): seq<Candidate>
  {
    if cs == [] || Closeness(c, target) <= Closeness(cs[0], target) then [c] + cs
    else [cs[0]] + Insert(c, cs[1..], target)
  }

  /** The order in which the source hazard-checks the in-band candidates:
      `validCandidates.sort((a, b) => closeness(a) - closeness(b))`, a stable
      sort, written as an insertion sort. */
  function SortByCloseness(cs: seq<Candidate>, target: real): seq<Candidate>
  {
    if cs == [] then [] else Insert(cs[0], SortByCloseness(cs[1..], target), target)
  }

  lemma {:induction false} InsertPermutes(c: Candidate, cs: seq<Candidate>, target: real)
    ensures multiset(Insert(c, cs, target)) == multiset(cs) + multiset{c}
  {
    if cs != [] && Closeness(cs[0], target) < Closeness(c, target) {
      InsertPermutes(c, cs[1..], target);
      assert cs == [cs[0]] + cs[1..];
    }
  }

  lemma {:induction false} InsertKeepsAscending(c: Candidate, cs: seq<Candidate>, target: real)
    requires Ascending(cs, target)
    ensures Ascending(Insert(c, cs, target), target)
  {
    if cs != [] && Closeness(cs[0], target) < Closeness(c, target) {
      var rest := Insert(c, cs[1..], target);
      assert Ascending(cs[1..], target);
      InsertKeepsAscending(c, cs[1..], target);
      InsertPermutes(c, cs[1..], target);
      forall j | 0 <= j < |rest| ensures Closeness(cs[0], target) <= Closeness(rest[j], target) {
        assert rest[j] in multiset(cs[1..]) + multiset{c};
        if rest[j] != c {
          var m :| 0 <= m < |cs[1..]| && cs[1..][m] == rest[j];
          assert cs[m + 1] == rest[j];
        }
      }
    }
  }

  /** The sort returns a permutation of the in-band candidates, closest to
      the target first. */
  lemma {:induction false} SortByClosenessSorts(cs: seq<Candidate>, target: real)
    ensures multiset(SortByCloseness(cs, target)) == multiset(cs)
    ensures Ascending(SortByCloseness(cs, target), target)
  {
    if cs != [] {
      SortByClosenessSorts(cs[1..], target);
      InsertPermutes(cs[0], SortByCloseness(cs[1..], target), target);
      InsertKeepsAscending(cs[0], SortByCloseness(cs[1..], target), target);
      assert cs == [cs[0]] + cs[1..];
    }
  }

  /** The candidates whose closeness is exactly `key`, in list order. */
  function WithCloseness(cs: seq<Candidate>, target: real, key: real): seq<Candidate>
  {
    Filter(cs, c => Closeness(c, target) == key)
  }

  lemma {:induction false} InsertKeepsTies(c: Candidate, cs: seq<Candidate>, target: real, key: real)
    ensures WithCloseness(Insert(c, cs, target), target, key) ==
      (if Closeness(c, target) == key then [c] else []) + WithCloseness(cs, target, key)
  {
    var keep := (x: Candidate) => Closeness(x, target) == key;
    if cs == [] || Closeness(c, target) <= Closeness(cs[0], target) {
      FilterConcat([c], cs, keep);
    } else {
      InsertKeepsTies(c, cs[1..], target, key);
      FilterConcat([cs[0]], Insert(c, cs[1..], target), keep);
      FilterConcat([cs[0]], cs[1..], keep);
      assert [cs[0]] + cs[1..] == cs;
    }
  }

  /** The sort is stable: candidates equally close to the target come out in
      the order in which they were fetched. */
  lemma {:induction false} SortIsStable(cs: seq<Candidate>, target: real, key: real)
    ensures WithCloseness(SortByCloseness(cs, target), target, key) == WithCloseness(cs, target, key)
  {
    if cs != [] {
      SortIsStable(cs[1..], target, key);
      InsertKeepsTies(cs[0], SortByCloseness(cs[1..], target), target, key);
      FilterConcat([cs[0]], cs[1..], (x: Candidate) => Closeness(x, target) == key);
      assert [cs[0]] + cs[1..] == cs;
    }
  }

  /** The candidates one attempt checks, in checking order: the fetched
      points measured from the origin, kept when in the band, sorted by
      closeness to the target. */
  function Rank(distance: Metric, origin: Coord, points: seq<Position>, minDistance: real, maxDistance: real, target: real): seq<Candidate>
  {
    SortByCloseness(WithinBand(Measure(distance, origin, points), minDistance, maxDistance), target)
  }

  /** The ranked candidates are exactly the fetched points whose distance
      from the origin lies in the closed band, each carrying that distance,
      and they are sorted by closeness to the target. */
  lemma RankIsTheBand(distance: Metric, origin: Coord, points: seq<Position>, minDistance: real, maxDistance: real, target: real)
    ensures Ascending(Rank(distance, origin, points, minDistance, maxDistance, target), target)
    ensures forall c :: c in Rank(distance, origin, points, minDistance, maxDistance, target) <==>
      c.point in points &&
      c.distance == distance(origin.lat, origin.lon, c.point.latitude, c.point.longitude) &&
      minDistance <= c.distance <= maxDistance
  {
    var measured := Measure(distance, origin, points);
    var valid := WithinBand(measured, minDistance, maxDistance);
    var ranked := SortByCloseness(valid, target);
    SortByClosenessSorts(valid, target);
    WithinBandKeepsExactlyTheBand(measured, [], minDistance, maxDistance);
    forall c: Candidate ensures c in ranked <==> c in valid {
      assert c in ranked <==> c in multiset(ranked);
    }
    forall c: Candidate | c.point in points && c.distance == distance(origin.lat, origin.lon, c.point.latitude, c.point.longitude)
      ensures c in measured
    {
      var i :| 0 <= i < |points| && points[i] == c.point;
      assert measured[i] == c;
    }
  }
}
