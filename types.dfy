/// Shared value types of the app: positions, the optional values the React
/// state holds (`Position | null`), and distances that may be infinite.

module Types {

  /** `T | null` in the source. */
  datatype Option<+T> = None | Some(value: T)

  /** A point reported by the location service or produced by the search
      (the source's `Position`): degrees and a millisecond clock reading. */
  datatype Position = Position(latitude: real, longitude: real, timestamp: int)

  /** A bare latitude/longitude pair, as the feature store reports a way's
      `center` and as the flat-earth offset produces a point. */
  datatype Coord = Coord(lat: real, lon: real)

  /** The great-circle distance in metres between two latitude/longitude
      pairs (`getDistance(lat1, lon1, lat2, lon2)`); the haversine formula
      itself is not part of this model, so every component receives it as a
      parameter and nothing is assumed about it. */
  type Metric = (real, real, real, real) -> real

  /** The distance between two positions; their timestamps play no part. */
  function Between(distance: Metric, a: Position, b: Position): real
  {
    distance(a.latitude, a.longitude, b.latitude, b.longitude)
  }

  /** A distance that is `Infinity` when one of its end points is missing. */
  datatype Extended = Finite(value: real) | Infinity
  {
    /** `this <= bound` with JavaScript's ordering of `Infinity`. */
    predicate AtMost(bound: real)
    {
      Finite? && value <= bound
    }
  }

  /** The distance between two optional positions, `Infinity` unless both are present. */
  function DistanceOrInfinity(distance: Metric, a: Option<Position>, b: Option<Position>): (d: Extended)
    ensures d.Infinity? <==> a.None? || b.None?
    ensures d.Finite? ==> d.value == Between(distance, a.value, b.value)
  {
    if a.Some? && b.Some? then Finite(Between(distance, a.value, b.value)) else Infinity
  }

  function Abs(x: real): (r: real)
    ensures r >= 0.0 && (r == x || r == -x)
  {
    if x < 0.0 then -x else x
  }

  /** The elements of `s` that `keep` accepts, in their original order
      (`Array.prototype.filter`). */
  function Filter<T>(s: seq<T>, keep: T -> bool): (r: seq<T>)
    ensures |r| <= |s|
  {
    if s == [] then [] else (if keep(s[0]) then [s[0]] else []) + Filter(s[1..], keep)
  }

  /** What `Filter` keeps: every kept element is an accepted element of the
      input, and every accepted element of the input is kept. */
  lemma {:induction false} FilterMembers<T>(s: seq<T>, keep: T -> bool)
    ensures forall i :: 0 <= i < |Filter(s, keep)| ==> Filter(s, keep)[i] in s && keep(Filter(s, keep)[i])
    ensures forall i :: 0 <= i < |s| && keep(s[i]) ==> s[i] in Filter(s, keep)
  {
    if s != [] {
      FilterMembers(s[1..], keep);
      var r := Filter(s, keep);
      var head := if keep(s[0]) then [s[0]] else [];
      assert r == head + Filter(s[1..], keep);
      forall i | 0 <= i < |r| ensures r[i] in s && keep(r[i]) {
        if i >= |head| {
          assert r[i] == Filter(s[1..], keep)[i - |head|];
        }
      }
      forall i | 0 <= i < |s| && keep(s[i]) ensures s[i] in r {
        if i > 0 {
          assert s[i] == s[1..][i - 1];
        }
      }
    }
  }

  /** Filtering commutes with concatenation, so it keeps the relative order of
      what it keeps. */
  lemma {:induction false} FilterConcat<T>(a: seq<T>, b: seq<T>, keep: T -> bool)
    ensures Filter(a + b, keep) == Filter(a, keep) + Filter(b, keep)
  {
    if a == [] {
      assert a + b == b;
    } else {
      var head := if keep(a[0]) then [a[0]] else [];
      assert (a + b)[0] == a[0] && (a + b)[1..] == a[1..] + b;
      FilterConcat(a[1..], b, keep);
      calc {
        Filter(a + b, keep);
        head + Filter(a[1..] + b, keep);
        head + (Filter(a[1..], keep) + Filter(b, keep));
        (head + Filter(a[1..], keep)) + Filter(b, keep);
        Filter(a, keep) + Filter(b, keep);
      }
    }
  }

  /** Nothing is kept when `keep` accepts no element. */
  lemma {:induction false} FilterNone<T>(s: seq<T>, keep: T -> bool)
    requires forall i :: 0 <= i < |s| ==> !keep(s[i])
    ensures Filter(s, keep) == []
  {
    if s != [] {
      FilterNone(s[1..], keep);
    }
  }

  /** Whether some element of `s` satisfies `p` (`Array.prototype.some`). */
  function AnySatisfies<T>(s: seq<T>, p: T -> bool): (r: bool)
    ensures r <==> exists i :: 0 <= i < |s| && p(s[i])
  {
    if s == [] then false else p(s[0]) || AnySatisfies(s[1..], p)
  }
}
