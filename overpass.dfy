/// The response shaping of `fetchSafePoints` and `checkForHazards`: what the
/// search keeps of an Overpass `out center` answer. The HTTP request, its
/// query text and the courtesy delay before it are the caller's `Response`.

module Overpass {
  import opened Types

  /** One element of a response: its `type`, its computed `center` (absent
      when the store could not compute one) and its tags. An element without
      a `tags` object behaves as one with no tags. */
  datatype Element = Element(kind: string, center: Option<Coord>, tags: map<string, string>)

  /** The outcome of one request. `Failed` stands for every path into the
      `catch` blocks (network error, service error, a payload without an
      element array); `clock` is the `Date.now()` reading with which the
      fetched points are stamped. */
  datatype Response = Failed | Received(elements: seq<Element>, clock: int)

  datatype HazardFlags = HazardFlags(hasRailway: bool, hasHighway: bool, hasIndustrial: bool)
  {
    /** Whether the candidate is rejected. */
    predicate Any()
    {
      hasRailway || hasHighway || hasIndustrial
    }
  }

  /** `el.type === "way" && el.center` */
  predicate IsWayWithCenter(e: Element)
  {
    e.kind == "way" && e.center.Some?
  }

  /** The elements both queries keep, in response order. */
  function Ways(elements: seq<Element>): (ways: seq<Element>)
    ensures forall i :: 0 <= i < |ways| ==> IsWayWithCenter(ways[i])
  {
    FilterMembers(elements, IsWayWithCenter);
    Filter(elements, IsWayWithCenter)
  }

  /** A kept element as a point, stamped with the response's clock. */
  function AsPosition(e: Element, clock: int): (p: Position)
    requires IsWayWithCenter(e)
    ensures p.latitude == e.center.value.lat && p.longitude == e.center.value.lon
    ensures p.timestamp == clock
  {
    Position(e.center.value.lat, e.center.value.lon, clock)
  }

  /** `fetchSafePoints` after its request: the centres of the ways, or no
      points at all when the request failed. */
  function FetchSafePoints(response: Response): (points: seq<Position>)
    ensures response.Failed? ==> points == []
  {
    match response
    case Failed => []
    case Received(elements, clock) =>
      var ways := Ways(elements);
      seq(|ways|, i requires 0 <= i < |ways| => AsPosition(ways[i], clock))
  }

  /** The fetched points are the kept ways' centres, one per way, in
      response order, each stamped with the response's clock. */
  lemma FetchSafePointsAreWayCentres(elements: seq<Element>, clock: int)
    ensures |FetchSafePoints(Received(elements, clock))| == |Ways(elements)|
    ensures forall i :: 0 <= i < |Ways(elements)| ==>
      FetchSafePoints(Received(elements, clock))[i] == AsPosition(Ways(elements)[i], clock)
  {
  }

  /** A way survives into the fetched points exactly when it is a way with a
      centre, and the survivors of two parts of a response come out part by
      part, so nothing is reordered. */
  lemma WaysAreExactlyTheKeptElements(a: seq<Element>, b: seq<Element>)
    ensures forall e :: e in Ways(a) <==> e in a && IsWayWithCenter(e)
    ensures Ways(a + b) == Ways(a) + Ways(b)
  {
    FilterConcat(a, b, IsWayWithCenter);
    FilterMembers(a, IsWayWithCenter);
    forall e | e in a && IsWayWithCenter(e) ensures e in Ways(a) {
      var i :| 0 <= i < |a| && a[i] == e;
    }
  }

  /** Whether `part` occurs in `s` as a contiguous piece; the effect of a
      regular expression of plain letters such as `/trunk/`. */
  predicate Contains(s: string, part: string)
    decreases |s|
  {
    part <= s || (|s| > 0 && Contains(s[1..], part))
  }

  /** `Contains` agrees with "some suffix of `s` starts with `part`". */
  lemma {:induction false} ContainsIffSomeSuffix(s: string, part: string)
    ensures Contains(s, part) <==> exists i :: 0 <= i <= |s| && part <= s[i..]
  {
    if part <= s {
      assert part <= s[0..];
    } else if |s| == 0 {
      forall i | 0 <= i <= |s| ensures !(part <= s[i..]) {
        assert s[i..] == s;
      }
    } else {
      ContainsIffSomeSuffix(s[1..], part);
      if exists i :: 0 <= i <= |s| && part <= s[i..] {
        var i :| 0 <= i <= |s| && part <= s[i..];
        assert s[0..] == s;
        assert s[1..][i - 1..] == s[i..];
      }
      if Contains(s[1..], part) {
        var i :| 0 <= i <= |s[1..]| && part <= s[1..][i..];
        assert s[1..][i..] == s[i + 1..];
      }
    }
  }

  /** `el.tags && el.tags["railway"]`: present and not the empty string. */
  predicate HasRailwayTag(e: Element)
  {
    "railway" in e.tags && e.tags["railway"] != ""
  }

  /** `el.tags["highway"]?.match(/motorway|trunk/)` */
  predicate HasMajorRoadTag(e: Element)
  {
    "highway" in e.tags && (Contains(e.tags["highway"], "motorway") || Contains(e.tags["highway"], "trunk"))
  }

  /** `el.tags["landuse"] === "industrial"` */
  predicate HasIndustrialTag(e: Element)
  {
    "landuse" in e.tags && e.tags["landuse"] == "industrial"
  }

  /** `checkForHazards` after its request: each flag says whether some kept
      way carries that hazard, and a failed request raises no flag. */
  function CheckForHazards(response: Response): (flags: HazardFlags)
    ensures response.Failed? ==> !flags.Any()
  {
    match response
    case Failed => HazardFlags(false, false, false)
    case Received(elements, _) =>
      HazardFlags(AnySatisfies(Ways(elements), HasRailwayTag),
                  AnySatisfies(Ways(elements), HasMajorRoadTag),
                  AnySatisfies(Ways(elements), HasIndustrialTag))
  }

  /** Each flag of an answered hazard request is an existential over the
      response's ways with a centre. */
  lemma HazardFlagsAreExistentials(elements: seq<Element>, clock: int)
    ensures CheckForHazards(Received(elements, clock)).hasRailway <==>
      exists e :: e in elements && IsWayWithCenter(e) && HasRailwayTag(e)
    ensures CheckForHazards(Received(elements, clock)).hasHighway <==>
      exists e :: e in elements && IsWayWithCenter(e) && HasMajorRoadTag(e)
    ensures CheckForHazards(Received(elements, clock)).hasIndustrial <==>
      exists e :: e in elements && IsWayWithCenter(e) && HasIndustrialTag(e)
  {
    WaysAreExactlyTheKeptElements(elements, []);
  }
}
