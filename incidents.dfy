/** Hazard avoidance (internal/domain/services/incidents.go): a circle that
    encloses every location of a route request, the incidents the incident
    service reports inside it, and their projection to points the routing
    engine must avoid. */
module Incidents {
  import opened Common
  import opened DomainTypes

  type NonNegReal = r: real | r >= 0.0

  /** Great-circle distance in metres between (lat1, lon1) and (lat2, lon2).
      The trigonometry is not part of this model: only the sign of the
      result is relied on. */
  type Haversine = (real, real, real, real) -> NonNegReal

  /** The fields of an incident that the avoidance logic reads. */
  datatype Incident = Incident(id: int, latitude: real, longitude: real, distance: real)

  /** `IncidentsInRadius(lat, lon, radius)`: the incidents within `radius`
      metres of the point, or the client's error. */
  type IncidentsClient = (real, real, nat) -> Result<seq<Incident>, ClientError>

  /** A centre and a radius in whole metres (Go's `RadiusMeter`, a `uint`). */
  datatype Circle = Circle(centerLat: real, centerLon: real, radius: nat)

  /** The running sums of the first loop, accumulated front to back. */
  function SumLat(ps: seq<Point>): real
  {
    if |ps| == 0 then 0.0 else SumLat(ps[..|ps| - 1]) + ps[|ps| - 1].lat
  }

  function SumLon(ps: seq<Point>): real
  {
    if |ps| == 0 then 0.0 else SumLon(ps[..|ps| - 1]) + ps[|ps| - 1].lon
  }

  /** The largest distance from the centre to a location, starting from 0. */
  function MaxDistance(h: Haversine, cLat: real, cLon: real, ps: seq<Point>): (r: real)
    ensures r >= 0.0
    ensures forall k :: 0 <= k < |ps| ==> h(cLat, cLon, ps[k].lat, ps[k].lon) <= r
    ensures r == 0.0 || exists k :: 0 <= k < |ps| && r == h(cLat, cLon, ps[k].lat, ps[k].lon)
  {
    if |ps| == 0 then 0.0
    else
      var m := MaxDistance(h, cLat, cLon, ps[..|ps| - 1]);
      var d := h(cLat, cLon, ps[|ps| - 1].lat, ps[|ps| - 1].lon);
      assert forall k :: 0 <= k < |ps| - 1 ==> ps[..|ps| - 1][k] == ps[k];
      if d > m then d else m
  }

  /** The circle `computeLocationsBoundingCircle` returns: the mean of the
      latitudes and of the longitudes, and 1.6 times the largest distance
      from that centre, truncated to whole metres. */
  function BoundingCircle(h: Haversine, ps: seq<Point>): (c: Circle)
    requires |ps| > 0
    ensures c.radius as real <= 1.6 * MaxDistance(h, c.centerLat, c.centerLon, ps) < c.radius as real + 1.0
  {
    var cLat := SumLat(ps) / |ps| as real;
    var cLon := SumLon(ps) / |ps| as real;
    Circle(cLat, cLon, (MaxDistance(h, cLat, cLon, ps) * 1.6).Floor)
  }

  /** `computeLocationsBoundingCircle`: one loop sums the coordinates, a
      second one keeps the running maximum distance. */
  method ComputeLocationsBoundingCircle(h: Haversine, locations: seq<Point>)
    returns (centerLat: real, centerLon: real, radius: nat)
    requires |locations| > 0
    ensures Circle(centerLat, centerLon, radius) == BoundingCircle(h, locations)
  {
    var sumLat, sumLon := 0.0, 0.0;
    for i := 0 to |locations|
      invariant sumLat == SumLat(locations[..i])
      invariant sumLon == SumLon(locations[..i])
    {
      assert locations[..i + 1][..i] == locations[..i];
      sumLat := sumLat + locations[i].lat;
      sumLon := sumLon + locations[i].lon;
    }
    assert locations[..|locations|] == locations;
    centerLat := sumLat / |locations| as real;
    centerLon := sumLon / |locations| as real;

    var maxDist := 0.0;
    for i := 0 to |locations|
      invariant maxDist == MaxDistance(h, centerLat, centerLon, locations[..i])
    {
      assert locations[..i + 1][..i] == locations[..i];
      var dist := h(centerLat, centerLon, locations[i].lat, locations[i].lon);
      if dist > maxDist {
        maxDist := dist;
      }
    }
    radius := (maxDist * 1.6).Floor;
  }

  lemma {:induction false} SumLatBounds(ps: seq<Point>, lo: real, hi: real)
    requires forall k :: 0 <= k < |ps| ==> lo <= ps[k].lat <= hi
    ensures |ps| as real * lo <= SumLat(ps) <= |ps| as real * hi
  {
    if |ps| > 0 {
      SumLatBounds(ps[..|ps| - 1], lo, hi);
    }
  }

  lemma {:induction false} SumLonBounds(ps: seq<Point>, lo: real, hi: real)
    requires forall k :: 0 <= k < |ps| ==> lo <= ps[k].lon <= hi
    ensures |ps| as real * lo <= SumLon(ps) <= |ps| as real * hi
  {
    if |ps| > 0 {
      SumLonBounds(ps[..|ps| - 1], lo, hi);
    }
  }

  lemma MeanBounds(sum: real, n: real, lo: real, hi: real)
    requires n > 0.0
    requires n * lo <= sum <= n * hi
    ensures lo <= sum / n <= hi
  {
    assert (sum / n) * n == sum;
  }

  /** The centre is a mean: it lies in every latitude and longitude range
      that holds all the locations. */
  lemma CenterWithinBounds(h: Haversine, ps: seq<Point>, loLat: real, hiLat: real, loLon: real, hiLon: real)
    requires |ps| > 0
    requires forall k :: 0 <= k < |ps| ==> loLat <= ps[k].lat <= hiLat && loLon <= ps[k].lon <= hiLon
    ensures loLat <= BoundingCircle(h, ps).centerLat <= hiLat
    ensures loLon <= BoundingCircle(h, ps).centerLon <= hiLon
  {
    SumLatBounds(ps, loLat, hiLat);
    SumLonBounds(ps, loLon, hiLon);
    MeanBounds(SumLat(ps), |ps| as real, loLat, hiLat);
    MeanBounds(SumLon(ps), |ps| as real, loLon, hiLon);
  }

  /** Every location lies within the circle's radius, up to the truncation to
      whole metres: its distance from the centre is at most (radius + 1) / 1.6. */
  lemma RadiusCoversLocations(h: Haversine, ps: seq<Point>, k: nat)
    requires 0 <= k < |ps|
    ensures var c := BoundingCircle(h, ps);
            1.6 * h(c.centerLat, c.centerLon, ps[k].lat, ps[k].lon) < c.radius as real + 1.0
  {
  }

  /** What the comment on `computeLocationsBoundingCircle` promises, a circle
      enclosing every location, holds once the largest distance reaches 5/3
      of a metre: from there on 1.6 times it, less the at most one metre the
      truncation drops, is still at least the distance itself. */
  lemma CircleEnclosesLocations(h: Haversine, ps: seq<Point>, k: nat)
    requires 0 <= k < |ps|
    requires var c := BoundingCircle(h, ps); MaxDistance(h, c.centerLat, c.centerLon, ps) >= 5.0 / 3.0
    ensures var c := BoundingCircle(h, ps);
            h(c.centerLat, c.centerLon, ps[k].lat, ps[k].lon) <= c.radius as real
  {
    var c := BoundingCircle(h, ps);
    var m := MaxDistance(h, c.centerLat, c.centerLon, ps);
    assert h(c.centerLat, c.centerLon, ps[k].lat, ps[k].lon) <= m;
    assert m <= 1.6 * m - 1.0;
  }

  /** Below that the promise fails: when every location lies within 0.625 m
      of the centre, 1.6 times the largest distance is under one metre, the
      radius truncates to 0, and any location off the centre lies outside
      the circle (two locations a metre apart are an instance). */
  lemma SmallSpreadEscapesCircle(h: Haversine, ps: seq<Point>, k: nat)
    requires 0 <= k < |ps|
    requires var c := BoundingCircle(h, ps);
             && (forall j :: 0 <= j < |ps| ==> h(c.centerLat, c.centerLon, ps[j].lat, ps[j].lon) < 0.625)
             && h(c.centerLat, c.centerLon, ps[k].lat, ps[k].lon) > 0.0
    ensures var c := BoundingCircle(h, ps);
            c.radius == 0 && c.radius as real < h(c.centerLat, c.centerLon, ps[k].lat, ps[k].lon)
  {
    var c := BoundingCircle(h, ps);
    var m := MaxDistance(h, c.centerLat, c.centerLon, ps);
    assert m < 0.625 by {
      if m != 0.0 {
        var j :| 0 <= j < |ps| && m == h(c.centerLat, c.centerLon, ps[j].lat, ps[j].lon);
      }
    }
  }

  /** The avoidance point of each incident, in the order the service listed
      them. */
  function IncidentPoints(incidents: seq<Incident>): (ps: seq<Point>)
    ensures |ps| == |incidents|
    ensures forall k :: 0 <= k < |ps| ==> ps[k] == Point(incidents[k].latitude, incidents[k].longitude)
  {
    seq(|incidents|, k requires 0 <= k < |incidents| => Point(incidents[k].latitude, incidents[k].longitude))
  }

  class IncidentsService {
    const client: IncidentsClient
    /** The distance function of the package, carried by the service so that
        its specification functions can name it. */
    const haversine: Haversine

    constructor(client: IncidentsClient, haversine: Haversine)
      ensures this.client == client && this.haversine == haversine
    {
      this.client := client;
      this.haversine := haversine;
    }

    /** The points to avoid around `locations`: the incident service is asked
        for the bounding circle; its failure yields no points, never an
        error. */
    function AvoidancePoints(locations: seq<Point>): (ps: seq<Point>)
      requires |locations| > 0
    {
      var c := BoundingCircle(haversine, locations);
      match client(c.centerLat, c.centerLon, c.radius)
      case Err(_) => []
      case Ok(incidents) => IncidentPoints(incidents)
    }

    method IncidentsAroundLocations(locations: seq<Point>) returns (points: seq<Point>)
      requires |locations| > 0
      ensures points == AvoidancePoints(locations)
      ensures var c := BoundingCircle(haversine, locations);
              match client(c.centerLat, c.centerLon, c.radius)
              case Err(_) => points == []
              case Ok(incidents) => points == IncidentPoints(incidents)
    {
      var centerLat, centerLon, radius := ComputeLocationsBoundingCircle(haversine, locations);
      var answer := client(centerLat, centerLon, radius);
      if answer.Err? {
        return [];
      }
      var incidents := answer.value;
      points := [];
      for i := 0 to |incidents|
        invariant points == IncidentPoints(incidents[..i])
      {
        points := points + [Point(incidents[i].latitude, incidents[i].longitude)];
      }
      assert incidents[..|incidents|] == incidents;
    }
  }
}
