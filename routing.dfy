/** The route aggregator (internal/domain/services/routing.go): it widens a
    route request with the incidents around its locations, asks the routing
    engine, and maps the engine's primary trip and alternates to the
    gateway's own trip shape, decoding every leg's geometry. */
module Routing {
  import opened Common
  import V = ValhallaTypes
  import opened DomainTypes
  import Polyline
  import Incidents

  /** `mapValhallaLeg` fails only when the leg's shape does not decode. */
  type LegError = Polyline.DecodeError

  /** `MapValhallaTrip` reports the index of the first leg that failed. */
  datatype TripError = LegFailed(index: nat, cause: LegError)

  datatype RouteError =
    | RoutingFailed(clientError: ClientError)
    | TripMappingFailed(tripError: TripError)

  /** Precision of the shapes the routing engine returns. */
  const ShapePrecision: int := 6

  /** Go's zero values, which `make` puts in a fresh slice. */
  const ZeroManeuver: Maneuver := Maneuver(0, "", None, 0.0, 0.0, 0, 0, None)
  const ZeroLeg: Leg := Leg([], Summary(0.0, 0.0), [])

  /** A maneuver keeps the fields the gateway publishes; an absent list of
      street names is published as the empty list, never as null. */
  function MapManeuver(m: V.Maneuver): (r: Maneuver)
    ensures r.streetNames.Some?
    ensures m.streetNames.Some? ==> r.streetNames == m.streetNames
    ensures m.streetNames.None? ==> r.streetNames == Some([])
    ensures r.(streetNames := m.streetNames) ==
            Maneuver(m.maneuverType, m.instruction, m.streetNames, m.time, m.length,
                     m.beginShapeIndex, m.endShapeIndex, m.roundaboutExitCount)
  {
    Maneuver(m.maneuverType, m.instruction, if m.streetNames.None? then Some([]) else m.streetNames,
             m.time, m.length, m.beginShapeIndex, m.endShapeIndex, m.roundaboutExitCount)
  }

  /** A leg maps when its shape decodes at precision 6: the maneuvers are
      mapped one for one, the summary keeps its time and length, and the
      shape is the decoded point list. */
  function MapLeg(vl: V.Leg): (r: Result<Leg, LegError>)
    ensures r.Ok? <==> Polyline.Decode(vl.shape, ShapePrecision).Ok?
    ensures r.Err? ==> r.error == Polyline.Decode(vl.shape, ShapePrecision).error
    ensures r.Ok? ==>
              && |r.value.maneuvers| == |vl.maneuvers|
              && (forall k :: 0 <= k < |vl.maneuvers| ==> r.value.maneuvers[k] == MapManeuver(vl.maneuvers[k]))
              && r.value.summary == Summary(vl.summary.time, vl.summary.length)
              && r.value.shape == Polyline.Decode(vl.shape, ShapePrecision).value
  {
    match Polyline.Decode(vl.shape, ShapePrecision)
    case Err(e) => Err(e)
    case Ok(shape) =>
      Ok(Leg(seq(|vl.maneuvers|, k requires 0 <= k < |vl.maneuvers| => MapManeuver(vl.maneuvers[k])),
             Summary(vl.summary.time, vl.summary.length),
             shape))
  }

  /** A trip maps when every leg does: legs keep their number and order,
      locations pass through unchanged and the summary keeps its time and
      length; otherwise the first failing leg decides the error. */
  function MapTrip(vt: V.Trip): (r: Result<Trip, TripError>)
    ensures r.Ok? <==> forall k :: 0 <= k < |vt.legs| ==> MapLeg(vt.legs[k]).Ok?
    ensures r.Ok? ==>
              && r.value.locations == vt.locations
              && |r.value.legs| == |vt.legs|
              && (forall k :: 0 <= k < |vt.legs| ==> MapLeg(vt.legs[k]) == Ok(r.value.legs[k]))
              && r.value.summary == Summary(vt.summary.time, vt.summary.length)
    ensures r.Err? ==>
              && r.error.index < |vt.legs|
              && MapLeg(vt.legs[r.error.index]) == Err(r.error.cause)
              && forall k :: 0 <= k < r.error.index ==> MapLeg(vt.legs[k]).Ok?
  {
    match Traverse(MapLeg, vt.legs)
    case Err(f) => Err(LegFailed(f.index, f.cause))
    case Ok(legs) => Ok(Trip(vt.locations, legs, Summary(vt.summary.time, vt.summary.length)))
  }

  function MapAlternate(a: V.Alternate): Result<Trip, TripError>
  {
    MapTrip(a.trip)
  }

  /** The trips of a routing answer: the primary trip first, then the
      alternates in the engine's order, unless one of them fails to map. */
  function RouteTrips(resp: V.RouteResponse): Result<seq<Trip>, TripError>
  {
    match MapTrip(resp.trip)
    case Err(e) => Err(e)
    case Ok(main) =>
      match Traverse(MapAlternate, resp.alternates)
      case Err(f) => Err(f.cause)
      case Ok(alts) => Ok([main] + alts)
  }

  /** One trip per route: the answer succeeds exactly when the primary trip
      and every alternate map; it then holds 1 + |alternates| trips, the
      primary first and the alternates in order. A primary trip that fails
      to map decides the error. */
  lemma RouteTripsOrder(resp: V.RouteResponse)
    ensures RouteTrips(resp).Ok? <==>
              MapTrip(resp.trip).Ok? && forall k :: 0 <= k < |resp.alternates| ==> MapTrip(resp.alternates[k].trip).Ok?
    ensures RouteTrips(resp).Ok? ==>
              var trips := RouteTrips(resp).value;
              && |trips| == 1 + |resp.alternates|
              && Ok(trips[0]) == MapTrip(resp.trip)
              && forall k :: 0 <= k < |resp.alternates| ==> Ok(trips[k + 1]) == MapTrip(resp.alternates[k].trip)
    ensures MapTrip(resp.trip).Err? ==> RouteTrips(resp) == Err(MapTrip(resp.trip).error)
  {
    if MapTrip(resp.trip).Ok? {
      var alts := Traverse(MapAlternate, resp.alternates);
      assert forall k :: 0 <= k < |resp.alternates| ==> MapAlternate(resp.alternates[k]) == MapTrip(resp.alternates[k].trip);
    }
  }

  lemma RouteTripsAlternateFails(resp: V.RouteResponse, main: Trip, i: nat, e: TripError)
    requires MapTrip(resp.trip) == Ok(main)
    requires i < |resp.alternates|
    requires forall k :: 0 <= k < i ==> MapAlternate(resp.alternates[k]).Ok?
    requires MapAlternate(resp.alternates[i]) == Err(e)
    ensures RouteTrips(resp) == Err(e)
  {
    TraverseFirstFailure(MapAlternate, resp.alternates, i, e);
  }

  lemma RouteTripsAllMapped(resp: V.RouteResponse, trips: seq<Trip>)
    requires |trips| == 1 + |resp.alternates|
    requires MapTrip(resp.trip) == Ok(trips[0])
    requires forall k :: 0 <= k < |resp.alternates| ==> MapAlternate(resp.alternates[k]) == Ok(trips[k + 1])
    ensures RouteTrips(resp) == Ok(trips)
  {
    TraverseAllOk(MapAlternate, resp.alternates, trips[1..]);
    assert trips == [trips[0]] + trips[1..];
  }

  /** The points of the requested locations, in order. */
  function LocationPoints(locations: seq<V.LocationRequest>): (ps: seq<Point>)
    ensures |ps| == |locations|
    ensures forall k :: 0 <= k < |ps| ==> ps[k] == Point(locations[k].lat, locations[k].lon)
  {
    seq(|locations|, k requires 0 <= k < |locations| => Point(locations[k].lat, locations[k].lon))
  }

  /** Points to avoid, in the routing engine's exclusion format. */
  function ExcludesOf(points: seq<Point>): (es: seq<V.ExcludeLocation>)
    ensures |es| == |points|
    ensures forall k :: 0 <= k < |es| ==> es[k] == V.ExcludeLocation(points[k].lat, points[k].lon)
  {
    seq(|points|, k requires 0 <= k < |points| => V.ExcludeLocation(points[k].lat, points[k].lon))
  }

  /** `extractPointsFromLocations`. */
  method ExtractPointsFromLocations(locations: seq<V.LocationRequest>) returns (points: seq<Point>)
    ensures points == LocationPoints(locations)
  {
    points := [];
    for i := 0 to |locations|
      invariant points == LocationPoints(locations[..i])
    {
      points := points + [Point(locations[i].lat, locations[i].lon)];
    }
    assert locations[..|locations|] == locations;
  }

  /** `pointsToExcludeLocations`. */
  method PointsToExcludeLocations(points: seq<Point>) returns (excludes: seq<V.ExcludeLocation>)
    ensures excludes == ExcludesOf(points)
  {
    excludes := [];
    for i := 0 to |points|
      invariant excludes == ExcludesOf(points[..i])
    {
      excludes := excludes + [V.ExcludeLocation(points[i].lat, points[i].lon)];
    }
    assert points[..|points|] == points;
  }

  /** `mapValhallaLeg`: fills the maneuvers by index, patches a missing
      list of street names in place, then decodes the shape. */
  method MapValhallaLeg(vl: V.Leg) returns (r: Result<Leg, LegError>)
    ensures r == MapLeg(vl)
  {
    var maneuvers := new Maneuver[|vl.maneuvers|](_ => ZeroManeuver);
    for i := 0 to |vl.maneuvers|
      invariant forall k :: 0 <= k < i ==> maneuvers[k] == MapManeuver(vl.maneuvers[k])
    {
      var m := vl.maneuvers[i];
      maneuvers[i] := Maneuver(m.maneuverType, m.instruction, m.streetNames, m.time, m.length,
                               m.beginShapeIndex, m.endShapeIndex, m.roundaboutExitCount);
      if maneuvers[i].streetNames.None? {
        maneuvers[i] := maneuvers[i].(streetNames := Some([]));
      }
    }
    var shape := Polyline.DecodePolyline(vl.shape, ShapePrecision);
    if shape.Err? {
      return Err(shape.error);
    }
    assert maneuvers[..] == MapLeg(vl).value.maneuvers;
    r := Ok(Leg(maneuvers[..], Summary(vl.summary.time, vl.summary.length), shape.value));
  }

  /** `MapValhallaTrip`: fills the legs by index and stops at the first leg
      that fails. */
  method MapValhallaTrip(vt: V.Trip) returns (r: Result<Trip, TripError>)
    ensures r == MapTrip(vt)
  {
    var legs := new Leg[|vt.legs|](_ => ZeroLeg);
    for i := 0 to |vt.legs|
      invariant forall k :: 0 <= k < i ==> MapLeg(vt.legs[k]) == Ok(legs[k])
    {
      var converted := MapValhallaLeg(vt.legs[i]);
      if converted.Err? {
        TraverseFirstFailure(MapLeg, vt.legs, i, converted.error);
        return Err(LegFailed(i, converted.error));
      }
      legs[i] := converted.value;
    }
    TraverseAllOk(MapLeg, vt.legs, legs[..]);
    r := Ok(Trip(vt.locations, legs[..], Summary(vt.summary.time, vt.summary.length)));
  }

  /** The second half of `CalculateRoute`: maps the primary trip, then
      appends the alternates in order, aborting on the first trip that fails
      to map. */
  /** The alternates mapped so far, `trips[1..]`, grow by the next one. */
  lemma AlternatesMapped(resp: V.RouteResponse, trips: seq<Trip>, i: nat, t: Trip)
    requires i < |resp.alternates| && |trips| == i + 1
    requires forall k :: 0 <= k < i ==> MapAlternate(resp.alternates[k]) == Ok(trips[k + 1])
    requires MapAlternate(resp.alternates[i]) == Ok(t)
    ensures forall k :: 0 <= k < i + 1 ==> MapAlternate(resp.alternates[k]) == Ok((trips + [t])[k + 1])
  {
  }

  method MapRouteResponse(resp: V.RouteResponse) returns (r: Result<seq<Trip>, TripError>)
    ensures r == RouteTrips(resp)
  {
    var mainTrip := MapValhallaTrip(resp.trip);
    if mainTrip.Err? {
      return Err(mainTrip.error);
    }
    var respTrips := [mainTrip.value];
    for i := 0 to |resp.alternates|
      invariant |respTrips| == i + 1 && respTrips[0] == mainTrip.value
      invariant forall k :: 0 <= k < i ==> MapAlternate(resp.alternates[k]) == Ok(respTrips[k + 1])
    {
      var trip := MapValhallaTrip(resp.alternates[i].trip);
      if trip.Err? {
        RouteTripsAlternateFails(resp, mainTrip.value, i, trip.error);
        return Err(trip.error);
      }
      AlternatesMapped(resp, respTrips, i, trip.value);
      respTrips := respTrips + [trip.value];
    }
    RouteTripsAllMapped(resp, respTrips);
    r := Ok(respTrips);
  }

  class RoutingService {
    const client: V.RoutingClient
    const incidentsService: Incidents.IncidentsService

    constructor(client: V.RoutingClient, incidentsService: Incidents.IncidentsService)
      ensures this.client == client && this.incidentsService == incidentsService
    {
      this.client := client;
      this.incidentsService := incidentsService;
    }

    /** The request sent to the routing engine: the caller's, with the
        points of the incidents around its locations appended to its
        exclusions. */
    function SentRequest(req: V.RouteRequest): (sent: V.RouteRequest)
      requires |req.locations| > 0
    {
      var avoid := incidentsService.AvoidancePoints(LocationPoints(req.locations));
      req.(excludeLocations := req.excludeLocations + ExcludesOf(avoid))
    }

    /** The exclusions sent upstream are the caller's, kept in front,
        followed by one exclusion per incident point in order; nothing else
        in the request changes, and when the incident service fails the
        request goes out exactly as the caller built it. */
    lemma ExclusionsExtendCallers(req: V.RouteRequest)
      requires |req.locations| > 0
      ensures var sent := SentRequest(req);
              var avoid := incidentsService.AvoidancePoints(LocationPoints(req.locations));
              && sent == req.(excludeLocations := sent.excludeLocations)
              && |sent.excludeLocations| == |req.excludeLocations| + |avoid|
              && sent.excludeLocations[..|req.excludeLocations|] == req.excludeLocations
              && forall k :: 0 <= k < |avoid| ==>
                   sent.excludeLocations[|req.excludeLocations| + k] == V.ExcludeLocation(avoid[k].lat, avoid[k].lon)
      ensures var c := Incidents.BoundingCircle(incidentsService.haversine, LocationPoints(req.locations));
              incidentsService.client(c.centerLat, c.centerLon, c.radius).Err? ==> SentRequest(req) == req
    {
      var c := Incidents.BoundingCircle(incidentsService.haversine, LocationPoints(req.locations));
      if incidentsService.client(c.centerLat, c.centerLon, c.radius).Err? {
        assert req.excludeLocations + [] == req.excludeLocations;
      }
    }

    /** What `CalculateRoute` answers for `req`. */
    function Route(req: V.RouteRequest): Result<seq<Trip>, RouteError>
      requires |req.locations| > 0
    {
      match client(SentRequest(req))
      case Err(e) => Err(RoutingFailed(e))
      case Ok(resp) =>
        match RouteTrips(resp)
        case Err(e) => Err(TripMappingFailed(e))
        case Ok(trips) => Ok(trips)
    }

    /** The engine's error gives that error and no trips; success means the
        engine answered and every trip mapped, the primary trip first and
        the alternates in order. */
    lemma RouteOutcome(req: V.RouteRequest)
      requires |req.locations| > 0
      ensures client(SentRequest(req)).Err? ==> Route(req) == Err(RoutingFailed(client(SentRequest(req)).error))
      ensures Route(req).Ok? <==> client(SentRequest(req)).Ok? && RouteTrips(client(SentRequest(req)).value).Ok?
      ensures Route(req).Ok? ==>
                var resp := client(SentRequest(req)).value;
                && |Route(req).value| == 1 + |resp.alternates|
                && Ok(Route(req).value[0]) == MapTrip(resp.trip)
                && forall k :: 0 <= k < |resp.alternates| ==> Ok(Route(req).value[k + 1]) == MapTrip(resp.alternates[k].trip)
    {
      if client(SentRequest(req)).Ok? {
        RouteTripsOrder(client(SentRequest(req)).value);
      }
    }

    method CalculateRoute(req: V.RouteRequest) returns (r: Result<seq<Trip>, RouteError>)
      requires |req.locations| > 0
      ensures r == Route(req)
    {
      var locationsPoints := ExtractPointsFromLocations(req.locations);
      assert locationsPoints == LocationPoints(req.locations);
      var incidents := incidentsService.IncidentsAroundLocations(locationsPoints);
      var excludes := PointsToExcludeLocations(incidents);
      assert excludes == ExcludesOf(incidents);
      var routeRequest := req.(excludeLocations := req.excludeLocations + excludes);
      assert routeRequest == SentRequest(req);

      var vRoute := client(routeRequest);
      if vRoute.Err? {
        return Err(RoutingFailed(vRoute.error));
      }
      var trips := MapRouteResponse(vRoute.value);
      if trips.Err? {
        return Err(TripMappingFailed(trips.error));
      }
      r := Ok(trips.value);
    }
  }
}
