# supmap-gis route pipeline, modelled in Dafny

This project models the route-aggregation and hazard-avoidance core of the
supmap-gis gateway. The gateway takes a route request. It validates the
request and fills in defaults. It finds the incidents around the requested
locations and adds their positions to the request's exclusions. Then it asks
the routing engine for a route and maps the engine's primary trip and its
alternates to its own trip shape. Each leg's geometry arrives as a Google
Encoded Polyline and is decoded. The same core also covers address search
and reverse lookup through the geocoder.

Modules, one per source file:

- `Common` (common.dfy): `Option`, `Result` and the byte type. It also holds
  `Traverse`, the "convert every element, the first failure aborts" pattern
  that every mapping loop of the gateway follows.
- `ValhallaTypes` (valhalla_types.dfy): the routing engine's request and
  response types and the three `IsValid` validators.
- `DomainTypes` (domain_types.dfy): the gateway's own trip types.
- `Polyline` (polyline.dfy): the polyline decoder. Its specification is a set
  of functions over byte indices. `ReadDelta` and `DecodePolyline` are the
  source's loops, proved against those functions.
- `PolylineEncoding` (polyline_encoding.dfy): the format's encoder. It holds
  the decode-after-encode round trip and the format's documented example.
- `Incidents` (incidents.dfy): the bounding circle and the incident service.
- `Routing` (routing.dfy): the trip, leg and maneuver mappings and the
  routing service.
- `Handlers` (handlers.dfy): request validation, defaults and the
  reverse-lookup "not found" rule.
- `Geocoding` (geocoding.dfy) and `DomainGeocoding` (domain_geocoding.dfy):
  the two copies of address search.

Upstream services are values the services are built with, not code:

- The routing engine, the incident service and the geocoder are functions
  from a request to a result or a `ClientError`.
- `strconv.ParseFloat` is a function from text to an optional number.
- The haversine distance is a function returning a non-negative real.

`float64` is modelled as an exact `real`. Go's `string` of polyline text is
a sequence of bytes. Where a source routine changes state step by step, the
model is a method with a loop:

- `readDelta` and `DecodePolyline`.
- The two loops of `computeLocationsBoundingCircle`.
- The incident projection.
- `extractPointsFromLocations` and `pointsToExcludeLocations`.
- The index-filling loops of `mapValhallaLeg`, `MapValhallaTrip` and both
  `Search` methods. These write into arrays that start at Go's zero values.
- The append loop of `CalculateRoute`.

Each of these methods is proved equal to a specification function, and the
properties are proved about that function.

The repository's source files mix revisions of the code. The model follows one coherent
version:

- `ExcludeLocations` is a plain sequence, since `routing.go` appends to it.
- `CostingOptions` is optional in both request types.
- `BeginShapeIndex` and `EndShapeIndex` are plain integers in both maneuver
  types.
- The routing service takes both the routing client and the incident
  service, as `NewRoutingService` at routing.go:18 does.
- `DecodePolyline` is the one from internal/services/polyline.go.

The Go declaration of the geocoder's reverse-lookup result type is missing
from nominatim/types.go. `Geocoding.ReverseResult` models it with a shape
inferred from the handler's use of it: a list of features, each with a
display name.

Two properties one might expect of the code do not hold, and the model
states what holds instead:

- The comment at incidents.go:47 promises a circle enclosing all the
  locations. The radius is `RadiusMeter(maxDist * 1.6)`, a conversion to
  `uint` that truncates. So the radius can be below 1.6 times the largest
  distance, by less than a metre (`BoundingCircle`). The promise holds once
  the largest distance reaches 5/3 of a metre
  (`Incidents.CircleEnclosesLocations`). Below 0.625 m the radius is 0 and
  any location off the centre lies outside the circle
  (`Incidents.SmallSpreadEscapesCircle`). Two locations a metre apart are
  an instance.
- Decoding and then re-encoding does not always give back the original
  text. The decoder accepts runs with redundant zero groups, as
  `PolylineEncoding.ReencodingIsNotIdentity` shows. What does hold is
  decode-after-encode, `PolylineEncoding.DecodeEncode`.

## Model

| member | source | states |
|---|---|---|
| ValhallaTypes.IsValidLocationType | internal/providers/valhalla/types.go:27-41 | a location type is valid exactly when it is one of break, through, via, break_through; the empty string is not valid |
| ValhallaTypes.IsValidCosting | internal/providers/valhalla/types.go:63-78 | a costing is valid exactly when it is one of auto, bicycle, truck, motor_scooter, pedestrian; the empty string is not valid |
| ValhallaTypes.IsValidRatio | internal/providers/valhalla/types.go:83-88 | a ratio is valid exactly when 0 <= r <= 1, both ends included |
| Polyline.ZigZag | internal/services/polyline.go:61-64 | the sign of the delta is the parity of the magnitude; an even magnitude is twice the delta, an odd one is -2·delta - 1 |
| Polyline.ReadDelta | internal/services/polyline.go:47-65 | reading a value succeeds exactly when the specification finds a complete run; it then returns that run's zig-zag value and strictly advances the index to just past the run; a truncated run fails with the index at the end of the input |
| Polyline.DecodePolyline | internal/services/polyline.go:15-45 | the result is the specification's decoding: a precision <= 0 means 6; the empty text gives no points and no error; an error gives no points; otherwise the points are the accumulator pairs divided by 10^precision |
| Polyline.ReadRunStops | internal/services/polyline.go:49-59 | a run ends right after the first byte whose value minus 63 is below 0x20; a run is missing exactly when every remaining byte has the continuation bit |
| Polyline.ReadRunMagnitude | internal/services/polyline.go:55-56 | the assembled magnitude is the sum of each byte's 5-bit payload times 32^j, for the j-th byte of the run |
| Polyline.TruncatedInputRejected | internal/services/polyline.go:26-35 | an input whose last byte still has the continuation bit is rejected as a whole, whatever came before |
| Polyline.LatitudeWithoutLongitude | internal/services/polyline.go:32-35 | an input that ends right after a latitude is rejected with the longitude error |
| Polyline.DecodeAdvance | internal/services/polyline.go:25-42 | one loop iteration: a latitude and a longitude delta read in sequence move one point, the running sums, from the remaining decoding to the decoded prefix |
| Polyline.DecodeIsPrefixSums | internal/services/polyline.go:36-41 | decoding fails exactly when reading the deltas fails, with the same error; otherwise point k is the sums of the first k+1 latitude and longitude deltas, starting from 0 |
| Polyline.NonPositivePrecisionIsDefault | internal/services/polyline.go:16-18 | any precision <= 0 decodes exactly as precision 6 |
| PolylineEncoding.ZigZagRoundTrip | internal/services/polyline.go:61-64 | zig-zag decoding inverts the encoder's zig-zag encoding |
| PolylineEncoding.ReadRunEncoded | internal/services/polyline.go:47-60 | reading an encoded magnitude, wherever it sits in the input, returns that magnitude and the index just past it |
| PolylineEncoding.DecodeEncode | internal/services/polyline.go:9-14 | decoding the encoding of any list of integer coordinate pairs gives back exactly that list |
| PolylineEncoding.CanonicalExample | internal/services/polyline.go:9-14 | the documented text "_p~iF~ps\|U_ulLnnqC_mqNvxq`@" at precision 5 decodes to (38.5, -120.2), (40.7, -120.95), (43.252, -126.453) |
| PolylineEncoding.ReencodingIsNotIdentity | internal/services/polyline.go:49-60 | the decoder accepts a non-canonical run: "_??" decodes to (0, 0), whose encoding is "??" |
| Incidents.MaxDistance | internal/domain/services/incidents.go:57-63 | the maximum distance is at least 0 and at least the distance to every location, and it is 0 or the distance to one of them |
| Incidents.BoundingCircle | internal/domain/services/incidents.go:48-65 | the radius is 1.6 times the maximum distance, truncated to whole metres |
| Incidents.ComputeLocationsBoundingCircle | internal/domain/services/incidents.go:48-65 | the two loops compute the mean centre and the truncated 1.6 × maximum-distance radius |
| Incidents.CenterWithinBounds | internal/domain/services/incidents.go:49-55 | the centre is a mean: it lies in every latitude and longitude range that holds all the locations |
| Incidents.RadiusCoversLocations | internal/domain/services/incidents.go:57-64 | 1.6 times any location's distance from the centre is below the radius plus one metre |
| Incidents.CircleEnclosesLocations | internal/domain/services/incidents.go:47-64 | once the largest distance is at least 5/3 m, every location's distance from the centre is at most the radius, as the comment promises |
| Incidents.SmallSpreadEscapesCircle | internal/domain/services/incidents.go:47-64 | when every location lies within 0.625 m of the centre, the radius truncates to 0 and any location off the centre lies outside the circle |
| Incidents.IncidentPoints | internal/domain/services/incidents.go:36-44 | one point per incident, in order, with the incident's latitude and longitude |
| Incidents.IncidentsService.constructor | internal/domain/services/incidents.go:19-21 | the service keeps the client it is given |
| Incidents.IncidentsService.IncidentsAroundLocations | internal/domain/services/incidents.go:23-45 | the client is asked with the bounding circle's centre and radius; its error gives an empty list and never an error; otherwise one point per incident in order |
| Routing.MapManeuver | internal/domain/services/routing.go:127-141 | every published field is copied; a missing list of street names becomes the empty list, never null |
| Routing.MapLeg | internal/domain/services/routing.go:124-157 | a leg maps exactly when its shape decodes at precision 6, and a decode error is passed on; the maneuvers keep their number and order; the summary keeps time and length; the shape is the decoded points |
| Routing.MapTrip | internal/domain/services/routing.go:104-121 | a trip maps exactly when every leg does; legs keep their number and order and leg i comes from leg i; locations and summary time and length are kept; otherwise the first failing leg's index and error are reported |
| Routing.RouteTripsOrder | internal/domain/services/routing.go:36-50 | on success there are 1 + the number of alternates trips, the primary first and then the alternates in order; any trip that fails to map fails the whole answer |
| Routing.LocationPoints | internal/domain/services/routing.go:55-64 | one point per location, in order, with its latitude and longitude |
| Routing.ExcludesOf | internal/domain/services/routing.go:160-169 | one exclusion per point, in order, with its latitude and longitude |
| Routing.ExtractPointsFromLocations | internal/domain/services/routing.go:55-64 | the append loop computes `LocationPoints`: one point per location, in order, with its latitude and longitude |
| Routing.PointsToExcludeLocations | internal/domain/services/routing.go:160-169 | the append loop computes `ExcludesOf`: one exclusion per point, in order, with its latitude and longitude |
| Routing.MapValhallaLeg | internal/domain/services/routing.go:124-157 | the index-filling loop, the street-names fix and the shape decoding compute the leg mapping |
| Routing.MapValhallaTrip | internal/domain/services/routing.go:104-121 | the index-filling loop with its early return computes the trip mapping |
| Routing.RouteTripsAlternateFails | internal/domain/services/routing.go:44-49 | the first alternate that fails to map decides the error of the whole answer |
| Routing.RouteTripsAllMapped | internal/domain/services/routing.go:36-52 | when the primary trip and every alternate map, the answer is exactly those trips in order |
| Routing.MapRouteResponse | internal/domain/services/routing.go:36-52 | the loop that maps the primary trip and then appends each alternate in order, stopping at the first failure, computes `RouteTrips` |
| Routing.RoutingService.constructor | internal/domain/services/routing.go:18-20 | the service keeps the routing client and the incident service it is given |
| Routing.RoutingService.ExclusionsExtendCallers | internal/domain/services/routing.go:23-28 | the exclusions sent upstream are the caller's, kept in front, then one per incident point in order; nothing else in the request changes; when the incident service fails, the request goes out as the caller built it |
| Routing.RoutingService.RouteOutcome | internal/domain/services/routing.go:22-53 | a routing-engine error gives that error and no trips; success means the engine answered and every trip mapped, with the primary trip first and the alternates in order |
| Routing.RoutingService.CalculateRoute | internal/domain/services/routing.go:22-53 | the method computes `Route`: it extends the exclusions with the incident points, calls the engine with that request, and passes an engine error on; a response is mapped by `MapRouteResponse` |
| Handlers.Validate | internal/api/handlers.go:60-68 | a request is valid exactly when it has at least 2 locations and a valid costing; too few locations is reported before an invalid costing |
| Handlers.ToValhallaRequest | internal/api/handlers.go:72-93 | the language is the caller's when given, otherwise "fr-FR"; alternates is the caller's when given, with no range check, otherwise 2; locations, exclusions, costing and costing options are copied unchanged |
| Handlers.ValidRequestIsRoutable | internal/api/handlers.go:60-93 | a validated request becomes a routing request with at least two locations and an accepted costing |
| Handlers.ExplicitDefaultsAreDefaults | internal/api/handlers.go:73-83 | omitting the language and the alternates gives the same request as sending "fr-FR" and 2 |
| Handlers.AddressOutcome | internal/api/handlers.go:164-176 | a lookup error is an internal error; "not found" exactly when the answer is null, has no features, or its first feature has an empty display name; otherwise the first feature's display name, which is never empty |
| Geocoding.ToPlace | internal/services/geocoding.go:41-56 | the latitude is parsed first and then the longitude, and either failure is reported; on success the place holds the parsed numbers and the unchanged names |
| Geocoding.PlacesFrom | internal/services/geocoding.go:40-57 | on success there is one place per hit, in order; otherwise the error of the first hit that fails to parse, with no partial list |
| Geocoding.SearchOutcome | internal/services/geocoding.go:30-60 | a client error gives an error and no places; no hits give an empty list and no error; otherwise the places of the hits |
| Geocoding.GeocodingService.constructor | internal/services/geocoding.go:19-21 | the service keeps the client it is given |
| Geocoding.GeocodingService.Search | internal/services/geocoding.go:30-60 | the method, with its index-filling loop and early returns, computes `SearchOutcome` of the client's answer |
| Geocoding.GeocodingService.Reverse | internal/services/geocoding.go:62-64 | the client's answer or error is returned unchanged |
| DomainGeocoding.GeocodingService.constructor | internal/domain/services/geocoding.go:18-20 | the service keeps the client it is given |
| DomainGeocoding.GeocodingService.Search | internal/domain/services/geocoding.go:29-59 | the domain copy of search computes the same `SearchOutcome` of its client's answer |

## Left out

- HTTP clients: URL building, network I/O and JSON decoding of the routing engine, the incident service and the geocoder. Each is a function from the request to a result or an error.
- Server wiring, lifecycle, configuration and the HTTP plumbing of the handlers (status codes, body encoding, query parsing).
- The request decoder that runs `Validate` is an external library and is not part of this model. `Routing.RoutingService.CalculateRoute` and `Incidents.IncidentsService.IncidentsAroundLocations` require at least one location, which `Validate` guarantees. On an empty list the Go code computes a NaN centre, which real numbers cannot represent.
- `haversine`: the trigonometry is not modelled. The distance is an uninterpreted function whose only known property is that it is non-negative.
- Floating-point rounding: sums, means, the 1.6 factor and the division by 10^precision are exact real arithmetic. `math.Pow10` is an exact power of ten.
- NaN: `ValhallaTypes.IsValidRatio` accepts NaN in Go, because both comparisons are false. Reals have no NaN.
- Polyline.ReadDelta: the accumulators are unbounded integers. Go's 64-bit overflow on runs longer than 12 bytes is not modelled. `readDelta`'s `*idx` pointer is an index passed in and returned.
- Incidents.BoundingCircle: the float-to-`uint` conversion is modelled as the floor of a non-negative value. Overflow for radii beyond the `uint` range is not modelled.
- Incidents.IncidentsService.IncidentsAroundLocations: with a pure client function, "the client is queried exactly once" is not stated. The result is stated as a function of one answer to the bounding-circle query.
- Routing.RoutingService.CalculateRoute: the routing client and the incident service are pure functions, so "the engine is called exactly once" is not stated. The result is stated as a function of one answer to the extended request.
- Routing.MapLeg: `DecodePolyline` returns a nil slice for an empty shape, so Go publishes an empty leg shape as `null`. `Leg.shape` is a sequence and does not tell `null` from `[]`.
- Debug output: `fmt.Println` and `log.Printf`.
- Error texts: errors are datatypes that carry the failing index or text, not formatted messages.
- Maneuver attributes that the gateway does not read (verbal instructions, signs, transit and lane data) and the response fields of the incident type other than id, position and distance.
- The other revisions of the mixed source files (see above).
