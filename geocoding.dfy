/** Address search and reverse lookup (internal/services/geocoding.go):
    the geocoder's textual coordinates are parsed into places. */
module Geocoding {
  import opened Common

  /** The fields of a geocoder search hit that the gateway reads; the
      coordinates arrive as decimal text. */
  datatype GeocodeResult = GeocodeResult(lat: string, lon: string, name: string, displayName: string)

  /** The reverse-lookup answer, reduced to the display name of each
      feature. */
  datatype Properties = Properties(displayName: string)
  datatype Feature = Feature(properties: Properties)
  datatype ReverseResult = ReverseResult(features: seq<Feature>)

  /** `strconv.ParseFloat(s, 64)`: the value, or `None` on a syntax error. */
  type ParseFloat = string -> Option<real>

  /** The geocoder as the service sees it. The reverse lookup may answer
      with a null result (`None`) and no error. */
  datatype GeocodingClient = GeocodingClient(
    search: string -> Result<seq<GeocodeResult>, ClientError>,
    reverse: (real, real) -> Result<Option<ReverseResult>, ClientError>)

  datatype Place = Place(lat: real, lon: real, name: string, displayName: string)

  datatype SearchError =
    | SearchFailed(cause: ClientError)
    | LatitudeUnparsable(text: string)
    | LongitudeUnparsable(text: string)

  const ZeroPlace: Place := Place(0.0, 0.0, "", "")

  /** One search hit as a place: the latitude is parsed first, then the
      longitude; the names are copied unchanged. */
  function ToPlace(parse: ParseFloat, g: GeocodeResult): (r: Result<Place, SearchError>)
    ensures parse(g.lat).None? ==> r == Err(LatitudeUnparsable(g.lat))
    ensures parse(g.lat).Some? && parse(g.lon).None? ==> r == Err(LongitudeUnparsable(g.lon))
    ensures r.Ok? <==> parse(g.lat).Some? && parse(g.lon).Some?
    ensures r.Ok? ==> r.value == Place(parse(g.lat).value, parse(g.lon).value, g.name, g.displayName)
  {
    match parse(g.lat)
    case None => Err(LatitudeUnparsable(g.lat))
    case Some(lat) =>
      match parse(g.lon)
      case None => Err(LongitudeUnparsable(g.lon))
      case Some(lon) => Ok(Place(lat, lon, g.name, g.displayName))
  }

  /** Every search hit as a place, in order, or the first parse failure. */
  function PlacesFrom(parse: ParseFloat, results: seq<GeocodeResult>): (r: Result<seq<Place>, SearchError>)
    ensures r.Ok? <==> forall k :: 0 <= k < |results| ==> ToPlace(parse, results[k]).Ok?
    ensures r.Ok? ==>
              && |r.value| == |results|
              && forall k :: 0 <= k < |results| ==> ToPlace(parse, results[k]) == Ok(r.value[k])
    ensures r.Err? ==>
              exists i :: 0 <= i < |results| && ToPlace(parse, results[i]) == Err(r.error)
                          && forall k :: 0 <= k < i ==> ToPlace(parse, results[k]).Ok?
  {
    match Traverse((g: GeocodeResult) => ToPlace(parse, g), results)
    case Err(f) => Err(f.cause)
    case Ok(places) => Ok(places)
  }

  /** What a search for `address` answers, given the geocoder's reply. */
  function SearchOutcome(parse: ParseFloat, reply: Result<seq<GeocodeResult>, ClientError>): (r: Result<seq<Place>, SearchError>)
    ensures reply.Err? ==> r == Err(SearchFailed(reply.error))
    ensures reply.Ok? && |reply.value| == 0 ==> r == Ok([])
    ensures reply.Ok? ==> r == PlacesFrom(parse, reply.value)
  {
    match reply
    case Err(e) => Err(SearchFailed(e))
    case Ok(results) => PlacesFrom(parse, results)
  }

  class GeocodingService {
    const client: GeocodingClient
    const parseFloat: ParseFloat

    constructor(client: GeocodingClient, parseFloat: ParseFloat)
      ensures this.client == client && this.parseFloat == parseFloat
    {
      this.client := client;
      this.parseFloat := parseFloat;
    }

    /** `Search`: the geocoder's error, no places for no hits, otherwise one
        place per hit in order unless a coordinate fails to parse. */
    method Search(address: string) returns (r: Result<seq<Place>, SearchError>)
      ensures r == SearchOutcome(parseFloat, client.search(address))
    {
      var resp := client.search(address);
      if resp.Err? {
        return Err(SearchFailed(resp.error));
      }
      var results := resp.value;
      if |results| == 0 {
        return Ok([]);
      }

      var places := new Place[|results|](_ => ZeroPlace);
      for i := 0 to |results|
        invariant forall k :: 0 <= k < i ==> ToPlace(parseFloat, results[k]) == Ok(places[k])
      {
        var g := results[i];
        var lat := parseFloat(g.lat);
        if lat.None? {
          TraverseFirstFailure((g: GeocodeResult) => ToPlace(parseFloat, g), results, i, LatitudeUnparsable(g.lat));
          return Err(LatitudeUnparsable(g.lat));
        }
        var lon := parseFloat(g.lon);
        if lon.None? {
          TraverseFirstFailure((g: GeocodeResult) => ToPlace(parseFloat, g), results, i, LongitudeUnparsable(g.lon));
          return Err(LongitudeUnparsable(g.lon));
        }
        places[i] := Place(lat.value, lon.value, g.name, g.displayName);
      }
      TraverseAllOk((g: GeocodeResult) => ToPlace(parseFloat, g), results, places[..]);
      r := Ok(places[..]);
    }

    /** `Reverse` passes the geocoder's answer through unchanged. */
    method Reverse(lat: real, lon: real) returns (r: Result<Option<ReverseResult>, ClientError>)
      ensures r == client.reverse(lat, lon)
    {
      r := client.reverse(lat, lon);
    }
  }
}
