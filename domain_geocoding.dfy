/** The domain layer's copy of address search
    (internal/domain/services/geocoding.go). Its client offers only the
    search call; the mapping from hits to places is the one of module
    `Geocoding`, whose `Place` has the same four fields as this layer's. */
module DomainGeocoding {
  import opened Common
  import opened Geocoding

  /** The geocoder's search call. */
  type SearchClient = string -> Result<seq<GeocodeResult>, ClientError>

  class GeocodingService {
    const client: SearchClient
    const parseFloat: ParseFloat

    constructor(client: SearchClient, parseFloat: ParseFloat)
      ensures this.client == client && this.parseFloat == parseFloat
    {
      this.client := client;
      this.parseFloat := parseFloat;
    }

    /** `Search`: the geocoder's error, no places for no hits, otherwise one
        place per hit in order unless a coordinate fails to parse. */
    method Search(address: string) returns (r: Result<seq<Place>, SearchError>)
      ensures r == SearchOutcome(parseFloat, client(address))
    {
      var resp := client(address);
      if resp.Err? {
        return Err(SearchFailed(resp.error));
      }
      var results := resp.value;
      if |results| == 0 {
        return Ok([]);
      }

      var places := new Place[|results|](_ => ZeroPlace);
      for i := 0 to |results|
        invariant forall k :: 0 <= k < i ==> ToPlace(parseFloat, results[k]) == Ok(places[k])
      {
        var g := results[i];
        var lat := parseFloat(g.lat);
        if lat.None? {
          TraverseFirstFailure((g: GeocodeResult) => ToPlace(parseFloat, g), results, i, LatitudeUnparsable(g.lat));
          return Err(LatitudeUnparsable(g.lat));
        }
        var lon := parseFloat(g.lon);
        if lon.None? {
          TraverseFirstFailure((g: GeocodeResult) => ToPlace(parseFloat, g), results, i, LongitudeUnparsable(g.lon));
          return Err(LongitudeUnparsable(g.lon));
        }
        places[i] := Place(lat.value, lon.value, g.name, g.displayName);
      }
      TraverseAllOk((g: GeocodeResult) => ToPlace(parseFloat, g), results, places[..]);
      r := Ok(places[..]);
    }
  }
}
