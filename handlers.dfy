/** The request rules of the HTTP layer (internal/api/handlers.go): route
    request validation, the defaults applied before calling the routing
    engine, and the reverse-lookup "not found" rule. */
module Handlers {
  import opened Common
  import opened ValhallaTypes
  import Geocoding

  /** The body of a route request. `costingOptions`, `language` and
      `alternates` may be omitted. */
  datatype ApiRouteRequest = ApiRouteRequest(
    locations: seq<LocationRequest>,
    excludeLocations: seq<ExcludeLocation>,
    costing: Costing,
    costingOptions: Option<CostingOptions>,
    language: Option<string>,
    alternates: Option<int>)

  datatype ValidationError =
    | TooFewLocations
    | InvalidCosting(costing: Costing)

  const DefaultLanguage: string := "fr-FR"
  const DefaultAlternates: int := 2

  /** `RouteRequest.Validate`: the location count is checked before the
      costing, so it is the reported error when both are wrong. */
  function Validate(r: ApiRouteRequest): (e: Option<ValidationError>)
    ensures e.None? <==> |r.locations| >= 2 && IsValidCosting(r.costing)
    ensures |r.locations| < 2 ==> e == Some(TooFewLocations)
    ensures |r.locations| >= 2 && !IsValidCosting(r.costing) ==> e == Some(InvalidCosting(r.costing))
  {
    if |r.locations| < 2 then Some(TooFewLocations)
    else if !IsValidCosting(r.costing) then Some(InvalidCosting(r.costing))
    else None
  }

  /** `RouteRequest.ToValhallaRequest`: the caller's language and number of
      alternates when given (no range check), otherwise "fr-FR" and 2; the
      locations, exclusions, costing and costing options unchanged; no
      request id. */
  function ToValhallaRequest(r: ApiRouteRequest): (v: RouteRequest)
    ensures v.locations == r.locations && v.excludeLocations == r.excludeLocations
    ensures v.costing == r.costing && v.costingOptions == r.costingOptions
    ensures r.language.Some? ==> v.language == r.language.value
    ensures r.language.None? ==> v.language == DefaultLanguage
    ensures r.alternates.Some? ==> v.alternates == r.alternates.value
    ensures r.alternates.None? ==> v.alternates == DefaultAlternates
    ensures v.id.None?
  {
    var language := if r.language.Some? then r.language.value else DefaultLanguage;
    var alternates := if r.alternates.Some? then r.alternates.value else DefaultAlternates;
    RouteRequest(r.locations, r.excludeLocations, r.costing, r.costingOptions, language, alternates, None)
  }

  /** A validated request converts to a routing request with at least two
      locations and a costing the routing engine accepts. */
  lemma ValidRequestIsRoutable(r: ApiRouteRequest)
    requires Validate(r).None?
    ensures |ToValhallaRequest(r).locations| >= 2
    ensures ToValhallaRequest(r).costing in Costings
  {
  }

  /** Stating the defaults explicitly changes nothing. */
  lemma ExplicitDefaultsAreDefaults(r: ApiRouteRequest)
    requires r.language.None? && r.alternates.None?
    ensures ToValhallaRequest(r.(language := Some(DefaultLanguage), alternates := Some(DefaultAlternates))) == ToValhallaRequest(r)
  {
  }

  datatype AddressResponse = AddressResponse(displayName: string)

  datatype AddressError =
    | ReverseFailed(cause: ClientError)
    | NotFound

  /** The reverse-lookup handler's answer once the lookup returned: the
      lookup's error; "not found" for a null answer, an answer without
      features, or a first feature without a display name; otherwise the
      first feature's display name. */
  function AddressOutcome(reply: Result<Option<Geocoding.ReverseResult>, ClientError>): (r: Result<AddressResponse, AddressError>)
    ensures reply.Err? ==> r == Err(ReverseFailed(reply.error))
    ensures reply.Ok? ==>
              (r == Err(NotFound) <==>
                 || reply.value.None?
                 || |reply.value.value.features| == 0
                 || reply.value.value.features[0].properties.displayName == "")
    ensures reply.Ok? && reply.value.Some? && |reply.value.value.features| > 0
            && reply.value.value.features[0].properties.displayName != "" ==>
              r == Ok(AddressResponse(reply.value.value.features[0].properties.displayName))
    ensures r.Ok? ==>
              && reply.Ok? && reply.value.Some? && |reply.value.value.features| > 0
              && r.value.displayName == reply.value.value.features[0].properties.displayName
              && r.value.displayName != ""
  {
    match reply
    case Err(e) => Err(ReverseFailed(e))
    case Ok(resp) =>
      if resp.None? || |resp.value.features| == 0 || resp.value.features[0].properties.displayName == "" then
        Err(NotFound)
      else
        Ok(AddressResponse(resp.value.features[0].properties.displayName))
  }
}
