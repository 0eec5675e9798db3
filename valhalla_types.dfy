/** The routing engine's request and response shapes
    (internal/providers/valhalla/types.go) and their three validators. */
module ValhallaTypes {
  import opened Common

  /** `LocationType` is a Go string type; any string can be decoded into it. */
  type LocationType = string

  const LocationTypeBreak: LocationType := "break"
  const LocationTypeThrough: LocationType := "through"
  const LocationTypeVia: LocationType := "via"
  const LocationTypeBreakThrough: LocationType := "break_through"

  /** The location types the routing engine documents. */
  const LocationTypes: set<LocationType> :=
    {LocationTypeBreak, LocationTypeThrough, LocationTypeVia, LocationTypeBreakThrough}

  /** `LocationType.IsValid`: a switch over the four documented names. */
  function IsValidLocationType(lt: LocationType): (b: bool)
    ensures b <==> lt in LocationTypes
    ensures lt == "" ==> !b
  {
    match lt
    case "break" => true
    case "through" => true
    case "via" => true
    case "break_through" => true
    case _ => false
  }

  /** `Costing` is a Go string type naming the engine's cost model. */
  type Costing = string

  const CostingAuto: Costing := "auto"
  const CostingBicycle: Costing := "bicycle"
  const CostingTruck: Costing := "truck"
  const CostingMotorScooter: Costing := "motor_scooter"
  const CostingPedestrian: Costing := "pedestrian"

  /** The five costing models the gateway accepts. */
  const Costings: set<Costing> :=
    {CostingAuto, CostingBicycle, CostingTruck, CostingMotorScooter, CostingPedestrian}

  /** `Costing.IsValid`: a switch over the five accepted models. */
  function IsValidCosting(c: Costing): (b: bool)
    ensures b <==> c in Costings
    ensures c == "" ==> !b
  {
    match c
    case "auto" => true
    case "bicycle" => true
    case "truck" => true
    case "motor_scooter" => true
    case "pedestrian" => true
    case _ => false
  }

  /** `Ratio.IsValid`: rejects a ratio below 0 or above 1. */
  function IsValidRatio(r: real): (b: bool)
    ensures b <==> 0.0 <= r <= 1.0
  {
    if r < 0.0 || r > 1.0 then false else true
  }

  datatype CostingOptions = CostingOptions(
    useHighways: Option<real>,
    useTolls: Option<real>,
    useTracks: Option<real>)

  datatype LocationRequest = LocationRequest(
    lat: real,
    lon: real,
    locationType: Option<LocationType>,
    name: Option<string>)

  datatype ExcludeLocation = ExcludeLocation(lat: real, lon: real)

  datatype RouteRequest = RouteRequest(
    locations: seq<LocationRequest>,
    excludeLocations: seq<ExcludeLocation>,
    costing: Costing,
    costingOptions: Option<CostingOptions>,
    language: string,
    alternates: int,
    id: Option<string>)

  datatype LocationResponse = LocationResponse(
    lat: real,
    lon: real,
    locationType: LocationType,
    originalIndex: int,
    name: Option<string>)

  datatype Summary = Summary(
    hasTimeRestrictions: bool,
    hasToll: bool,
    hasHighway: bool,
    hasFerry: bool,
    minLat: real,
    minLon: real,
    maxLat: real,
    maxLon: real,
    time: real,
    length: real,
    cost: real,
    levelChanges: seq<seq<int>>)

  /** The maneuver fields the gateway reads; the verbal, sign, transit and
      lane attributes are not part of this model. `streetNames` is `None`
      when the engine omitted the field (a nil slice in Go). */
  datatype Maneuver = Maneuver(
    maneuverType: uint8,
    instruction: string,
    streetNames: Option<seq<string>>,
    time: real,
    length: real,
    beginShapeIndex: int,
    endShapeIndex: int,
    roundaboutExitCount: Option<uint8>,
    toll: Option<bool>,
    highway: Option<bool>,
    ferry: Option<bool>)

  /** A leg carries its geometry as an encoded polyline: the bytes of the
      Go string. */
  datatype Leg = Leg(maneuvers: seq<Maneuver>, summary: Summary, shape: seq<uint8>)

  datatype Trip = Trip(
    locations: seq<LocationResponse>,
    legs: seq<Leg>,
    summary: Summary,
    statusMessage: string,
    status: int,
    units: string,
    language: string)

  datatype Alternate = Alternate(trip: Trip)

  /** Exactly one primary trip; an omitted `alternates` array is the empty
      sequence. */
  datatype RouteResponse = RouteResponse(trip: Trip, alternates: seq<Alternate>, id: Option<string>)

  /** The routing engine, as the aggregator sees it. */
  type RoutingClient = RouteRequest -> Result<RouteResponse, ClientError>
}
