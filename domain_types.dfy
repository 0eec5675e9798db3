/** The response DTOs the route aggregator produces
    (internal/domain/services/routing.go, "DTOs"). */
module DomainTypes {
  import opened Common
  import ValhallaTypes

  /** A coordinate in decimal degrees. */
  datatype Point = Point(lat: real, lon: real)

  /** `StreetNames` stays nil-able as in Go; the mapping never leaves it `None`. */
  datatype Maneuver = Maneuver(
    maneuverType: uint8,
    instruction: string,
    streetNames: Option<seq<string>>,
    time: real,
    length: real,
    beginShapeIndex: int,
    endShapeIndex: int,
    roundaboutExitCount: Option<uint8>)

  datatype Summary = Summary(time: real, length: real)

  datatype Leg = Leg(maneuvers: seq<Maneuver>, summary: Summary, shape: seq<Point>)

  datatype Trip = Trip(locations: seq<ValhallaTypes.LocationResponse>, legs: seq<Leg>, summary: Summary)
}
