/** Coordinates and distances shared by the ETA code of the service and of the trip handlers. */
module Geo {

  /** A latitude/longitude pair in degrees. */
  datatype Point = Point(latitude: real, longitude: real)

  /**
   * A great-circle distance in kilometres. The haversine formula is not
   * modelled; every distance is an input of this type, so it is never negative.
   */
  type Km = d: real | 0.0 <= d
}
