/** The geofence test of server/utils/geo.js. The haversine distance itself is
    floating-point trigonometry and is taken as a parameter: any function from
    two points to metres. */
module Geo {
  import opened Common

  /** A distance in metres between two points. */
  type Distance = (Point, Point) -> real

  /** `isWithinGeoFence`: the observed point is no farther from the centre than the radius. */
  predicate WithinFence(dist: Distance, observed: Point, centre: Point, radius: real)
  {
    dist(observed, centre) <= radius
  }

  /** Widening a fence never un-verifies a point it already contained. */
  lemma WithinFenceMonotone(dist: Distance, observed: Point, centre: Point, r1: real, r2: real)
    requires r1 <= r2 && WithinFence(dist, observed, centre, r1)
    ensures WithinFence(dist, observed, centre, r2)
  {
  }
}
