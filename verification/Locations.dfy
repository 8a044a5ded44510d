/** Points and rectangles in degrees (crates/domain/src/device.rs, crates/domain/src/geo.rs). */
module Locations {
  import opened Options

  datatype Location = Location(lat: real, lon: real) {
    predicate Valid() {
      -90.0 <= lat <= 90.0 && -180.0 <= lon <= 180.0
    }
  }

  /** `Location::new`: only points on the globe are locations. */
  function NewLocation(lat: real, lon: real): (r: Option<Location>)
    ensures r == if Location(lat, lon).Valid() then Some(Location(lat, lon)) else None
  {
    if !(-90.0 <= lat <= 90.0) || !(-180.0 <= lon <= 180.0) then None else Some(Location(lat, lon))
  }

  /** The great-circle distance is a parameter wherever it is needed. */
  type Distance = (Location, Location) -> real

  datatype BoundingBox = BoundingBox(minLat: real, maxLat: real, minLon: real, maxLon: real) {
    predicate Contains(p: Location) {
      p.lat >= minLat && p.lat <= maxLat && p.lon >= minLon && p.lon <= maxLon
    }

    /** Strictly inside, away from the edges. */
    predicate Interior(p: Location) {
      minLat < p.lat < maxLat && minLon < p.lon < maxLon
    }

    predicate Within(outer: BoundingBox) {
      outer.minLat <= minLat && maxLat <= outer.maxLat && outer.minLon <= minLon && maxLon <= outer.maxLon
    }
  }
}
