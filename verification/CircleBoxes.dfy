/**
 The rectangles that pre-filter a circle (`bounding_boxes` in crates/domain/src/geo.rs)
 and the SQL predicate built on them (crates/infra/src/db.rs). The half-widths in
 degrees come from trigonometry and are inputs.
 */
module CircleBoxes {
  import opened Locations
  import opened Routing

  /** The angular half-widths of the circle; `reachesPole` is the source's `ratio >= 1`. */
  datatype Extents = Extents(lat: real, lon: real, reachesPole: bool)

  /** The boxes over-cover by a tenth of a percent. */
  const OVER_COVER := 1.001

  function MaxReal(a: real, b: real): real { if a < b then b else a }
  function MinReal(a: real, b: real): real { if a < b then a else b }

  /** All longitudes, the latitudes cut at the poles. */
  function FullLon(minLat: real, maxLat: real): BoundingBox {
    BoundingBox(MaxReal(minLat, -90.0), MinReal(maxLat, 90.0), -180.0, 180.0)
  }

  /** The split at the antimeridian, for a longitude half-width under 180 degrees. */
  function SplitBoxes(centre: Location, dlat: real, dlon: real): (boxes: seq<BoundingBox>)
    ensures 1 <= |boxes| <= 2
  {
    var (minLat, maxLat) := (centre.lat - dlat, centre.lat + dlat);
    var (lo, hi) := (centre.lon - dlon, centre.lon + dlon);
    if lo < -180.0 then
      [BoundingBox(minLat, maxLat, lo + 360.0, 180.0), BoundingBox(minLat, maxLat, -180.0, hi)]
    else if hi > 180.0 then
      [BoundingBox(minLat, maxLat, lo, 180.0), BoundingBox(minLat, maxLat, -180.0, hi - 360.0)]
    else
      [BoundingBox(minLat, maxLat, lo, hi)]
  }

  datatype Boxes = RadiusRejected | Boxes(boxes: seq<BoundingBox>)

  function CircleToBoxes(centre: Location, radius: real, extents: Extents): (r: Boxes)
    ensures r == RadiusRejected <==> !RadiusOk(radius)
    ensures r.Boxes? ==> 1 <= |r.boxes| <= 2
  {
    if radius <= 0.0 || radius > MAX_RADIUS then RadiusRejected
    else
      var dlat := extents.lat * OVER_COVER;
      var (minLat, maxLat) := (centre.lat - dlat, centre.lat + dlat);
      if minLat <= -90.0 || maxLat >= 90.0 then Boxes([FullLon(minLat, maxLat)])
      else if extents.reachesPole then Boxes([FullLon(minLat, maxLat)])
      else
        var dlon := extents.lon * OVER_COVER;
        if dlon >= 180.0 then Boxes([FullLon(minLat, maxLat)])
        else Boxes(SplitBoxes(centre, dlat, dlon))
  }

  predicate InBoxes(boxes: seq<BoundingBox>, p: Location) {
    exists i :: 0 <= i < |boxes| && boxes[i].Contains(p)
  }

  /** The box's edge runs exactly along the antimeridian, and `p` names it from the other side. */
  predicate OnFarSide(centre: Location, dlon: real, p: Location) {
    || (centre.lon + dlon == 180.0 && p.lon == -180.0)
    || (centre.lon - dlon == -180.0 && p.lon == 180.0)
  }

  /**
   What the split contains: the points within both half-widths, the longitude taken
   the short way round, except those of the antimeridian itself when an edge runs
   along it and the point is written with the other sign.
   */
  lemma SplitContains(centre: Location, dlat: real, dlon: real, p: Location)
    requires centre.Valid() && p.Valid() && 0.0 <= dlon < 180.0
    ensures InBoxes(SplitBoxes(centre, dlat, dlon), p) <==>
              WithinExtents(centre, p, dlat, dlon) && !OnFarSide(centre, dlon, p)
  {
    var boxes := SplitBoxes(centre, dlat, dlon);
    if |boxes| == 1 {
      assert InBoxes(boxes, p) <==> boxes[0].Contains(p);
    } else {
      assert InBoxes(boxes, p) <==> boxes[0].Contains(p) || boxes[1].Contains(p);
    }
  }

  /** The split is exact for every point if and only if no edge runs along the antimeridian. */
  lemma SplitIsExactIff(centre: Location, dlat: real, dlon: real)
    requires centre.Valid() && 0.0 <= dlat && 0.0 <= dlon < 180.0
    ensures (forall p: Location :: p.Valid() ==>
               (InBoxes(SplitBoxes(centre, dlat, dlon), p) <==> WithinExtents(centre, p, dlat, dlon)))
            <==> centre.lon + dlon != 180.0 && centre.lon - dlon != -180.0
  {
    forall p: Location | p.Valid()
      ensures InBoxes(SplitBoxes(centre, dlat, dlon), p) <==>
                WithinExtents(centre, p, dlat, dlon) && !OnFarSide(centre, dlon, p)
    {
      SplitContains(centre, dlat, dlon, p);
    }
    if centre.lon + dlon == 180.0 {
      var p := Location(centre.lat, -180.0);
      assert WithinExtents(centre, p, dlat, dlon) && OnFarSide(centre, dlon, p);
    } else if centre.lon - dlon == -180.0 {
      var p := Location(centre.lat, 180.0);
      assert WithinExtents(centre, p, dlat, dlon) && OnFarSide(centre, dlon, p);
    }
  }

  /** One such point: a box from 178 to 180 degrees east misses the same meridian written as -180. */
  lemma SplitMissesTheAntimeridian()
    ensures var (centre, p) := (Location(0.0, 179.0), Location(0.0, -180.0));
            && WithinExtents(centre, p, 1.0, 1.0)
            && !InBoxes(SplitBoxes(centre, 1.0, 1.0), p)
  {
    SplitContains(Location(0.0, 179.0), 1.0, 1.0, Location(0.0, -180.0));
  }

  /**
   The over-cover repairs this: no point within the true extents is ever dropped,
   because a missed point is at the full, widened distance.
   */
  lemma BoxesCoverTheCircle(centre: Location, radius: real, extents: Extents, p: Location)
    requires centre.Valid() && p.Valid() && RadiusOk(radius)
    requires 0.0 < extents.lat && 0.0 < extents.lon
    requires Abs(p.lat - centre.lat) <= extents.lat
    requires extents.reachesPole || WrappedDiff(p.lon, centre.lon) <= extents.lon
    ensures InBoxes(CircleToBoxes(centre, radius, extents).boxes, p)
  {
    var boxes := CircleToBoxes(centre, radius, extents).boxes;
    var dlon := extents.lon * OVER_COVER;
    if boxes == [FullLon(centre.lat - extents.lat * OVER_COVER, centre.lat + extents.lat * OVER_COVER)] {
      assert boxes[0].Contains(p);
    } else {
      SplitContains(centre, extents.lat * OVER_COVER, dlon, p);
    }
  }

  /** All longitudes are taken: a pole is within reach, or the widened half-width is half a turn. */
  predicate AllLongitudes(centre: Location, extents: Extents) {
    || centre.lat - extents.lat * 1.001 <= -90.0 || centre.lat + extents.lat * 1.001 >= 90.0
    || extents.reachesPole || extents.lon * 1.001 >= 180.0
  }

  /**
   The boxes hold exactly the points within the extents widened by a tenth of a percent,
   the far side of an edge on the antimeridian aside.
   */
  lemma BoxesContainExactly(centre: Location, radius: real, extents: Extents, p: Location)
    requires centre.Valid() && p.Valid() && 0.0 < radius <= 500_000.0 && 0.0 <= extents.lon
    ensures InBoxes(CircleToBoxes(centre, radius, extents).boxes, p) <==>
              && Abs(p.lat - centre.lat) <= extents.lat * 1.001
              && (AllLongitudes(centre, extents)
                  || (WrappedDiff(p.lon, centre.lon) <= extents.lon * 1.001 && !OnFarSide(centre, extents.lon * 1.001, p)))
  {
    var boxes := CircleToBoxes(centre, radius, extents).boxes;
    var dlat := extents.lat * 1.001;
    if AllLongitudes(centre, extents) {
      assert boxes == [FullLon(centre.lat - dlat, centre.lat + dlat)];
      assert InBoxes(boxes, p) <==> boxes[0].Contains(p);
    } else {
      SplitContains(centre, dlat, extents.lon * 1.001, p);
    }
  }

  // ------------------------------------------------------------------
  // The SQL predicate
  // ------------------------------------------------------------------

  /** `BETWEEN`: false for every value when the bounds are reversed. */
  predicate Between(v: real, lo: real, hi: real) { lo <= v && v <= hi }

  datatype CircleParams = CircleParams(minLat: real, maxLat: real, lon1: (real, real), lon2: (real, real))

  function NewCircleParams(boxes: seq<BoundingBox>): CircleParams
    requires |boxes| >= 1
  {
    CircleParams(boxes[0].minLat, boxes[0].maxLat, (boxes[0].minLon, boxes[0].maxLon),
                 if |boxes| >= 2 then (boxes[1].minLon, boxes[1].maxLon) else (1.0, 0.0))
  }

  predicate SqlBoxFilter(q: CircleParams, p: Location) {
    && Between(p.lat, q.minLat, q.maxLat)
    && (Between(p.lon, q.lon1.0, q.lon1.1) || Between(p.lon, q.lon2.0, q.lon2.1))
  }

  /** The SQL form accepts exactly the points in the boxes, the empty second range included. */
  lemma SqlFilterIsTheBoxes(centre: Location, radius: real, extents: Extents, p: Location)
    requires RadiusOk(radius)
    ensures var boxes := CircleToBoxes(centre, radius, extents).boxes;
            SqlBoxFilter(NewCircleParams(boxes), p) <==> InBoxes(boxes, p)
  {
    var boxes := CircleToBoxes(centre, radius, extents).boxes;
    if |boxes| == 1 {
      assert InBoxes(boxes, p) <==> boxes[0].Contains(p);
    } else {
      assert InBoxes(boxes, p) <==> boxes[0].Contains(p) || boxes[1].Contains(p);
    }
  }

  /** A row of the devices table. */
  datatype Row = Row(shard: string, at: Location)

  predicate InCircleSql(q: CircleParams, dist: Distance, centre: Location, radius: real, row: Row) {
    SqlBoxFilter(q, row.at) && dist(centre, row.at) <= radius
  }

  function CountWhere(rows: seq<Row>, keep: Row -> bool): nat {
    if rows == [] then 0
    else CountWhere(rows[..|rows| - 1], keep) + if keep(rows[|rows| - 1]) then 1 else 0
  }

  lemma {:induction false} CountsAgree(rows: seq<Row>, f: Row -> bool, g: Row -> bool)
    requires forall i :: 0 <= i < |rows| ==> f(rows[i]) == g(rows[i])
    ensures CountWhere(rows, f) == CountWhere(rows, g)
  {
    if rows != [] {
      CountsAgree(rows[..|rows| - 1], f, g);
    }
  }

  /** `count_in_shard_and_radius`: one pass, two counts. */
  function CountInShardAndRadius(rows: seq<Row>, shard: string, q: CircleParams, dist: Distance,
                                 centre: Location, radius: real): (r: (nat, nat))
  {
    (CountWhere(rows, (row: Row) => row.shard == shard),
     CountWhere(rows, (row: Row) => row.shard == shard && InCircleSql(q, dist, centre, radius, row)))
  }

  ghost function Hits(rows: seq<Row>, keep: Row -> bool): set<int> {
    set i | 0 <= i < |rows| && keep(rows[i])
  }

  /** Counting is the number of rows that qualify. */
  lemma {:induction false} CountIsCardinality(rows: seq<Row>, keep: Row -> bool)
    ensures CountWhere(rows, keep) == |Hits(rows, keep)|
  {
    if rows != [] {
      var n := |rows| - 1;
      CountIsCardinality(rows[..n], keep);
      HitsOfLonger(rows, keep);
    }
  }

  lemma {:induction false} HitsOfLonger(rows: seq<Row>, keep: Row -> bool)
    requires rows != []
    ensures var n := |rows| - 1;
            |Hits(rows, keep)| == |Hits(rows[..n], keep)| + if keep(rows[n]) then 1 else 0
  {
    var n := |rows| - 1;
    var before, now := Hits(rows[..n], keep), Hits(rows, keep);
    HitsElsewhere(rows, keep);
    if keep(rows[n]) {
      assert now == before + {n};
    } else {
      assert now == before;
    }
  }

  lemma {:induction false} HitsElsewhere(rows: seq<Row>, keep: Row -> bool)
    requires rows != []
    ensures var n := |rows| - 1;
            && n !in Hits(rows[..n], keep)
            && (forall i :: i in Hits(rows[..n], keep) ==> i in Hits(rows, keep))
            && (forall i :: i in Hits(rows, keep) && i != n ==> i in Hits(rows[..n], keep))
            && (n in Hits(rows, keep) <==> keep(rows[n]))
  {
    var n := |rows| - 1;
    forall i | i in Hits(rows[..n], keep) ensures i in Hits(rows, keep) {
      assert rows[..n][i] == rows[i];
    }
    forall i | i in Hits(rows, keep) && i != n ensures i in Hits(rows[..n], keep) {
      assert rows[..n][i] == rows[i];
    }
  }

  /**
   Both counts: the first is the number of the shard's devices, and the pre-filter costs
   the second nothing, which is the number of those whose distance is within the radius.
   */
  lemma {:induction false} PrefilterKeepsTheCount(rows: seq<Row>, shard: string, dist: Distance, centre: Location, radius: real, extents: Extents)
    requires centre.Valid() && 0.0 < radius <= 500_000.0 && 0.0 < extents.lat && 0.0 < extents.lon
    requires forall i :: 0 <= i < |rows| ==> rows[i].at.Valid()
    requires forall p: Location :: p.Valid() && dist(centre, p) <= radius ==>
               && Abs(p.lat - centre.lat) <= extents.lat
               && (extents.reachesPole || WrappedDiff(p.lon, centre.lon) <= extents.lon)
    ensures var q := NewCircleParams(CircleToBoxes(centre, radius, extents).boxes);
            var (inShard, inRadius) := CountInShardAndRadius(rows, shard, q, dist, centre, radius);
            && inShard == |set i | 0 <= i < |rows| && rows[i].shard == shard|
            && inRadius == |set i | 0 <= i < |rows| && rows[i].shard == shard && dist(centre, rows[i].at) <= radius|
  {
    var q := NewCircleParams(CircleToBoxes(centre, radius, extents).boxes);
    forall i | 0 <= i < |rows|
      ensures InCircleSql(q, dist, centre, radius, rows[i]) <==> dist(centre, rows[i].at) <= radius
    {
      if dist(centre, rows[i].at) <= radius {
        BoxesCoverTheCircle(centre, radius, extents, rows[i].at);
        SqlFilterIsTheBoxes(centre, radius, extents, rows[i].at);
      }
    }
    var inShard := (row: Row) => row.shard == shard;
    var inBoth := (row: Row) => row.shard == shard && InCircleSql(q, dist, centre, radius, row);
    CountIsCardinality(rows, inShard);
    CountIsCardinality(rows, inBoth);
    assert Hits(rows, inShard) == set i | 0 <= i < |rows| && rows[i].shard == shard;
    assert Hits(rows, inBoth) ==
           set i | 0 <= i < |rows| && rows[i].shard == shard && dist(centre, rows[i].at) <= radius;
    CountsAgree(rows, inShard, (row: Row) => row.shard == shard);
    CountsAgree(rows, inBoth, (row: Row) => row.shard == shard && InCircleSql(q, dist, centre, radius, row));
  }
}
