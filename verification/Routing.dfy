/**
 Routing an alert circle to shard cells (`shard_prefixes_for_radius` in
 crates/domain/src/geo.rs): ring expansion over the neighbour graph of a grid that
 wraps in longitude, a ring count taken from the angular extents of the circle, and a
 distance prune. Trigonometry stays outside: the extents, the slack of the prune and
 the great-circle distance are inputs, and what is assumed of them is `Metric`.
 */
module Routing {
  import opened Locations
  import opened Sequences
  import opened Geohash

  const MAX_RING_EXPANSION := 100
  const MAX_RADIUS := 500_000.0

  datatype Cell = Cell(x: int, y: int)

  datatype Grid = Grid(w: nat, h: nat) {
    predicate Valid() { w >= 1 && h >= 1 }

    predicate Has(c: Cell) { 0 <= c.x < w && 0 <= c.y < h }

    function Square(c: Cell): BoundingBox
      requires Valid()
    {
      GridSquare(w, h, c.x, c.y)
    }

    function Centre(c: Cell): Location
      requires Valid()
    {
      Location(MidLat(Square(c)), MidLon(Square(c)))
    }

    function CellLon(): real
      requires Valid()
    {
      360.0 / w as real
    }

    function CellLat(): real
      requires Valid()
    {
      180.0 / h as real
    }

    /** One step east or west wraps around; one step north or south may leave the grid. */
    function Shift(c: Cell, dx: int, dy: int): Cell
      requires Valid()
    {
      Cell((c.x + dx) % w, c.y + dy)
    }
  }

  type Neighbours = Cell -> seq<Cell>

  /** The neighbours of a cell include the (up to eight) surrounding ones; at a pole there may be others. */
  ghost predicate SurroundedBy(g: Grid, nbrs: Neighbours)
    requires g.Valid()
  {
    && (forall c, dx, dy :: g.Has(c) && -1 <= dx <= 1 && -1 <= dy <= 1 && (dx, dy) != (0, 0)
          && 0 <= c.y + dy < g.h
          ==> g.Shift(c, dx, dy) in nbrs(c))
    && (forall c, n :: g.Has(c) && n in nbrs(c) ==> g.Has(n))
  }

  // ------------------------------------------------------------------
  // Breadth-first rings
  // ------------------------------------------------------------------

  function Listed(cells: seq<Cell>): set<Cell> {
    set c | c in cells
  }

  function Next(nbrs: Neighbours, cells: set<Cell>): set<Cell> {
    set c, n | c in cells && n in nbrs(c) :: n
  }

  /** The cells and their neighbours. */
  function Grow(nbrs: Neighbours, cells: set<Cell>): set<Cell> {
    set c, n | c in cells && n in [c] + nbrs(c) :: n
  }

  /** The cells at most `k` neighbour steps from `c`. */
  function Reach(nbrs: Neighbours, c: Cell, k: nat): set<Cell> {
    if k == 0 then {c} else Grow(nbrs, Reach(nbrs, c, k - 1))
  }

  /** No neighbour of these cells is missing. */
  ghost predicate Closed(nbrs: Neighbours, cells: set<Cell>) {
    forall c, n :: c in cells && n in nbrs(c) ==> n in cells
  }

  lemma ClosedDoesNotGrow(nbrs: Neighbours, cells: set<Cell>, grown: set<Cell>)
    requires Closed(nbrs, cells) && grown == Grow(nbrs, cells)
    ensures grown == cells
  {
    forall n | n in cells ensures n in grown {
      assert n in [n] + nbrs(n);
    }
  }

  /** Once a ring adds nothing, no later ring does. */
  lemma {:induction false} EmptyRingIsTheLast(nbrs: Neighbours, c: Cell, i: nat, k: nat)
    requires i <= k && Closed(nbrs, Reach(nbrs, c, i))
    ensures Reach(nbrs, c, k) == Reach(nbrs, c, i)
  {
    if i < k {
      EmptyRingIsTheLast(nbrs, c, i, k - 1);
      ClosedDoesNotGrow(nbrs, Reach(nbrs, c, i), Reach(nbrs, c, k));
    }
  }

  lemma {:induction false} ReachStaysInGrid(g: Grid, nbrs: Neighbours, c: Cell, k: nat)
    requires g.Valid() && g.Has(c) && SurroundedBy(g, nbrs)
    ensures forall q :: q in Reach(nbrs, c, k) ==> g.Has(q)
  {
    if k > 0 {
      ReachStaysInGrid(g, nbrs, c, k - 1);
    }
  }

  /** `cells` are what is reached in `i` steps, of which `frontier` was added by the last one. */
  ghost predicate Frontier(nbrs: Neighbours, c: Cell, i: nat, cells: set<Cell>, frontier: set<Cell>) {
    && cells == Reach(nbrs, c, i)
    && frontier <= cells
    && (forall q, n :: q in cells && q !in frontier && n in nbrs(q) ==> n in cells)
  }

  /** `more` are the cells and their neighbours, if it holds those of the frontier. */
  lemma {:induction false} RingFromFrontier(nbrs: Neighbours, c: Cell, i: nat, cells: set<Cell>, frontier: set<Cell>,
                                            added: set<Cell>)
    requires Frontier(nbrs, c, i, cells, frontier)
    requires added <= Next(nbrs, frontier) <= cells + added
    ensures Frontier(nbrs, c, i + 1, cells + added, added)
  {
    var grown := Grow(nbrs, cells);
    assert Reach(nbrs, c, i + 1) == grown;
    forall n ensures n in grown <==> n in cells + added {
      if n in cells {
        assert n in [n] + nbrs(n);
      } else if n in added {
        var q :| q in frontier && n in nbrs(q);
        assert n in [q] + nbrs(q);
      }
    }
  }

  /** If the frontier has no new neighbours, nothing has. */
  lemma ClosedFrontier(nbrs: Neighbours, c: Cell, i: nat, cells: set<Cell>, frontier: set<Cell>)
    requires Frontier(nbrs, c, i, cells, frontier)
    requires forall q, n :: q in frontier && n in nbrs(q) ==> n in cells
    ensures Closed(nbrs, cells)
  {
  }

  /** One ring: every unseen neighbour of the frontier is recorded once. */
  method ExpandRing(nbrs: Neighbours, seen: set<Cell>, frontier: seq<Cell>)
    returns (visited: set<Cell>, nextFrontier: seq<Cell>)
    ensures visited == seen + Listed(nextFrontier)
    ensures Listed(nextFrontier) <= Next(nbrs, Listed(frontier))
    ensures forall c, n :: c in Listed(frontier) && n in nbrs(c) ==> n in visited
    ensures nextFrontier == [] ==> visited == seen
  {
    visited, nextFrontier := seen, [];
    var i := 0;
    while i < |frontier|
      invariant 0 <= i <= |frontier|
      invariant visited == seen + Listed(nextFrontier)
      invariant Listed(nextFrontier) <= Next(nbrs, Listed(frontier))
      invariant forall c, n :: c in Listed(frontier[..i]) && n in nbrs(c) ==> n in visited
    {
      var candidates := nbrs(frontier[i]);
      ghost var before := visited;
      var j := 0;
      while j < |candidates|
        invariant 0 <= j <= |candidates|
        invariant before <= visited == seen + Listed(nextFrontier)
        invariant Listed(nextFrontier) <= Next(nbrs, Listed(frontier))
        invariant forall k :: 0 <= k < j ==> candidates[k] in visited
      {
        if candidates[j] !in visited {
          assert frontier[i] in Listed(frontier) && candidates[j] in nbrs(frontier[i]);
          visited := visited + {candidates[j]};
          nextFrontier := nextFrontier + [candidates[j]];
        }
        j := j + 1;
      }
      assert frontier[..i + 1] == frontier[..i] + [frontier[i]];
      i := i + 1;
    }
    assert frontier[..i] == frontier;
  }

  /** The expansion loop, which stops early when a ring adds nothing. */
  method Expand(nbrs: Neighbours, centre: Cell, rings: nat) returns (visited: set<Cell>)
    ensures visited == Reach(nbrs, centre, rings)
  {
    var frontier := [centre];
    visited := {centre};
    var i := 0;
    while i < rings
      invariant 0 <= i <= rings
      invariant Frontier(nbrs, centre, i, visited, Listed(frontier))
    {
      var more, nextFrontier := ExpandRing(nbrs, visited, frontier);
      if nextFrontier == [] {
        ClosedFrontier(nbrs, centre, i, visited, Listed(frontier));
        EmptyRingIsTheLast(nbrs, centre, i, rings);
        return;
      }
      RingFromFrontier(nbrs, centre, i, visited, Listed(frontier), Listed(nextFrontier));
      visited := more;
      frontier := nextFrontier;
      i := i + 1;
    }
  }

  // ------------------------------------------------------------------
  // Rings are squares of the wrapping grid
  // ------------------------------------------------------------------

  /** `q` is `dx` columns (around the globe) and `dy` rows from `c`. */
  predicate Displaced(g: Grid, c: Cell, q: Cell, dx: int, dy: int)
    requires g.Valid()
  {
    q == g.Shift(c, dx, dy)
  }

  /** At most `k` Chebyshev steps apart on the grid that wraps in longitude. */
  ghost predicate Near(g: Grid, c: Cell, q: Cell, k: int)
    requires g.Valid()
  {
    exists dx, dy :: Displaced(g, c, q, dx, dy) && -k <= dx <= k && -k <= dy <= k
  }

  function Closer(d: int): int {
    if d > 0 then d - 1 else if d < 0 then d + 1 else 0
  }

  lemma ShiftOneMore(g: Grid, c: Cell, dx: int, dy: int)
    requires g.Valid() && g.Has(c)
    ensures g.Shift(g.Shift(c, Closer(dx), Closer(dy)), dx - Closer(dx), dy - Closer(dy)) == g.Shift(c, dx, dy)
  {
    WrapTwice(c.x + Closer(dx), dx - Closer(dx), g.w);
  }

  lemma WrapTwice(a: int, b: int, w: nat)
    requires w >= 1
    ensures (a % w + b) % w == (a + b) % w
  {
    var q, r := a / w, a % w;
    assert a + b == q * w + (r + b);
    AddMultiple(r + b, q, w);
  }

  lemma {:induction false} AddMultiple(a: int, q: int, w: nat)
    requires w >= 1
    ensures (a + q * w) % w == a % w
    decreases if q < 0 then -q else q
  {
    if q > 0 {
      AddMultiple(a, q - 1, w);
      assert a + q * w == (a + (q - 1) * w) + w;
      AddOnce(a + (q - 1) * w, w);
    } else if q < 0 {
      AddMultiple(a, q + 1, w);
      assert a + (q + 1) * w == (a + q * w) + w;
      AddOnce(a + q * w, w);
    }
  }

  lemma AddOnce(a: int, w: nat)
    requires w >= 1
    ensures (a + w) % w == a % w
  {
    var q, r := a / w, a % w;
    assert a + w == (q + 1) * w + r;
    DivisionIsUnique(a + w, w, q + 1, r);
  }

  lemma DivisionIsUnique(n: int, w: nat, q: int, r: int)
    requires w >= 1 && 0 <= r < w && n == q * w + r
    ensures n % w == r
  {
    var q2, r2 := n / w, n % w;
    assert n == q2 * w + r2;
    if q2 + 1 <= q {
      MoreTimes(q2 + 1, q, w);
    } else if q + 1 <= q2 {
      MoreTimes(q + 1, q2, w);
    }
  }

  lemma MoreTimes(a: int, b: int, w: nat)
    requires a <= b
    ensures a * w <= b * w
  {
    assert (b - a) * w >= 0;
    assert b * w == a * w + (b - a) * w;
  }

  lemma InsideNeedsNoWrap(g: Grid, c: Cell)
    requires g.Valid() && g.Has(c)
    ensures g.Shift(c, 0, 0) == c
  {
    DivisionIsUnique(c.x, g.w, 0, c.x);
  }

  lemma OneStepAway(g: Grid, nbrs: Neighbours, m: Cell, sx: int, sy: int)
    requires g.Valid() && g.Has(m) && SurroundedBy(g, nbrs)
    requires -1 <= sx <= 1 && -1 <= sy <= 1 && 0 <= m.y + sy < g.h
    ensures g.Shift(m, sx, sy) == m || g.Shift(m, sx, sy) in nbrs(m)
  {
    if (sx, sy) == (0, 0) {
      InsideNeedsNoWrap(g, m);
    }
  }

  lemma ShiftStaysInGrid(g: Grid, c: Cell, dx: int, dy: int)
    requires g.Valid() && 0 <= c.y + dy < g.h
    ensures g.Has(g.Shift(c, dx, dy))
  {
  }

  lemma ReachedNext(nbrs: Neighbours, c: Cell, k: int, m: Cell, q: Cell)
    requires k > 0 && m in Reach(nbrs, c, k - 1) && (q == m || q in nbrs(m))
    ensures q in Reach(nbrs, c, k)
  {
    assert q in [m] + nbrs(m);
  }

  /** The rings visit every cell within that many Chebyshev steps of the centre. */
  lemma {:induction false} RingsCoverSquares(g: Grid, nbrs: Neighbours, c: Cell, dx: int, dy: int, k: int)
    requires k >= 0 && g.Valid() && g.Has(c) && 0 <= c.y + dy < g.h && SurroundedBy(g, nbrs)
    requires -k <= dx <= k && -k <= dy <= k
    ensures g.Shift(c, dx, dy) in Reach(nbrs, c, k)
    decreases k
  {
    if k == 0 {
      InsideNeedsNoWrap(g, c);
    } else {
      var m := g.Shift(c, Closer(dx), Closer(dy));
      RingsCoverSquares(g, nbrs, c, Closer(dx), Closer(dy), k - 1);
      ShiftStaysInGrid(g, c, Closer(dx), Closer(dy));
      ShiftOneMore(g, c, dx, dy);
      OneStepAway(g, nbrs, m, dx - Closer(dx), dy - Closer(dy));
      ReachedNext(nbrs, c, k, m, g.Shift(c, dx, dy));
    }
  }

  // ------------------------------------------------------------------
  // From degrees to rings
  // ------------------------------------------------------------------

  function Abs(r: real): real { if r < 0.0 then -r else r }

  /** Longitude difference the short way round, for two longitudes in range. */
  function WrappedDiff(a: real, b: real): real {
    var d := Abs(a - b);
    if d <= 360.0 - d then d else 360.0 - d
  }

  /** It is the least difference over all turns around the globe. */
  lemma WrappedDiffIsShortest(a: real, b: real, turns: int)
    requires -180.0 <= a <= 180.0 && -180.0 <= b <= 180.0
    ensures WrappedDiff(a, b) <= Abs(a - b + 360.0 * turns as real)
    ensures WrappedDiff(a, b) in {Abs(a - b), Abs(a - b + 360.0), Abs(a - b - 360.0)}
  {
    if turns >= 1 {
      assert 360.0 * turns as real >= 360.0;
    } else if turns <= -1 {
      assert 360.0 * turns as real <= -360.0;
    }
  }

  /** `p` lies within the angular extents around `c`. */
  predicate WithinExtents(c: Location, p: Location, latExtent: real, lonExtent: real) {
    Abs(p.lat - c.lat) <= latExtent && WrappedDiff(p.lon, c.lon) <= lonExtent
  }

  /** How many cells an extent reaches: `floor(extent / cell) + 1`. */
  function RingsFor(extent: real, cell: real): int
    requires cell > 0.0
  {
    (extent / cell).Floor + 1
  }

  function MaxInt(a: int, b: int): int { if a < b then b else a }

  /** The ring count of the source: the larger of the two, and at least one. */
  function RingsNeeded(g: Grid, latExtent: real, lonExtent: real): (rings: int)
    requires g.Valid()
    ensures rings >= 1
  {
    MaxInt(MaxInt(RingsFor(latExtent, g.CellLat()), RingsFor(lonExtent, g.CellLon())), 1)
  }

  /**
   The ring count is the least number of rings, at least one, whose cells outreach both
   extents.
   */
  lemma RingsNeededIsLeast(g: Grid, latExtent: real, lonExtent: real)
    requires g.Valid()
    ensures var n := RingsNeeded(g, latExtent, lonExtent);
            && latExtent < n as real * g.CellLat() && lonExtent < n as real * g.CellLon()
            && (n > 1 ==> (n - 1) as real * g.CellLat() <= latExtent || (n - 1) as real * g.CellLon() <= lonExtent)
  {
    var n := RingsNeeded(g, latExtent, lonExtent);
    CellSizes(g);
    RingsOutreach(latExtent, g.CellLat(), n);
    RingsOutreach(lonExtent, g.CellLon(), n);
  }

  lemma CellSizes(g: Grid)
    requires g.Valid()
    ensures g.CellLat() > 0.0 && g.CellLon() > 0.0
  {
  }

  lemma RingsOutreach(extent: real, cell: real, n: int)
    requires cell > 0.0
    ensures RingsFor(extent, cell) <= n ==> extent < n as real * cell
    ensures RingsFor(extent, cell) == n ==> (n - 1) as real * cell <= extent
  {
    var q := extent / cell;
    assert q * cell == extent;
    if RingsFor(extent, cell) <= n {
      assert q < n as real;
      LargerTimes(q, n as real, cell);
    }
    if RingsFor(extent, cell) == n {
      var m := (n - 1) as real;
      assert m <= q;
      if m < q {
        LargerTimes(m, q, cell);
      }
    }
  }

  lemma LargerTimes(a: real, b: real, c: real)
    requires a < b && c > 0.0
    ensures a * c < b * c
  {
    assert (b - a) * c > 0.0;
    assert (b - a) * c == b * c - a * c;
  }

  /**
   Two values in the closed steps `i` and `j` of size `d`, the second at most `extent`
   above the first, are at most `floor(extent / d) + 1` steps apart.
   */
  lemma StepsApart(i: int, j: int, a: real, b: real, d: real, extent: real)
    requires d > 0.0
    requires a <= (i + 1) as real * d && j as real * d <= b && b - a <= extent
    ensures j - i <= RingsFor(extent, d)
  {
    var n := j - i - 1;
    assert j as real == (i + 1) as real + n as real;
    assert j as real * d == (i + 1) as real * d + n as real * d;
    assert n as real * d <= extent;
    QuotientAtLeast(n as real, extent, d);
  }

  lemma QuotientAtLeast(n: real, e: real, d: real)
    requires d > 0.0 && n * d <= e
    ensures n <= e / d
  {
    var q := e / d;
    assert q * d == e;
    if q < n {
      assert (n - q) * d > 0.0;
      assert (n - q) * d == n * d - q * d;
    }
  }

  lemma RowsApart(g: Grid, c: Cell, q: Cell, centre: Location, p: Location, latExtent: real)
    requires g.Valid() && g.Square(c).Contains(centre) && g.Square(q).Contains(p)
    requires Abs(p.lat - centre.lat) <= latExtent
    ensures -RingsFor(latExtent, g.CellLat()) <= q.y - c.y <= RingsFor(latExtent, g.CellLat())
  {
    var d := g.CellLat();
    StepsApart(c.y, q.y, centre.lat + 90.0, p.lat + 90.0, d, latExtent);
    StepsApart(q.y, c.y, p.lat + 90.0, centre.lat + 90.0, d, latExtent);
  }

  /** Going once around the globe is `w` columns further. */
  lemma OnceAround(i: int, w: nat, d: real)
    requires w as real * d == 360.0
    ensures (i + w) as real * d == i as real * d + 360.0
    ensures (i + w + 1) as real * d == (i + 1) as real * d + 360.0
  {
    assert (i + w) as real == i as real + w as real;
    assert (i + w + 1) as real == (i + 1) as real + w as real;
  }

  /** Like `StepsApart`, both ways, for longitudes counted from the antimeridian. */
  lemma ColumnsWithin(i: int, j: int, a: real, b: real, d: real, extent: real)
    requires d > 0.0 && -extent <= b - a <= extent
    requires i as real * d <= a <= (i + 1) as real * d
    requires j as real * d <= b <= (j + 1) as real * d
    ensures -RingsFor(extent, d) <= j - i <= RingsFor(extent, d)
  {
    StepsApart(i, j, a, b, d, extent);
    StepsApart(j, i, b, a, d, extent);
  }

  /** The value lies within step `i` of size `d`, its edges included. */
  predicate InStep(i: int, d: real, a: real) {
    i as real * d <= a <= (i + 1) as real * d
  }

  /** Eastwards over the antimeridian, from the larger longitude to the smaller. */
  lemma EastWay(w: nat, d: real, i: int, j: int, a: real, b: real, extent: real)
    requires d > 0.0 && w as real * d == 360.0 && 0 <= i < w && 0 <= j < w
    requires i as real * d <= a <= (i + 1) as real * d
    requires j as real * d <= b <= (j + 1) as real * d
    requires b < a && 360.0 - (a - b) <= extent
    ensures -RingsFor(extent, d) <= j + w - i <= RingsFor(extent, d)
  {
    OnceAround(j, w, d);
    AtMostOnceAround(w, d, i, j, a, b);
    ColumnsWithin(i, j + w, a, b + 360.0, d, extent);
  }

  /** The column displacement of the short way round, of the size the extent allows. */
  lemma ShortWay(w: nat, d: real, i: int, j: int, a: real, b: real, extent: real) returns (dx: int)
    requires d > 0.0 && w as real * d == 360.0 && 0 <= i < w && 0 <= j < w
    requires InStep(i, d, a) && InStep(j, d, b) && WrappedDiff(b, a) <= extent
    ensures -RingsFor(extent, d) <= dx <= RingsFor(extent, d)
    ensures (i + dx) % w == j
  {
    if Abs(b - a) <= extent {
      dx := j - i;
      ColumnsWithin(i, j, a, b, d, extent);
      DivisionIsUnique(j, w, 0, j);
    } else if b < a {
      dx := j + w - i;
      EastWay(w, d, i, j, a, b, extent);
      DivisionIsUnique(j + w, w, 1, j);
    } else {
      dx := -(i + w - j);
      EastWay(w, d, j, i, b, a, extent);
      DivisionIsUnique(j - w, w, -1, j);
    }
  }

  lemma AtMostOnceAround(w: nat, d: real, i: int, j: int, a: real, b: real)
    requires d > 0.0 && w as real * d == 360.0 && 0 <= j && i < w
    requires a <= (i + 1) as real * d && j as real * d <= b
    ensures a - b <= 360.0
  {
    assert (i + 1) as real <= w as real;
    assert (w as real - (i + 1) as real) * d >= 0.0;
    assert (w as real - (i + 1) as real) * d == w as real * d - (i + 1) as real * d;
    assert j as real * d >= 0.0;
  }

  lemma ColumnsApart(g: Grid, c: Cell, q: Cell, centre: Location, p: Location, lonExtent: real) returns (dx: int)
    requires g.Valid() && g.Has(c) && g.Has(q) && InStep(c.x, g.CellLon(), centre.lon + 180.0) && InStep(q.x, g.CellLon(), p.lon + 180.0)
    requires WrappedDiff(p.lon, centre.lon) <= lonExtent
    ensures -RingsFor(lonExtent, g.CellLon()) <= dx <= RingsFor(lonExtent, g.CellLon())
    ensures (c.x + dx) % g.w == q.x
  {
    FullTurn(g);
    dx := ShortWay(g.w, g.CellLon(), c.x, q.x, centre.lon + 180.0, p.lon + 180.0, lonExtent);
  }

  lemma BetweenColumnEdges(g: Grid, c: Cell, p: Location)
    requires g.Valid() && g.Square(c).Contains(p)
    ensures InStep(c.x, g.CellLon(), p.lon + 180.0)
  {
  }

  lemma FullTurn(g: Grid)
    requires g.Valid()
    ensures g.w as real * g.CellLon() == 360.0 && g.CellLon() > 0.0
  {
  }

  /** The ring count reaches every cell that holds a point within the extents. */
  lemma RingsReachExtents(g: Grid, nbrs: Neighbours, c: Cell, q: Cell, centre: Location, p: Location,
                          latExtent: real, lonExtent: real)
    requires g.Valid() && g.Has(c) && g.Has(q) && SurroundedBy(g, nbrs)
    requires g.Square(c).Contains(centre) && g.Square(q).Contains(p)
    requires WithinExtents(centre, p, latExtent, lonExtent)
    ensures Near(g, c, q, RingsNeeded(g, latExtent, lonExtent))
    ensures q in Reach(nbrs, c, RingsNeeded(g, latExtent, lonExtent))
  {
    RowsApart(g, c, q, centre, p, latExtent);
    BetweenColumnEdges(g, c, centre);
    BetweenColumnEdges(g, q, p);
    var dx := ColumnsApart(g, c, q, centre, p, lonExtent);
    var dy := q.y - c.y;
    assert Displaced(g, c, q, dx, dy);
    RingsCoverSquares(g, nbrs, c, dx, dy, RingsNeeded(g, latExtent, lonExtent));
  }

  // ------------------------------------------------------------------
  // The whole of the routing
  // ------------------------------------------------------------------

  /** The circle and what trigonometry says about it. */
  datatype Circle = Circle(centre: Location, radius: real, latExtent: real, lonExtent: real, slack: real)

  /**
   What is assumed of the great-circle distance: the triangle inequality, that a
   point of the circle lies within the angular extents, and that a point of the circle
   is at most the slack away from the centre of a cell it lies in.
   */
  ghost predicate Metric(g: Grid, dist: Distance, circle: Circle)
    requires g.Valid()
  {
    && (forall a: Location, b: Location, c: Location :: a.Valid() && b.Valid() && c.Valid() ==>
          dist(a, c) <= dist(a, b) + dist(b, c))
    && (forall p: Location :: p.Valid() && dist(circle.centre, p) <= circle.radius ==>
          WithinExtents(circle.centre, p, circle.latExtent, circle.lonExtent))
    && (forall p: Location, q :: p.Valid() && dist(circle.centre, p) <= circle.radius
          && g.Has(q) && g.Square(q).Contains(p)
          ==> dist(p, g.Centre(q)) <= circle.slack)
  }

  datatype Route = InvalidRadius | TooManyRings(rings: int) | Routed(cells: seq<Cell>)

  /** What the prune keeps. */
  predicate Kept(g: Grid, dist: Distance, circle: Circle, c: Cell)
    requires g.Valid()
  {
    dist(circle.centre, g.Centre(c)) <= circle.radius + circle.slack
  }

  predicate RadiusOk(radius: real) { 0.0 < radius <= MAX_RADIUS }

  method ShardCellsForRadius(g: Grid, nbrs: Neighbours, dist: Distance, circle: Circle, centreCell: Cell)
    returns (route: Route)
    requires g.Valid()
    ensures route == InvalidRadius <==> !(0.0 < circle.radius <= 500_000.0)
    ensures 0.0 < circle.radius <= 500_000.0 ==>
              (route.TooManyRings? <==> RingsNeeded(g, circle.latExtent, circle.lonExtent) > 100)
    ensures route.Routed? ==>
              forall q :: q in route.cells ==> dist(circle.centre, g.Centre(q)) <= circle.radius + circle.slack
    ensures route.Routed? ==>
              && NoRepeats(route.cells)
              && forall q :: q in route.cells <==>
                   q in Reach(nbrs, centreCell, RingsNeeded(g, circle.latExtent, circle.lonExtent))
                   && Kept(g, dist, circle, q)
  {
    if circle.radius <= 0.0 || circle.radius > MAX_RADIUS {
      return InvalidRadius;
    }
    var rings := RingsNeeded(g, circle.latExtent, circle.lonExtent);
    if rings > MAX_RING_EXPANSION {
      return TooManyRings(rings);
    }
    var visited := Expand(nbrs, centreCell, rings);
    var result := [];
    var todo := visited;
    while todo != {}
      invariant todo <= visited && NoRepeats(result)
      invariant forall q :: q in result <==> q in visited - todo && Kept(g, dist, circle, q)
      decreases todo
    {
      var cell :| cell in todo;
      if dist(circle.centre, g.Centre(cell)) <= circle.radius + circle.slack {
        assert cell !in result;
        result := result + [cell];
      }
      todo := todo - {cell};
    }
    route := Routed(result);
  }

  /**
   Routing coverage: a cell that holds a point of the circle is reached by the rings
   and kept by the prune.
   */
  lemma RoutingCoverage(g: Grid, nbrs: Neighbours, dist: Distance, circle: Circle, centreCell: Cell,
                        p: Location, q: Cell)
    requires g.Valid() && SurroundedBy(g, nbrs) && Metric(g, dist, circle)
    requires g.Has(centreCell) && circle.centre.Valid() && g.Square(centreCell).Contains(circle.centre)
    requires p.Valid() && dist(circle.centre, p) <= circle.radius
    requires g.Has(q) && g.Square(q).Contains(p)
    ensures q in Reach(nbrs, centreCell, RingsNeeded(g, circle.latExtent, circle.lonExtent))
    ensures Kept(g, dist, circle, q)
  {
    RingsReachExtents(g, nbrs, centreCell, q, circle.centre, p, circle.latExtent, circle.lonExtent);
    CentreIsValid(g, q);
    assert dist(circle.centre, g.Centre(q)) <= dist(circle.centre, p) + dist(p, g.Centre(q));
  }

  /** The centre of a cell of the grid is a point of the globe. */
  lemma CentreIsValid(g: Grid, c: Cell)
    requires g.Valid() && g.Has(c)
    ensures g.Centre(c).Valid()
  {
    StepsInside(g.w, 360.0, c.x);
    StepsInside(g.h, 180.0, c.y);
  }

  /** Step `i` of `n` equal steps lies within the whole. */
  lemma StepsInside(n: nat, whole: real, i: int)
    requires n >= 1 && whole > 0.0 && 0 <= i < n
    ensures var d := whole / n as real;
            0.0 <= i as real * d <= (i + 1) as real * d <= whole
  {
    var d := whole / n as real;
    assert n as real * d == whole && d > 0.0;
    assert (i + 1) as real == i as real + 1.0;
    assert (i + 1) as real * d == i as real * d + d;
    var rest := (n - i - 1) as real;
    assert n as real == (i + 1) as real + rest && rest * d >= 0.0;
    assert n as real * d == (i + 1) as real * d + rest * d;
  }

  // ------------------------------------------------------------------
  // In terms of shard prefixes
  // ------------------------------------------------------------------

  const SHARD_BITS := 20
  const SHARD_GRID := Grid(Columns(SHARD_BITS), Rows(SHARD_BITS))

  function CellOfBits(bits: Bits): Cell {
    Cell(Column(bits), Row(bits))
  }

  /** The shard prefix of a cell of the shard grid. */
  function PrefixOfCell(c: Cell): string
    requires SHARD_GRID.Has(c)
  {
    ToText(CellAt(c.x, c.y, SHARD_BITS))
  }

  /** The cell of a point: inside the grid, containing the point, named by its shard prefix. */
  lemma CellOfPoint(p: Location)
    requires p.Valid()
    ensures var c := CellOfBits(EncodeBits(p, SHARD_BITS));
            && SHARD_GRID.Has(c) && SHARD_GRID.Square(c).Contains(p)
            && PrefixOfCell(c) == Encode(p, SHARD_PREFIX_LENGTH)
  {
    var bits := EncodeBits(p, SHARD_BITS);
    CellIsGridSquare(bits);
    EncodedCellContainsPoint(p, SHARD_BITS);
    CellAtItsPlace(bits);
  }

  /**
   The two sides agree: the shard a device inside the circle registers with, taken
   from its own seven-character geohash, is among the prefixes of the routed cells.
   */
  lemma EveryDeviceInsideIsRouted(nbrs: Neighbours, dist: Distance, circle: Circle, device: Location)
    requires SurroundedBy(SHARD_GRID, nbrs) && Metric(SHARD_GRID, dist, circle)
    requires circle.centre.Valid() && device.Valid() && dist(circle.centre, device) <= circle.radius
    ensures exists q ::
              && SHARD_GRID.Has(q) && Kept(SHARD_GRID, dist, circle, q)
              && q in Reach(nbrs, CellOfBits(EncodeBits(circle.centre, SHARD_BITS)),
                            RingsNeeded(SHARD_GRID, circle.latExtent, circle.lonExtent))
              && PrefixOfCell(q) == ShardPrefixOf(Encode(device, GEOHASH_PRECISION))
  {
    var c := CellOfBits(EncodeBits(circle.centre, SHARD_BITS));
    var q := CellOfBits(EncodeBits(device, SHARD_BITS));
    CellOfPoint(circle.centre);
    CellOfPoint(device);
    ShardPrefixIsShortEncoding(device);
    RoutingCoverage(SHARD_GRID, nbrs, dist, circle, c, device, q);
  }
}
