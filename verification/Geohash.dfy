/**
 Geohash cells by bisection: the device side (crates/domain/src/device.rs,
 `encode_location` and `shard_prefix_of` in crates/domain/src/geo.rs), the decoder of
 the dashboard (crates/api-coordinator/dashboard/app.js), and the square of a regular
 grid that a cell is. A cell is a sequence of bits, longitude first; five bits make
 one character.
 */
module Geohash {
  import opened Options
  import opened Locations

  type Bits = seq<bool>

  const GEOHASH_PRECISION := 7
  const SHARD_PREFIX_LENGTH := 4
  const WORLD := BoundingBox(-90.0, 90.0, -180.0, 180.0)

  // ------------------------------------------------------------------
  // Bits and rectangles
  // ------------------------------------------------------------------

  /** Whether the bit that follows `n` others halves the longitude. */
  predicate LonBit(n: nat) { n % 2 == 0 }

  function MidLon(b: BoundingBox): real { (b.minLon + b.maxLon) / 2.0 }
  function MidLat(b: BoundingBox): real { (b.minLat + b.maxLat) / 2.0 }

  function Narrow(b: BoundingBox, lonBit: bool, upper: bool): BoundingBox {
    if lonBit then
      (if upper then b.(minLon := MidLon(b)) else b.(maxLon := MidLon(b)))
    else
      (if upper then b.(minLat := MidLat(b)) else b.(maxLat := MidLat(b)))
  }

  /** The rectangle a cell covers. */
  function Bounds(bits: Bits): BoundingBox {
    if bits == [] then WORLD
    else Narrow(Bounds(bits[..|bits| - 1]), LonBit(|bits| - 1), bits[|bits| - 1])
  }

  /** The cell of `n` bits that a point falls into. */
  function EncodeBits(p: Location, n: nat): (bits: Bits)
    ensures |bits| == n
  {
    if n == 0 then []
    else
      var init := EncodeBits(p, n - 1);
      var b := Bounds(init);
      init + [if LonBit(n - 1) then p.lon >= MidLon(b) else p.lat >= MidLat(b)]
  }

  /** The decoded rectangle contains the encoded point. */
  lemma {:induction false} EncodedCellContainsPoint(p: Location, n: nat)
    requires p.Valid()
    ensures Bounds(EncodeBits(p, n)).Contains(p)
  {
    if n > 0 {
      EncodedCellContainsPoint(p, n - 1);
      var bits := EncodeBits(p, n);
      assert bits[..n - 1] == EncodeBits(p, n - 1);
    }
  }

  /** Encoding with fewer bits gives a prefix. */
  lemma {:induction false} ShorterEncodingIsPrefix(p: Location, m: nat, n: nat)
    requires m <= n
    ensures EncodeBits(p, n)[..m] == EncodeBits(p, m)
  {
    if m < n {
      ShorterEncodingIsPrefix(p, m, n - 1);
      assert EncodeBits(p, n)[..m] == EncodeBits(p, n - 1)[..m];
    }
  }

  lemma {:induction false} BoundsAreProper(bits: Bits)
    ensures Bounds(bits).minLat < Bounds(bits).maxLat && Bounds(bits).minLon < Bounds(bits).maxLon
  {
    if bits != [] {
      BoundsAreProper(bits[..|bits| - 1]);
    }
  }

  /** Longer cells nest inside their prefixes. */
  lemma {:induction false} LongerCellsNest(bits: Bits, m: nat)
    requires m <= |bits|
    ensures Bounds(bits).Within(Bounds(bits[..m]))
  {
    if m < |bits| {
      var init := bits[..|bits| - 1];
      LongerCellsNest(init, m);
      assert init[..m] == bits[..m];
      BoundsAreProper(init);
    } else {
      assert bits[..m] == bits;
    }
  }

  /** Distinct cells of one length have no interior point in common. */
  lemma {:induction false} DistinctCellsAreDisjoint(a: Bits, b: Bits, p: Location)
    requires |a| == |b| && a != b
    ensures !(Bounds(a).Interior(p) && Bounds(b).Interior(p))
  {
    var n := |a| - 1;
    var a1, b1 := a[..n], b[..n];
    if a1 != b1 {
      DistinctCellsAreDisjoint(a1, b1, p);
      LongerCellsNest(a, n);
      LongerCellsNest(b, n);
    } else {
      assert a == a1 + [a[n]] && b == b1 + [b[n]];
    }
  }

  /**
   The bits in turn, in numbers: after an even number of bits the next one halves the
   longitudes and leaves the latitudes alone, after an odd number the other way round;
   a set bit means the upper half.
   */
  lemma {:induction false} BitsHalveInTurn(bits: Bits, upper: bool)
    ensures var (b, c) := (Bounds(bits), Bounds(bits + [upper]));
            var (midLon, midLat) := ((b.minLon + b.maxLon) / 2.0, (b.minLat + b.maxLat) / 2.0);
            if |bits| % 2 == 0
            then c == BoundingBox(b.minLat, b.maxLat, if upper then midLon else b.minLon, if upper then b.maxLon else midLon)
            else c == BoundingBox(if upper then midLat else b.minLat, if upper then b.maxLat else midLat, b.minLon, b.maxLon)
  {
    OneMoreBit(bits, upper);
  }

  /** The first bit is the eastern or the western half of the world. */
  lemma FirstBitIsTheHemisphere()
    ensures Bounds([]) == BoundingBox(-90.0, 90.0, -180.0, 180.0)
    ensures Bounds([true]) == BoundingBox(-90.0, 90.0, 0.0, 180.0)
    ensures Bounds([false]) == BoundingBox(-90.0, 90.0, -180.0, 0.0)
  {
    OneMoreBit([], true);
    OneMoreBit([], false);
    assert [] + [true] == [true] && [] + [false] == [false];
  }

  /**
   The encoder's choice in numbers: the next bit of a point says whether it is at or
   above the midpoint of the longitudes, or of the latitudes, in turn.
   */
  lemma EncoderComparesInTurn(p: Location, n: nat)
    ensures var b := Bounds(EncodeBits(p, n));
            EncodeBits(p, n + 1) == EncodeBits(p, n) +
              [if n % 2 == 0 then p.lon >= (b.minLon + b.maxLon) / 2.0 else p.lat >= (b.minLat + b.maxLat) / 2.0]
  {
  }

  // ------------------------------------------------------------------
  // Characters
  // ------------------------------------------------------------------

  function Bit(b: bool): nat { if b then 1 else 0 }

  function Value(five: Bits): (v: nat)
    requires |five| == 5
    ensures v < 32
  {
    16 * Bit(five[0]) + 8 * Bit(five[1]) + 4 * Bit(five[2]) + 2 * Bit(five[3]) + Bit(five[4])
  }

  /** `(value >> k) & 1`. */
  function BitOf(v: nat, k: nat): bool {
    (if k == 0 then v else if k == 1 then v / 2 else if k == 2 then v / 4 else if k == 3 then v / 8 else v / 16) % 2 == 1
  }

  function FiveBits(v: nat): (five: Bits)
    ensures |five| == 5
  {
    seq(5, k requires 0 <= k < 5 => BitOf(v, 4 - k))
  }

  lemma FiveBitsOfValue(five: Bits)
    requires |five| == 5
    ensures FiveBits(Value(five)) == five
  {
  }

  /** The character of a value: the digits and the letters without a, i, l and o. */
  function CharOf(v: nat): char
    requires v < 32
  {
    if v < 10 then '0' + v as char
    else if v < 17 then 'b' + (v - 10) as char
    else if v < 19 then 'j' + (v - 17) as char
    else if v < 21 then 'm' + (v - 19) as char
    else 'p' + (v - 21) as char
  }

  /** The value of a character, if it is one of the thirty-two. */
  function ValueOf(c: char): (r: Option<nat>)
    ensures r.Some? ==> r.value < 32 && CharOf(r.value) == c
    ensures r.None? ==> forall v: nat :: v < 32 ==> CharOf(v) != c
  {
    if '0' <= c <= '9' then Some((c - '0') as nat)
    else if 'b' <= c <= 'h' then Some(10 + (c - 'b') as nat)
    else if 'j' <= c <= 'k' then Some(17 + (c - 'j') as nat)
    else if 'm' <= c <= 'n' then Some(19 + (c - 'm') as nat)
    else if 'p' <= c <= 'z' then Some(21 + (c - 'p') as nat)
    else None
  }

  lemma ValueOfCharacter(v: nat)
    requires v < 32
    ensures ValueOf(CharOf(v)) == Some(v)
  {
  }

  /** The characters in the order of their values are the alphabet of the dashboard. */
  lemma CharactersAreBase32()
    ensures seq(32, v requires 0 <= v < 32 => CharOf(v)) == "0123456789bcdefghjkmnpqrstuvwxyz"
  {
  }

  /** The text of a cell whose length is a multiple of five bits. */
  function ToText(bits: Bits): (s: string)
    requires |bits| % 5 == 0
    ensures |s| == |bits| / 5
  {
    if bits == [] then ""
    else
      var n := |bits| - 5;
      ToText(bits[..n]) + [CharOf(Value(bits[n..]))]
  }

  /** The bits a text stands for, if all its characters are geohash characters. */
  function FromText(s: string): (r: Option<Bits>)
    ensures r.Some? ==> |r.value| == 5 * |s|
  {
    if s == "" then Some([])
    else
      var init, v := FromText(s[..|s| - 1]), ValueOf(s[|s| - 1]);
      if init.None? || v.None? then None else Some(init.value + FiveBits(v.value))
  }

  lemma {:induction false} TextRoundTrip(bits: Bits)
    requires |bits| % 5 == 0
    ensures FromText(ToText(bits)) == Some(bits)
  {
    if bits != [] {
      var n := |bits| - 5;
      var s := ToText(bits);
      TextRoundTrip(bits[..n]);
      assert s[..|s| - 1] == ToText(bits[..n]);
      ValueOfCharacter(Value(bits[n..]));
      FiveBitsOfValue(bits[n..]);
      assert bits[..n] + bits[n..] == bits;
    }
  }

  lemma {:induction false} TextPrefix(bits: Bits, k: nat)
    requires |bits| % 5 == 0 && 5 * k <= |bits|
    ensures ToText(bits)[..k] == ToText(bits[..5 * k])
  {
    if 5 * k == |bits| {
      assert bits[..5 * k] == bits;
    } else {
      TextPrefix(bits[..|bits| - 5], k);
      DropLastOfText(bits, k);
    }
  }

  lemma DropLastOfText(bits: Bits, k: nat)
    requires |bits| % 5 == 0 && 5 * k < |bits|
    ensures ToText(bits)[..k] == ToText(bits[..|bits| - 5])[..k]
    ensures bits[..|bits| - 5][..5 * k] == bits[..5 * k]
  {
    var last := LastOfText(bits);
    DropLast(ToText(bits[..|bits| - 5]), last, k);
  }

  lemma DropLast(s: string, last: char, k: nat)
    requires k <= |s|
    ensures (s + [last])[..k] == s[..k]
  {
  }

  lemma LastOfText(bits: Bits) returns (last: char)
    requires |bits| % 5 == 0 && bits != []
    ensures ToText(bits) == ToText(bits[..|bits| - 5]) + [last]
  {
    last := CharOf(Value(bits[|bits| - 5..]));
  }

  /** The geohash of a point with the given number of characters. */
  function Encode(p: Location, chars: nat): (s: string)
    ensures |s| == chars
  {
    ToText(EncodeBits(p, 5 * chars))
  }

  /** `shard_prefix_of`: the first four characters (all of a shorter text). */
  function ShardPrefixOf(geohash: string): string {
    if |geohash| <= SHARD_PREFIX_LENGTH then geohash else geohash[..SHARD_PREFIX_LENGTH]
  }

  /** The shard a device derives from its full geohash is the cell the router computes. */
  lemma ShardPrefixIsShortEncoding(p: Location)
    ensures ShardPrefixOf(Encode(p, GEOHASH_PRECISION)) == Encode(p, SHARD_PREFIX_LENGTH)
  {
    TextPrefix(EncodeBits(p, 35), 4);
    ShorterEncodingIsPrefix(p, 20, 35);
  }

  /** The rectangle of a text, as `cell_bounds` and the dashboard draw it. */
  function CellBounds(hash: string): Option<BoundingBox> {
    var bits := FromText(hash);
    if bits.None? then None else Some(Bounds(bits.value))
  }

  /** The rectangle of a device's shard contains the device. */
  lemma ShardCellContainsDevice(p: Location)
    requires p.Valid()
    ensures var box := CellBounds(ShardPrefixOf(Encode(p, GEOHASH_PRECISION)));
            box.Some? && box.value.Contains(p)
  {
    ShardPrefixIsShortEncoding(p);
    TextRoundTrip(EncodeBits(p, 20));
    EncodedCellContainsPoint(p, 20);
  }

  /** A text is determined by its bits. */
  lemma {:induction false} TextsWithTheSameBits(a: string, b: string)
    requires FromText(a).Some? && FromText(a) == FromText(b)
    ensures a == b
  {
    assert |a| == |b|;
    if a != "" {
      var n := |a| - 1;
      LastCharactersAgree(a, b);
      TextsWithTheSameBits(a[..n], b[..n]);
      assert a == a[..n] + [a[n]] && b == b[..n] + [b[n]];
    }
  }

  /** Distinct prefixes of one length never overlap in their interiors. */
  lemma DistinctPrefixesAreDisjoint(a: string, b: string, p: Location)
    requires |a| == |b| && a != b && FromText(a).Some? && FromText(b).Some?
    ensures !(CellBounds(a).value.Interior(p) && CellBounds(b).value.Interior(p))
  {
    if FromText(a) == FromText(b) {
      TextsWithTheSameBits(a, b);
    }
    DistinctCellsAreDisjoint(FromText(a).value, FromText(b).value, p);
  }

  lemma LastCharactersAgree(a: string, b: string)
    requires FromText(a).Some? && FromText(a) == FromText(b) && |a| == |b| > 0
    ensures var n := |a| - 1;
            a[n] == b[n] && FromText(a[..n]).Some? && FromText(a[..n]) == FromText(b[..n])
  {
    var n := |a| - 1;
    var i := LastCharacter(a);
    var j := LastCharacter(b);
    SplitLastFive(FromText(a[..n]).value, i, FromText(b[..n]).value, j);
  }

  lemma LastCharacter(s: string) returns (v: nat)
    requires s != "" && FromText(s).Some?
    ensures v < 32 && CharOf(v) == s[|s| - 1]
    ensures FromText(s[..|s| - 1]).Some? && FromText(s).value == FromText(s[..|s| - 1]).value + FiveBits(v)
  {
    v := ValueOf(s[|s| - 1]).value;
  }

  lemma SplitLastFive(x: Bits, i: nat, y: Bits, j: nat)
    requires i < 32 && j < 32 && |x| == |y| && x + FiveBits(i) == y + FiveBits(j)
    ensures x == y && i == j
  {
    var f, g := FiveBits(i), FiveBits(j);
    assert (x + f)[..|x|] == x && (y + g)[..|x|] == y;
    assert (x + f)[|x|..] == f && (y + g)[|x|..] == g;
    ValueOfFiveBits(i);
    ValueOfFiveBits(j);
  }

  lemma ValueOfFiveBits(v: nat)
    requires v < 32
    ensures Value(FiveBits(v)) == v
  {
  }

  /** The dashboard's decoder: narrows both ranges character by character, bit by bit. */
  method GeohashBounds(hash: string) returns (box: Option<BoundingBox>)
    ensures box == CellBounds(hash)
  {
    var b := WORLD;
    var evenBit := true;
    ghost var done: Bits := [];
    var i := 0;
    while i < |hash|
      invariant 0 <= i <= |hash|
      invariant FromText(hash[..i]) == Some(done)
      invariant b == Bounds(done) && evenBit == LonBit(|done|)
    {
      var value := ValueOf(hash[i]);
      if value.None? {
        UnknownCharacterSpoilsText(hash, i);
        return None;
      }
      OneMoreCharacter(hash, i, value.value);
      NarrowedIsBounds(done, FiveBits(value.value));
      b, evenBit := NarrowByCharacter(b, evenBit, value.value);
      done := done + FiveBits(value.value);
      i := i + 1;
    }
    assert hash[..i] == hash;
    box := Some(b);
  }

  lemma OneMoreCharacter(s: string, i: nat, value: nat)
    requires i < |s| && ValueOf(s[i]) == Some(value) && FromText(s[..i]).Some?
    ensures FromText(s[..i + 1]) == Some(FromText(s[..i]).value + FiveBits(value))
  {
    assert s[..i + 1][..i] == s[..i];
  }

  /** The rectangle narrowed by some bits, and whether the next one halves the longitude. */
  function Narrowed(b: BoundingBox, even: bool, bits: Bits): (BoundingBox, bool)
    decreases |bits|
  {
    if bits == [] then (b, even) else Narrowed(Narrow(b, even, bits[0]), !even, bits[1..])
  }

  /** Narrowing a cell's rectangle by more bits gives the longer cell's. */
  lemma {:induction false} NarrowedIsBounds(before: Bits, bits: Bits)
    ensures Narrowed(Bounds(before), LonBit(|before|), bits) == (Bounds(before + bits), LonBit(|before + bits|))
    decreases |bits|
  {
    if bits == [] {
      assert before + bits == before;
    } else {
      OneMoreBit(before, bits[0]);
      NextIsOtherBit(|before|);
      NarrowedIsBounds(before + [bits[0]], bits[1..]);
      assert before + [bits[0]] + bits[1..] == before + bits;
    }
  }

  lemma NextIsOtherBit(n: nat)
    ensures LonBit(n + 1) == !LonBit(n)
  {
  }

  /** The inner loop: the five bits of one character, the most significant first. */
  method NarrowByCharacter(start: BoundingBox, even: bool, value: nat) returns (b: BoundingBox, evenBit: bool)
    ensures (b, evenBit) == Narrowed(start, even, FiveBits(value))
  {
    b, evenBit := start, even;
    var bit := 4;
    ghost var left := FiveBits(value);
    while bit >= 0
      invariant -1 <= bit <= 4
      invariant |left| == bit + 1 && forall k :: 0 <= k <= bit ==> left[k] == BitOf(value, bit - k)
      invariant Narrowed(b, evenBit, left) == Narrowed(start, even, FiveBits(value))
    {
      var upper := BitOf(value, bit);
      assert left[0] == upper;
      b := Narrow(b, evenBit, upper);
      evenBit := !evenBit;
      left := left[1..];
      bit := bit - 1;
    }
  }

  lemma OneMoreBit(bits: Bits, upper: bool)
    ensures Bounds(bits + [upper]) == Narrow(Bounds(bits), LonBit(|bits|), upper)
  {
    var more := bits + [upper];
    assert more != [] && more[..|more| - 1] == bits;
  }

  lemma {:induction false} UnknownCharacterSpoilsText(s: string, i: nat)
    requires i < |s| && ValueOf(s[i]).None?
    ensures FromText(s) == None
  {
    if i < |s| - 1 {
      UnknownCharacterSpoilsText(s[..|s| - 1], i);
    }
  }

  // ------------------------------------------------------------------
  // A cell is a square of a regular grid
  // ------------------------------------------------------------------

  /** Which half of the square in column `x` and row `y` is meant by the bit after `n` others. */
  function Halves(x: nat, y: nat, n: nat, upper: bool): (nat, nat) {
    if LonBit(n) then (2 * x + Bit(upper), y) else (x, 2 * y + Bit(upper))
  }

  /** The column and row of a cell. */
  function Place(bits: Bits): (nat, nat) {
    if bits == [] then (0, 0)
    else
      var n := |bits| - 1;
      var at := Place(bits[..n]);
      Halves(at.0, at.1, n, bits[n])
  }

  function Column(bits: Bits): nat { Place(bits).0 }

  function Row(bits: Bits): nat { Place(bits).1 }

  /** How many columns and rows the grid of `n`-bit cells has. */
  function Columns(n: nat): (w: nat)
    ensures w >= 1
  {
    if n == 0 then 1 else if LonBit(n - 1) then 2 * Columns(n - 1) else Columns(n - 1)
  }

  function Rows(n: nat): (h: nat)
    ensures h >= 1
  {
    if n == 0 then 1 else if LonBit(n - 1) then Rows(n - 1) else 2 * Rows(n - 1)
  }

  /** The square in column `x` and row `y` of a `w` by `h` grid over the world. */
  function GridSquare(w: nat, h: nat, x: int, y: int): BoundingBox
    requires w >= 1 && h >= 1
  {
    var (dx, dy) := (360.0 / w as real, 180.0 / h as real);
    BoundingBox(-90.0 + y as real * dy, -90.0 + (y + 1) as real * dy,
                -180.0 + x as real * dx, -180.0 + (x + 1) as real * dx)
  }

  /** Halving a range of equal steps: step `i` of size `d` becomes steps `2i` and `2i + 1` of half the size. */
  lemma HalvedStep(i: int, d: real, origin: real)
    ensures (2 * i) as real * (d / 2.0) == i as real * d
    ensures (2 * i + 2) as real * (d / 2.0) == (i + 1) as real * d
    ensures origin + (2 * i + 1) as real * (d / 2.0)
              == ((origin + i as real * d) + (origin + (i + 1) as real * d)) / 2.0
  {
    var r := i as real;
    assert (2 * i) as real == 2.0 * r && (2 * i + 2) as real == 2.0 * r + 2.0;
    assert (2 * i + 1) as real == 2.0 * r + 1.0 && (i + 1) as real == r + 1.0;
    assert (2.0 * r) * (d / 2.0) == r * d;
    assert (2.0 * r + 2.0) * (d / 2.0) == r * d + d;
    assert (r + 1.0) * d == r * d + d;
    assert (2.0 * r + 1.0) * (d / 2.0) == r * d + d / 2.0;
  }

  lemma HalfColumn(w: nat, h: nat, x: int, y: int, upper: bool)
    requires w >= 1 && h >= 1
    ensures Narrow(GridSquare(w, h, x, y), true, upper) == GridSquare(2 * w, h, 2 * x + Bit(upper), y)
  {
    var d := 360.0 / w as real;
    assert 360.0 / (2 * w) as real == d / 2.0;
    HalvedStep(x, d, -180.0);
  }

  lemma HalfRow(w: nat, h: nat, x: int, y: int, upper: bool)
    requires w >= 1 && h >= 1
    ensures Narrow(GridSquare(w, h, x, y), false, upper) == GridSquare(w, 2 * h, x, 2 * y + Bit(upper))
  {
    var d := 180.0 / h as real;
    assert 180.0 / (2 * h) as real == d / 2.0;
    HalvedStep(y, d, -90.0);
  }

  lemma {:induction false} CellIsGridSquare(bits: Bits)
    ensures Column(bits) < Columns(|bits|) && Row(bits) < Rows(|bits|)
    ensures Bounds(bits) == GridSquare(Columns(|bits|), Rows(|bits|), Column(bits), Row(bits))
  {
    if bits != [] {
      var n := |bits| - 1;
      var init := bits[..n];
      CellIsGridSquare(init);
      if LonBit(n) {
        HalfColumn(Columns(n), Rows(n), Column(init), Row(init), bits[n]);
      } else {
        HalfRow(Columns(n), Rows(n), Column(init), Row(init), bits[n]);
      }
    }
  }

  /** The cell at a column and row. */
  function CellAt(x: nat, y: nat, n: nat): (bits: Bits)
    ensures |bits| == n
  {
    if n == 0 then []
    else if LonBit(n - 1) then CellAt(x / 2, y, n - 1) + [x % 2 == 1]
    else CellAt(x, y / 2, n - 1) + [y % 2 == 1]
  }

  /** Column and row identify the cell. */
  lemma {:induction false} CellAtItsPlace(bits: Bits)
    ensures CellAt(Column(bits), Row(bits), |bits|) == bits
  {
    if bits != [] {
      var n := |bits| - 1;
      var init := bits[..n];
      CellAtItsPlace(init);
      CellAtHalves(Column(init), Row(init), n, bits[n]);
      assert bits == init + [bits[n]];
    }
  }

  lemma CellAtHalves(x: nat, y: nat, n: nat, upper: bool)
    ensures CellAt(Halves(x, y, n, upper).0, Halves(x, y, n, upper).1, n + 1) == CellAt(x, y, n) + [upper]
  {
    HalvedBack(x, upper);
    HalvedBack(y, upper);
  }

  lemma HalvedBack(v: nat, upper: bool)
    ensures (2 * v + Bit(upper)) / 2 == v && ((2 * v + Bit(upper)) % 2 == 1) == upper
  {
  }

  lemma ShardGridIs1024By1024()
    ensures Columns(20) == 1024 && Rows(20) == 1024
  {
    assert Columns(4) == 4 && Rows(4) == 4;
    assert Columns(8) == 16 && Rows(8) == 16;
    assert Columns(12) == 64 && Rows(12) == 64;
    assert Columns(16) == 256 && Rows(16) == 256;
  }

  /** Columns come first: after an odd number of bits there are twice as many as rows, after an even number as many. */
  lemma {:induction false} ColumnsComeFirst(k: nat)
    ensures Columns(2 * k) == Rows(2 * k) && Columns(2 * k + 1) == 2 * Rows(2 * k + 1)
  {
    if k > 0 {
      ColumnsComeFirst(k - 1);
    }
  }

  lemma NarrowedByFive(b: BoundingBox, five: Bits)
    requires |five| == 5
    ensures Narrowed(b, true, five).0 ==
              Narrow(Narrow(Narrow(Narrow(Narrow(b, true, five[0]), false, five[1]), true, five[2]), false, five[3]), true, five[4])
  {
    var b1 := Narrow(b, true, five[0]);
    var b2 := Narrow(b1, false, five[1]);
    var b3 := Narrow(b2, true, five[2]);
    var b4 := Narrow(b3, false, five[3]);
    assert five[1..][1..] == five[2..] && five[2..][1..] == five[3..] && five[3..][1..] == five[4..] && five[4..][1..] == [];
    assert Narrowed(b4, true, five[4..]) == (Narrow(b4, true, five[4]), false);
    assert Narrowed(b3, false, five[3..]) == Narrowed(b4, true, five[4..]);
    assert Narrowed(b2, true, five[2..]) == Narrowed(b3, false, five[3..]);
    assert Narrowed(b1, false, five[1..]) == Narrowed(b2, true, five[2..]);
  }

  /** One cell written out: "t", whose value is 25, is from the equator to 45 north and from 45 to 90 east. */
  lemma CellOfT()
    ensures CellBounds("t") == Some(BoundingBox(0.0, 45.0, 45.0, 90.0))
  {
    BitsOfT();
    CellOfOneCharacter('t', 25);
    NarrowedByFive(WORLD, FiveBits(25));
  }

  lemma BitsOfT()
    ensures ValueOf('t') == Some(25)
    ensures var five := FiveBits(25); five[0] && five[1] && !five[2] && !five[3] && five[4]
  {
  }

  lemma TextOfOneCharacter(c: char, v: nat)
    requires ValueOf(c) == Some(v)
    ensures FromText([c]) == Some(FiveBits(v))
  {
    assert [c][..0] == "";
    assert [] + FiveBits(v) == FiveBits(v);
  }

  lemma CellOfOneCharacter(c: char, v: nat)
    requires ValueOf(c) == Some(v)
    ensures CellBounds([c]) == Some(Narrowed(WORLD, true, FiveBits(v)).0)
  {
    TextOfOneCharacter(c, v);
    NarrowedIsBounds([], FiveBits(v));
    assert [] + FiveBits(v) == FiveBits(v);
  }
}
