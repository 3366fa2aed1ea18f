/** The spatial hash the reducer rebuilds every tick: vehicles bucketed by
    100-pixel cell, and the neighbourhood query that feeds the leader search. */
module Grid {
  import opened Constants
  import opened Model

  /** One coordinate of a cell key: `Math.floor(c / 100)`, or NaN when the
      coordinate divides to NaN (undefined, an object, a non-numeric string;
      the key string then reads "NaN"). */
  datatype Axis = Cell(index: int) | NaNCell

  type Key = (Axis, Axis)

  type SpatialGrid = map<Key, seq<Vehicle>>

  function AxisOf(c: Coord): Axis {
    match c
    case Num(r) => Cell((r / GRID_CELL_SIZE).Floor)
    case NonNumeric => NaNCell
  }

  function KeyOf(v: Vehicle): Key {
    (AxisOf(v.x), AxisOf(v.y))
  }

  /** `centre + d` on one axis; NaN plus anything is NaN. */
  function ShiftAxis(a: Axis, d: int): Axis {
    match a
    case Cell(i) => Cell(i + d)
    case NaNCell => NaNCell
  }

  /** The bucket of a key, empty when the key is absent. */
  function Bucket(g: SpatialGrid, k: Key): seq<Vehicle> {
    if k in g then g[k] else []
  }

  /** updateSpatialGrid: starting from an empty map, each vehicle in turn is
      appended to the bucket of its cell (the bucket is created on first use). */
  function BuildGrid(vs: seq<Vehicle>): SpatialGrid
    decreases |vs|
  {
    if vs == [] then map[]
    else
      var g := BuildGrid(vs[..|vs| - 1]);
      var v := vs[|vs| - 1];
      g[KeyOf(v) := Bucket(g, KeyOf(v)) + [v]]
  }

  /** Reference definition: the vehicles of `vs` whose cell is `k`, in order. */
  function InCell(vs: seq<Vehicle>, k: Key): (r: seq<Vehicle>)
    ensures forall w :: w in r <==> w in vs && KeyOf(w) == k
    ensures |r| <= |vs|
    decreases |vs|
  {
    if vs == [] then []
    else
      assert vs == vs[..|vs| - 1] + [vs[|vs| - 1]];
      InCell(vs[..|vs| - 1], k) + (if KeyOf(vs[|vs| - 1]) == k then [vs[|vs| - 1]] else [])
  }

  /** Every bucket of the grid holds exactly the vehicles of its cell, in
      input order, and a key is present exactly when its cell is occupied. */
  lemma {:induction false} BuildGridBuckets(vs: seq<Vehicle>, k: Key)
    ensures Bucket(BuildGrid(vs), k) == InCell(vs, k)
    ensures k in BuildGrid(vs) <==> InCell(vs, k) != []
    decreases |vs|
  {
    if vs != [] {
      BuildGridBuckets(vs[..|vs| - 1], k);
      if k != KeyOf(vs[|vs| - 1]) && k in BuildGrid(vs[..|vs| - 1]) {
        assert Bucket(BuildGrid(vs[..|vs| - 1]), k) != [];
      }
    }
  }

  /** The nine keys visited by getNearbyVehicles, dx outer and dy inner, both from -1 to 1. */
  function NeighbourKeys(c: Key): seq<Key> {
    seq(9, i requires 0 <= i < 9 => (ShiftAxis(c.0, i / 3 - 1), ShiftAxis(c.1, i % 3 - 1)))
  }

  /** The buckets of `ks` concatenated in order, skipping absent keys. */
  function Gather(g: SpatialGrid, ks: seq<Key>): (r: seq<Vehicle>)
    ensures forall w :: w in r <==> exists k :: k in ks && w in Bucket(g, k)
    decreases |ks|
  {
    if ks == [] then []
    else
      assert ks == ks[..|ks| - 1] + [ks[|ks| - 1]];
      Gather(g, ks[..|ks| - 1]) + Bucket(g, ks[|ks| - 1])
  }

  /** Visiting key (dx, dy) is visiting entry 3 (dx + 1) + (dy + 1) of the nine. */
  lemma NeighbourKeyAt(c: Key, dx: int, dy: int)
    requires -1 <= dx <= 1 && -1 <= dy <= 1
    ensures NeighbourKeys(c)[3 * (dx + 1) + (dy + 1)] == (ShiftAxis(c.0, dx), ShiftAxis(c.1, dy))
  {
    var n := 3 * (dx + 1) + (dy + 1);
    assert n / 3 - 1 == dx && n % 3 - 1 == dy;
  }

  /** Gathering one more key appends its bucket. */
  lemma GatherStep(g: SpatialGrid, ks: seq<Key>, n: nat)
    requires n < |ks|
    ensures Gather(g, ks[..n + 1]) == Gather(g, ks[..n]) + Bucket(g, ks[n])
  {
    assert ks[..n + 1][..n] == ks[..n];
  }

  /** The filter `v.id !== vehicle.id`, keeping order. */
  function WithoutId(s: seq<Vehicle>, id: int): (r: seq<Vehicle>)
    ensures forall w :: w in r <==> w in s && w.id != id
    ensures |r| <= |s|
    decreases |s|
  {
    if s == [] then []
    else
      assert s == s[..|s| - 1] + [s[|s| - 1]];
      WithoutId(s[..|s| - 1], id) + (if s[|s| - 1].id != id then [s[|s| - 1]] else [])
  }

  /** getNearbyVehicles: the vehicles of the nine cells around the query's
      cell, minus those with the query's id. */
  function Nearby(g: SpatialGrid, q: Vehicle): seq<Vehicle> {
    WithoutId(Gather(g, NeighbourKeys(KeyOf(q))), q.id)
  }

  /** Two axes are neighbours when both are NaN or both are cells at most one apart. */
  predicate Adjacent(a: Axis, b: Axis) {
    (a.NaNCell? && b.NaNCell?) || (a.Cell? && b.Cell? && -1 <= b.index - a.index <= 1)
  }

  /** Some bucket of `g` whose key is adjacent to the cell of `q` on both axes holds `w`. */
  predicate InNeighbourCell(g: SpatialGrid, q: Vehicle, w: Vehicle) {
    exists k :: k in g && w in g[k] && Adjacent(KeyOf(q).0, k.0) && Adjacent(KeyOf(q).1, k.1)
  }

  /** On any grid, the query returns exactly the vehicles of other ids held
      by a bucket adjacent to the query's cell. */
  lemma NearbyInNeighbourCells(g: SpatialGrid, q: Vehicle, w: Vehicle)
    ensures w in Nearby(g, q) <==> w.id != q.id && InNeighbourCell(g, q, w)
  {
    var ks := NeighbourKeys(KeyOf(q));
    if w in Nearby(g, q) {
      var k :| k in ks && w in Bucket(g, k);
      NeighbourKeysAdjacent(KeyOf(q), k);
    }
    if w.id != q.id && InNeighbourCell(g, q, w) {
      var k :| k in g && w in g[k] && Adjacent(KeyOf(q).0, k.0) && Adjacent(KeyOf(q).1, k.1);
      NeighbourKeysAdjacent(KeyOf(q), k);
      assert w in Bucket(g, k);
    }
  }

  /** The nine keys are exactly the keys adjacent on both axes. */
  lemma NeighbourKeysAdjacent(c: Key, k: Key)
    ensures k in NeighbourKeys(c) <==> Adjacent(c.0, k.0) && Adjacent(c.1, k.1)
  {
    var ks := NeighbourKeys(c);
    if k in ks {
      var i :| 0 <= i < 9 && ks[i] == k;
      assert -1 <= i / 3 - 1 <= 1 && -1 <= i % 3 - 1 <= 1;
    }
    if Adjacent(c.0, k.0) && Adjacent(c.1, k.1) {
      var dx := if k.0.Cell? then k.0.index - c.0.index else 0;
      var dy := if k.1.Cell? then k.1.index - c.1.index else 0;
      var i := 3 * (dx + 1) + (dy + 1);
      assert i / 3 - 1 == dx && i % 3 - 1 == dy;
      assert ks[i] == k;
    }
  }

  /** A vehicle is returned by the neighbourhood query on the grid of `vs`
      exactly when it is one of `vs`, has another id, and lies in one of the
      nine cells around the query. */
  lemma NearbyMembers(vs: seq<Vehicle>, q: Vehicle, w: Vehicle)
    ensures w in Nearby(BuildGrid(vs), q) <==>
      w in vs && w.id != q.id && Adjacent(KeyOf(q).0, KeyOf(w).0) && Adjacent(KeyOf(q).1, KeyOf(w).1)
  {
    var g := BuildGrid(vs);
    BuildGridBuckets(vs, KeyOf(w));
    NeighbourKeysAdjacent(KeyOf(q), KeyOf(w));
    if w in Gather(g, NeighbourKeys(KeyOf(q))) {
      var k :| k in NeighbourKeys(KeyOf(q)) && w in Bucket(g, k);
      BuildGridBuckets(vs, k);
    }
  }

  /** Cells of coordinates less than one cell apart are at most one apart. */
  lemma CloseCoordinatesAdjacent(a: real, b: real)
    requires -GRID_CELL_SIZE < b - a < GRID_CELL_SIZE
    ensures Adjacent(AxisOf(Num(a)), AxisOf(Num(b)))
  {
    var fa := (a / GRID_CELL_SIZE).Floor;
    var fb := (b / GRID_CELL_SIZE).Floor;
    assert fa as real <= a / GRID_CELL_SIZE < fa as real + 1.0;
    assert fb as real <= b / GRID_CELL_SIZE < fb as real + 1.0;
    assert -1.0 < b / GRID_CELL_SIZE - a / GRID_CELL_SIZE < 1.0;
  }

  /** The query never misses a vehicle within 100 pixels on both axes. */
  lemma NearbyFindsClose(vs: seq<Vehicle>, q: Vehicle, w: Vehicle)
    requires HasCoords(q) && HasCoords(w) && w in vs && w.id != q.id
    requires -GRID_CELL_SIZE < w.x.value - q.x.value < GRID_CELL_SIZE
    requires -GRID_CELL_SIZE < w.y.value - q.y.value < GRID_CELL_SIZE
    ensures w in Nearby(BuildGrid(vs), q)
  {
    CloseCoordinatesAdjacent(q.x.value, w.x.value);
    CloseCoordinatesAdjacent(q.y.value, w.y.value);
    NearbyMembers(vs, q, w);
  }

  /** A query centred on a NaN axis only ever sees vehicles whose same axis is NaN. */
  lemma NaNCentreSeesOnlyNaN(vs: seq<Vehicle>, q: Vehicle, w: Vehicle)
    requires q.x.NonNumeric? && w in Nearby(BuildGrid(vs), q)
    ensures w.x.NonNumeric?
  {
    NearbyMembers(vs, q, w);
  }
}
