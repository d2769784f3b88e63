/** The heat grid of Grid.cs: a dense `width x height` field of integers with
    bounds-checked, clamping reads and writes and a change event per write. */
module HeatGrid {
  import opened Geometry

  const HeatMapMaxValue: int := 100
  const HeatMapMinValue: int := 0

  /** The coordinates carried by `OnGridValueChangedEventArgs`. */
  datatype Cell = Cell(x: int, y: int)

  /** `cells[x][y]` is the value of grid cell `(x, y)`. */
  datatype Grid = Grid(width: int, height: int, cellSize: real, origin: Vec3, cells: seq<seq<int>>)

  /** The backing array really is `width x height`. */
  predicate WellFormed(g: Grid) {
    && 0 <= g.width
    && 0 <= g.height
    && |g.cells| == g.width
    && forall x :: 0 <= x < |g.cells| ==> |g.cells[x]| == g.height
  }

  /** The grid invariant: every stored value lies in `[HeatMapMinValue, HeatMapMaxValue]`. */
  predicate InRange(g: Grid)
    requires WellFormed(g)
  {
    forall x, y :: 0 <= x < g.width && 0 <= y < g.height ==>
      HeatMapMinValue <= g.cells[x][y] <= HeatMapMaxValue
  }

  /** The same grid geometry: only cell values may differ. */
  predicate SameShape(g: Grid, h: Grid) {
    && g.width == h.width
    && g.height == h.height
    && g.cellSize == h.cellSize
    && g.origin == h.origin
  }

  predicate InBounds(g: Grid, x: int, y: int) {
    x >= 0 && y >= 0 && x < g.width && y < g.height
  }

  /** `new int[width, height]`: every cell starts at 0. */
  function NewGrid(width: nat, height: nat, cellSize: real, origin: Vec3): (g: Grid)
    ensures WellFormed(g) && InRange(g)
    ensures g.width == width && g.height == height
    ensures g.cellSize == cellSize && g.origin == origin
    ensures forall x, y :: GetValue(g, x, y) == 0
  {
    Grid(width, height, cellSize, origin, seq(width, _ => seq(height, _ => 0)))
  }

  /** `Mathf.Clamp(value, HEAT_MAP_MIN_VALUE, HEAT_MAP_MAX_VALUE)`. */
  function Clamp(value: int): (r: int)
    ensures HeatMapMinValue <= r <= HeatMapMaxValue
    ensures HeatMapMinValue <= value <= HeatMapMaxValue ==> r == value
    ensures value < HeatMapMinValue ==> r == HeatMapMinValue
    ensures value > HeatMapMaxValue ==> r == HeatMapMaxValue
  {
    if value < HeatMapMinValue then HeatMapMinValue
    else if value > HeatMapMaxValue then HeatMapMaxValue
    else value
  }

  /** Reads never fail: off the grid the value is 0. */
  function GetValue(g: Grid, x: int, y: int): (r: int)
    requires WellFormed(g)
    ensures !InBounds(g, x, y) ==> r == 0
    ensures InRange(g) ==> HeatMapMinValue <= r <= HeatMapMaxValue
  {
    if InBounds(g, x, y) then g.cells[x][y] else 0
  }

  /** The grid after a write, and the change events the write raised, in order. */
  datatype Update = Update(grid: Grid, events: seq<Cell>)

  /** Store the clamped value and raise one change event; off the grid, do nothing. */
  function SetValue(g: Grid, x: int, y: int, value: int): (r: Update)
    requires WellFormed(g)
    ensures WellFormed(r.grid) && SameShape(g, r.grid)
    ensures InBounds(g, x, y) ==> GetValue(r.grid, x, y) == Clamp(value) && r.events == [Cell(x, y)]
    ensures !InBounds(g, x, y) ==> r.grid == g && r.events == []
    ensures forall i, j :: (i != x || j != y) ==> GetValue(r.grid, i, j) == GetValue(g, i, j)
    ensures InRange(g) ==> InRange(r.grid)
  {
    if InBounds(g, x, y) then
      Update(g.(cells := g.cells[x := g.cells[x][y := Clamp(value)]]), [Cell(x, y)])
    else
      Update(g, [])
  }

  /** Read, add, write back: the sum is clamped and the write raises its event. */
  function AddValue(g: Grid, x: int, y: int, delta: int): (r: Update)
    requires WellFormed(g)
    ensures WellFormed(r.grid) && SameShape(g, r.grid)
    ensures InBounds(g, x, y) ==>
      GetValue(r.grid, x, y) == Clamp(GetValue(g, x, y) + delta) && r.events == [Cell(x, y)]
    ensures !InBounds(g, x, y) ==> r.grid == g && r.events == []
    ensures forall i, j :: (i != x || j != y) ==> GetValue(r.grid, i, j) == GetValue(g, i, j)
  {
    SetValue(g, x, y, GetValue(g, x, y) + delta)
  }

  /** One call of the integer setter or adder. */
  datatype Op = SetOp(x: int, y: int, value: int) | AddOp(x: int, y: int, delta: int)

  function Step(g: Grid, op: Op): Update
    requires WellFormed(g)
  {
    match op
    case SetOp(x, y, v) => SetValue(g, x, y, v)
    case AddOp(x, y, d) => AddValue(g, x, y, d)
  }

  /** A run of calls, collecting all events in the order they are raised. */
  function Run(g: Grid, ops: seq<Op>): (r: Update)
    requires WellFormed(g)
    ensures WellFormed(r.grid) && SameShape(g, r.grid)
    decreases |ops|
  {
    if ops == [] then Update(g, [])
    else
      var u := Step(g, ops[0]);
      var rest := Run(u.grid, ops[1..]);
      Update(rest.grid, u.events + rest.events)
  }

  /** No sequence of writes can move a stored value out of `[0, 100]`. */
  lemma {:induction false} RunKeepsRange(g: Grid, ops: seq<Op>)
    requires WellFormed(g) && InRange(g)
    ensures InRange(Run(g, ops).grid)
    decreases |ops|
  {
    if ops != [] {
      var u := Step(g, ops[0]);
      assert InRange(u.grid);
      RunKeepsRange(u.grid, ops[1..]);
    }
  }

  /** Every write that hits the grid raises exactly one event; the others raise none. */
  function InBoundsCount(g: Grid, ops: seq<Op>): nat {
    if ops == [] then 0
    else (if InBounds(g, ops[0].x, ops[0].y) then 1 else 0) + InBoundsCount(g, ops[1..])
  }

  lemma {:induction false} RunEventCount(g: Grid, ops: seq<Op>)
    requires WellFormed(g)
    ensures |Run(g, ops).events| == InBoundsCount(g, ops)
    decreases |ops|
  {
    if ops != [] {
      var u := Step(g, ops[0]);
      RunEventCount(u.grid, ops[1..]);
      assert InBoundsCount(u.grid, ops[1..]) == InBoundsCount(g, ops[1..]) by {
        InBoundsCountShape(g, u.grid, ops[1..]);
      }
    }
  }

  lemma {:induction false} InBoundsCountShape(g: Grid, h: Grid, ops: seq<Op>)
    requires SameShape(g, h)
    ensures InBoundsCount(g, ops) == InBoundsCount(h, ops)
    decreases |ops|
  {
    if ops != [] {
      InBoundsCountShape(g, h, ops[1..]);
    }
  }

  /** `GetWorldPosition`: the world position of the corner of cell `(x, y)`, `x` and `y`
      cells along from the origin, at the origin's depth; for a positive cell size it
      is the lower corner of that cell's own square. */
  function GetWorldPosition(g: Grid, x: int, y: int): (p: Vec3)
    ensures p.x == g.origin.x + x as real * g.cellSize
    ensures p.y == g.origin.y + y as real * g.cellSize
    ensures p.z == g.origin.z
    ensures g.cellSize > 0.0 ==> InCellSquare(g, p, x, y)
  {
    assert (x + 1) as real * g.cellSize == x as real * g.cellSize + g.cellSize;
    assert (y + 1) as real * g.cellSize == y as real * g.cellSize + g.cellSize;
    Add(Scale(Flat(x as real, y as real), g.cellSize), g.origin)
  }

  /** The world-space square covered by cell `(x, y)`, lower edges included. */
  predicate InCellSquare(g: Grid, p: Vec3, x: int, y: int) {
    && g.origin.x + x as real * g.cellSize <= p.x < g.origin.x + (x + 1) as real * g.cellSize
    && g.origin.y + y as real * g.cellSize <= p.y < g.origin.y + (y + 1) as real * g.cellSize
  }

  /** `GetXY`: floor of the offset from the origin, in cell units. With a positive cell
      size the point lies in the square of the cell it maps to. */
  function GetXY(g: Grid, p: Vec3): (c: Cell)
    requires g.cellSize != 0.0
    ensures c.x as real <= (p.x - g.origin.x) / g.cellSize < c.x as real + 1.0
    ensures c.y as real <= (p.y - g.origin.y) / g.cellSize < c.y as real + 1.0
    ensures g.cellSize > 0.0 ==> InCellSquare(g, p, c.x, c.y)
  {
    var c := Cell(((p.x - g.origin.x) / g.cellSize).Floor, ((p.y - g.origin.y) / g.cellSize).Floor);
    if g.cellSize > 0.0 then
      FloorInCell(p.x - g.origin.x, g.cellSize, c.x);
      FloorInCell(p.y - g.origin.y, g.cellSize, c.y);
      c
    else
      c
  }

  lemma FloorInCell(d: real, s: real, k: int)
    requires s > 0.0 && k == (d / s).Floor
    ensures k as real * s <= d < (k + 1) as real * s
  {
    var t := d / s;
    assert d == t * s;
    assert k as real <= t < (k + 1) as real;
    assert k as real * s <= t * s by { MulLeqRight(k as real, t, s); }
    assert t * s < (k + 1) as real * s by { MulLtRight(t, (k + 1) as real, s); }
  }

  lemma MulLeqRight(a: real, b: real, s: real)
    requires a <= b && s > 0.0
    ensures a * s <= b * s
  {
    assert (b - a) * s >= 0.0;
  }

  lemma MulLtRight(a: real, b: real, s: real)
    requires a < b && s > 0.0
    ensures a * s < b * s
  {
    assert (b - a) * s > 0.0;
  }

  /** A point maps to cell `(x, y)` exactly when it lies in that cell's square;
      in particular a cell's own corner maps back to the cell. */
  lemma {:induction false} GetXYExact(g: Grid, p: Vec3, x: int, y: int)
    requires g.cellSize > 0.0
    ensures GetXY(g, p) == Cell(x, y) <==> InCellSquare(g, p, x, y)
  {
    var c := GetXY(g, p);
    if InCellSquare(g, p, x, y) {
      CellSquareUnique(g.origin.x, g.cellSize, p.x, x, c.x);
      CellSquareUnique(g.origin.y, g.cellSize, p.y, y, c.y);
    }
  }

  lemma CellSquareUnique(o: real, s: real, v: real, a: int, b: int)
    requires s > 0.0
    requires o + a as real * s <= v < o + (a + 1) as real * s
    requires o + b as real * s <= v < o + (b + 1) as real * s
    ensures a == b
  {
    CornerBelow(o, s, v, b, a + 1);
    CornerBelow(o, s, v, a, b + 1);
  }

  /** A corner at or below `v` has a smaller index than a corner above `v`. */
  lemma CornerBelow(o: real, s: real, v: real, a: int, b: int)
    requires s > 0.0
    requires o + a as real * s <= v < o + b as real * s
    ensures a < b
  {
    if b <= a {
      MulLeqRight(b as real, a as real, s);
    }
  }

  lemma WorldPositionRoundTrip(g: Grid, x: int, y: int)
    requires g.cellSize > 0.0
    ensures GetXY(g, GetWorldPosition(g, x, y)) == Cell(x, y)
  {
    var p := GetWorldPosition(g, x, y);
    assert (x + 1) as real * g.cellSize == x as real * g.cellSize + g.cellSize;
    assert (y + 1) as real * g.cellSize == y as real * g.cellSize + g.cellSize;
    GetXYExact(g, p, x, y);
  }

  /** `SetValue(Vector3, int)`: writes the cell whose square holds the point. */
  function SetValueAt(g: Grid, p: Vec3, value: int): (r: Update)
    requires WellFormed(g) && g.cellSize != 0.0
    ensures g.cellSize > 0.0 ==> forall x, y :: InCellSquare(g, p, x, y) ==> r == SetValue(g, x, y, value)
  {
    var c := GetXY(g, p);
    forall x, y | g.cellSize > 0.0 && InCellSquare(g, p, x, y) ensures c == Cell(x, y) {
      GetXYExact(g, p, x, y);
    }
    SetValue(g, c.x, c.y, value)
  }

  /** `GetValue(Vector3)`: reads the cell whose square holds the point. */
  function GetValueAt(g: Grid, p: Vec3): (r: int)
    requires WellFormed(g) && g.cellSize != 0.0
    ensures g.cellSize > 0.0 ==> forall x, y :: InCellSquare(g, p, x, y) ==> r == GetValue(g, x, y)
  {
    var c := GetXY(g, p);
    forall x, y | g.cellSize > 0.0 && InCellSquare(g, p, x, y) ensures c == Cell(x, y) {
      GetXYExact(g, p, x, y);
    }
    GetValue(g, c.x, c.y)
  }
}
