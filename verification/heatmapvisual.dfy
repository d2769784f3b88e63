/** HeatMapVisual.cs: the mesh that shows the grid, rebuilt in full from the grid, and
    the dirty flag that folds all change events of a frame into one rebuild. */
module HeatMapVisual {
  import opened Geometry
  import opened HeatGrid
  import opened MeshUtils

  /** The slot of cell `(x, y)`: columns of `height` cells, one after the other. */
  function Slot(height: int, x: int, y: int): int {
    x * height + y
  }

  lemma MulLeq(a: int, b: int, c: int)
    requires a <= b && 0 <= c
    ensures a * c <= b * c
  {
    assert b * c - a * c == (b - a) * c;
  }

  /** Every cell of the grid has a slot inside `[0, width * height)`. */
  lemma SlotInRange(width: int, height: int, x: int, y: int)
    requires 0 <= x < width && 0 <= y < height
    ensures 0 <= Slot(height, x, y) < width * height
  {
    MulLeq(x, width - 1, height);
    MulLeq(0, x, height);
    assert (width - 1) * height == width * height - height;
  }

  /** Dividing a slot by the height recovers the cell: column by quotient, row by remainder. */
  lemma SlotInverse(height: int, x: int, y: int)
    requires 0 <= y < height
    ensures Slot(height, x, y) / height == x
    ensures Slot(height, x, y) % height == y
  {
    var s := Slot(height, x, y);
    var q := s / height;
    var r := s % height;
    assert s == q * height + r;
    assert (q - x) * height == y - r;
    if q > x {
      MulLeq(1, q - x, height);
      assert false;
    }
    if q < x {
      MulLeq(1, x - q, height);
      assert false;
    }
  }

  /** Two cells never share a slot. */
  lemma SlotInjective(height: int, x1: int, y1: int, x2: int, y2: int)
    requires 0 <= y1 < height && 0 <= y2 < height
    requires Slot(height, x1, y1) == Slot(height, x2, y2)
    ensures x1 == x2 && y1 == y2
  {
    SlotInverse(height, x1, y1);
    SlotInverse(height, x2, y2);
  }

  /** Every slot of `[0, width * height)` belongs to a cell of the grid. */
  lemma SlotOnto(width: int, height: int, s: int)
    requires 0 <= width && 0 <= height
    requires 0 <= s < width * height
    ensures height > 0
    ensures 0 <= s / height < width && 0 <= s % height < height
    ensures Slot(height, s / height, s % height) == s
  {
    if height <= 0 {
      MulLeq(height, 0, width);
      assert false;
    }
    var q := s / height;
    assert s == q * height + s % height;
    if q >= width {
      MulLeq(width, q, height);
      assert false;
    }
    if q < 0 {
      MulLeq(q, -1, height);
      assert false;
    }
  }

  /** `new Vector3(1, 1) * cellSize`: every cell's quad is a square of the cell size. */
  function QuadSize(g: Grid): Vec3 {
    Scale(Flat(1.0, 1.0), g.cellSize)
  }

  /** The centre of cell `(x, y)`: its corner plus half a cell on both axes. */
  function CellCenter(g: Grid, x: int, y: int): Vec3 {
    Add(GetWorldPosition(g, x, y), Scale(QuadSize(g), 0.5))
  }

  /** The cell value as a point on the one-dimensional gradient texture. */
  function ValueUV(value: int): Vec2 {
    Vec2(value as real / HeatMapMaxValue as real, 0.0)
  }

  /** What a rebuild writes for cell `(x, y)`: an unrotated square at the cell centre,
      flat-coloured by the cell value, in slot `x * height + y`. */
  function CellQuad(g: Grid, x: int, y: int): Quad
    requires WellFormed(g) && 0 <= Slot(g.height, x, y)
  {
    var uv := ValueUV(GetValue(g, x, y));
    NewQuad(Slot(g.height, x, y), CellCenter(g, x, y), 0, QuadSize(g), uv, uv)
  }

  /** Slot of cell `(x, y)` holds that cell's quad. */
  predicate SlotWritten(b: Buffers, g: Grid, x: int, y: int)
    requires WellFormed(g) && InBounds(g, x, y)
  {
    SlotInRange(g.width, g.height, x, y);
    && Holds(b, g.width * g.height)
    && QuadAt(b, Slot(g.height, x, y)) == CellQuad(g, x, y)
  }

  /** The cell that owns slot `s`, for a grid with at least one row. */
  function SlotCell(g: Grid, s: int): Cell {
    if g.height <= 0 then Cell(0, 0) else Cell(s / g.height, s % g.height)
  }

  /** The full rebuild as a pure function: element `k` of each buffer comes from the
      cell owning slot `k / 4` (vertices, UVs) or `k / 6` (triangles). */
  function Rebuild(g: Grid): Buffers
    requires WellFormed(g)
  {
    var n := g.width * g.height;
    assert n >= 0 by { MulLeq(0, g.width, g.height); }
    Buffers(
      seq(4 * n, k requires 0 <= k < 4 * n => RebuildVertex(g, k)),
      seq(4 * n, k requires 0 <= k < 4 * n => ValueUV(GetValue(g, SlotCell(g, k / 4).x, SlotCell(g, k / 4).y))),
      seq(6 * n, k requires 0 <= k < 6 * n => 4 * (k / 6) + [0, 3, 1, 1, 3, 2][k % 6]))
  }

  function RebuildVertex(g: Grid, k: int): Vertex
    requires WellFormed(g) && 0 <= k
  {
    var c := SlotCell(g, k / 4);
    QuadVertices(CellCenter(g, c.x, c.y), 0, QuadSize(g))[k % 4]
  }

  /** Buffers for `width * height` quads whose every slot holds its cell's quad are
      exactly `Rebuild(g)`. */
  lemma RebuildUnique(g: Grid, b: Buffers)
    requires WellFormed(g)
    requires Holds(b, g.width * g.height)
    requires forall x, y :: InBounds(g, x, y) ==> SlotWritten(b, g, x, y)
    ensures b == Rebuild(g)
  {
    var n := g.width * g.height;
    var r := Rebuild(g);
    forall k | 0 <= k < 4 * n
      ensures b.vertices[k] == r.vertices[k] && b.uvs[k] == r.uvs[k]
    {
      RebuildCorner(g, b, k);
    }
    forall k | 0 <= k < 6 * n
      ensures b.triangles[k] == r.triangles[k]
    {
      RebuildTriangle(g, b, k);
    }
  }

  /** The cell owning slot `s` is in bounds, and slot `s` holds its quad. */
  lemma SlotOwner(g: Grid, b: Buffers, s: int)
    requires WellFormed(g)
    requires forall x, y :: InBounds(g, x, y) ==> SlotWritten(b, g, x, y)
    requires 0 <= s < g.width * g.height
    ensures InBounds(g, SlotCell(g, s).x, SlotCell(g, s).y)
    ensures Slot(g.height, SlotCell(g, s).x, SlotCell(g, s).y) == s
    ensures SlotFits(b, s) && QuadAt(b, s) == CellQuad(g, SlotCell(g, s).x, SlotCell(g, s).y)
  {
    SlotOnto(g.width, g.height, s);
    var c := SlotCell(g, s);
    assert SlotWritten(b, g, c.x, c.y);
  }

  lemma RebuildCorner(g: Grid, b: Buffers, k: int)
    requires WellFormed(g)
    requires Holds(b, g.width * g.height)
    requires forall x, y :: InBounds(g, x, y) ==> SlotWritten(b, g, x, y)
    requires 0 <= k < 4 * (g.width * g.height)
    ensures b.vertices[k] == Rebuild(g).vertices[k] && b.uvs[k] == Rebuild(g).uvs[k]
  {
    var s := k / 4;
    var j := k % 4;
    assert k == 4 * s + j && 0 <= j < 4;
    SlotOwner(g, b, s);
    var c := SlotCell(g, s);
    var q := QuadAt(b, s);
    assert b.vertices[k] == q.vertices[j] && b.uvs[k] == q.uvs[j];
    var uv := ValueUV(GetValue(g, c.x, c.y));
    FlatColourQuad(uv);
    assert q.uvs[j] == uv;
  }

  lemma RebuildTriangle(g: Grid, b: Buffers, k: int)
    requires WellFormed(g)
    requires Holds(b, g.width * g.height)
    requires forall x, y :: InBounds(g, x, y) ==> SlotWritten(b, g, x, y)
    requires 0 <= k < 6 * (g.width * g.height)
    ensures b.triangles[k] == Rebuild(g).triangles[k]
  {
    var s := k / 6;
    var j := k % 6;
    assert k == 6 * s + j && 0 <= j < 6;
    SlotOwner(g, b, s);
    var q := QuadAt(b, s);
    assert b.triangles[k] == q.triangles[j];
    assert q.triangles == QuadTriangles(s);
    assert QuadTriangles(s)[j] == 4 * s + [0, 3, 1, 1, 3, 2][j];
  }

  /** `UpdateHeatMapVisual`: allocate buffers for every cell, then write each cell's
      quad into its slot, column by column. */
  method UpdateHeatMapVisual(g: Grid) returns (b: Buffers)
    requires WellFormed(g)
    ensures Holds(b, g.width * g.height)
    ensures IndicesInRange(b)
    ensures forall x, y :: InBounds(g, x, y) ==> SlotWritten(b, g, x, y)
    ensures b == Rebuild(g)
  {
    var w := g.width;
    var h := g.height;
    assert w * h >= 0 by { MulLeq(0, w, h); }
    b := CreateEmptyMeshArrays(w * h);
    var x := 0;
    while x < w
      invariant 0 <= x <= w
      invariant Holds(b, w * h) && IndicesInRange(b)
      invariant forall i, j :: InBounds(g, i, j) && i < x ==> SlotWritten(b, g, i, j)
    {
      var y := 0;
      while y < h
        invariant 0 <= y <= h
        invariant Holds(b, w * h) && IndicesInRange(b)
        invariant forall i, j :: InBounds(g, i, j) && (i < x || (i == x && j < y)) ==> SlotWritten(b, g, i, j)
      {
        var index := x * h + y;
        SlotInRange(w, h, x, y);
        var uv := ValueUV(GetValue(g, x, y));
        var b' := AddToMeshArrays(b, index, CellCenter(g, x, y), 0, QuadSize(g), uv, uv);
        forall i, j | InBounds(g, i, j) && (i < x || (i == x && j <= y))
          ensures SlotWritten(b', g, i, j)
        {
          SlotInRange(w, h, i, j);
          AddToMeshArraysSlots(b, index, CellCenter(g, x, y), 0, QuadSize(g), uv, uv, Slot(h, i, j));
          if i != x || j != y {
            if Slot(h, i, j) == index {
              SlotInjective(h, i, j, x, y);
            }
            assert SlotWritten(b, g, i, j);
          }
        }
        b := b';
        y := y + 1;
      }
      x := x + 1;
    }
    RebuildUnique(g, b);
  }

  /** The state `HeatMapVisual` keeps between frames. `rebuilds` counts calls of
      `UpdateHeatMapVisual`, so that coalescing can be stated. */
  datatype Visual = Visual(subscribed: bool, updateMesh: bool, mesh: Buffers, rebuilds: nat)

  /** The mesh a visual shows is always well formed. */
  predicate MeshOk(b: Buffers) {
    && |b.vertices| % 4 == 0
    && Holds(b, |b.vertices| / 4)
    && IndicesInRange(b)
  }

  /** `Awake`: a fresh, empty mesh, no grid yet. */
  function Awake(): (v: Visual)
    ensures v.mesh == CreateEmptyMesh() && MeshOk(v.mesh)
    ensures !v.subscribed && !v.updateMesh && v.rebuilds == 0
  {
    Visual(false, false, CreateEmptyMesh(), 0)
  }

  /** Rebuilt buffers always form a well-formed mesh. */
  lemma RebuildOk(g: Grid)
    requires WellFormed(g)
    ensures MeshOk(Rebuild(g))
  {
    var r := Rebuild(g);
    var n := g.width * g.height;
    assert n >= 0 by { MulLeq(0, g.width, g.height); }
    forall k | 0 <= k < |r.triangles| ensures 0 <= r.triangles[k] < |r.vertices| {
      assert 4 * (k / 6) + 4 <= 4 * n;
    }
  }

  /** `SetGrid`: rebuild at once from the new grid, then subscribe to its change events.
      The rebuild raises no events, so it leaves the dirty flag as it was. */
  function SetGrid(v: Visual, g: Grid): (r: Visual)
    requires WellFormed(g)
    ensures r.mesh == Rebuild(g) && MeshOk(r.mesh)
    ensures r.rebuilds == v.rebuilds + 1
    ensures r.subscribed && r.updateMesh == v.updateMesh
  {
    RebuildOk(g);
    v.(mesh := Rebuild(g), rebuilds := v.rebuilds + 1).(subscribed := true)
  }

  /** `Grid_OnGridValueChanged`: only mark the mesh dirty. */
  function GridValueChanged(v: Visual): (r: Visual)
    ensures r.updateMesh && r.mesh == v.mesh && r.rebuilds == v.rebuilds
    ensures r.subscribed == v.subscribed
  {
    v.(updateMesh := true)
  }

  /** A frame's change events, each handed to the handler when subscribed. */
  function Deliver(v: Visual, events: seq<Cell>): Visual
    decreases |events|
  {
    if events == [] then v
    else Deliver(if v.subscribed then GridValueChanged(v) else v, events[1..])
  }

  /** However many events arrive, delivery only sets the flag, and sets it exactly
      when at least one reached a subscribed handler. */
  lemma {:induction false} DeliverSetsFlag(v: Visual, events: seq<Cell>)
    ensures Deliver(v, events) == v.(updateMesh := v.updateMesh || (v.subscribed && |events| > 0))
    decreases |events|
  {
    if events != [] {
      var v' := if v.subscribed then GridValueChanged(v) else v;
      DeliverSetsFlag(v', events[1..]);
    }
  }

  /** `LateUpdate`: if dirty, clear the flag and rebuild once from the grid as it is now. */
  function LateUpdate(v: Visual, g: Grid): (r: Visual)
    requires WellFormed(g)
    ensures !r.updateMesh && r.subscribed == v.subscribed
    ensures r.rebuilds == v.rebuilds + (if v.updateMesh then 1 else 0)
    ensures v.updateMesh ==> r.mesh == Rebuild(g)
    ensures !v.updateMesh ==> r == v
    ensures MeshOk(v.mesh) ==> MeshOk(r.mesh)
  {
    RebuildOk(g);
    if v.updateMesh then v.(updateMesh := false, mesh := Rebuild(g), rebuilds := v.rebuilds + 1)
    else v
  }

  /** One frame: the events raised while painting, then `LateUpdate`. */
  function Frame(v: Visual, events: seq<Cell>, g: Grid): Visual
    requires WellFormed(g)
  {
    LateUpdate(Deliver(v, events), g)
  }

  /** Any number of change events in a frame cost at most one rebuild, there is one
      exactly when the visual was dirty or heard an event, and then the mesh shows the
      grid as it stands at the end of the frame. */
  lemma FrameCoalesces(v: Visual, events: seq<Cell>, g: Grid)
    requires WellFormed(g)
    ensures var r := Frame(v, events, g);
      && !r.updateMesh && r.subscribed == v.subscribed
      && r.rebuilds <= v.rebuilds + 1
      && (r.rebuilds == v.rebuilds + 1 <==> v.updateMesh || (v.subscribed && |events| > 0))
      && (v.updateMesh || (v.subscribed && |events| > 0) ==> r.mesh == Rebuild(g))
      && (!v.updateMesh && !(v.subscribed && |events| > 0) ==> r.mesh == v.mesh)
  {
    DeliverSetsFlag(v, events);
  }

  /** Over a run of frames the visual rebuilds at most once per frame, and its mesh
      stays well formed. */
  function Frames(v: Visual, frames: seq<(seq<Cell>, Grid)>): Visual
    requires forall i :: 0 <= i < |frames| ==> WellFormed(frames[i].1)
    decreases |frames|
  {
    if frames == [] then v
    else Frames(Frame(v, frames[0].0, frames[0].1), frames[1..])
  }

  lemma {:induction false} FramesBounded(v: Visual, frames: seq<(seq<Cell>, Grid)>)
    requires forall i :: 0 <= i < |frames| ==> WellFormed(frames[i].1)
    requires MeshOk(v.mesh)
    ensures Frames(v, frames).rebuilds <= v.rebuilds + |frames|
    ensures MeshOk(Frames(v, frames).mesh)
    decreases |frames|
  {
    if frames != [] {
      var v' := Frame(v, frames[0].0, frames[0].1);
      FrameCoalesces(v, frames[0].0, frames[0].1);
      DeliverSetsFlag(v, frames[0].0);
      FramesBounded(v', frames[1..]);
    }
  }
}
