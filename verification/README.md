# Heat map grid, brush and mesh — a Dafny model

This project models the heat map of a small Unity project. It has three parts.

- **The grid** (`Grid.cs`) is a `width x height` field of integers. Every stored value is clamped to `[HEAT_MAP_MIN_VALUE, HEAT_MAP_MAX_VALUE] = [0, 100]`. Reads and writes off the grid are ignored: a read gives 0, and a write does nothing and raises no event. Every write on the grid raises one `OnGridValueChanged` event. World positions map to cells through `cellSize` and `originPosition`.
- **The brush** (`AddValue(worldPosition, value, fullValueRange, totalRange)`) walks the triangle `x + y < totalRange` and mirrors each step into the four quadrants. It adds an amount that stays at `value` inside `fullValueRange` and decays linearly beyond it.
- **The visual** (`HeatMapVisual.cs` and `HeatMap/MeshUtils.cs`) turns the grid into one quad per cell. Each quad is written into flat vertex, UV and triangle buffers at slot `x * height + y`. A dirty flag folds all change events of a frame into a single rebuild in `LateUpdate`. Rotations come from a lazily built table of 360 whole-degree turns.

## How the model is built

- `geometry.dfy` (`Geometry`): `Vector2` and `Vector3` as records of `real`.
- `grid.dfy` (`HeatGrid`): the grid as a `seq<seq<int>>` in a datatype, and its operations as pure functions. An operation returns an `Update`, which is the new grid plus the change events raised, in order.
- `paint.dfy` (`Paint`): the brush.
  - `Mirror`, `Row`, `Triangle` and `PaintOffsets` list the offsets in exactly the order the nested loops of the source visit them.
  - `ApplyOffsets` folds the clamped `AddValue` over that list.
  - `PaintLoop` is the two loops written as loops. Their body `PaintStep` makes the four guarded `AddValue` calls, through `PaintMirrored`, `PaintPair` and `PaintCell`. The loops are proved equal to that fold.
  - `Mathf.RoundToInt` is `RoundHalfEven`: nearest integer, ties to even.
- `rotation.dfy` (`Rotation`): the quaternion cache as a value, `Unbuilt | Built(table)`. The methods take the cache and return the new one. C#'s truncating `%` is modelled by `CsRem`.
- `meshutils.dfy` (`MeshUtils`): the mesh buffers. Vertices are symbolic: `Vertex(pos, angle, local)` stands for `pos + GetQuaternionEuler(angle) * local`.
- `heatmapvisual.dfy` (`HeatMapVisual`):
  - the slot layout;
  - `Rebuild(g)`, the functional description of a full rebuild;
  - the `UpdateHeatMapVisual` loops, proved equal to `Rebuild(g)`;
  - the dirty-flag state machine `Awake / SetGrid / Grid_OnGridValueChanged / LateUpdate`.
- `scenario.dfy` (`Scenario`): worked examples on a 2 x 2 grid, and the decay rate of the mouse handler's brush.

## Model

| member | source | states |
|---|---|---|
| HeatGrid.NewGrid | Grid.cs:25-31 | A new grid has the requested size, cell size and origin, and every cell reads 0. |
| HeatGrid.Clamp | Grid.cs:87 | The stored value always lies in [0, 100]. It equals the input when the input is in range, and the nearer bound otherwise. |
| HeatGrid.GetValue | Grid.cs:113-119 | Off-grid reads give 0. On a grid in range, every read lies in [0, 100]. |
| HeatGrid.SetValue | Grid.cs:85-90 | In bounds: the cell becomes the clamped value and exactly one event `(x, y)` is raised. Out of bounds: the grid is unchanged and no event is raised. No other cell changes, and the shape and the [0, 100] invariant are kept. |
| HeatGrid.AddValue | Grid.cs:106-108 | In bounds, the cell becomes `Clamp(old + delta)` and one event is raised. Out of bounds, nothing happens. Other cells are unchanged. |
| HeatGrid.RunKeepsRange | Grid.cs:85-108 | No sequence of integer `SetValue` / `AddValue` calls can move any stored value out of [0, 100]. |
| HeatGrid.RunEventCount | Grid.cs:85-90 | A sequence of writes raises exactly as many events as it has in-bounds writes. |
| HeatGrid.GetWorldPosition | Grid.cs:68-70 | The corner of cell `(x, y)` lies `x` and `y` cell sizes from the origin, at the origin's depth. For a positive cell size it lies in that cell's own square. |
| HeatGrid.GetXY | Grid.cs:76-80 | The cell is the floor of the origin-relative position in cell units. With a positive cell size, the point lies in that cell's square. |
| HeatGrid.GetXYExact | Grid.cs:76-80 | A point maps to cell `(x, y)` exactly when it lies in the half-open square of that cell (both directions). |
| HeatGrid.WorldPositionRoundTrip | Grid.cs:68-80 | For a positive cell size, `GetXY(GetWorldPosition(x, y)) == (x, y)` for every cell, including cells off the grid. |
| HeatGrid.SetValueAt | Grid.cs:95-99 | The world-position setter acts as the integer setter on the cell whose square holds the point. |
| HeatGrid.GetValueAt | Grid.cs:124-128 | The world-position getter reads the cell whose square holds the point. |
| Paint.RoundHalfEven | Grid.cs:139 | The result is within half a unit of `n / d`. On an exact tie it is even. |
| Paint.RoundHalfEvenUnique | Grid.cs:139 | Any integer meeting both rounding conditions is `RoundHalfEven(n, d)`, so the rounding is fully determined. |
| Paint.DecayRate | Grid.cs:139 | `lowerValueAmount` is within half a unit of `value / (totalRange - fullValueRange)`. On an exact tie it is the even neighbour. |
| Paint.PaintAmount | Grid.cs:145-149 | The amount is exactly `value` inside `fullValueRange`. Beyond it, the loss from `value` is the rate times the distance past `fullValueRange`. |
| Paint.PaintAmountShape | Grid.cs:145-149 | For a non-negative rate, the amount is never above `value` and does not increase with the radius. It is exactly `value` inside `fullValueRange`. |
| Paint.MirrorFacts | Grid.cs:151-164 | One loop step writes pairwise-distinct offsets. They are exactly those with `abs(dx) == x` and `abs(dy) == y`: 4 off the axes, 2 on one axis, 1 at the origin. |
| Paint.RowFacts | Grid.cs:144-165 | One inner loop writes distinct offsets, exactly those with `abs(dx) == x` and `abs(dy) < n`. |
| Paint.TriangleFacts | Grid.cs:143-166 | The first `m` outer iterations write distinct offsets, exactly those with `abs(dx) < m` and `abs(dx) + abs(dy) < totalRange`. |
| Paint.PaintOffsetsExactlyOnce | Grid.cs:143-166 | The brush loops visit every offset of the diamond `abs(dx) + abs(dy) < totalRange` exactly once, and nothing outside it. |
| Paint.ApplyOffsetsAppend | Grid.cs:143-166 | Running the loop body over `a + c` is running it over `a`, then over `c`, with the events concatenated. |
| Paint.ApplyOffsetsCell | Grid.cs:151-162 | With distinct offsets, a reached in-bounds cell gets exactly one clamped addition of its amount. Any other cell keeps its value. |
| Paint.ApplyOffsetsUntouched | Grid.cs:151-162 | A cell no offset reaches keeps its value. |
| Paint.ApplyOffsetsEvents | Grid.cs:151-162 | Each in-bounds cell gets as many change events as the number of times the offsets reach it. Off-grid cells get none. |
| Paint.PaintGridEffect | Grid.cs:143-166 | After the brush, an in-bounds cell at radius `< totalRange` holds `Clamp(old + amount(radius))`. Every other cell is unchanged. |
| Paint.PaintGridEvents | Grid.cs:143-166 | The brush raises exactly one event for each in-bounds cell of the diamond and none for any other cell. |
| Paint.PaintGridKeepsRange | Grid.cs:143-166 | The brush keeps every stored value in [0, 100]. |
| Paint.PaintLoop | Grid.cs:143-166 | The nested `for` loops with their bounds compute the same grid and event sequence as the offset fold. |
| Paint.PaintStep | Grid.cs:145-164 | One inner-loop pass computes the amount for radius `x + y` as the source does. Its writes continue the fold by exactly the offsets of `Mirror(x, y)`. |
| Paint.PaintMirrored | Grid.cs:151-164 | The guarded writes of one loop step are exactly the fold over `Mirror(x, y)`. |
| Paint.PaintPair | Grid.cs:151-163 | The write at `(originX + x, originY + dy)` and, when `x != 0`, the write at `(originX - x, originY + dy)` extend the fold by `Pair(x, dy)`. The source writes two such pairs, for `dy = y` and for `dy = -y`. |
| Paint.PaintCell | Grid.cs:151 | One `AddValue(originX + dx, originY + dy, amount)` extends the fold by the offset `(dx, dy)`. |
| Paint.RateUnused | Grid.cs:139-149 | When `totalRange <= fullValueRange`, the rate is never read: any two rates paint the same grid with the same events. |
| Paint.PaintGridPainted | Grid.cs:143-166 | The brush's result meets `Painted`: each in-bounds cell of the diamond holds one clamped addition of its amount and raised exactly one event. Every other cell is unchanged and raised none. |
| Paint.PaintAt | Grid.cs:137-167 | The world-position brush is centred on the cell `GetXY(g, p)` and uses the rounded decay rate. It paints the diamond as `Painted` describes, with one event per in-bounds diamond cell. It keeps the grid's shape and the [0, 100] invariant. |
| Rotation.CsRem | HeatMap/MeshUtils.cs:32 | C#'s `%`: `a == (a / m) * m + a % m` with the quotient truncated toward zero. The remainder's magnitude is below the modulus, and its sign follows the dividend. |
| Rotation.TableIndex | HeatMap/MeshUtils.cs:32-33 | Remainder, then `+360` if negative, always gives an index in [0, 360) that equals the mathematical remainder of the angle. |
| Rotation.CacheQuaternionEuler | HeatMap/MeshUtils.cs:16-22 | Afterwards the table is built and complete (entry `i` is the turn by `i` degrees). An already-built table is left untouched. |
| Rotation.Lookup | HeatMap/MeshUtils.cs:31-36 | The turn read for angle `rot` lies in [0, 360) and is congruent to `rot` modulo 360. |
| Rotation.LookupPeriodic | HeatMap/MeshUtils.cs:32-33 | Angles a full turn apart read the same table entry. |
| Rotation.GetQuaternionEuler | HeatMap/MeshUtils.cs:28-37 | The cached lookup returns the same turn as `Lookup(rot)`, with or without a prior build. Afterwards the cache is complete, and a built cache is never rebuilt. |
| MeshUtils.CreateEmptyMeshArrays | HeatMap/MeshUtils.cs:57-61 | There is room for exactly `quadCount` quads (4/4/6 entries each). All entries are default values, and all triangle indices are valid. |
| MeshUtils.CreateEmptyMesh | HeatMap/MeshUtils.cs:42-48 | The empty mesh holds zero quads. |
| MeshUtils.QuadVertices | HeatMap/MeshUtils.cs:178-191 | All four corners hang off `pos`. A square quad's corners are the half size, turned by `rot - 270 + 90k`. A skewed quad's corners share the turn `rot`. In x and y, their offsets are the four sign combinations of the half size, with opposite corners negated. Corners 0-2 lie in the plane `z = 0`, and corner 3 is the half size itself. |
| MeshUtils.QuadVerticesTurns | HeatMap/MeshUtils.cs:180-191 | A square quad's corner `k` is the half size turned by `rot + 90 * (k + 1)` degrees. A non-square quad's corners all use the turn `rot`. |
| MeshUtils.QuadUVs | HeatMap/MeshUtils.cs:194-197 | The UVs run top-left, bottom-left, bottom-right, top-right: corner 1 is `uv00`, corner 3 is `uv11`, and the other two mix their coordinates. |
| MeshUtils.FlatColourQuad | HeatMap/MeshUtils.cs:194-197 | With `uv00 == uv11`, all four UVs are that point, so the quad is one colour. |
| MeshUtils.QuadTriangles | HeatMap/MeshUtils.cs:200-208 | The six indices of slot `i` all lie in `[4i, 4i + 4)`, and each of the four corners is used. |
| MeshUtils.QuadTrianglesShareDiagonal | HeatMap/MeshUtils.cs:202-208 | The two triangles share exactly the diagonal between corners 1 and 3, traversed in opposite directions. |
| MeshUtils.AddToMeshArrays | HeatMap/MeshUtils.cs:167-209 | Slot `index` receives the quad's vertices, UVs and triangles. Every other entry and all lengths are unchanged, and valid triangle indices stay valid. |
| MeshUtils.AddToMeshArraysSlots | HeatMap/MeshUtils.cs:167-209 | Slot by slot, the write fills slot `index` and leaves every other slot as it was. |
| MeshUtils.Grow | HeatMap/MeshUtils.cs:93-100 | The copies are 4/4/6 longer, with the old arrays as their prefix. Valid triangle indices stay valid. |
| MeshUtils.WriteSlotFits | HeatMap/MeshUtils.cs:103 | `newLength / 4 - 1` is the slot after the last whole quad of the old mesh, and it fits the grown arrays. |
| MeshUtils.AddToMesh | HeatMap/MeshUtils.cs:86-153 | The arrays grow by 4/4/6 and the new quad lands in the slot after the last whole quad. Earlier slots are kept, and valid triangle indices stay valid. |
| MeshUtils.AddToMeshAppends | HeatMap/MeshUtils.cs:86-153 | On a mesh of exactly `q` quads the result holds `q + 1` quads, and each array is the old one with the new quad appended. |
| MeshUtils.CreateMesh | HeatMap/MeshUtils.cs:72-74 | A fresh mesh holds just this quad, with triangles `[0, 3, 1, 1, 3, 2]`. |
| HeatMapVisual.SlotInRange | HeatMapVisual.cs:45-47 | Every cell's slot `x * height + y` lies in `[0, width * height)`. |
| HeatMapVisual.SlotInverse | HeatMapVisual.cs:47 | Quotient and remainder by the height recover the cell from its slot. |
| HeatMapVisual.SlotInjective | HeatMapVisual.cs:47 | Two cells never share a slot. |
| HeatMapVisual.SlotOnto | HeatMapVisual.cs:42-47 | Every slot of `[0, width * height)` belongs to a cell of the grid. |
| HeatMapVisual.RebuildUnique | HeatMapVisual.cs:42-60 | Buffers for `width * height` quads whose every slot holds its cell's quad are exactly `Rebuild(g)`. |
| HeatMapVisual.UpdateHeatMapVisual | HeatMapVisual.cs:40-65 | The loops write, for every cell, a flat-coloured square at the cell centre, with UV `value / 100`, into that cell's slot. The result is exactly `Rebuild(g)` with valid triangle indices. |
| HeatMapVisual.Awake | HeatMapVisual.cs:10-13 | The visual starts with the empty mesh of `CreateEmptyMesh`, no subscription, a clean flag and no rebuilds. |
| HeatMapVisual.RebuildOk | HeatMapVisual.cs:40-65 | A rebuilt mesh is always well formed: whole quads and valid triangle indices. |
| HeatMapVisual.SetGrid | HeatMapVisual.cs:18-24 | Setting a grid rebuilds once from it and subscribes. The dirty flag is left as it was. |
| HeatMapVisual.GridValueChanged | HeatMapVisual.cs:26-29 | The event handler only sets the dirty flag. It keeps the subscription, does not touch the mesh and does not rebuild. |
| HeatMapVisual.DeliverSetsFlag | HeatMapVisual.cs:26-29 | Any number of events only sets the flag. It is set exactly when at least one event reached a subscribed handler. |
| HeatMapVisual.LateUpdate | HeatMapVisual.cs:31-38 | Afterwards the flag is clear. If it was set, there is exactly one rebuild from the current grid. Otherwise nothing changes. The subscription and mesh well-formedness are kept in both cases. |
| HeatMapVisual.FrameCoalesces | HeatMapVisual.cs:26-38 | A frame with any number of change events costs at most one rebuild. There is one exactly when the visual was dirty or heard an event, and then the mesh shows the grid as it is at the end of the frame. The subscription is kept, so the next frame's events are still heard. |
| HeatMapVisual.FramesBounded | HeatMapVisual.cs:31-38 | Over any run of frames there is at most one rebuild per frame, and the mesh stays well formed. |
| Scenario.ClampAndIgnore | Grid.cs:85-90 | On a 2 x 2 grid, writing 150 stores 100 and raises one event. Writing at (5, 5) changes nothing and raises none. |
| Scenario.ExampleRate | Grid.cs:139 | `value 100`, `fullValueRange 1`, `totalRange 3` give a rate of 50. |
| Scenario.MouseBrushRate | HeatMap/Testing.cs:20 | The program's own brush `(100, 2, 10)` has the tie `100 / 8 = 12.5` and uses the rate 12. |
| Scenario.ExampleOrigin | Grid.cs:76-80 | On a unit grid at the origin, the world origin lies in cell (0, 0). |
| Scenario.PaintExample | Grid.cs:137-167 | Painting that brush at the origin of an empty 2 x 2 grid gives 100 at radius 0 and 1, and 50 at the diagonal cell (radius 2). |

## Left out

- Floating point. `float` arithmetic is modelled as exact `real` arithmetic, so no rounding error is modelled in positions, `/ cellSize`, `value / 100`, or `(float)value / (totalRange - fullValueRange)`. For the brush rate this matters only when the exact quotient is within float error of a `.5` tie.
- Paint.RoundHalfEven: rounds the exact quotient. `Mathf.RoundToInt` rounds the float quotient, and its result also saturates or wraps for values outside the 32-bit range.
- 32-bit integer overflow is not modelled. This covers `GetValue + value` in `AddValue`, `lowerValueAmount * (radius - fullValueRange)`, `x * height + y`, `4 * quadCount` and the array lengths. All integers are unbounded.
- HeatGrid.GetXY: requires a non-zero cell size. With a zero cell size the source divides a float by zero and `FloorToInt` of an infinity or NaN is not a meaningful cell.
- HeatGrid.SetValueAt: the contract is stated for a positive cell size only. For a negative cell size it promises nothing about which cell is written.
- HeatGrid.GetValueAt: the contract is stated for a positive cell size only. For a negative cell size it promises nothing about which cell is read.
- HeatGrid.NewGrid: the sizes are `nat`. A negative size makes `new int[width, height]` throw `OverflowException` in the source.
- Paint.BrushRate: with `totalRange == fullValueRange` the source divides by zero. `RoundToInt` of the resulting infinity or NaN is some integer that the model does not compute; the model uses 0. `Paint.RateUnused` shows that in this case no cell ever reads the rate, because every radius the loops reach is below `fullValueRange`.
- Rotation angles are whole degrees. `GetQuaternionEuler(float)` first applies `Mathf.RoundToInt`. The model takes the rounded integer as its input. The shifts `-270`, `-180` and `-90` are even, so rounding before or after them gives the same angle.
- `Quaternion.Euler` and `Quaternion * Vector3` are not computed. A table entry is the turn named by its angle, and a vertex is the symbolic `pos + turn(angle) * local`. Vertex world coordinates are therefore not stated.
- MeshUtils.AddToMeshArrays: requires that slot `index` fits all three arrays. Otherwise the source throws `IndexOutOfRangeException`, and exceptions are not modelled.
- MeshUtils.AddToMesh: requires `CanAppend`, that is, that the UV and triangle arrays are long enough for the slot computed from the vertex count. A mesh whose arrays disagree makes the source throw.
- MeshUtils.CreateEmptyMeshArrays: `quadCount` is a `nat`. A negative count throws `OverflowException` in the source.
- Unity objects: `Mesh`, `MeshFilter`, `GetComponent`, assignment of the buffers to `mesh.vertices/uv/triangles`, and the null-mesh check are modelled as plain buffer values. `Awake` before `SetGrid` is assumed.
- Events: the subscriber list is a single `subscribed` flag. Calling `SetGrid` twice subscribes the handler twice in the source. The handler only sets a flag, so the effect is the same. A subscription to an earlier grid, which stays live in the source, is not modelled.
- The debug text meshes and grid lines of the `Grid` constructor (`UtilsClass.CreateWorldText`, `Debug.DrawLine`, the debug event handler) are not modelled, because they only draw.
- `GetWidth`, `GetHeight` and `GetCellSize` are the datatype fields.
- Genericity: `Grid<TGridObject>` always allocates `new int[width, height]`, and `HeatMapVisual` uses it as an `int` grid. The model fixes the cell type to `int`.
- `HeatMap/Testing.cs` (the mouse-driven caller) is not modelled beyond its brush arguments. `Scenario.MouseBrushRate` gives their rate, and the call itself is the `PaintAt` operation.
- The visual does not store the grid it was given. `LateUpdate` and `Frame` take the grid as a parameter, and the caller stands for `this.grid`, so it must pass the grid given to `SetGrid`, in its current state.
- MeshUtils.AddToMesh: when the old UV or triangle arrays are longer than the slot computed from the vertex count, the contract says nothing about the entries after the written slot. `MeshUtils.AddToMeshArrays` itself keeps them.
- HeatMapVisual.UpdateHeatMapVisual: requires a well-formed grid, so width and height are non-negative. A negative product would make `CreateEmptyMeshArrays` throw.
