/** The integer side of HeatMap/MeshUtils.cs: flat vertex, UV and triangle buffers
    holding one quad (4 vertices, 4 UVs, 6 triangle indices) per slot. */
module MeshUtils {
  import opened Geometry
  import Rotation

  /** A vertex position `pos + GetQuaternionEuler(angle) * local`, kept symbolic: the
      float rotation itself is not computed. */
  datatype Vertex = Vertex(pos: Vec3, angle: int, local: Vec3)

  /** The zero vector, the default element of a fresh `Vector3[]`. */
  const ZeroVertex: Vertex := Vertex(Zero3, 0, Zero3)

  /** The three arrays a Unity mesh is built from. */
  datatype Buffers = Buffers(vertices: seq<Vertex>, uvs: seq<Vec2>, triangles: seq<int>)

  /** Room for exactly `quadCount` quads. */
  predicate Holds(b: Buffers, quadCount: nat) {
    && |b.vertices| == 4 * quadCount
    && |b.uvs| == 4 * quadCount
    && |b.triangles| == 6 * quadCount
  }

  /** Every triangle index names an existing vertex. */
  predicate IndicesInRange(b: Buffers) {
    forall k :: 0 <= k < |b.triangles| ==> 0 <= b.triangles[k] < |b.vertices|
  }

  /** `CreateEmptyMeshArrays`: zero-filled arrays for `quadCount` quads. */
  function CreateEmptyMeshArrays(quadCount: nat): (b: Buffers)
    ensures Holds(b, quadCount)
    ensures forall k :: 0 <= k < |b.vertices| ==> b.vertices[k] == ZeroVertex
    ensures forall k :: 0 <= k < |b.uvs| ==> b.uvs[k] == Zero2
    ensures forall k :: 0 <= k < |b.triangles| ==> b.triangles[k] == 0
    ensures IndicesInRange(b)
  {
    Buffers(seq(4 * quadCount, _ => ZeroVertex), seq(4 * quadCount, _ => Zero2), seq(6 * quadCount, _ => 0))
  }

  /** `CreateEmptyMesh`: a mesh with no quads. */
  function CreateEmptyMesh(): (b: Buffers)
    ensures Holds(b, 0)
  {
    Buffers([], [], [])
  }

  /** The four corner vertices of a quad centred on `pos`. A non-square size rotates
      the four corner offsets by `rot`; a square size rotates the half-size vector by
      `rot - 270`, `rot - 180`, `rot - 90` and `rot`. */
  function QuadVertices(pos: Vec3, rot: int, baseSize: Vec3): (vs: seq<Vertex>)
    ensures |vs| == 4
    ensures forall k :: 0 <= k < 4 ==> vs[k].pos == pos
    ensures baseSize.x == baseSize.y ==>
      forall k :: 0 <= k < 4 ==> vs[k].local == Scale(baseSize, 0.5) && vs[k].angle == rot - 270 + 90 * k
    ensures baseSize.x != baseSize.y ==>
      && (forall k :: 0 <= k < 4 ==> vs[k].angle == rot)
      && vs[3].local == Scale(baseSize, 0.5)
      && vs[0].local.z == vs[1].local.z == vs[2].local.z == 0.0
      && vs[0].local.x == vs[1].local.x == -vs[2].local.x == -vs[3].local.x
      && vs[0].local.y == -vs[1].local.y == -vs[2].local.y == vs[3].local.y
  {
    var half := Scale(baseSize, 0.5);
    if half.x != half.y then
      [ Vertex(pos, rot, Flat(-half.x, half.y)),
        Vertex(pos, rot, Flat(-half.x, -half.y)),
        Vertex(pos, rot, Flat(half.x, -half.y)),
        Vertex(pos, rot, half) ]
    else
      [ Vertex(pos, rot - 270, half),
        Vertex(pos, rot - 180, half),
        Vertex(pos, rot - 90, half),
        Vertex(pos, rot - 0, half) ]
  }

  /** A square quad's corners are the half-size vector turned by successive quarter
      turns `rot + 90`, `rot + 180`, `rot + 270`, `rot + 360`; a non-square quad's
      corners all share the turn `rot`. */
  lemma QuadVerticesTurns(pos: Vec3, rot: int, baseSize: Vec3, k: int)
    requires 0 <= k < 4
    ensures baseSize.x == baseSize.y ==>
      && QuadVertices(pos, rot, baseSize)[k].local == Scale(baseSize, 0.5)
      && Rotation.Lookup(QuadVertices(pos, rot, baseSize)[k].angle) == Rotation.Lookup(rot + 90 * (k + 1))
    ensures baseSize.x != baseSize.y ==>
      Rotation.Lookup(QuadVertices(pos, rot, baseSize)[k].angle) == Rotation.Lookup(rot)
  {
    if baseSize.x == baseSize.y {
      if k == 0 {
        Rotation.LookupPeriodic(rot - 270);
      } else if k == 1 {
        Rotation.LookupPeriodic(rot - 180);
      } else if k == 2 {
        Rotation.LookupPeriodic(rot - 90);
      } else {
        Rotation.LookupPeriodic(rot);
      }
    } else {
      assert Scale(baseSize, 0.5).x != Scale(baseSize, 0.5).y;
    }
  }

  /** The UV corners: top-left, bottom-left, bottom-right, top-right. */
  function QuadUVs(uv00: Vec2, uv11: Vec2): (uvs: seq<Vec2>)
    ensures |uvs| == 4
    ensures uvs[0] == Vec2(uv00.x, uv11.y) && uvs[1] == uv00
    ensures uvs[2] == Vec2(uv11.x, uv00.y) && uvs[3] == uv11
  {
    [Vec2(uv00.x, uv11.y), Vec2(uv00.x, uv00.y), Vec2(uv11.x, uv00.y), Vec2(uv11.x, uv11.y)]
  }

  /** With `uv00 == uv11` the quad is a single colour: all four UVs are that point. */
  lemma FlatColourQuad(uv: Vec2)
    ensures QuadUVs(uv, uv) == [uv, uv, uv, uv]
  {
  }

  /** The two triangles of slot `index`: corners (0, 3, 1) and (1, 3, 2). */
  function QuadTriangles(index: nat): (ts: seq<int>)
    ensures |ts| == 6
    ensures forall k :: 0 <= k < 6 ==> 4 * index <= ts[k] < 4 * index + 4
    ensures forall c :: 4 * index <= c < 4 * index + 4 ==> c in ts
  {
    var v := 4 * index;
    [v, v + 3, v + 1, v + 1, v + 3, v + 2]
  }

  /** The two triangles share the diagonal between corners 1 and 3 and run along it in
      opposite directions (3 to 1, then 1 to 3), so both faces have the same winding. */
  lemma QuadTrianglesShareDiagonal(index: nat)
    ensures var ts := QuadTriangles(index);
      && {ts[0], ts[1], ts[2]} * {ts[3], ts[4], ts[5]} == {4 * index + 1, 4 * index + 3}
      && ts[1] == ts[4] && ts[2] == ts[3]
  {
  }

  /** Replace `s[at .. at + |part|]` by `part`. */
  function Splice<T>(s: seq<T>, at: nat, part: seq<T>): (r: seq<T>)
    requires at + |part| <= |s|
    ensures |r| == |s|
    ensures r[..at] == s[..at] && r[at..at + |part|] == part && r[at + |part|..] == s[at + |part|..]
    ensures forall k :: 0 <= k < |s| && !(at <= k < at + |part|) ==> r[k] == s[k]
  {
    s[..at] + part + s[at + |part|..]
  }

  /** The source indexes the arrays at `4 * index .. 4 * index + 3` and
      `6 * index .. 6 * index + 5`; any other index throws. */
  predicate SlotFits(b: Buffers, index: int) {
    && 0 <= index
    && 4 * index + 4 <= |b.vertices|
    && 4 * index + 4 <= |b.uvs|
    && 6 * index + 6 <= |b.triangles|
  }

  /** `AddToMeshArrays`: write one quad into slot `index`, and nothing else. */
  function AddToMeshArrays(b: Buffers, index: int, pos: Vec3, rot: int, baseSize: Vec3, uv00: Vec2, uv11: Vec2): (r: Buffers)
    requires SlotFits(b, index)
    ensures |r.vertices| == |b.vertices| && |r.uvs| == |b.uvs| && |r.triangles| == |b.triangles|
    ensures r.vertices[4 * index..4 * index + 4] == QuadVertices(pos, rot, baseSize)
    ensures r.uvs[4 * index..4 * index + 4] == QuadUVs(uv00, uv11)
    ensures r.triangles[6 * index..6 * index + 6] == QuadTriangles(index)
    ensures r.vertices[..4 * index] == b.vertices[..4 * index]
    ensures r.uvs[..4 * index] == b.uvs[..4 * index]
    ensures r.triangles[..6 * index] == b.triangles[..6 * index]
    ensures forall k :: 0 <= k < |b.vertices| && !(4 * index <= k < 4 * index + 4) ==> r.vertices[k] == b.vertices[k]
    ensures forall k :: 0 <= k < |b.uvs| && !(4 * index <= k < 4 * index + 4) ==> r.uvs[k] == b.uvs[k]
    ensures forall k :: 0 <= k < |b.triangles| && !(6 * index <= k < 6 * index + 6) ==> r.triangles[k] == b.triangles[k]
    ensures forall k :: 6 * index <= k < 6 * index + 6 ==> 4 * index <= r.triangles[k] < 4 * index + 4
    ensures IndicesInRange(b) ==> IndicesInRange(r)
  {
    var r := Buffers(
      Splice(b.vertices, 4 * index, QuadVertices(pos, rot, baseSize)),
      Splice(b.uvs, 4 * index, QuadUVs(uv00, uv11)),
      Splice(b.triangles, 6 * index, QuadTriangles(index)));
    assert forall k :: 6 * index <= k < 6 * index + 6 ==> r.triangles[k] == QuadTriangles(index)[k - 6 * index];
    r
  }

  /** The part of the buffers that belongs to one slot. */
  datatype Quad = Quad(vertices: seq<Vertex>, uvs: seq<Vec2>, triangles: seq<int>)

  function QuadAt(b: Buffers, index: int): Quad
    requires SlotFits(b, index)
  {
    Quad(b.vertices[4 * index..4 * index + 4], b.uvs[4 * index..4 * index + 4], b.triangles[6 * index..6 * index + 6])
  }

  /** The quad `AddToMeshArrays` writes into slot `index`. */
  function NewQuad(index: nat, pos: Vec3, rot: int, baseSize: Vec3, uv00: Vec2, uv11: Vec2): Quad {
    Quad(QuadVertices(pos, rot, baseSize), QuadUVs(uv00, uv11), QuadTriangles(index))
  }

  /** Slot by slot: `AddToMeshArrays` fills slot `index` and leaves every other slot alone. */
  lemma AddToMeshArraysSlots(b: Buffers, index: int, pos: Vec3, rot: int, baseSize: Vec3, uv00: Vec2, uv11: Vec2, other: int)
    requires SlotFits(b, index) && SlotFits(b, other)
    ensures var r := AddToMeshArrays(b, index, pos, rot, baseSize, uv00, uv11);
      && SlotFits(r, other)
      && QuadAt(r, other) == if other == index then NewQuad(index, pos, rot, baseSize, uv00, uv11) else QuadAt(b, other)
  {
    var r := AddToMeshArrays(b, index, pos, rot, baseSize, uv00, uv11);
    if other != index {
      assert other < index || index < other;
      assert QuadAt(r, other).vertices == QuadAt(b, other).vertices;
      assert QuadAt(r, other).uvs == QuadAt(b, other).uvs;
      assert QuadAt(r, other).triangles == QuadAt(b, other).triangles;
    }
  }

  datatype Option<T> = None | Some(value: T)

  /** The mesh `AddToMesh` starts from: the given one, or an empty one for `null`. */
  function Base(mesh: Option<Buffers>): Buffers {
    match mesh
    case None => CreateEmptyMesh()
    case Some(m) => m
  }

  /** The source grows the arrays by 4, 4 and 6, then writes slot
      `newVertexCount / 4 - 1`, which must fit the grown UV and triangle arrays. */
  predicate CanAppend(mesh: Option<Buffers>) {
    var m := Base(mesh);
    4 * NextSlot(m) <= |m.uvs| && 6 * NextSlot(m) <= |m.triangles|
  }

  /** The arrays copied into ones 4, 4 and 6 entries longer, the new entries zero. */
  function Grow(m: Buffers): (g: Buffers)
    ensures |g.vertices| == |m.vertices| + 4 && g.vertices[..|m.vertices|] == m.vertices
    ensures |g.uvs| == |m.uvs| + 4 && g.uvs[..|m.uvs|] == m.uvs
    ensures |g.triangles| == |m.triangles| + 6 && g.triangles[..|m.triangles|] == m.triangles
    ensures IndicesInRange(m) ==> IndicesInRange(g)
  {
    var g := Buffers(
      m.vertices + seq(4, _ => ZeroVertex),
      m.uvs + seq(4, _ => Zero2),
      m.triangles + seq(6, _ => 0));
    assert IndicesInRange(m) ==> IndicesInRange(g) by {
      if IndicesInRange(m) {
        forall k | 0 <= k < |g.triangles| ensures 0 <= g.triangles[k] < |g.vertices| {
          if k >= |m.triangles| {
            assert g.triangles[k] == 0;
          }
        }
      }
    }
    g
  }

  /** The slot after the last whole quad of `m`. */
  function NextSlot(m: Buffers): (i: nat)
    ensures 4 * i <= |m.vertices| < 4 * i + 4
  {
    |m.vertices| / 4
  }

  /** The slot the source writes into the grown arrays: the new vertex count over
      four, minus one. */
  function WriteSlot(grown: Buffers): int {
    |grown.vertices| / 4 - 1
  }

  /** The written slot is the old vertex count over four, and it fits the grown arrays
      when `CanAppend` holds. */
  lemma WriteSlotFits(m: Buffers)
    requires CanAppend(Some(m))
    ensures WriteSlot(Grow(m)) == NextSlot(m)
    ensures SlotFits(Grow(m), WriteSlot(Grow(m)))
  {
    var n := |m.vertices|;
    assert (n + 4) / 4 == n / 4 + 1;
  }

  /** `r` is `m` grown by one slot, with `quad` written at slot `index` and the slots
      before `index` left as they were. */
  predicate Appended(m: Buffers, r: Buffers, index: nat, quad: Quad) {
    && |r.vertices| == |m.vertices| + 4
    && |r.uvs| == |m.uvs| + 4
    && |r.triangles| == |m.triangles| + 6
    && 4 * index <= |m.vertices| && 4 * index <= |m.uvs| && 6 * index <= |m.triangles|
    && r.vertices[4 * index..4 * index + 4] == quad.vertices
    && r.uvs[4 * index..4 * index + 4] == quad.uvs
    && r.triangles[6 * index..6 * index + 6] == quad.triangles
    && r.vertices[..4 * index] == m.vertices[..4 * index]
    && r.uvs[..4 * index] == m.uvs[..4 * index]
    && r.triangles[..6 * index] == m.triangles[..6 * index]
  }

  /** The grown arrays with the new quad written at the slot after the last whole quad. */
  lemma AddToMeshSlot(m: Buffers, pos: Vec3, rot: int, baseSize: Vec3, uv00: Vec2, uv11: Vec2)
    requires CanAppend(Some(m))
    ensures SlotFits(Grow(m), WriteSlot(Grow(m)))
    ensures Appended(m, AddToMeshArrays(Grow(m), WriteSlot(Grow(m)), pos, rot, baseSize, uv00, uv11),
      NextSlot(m), NewQuad(NextSlot(m), pos, rot, baseSize, uv00, uv11))
  {
    WriteSlotFits(m);
    var g := Grow(m);
    var index := NextSlot(m);
    assert g.vertices[..4 * index] == g.vertices[..|m.vertices|][..4 * index];
    assert g.uvs[..4 * index] == g.uvs[..|m.uvs|][..4 * index];
    assert g.triangles[..6 * index] == g.triangles[..|m.triangles|][..6 * index];
  }

  /** `AddToMesh`: copy the old arrays into ones 4/4/6 longer and write the new quad at
      slot `newVertexCount / 4 - 1`, which is the slot after the last whole quad. The
      slots before it are kept. */
  function AddToMesh(mesh: Option<Buffers>, pos: Vec3, rot: int, baseSize: Vec3, uv00: Vec2, uv11: Vec2): (r: Buffers)
    requires CanAppend(mesh)
    ensures Appended(Base(mesh), r, NextSlot(Base(mesh)), NewQuad(NextSlot(Base(mesh)), pos, rot, baseSize, uv00, uv11))
    ensures IndicesInRange(Base(mesh)) ==> IndicesInRange(r)
  {
    var m := Base(mesh);
    var grown := Grow(m);
    AddToMeshSlot(m, pos, rot, baseSize, uv00, uv11);
    AddToMeshArrays(grown, WriteSlot(grown), pos, rot, baseSize, uv00, uv11)
  }

  /** On a mesh of exactly `q` whole quads `AddToMesh` appends: the result holds
      `q + 1` quads, the old arrays are its prefix and the new quad its last slot. */
  lemma AddToMeshAppends(m: Buffers, q: nat, pos: Vec3, rot: int, baseSize: Vec3, uv00: Vec2, uv11: Vec2)
    requires Holds(m, q)
    ensures CanAppend(Some(m))
    ensures var r := AddToMesh(Some(m), pos, rot, baseSize, uv00, uv11);
      && Holds(r, q + 1)
      && r.vertices == m.vertices + QuadVertices(pos, rot, baseSize)
      && r.uvs == m.uvs + QuadUVs(uv00, uv11)
      && r.triangles == m.triangles + QuadTriangles(q)
  {
    assert NextSlot(m) == q;
    AppendedWhole(m, AddToMesh(Some(m), pos, rot, baseSize, uv00, uv11), q, NewQuad(q, pos, rot, baseSize, uv00, uv11));
  }

  /** Appending at slot `q` to buffers of exactly `q` quads is concatenation. */
  lemma AppendedWhole(m: Buffers, r: Buffers, q: nat, quad: Quad)
    requires Holds(m, q) && Appended(m, r, q, quad)
    requires |quad.vertices| == 4 && |quad.uvs| == 4 && |quad.triangles| == 6
    ensures Holds(r, q + 1)
    ensures r.vertices == m.vertices + quad.vertices
    ensures r.uvs == m.uvs + quad.uvs
    ensures r.triangles == m.triangles + quad.triangles
  {
    PrefixThenTail(r.vertices, m.vertices, quad.vertices, 4 * q);
    PrefixThenTail(r.uvs, m.uvs, quad.uvs, 4 * q);
    PrefixThenTail(r.triangles, m.triangles, quad.triangles, 6 * q);
  }

  lemma PrefixThenTail<T>(r: seq<T>, m: seq<T>, tail: seq<T>, n: nat)
    requires |m| == n && |r| == n + |tail|
    requires r[..n] == m[..n] && r[n..n + |tail|] == tail
    ensures r == m + tail
  {
    assert m[..n] == m;
    assert r == r[..n] + r[n..n + |tail|];
  }

  /** `CreateMesh`: a mesh holding just this quad. */
  function CreateMesh(pos: Vec3, rot: int, baseSize: Vec3, uv00: Vec2, uv11: Vec2): (r: Buffers)
    ensures Holds(r, 1) && IndicesInRange(r)
    ensures r.vertices == QuadVertices(pos, rot, baseSize)
    ensures r.uvs == QuadUVs(uv00, uv11)
    ensures r.triangles == [0, 3, 1, 1, 3, 2]
  {
    var r := AddToMesh(None, pos, rot, baseSize, uv00, uv11);
    assert r.vertices == r.vertices[0..4];
    assert r.uvs == r.uvs[0..4];
    assert r.triangles == r.triangles[0..6];
    r
  }
}
