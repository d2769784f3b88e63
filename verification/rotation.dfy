/** The rotation table of HeatMap/MeshUtils.cs: 360 z-axis rotations, one per whole
    degree, built on first use and then only read. */
module Rotation {

  const TableSize: int := 360

  /** `Quaternion.Euler(0, 0, degrees)`, a turn about the z axis, named by its angle. */
  datatype EulerZ = EulerZ(degrees: int)

  /** `cachedQuaternionEulerArr`: absent until the first lookup. */
  datatype Cache = Unbuilt | Built(table: seq<EulerZ>)

  /** Entry `i` of a finished table is the turn by `i` degrees. */
  predicate Complete(table: seq<EulerZ>) {
    |table| == TableSize && forall i :: 0 <= i < TableSize ==> table[i] == EulerZ(i)
  }

  /** The only states the cache can reach: not yet built, or built in full. */
  predicate Valid(c: Cache) {
    c.Unbuilt? || Complete(c.table)
  }

  /** C#'s `/` on `int`: the quotient is truncated toward zero. */
  function CsQuot(a: int, m: int): int
    requires m > 0
  {
    if a >= 0 then a / m else -((-a) / m)
  }

  /** C#'s `%` on `int`, defined by `a == (a / m) * m + a % m` with the truncating
      quotient: the remainder takes the sign of the dividend. */
  function CsRem(a: int, m: int): (r: int)
    requires m > 0
    ensures a == CsQuot(a, m) * m + r
    ensures -m < r < m
    ensures a >= 0 ==> r >= 0
    ensures a < 0 ==> r <= 0
  {
    if a >= 0 then a % m else -((-a) % m)
  }

  /** The index `GetQuaternionEuler` reads: C#'s remainder by 360, moved up by 360 when
      negative. It is the mathematical (never negative) remainder of the degree. */
  function TableIndex(rot: int): (r: int)
    ensures 0 <= r < TableSize
    ensures r == rot % 360
  {
    var r := CsRem(rot, TableSize);
    var r' := if r < 0 then r + TableSize else r;
    assert (rot - r') % 360 == 0;
    r'
  }

  /** `CacheQuaternionEuler`: a built table is kept as it is; otherwise all 360 entries
      are filled in degree order. */
  method CacheQuaternionEuler(c: Cache) returns (r: Cache)
    requires Valid(c)
    ensures r.Built? && Complete(r.table)
    ensures c.Built? ==> r == c
  {
    if c.Built? {
      return c;
    }
    var table: seq<EulerZ> := [];
    var i := 0;
    while i < TableSize
      invariant 0 <= i <= TableSize
      invariant |table| == i
      invariant forall k :: 0 <= k < i ==> table[k] == EulerZ(k)
    {
      table := table + [EulerZ(i)];
      i := i + 1;
    }
    r := Built(table);
  }

  /** The turn a lookup returns, computed without any table. */
  function Lookup(rot: int): (q: EulerZ)
    ensures 0 <= q.degrees < TableSize
    ensures (q.degrees - rot) % 360 == 0
  {
    EulerZ(TableIndex(rot))
  }

  /** Angles a full turn apart read the same entry. */
  lemma LookupPeriodic(a: int)
    ensures Lookup(a + TableSize) == Lookup(a)
  {
    assert (a + 360) % 360 == a % 360;
  }

  /** `GetQuaternionEuler` on a whole-degree angle: builds the table if needed, then
      reads it. The answer is the same as the direct computation, so the table is a
      pure speed-up, and once built it is never rebuilt. */
  method GetQuaternionEuler(c: Cache, rot: int) returns (q: EulerZ, r: Cache)
    requires Valid(c)
    ensures q == Lookup(rot)
    ensures r.Built? && Complete(r.table)
    ensures c.Built? ==> r == c
  {
    var index := CsRem(rot, TableSize);
    if index < 0 {
      index := index + TableSize;
    }
    r := c;
    if r.Unbuilt? {
      r := CacheQuaternionEuler(r);
    }
    q := r.table[index];
  }
}
