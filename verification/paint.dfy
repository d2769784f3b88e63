/** The hotspot brush of Grid.cs: `AddValue(worldPosition, value, fullValueRange, totalRange)`.
    A triangle of offsets `dx + dy < totalRange` is walked and mirrored into the four
    quadrants, adding an amount that decays with the Manhattan radius. */
module Paint {
  import opened Geometry
  import opened HeatGrid

  function Abs(n: int): nat {
    if n < 0 then -n else n
  }

  /** `Mathf.RoundToInt(n / d)` on the exact quotient: nearest integer, ties to even. */
  function RoundHalfEven(n: int, d: int): (r: int)
    requires d != 0
    ensures 2 * Abs(r * d - n) <= Abs(d)
    ensures 2 * Abs(r * d - n) == Abs(d) ==> r % 2 == 0
  {
    var r := RoundPositive(if d < 0 then -n else n, Abs(d));
    SignFlip(n, d, r);
    r
  }

  /** The same rounding for a positive denominator, from the floor quotient and the
      remainder. */
  function RoundPositive(nn: int, dd: int): (r: int)
    requires dd > 0
    ensures 2 * Abs(r * dd - nn) <= dd
    ensures 2 * Abs(r * dd - nn) == dd ==> r % 2 == 0
  {
    var q := nn / dd;
    var m := nn % dd;
    DivMod(nn, dd);
    MulSucc(q, dd);
    if 2 * m < dd then q
    else if 2 * m > dd then q + 1
    else if q % 2 == 0 then q
    else q + 1
  }

  lemma DivMod(nn: int, dd: int)
    requires dd > 0
    ensures nn == (nn / dd) * dd + nn % dd && 0 <= nn % dd < dd
  {
  }

  /** Negating numerator and denominator does not change the rounding error. */
  lemma SignFlip(n: int, d: int, r: int)
    requires d != 0
    ensures Abs(r * d - n) == Abs(r * Abs(d) - (if d < 0 then -n else n))
  {
    if d < 0 {
      assert r * Abs(d) == -(r * d);
    }
  }

  /** The two conditions of `RoundHalfEven` leave no choice: the rounding is unique. */
  lemma RoundHalfEvenUnique(n: int, d: int, r: int)
    requires d != 0
    requires 2 * Abs(r * d - n) <= Abs(d)
    requires 2 * Abs(r * d - n) == Abs(d) ==> r % 2 == 0
    ensures r == RoundHalfEven(n, d)
  {
    var s := RoundHalfEven(n, d);
    SignFlip(n, d, r);
    SignFlip(n, d, s);
    NearestUnique(if d < 0 then -n else n, Abs(d), r, s);
  }

  lemma NearestUnique(nn: int, dd: int, r: int, s: int)
    requires dd > 0
    requires 2 * Abs(r * dd - nn) <= dd && 2 * Abs(s * dd - nn) <= dd
    requires 2 * Abs(r * dd - nn) == dd ==> r % 2 == 0
    requires 2 * Abs(s * dd - nn) == dd ==> s % 2 == 0
    ensures r == s
  {
    var er := r * dd - nn;
    var es := s * dd - nn;
    assert (r - s) * dd == er - es;
    if Abs(r - s) >= 2 {
      MulAbsAtLeast(r - s, dd);
      assert false;
    }
    if r == s + 1 {
      MulSucc(s, dd);
      assert false;
    }
    if s == r + 1 {
      MulSucc(r, dd);
      assert false;
    }
  }

  lemma MulSucc(a: int, d: int)
    ensures (a + 1) * d == a * d + d
  {
  }

  lemma MulAbsAtLeast(k: int, d: int)
    requires Abs(k) >= 2 && d > 0
    ensures Abs(k * d) >= 2 * d
  {
    if k >= 2 {
      assert k * d == 2 * d + (k - 2) * d;
      assert (k - 2) * d >= 0;
    } else {
      assert k * d == -2 * d + (k + 2) * d;
      assert (k + 2) * d <= 0;
    }
  }

  /** `lowerValueAmount`: the loss per unit of radius beyond `fullValueRange`, the
      quotient `value / (totalRange - fullValueRange)` rounded to the nearest integer,
      ties to even. Equal ranges divide by zero; `PaintAt` shows that the rate is then
      never used. */
  function DecayRate(value: int, fullValueRange: int, totalRange: int): (r: int)
    requires totalRange != fullValueRange
    ensures 2 * Abs(r * (totalRange - fullValueRange) - value) <= Abs(totalRange - fullValueRange)
    ensures 2 * Abs(r * (totalRange - fullValueRange) - value) == Abs(totalRange - fullValueRange) ==> r % 2 == 0
  {
    RoundHalfEven(value, totalRange - fullValueRange)
  }

  /** `addValueAmount` for a cell at Manhattan distance `radius` from the origin. */
  function PaintAmount(value: int, fullValueRange: int, rate: int, radius: int): (r: int)
    ensures radius < fullValueRange ==> r == value
    ensures radius >= fullValueRange ==> value - r == rate * (radius - fullValueRange)
  {
    if radius >= fullValueRange then value - rate * (radius - fullValueRange) else value
  }

  /** Full strength inside `fullValueRange`, never above it beyond, and non-increasing
      in the radius whenever the decay rate is non-negative. */
  lemma PaintAmountShape(value: int, fullValueRange: int, rate: int, r1: int, r2: int)
    requires rate >= 0 && r1 <= r2
    ensures PaintAmount(value, fullValueRange, rate, r2) <= PaintAmount(value, fullValueRange, rate, r1)
    ensures r1 < fullValueRange ==> PaintAmount(value, fullValueRange, rate, r1) == value
    ensures PaintAmount(value, fullValueRange, rate, r2) <= value
  {
    if r1 >= fullValueRange {
      assert rate * (r2 - fullValueRange) == rate * (r1 - fullValueRange) + rate * (r2 - r1);
      assert rate * (r2 - r1) >= 0;
    } else if r2 >= fullValueRange {
      assert rate * (r2 - fullValueRange) >= 0;
    }
  }

  /** A grid offset `(dx, dy)` from the brush origin. */
  datatype Offset = Offset(dx: int, dy: int)

  function Radius(o: Offset): nat {
    Abs(o.dx) + Abs(o.dy)
  }

  /** The write at `(x, dy)` and, when `x != 0`, its mirror image `(-x, dy)`. */
  function Pair(x: nat, dy: int): seq<Offset> {
    [Offset(x, dy)] + (if x != 0 then [Offset(-(x as int), dy)] else [])
  }

  /** The one to four writes of one loop step `(x, y)`, in source order: the
      `x != 0` and `y != 0` guards skip the mirror images that fall on an axis. */
  function Mirror(x: nat, y: nat): seq<Offset> {
    Pair(x, y) + (if y != 0 then Pair(x, -(y as int)) else [])
  }

  /** No offset occurs twice. */
  predicate Distinct(s: seq<Offset>) {
    forall i, j :: 0 <= i < j < |s| ==> s[i] != s[j]
  }

  lemma DistinctAppend(a: seq<Offset>, b: seq<Offset>)
    requires Distinct(a) && Distinct(b)
    requires forall o :: o in a ==> o !in b
    ensures Distinct(a + b)
  {
    var s := a + b;
    forall i, j | 0 <= i < j < |s| ensures s[i] != s[j] {
      if i < |a| && j >= |a| {
        assert s[i] in a && s[j] == b[j - |a|];
      }
    }
  }

  /** The writes of one step hit pairwise distinct cells, exactly the mirror images
      of `(x, y)`: four off the axes, two on one axis, one at the origin. */
  lemma MirrorFacts(x: nat, y: nat)
    ensures Distinct(Mirror(x, y))
    ensures forall o :: o in Mirror(x, y) <==> Abs(o.dx) == x && Abs(o.dy) == y
    ensures |Mirror(x, y)| == (if x == 0 then 1 else 2) * (if y == 0 then 1 else 2)
  {
  }

  /** The inner loop for column `x`: steps `y = 0 .. n-1`. */
  function Row(x: nat, n: nat): seq<Offset> {
    if n == 0 then [] else Row(x, n - 1) + Mirror(x, n - 1)
  }

  /** The first `m` iterations of the outer loop, each inner loop bounded by `totalRange - x`. */
  function Triangle(m: nat, totalRange: int): seq<Offset>
    requires m <= totalRange
  {
    if m == 0 then [] else Triangle(m - 1, totalRange) + Row(m - 1, totalRange - (m - 1))
  }

  /** Every offset the brush writes, in the order the loops write them. */
  function PaintOffsets(totalRange: int): seq<Offset> {
    if totalRange <= 0 then [] else Triangle(totalRange, totalRange)
  }

  lemma {:induction false} RowFacts(x: nat, n: nat)
    ensures Distinct(Row(x, n))
    ensures forall o :: o in Row(x, n) <==> Abs(o.dx) == x && Abs(o.dy) < n
  {
    if n > 0 {
      RowFacts(x, n - 1);
      MirrorFacts(x, n - 1);
      DistinctAppend(Row(x, n - 1), Mirror(x, n - 1));
    }
  }

  lemma {:induction false} TriangleFacts(m: nat, totalRange: int)
    requires m <= totalRange
    ensures Distinct(Triangle(m, totalRange))
    ensures forall o :: o in Triangle(m, totalRange) <==> Abs(o.dx) < m && Radius(o) < totalRange
  {
    if m > 0 {
      TriangleFacts(m - 1, totalRange);
      RowFacts(m - 1, totalRange - (m - 1));
      DistinctAppend(Triangle(m - 1, totalRange), Row(m - 1, totalRange - (m - 1)));
    }
  }

  /** The brush writes each offset of the diamond `|dx| + |dy| < totalRange` exactly
      once and nothing else. */
  lemma PaintOffsetsExactlyOnce(totalRange: int)
    ensures Distinct(PaintOffsets(totalRange))
    ensures forall o :: o in PaintOffsets(totalRange) <==> Radius(o) < totalRange
  {
    if totalRange > 0 {
      TriangleFacts(totalRange, totalRange);
    }
  }

  /** The brush parameters once `lowerValueAmount` is known. */
  datatype Brush = Brush(originX: int, originY: int, value: int, fullValueRange: int, rate: int)

  function Target(b: Brush, o: Offset): Cell {
    Cell(b.originX + o.dx, b.originY + o.dy)
  }

  function AmountAt(b: Brush, o: Offset): int {
    PaintAmount(b.value, b.fullValueRange, b.rate, Radius(o))
  }

  /** `AddValue` for each offset in turn, collecting the events. */
  function ApplyOffsets(g: Grid, b: Brush, offs: seq<Offset>): (r: Update)
    requires WellFormed(g)
    ensures WellFormed(r.grid) && SameShape(g, r.grid)
    decreases |offs|
  {
    if offs == [] then Update(g, [])
    else
      var t := Target(b, offs[0]);
      var u := AddValue(g, t.x, t.y, AmountAt(b, offs[0]));
      var rest := ApplyOffsets(u.grid, b, offs[1..]);
      Update(rest.grid, u.events + rest.events)
  }

  lemma {:induction false} ApplyOffsetsAppend(g: Grid, b: Brush, a: seq<Offset>, c: seq<Offset>)
    requires WellFormed(g)
    ensures ApplyOffsets(g, b, a + c) ==
      var first := ApplyOffsets(g, b, a);
      var second := ApplyOffsets(first.grid, b, c);
      Update(second.grid, first.events + second.events)
    decreases |a|
  {
    if a == [] {
      assert a + c == c;
    } else {
      assert (a + c)[0] == a[0] && (a + c)[1..] == a[1..] + c;
      var t := Target(b, a[0]);
      var u := AddValue(g, t.x, t.y, AmountAt(b, a[0]));
      ApplyOffsetsAppend(u.grid, b, a[1..], c);
      var first := ApplyOffsets(u.grid, b, a[1..]);
      var second := ApplyOffsets(first.grid, b, c);
      assert u.events + (first.events + second.events) == (u.events + first.events) + second.events;
    }
  }

  /** The offset from the brush origin to cell `(x, y)`. */
  function OffsetTo(b: Brush, x: int, y: int): Offset {
    Offset(x - b.originX, y - b.originY)
  }

  /** A cell the offsets reach once gets exactly one clamped addition; a cell they
      never reach keeps its value. */
  lemma {:induction false} ApplyOffsetsCell(g: Grid, b: Brush, offs: seq<Offset>, x: int, y: int)
    requires WellFormed(g)
    requires Distinct(offs)
    ensures GetValue(ApplyOffsets(g, b, offs).grid, x, y) ==
      if InBounds(g, x, y) && OffsetTo(b, x, y) in offs
      then Clamp(GetValue(g, x, y) + AmountAt(b, OffsetTo(b, x, y)))
      else GetValue(g, x, y)
    decreases |offs|
  {
    if offs != [] {
      var o := OffsetTo(b, x, y);
      assert offs == [offs[0]] + offs[1..];
      assert Distinct(offs[1..]);
      var t := Target(b, offs[0]);
      var u := AddValue(g, t.x, t.y, AmountAt(b, offs[0]));
      ApplyOffsetsCell(u.grid, b, offs[1..], x, y);
      if offs[0] == o {
        forall k | 0 <= k < |offs[1..]| ensures offs[1..][k] != o {
          assert offs[1..][k] == offs[k + 1];
        }
        if InBounds(g, x, y) {
          ApplyOffsetsUntouched(u.grid, b, offs[1..], x, y);
        }
      }
    }
  }

  lemma {:induction false} ApplyOffsetsUntouched(g: Grid, b: Brush, offs: seq<Offset>, x: int, y: int)
    requires WellFormed(g)
    requires OffsetTo(b, x, y) !in offs
    ensures GetValue(ApplyOffsets(g, b, offs).grid, x, y) == GetValue(g, x, y)
    decreases |offs|
  {
    if offs != [] {
      var t := Target(b, offs[0]);
      var u := AddValue(g, t.x, t.y, AmountAt(b, offs[0]));
      ApplyOffsetsUntouched(u.grid, b, offs[1..], x, y);
    }
  }

  /** One event per write that lands on the grid. */
  lemma {:induction false} ApplyOffsetsEvents(g: Grid, b: Brush, offs: seq<Offset>, x: int, y: int)
    requires WellFormed(g)
    ensures multiset(ApplyOffsets(g, b, offs).events)[Cell(x, y)] ==
      if InBounds(g, x, y) then multiset(offs)[OffsetTo(b, x, y)] else 0
    decreases |offs|
  {
    if offs != [] {
      assert offs == [offs[0]] + offs[1..];
      assert multiset(offs) == multiset{offs[0]} + multiset(offs[1..]);
      var t := Target(b, offs[0]);
      var u := AddValue(g, t.x, t.y, AmountAt(b, offs[0]));
      ApplyOffsetsEvents(u.grid, b, offs[1..], x, y);
      assert (offs[0] == OffsetTo(b, x, y)) <==> (t == Cell(x, y));
    }
  }

  lemma {:induction false} DistinctCount(s: seq<Offset>, o: Offset)
    requires Distinct(s)
    ensures multiset(s)[o] == if o in s then 1 else 0
    decreases |s|
  {
    if s != [] {
      assert s == [s[0]] + s[1..];
      assert Distinct(s[1..]);
      DistinctCount(s[1..], o);
      if s[0] == o {
        forall k | 0 <= k < |s[1..]| ensures s[1..][k] != o {
          assert s[1..][k] == s[k + 1];
        }
      }
    }
  }

  /** The brush over grid coordinates: all writes of the source's double loop. */
  function PaintGrid(g: Grid, b: Brush, totalRange: int): (r: Update)
    requires WellFormed(g)
    ensures WellFormed(r.grid) && SameShape(g, r.grid)
  {
    ApplyOffsets(g, b, PaintOffsets(totalRange))
  }

  /** The heart of the brush: inside the diamond `|dx| + |dy| < totalRange` each cell
      receives exactly one clamped addition of the amount for its radius; every other
      cell keeps its value. */
  lemma PaintGridEffect(g: Grid, b: Brush, totalRange: int, x: int, y: int)
    requires WellFormed(g)
    ensures GetValue(PaintGrid(g, b, totalRange).grid, x, y) ==
      if InBounds(g, x, y) && Radius(OffsetTo(b, x, y)) < totalRange
      then Clamp(GetValue(g, x, y) + PaintAmount(b.value, b.fullValueRange, b.rate, Radius(OffsetTo(b, x, y))))
      else GetValue(g, x, y)
  {
    PaintOffsetsExactlyOnce(totalRange);
    ApplyOffsetsCell(g, b, PaintOffsets(totalRange), x, y);
  }

  /** Each grid cell of the diamond raises exactly one change event; no other cell raises any. */
  lemma PaintGridEvents(g: Grid, b: Brush, totalRange: int, x: int, y: int)
    requires WellFormed(g)
    ensures multiset(PaintGrid(g, b, totalRange).events)[Cell(x, y)] ==
      if InBounds(g, x, y) && Radius(OffsetTo(b, x, y)) < totalRange then 1 else 0
  {
    PaintOffsetsExactlyOnce(totalRange);
    DistinctCount(PaintOffsets(totalRange), OffsetTo(b, x, y));
    ApplyOffsetsEvents(g, b, PaintOffsets(totalRange), x, y);
  }

  /** The brush keeps the grid invariant. */
  lemma PaintGridKeepsRange(g: Grid, b: Brush, totalRange: int)
    requires WellFormed(g)
    ensures InRange(g) ==> InRange(PaintGrid(g, b, totalRange).grid)
  {
    var r := PaintGrid(g, b, totalRange).grid;
    forall x, y | InRange(g) && 0 <= x < r.width && 0 <= y < r.height
      ensures HeatMapMinValue <= r.cells[x][y] <= HeatMapMaxValue
    {
      PaintGridEffect(g, b, totalRange, x, y);
      assert r.cells[x][y] == GetValue(r, x, y);
    }
  }

  /** The loops of the source as written, over grid coordinates. */
  method PaintLoop(g: Grid, b: Brush, totalRange: int) returns (r: Update)
    requires WellFormed(g)
    ensures r == PaintGrid(g, b, totalRange)
  {
    r := Update(g, []);
    if totalRange <= 0 {
      return;
    }
    ghost var done: seq<Offset> := [];
    var x := 0;
    while x < totalRange
      invariant 0 <= x <= totalRange
      invariant done == Triangle(x, totalRange)
      invariant r == ApplyOffsets(g, b, done)
    {
      var y := 0;
      while y < totalRange - x
        invariant 0 <= y <= totalRange - x
        invariant done == Triangle(x, totalRange) + Row(x, y)
        invariant r == ApplyOffsets(g, b, done)
      {
        r := PaintStep(g, b, r, done, x, y);
        AppendAssoc(Triangle(x, totalRange), Row(x, y), Mirror(x, y));
        done := done + Mirror(x, y);
        y := y + 1;
      }
      x := x + 1;
    }
  }

  /** One pass of the inner loop body: the amount for radius `x + y`, then the four
      guarded writes, continuing the writes of the earlier passes. */
  method PaintStep(g: Grid, b: Brush, r: Update, ghost done: seq<Offset>, x: int, y: int) returns (r': Update)
    requires WellFormed(g) && 0 <= x && 0 <= y
    requires r == ApplyOffsets(g, b, done)
    ensures r' == ApplyOffsets(g, b, done + Mirror(x, y))
  {
    var radius := x + y;
    var amount := b.value;
    if radius >= b.fullValueRange {
      amount := amount - b.rate * (radius - b.fullValueRange);
    }
    var s := PaintMirrored(r.grid, b, x, y, radius, amount);
    ApplyOffsetsJoin(g, b, done, Mirror(x, y), r, s);
    r' := Update(s.grid, r.events + s.events);
  }

  /** The write at `(originX + x, originY + y)` and its mirror images, each guarded as in
      the source so that no cell on an axis is written twice. */
  method PaintMirrored(g: Grid, b: Brush, x: int, y: int, radius: int, amount: int) returns (s: Update)
    requires WellFormed(g) && 0 <= x && 0 <= y && radius == x + y
    requires amount == PaintAmount(b.value, b.fullValueRange, b.rate, radius)
    ensures s == ApplyOffsets(g, b, Mirror(x, y))
  {
    s := PaintPair(g, b, Update(g, []), [], x, y, radius, amount);
    assert [] + Pair(x, y) == Pair(x, y);
    if y != 0 {
      s := PaintPair(g, b, s, Pair(x, y), x, -y, radius, amount);
    } else {
      assert Pair(x, y) + [] == Pair(x, y);
    }
  }

  /** The writes at `(originX + x, originY + dy)` and, if `x != 0`, `(originX - x, originY + dy)`. */
  method PaintPair(g: Grid, b: Brush, s: Update, ghost m: seq<Offset>, x: int, dy: int, radius: int, amount: int)
    returns (s': Update)
    requires WellFormed(g) && 0 <= x && radius == x + Abs(dy)
    requires s == ApplyOffsets(g, b, m)
    requires amount == PaintAmount(b.value, b.fullValueRange, b.rate, radius)
    ensures s' == ApplyOffsets(g, b, m + Pair(x, dy))
  {
    s' := PaintCell(g, b, s, m, x, dy, radius, amount);
    if x != 0 {
      s' := PaintCell(g, b, s', m + [Offset(x, dy)], -x, dy, radius, amount);
      AppendAssoc(m, [Offset(x, dy)], [Offset(-x, dy)]);
    } else {
      assert [Offset(x, dy)] + [] == [Offset(x, dy)];
    }
  }

  /** `AddValue(originX + dx, originY + dy, addValueAmount)`, one write of the loop body;
      `s` holds the writes of this step so far, starting from grid `g`. */
  method PaintCell(g: Grid, b: Brush, s: Update, ghost m: seq<Offset>, dx: int, dy: int, radius: int, amount: int)
    returns (s': Update)
    requires WellFormed(g) && radius == Abs(dx) + Abs(dy)
    requires s == ApplyOffsets(g, b, m)
    requires amount == PaintAmount(b.value, b.fullValueRange, b.rate, radius)
    ensures s' == ApplyOffsets(g, b, m + [Offset(dx, dy)])
  {
    var u := AddValue(s.grid, b.originX + dx, b.originY + dy, amount);
    assert Target(b, Offset(dx, dy)) == Cell(b.originX + dx, b.originY + dy);
    assert AmountAt(b, Offset(dx, dy)) == amount;
    ApplyOffsetsSnoc(g, b, m, Offset(dx, dy));
    s' := Update(u.grid, s.events + u.events);
  }

  /** The writes of `done` followed by those of `more`, run from where `done` left off. */
  lemma ApplyOffsetsJoin(g: Grid, b: Brush, done: seq<Offset>, more: seq<Offset>, r: Update, s: Update)
    requires WellFormed(g)
    requires r == ApplyOffsets(g, b, done)
    requires s == ApplyOffsets(r.grid, b, more)
    ensures Update(s.grid, r.events + s.events) == ApplyOffsets(g, b, done + more)
  {
    ApplyOffsetsAppend(g, b, done, more);
  }

  /** Folding one more offset is one more `AddValue`, its events appended. */
  lemma ApplyOffsetsSnoc(g: Grid, b: Brush, a: seq<Offset>, o: Offset)
    requires WellFormed(g)
    ensures ApplyOffsets(g, b, a + [o]) ==
      var first := ApplyOffsets(g, b, a);
      var u := AddValue(first.grid, Target(b, o).x, Target(b, o).y, AmountAt(b, o));
      Update(u.grid, first.events + u.events)
  {
    ApplyOffsetsAppend(g, b, a, [o]);
    var first := ApplyOffsets(g, b, a);
    var u := AddValue(first.grid, Target(b, o).x, Target(b, o).y, AmountAt(b, o));
    assert [o][1..] == [];
    assert ApplyOffsets(first.grid, b, [o]) == Update(u.grid, u.events + []);
    assert u.events + [] == u.events;
  }

  lemma AppendAssoc(a: seq<Offset>, b: seq<Offset>, c: seq<Offset>)
    ensures (a + b) + c == a + (b + c)
  {
  }

  /** The rate the brush uses: `DecayRate` when the ranges differ. With equal ranges the
      source's division by zero yields a rate that no cell reads (see `RateUnused`); the
      model uses 0 there. */
  function BrushRate(value: int, fullValueRange: int, totalRange: int): int {
    if totalRange == fullValueRange then 0 else DecayRate(value, fullValueRange, totalRange)
  }

  /** When the brush does not reach past `fullValueRange`, the rate is never read: any
      two rates paint the same grid with the same events. */
  lemma RateUnused(g: Grid, b: Brush, rate: int, totalRange: int)
    requires WellFormed(g)
    requires totalRange <= b.fullValueRange
    ensures PaintGrid(g, b.(rate := rate), totalRange) == PaintGrid(g, b, totalRange)
  {
    PaintOffsetsExactlyOnce(totalRange);
    ApplyOffsetsRateUnused(g, b, rate, PaintOffsets(totalRange));
  }

  lemma {:induction false} ApplyOffsetsRateUnused(g: Grid, b: Brush, rate: int, offs: seq<Offset>)
    requires WellFormed(g)
    requires forall o :: o in offs ==> Radius(o) < b.fullValueRange
    ensures ApplyOffsets(g, b.(rate := rate), offs) == ApplyOffsets(g, b, offs)
    decreases |offs|
  {
    if offs != [] {
      assert offs[0] in offs;
      assert AmountAt(b.(rate := rate), offs[0]) == AmountAt(b, offs[0]);
      var t := Target(b, offs[0]);
      var u := AddValue(g, t.x, t.y, AmountAt(b, offs[0]));
      forall o | o in offs[1..] ensures Radius(o) < b.fullValueRange {
        assert o in offs;
      }
      ApplyOffsetsRateUnused(u.grid, b, rate, offs[1..]);
    }
  }

  /** `r` is `g` painted by a diamond of `totalRange` around `(cx, cy)`: each grid cell
      of the diamond holds one clamped addition of the amount for its radius and
      raised exactly one event; every other cell keeps its value and raised none. */
  ghost predicate Painted(g: Grid, r: Update, b: Brush, totalRange: int)
    requires WellFormed(g) && WellFormed(r.grid)
  {
    forall x, y ::
      var d := Abs(x - b.originX) + Abs(y - b.originY);
      && GetValue(r.grid, x, y) ==
           (if InBounds(g, x, y) && d < totalRange
            then Clamp(GetValue(g, x, y) + PaintAmount(b.value, b.fullValueRange, b.rate, d))
            else GetValue(g, x, y))
      && multiset(r.events)[Cell(x, y)] == (if InBounds(g, x, y) && d < totalRange then 1 else 0)
  }

  lemma PaintGridPainted(g: Grid, b: Brush, totalRange: int)
    requires WellFormed(g)
    ensures Painted(g, PaintGrid(g, b, totalRange), b, totalRange)
  {
    var r := PaintGrid(g, b, totalRange);
    forall x, y
      ensures var d := Abs(x - b.originX) + Abs(y - b.originY);
        && GetValue(r.grid, x, y) ==
             (if InBounds(g, x, y) && d < totalRange
              then Clamp(GetValue(g, x, y) + PaintAmount(b.value, b.fullValueRange, b.rate, d))
              else GetValue(g, x, y))
        && multiset(r.events)[Cell(x, y)] == (if InBounds(g, x, y) && d < totalRange then 1 else 0)
    {
      assert Radius(OffsetTo(b, x, y)) == Abs(x - b.originX) + Abs(y - b.originY);
      PaintGridEffect(g, b, totalRange, x, y);
      PaintGridEvents(g, b, totalRange, x, y);
    }
  }

  /** `AddValue(Vector3 worldPosition, int value, int fullValueRange, int totalRange)`:
      the diamond is centred on the cell holding `p` and uses the rounded decay rate. */
  function PaintAt(g: Grid, p: Vec3, value: int, fullValueRange: int, totalRange: int): (r: Update)
    requires WellFormed(g) && g.cellSize != 0.0
    ensures WellFormed(r.grid) && SameShape(g, r.grid)
    ensures InRange(g) ==> InRange(r.grid)
    ensures var c := GetXY(g, p);
      Painted(g, r, Brush(c.x, c.y, value, fullValueRange, BrushRate(value, fullValueRange, totalRange)), totalRange)
  {
    var c := GetXY(g, p);
    var b := Brush(c.x, c.y, value, fullValueRange, BrushRate(value, fullValueRange, totalRange));
    PaintGridKeepsRange(g, b, totalRange);
    PaintGridPainted(g, b, totalRange);
    PaintGrid(g, b, totalRange)
  }
}
