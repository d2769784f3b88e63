/** A worked example on a 2 x 2 grid with unit cells at the world origin. */
module Scenario {
  import opened Geometry
  import opened HeatGrid
  import opened Paint

  /** Writing 150 stores the ceiling 100; a write far off the grid changes nothing and
      raises no event. */
  lemma ClampAndIgnore()
    ensures var g := NewGrid(2, 2, 1.0, Zero3);
      var u1 := SetValue(g, 0, 0, 150);
      var u2 := SetValue(u1.grid, 5, 5, 10);
      && GetValue(u1.grid, 0, 0) == 100 && u1.events == [Cell(0, 0)]
      && u2.grid == u1.grid && u2.events == []
  {
  }

  /** The brush rate for value 100 fading from radius 1 to radius 3 is 100 / 2 = 50. */
  lemma ExampleRate()
    ensures DecayRate(100, 1, 3) == 50
  {
    RoundHalfEvenUnique(100, 2, 50);
  }

  /** The brush of the mouse handler, value 100 fading from radius 2 to radius 10, sits
      on a tie: 100 / 8 = 12.5 rounds to the even neighbour 12, not 13. */
  lemma MouseBrushRate()
    ensures BrushRate(100, 2, 10) == 12
  {
    RoundHalfEvenUnique(100, 8, 12);
  }

  /** The world origin lies in cell (0, 0). */
  lemma ExampleOrigin(g: Grid)
    requires g == NewGrid(2, 2, 1.0, Zero3)
    ensures GetXY(g, Zero3) == Cell(0, 0)
  {
    WorldPositionRoundTrip(g, 0, 0);
    assert GetWorldPosition(g, 0, 0) == Zero3;
  }

  /** Painting value 100 with full range 1 and total range 3 at the origin: the centre
      and its distance-1 neighbours get 100, the diagonal cell at distance 2 gets 50. */
  lemma PaintExample(g: Grid, totalRange: int)
    requires g == NewGrid(2, 2, 1.0, Zero3) && totalRange == 3
    ensures var r := PaintAt(g, Zero3, 100, 1, totalRange);
      && GetValue(r.grid, 0, 0) == 100
      && GetValue(r.grid, 1, 0) == 100
      && GetValue(r.grid, 0, 1) == 100
      && GetValue(r.grid, 1, 1) == 50
  {
    ExampleRate();
    ExampleOrigin(g);
    var b := Brush(0, 0, 100, 1, 50);
    assert PaintAt(g, Zero3, 100, 1, totalRange) == PaintGrid(g, b, totalRange);
    PaintExampleCell(g, b, totalRange, 0, 0);
    PaintExampleCell(g, b, totalRange, 1, 0);
    PaintExampleCell(g, b, totalRange, 0, 1);
    PaintExampleCell(g, b, totalRange, 1, 1);
  }

  /** One cell of the example, on the brush the example resolves to. */
  lemma PaintExampleCell(g: Grid, b: Brush, totalRange: int, x: int, y: int)
    requires g == NewGrid(2, 2, 1.0, Zero3) && b == Brush(0, 0, 100, 1, 50) && totalRange == 3
    requires 0 <= x < 2 && 0 <= y < 2
    ensures GetValue(PaintGrid(g, b, totalRange).grid, x, y) == if x + y < 2 then 100 else 50
  {
    assert InBounds(g, x, y) && GetValue(g, x, y) == 0;
    assert Radius(OffsetTo(b, x, y)) == x + y;
    var amount := PaintAmount(b.value, b.fullValueRange, b.rate, x + y);
    assert amount == if x + y < 2 then 100 else 50;
    assert Clamp(0 + amount) == amount;
    PaintGridEffect(g, b, totalRange, x, y);
  }
}
