/** The world map: a square grid of wall markers, point lookup, and the
    boundary-crossing ray walk (`Map` in main.js). */
module World {
  import opened Numeric

  datatype Option<T> = None | Some(value: T)

  /** A cell of the map's Uint8Array. */
  newtype uint8 = x: int | 0 <= x < 256

  /** The wall markers of a `size` by `size` map, row by row. */
  datatype GridData = GridData(size: nat, cells: seq<uint8>)

  /** A grid whose cell sequence has exactly `size * size` entries. */
  type Grid = g: GridData | |g.cells| == g.size * g.size witness GridData(0, [])

  /** The cell (col, row) lies on the grid. */
  predicate InGrid(g: Grid, col: int, row: int) {
    0 <= col < g.size && 0 <= row < g.size
  }

  /** `get(x, y)` on a grid: the wall marker of the cell containing the point,
      or the sentinel -1 for a point off the grid. */
  function Lookup(g: Grid, x: real, y: real): (v: int)
    ensures -1 <= v < 256
    ensures v == -1 <==> !InGrid(g, x.Floor, y.Floor)
    ensures InGrid(g, x.Floor, y.Floor) ==>
      var i := y.Floor * g.size + x.Floor;
      0 <= i < |g.cells| && v == g.cells[i] as int
  {
    var col := x.Floor;
    var row := y.Floor;
    if col < 0 || col > g.size - 1 || row < 0 || row > g.size - 1 then -1
    else
      CellIndex(col, row, g.size);
      g.cells[row * g.size + col] as int
  }

  /** `canGo(x, y)` on a grid: a point is passable when it is off the grid or
      its cell is empty; only a cell holding a wall marker blocks. */
  function Passable(g: Grid, x: real, y: real): (ok: bool)
    ensures ok <==> Lookup(g, x, y) <= 0
    ensures ok <==> !InGrid(g, x.Floor, y.Floor) || Lookup(g, x, y) == 0
  {
    Lookup(g, x, y) <= 0
  }

  /** The row-major index of a cell of an `n` by `n` grid lies in the grid. */
  lemma CellIndex(col: int, row: int, n: int)
    requires 0 <= col < n && 0 <= row < n
    ensures 0 <= row * n + col < n * n
  {
    var below := n - 1 - row;
    assert n * n - (row * n + col) == below * n + (n - col);
    assert 0 <= below * n;
    assert 0 <= row * n;
  }

  /** The candidate crossing `step` computes for one axis. `NoWall` stands for
      the record `{ length2: Infinity }` returned for a ray parallel to that axis. */
  datatype Boundary = NoWall | Boundary(x: real, y: real, length2: real)

  /** `a.length2 < b.length2`, where `NoWall` has infinite squared length:
      nothing is shorter than an infinite length, and every finite one is
      shorter than it. */
  function Shorter(a: Boundary, b: Boundary): (shorter: bool)
    ensures a.NoWall? ==> !shorter
    ensures a.Boundary? && b.NoWall? ==> shorter
    ensures a.Boundary? && b.Boundary? ==> (shorter <==> a.length2 < b.length2)
  {
    a.Boundary? && (b.NoWall? || a.length2 < b.length2)
  }

  /** Which family of grid lines a step crosses: `X` for a line of constant x,
      `Y` for a line of constant y. */
  datatype Axis = X | Y

  /** One element of a cast ray. The first element is the ray's `Origin`; every
      later one is a `Crossed` grid line, labelled with the value of the cell
      just beyond it, a shading band, a texture offset and the distance
      travelled. */
  datatype RayStep =
    | Origin(x: real, y: real, height: int, distance: real)
    | Crossed(x: real, y: real, height: int, distance: real, shading: int, offset: real)

  /** The guarantees every ray produced by `Map.Cast` meets. */
  ghost predicate IsRay(r: seq<RayStep>) {
    && |r| >= 1
    && r[0].Origin? && r[0].height == 0 && r[0].distance == 0.0
    && (forall i :: 0 < i < |r| ==> r[i].Crossed? && 0.0 < r[i].distance)
    && (forall i :: 0 < i < |r| ==> 0 <= r[i].shading <= 2 && 0.0 <= r[i].offset < 1.0)
    && (forall i, j :: 0 <= i < j < |r| ==> r[i].distance < r[j].distance)
  }

  /** Element `i` of `r` is what `next` makes of element `i - 1`. */
  predicate Follows(next: RayStep -> Option<RayStep>, r: seq<RayStep>, i: int) {
    0 < i < |r| && next(r[i - 1]) == Some(r[i])
  }

  /** Element `i` of `r` is the walk's next crossing after element `i - 1`. */
  ghost predicate FollowsNext(g: Grid, sin: real, cos: real, sqrt: real -> real, r: seq<RayStep>, i: int) {
    SquareRoot(sqrt) && 0 < i < |r| && Next(g, sin, cos, sqrt, r[i - 1]) == Some(r[i])
  }

  /** Element `i` of `r` lies farther along than element `i - 1`. */
  predicate Farther(r: seq<RayStep>, i: int) {
    0 < i < |r| && r[i - 1].distance < r[i].distance
  }

  /** A stop condition of the walk: no next step, or it lies beyond `range`. */
  predicate Stops(n: Option<RayStep>, range: real) {
    n.None? || n.value.distance > range
  }

  /** `step(rise, run, x, y, inverted)`: the next crossing of a grid line of the
      family driven by `run` (x in the plain call, y when `inverted`). The landed
      coordinate is the nearest integer strictly past `x` in the direction of
      `run`, the slid coordinate moves by the slope `rise / run`, and the result
      swaps the two back into place when `inverted`. */
  function Step(rise: real, run: real, x: real, y: real, inverted: bool): (b: Boundary)
    ensures b.NoWall? <==> run == 0.0
    ensures b.Boundary? ==>
      var landed := if inverted then b.y else b.x;
      var slid := if inverted then b.x else b.y;
      && IsInteger(landed)
      && (run > 0.0 ==> 0.0 < landed - x <= 1.0)
      && (run < 0.0 ==> -1.0 <= landed - x < 0.0)
      && slid - y == Product(landed - x, rise / run)
      && b.length2 == Product(landed - x, landed - x) + Product(slid - y, slid - y)
      && b.length2 > 0.0
  {
    if run == 0.0 then NoWall
    else
      var dx := Advance(run, x);
      var dy := Product(dx, rise / run);
      SquareSign(dx);
      SquareSign(dy);
      var b := Boundary(if inverted then y + dy else x + dx, if inverted then x + dx else y + dy,
                        Product(dx, dx) + Product(dy, dy));
      assert (if inverted then b.y else b.x) - x == dx;
      assert (if inverted then b.x else b.y) - y == dy;
      b
  }

  /** `run > 0 ? Math.floor(x + 1) - x : Math.ceil(x - 1) - x`: the move that
      brings `x` to the next integer in the direction of `run`. */
  function Advance(run: real, x: real): (dx: real)
    requires run != 0.0
    ensures IsInteger(x + dx)
    ensures run > 0.0 ==> 0.0 < dx <= 1.0
    ensures run < 0.0 ==> -1.0 <= dx < 0.0
  {
    if run > 0.0 then (x + 1.0).Floor as real - x else Ceil(x - 1.0) as real - x
  }

  /** `inspect(step, shiftX, shiftY, distance, offset)` for the crossing `b` of
      a line of family `axis`: the cell just beyond the crossed line (one
      unit back along the crossed axis when travelling negatively on it),
      in the column or row given by the floor of the other coordinate; then
      the shading band, the texture offset along the line, and the distance
      travelled so far. At a grid corner that column or row need not be the
      one the ray enters (`CornerReadsRightColumn`). */
  function Inspect(g: Grid, sin: real, cos: real, sqrt: real -> real, b: Boundary, axis: Axis, prior: real): (s: RayStep)
    requires b.Boundary?
    ensures s.Crossed? && s.x == b.x && s.y == b.y
    ensures s.distance == prior + sqrt(b.length2)
    ensures s.height == Lookup(g, if axis == X && cos < 0.0 then b.x - 1.0 else b.x,
                                  if axis == Y && sin < 0.0 then b.y - 1.0 else b.y)
    ensures s.shading == 2 <==> (if axis == X then cos < 0.0 else sin < 0.0)
    ensures s.shading != 2 ==> s.shading == (if axis == X then 0 else 1)
    ensures 0.0 <= s.offset < 1.0
    ensures s.offset == Frac(if axis == X then b.y else b.x)
  {
    var shiftX := if axis == X then 1.0 else 0.0;
    var shiftY := if axis == Y then 1.0 else 0.0;
    var dx := if cos < 0.0 then shiftX else 0.0;
    var dy := if sin < 0.0 then shiftY else 0.0;
    var shading := if axis == X then (if cos < 0.0 then 2 else 0) else (if sin < 0.0 then 2 else 1);
    Crossed(b.x, b.y, Lookup(g, b.x - dx, b.y - dy), prior + sqrt(b.length2), shading,
            Frac(if axis == X then b.y else b.x))
  }

  /** One round of `ray(origin)` before the range test: both candidate
      crossings, the X one taken only when strictly shorter, inspected.
      `None` when neither axis has a crossing (both yield infinite length). */
  function Next(g: Grid, sin: real, cos: real, sqrt: real -> real, o: RayStep): (n: Option<RayStep>)
    requires SquareRoot(sqrt)
    ensures n.None? <==> sin == 0.0 && cos == 0.0
    ensures n.Some? ==> n.value.Crossed? && n.value.distance > o.distance
    ensures n.Some? ==> IsInteger(n.value.x) || IsInteger(n.value.y)
    ensures n.Some? ==> 0 <= n.value.shading <= 2 && 0.0 <= n.value.offset < 1.0
  {
    var stepX := Step(sin, cos, o.x, o.y, false);
    var stepY := Step(cos, sin, o.y, o.x, true);
    if Shorter(stepX, stepY) then
      SqrtPositive(sqrt, stepX.length2);
      Some(Inspect(g, sin, cos, sqrt, stepX, X, o.distance))
    else if stepY.Boundary? then
      SqrtPositive(sqrt, stepY.length2);
      Some(Inspect(g, sin, cos, sqrt, stepY, Y, o.distance))
    else
      None
  }

  /** The walk advances to the nearest grid line: no candidate crossing comes
      sooner than the step taken. */
  lemma NextIsNearest(g: Grid, sin: real, cos: real, sqrt: real -> real, o: RayStep)
    requires SquareRoot(sqrt) && (sin != 0.0 || cos != 0.0)
    ensures Next(g, sin, cos, sqrt, o).Some?
    ensures var n := Next(g, sin, cos, sqrt, o).value;
      var stepX := Step(sin, cos, o.x, o.y, false);
      var stepY := Step(cos, sin, o.y, o.x, true);
      && (stepX.Boundary? ==> n.distance <= o.distance + sqrt(stepX.length2))
      && (stepY.Boundary? ==> n.distance <= o.distance + sqrt(stepY.length2))
  {
    var stepX := Step(sin, cos, o.x, o.y, false);
    var stepY := Step(cos, sin, o.y, o.x, true);
    if Shorter(stepX, stepY) {
      if stepY.Boundary? {
        SqrtMonotone(sqrt, stepX.length2, stepY.length2);
      }
    } else if stepX.Boundary? {
      SqrtMonotone(sqrt, stepY.length2, stepX.length2);
    }
  }

  /** Step `p` lies on the line through `(px, py)` with direction `(cos, sin)`. */
  predicate OnLine(px: real, py: real, sin: real, cos: real, p: RayStep) {
    Product(p.y - py, cos) == Product(p.x - px, sin)
  }

  /** Each crossing lies on the ray: the move from `o` to the next step is
      parallel to the direction `(cos, sin)`. */
  lemma NextOnRay(g: Grid, sin: real, cos: real, sqrt: real -> real, o: RayStep)
    requires SquareRoot(sqrt) && (sin != 0.0 || cos != 0.0)
    ensures Next(g, sin, cos, sqrt, o).Some?
    ensures var n := Next(g, sin, cos, sqrt, o).value;
      Product(n.y - o.y, cos) == Product(n.x - o.x, sin)
  {
    var n := Next(g, sin, cos, sqrt, o).value;
    var stepX := Step(sin, cos, o.x, o.y, false);
    var stepY := Step(cos, sin, o.y, o.x, true);
    if Shorter(stepX, stepY) {
      assert n.x == stepX.x && n.y == stepX.y;
      assert n.y - o.y == Product(n.x - o.x, sin / cos);
      SlopeTimesRun(n.x - o.x, sin, cos);
    } else {
      assert n.x == stepY.x && n.y == stepY.y;
      assert n.x - o.x == Product(n.y - o.y, cos / sin);
      SlopeTimesRun(n.y - o.y, cos, sin);
      ProductCommutes(n.y - o.y, cos);
      ProductCommutes(n.x - o.x, sin);
    }
  }

  /** When both crossings are equally far, the walk takes the Y crossing. */
  lemma TieGoesToY(g: Grid, sin: real, cos: real, sqrt: real -> real, o: RayStep)
    requires SquareRoot(sqrt)
    requires sin != 0.0 && cos != 0.0
    requires Step(sin, cos, o.x, o.y, false).length2 == Step(cos, sin, o.y, o.x, true).length2
    ensures var stepY := Step(cos, sin, o.y, o.x, true);
      var n := Next(g, sin, cos, sqrt, o);
      n.Some? && n.value.x == stepY.x && n.value.y == stepY.y && IsInteger(n.value.y)
      && n.value.shading == (if sin < 0.0 then 2 else 1)
  {
  }

  /** A 3 by 3 map whose only wall is cell (1, 1). */
  const CentreWall: Grid := GridData(3, [0, 0, 0, 0, 1, 0, 0, 0, 0])

  /** A ray through a grid corner while heading toward -x reads the column
      to the right of the corner. From (1.5, 0.5) toward (-1, 1) the ray
      passes through the corner (1, 1) from cell (1, 0) into the empty cell
      (0, 1). Both crossings tie, the Y crossing is taken, and its lookup is
      shifted on y only, so the step reports the wall of cell (1, 1), which
      the ray only touches at its corner. */
  lemma CornerReadsRightColumn(sqrt: real -> real)
    requires SquareRoot(sqrt)
    ensures Lookup(CentreWall, 0.5, 1.5) == 0
    ensures var n := Next(CentreWall, 1.0, -1.0, sqrt, Origin(1.5, 0.5, 0, 0.0));
      n.Some? && n.value.x == 1.0 && n.value.y == 1.0 && n.value.height == 1
  {
  }

  /** `ray(origin)`: the origin followed by the walk from the next crossing,
      ending before the first step beyond `range`. `next` is one round of the
      walk on a fixed map and angle. The source recurses until the range test
      stops it; here at most `fuel` steps follow the origin. */
  function Ray(next: RayStep -> Option<RayStep>, range: real, origin: RayStep, fuel: nat): (r: seq<RayStep>)
    decreases fuel
    ensures 1 <= |r| <= fuel + 1 && r[0] == origin
    ensures forall i :: 0 < i < |r| ==> Follows(next, r, i)
    ensures forall i :: 0 < i < |r| ==> r[i].distance <= range
    ensures |r| <= fuel ==> Stops(next(r[|r| - 1]), range)
  {
    if fuel == 0 then [origin]
    else
      match next(origin)
      case None => [origin]
      case Some(step) =>
        if step.distance > range then [origin]
        else
          var rest := Ray(next, range, step, fuel - 1);
          FollowsAfter(next, range, origin, rest);
          [origin] + rest
  }

  /** Putting a step in front of a walk from its successor gives a walk. */
  lemma FollowsAfter(next: RayStep -> Option<RayStep>, range: real, origin: RayStep, rest: seq<RayStep>)
    requires |rest| >= 1 && next(origin) == Some(rest[0]) && rest[0].distance <= range
    requires forall i :: 0 < i < |rest| ==> Follows(next, rest, i)
    requires forall i :: 0 < i < |rest| ==> rest[i].distance <= range
    ensures var r := [origin] + rest;
      && (forall i :: 0 < i < |r| ==> Follows(next, r, i))
      && (forall i :: 0 < i < |r| ==> r[i].distance <= range)
  {
    var r := [origin] + rest;
    forall i | 0 < i < |r| ensures Follows(next, r, i) && r[i].distance <= range {
      assert r[i] == rest[i - 1];
      if i > 1 {
        assert Follows(next, rest, i - 1);
        assert r[i - 1] == rest[i - 2];
      }
    }
  }

  /** The ray is the only sequence that starts at the origin, follows `next`
      within `range`, and ends where the walk stops or the fuel runs out. */
  lemma {:induction false} RayIsTheWalk(next: RayStep -> Option<RayStep>, range: real, origin: RayStep, fuel: nat, s: seq<RayStep>)
    requires 1 <= |s| <= fuel + 1 && s[0] == origin
    requires forall i :: 0 < i < |s| ==> Follows(next, s, i)
    requires forall i :: 0 < i < |s| ==> s[i].distance <= range
    requires |s| <= fuel ==> Stops(next(s[|s| - 1]), range)
    decreases fuel
    ensures s == Ray(next, range, origin, fuel)
  {
    if |s| > 1 {
      var rest := s[1..];
      FollowsTail(next, range, s);
      assert Follows(next, s, 1);
      RayIsTheWalk(next, range, s[1], fuel - 1, rest);
      assert s == [origin] + rest;
    }
  }

  /** Dropping the first step of a walk within `range` leaves a walk within
      `range`. */
  lemma FollowsTail(next: RayStep -> Option<RayStep>, range: real, s: seq<RayStep>)
    requires |s| > 1
    requires forall i :: 0 < i < |s| ==> Follows(next, s, i)
    requires forall i :: 0 < i < |s| ==> s[i].distance <= range
    ensures var rest := s[1..];
      && (forall i :: 0 < i < |rest| ==> Follows(next, rest, i))
      && (forall i :: 0 < i < |rest| ==> rest[i].distance <= range)
  {
    var rest := s[1..];
    forall i | 0 < i < |rest| ensures Follows(next, rest, i) && rest[i].distance <= range {
      assert Follows(next, s, i + 1);
    }
  }

  /** Every point of a walk lies on the line through its first point with
      direction `(cos, sin)`. */
  lemma {:induction false} WalkOnRay(g: Grid, sin: real, cos: real, sqrt: real -> real, r: seq<RayStep>, i: nat)
    requires SquareRoot(sqrt)
    requires forall k :: 0 < k < |r| ==> FollowsNext(g, sin, cos, sqrt, r, k)
    requires i < |r|
    ensures Product(r[i].y - r[0].y, cos) == Product(r[i].x - r[0].x, sin)
  {
    if i > 0 {
      var a, b, o := r[i - 1], r[i], r[0];
      WalkOnRay(g, sin, cos, sqrt, r, i - 1);
      assert FollowsNext(g, sin, cos, sqrt, r, i);
      NextOnRay(g, sin, cos, sqrt, a);
      ProductAdds(b.y - a.y, a.y - o.y, cos);
      ProductAdds(b.x - a.x, a.x - o.x, sin);
      assert (b.y - a.y) + (a.y - o.y) == b.y - o.y;
      assert (b.x - a.x) + (a.x - o.x) == b.x - o.x;
    }
  }

  /** The crossing `step` finds lies a positive multiple `t` of the direction
      `(run, rise)` away from `(x, y)`, and its squared length is `t * t`
      times the squared length of that direction. */
  lemma CrossingMove(rise: real, run: real, x: real, y: real, inverted: bool) returns (t: real)
    requires run != 0.0
    ensures var b := Step(rise, run, x, y, inverted);
      var landed := if inverted then b.y else b.x;
      var slid := if inverted then b.x else b.y;
      && 0.0 < t
      && landed - x == Product(t, run)
      && slid - y == Product(t, rise)
      && b.length2 == Product(Product(t, t), Product(run, run) + Product(rise, rise))
  {
    var b := Step(rise, run, x, y, inverted);
    var d := (if inverted then b.y else b.x) - x;
    var slope := rise / run;
    t := d / run;
    QuotientPositive(d, run);
    assert t * run == d;
    assert slope * run == rise;
    assert Product(d, slope) == Product(t, rise) by {
      assert d * slope == t * (run * slope);
    }
    ProductSquare(t, run);
    ProductSquare(t, rise);
  }

  /** One round of the walk moves a positive multiple `t` of the direction
      `(cos, sin)`, and adds `t` times that direction's length to the
      distance. */
  lemma NextMove(g: Grid, sin: real, cos: real, sqrt: real -> real, o: RayStep) returns (t: real)
    requires SquareRoot(sqrt) && (sin != 0.0 || cos != 0.0)
    ensures Next(g, sin, cos, sqrt, o).Some?
    ensures var n := Next(g, sin, cos, sqrt, o).value;
      && 0.0 < t
      && n.x - o.x == Product(t, cos) && n.y - o.y == Product(t, sin)
      && n.distance == o.distance + Product(t, sqrt(Product(cos, cos) + Product(sin, sin)))
  {
    var stepX := Step(sin, cos, o.x, o.y, false);
    var stepY := Step(cos, sin, o.y, o.x, true);
    var q := Product(cos, cos) + Product(sin, sin);
    SquareSign(cos);
    SquareSign(sin);
    if Shorter(stepX, stepY) {
      t := CrossingMove(sin, cos, o.x, o.y, false);
      assert stepX.length2 == Product(Product(t, t), q);
    } else {
      assert stepY.Boundary?;
      t := CrossingMove(cos, sin, o.y, o.x, true);
      assert stepY.length2 == Product(Product(t, t), q);
    }
    SqrtScales(sqrt, t, q);
  }

  /** Every point of a walk is a non-negative multiple `t` of the direction
      `(cos, sin)` away from its first point, and its distance exceeds the
      first point's by `t` times the direction's length. */
  lemma {:induction false} WalkMove(g: Grid, sin: real, cos: real, sqrt: real -> real, r: seq<RayStep>, i: nat) returns (t: real)
    requires SquareRoot(sqrt)
    requires forall k :: 0 < k < |r| ==> FollowsNext(g, sin, cos, sqrt, r, k)
    requires i < |r|
    ensures 0.0 <= t
    ensures r[i].x - r[0].x == Product(t, cos) && r[i].y - r[0].y == Product(t, sin)
    ensures r[i].distance - r[0].distance == Product(t, sqrt(Product(cos, cos) + Product(sin, sin)))
  {
    var l := sqrt(Product(cos, cos) + Product(sin, sin));
    if i == 0 {
      t := 0.0;
      ProductSign(0.0, cos);
      ProductSign(0.0, sin);
      ProductSign(0.0, l);
    } else {
      var before := WalkMove(g, sin, cos, sqrt, r, i - 1);
      assert FollowsNext(g, sin, cos, sqrt, r, i);
      var move := NextMove(g, sin, cos, sqrt, r[i - 1]);
      t := before + move;
      ProductAdds(before, move, cos);
      ProductAdds(before, move, sin);
      ProductAdds(before, move, l);
    }
  }

  /** Along a walk that starts at distance 0, every step's distance is its
      Euclidean distance from the first point. */
  lemma WalkDistance(g: Grid, sin: real, cos: real, sqrt: real -> real, r: seq<RayStep>, i: nat)
    requires SquareRoot(sqrt)
    requires forall k :: 0 < k < |r| ==> FollowsNext(g, sin, cos, sqrt, r, k)
    requires i < |r| && r[0].distance == 0.0
    ensures 0.0 <= r[i].distance
    ensures Product(r[i].distance, r[i].distance)
         == Product(r[i].x - r[0].x, r[i].x - r[0].x) + Product(r[i].y - r[0].y, r[i].y - r[0].y)
  {
    var q := Product(cos, cos) + Product(sin, sin);
    SquareSign(cos);
    SquareSign(sin);
    var t := WalkMove(g, sin, cos, sqrt, r, i);
    SqrtScales(sqrt, t, q);
    ScaledLength(t, sqrt(q), cos, sin);
  }

  /** The distance of every step of a cast is its Euclidean distance from
      the cast's starting point. */
  lemma DistanceIsEuclidean(g: Grid, px: real, py: real, sin: real, cos: real, range: real, sqrt: real -> real, fuel: nat, i: nat)
    requires SquareRoot(sqrt)
    requires i < |CastOn(g, px, py, sin, cos, range, sqrt, fuel)|
    ensures var s := CastOn(g, px, py, sin, cos, range, sqrt, fuel)[i];
      && 0.0 <= s.distance
      && Product(s.distance, s.distance) == Product(s.x - px, s.x - px) + Product(s.y - py, s.y - py)
  {
    var r := CastOn(g, px, py, sin, cos, range, sqrt, fuel);
    WalkDistance(g, sin, cos, sqrt, r, i);
  }

  /** What `Next` guarantees of one step holds of every step of a walk. */
  lemma StepsFollowNext(g: Grid, sin: real, cos: real, sqrt: real -> real, r: seq<RayStep>)
    requires SquareRoot(sqrt)
    requires forall i :: 0 < i < |r| ==> FollowsNext(g, sin, cos, sqrt, r, i)
    ensures forall i :: 0 < i < |r| ==> r[i].Crossed?
    ensures forall i :: 0 < i < |r| ==> Farther(r, i)
    ensures forall i :: 0 < i < |r| ==> 0 <= r[i].shading <= 2 && 0.0 <= r[i].offset < 1.0
    ensures forall i :: 0 < i < |r| ==> IsInteger(r[i].x) || IsInteger(r[i].y)
  {
    forall i | 0 < i < |r|
      ensures r[i].Crossed? && Farther(r, i)
      ensures 0 <= r[i].shading <= 2 && 0.0 <= r[i].offset < 1.0
      ensures IsInteger(r[i].x) || IsInteger(r[i].y)
    {
      assert FollowsNext(g, sin, cos, sqrt, r, i);
    }
  }

  /** Consecutive increase of distances along a sequence of steps gives
      increase between any two of them. */
  lemma {:induction false} DistancesIncrease(r: seq<RayStep>, i: nat, j: nat)
    requires forall k :: 0 < k < |r| ==> Farther(r, k)
    requires i < j < |r|
    ensures r[i].distance < r[j].distance
  {
    assert Farther(r, j);
    if i + 1 < j {
      DistancesIncrease(r, i, j - 1);
    }
  }

  lemma AllDistancesIncrease(r: seq<RayStep>)
    requires forall k :: 0 < k < |r| ==> Farther(r, k)
    ensures forall i, j :: 0 <= i < j < |r| ==> r[i].distance < r[j].distance
  {
    forall i, j | 0 <= i < j < |r| ensures r[i].distance < r[j].distance {
      DistancesIncrease(r, i, j);
    }
  }

  /** One round of the walk on grid `g` for the direction `(cos, sin)`. */
  function Walker(g: Grid, sin: real, cos: real, sqrt: real -> real): RayStep -> Option<RayStep>
    requires SquareRoot(sqrt)
  {
    o => Next(g, sin, cos, sqrt, o)
  }

  /** `cast(point, angle, range)` on grid `g`, with `sin` and `cos` of the
      angle given: the walk from `(px, py)`, starting at height 0 and
      distance 0. It is a ray: every step moves farther along and lands on a
      grid line of the ray's own line, none lies beyond `range`, and unless
      the fuel ran out the next step would lie beyond `range` or not exist. */
  function CastOn(g: Grid, px: real, py: real, sin: real, cos: real, range: real, sqrt: real -> real, fuel: nat): (r: seq<RayStep>)
    requires SquareRoot(sqrt)
    ensures IsRay(r) && r[0] == Origin(px, py, 0, 0.0)
    ensures forall i :: 0 < i < |r| ==> FollowsNext(g, sin, cos, sqrt, r, i)
    ensures forall i :: 0 < i < |r| ==> r[i].distance <= range
    ensures forall i :: 0 < i < |r| ==> IsInteger(r[i].x) || IsInteger(r[i].y)
    ensures forall i :: 0 <= i < |r| ==> OnLine(px, py, sin, cos, r[i])
    ensures |r| <= fuel + 1
    ensures |r| <= fuel ==> Stops(Next(g, sin, cos, sqrt, r[|r| - 1]), range)
  {
    var next := Walker(g, sin, cos, sqrt);
    var r := Ray(next, range, Origin(px, py, 0, 0.0), fuel);
    forall i | 0 < i < |r| ensures FollowsNext(g, sin, cos, sqrt, r, i) {
      assert Follows(next, r, i);
    }
    forall i | 0 <= i < |r| ensures OnLine(px, py, sin, cos, r[i]) {
      WalkOnRay(g, sin, cos, sqrt, r, i);
    }
    StepsFollowNext(g, sin, cos, sqrt, r);
    AllDistancesIncrease(r);
    r
  }

  class Map {
    /** The side of the square grid. */
    const size: nat
    /** Row-major wall markers: cell (col, row) is at `row * size + col`. */
    const wallGrid: array<uint8>
    /** Size in pixels of the wall texture (`wallTexture.width`, `.height`). */
    const textureWidth: int
    const textureHeight: int

    ghost predicate Valid() {
      wallGrid.Length == size * size && textureWidth == 1024 && textureHeight == 1024
    }

    constructor (size: nat)
      ensures this.size == size && Valid() && fresh(wallGrid)
      ensures forall i :: 0 <= i < wallGrid.Length ==> wallGrid[i] == 0
    {
      this.size := size;
      wallGrid := new uint8[size * size](_ => 0);
      textureWidth := 1024;
      textureHeight := 1024;
    }

    /** The current wall markers as a grid value. */
    function Cells(): (g: Grid)
      requires Valid()
      reads wallGrid
      ensures g.size == size && g.cells == wallGrid[..]
    {
      GridData(size, wallGrid[..])
    }

    /** `get(x, y)`: the wall marker of the cell containing the point, or -1
        for a point off the grid. */
    function Get(x: real, y: real): (v: int)
      requires Valid()
      reads wallGrid
      ensures -1 <= v < 256
      ensures v == -1 <==> !(0 <= x.Floor < size && 0 <= y.Floor < size)
      ensures 0 <= x.Floor < size && 0 <= y.Floor < size ==>
        var i := y.Floor * size + x.Floor;
        0 <= i < wallGrid.Length && v == wallGrid[i] as int
    {
      Lookup(Cells(), x, y)
    }

    /** `canGo(x, y)`: off-grid points and empty cells are passable. */
    function CanGo(x: real, y: real): (ok: bool)
      requires Valid()
      reads wallGrid
      ensures ok <==> Get(x, y) <= 0
      ensures ok <==> !(0 <= x.Floor < size && 0 <= y.Floor < size) || Get(x, y) == 0
    {
      Passable(Cells(), x, y)
    }

    /** `randomize()`: the calls to Math.random() arrive as `rolls`, one per
        cell; a roll below 0.3 places a wall. */
    method Randomize(rolls: seq<real>)
      requires Valid() && |rolls| == size * size
      modifies wallGrid
      ensures forall i :: 0 <= i < wallGrid.Length ==> wallGrid[i] == if rolls[i] < 0.3 then 1 else 0
    {
      for i := 0 to size * size
        invariant forall j :: 0 <= j < i ==> wallGrid[j] == if rolls[j] < 0.3 then 1 else 0
      {
        wallGrid[i] := if rolls[i] < 0.3 then 1 else 0;
      }
    }

    /** `cast(point, angle, range)` on the map's current grid. */
    function Cast(px: real, py: real, sin: real, cos: real, range: real, sqrt: real -> real, fuel: nat): (r: seq<RayStep>)
      requires Valid() && SquareRoot(sqrt)
      reads wallGrid
      ensures r == CastOn(Cells(), px, py, sin, cos, range, sqrt, fuel)
      ensures IsRay(r) && r[0] == Origin(px, py, 0, 0.0)
    {
      CastOn(Cells(), px, py, sin, cos, range, sqrt, fuel)
    }
  }
}
