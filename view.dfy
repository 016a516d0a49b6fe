/** The camera: perspective projection of a wall hit, and the draw calls one
    screen column makes from a cast ray (`Camera` in main.js). */
module View {
  import opened Numeric
  import opened World

  /** The screen strip of a wall: `{ top, height }` as `project` returns it. */
  datatype Wall = Wall(top: real, height: real)

  /** A call on the 2D drawing context: a setting of `globalAlpha` or
      `fillStyle`, a `drawImage` of one texture column scaled onto the screen,
      or a `fillRect`. */
  datatype Op =
    | SetAlpha(alpha: real)
    | SetFill(color: Color)
    | DrawImage(sx: int, sy: int, sw: int, sh: int, dx: int, dy: real, dw: int, dh: real)
    | FillRect(x: int, y: real, w: int, h: real)

  /** The two fill styles the camera uses: `Black` is "#000000" and `White`
      is "#ffffff". */
  datatype Color = Black | White

  /** The settings made after every step of the ray, hit or not: a white fill
      at alpha 0.15. */
  const Fog: seq<Op> := [SetFill(White), SetAlpha(0.15)]

  /** `Fog` once for each of `k` steps. */
  function Fogs(k: nat): (ops: seq<Op>)
    ensures |ops| == 2 * k
  {
    if k == 0 then [] else Fog + Fogs(k - 1)
  }

  /** Index of the first step of `ray` that holds a wall marker, or `|ray|`
      when there is none: the `hit` that `drawColumn` searches for. */
  function FirstHit(ray: seq<RayStep>): (hit: nat)
    ensures hit <= |ray|
    ensures forall i :: 0 <= i < hit ==> ray[i].height <= 0
    ensures hit < |ray| ==> ray[hit].height > 0
  {
    if ray == [] || ray[0].height > 0 then 0
    else 1 + FirstHit(ray[1..])
  }

  /** The search `while (++hit < ray.length && ray[hit].height <= 0);` in
      `drawColumn`: the first index holding a wall, or the ray's length. */
  method FindHit(ray: seq<RayStep>) returns (hit: nat)
    ensures hit == FirstHit(ray)
    ensures hit <= |ray| && (forall i :: 0 <= i < hit ==> ray[i].height <= 0)
    ensures hit < |ray| ==> ray[hit].height > 0
  {
    hit := 0;
    while hit < |ray| && ray[hit].height <= 0
      invariant hit <= |ray|
      invariant forall i :: 0 <= i < hit ==> ray[i].height <= 0
    {
      hit := hit + 1;
    }
  }

  /** The first hit of a ray is a crossing: the origin never holds a wall. */
  lemma HitIsCrossing(ray: seq<RayStep>)
    requires IsRay(ray)
    ensures FirstHit(ray) >= 1
    ensures FirstHit(ray) < |ray| ==> ray[FirstHit(ray)].Crossed? && ray[FirstHit(ray)].distance > 0.0
  {
  }

  /** The first hit of a ray, seen from in front of the camera, can be
      projected and textured. */
  lemma HitDrawable(ray: seq<RayStep>, cos: real)
    requires IsRay(ray) && cos > 0.0
    ensures var hit := FirstHit(ray);
      hit < |ray| ==> ray[hit].Crossed? && 0.0 <= ray[hit].offset < 1.0 && ray[hit].distance * cos != 0.0
  {
    var hit := FirstHit(ray);
    HitIsCrossing(ray);
    if hit < |ray| {
      ProductPositive(ray[hit].distance, cos);
    }
  }

  /** A 4 by 4 map whose only wall is cell (2, 0). */
  const OneWall: Grid := GridData(4, [0, 0, 1, 0, 0, 0, 0, 0, 0, 0, 0, 0, 0, 0, 0, 0])

  /** A viewer at (0.5, 0.5) looking along +x (sine 0, cosine 1) with range
      10 first crosses x = 1 into an empty cell, then hits the wall on the
      line x = 2, 1.5 away, on an x-facing side, half way along the cell. */
  lemma StraightAtWall(sqrt: real -> real, fuel: nat)
    requires SquareRoot(sqrt) && fuel >= 2
    ensures var r := Ray(Walker(OneWall, 0.0, 1.0, sqrt), 10.0, Origin(0.5, 0.5, 0, 0.0), fuel);
      && |r| >= 3
      && r[1] == Crossed(1.0, 0.5, 0, 0.5, 0, 0.5)
      && r[2] == Crossed(2.0, 0.5, 1, 1.5, 0, 0.5)
      && FirstHit(r) == 2
  {
    var origin := Origin(0.5, 0.5, 0, 0.0);
    var first := Crossed(1.0, 0.5, 0, 0.5, 0, 0.5);
    var second := Crossed(2.0, 0.5, 1, 1.5, 0, 0.5);
    var next := Walker(OneWall, 0.0, 1.0, sqrt);
    CrossingAlongX(sqrt, origin, 0.5, first);
    CrossingAlongX(sqrt, first, 1.0, second);
    RayStart(next, 10.0, origin, first, second, fuel);
  }

  /** A step holding a wall after steps that hold none is the first hit. */
  lemma FirstHitAt(ray: seq<RayStep>, k: nat)
    requires k < |ray| && ray[k].height > 0
    requires forall i :: 0 <= i < k ==> ray[i].height <= 0
    ensures FirstHit(ray) == k
  {
  }

  /** A walk whose first two steps are within range begins with them. */
  lemma RayStart(next: RayStep -> Option<RayStep>, range: real, origin: RayStep, first: RayStep, second: RayStep, fuel: nat)
    requires fuel >= 2 && next(origin) == Some(first) && next(first) == Some(second)
    requires first.distance <= range && second.distance <= range
    ensures var r := Ray(next, range, origin, fuel);
      |r| >= 3 && r[0] == origin && r[1] == first && r[2] == second
      && (first.height <= 0 && second.height > 0 && origin.height <= 0 ==> FirstHit(r) == 2)
  {
    var r := Ray(next, range, origin, fuel);
    assert Ray(next, range, origin, fuel) == [origin] + Ray(next, range, first, fuel - 1);
    assert Ray(next, range, first, fuel - 1) == [first] + Ray(next, range, second, fuel - 2);
    if first.height <= 0 && second.height > 0 && origin.height <= 0 {
      FirstHitAt(r, 2);
    }
  }

  /** One round of the walk that `StraightAtWall` casts along +x on
      `OneWall`: the next line of constant x lies `dx` ahead, and the
      crossing there is `n`. */
  lemma CrossingAlongX(sqrt: real -> real, o: RayStep, dx: real, n: RayStep)
    requires SquareRoot(sqrt)
    requires o.y == 0.5 && 0.0 < dx <= 1.0 && IsInteger(o.x + dx) && 0.0 <= o.x + dx < 4.0
    requires n == Crossed(o.x + dx, 0.5, if o.x + dx == 2.0 then 1 else 0, o.distance + dx, 0, 0.5)
    ensures Walker(OneWall, 0.0, 1.0, sqrt)(o) == Some(n)
  {
    var landed := o.x + dx;
    assert landed.Floor as real == landed;
    assert (o.x + 1.0).Floor == landed.Floor;
    var stepX := Step(0.0, 1.0, o.x, o.y, false);
    assert Product(dx, 0.0 / 1.0) == 0.0;
    assert stepX == Boundary(landed, 0.5, Product(dx, dx) + Product(0.0, 0.0));
    SqrtOfSquare(sqrt, dx);
    assert (0.5).Floor == 0;
    assert Lookup(OneWall, landed, 0.5) == OneWall.cells[landed.Floor] as int;
    assert Next(OneWall, 0.0, 1.0, sqrt, o) == Some(n);
  }

  /** The calls made for step `s` of a ray whose hit is at `hit`: the hit's
      own calls `hitOps` when `s` is the hit, then the fog settings. */
  function StepOps(hit: nat, hitOps: seq<Op>, s: nat): seq<Op> {
    (if s == hit then hitOps else []) + Fog
  }

  /** The calls made for steps `hi - 1` down to `lo`, farthest first. */
  function Descend(hit: nat, hitOps: seq<Op>, lo: nat, hi: nat): (ops: seq<Op>)
    decreases hi
  {
    if hi <= lo then [] else StepOps(hit, hitOps, hi - 1) + Descend(hit, hitOps, lo, hi - 1)
  }

  /** Walking one step lower appends that step's calls at the end. */
  lemma {:induction false} DescendLower(hit: nat, hitOps: seq<Op>, lo: nat, hi: nat)
    requires lo < hi
    decreases hi
    ensures Descend(hit, hitOps, lo, hi) == Descend(hit, hitOps, lo + 1, hi) + StepOps(hit, hitOps, lo)
  {
    if lo + 1 < hi {
      DescendLower(hit, hitOps, lo, hi - 1);
    }
  }

  /** A run of steps split at `mid`: the farther part is drawn first. */
  lemma {:induction false} DescendSplit(hit: nat, hitOps: seq<Op>, lo: nat, mid: nat, hi: nat)
    requires lo <= mid <= hi
    decreases hi
    ensures Descend(hit, hitOps, lo, hi) == Descend(hit, hitOps, mid, hi) + Descend(hit, hitOps, lo, mid)
  {
    if mid < hi {
      DescendSplit(hit, hitOps, lo, mid, hi - 1);
    }
  }

  /** Steps other than the hit contribute only their fog settings. */
  lemma {:induction false} DescendMissed(hit: nat, hitOps: seq<Op>, lo: nat, hi: nat)
    requires lo <= hi && !(lo <= hit < hi)
    decreases hi
    ensures Descend(hit, hitOps, lo, hi) == Fogs(hi - lo)
  {
    if lo < hi {
      DescendMissed(hit, hitOps, lo, hi - 1);
    }
  }

  lemma AppendAssociates(a: seq<Op>, b: seq<Op>, c: seq<Op>)
    ensures a + (b + c) == (a + b) + c
  {
  }

  /** The hit and the nearer steps: the hit's own calls, then one fog
      setting pair for each of those steps. */
  lemma DescendUpToHit(hit: nat, hitOps: seq<Op>)
    ensures Descend(hit, hitOps, 0, hit + 1) == hitOps + Fogs(hit + 1)
  {
    var nearer := Descend(hit, hitOps, 0, hit);
    DescendMissed(hit, hitOps, 0, hit);
    assert Descend(hit, hitOps, 0, hit + 1) == (hitOps + Fog) + nearer;
    assert Fogs(hit + 1) == Fog + nearer;
    AppendAssociates(hitOps, Fog, nearer);
  }

  /** The calls a column makes for a ray of `n` steps, in full: the fog
      settings of every step beyond the hit, farthest first, then the hit's
      own calls, then the fog settings of the hit and of every nearer step.
      With no hit, only the fog settings, once per step. */
  lemma {:induction false} ColumnShape(hit: nat, hitOps: seq<Op>, n: nat)
    ensures hit < n ==> Descend(hit, hitOps, 0, n) == Fogs(n - 1 - hit) + hitOps + Fogs(hit + 1)
    ensures hit >= n ==> Descend(hit, hitOps, 0, n) == Fogs(n)
  {
    if hit < n {
      DescendSplit(hit, hitOps, 0, hit + 1, n);
      DescendMissed(hit, hitOps, hit + 1, n);
      DescendUpToHit(hit, hitOps);
      AppendAssociates(Fogs(n - 1 - hit), hitOps, Fogs(hit + 1));
    } else {
      DescendMissed(hit, hitOps, 0, n);
    }
  }

  /** `a / z` shrinks as a positive `z` grows, for positive `a`. */
  lemma QuotientShrinks(a: real, z1: real, z2: real)
    requires 0.0 < a && 0.0 < z1 < z2
    ensures a / z2 < a / z1
  {
    var q1 := a / z1;
    var q2 := a / z2;
    assert q1 * z1 == a && q2 * z2 == a;
    assert 0.0 < q2;
    MulStrict(q2, z1, z2);
    assert (q1 - q2) * z1 == a - q2 * z1;
  }

  class Camera {
    /** Viewport size in pixels. */
    const width: real
    const height: real
    /** Number of columns cast across the viewport. */
    const resolution: int
    /** Width in pixels of one column. */
    const spacing: real
    const focalLength: real
    /** How far a ray is walked. */
    const range: real
    /** Distance over which the wall shading reaches full darkness. */
    const lightRange: real
    const scale: real

    /** What the constructor establishes and the drawing relies on. */
    predicate Valid() {
      resolution > 0 && range == 14.0 && lightRange == 5.0
    }

    /** The camera over a viewport of half the window; `focalLength` 0 stands
        for an absent one and gives the default 0.8. */
    constructor (innerWidth: real, innerHeight: real, resolution: int, focalLength: real)
      requires resolution > 0
      ensures Valid()
      ensures width == innerWidth * 0.5 && height == innerHeight * 0.5
      ensures this.resolution == resolution && spacing == width / resolution as real
      ensures this.focalLength == if focalLength == 0.0 then 0.8 else focalLength
      ensures range == 14.0 && lightRange == 5.0
      ensures scale == (width + height) / 1200.0
    {
      width := innerWidth * 0.5;
      height := innerHeight * 0.5;
      this.resolution := resolution;
      spacing := innerWidth * 0.5 / resolution as real;
      this.focalLength := if focalLength == 0.0 then 0.8 else focalLength;
      range := 14.0;
      lightRange := 5.0;
      scale := (innerWidth * 0.5 + innerHeight * 0.5) / 1200.0;
    }

    /** `project(cellHeight, angle, distance)` with `cos` the cosine of the
        angle: the strip of a wall `distance` away along the ray. Its size is
        the viewport height over the perpendicular distance `z`, times the
        wall marker, and its bottom lies `height / (2 z)` below the horizon,
        so that a unit wall is centred on the horizon. */
    function Project(cellHeight: int, cos: real, distance: real): (w: Wall)
      requires distance * cos != 0.0
      ensures var z := distance * cos;
        && w.height * z == height * cellHeight as real
        && w.top + w.height == height / 2.0 + height / (2.0 * z)
        && (cellHeight == 1 ==> w.top + w.height / 2.0 == height / 2.0)
    {
      var z := distance * cos;
      var wallHeight := height * cellHeight as real / z;
      var bottom := height / 2.0 * (1.0 + 1.0 / z);
      Wall(bottom - wallHeight, wallHeight)
    }

    /** For a fixed angle in front of the camera and a wall marker above 0,
        a wall farther away is drawn strictly shorter. */
    lemma ProjectShrinks(cellHeight: int, cos: real, d1: real, d2: real)
      requires height > 0.0 && cellHeight > 0 && cos > 0.0 && 0.0 < d1 < d2
      ensures d1 * cos != 0.0 && d2 * cos != 0.0
      ensures Project(cellHeight, cos, d2).height < Project(cellHeight, cos, d1).height
    {
      MulStrict(cos, d1, d2);
      ProductPositive(cos, d1);
      ProductPositive(height, cellHeight as real);
      QuotientShrinks(height * cellHeight as real, d1 * cos, d2 * cos);
    }

    /** The calls `drawColumn` makes at the hit step: the texture column under
        `offset` scaled onto the projected strip at full opacity, then a black
        rectangle over it whose alpha grows with distance and shading. */
    function HitOps(column: int, step: RayStep, cos: real, textureWidth: int, textureHeight: int): (ops: seq<Op>)
      requires Valid() && step.Crossed? && 0.0 <= step.offset < 1.0 && step.distance * cos != 0.0
      ensures |ops| == 5 && ops[0] == SetAlpha(1.0) && ops[2] == SetFill(Black)
      ensures ops[1].DrawImage? && ops[4].FillRect?
      ensures var wall := Project(step.height, cos, step.distance);
        && ops[1].sw == 1 && ops[1].sh == textureHeight
        && ops[1].dy == ops[4].y == wall.top && ops[1].dh == ops[4].h == wall.height
        && ops[1].dx == ops[4].x && ops[1].dw == ops[4].w
      ensures textureWidth > 0 ==> 0 <= ops[1].sx < textureWidth
      ensures ops[1].sx as real <= textureWidth as real * step.offset < ops[1].sx as real + 1.0
      ensures ops[3].SetAlpha? && 0.0 <= ops[3].alpha
      ensures step.distance + step.shading as real > 0.0 ==>
        ops[3].alpha * lightRange == step.distance + step.shading as real
      ensures step.distance + step.shading as real <= 0.0 ==> ops[3].alpha == 0.0
    {
      var left := (column as real * spacing).Floor;
      var stripWidth := Ceil(spacing);
      var textureX := (textureWidth as real * step.offset).Floor;
      OffsetColumn(textureWidth, step.offset);
      var wall := Project(step.height, cos, step.distance);
      var shade := (step.distance + step.shading as real) / lightRange;
      [ SetAlpha(1.0),
        DrawImage(textureX, 0, 1, textureHeight, left, wall.top, stripWidth, wall.height),
        SetFill(Black),
        SetAlpha(if shade > 0.0 then shade else 0.0),
        FillRect(left, wall.top, stripWidth, wall.height) ]
    }

    /** `drawColumn(column, ray, angle, map)` with `cos` the cosine of the
        column's angle: finds the first step holding a wall, then visits the
        steps from last to first, drawing the hit and setting the fog after
        every step. Returns the hit index and the calls made. */
    method DrawColumn(column: int, ray: seq<RayStep>, cos: real, world: Map) returns (hit: nat, ops: seq<Op>)
      requires Valid() && IsRay(ray) && cos > 0.0
      ensures hit == FirstHit(ray)
      ensures hit <= |ray| && (forall i :: 0 <= i < hit ==> ray[i].height <= 0)
      ensures hit < |ray| ==> ray[hit].height > 0 && ray[hit].distance * cos != 0.0
      ensures ops == Descend(hit, if hit < |ray| then HitOps(column, ray[hit], cos, world.textureWidth, world.textureHeight) else [], 0, |ray|)
      ensures hit < |ray| ==>
        ops == Fogs(|ray| - 1 - hit) + HitOps(column, ray[hit], cos, world.textureWidth, world.textureHeight) + Fogs(hit + 1)
      ensures hit == |ray| ==> ops == Fogs(|ray|)
    {
      hit := FindHit(ray);
      HitDrawable(ray, cos);
      ghost var hitOps := if hit < |ray| then HitOps(column, ray[hit], cos, world.textureWidth, world.textureHeight) else [];
      ops := [];
      var s := |ray| - 1;
      while s >= 0
        invariant -1 <= s < |ray|
        invariant ops == Descend(hit, hitOps, s + 1, |ray|)
      {
        DescendLower(hit, hitOps, s, |ray|);
        if s == hit {
          AppendAssociates(ops, hitOps, Fog);
          ops := ops + HitOps(column, ray[s], cos, world.textureWidth, world.textureHeight);
        }
        ops := ops + Fog;
        s := s - 1;
      }
      ColumnShape(hit, hitOps, |ray|);
    }
  }

  /** `Math.floor(texture.width * offset)` picks a column of the texture. */
  lemma OffsetColumn(textureWidth: int, offset: real)
    requires 0.0 <= offset < 1.0
    ensures textureWidth > 0 ==> 0 <= (textureWidth as real * offset).Floor < textureWidth
  {
    if textureWidth > 0 {
      ProductMonotone(textureWidth as real, offset, 1.0);
      ProductMonotone(textureWidth as real, 0.0, offset);
    }
  }
}
