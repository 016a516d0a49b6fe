/** The viewer: its position and heading, moved by walking and turning
    (`Player` in main.js). */
module Motion {
  import opened Numeric
  import opened World

  /** A point of the map's plane. */
  datatype Position = Position(x: real, y: real)

  /** Where a move by `(dx, dy)` from `p` ends on grid `g`, sliding along
      walls: the x move is made only if its destination is passable, then
      the y move only if its destination, from the possibly moved x, is. */
  function Slide(g: Grid, p: Position, dx: real, dy: real): (q: Position)
    ensures q.x == p.x + dx || q.x == p.x
    ensures q.y == p.y + dy || q.y == p.y
    ensures q.x == p.x + dx <==> dx == 0.0 || Passable(g, p.x + dx, p.y)
    ensures q.y == p.y + dy <==> dy == 0.0 || Passable(g, q.x, p.y + dy)
    ensures Passable(g, p.x, p.y) ==> Passable(g, q.x, q.y)
  {
    var x := if Passable(g, p.x + dx, p.y) then p.x + dx else p.x;
    var y := if Passable(g, x, p.y + dy) then p.y + dy else p.y;
    Position(x, y)
  }

  /** The x move does not depend on the y move: a blocked y move still lets
      the x move through, and the other way round when x is settled first. */
  lemma SlideAxesIndependent(g: Grid, p: Position, dx: real, dy: real)
    ensures Slide(g, p, dx, dy).x == Slide(g, p, dx, 0.0).x
    ensures var q := Slide(g, p, dx, 0.0);
      Slide(g, p, dx, dy) == Slide(g, q, 0.0, dy)
  {
  }

  class Player {
    var x: real
    var y: real
    /** Heading in radians. */
    var direction: real

    constructor (x: real, y: real, direction: real)
      ensures this.x == x && this.y == y && this.direction == direction
    {
      this.x := x;
      this.y := y;
      this.direction := direction;
    }

    /** `rotate(angle)` with `circle` standing for 2π: turns by `angle`,
        keeping the heading within one turn. A heading in `[0, circle)` turned
        by at most one turn either way stays in `[0, circle)`. */
    method Rotate(angle: real, circle: real)
      requires circle > 0.0
      modifies this
      ensures x == old(x) && y == old(y)
      ensures direction == Remainder(old(direction) + angle + circle, circle)
      ensures 0.0 <= old(direction) < circle && -circle <= angle <= circle ==> 0.0 <= direction < circle
      ensures IsInteger((old(direction) + angle + circle - direction) / circle)
    {
      direction := Remainder(direction + angle + circle, circle);
    }

    /** `walk(distance, map)` with `sin` and `cos` standing for Math.sin and
        Math.cos: moves `distance` along the heading, sliding along walls.
        A viewer on a passable point stays on one. */
    method Walk(distance: real, world: Map, sin: real -> real, cos: real -> real)
      requires world.Valid()
      modifies this
      ensures direction == old(direction)
      ensures Position(x, y) == Slide(world.Cells(), Position(old(x), old(y)),
                                      cos(old(direction)) * distance, sin(old(direction)) * distance)
      ensures world.CanGo(old(x), old(y)) ==> world.CanGo(x, y)
    {
      var dx := cos(direction) * distance;
      var dy := sin(direction) * distance;
      if world.CanGo(x + dx, y) {
        x := x + dx;
      }
      if world.CanGo(x, y + dy) {
        y := y + dy;
      }
    }
  }
}
