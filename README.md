# Grid raycaster: a Dafny model

This project models the geometric core of a small first-person raycasting
renderer written in JavaScript (`main.js`). It covers these parts:

- the world map, a `size` by `size` grid of wall markers with point lookup
  (`Map.get`, `Map.canGo`, `Map.randomize`);
- the boundary-crossing ray walk (`Map.cast` with its inner `ray`, `step`
  and `inspect`). From the viewer it visits every vertical or horizontal grid
  line the ray crosses. Each crossing is labelled with the cell just beyond
  the crossed line, a shading band, a texture offset and the distance travelled;
- the camera's per-column work (`Camera.project` and `Camera.drawColumn`).
  It finds the first step that holds a wall and projects it to a screen
  strip. It then lists the drawing-context calls the column makes, visiting
  the steps from farthest to nearest;
- the viewer's movement (`Player.walk`, `Player.rotate`), which slides along
  walls one axis at a time;
- the key-state table (`Input.onKey`).

The modules are:

- `Numeric` holds the real-number stand-ins for `Math.floor`, `Math.ceil`,
  JavaScript's `%` and `Math.sqrt`. The square root is a function parameter
  constrained by `SquareRoot`: it is non-negative and squares back to its
  argument.
- `World` holds the map: the grid value `Grid`, the `Map` class over a
  `uint8` array, and the ray walk over `real`.
- `View` holds the `Camera` class.
- `Motion` holds the `Player` class.
- `Controls` holds the `Input` class.

The sine and cosine of an angle are passed in as real numbers. For the
player they are passed as functions of the heading.

The ray walk is the recursive function `World.Ray`. It is bounded by a
`fuel` count of steps after the origin. Its contract, and the lemma
`World.RayIsTheWalk`, say what the result is when the fuel was not the
reason it stopped. In that case the walk stopped because the next crossing
lay beyond `range` (or there was none). Otherwise it stopped only because
the fuel ran out.

## Notes on main.js

Some behaviour of `main.js` is easy to misread. The model keeps it as written:

- A point off the grid reads as `-1` (main.js:86), so `canGo` treats it as
  passable (main.js:91). The player can walk off the map. The default start
  (15.3, -1.2) already lies off it.
- The ray walk does not stop at the grid's edge. It stops only when the next
  step lies beyond `range` (main.js:116).
- `inspect` reads the cell at the crossing point, shifted back by one whole
  unit on the crossed axis when travelling negatively on it (main.js:132-134).
  There is no half-cell nudge on the other axis.
- At a grid corner the cell read is not always the one the ray enters. The
  two candidate crossings tie, the Y crossing is taken (main.js:112), and
  the lookup is shifted on y only (main.js:132-134). Heading toward -x
  through a corner, the step therefore reads the column to the right of the
  corner. `World.CornerReadsRightColumn` shows a ray from (1.5, 0.5) toward
  (-1, 1) reporting the wall of cell (1, 1), which it only touches at its
  corner, while the cell it enters, (0, 1), is empty.
- After every step, `drawColumn` sets `fillStyle` and `globalAlpha` to white
  at 0.15 (main.js:214-215). It draws nothing with them, so the model emits
  those two settings per step and no overlay rectangle.

## Model

| member | source | states |
|---|---|---|
| `World.Lookup` | main.js:83-88 | the result is -1 exactly when the floored point is off the grid; otherwise the row-major index `floor(y)*size + floor(x)` lies in `[0, size*size)` and the result is that cell's marker |
| `World.Passable` | main.js:90-92 | passable iff the lookup is `<= 0`, i.e. iff the point is off the grid or its cell is empty |
| `Numeric.Ceil` | main.js:122 | `Math.ceil`: the result is the least integer not below its argument |
| `Numeric.Frac` | main.js:138 | `offset - Math.floor(offset)` lies in `[0, 1)` and differs from `offset` by an integer |
| `World.Shorter` | main.js:104-112 | `stepX.length2 < stepY.length2` with `noWall` infinitely long: a missing X crossing is never shorter, an X crossing is always shorter than a missing Y crossing, and two crossings compare by squared length |
| `World.Map.constructor` | main.js:77-81 | a fresh `size*size` array of zero markers; texture 1024 by 1024 |
| `World.Map.Get` | main.js:83-88 | `get` on the map's array: -1 exactly off the grid, else the array entry at the in-range row-major index |
| `World.Map.CanGo` | main.js:90-92 | `canGo`: true iff `get <= 0`; off-grid points and empty cells pass, only markers above 0 block |
| `World.Map.Randomize` | main.js:94-98 | every cell becomes 1 where its roll is below 0.3 and 0 otherwise |
| `World.Advance` | main.js:122 | the move brings `x` to an integer strictly past it in the direction of `run`, by at most one unit |
| `World.Step` | main.js:120-128 | `NoWall` exactly when `run == 0`; otherwise the landed coordinate is an integer within one unit in the sign of `run`, the slid one moves by the slope, the two are swapped into place when `inverted`, and `length2` is the positive sum of the squared moves |
| `World.Inspect` | main.js:131-139 | height is the marker of the cell just beyond the crossed line: the lookup point is the crossing, shifted back by 1 on the crossed axis only when travelling negatively on it, so the other axis's cell is the floor of that coordinate; shading is 0/2 for an x-crossing and 1/2 for a y-crossing by the sign of cos/sin; offset is the fractional part of the other coordinate, in `[0,1)`; distance is prior plus `sqrt(length2)` |
| `World.Next` | main.js:108-114 | no next step only when sin and cos are both 0; otherwise a crossing onto a grid line, strictly farther than its origin, with a valid shading and offset |
| `World.NextIsNearest` | main.js:111-114 | the step taken is no farther than either candidate crossing |
| `World.TieGoesToY` | main.js:111-114 | when both candidates have equal squared length the Y crossing is taken |
| `World.CornerReadsRightColumn` | main.js:108-139 | on a 3 by 3 map whose only wall is cell (1, 1), the ray from (1.5, 0.5) with sin 1 and cos -1 steps to the corner (1, 1) and reports height 1, while the cell it enters, (0, 1), is empty |
| `World.NextOnRay` | main.js:120-128 | each move from a step to the next is parallel to the direction `(cos, sin)` |
| `World.Ray` | main.js:108-118 | starts with the origin, each later element is the next step of the one before, none lies beyond `range`, and when not cut by fuel the next step would be beyond `range` or absent |
| `World.RayIsTheWalk` | main.js:108-118 | any sequence meeting those conditions is the ray: the walk is uniquely determined |
| `World.WalkOnRay` | main.js:108-128 | every point of a walk lies on the line through its first point with direction `(cos, sin)` |
| `World.DistancesIncrease` | main.js:116-135 | along a walk the distances strictly increase between any two elements |
| `World.CrossingMove` | main.js:120-128 | the crossing `step` finds is a positive multiple `t` of `(run, rise)` away from the start, and its `length2` is `t*t` times the direction's squared length |
| `World.NextMove` | main.js:108-135 | one round of the walk moves a positive multiple `t` of `(cos, sin)` and adds `t` times that direction's length to the distance |
| `World.WalkMove` | main.js:108-135 | every point of a walk is a non-negative multiple `t` of `(cos, sin)` from its first point, with its distance grown by `t` times the direction's length |
| `World.WalkDistance` | main.js:106-135 | along a walk starting at distance 0, each distance is non-negative and its square is the squared Euclidean distance from the first point |
| `World.DistanceIsEuclidean` | main.js:100-135 | every step of a cast carries as `distance` its Euclidean distance from the cast's starting point |
| `World.CastOn` | main.js:100-117 | the cast from `(px, py)` is a ray: origin at height 0 and distance 0, strictly increasing distances, every crossing on a grid line and on the ray's line, none beyond `range`, and unless cut by fuel the next crossing lies beyond `range` or does not exist |
| `World.Map.Cast` | main.js:100-117 | `cast` on the map's array is the cast on its grid, and so a ray starting at the given point |
| `Numeric.Remainder` | main.js:11 | JavaScript's `%` for a positive divisor: the remainder lies in `[0, b)` for a non-negative dividend and in `(-b, 0]` for a negative one, and differs from the dividend by a whole multiple of `b` |
| `View.FirstHit` | main.js:183-185 | the smallest index whose height is above 0, or the ray's length when there is none |
| `View.FindHit` | main.js:183-185 | the `while (++hit …)` search returns the first index holding a wall, or the ray's length |
| `View.HitIsCrossing` | main.js:106 | the origin (height 0) is never the hit; the hit is a crossing at positive distance |
| `View.StraightAtWall` | main.js:100-139 | viewer at (0.5, 0.5) looking along +x with range 10 and the only wall at cell (2, 0): the walk crosses x = 1 at distance 0.5, then hits x = 2, y = 0.5 at distance 1.5 with x-side shading and offset 0.5; the hit index is 2 |
| `View.ColumnShape` | main.js:187-216 | visiting the steps from last to first gives the fog settings of every step beyond the hit, then the hit's draw calls, then the fog settings of the hit and every nearer step; with no hit, only one fog setting pair per step |
| `View.Camera.constructor` | main.js:145-155 | a viewport of half the window, column spacing `width / resolution`, focal length defaulting to 0.8, range 14, light range 5 |
| `View.Camera.Project` | main.js:219-227 | with `z = distance*cos`: the strip's height times `z` is the viewport height times the wall marker, its bottom is `H/2 + H/(2z)`, and a unit wall is centred: `top + height/2 == H/2` |
| `View.Camera.ProjectShrinks` | main.js:219-227 | for fixed positive cos and a marker above 0, a farther wall is drawn strictly shorter |
| `View.OffsetColumn` | main.js:190 | `floor(texture.width * offset)` selects a column within the texture |
| `View.Camera.HitOps` | main.js:189-212 | the hit step draws, at full alpha, the texture column `floor(texture.width * offset)` (so `sx <= width*offset < sx + 1`) onto the projected strip, then a black rectangle over the same strip whose alpha is `(distance + shading) / lightRange` when that is positive and 0 otherwise |
| `View.Camera.DrawColumn` | main.js:178-217 | `hit` is the first index holding a wall (or the length); the calls made are the last-to-first visit of the steps, with the hit's calls only at the hit |
| `Motion.Slide` | main.js:14-23 | each axis moves by exactly its delta or not at all; x moves iff its destination is passable, y iff its destination from the already-moved x is; a passable start stays passable |
| `Motion.SlideAxesIndependent` | main.js:17-22 | the x move ignores the y delta, and the whole move equals the x move followed by the y move |
| `Motion.Player.constructor` | main.js:4-8 | the player stands at the given point and heading |
| `Motion.Player.Rotate` | main.js:10-12 | the heading becomes `(direction + angle + 2π) % 2π`, kept in `[0, 2π)` when it started there and the turn is at most one circle |
| `Motion.Player.Walk` | main.js:14-23 | the position becomes the sliding move by `distance` along the heading; the heading is unchanged; a passable position stays passable |
| `Controls.KeyUpdate` | main.js:57-61 | an unmapped code leaves the states unchanged; a mapped one sets its key's state to the value and leaves every other state as it was |
| `Controls.ReleaseUndoesPress` | main.js:57-61 | releasing a key right after pressing it restores the states, when it was not held before |
| `Controls.UnmappedEventsIgnored` | main.js:53-61 | any sequence of events for unmapped codes leaves the states unchanged |
| `Controls.Replay` | main.js:57-61 | applying a sequence of key events in order keeps every key the states started with |
| `Controls.ReplayLastEvent` | main.js:57-61 | after a sequence of events, a key's state is the value of the last event for one of its codes |
| `Controls.ReplayUntouched` | main.js:57-61 | a key that no event is for keeps its starting state |
| `Controls.Input.constructor` | main.js:34-51 | the eight-entry code table and all four keys released |
| `Controls.Input.OnKey` | main.js:57-64 | the states become the key update of the old states, and the state invariant (four keys, fixed table) is kept |

## Left out

- DOM plumbing is not modelled: `addEventListener` in the `Input` constructor and `preventDefault`/`stopPropagation` in `onKey` (main.js:53-54, 62-63). A key event arrives as its key code.
- Canvas details are not modelled: `clearRect`, `save`/`restore` in `render`/`wrapDraw` (main.js:157-166), the image object behind `drawImage`, and the pixels. `drawColumn` yields the list of calls it makes.
- `Camera.drawColumns` (main.js:168-176) is not modelled. It computes each column's angle with `Math.atan2` and casts one ray per column. `DrawColumn` takes the cosine of the column's angle instead.
- `Bitmap` image loading (main.js:67-74) is not modelled. The window size reaches the `Camera` constructor as parameters.
- `GameLoop`, `requestAnimationFrame`, `Player.update` and the top-level wiring (main.js:25-30, 230-262) are frame-loop glue and are not modelled.
- `Math.random()` in `randomize` becomes a parameter: one roll per cell.
- Floating point is not modelled. Numbers are exact reals, so IEEE-754 rounding, NaN and the exact values of `Math.sin`, `Math.cos` and `Math.sqrt` are not captured. The infinite `length2` of the shared `noWall` record is the `NoWall` case.
- In the degenerate case where sin and cos are both 0, the source inspects and mutates the shared `noWall` record. Its distance becomes infinite, so the ray stops. The model stops the walk (`Next` returns `None`) without that mutation.
- `inspect` fills in the fresh record that `step` returned. The model builds a new value instead, which is the same since no other reference to that record exists.
- World.Ray: at most `fuel` steps follow the origin. The source recurses until the range test stops it. The model does not prove that a finite fuel always suffices.
- World.Map.Cast: bounded by the same `fuel` as `World.Ray`.
- View.Camera.Project: requires a non-zero perpendicular distance `distance * cos`. The source would divide by zero and yield infinities. The hit step lies at positive distance and the column's angle is in front of the camera, so this does not arise from `DrawColumn`.
- View.Camera.constructor: requires `resolution > 0`. It models only `focalLength` 0 as the falsy value that selects 0.8 (an absent or NaN argument has no real counterpart).
- View.Camera.DrawColumn: requires a positive cosine of the column angle. This always holds for `atan2(x, focalLength)` with a positive focal length.
- Motion.Player.Rotate: takes 2π as the parameter `circle`, because π has no exact real value here.
