# gl_snake core in Dafny

This project models the engine and game objects of `gl_snake`, a grid snake game written in Rust:

- **The entity registry of `App`** (module `App`, class `App.App`). Entities live in a map under handles drawn from a counter. There is one handle list per capability: ticked, given input, collision-checked. Each frame ticks every updateable in list order. If any of them called `game_over`, the game restarts from scratch. Otherwise the all-pairs collision sweep runs: for list positions i < j, entity i checks itself against entity j, then j against i. Keyboard events fan out to every input listener in list order.
- **The sweep's visiting order** (module `Sweep`), described as the sequence of couples it visits.
- **The entity kinds** (module `AppOwnedData`) and their `as_*` / `from_*` accessors.
- **The board** (module `Board`): a table of cell centres built from the screen and cell sizes, and the lookup from a position to the centre of its cell.
- **Axis-aligned boxes** (module `Collider`) and their overlap test.
- **The snake** of `src/objects/snek.rs` (module `Snek`): head motion clamped to the unit square, turns buffered from the keyboard and committed on the next tick, and the body as a queue of turning points that age and are dropped past `length`.
- **The earlier snake** of `src/object.rs` (module `Object`).
- **The food** of `src/objects/food.rs` (module `Food`): a square hitbox that moves to a new cell after the player touches it.

How the Rust code is modelled:

- `f32` is `real`.
- The `as usize` cast of a float is floor, saturating at 0 (`Board.CellIndex`).
- `u16` is a `nat` below 65536.
- Random draws, frame times and what each entity does in its callbacks are parameters of the operations that use them.
- The registry is generic in the entity type `E`. The entity callbacks `on_setup`, `on_tick`, `on_input` and `check_collision` are function parameters, because they are the entities' code, not the registry's.
- Loops in the source become methods with loop invariants. Each such method is proved equal to a function that specifies it (`Apply`, `ApplyChecks` over `PairLog`, `Advanced`, `Pruned`, `Board.RowsLaid`). The properties are then proved about those functions.

Behaviours these sources do not have, and which the model therefore does not have either:

- Held-key auto-repeat is not filtered. A repeat arrives as a pressed transition and is handled like a first press.
- A buffered turn is committed on the next tick; nothing waits for the head to reach a grid cell.
- The snake has no edge-dwell timer, no growth, no self-collision and no collider.

## Model

| member | source | states |
|---|---|---|
| AppOwnedData.AsUpdateable | src/app/app_owned_data.rs:12-18 | Some exactly for the Updateable and UpdateableInputListener variants, holding the stored entity |
| AppOwnedData.AsInputListener | src/app/app_owned_data.rs:19-25 | Some exactly for the InputListener and UpdateableInputListener variants, holding the stored entity |
| AppOwnedData.FromUpdateable | src/app/app_owned_data.rs:27-29 | the wrapped entity is ticked and never given input |
| AppOwnedData.FromInputListener | src/app/app_owned_data.rs:30-32 | the wrapped entity is given input and never ticked |
| AppOwnedData.FromUpdtInput | src/app/app_owned_data.rs:33-35 | the wrapped entity is both ticked and given input |
| AppOwnedData.EveryVariantHasCapability | src/app/app_owned_data.rs:5-35 | every variant has at least one of the two capabilities |
| AppOwnedData.CapabilitiesFixed | src/app/app_owned_data.rs:5-35 | replacing the held entity keeps both capabilities |
| Collider.Intersects | src/app/collider.rs:26-29 | true exactly when the boxes' closed x-extents reach each other from both sides and so do their y-extents |
| Collider.NewAabb | src/app/collider.rs:22-24 | the corners are stored exactly as given, unvalidated |
| Collider.IntersectsSymmetric | src/app/collider.rs:26-29 | the overlap test gives the same answer either way round |
| Collider.IntersectsIffIntervalsOverlap | src/app/collider.rs:26-29 | for ordered boxes: true iff the closed x-intervals overlap and the closed y-intervals overlap |
| Collider.IntersectsIffCommonPoint | src/app/collider.rs:26-29 | for ordered boxes: true iff some point lies in both boxes |
| Collider.TouchingIntersects | src/app/collider.rs:26-29 | contact alone is enough: ordered boxes where one's right edge is the other's left edge (or top on bottom), with overlapping extents on the other axis, intersect |
| Collider.IntersectsSelf | src/app/collider.rs:26-29 | a box intersects itself exactly when its corners are ordered |
| Board.NewBoard | src/app/board.rs:15-39 | the board has w/g columns and h/g rows, each entry the centre of its cell; it is rectangular; it is the largest whole number of cells that fits the screen (less than one cell left over on each axis) |
| Board.LayRows | src/app/board.rs:23-32 | the outer loop yields `ny` rows, each with its row centre and `nx` column centres |
| Board.RowMidpts | src/app/board.rs:26-30 | the inner loop yields the centres of `n` consecutive cells |
| Board.RowsLaidPush | src/app/board.rs:31 | appending the next row keeps the table laid out |
| Board.LaidRectangular | src/app/board.rs:23-32 | a laid-out table has equally long rows |
| Board.FitsScreen | src/app/board.rs:20-21 | w/g whole cells fit in w and leave less than one cell over |
| Board.CellIndex | src/app/board.rs:42-43 | the float-to-usize cast: a non-negative v lies in cell k (k·g ≤ v < (k+1)·g); a negative v gives 0 |
| Board.CurrentMidpts | src/app/board.rs:41-50 | whatever the lookup returns is an entry of the table: the column centre and row centre of some cell |
| Board.CurrentMidptsCell | src/app/board.rs:41-50 | the lookup succeeds exactly when the cell is inside the table, and then returns that cell's centre with x from the column and y from the row |
| Board.CentreNear | src/app/board.rs:41-50 | on each axis, the centre of the containing cell is at most half a cell away |
| Board.CurrentMidptsNear | src/app/board.rs:41-50 | a successful lookup moves each coordinate by at most half a cell |
| Board.CellOfCentre | src/app/board.rs:25-28 | a cell centre lies in its own cell |
| Board.CentreInside | src/app/board.rs:25-37 | the centre of cell k of n lies strictly inside the n cells |
| Board.CurrentMidptsIdempotent | src/app/board.rs:41-50 | looking up a returned centre gives the same centre back |
| Board.CurrentMidptsSaturates | src/app/board.rs:42-43 | every negative coordinate is sent to cell 0 by the saturating cast |
| Sweep.AscendingDistinct | src/app.rs:94-109 | handle lists, ascending as the counter makes them, have no repeats |
| Sweep.RowSnoc | src/app.rs:146 | each inner-loop step adds the couple (handle at i, handle at j) to row i |
| Sweep.RowsSnoc | src/app.rs:145 | each outer-loop step appends row i after rows 0 .. i-1 |
| Sweep.RowsLength | src/app.rs:145-146 | rows 0 .. i-1 of an n-list hold i(2n−i−1)/2 couples |
| Sweep.PairLogLength | src/app.rs:145-180 | the sweep over n colliders visits n(n−1)/2 couples, one per pair of list positions |
| Sweep.RowWitness | src/app.rs:146 | every couple of row i pairs position i with a later position |
| Sweep.RowContains | src/app.rs:146 | every later position occurs as a partner in row i |
| Sweep.RowsIn | src/app.rs:145 | membership in the concatenated rows is membership in one of the rows |
| Sweep.RowsWitness | src/app.rs:145-146 | every visited couple pairs an earlier list position with a later one |
| Sweep.RowsContains | src/app.rs:145-146 | every pair of positions a < b with a in an already-swept row is visited |
| Sweep.PairLogMembers | src/app.rs:145-180 | on an ascending list, (a, b) is visited iff both handles are listed and a < b: every pair, smaller handle first |
| Sweep.DistinctIsNoRepeats | src/app.rs:145-180 | the position-by-position form of "no repeats" that the sweep's loops use is the plain one |
| Sweep.NoRepeatsAppend | src/app.rs:145-146 | two sequences without repeats, sharing no element, concatenate to one without repeats |
| Sweep.RowNoRepeats | src/app.rs:146 | no row visits a couple twice |
| Sweep.EarlierRowsDisjoint | src/app.rs:145-146 | no couple of the earlier rows appears in row i |
| Sweep.RowsNoRepeats | src/app.rs:145-146 | rows 0 .. i-1 visit no couple twice |
| Sweep.RowsNoRepeatsStep | src/app.rs:145-146 | one more row keeps the visited couples distinct |
| Sweep.PairLogNoRepeats | src/app.rs:145-180 | no couple is visited twice, so each pair is visited exactly once |
| App.Updated | src/app.rs:134-140 | a callback replaces only the held entity: the capabilities stay the same |
| App.Apply | src/app.rs:134-141 | passing the listed entities through their callback keeps the key set and each entity's capabilities |
| App.ApplyExtend | src/app.rs:134-141 | one more unlisted handle passes through its callback on top of the earlier ones |
| App.RegistryReshaped | src/app.rs:134-141 | since callbacks never change capabilities, every handle list stays exactly right |
| App.RegistryPush | src/app.rs:94-109 | registering under the fresh counter value keeps the registry invariant |
| App.ListedPush | src/app.rs:97-105 | appending the new handle where its capability says keeps a list ascending and exact |
| App.Tag | src/app.rs:97-105 | what `take` appends to a capability's list: the handle iff the entity has that capability |
| App.Ids | src/app.rs:94-109 | the lists built by taking entities in order name only positions of the initial entities |
| App.IdsExact | src/app.rs:94-109 | such a list is ascending and holds exactly the positions of the entities with that capability |
| App.Registered | src/app.rs:107 | after taking entities in order, handle k names the k-th one |
| App.PrefixSteps | src/app.rs:94-109 | taking the next entity extends the map and each list by that entity alone |
| App.CheckOne | src/app.rs:147-162 | one check changes only the receiver and keeps the key set |
| App.CheckBoth | src/app.rs:147-178 | a couple's two checks, a against b then b against a, keep the key set |
| App.ApplyChecks | src/app.rs:145-180 | applying a log of couples keeps the key set |
| App.ApplyChecksReshaped | src/app.rs:145-180 | the sweep changes entities only through their own checks, so capabilities survive it |
| App.CheckOneReshaped | src/app.rs:154-161 | one check changes the receiver only through its own callback |
| App.ReshapedTrans | src/app.rs:145-180 | changes made only through callbacks compose |
| App.ApplyChecksAppend | src/app.rs:145-180 | applying two logs one after the other is applying their concatenation |
| App.RegistryAfterChecks | src/app.rs:145-180 | the registry invariant holds after the sweep |
| App.ApplyChecksSnoc | src/app.rs:146-178 | one more couple applies its two checks on the state the earlier ones left |
| App.ApplyChecksRows | src/app.rs:145-146 | sweeping row i after rows 0 .. i-1 is sweeping rows 0 .. i |
| App.CheckAgainst | src/app.rs:147-162 | taking b out, checking a against it and putting b back equals one check of a against b |
| App.SweepRow | src/app.rs:146-179 | the inner loop applies exactly the couples of row i, in order |
| App.SweepAll | src/app.rs:145-180 | the nested loops apply exactly the couples of `PairLog`, in order |
| App.NotEarlier | src/app.rs:134 | in a list without repeats, no handle occurs before its own position |
| App.TickAll | src/app.rs:132-141 | every listed entity is ticked once, in list order, even after one signalled; the flag is true iff some entity called `game_over` |
| App.InputAll | src/app.rs:198-205 | every listed entity receives the event once, in list order |
| App.App.constructor | src/app.rs:36-60 | the list of entities `on_app_init` registers is kept; the board is built for the screen, those entities are registered under 0 .. n−1 with exact lists, every updateable is set up, and the invariant holds |
| App.App.Clear | src/app.rs:62-70 | no lists, no entities, and the counter is back at 0 |
| App.App.Take | src/app.rs:94-109 | the entity is stored under the old counter (a fresh handle), each list gains that handle iff the entity has its capability, the counter moves on, and the invariant is kept |
| App.App.Populate | src/app.rs:56 | taking the entities in order gives handles 0 .. n−1 and the lists of their capabilities |
| App.App.AfterOnAppInit | src/app.rs:72-81 | every updateable is set up once, in list order, with its handle and the board; the invariant is kept |
| App.App.OnGameOver | src/app.rs:83-91 | the registry is rebuilt from scratch from the kept `on_app_init` list, in the same state `Restarted` the constructor establishes |
| App.App.UpdatePass | src/app.rs:132-141 | every updateable is ticked once in list order; the result is true iff some entity called `game_over`; the invariant is kept |
| App.App.CollisionSweep | src/app.rs:145-180 | the entity map becomes the checks of every couple of `PairLog`, applied in order |
| App.App.Render | src/app.rs:111-181 | after a game-over signal the game is restarted from the kept `on_app_init` list; otherwise the lists, the board and the counter are unchanged and the map is the ticks followed by the full sweep |
| App.App.WindowEvent | src/app.rs:190-209 | a keyboard event reaches every input listener once, in list order; any other event changes nothing |
| Snek.Inverse | src/objects/snek.rs:23-30 | the opposite direction: different, on the same axis |
| Snek.InverseInvolution | src/objects/snek.rs:23-30 | inverting twice gives the direction back |
| Snek.Clamp | src/objects/snek.rs:76 | the result lies in [0, 1]; inside values are unchanged, values below go to 0 and values above go to 1 |
| Snek.Moved | src/objects/snek.rs:73-90 | only the axis of the heading changes, and it stays in [0, 1] |
| Snek.MovedToward | src/objects/snek.rs:69-93 | from inside the square, the head moves in its heading by at most the distance and stays inside |
| Snek.MovedExact | src/objects/snek.rs:69-93 | a move whose moved axis stays inside [0, 1] covers the full distance along that axis and leaves the other unchanged |
| Snek.Advanced | src/objects/snek.rs:96-98 | advancing keeps the number of points |
| Snek.AdvancedAt | src/objects/snek.rs:96-98 | each point gains exactly the distance; nothing else changes |
| Snek.Pruned | src/objects/snek.rs:100-105 | pruning keeps a suffix, and its first point is within `length` |
| Snek.PrunedDropsOnlyStale | src/objects/snek.rs:100-105 | only points further than `length` are dropped |
| Snek.AdvancedKeepsOrder | src/objects/snek.rs:96-98 | advancing keeps the distances non-increasing from oldest to newest, and non-negative |
| Snek.PrunedBounded | src/objects/snek.rs:100-105 | after pruning, every distance lies in [0, length] and the order is kept |
| Snek.TrailAdvancePrune | src/objects/snek.rs:94-106 | aging the body by a non-negative distance keeps the body invariant |
| Snek.TrailPush | src/objects/snek.rs:138-142 | a new turning point at the head keeps the body invariant |
| Snek.Requested | src/objects/snek.rs:156-199 | a direction is requested only by a pressed arrow or WASD key of a keyboard event |
| Snek.KeyMap | src/objects/snek.rs:165-198 | a pressed W or ArrowUp requests Up, A or ArrowLeft Left, D or ArrowRight Right, S or ArrowDown Down, and every other key nothing, each as an if-and-only-if |
| Snek.NextCandidate | src/objects/snek.rs:156-199 | a pending turn is kept; into an empty buffer, a requested direction that does not reverse the heading becomes the pending turn, and nothing else (in particular never the reverse) enters |
| Snek.GetOrInsert | src/objects/snek.rs:170 | the result is always set: the pending value if there is one, else the given direction |
| Snek.FirstPressWins | src/objects/snek.rs:170 | once a turn is pending, later events leave it |
| Snek.NoReversal | src/objects/snek.rs:165-197 | a turn accepted into an empty buffer is the key pressed, and never the reverse of the heading |
| Snek.IgnoredEvents | src/objects/snek.rs:156-201 | released keys, other keys and non-keyboard events leave the pending turn alone |
| Snek.AdvanceAll | src/objects/snek.rs:96-98 | the loop yields exactly the advanced points |
| Snek.PopStale | src/objects/snek.rs:100-105 | the pop loop yields exactly the pruned points |
| Snek.Snek.constructor | src/objects/snek.rs:57-67 | the head starts at (0.5, 0.5) heading Left, with no body, no pending turn and length 0.4; the invariant holds |
| Snek.Snek.ProcessMove | src/objects/snek.rs:69-93 | the head moves along the pending turn, else along the heading, and stays in the unit square |
| Snek.Snek.ProcessDirKeypoints | src/objects/snek.rs:94-106 | the body is aged and pruned, and the body invariant is kept |
| Snek.Snek.GetKeypoints | src/objects/snek.rs:107-116 | the stored points oldest first, then the head point at distance 0; this also satisfies the body invariant |
| Snek.Snek.OnTick | src/objects/snek.rs:125-148 | move, age and prune the body, then commit a pending turn; the turning point records the direction left, at the new head; the invariant is kept |
| Snek.Snek.CommitTurn | src/objects/snek.rs:136-144 | a pending turn becomes the heading and is recorded at the head; the buffer empties; the body invariant is kept |
| Snek.Snek.OnInput | src/objects/snek.rs:151-203 | the pending turn becomes the result of `NextCandidate`: pressed arrow or WASD keys only, no reversal, first press kept |
| Object.AdvancedChanges | src/object.rs:85-87 | advancing keeps the number of changes |
| Object.AdvancedChangesAt | src/object.rs:85-87 | each change gains exactly the distance; nothing else changes |
| Object.PrunedChanges | src/object.rs:89-94 | pruning keeps a suffix, and its first change is within `length` |
| Object.PrunedChangesDropsOnlyStale | src/object.rs:89-94 | only changes further than `length` are dropped |
| Object.AdvanceChanges | src/object.rs:85-87 | the loop yields exactly the advanced changes |
| Object.PopStaleChanges | src/object.rs:89-94 | the pop loop yields exactly the pruned changes |
| Object.Snek.constructor | src/object.rs:46-56 | starts at (0.5, 0.5) heading Left, with no changes, no pending turn and length 0.1 |
| Object.Snek.ProcessMove | src/object.rs:58-83 | the head moves along the pending turn, else along the heading, clamped to [0, 1] |
| Object.Snek.ProcessDirKeypoints | src/object.rs:84-95 | the changes are aged and pruned |
| Object.Snek.OnTick | src/object.rs:103-126 | move, age and prune, then commit a pending turn; the change records the new direction, at the new head |
| Object.Snek.OnInput | src/object.rs:129-181 | the same input rules as the later snake |
| Food.CellCentreIsFixed | src/objects/food.rs:26-35 | the corrected spawn point is a cell centre: the lookup returns it unchanged |
| Food.SpawnPosition | src/objects/food.rs:26-35 | the spawn point as written is the corrected cell centre with its two coordinates exchanged |
| Food.SpawnTransposed | src/objects/food.rs:26-35 | the spawn point as written is the centre of cell (row, col) with its coordinates exchanged |
| Food.SpawnOnSquareBoard | src/objects/food.rs:26-35 | on a square table, the spawn point as written is still a cell centre |
| Food.SpawnOffBoard | src/objects/food.rs:28-33 | on a 3-by-2 table, the draw (row 0, column 2) puts the food below the bottom row, where the lookup finds no cell |
| Food.CellCentreOnBoard | src/objects/food.rs:26-35 | the corrected spawn lies strictly inside the board on any laid table |
| Food.Hitbox | src/objects/food.rs:81-87 | a square of side 2·radius around the position; ordered iff radius ≥ 0, and then it contains the position |
| Food.ScanBoxes | src/objects/food.rs:71-73 | true iff some box of the other entity intersects the food's box |
| Food.CommonPointIsHit | src/objects/food.rs:64-77 | a point shared by the food's square and a player box means the hit is seen |
| Food.Food.constructor | src/objects/food.rs:14-25 | radius 0, at the origin, flagged so that the first tick places it |
| Food.Food.GetNewPos | src/objects/food.rs:26-35 | the food moves to the spawn point as written: x from the row centre, y from the column centre (see Findings) |
| Food.Food.OnSetup | src/objects/food.rs:39-47 | the radius is half a cell and the food moves to the spawn point as written |
| Food.Food.OnTick | src/objects/food.rs:51-60 | a flagged food moves to the spawn point as written and the flag clears; an unflagged food stays put |
| Food.Food.Layer | src/objects/food.rs:78-80 | food is always on the Food layer |
| Food.Food.Boxes | src/objects/food.rs:81-87 | exactly one box, the square of half-width radius around the position |
| Food.Food.CheckCollision | src/objects/food.rs:64-77 | the flag is raised iff it was already raised or the other entity is a Player with a box intersecting the food's; the flag is never cleared here |

## Left out

- Rendering and everything else that touches GL: shaders, meshes and the draw calls inside `on_tick` and `on_setup`. The snake's `on_setup` only configures its shader, so it has no model.
- Timing: the system clock, the frame delta, elapsed time and the FPS sampling of `render`. Delta and elapsed time are parameters. The food's shader uses time through `sin`, so its `OnTick` takes no time.
- The random draws of `get_new_pos` are the `row` and `col` parameters.
- `f32` rounding is not modelled; arithmetic is exact on `real`.
- The screen size constants are constructor parameters of `App.App`.
- `as_collider` / `as_ref_collider` are not defined in `src/app/app_owned_data.rs`. Whether an entity is collision-capable is a flag fixed at registration (`App.Owned.collider`), like the other capabilities.
- The snake and food sources implement different revisions of the entity interfaces, for example the `on_tick` signatures and the `Setupable` interface. Each entity is modelled on its own signature, and the registry takes the callbacks as functions.
- `on_app_init` is the list of entities it registers, in order. `App.App` keeps it in the constant `onAppInit`, set by the constructor and used again at every restart.
- The second `after_on_app_init` call made by the bootstrapper, `src/app/app_bootstraper.rs`, is not part of this model.
- `usize` overflow of the handle counter is not modelled; the counter is a `nat`.
- The `expect` panics of the registry loops cannot happen. Preconditions and the registry invariant `App.App.Valid` exclude them.
- App.TickAll, App.InputAll, App.SweepAll: update a local copy of the entity map that the class method then stores, rather than updating the map in place. Aliasing between entities is not modelled, because entities are values.
- App.App.CollisionSweep: requires the collider list to be repeat-free and fully registered, rather than the registry invariant. `Render` establishes both from `Valid`.
- Food.Food.GetNewPos: requires `ValidPick`, which excludes an empty table. There the source panics, in `random_range(0..0)` and `midpoints[0]`, which happens whenever the screen is smaller than one cell.
- Food.Food.OnSetup: requires `ValidPick` for the same reason; the panic on an empty table is not modelled.
- Food.Food.OnTick: requires `ValidPick` when the food is flagged; the panic on an empty table is not modelled.
- Object.Snek.ProcessMove: the fall-through arm that keeps the position is unreachable for the four directions, so it is not modelled.
- Object.Snek.ProcessMove: has no `InUnitSquare` clause of its own; `Object.Snek.OnTick` proves the head stays in the square.
- The body invariant `Snek.Trail` is proved for the later snake only. The earlier snake's changes satisfy the same argument, but it is not restated for them.

## Findings

| source | as written | input that shows it | evidently intended | confidence | as-written member | corrected member |
|---|---|---|---|---|---|---|
| src/objects/food.rs:28-33 | the column centre from the table row becomes y and the row centre becomes x, so the spawn point is the centre of cell (row, col) transposed | screen 75×50 with 25-unit cells (3 columns, 2 rows), draws row 0, column 2: the food is placed at (12.5, 62.5), below the 50-high board, and `current_midpts` finds no cell there | x from the column and y from the row, as `current_midpts` reads the table, so the food lands on a board cell | not executed | Food.SpawnOffBoard | Food.CellCentreIsFixed |
