# Block collision addon — verified model

The addon runs a scan once per game tick. For every player it builds the
player's body box (0.6 wide, 1.8 tall, standing on the feet position). It
enumerates the integer cells within radius 2 of the player and asks the
world which block is in each cell. A block of a watched type is then culled
by a distance check (at most 2.5 from the block's corner) and tested for box
overlap. A block's box is chosen from its type identifier by substring
matching:

- "fence", "pane"/"bars" and "wall" all give a narrow post, 0.25 wide and
  1.5 tall;
- "stairs" gives a partial override of the full-block box;
- anything else gives the full-block box, which has a small 0.0001 margin.

Each overlap calls the collision handler once, which sends the player a
message and plays a sound.

The project has six modules:

| module | file | contents |
|---|---|---|
| `Wrappers` | `wrappers.dfy` | the optional result of the world's block lookup |
| `Geometry` | `geometry.dfy` | points, cells, boxes, the closed-interval overlap test, the player box, the distance prefilter |
| `Strings` | `strings.dfy` | `Contains`, the model of `String.prototype.includes`, and its index-based meaning |
| `Shapes` | `shapes.dfy` | the shape classifier, the offset profiles, the block box, and the imperative `GetBlockBoundingBox` as written |
| `Neighbourhood` | `neighbourhood.dfy` | the reference enumeration `NearbyCells`, and the three nested real-stepping loops of `NearbyBlockLocations` proved equal to it |
| `Scan` | `scan.dfy` | the type filter, the events of one tick as a function, and the scan loops (`ScanPlayer`, `Tick`) proved equal to it |

The main results:

- `TickEventsMember` characterises the events of a tick without mentioning
  the enumeration. An event is raised for a player and a cell exactly when
  all of these hold:
  - a block of that type sits there;
  - the type passes the filter;
  - the corner is within 2.5 of the player;
  - the boxes touch.

  This holds because `ContactIsNearby` proves that the radius-2 cube never
  misses a block whose box touches the player.
- `TickEventsOrdered` and `AtMostOncePerPair` show the handler runs at most
  once per player and block per tick.

Points where the code and its design description differ, and where this
model follows the code:

- The code has one default profile (`blockOffset`), here `FullBlock`. There
  is no separate "default" profile.
- The code centres a block at `location + (0.5, 0, 0.5)` and adds
  ±0.5001. A diamond block at cell (10, 4, 10) therefore spans
  x ∈ [9.9999, 11.0001] and y ∈ [4.0001, 5]. It does not span
  [9.5, 10.5] × [4, 5].
  - `BlockBox` states the code's numbers.
  - `StandingOnBlockFiresOnce` proves that the standing-on-a-block example
    still fires exactly once.
- The enumerator steps real coordinates and floors each step. With exact
  arithmetic this always yields exactly (2r + 1)³ cells (`NearbyCellsCount`),
  because floor(c − r + i) = floor(c) − r + i.

## Model

| member | source | states |
|---|---|---|
| Geometry.IntersectsSymmetric | scripts/index.js:122-131 | the overlap test does not depend on argument order |
| Geometry.IntersectsReflexive | scripts/index.js:122-131 | a well-formed box overlaps itself |
| Geometry.TouchingFacesIntersect | scripts/index.js:122-131 | boxes that only share a face on y (x and z overlapping) count as overlapping: the comparisons are closed |
| Geometry.IntersectsIffCommonPoint | scripts/index.js:122-131 | for well-formed boxes the six comparisons hold exactly when some point lies in both boxes |
| Geometry.PlayerBox | scripts/index.js:66-72 | the player box is well formed, contains the feet position, is 0.6 wide on x and z centred on the position, starts at the feet and is 1.8 tall |
| Geometry.InCheckRangeIffDistance | scripts/index.js:147-152 | for the non-negative root d of the squared distance, the squared-distance prefilter passes exactly when d <= 2.5, i.e. it agrees with `calculateDistance(...) <= checkRadius` |
| Geometry.CheckRangeBoundaryIncluded | scripts/index.js:53 | a block at distance exactly 2.5 passes the prefilter and one at a larger distance does not |
| Strings.ContainsIffOccurs | scripts/index.js:88 | `Contains(s, sub)` holds exactly when sub occurs in s at some index |
| Strings.EmptyContainsOnlyEmpty | scripts/index.js:88 | the empty identifier contains only the empty string |
| Strings.ContainsInfix | scripts/index.js:88 | an identifier contains every string that occurs inside it |
| Shapes.Classify | scripts/index.js:88-113 | the shape is chosen by the first matching substring, as five if-and-only-if clauses: fence; pane or bars; wall; stairs; otherwise full block |
| Shapes.BlockBox | scripts/index.js:75-119 | the block box is well formed and, in the cell's corner coordinates, is the full block widened by 0.0001 (top at y + 1, bottom at y + 0.0001), the stairs box reaching y and x + 1.5, or the narrow post x + 0.3749 .. x + 0.6251 up to y + 1.5 |
| Shapes.StairsPartialOverride | scripts/index.js:109-113 | stairs keep minX, minZ and maxZ of the full-block box and override only minY (to the floor), maxX (centre + 1) and maxY (floor + 1) |
| Shapes.NarrowProfilesAgree | scripts/index.js:20-31 | fence, pane/bars and wall blocks in the same cell get the same box |
| Shapes.FenceAnywhere | scripts/index.js:88 | "fence" anywhere in an identifier selects the fence profile, whatever else the identifier contains |
| Shapes.UnrecognisedGetsFullBlock | scripts/index.js:81-86 | an identifier without any recognised substring keeps the initial full-block bounds |
| Shapes.FullBlockNeighbours | scripts/index.js:16-19 | full blocks in adjacent cells overlap through the 0.0001 margin; two cells apart they do not |
| Shapes.GetBlockBoundingBox | scripts/index.js:75-119 | the six-variable, branch-by-branch reassignment returns exactly `BlockBox` |
| Neighbourhood.NearbyCellsCount | scripts/index.js:134-144 | the enumeration has (2r + 1)³ cells |
| Neighbourhood.NearbyCellsMembers | scripts/index.js:134-144 | a cell is enumerated exactly when it lies within r of the floored position on every axis |
| Neighbourhood.NearbyCellsOrdered | scripts/index.js:136-139 | cells come in x-then-y-then-z order, strictly increasing, so none appears twice |
| Neighbourhood.RadiusTwoHas125Cells | scripts/index.js:43 | at the scan's radius 2 there are 125 cells |
| Neighbourhood.FloorShift | scripts/index.js:139 | flooring a coordinate stepped by a whole number shifts the floor by that number |
| Neighbourhood.NearbyBlockLocations | scripts/index.js:134-144 | the three nested loops over real coordinates, pushing floored cells, produce exactly `NearbyCells` |
| Neighbourhood.ConcatMember | scripts/index.js:136-142 | a cell is in the nested-loop output exactly when one of the inner runs holds it |
| Neighbourhood.CubeMember | scripts/index.js:136-142 | the cube of cells holds exactly the cells in its index box |
| Neighbourhood.CubeIncreasing | scripts/index.js:136-142 | the cube of cells is in strictly increasing x-y-z order |
| Scan.ContactIsNearby | scripts/index.js:43 | every block whose box touches the player box, of any shape, lies in the radius-2 neighbourhood, so the fixed radius misses no contact |
| Scan.CellEventsMember | scripts/index.js:44-61 | an event is raised for a player over a list of cells exactly when its cell is listed, the world holds a block of its type there and the three checks pass |
| Scan.TickEventsMember | scripts/index.js:39-63 | an event is raised in a tick exactly when its player exists, the world holds a block of its type at its cell in that player's dimension, the type passes the filter, the corner is within 2.5 and the boxes touch |
| Scan.TickEventsOrdered | scripts/index.js:40-44 | events come player by player and, within a player, in enumeration order |
| Scan.AtMostOncePerPair | scripts/index.js:39-63 | within one tick no player and block pair is reported twice |
| Scan.EventsPassFilter | scripts/index.js:47-50 | every event's type passes the type filter |
| Scan.EmptyListNeverFires | scripts/index.js:49 | with an empty target list no event is raised |
| Scan.ConfiguredTargets | scripts/index.js:4 | the configured filter passes exactly "minecraft:diamond_block" and "minecraft:iron_block" |
| Scan.StandingOnBlockFiresOnce | scripts/index.js:39-63 | a player at (10, 5, 10) over a single watched full block at (10, 4, 10) gets exactly one event in the tick |
| Scan.ScanPlayer | scripts/index.js:41-61 | one player's pass (player box, enumeration, lookup, filter, distance, overlap) produces exactly that player's events |
| Scan.Tick | scripts/index.js:39-63 | the interval callback's body produces exactly `TickEvents`, the events characterised by `TickEventsMember` |

## Left out

- `world.getPlayers()` and `player.dimension.getBlock(location)` are host calls. They are parameters here: a sequence of players (position and dimension), and a total lookup function returning `None` where the host returns `undefined`. The block's `location` is taken to be the queried cell.
- `handlePlayerBlockCollision` (`player.sendMessage` and `player.playSound`) is host I/O. Each call becomes one `Event` record `(player index, cell, type)`.
- `system.runInterval` and cross-tick behaviour are not modelled: the model covers a single tick, which keeps no state, so an overlap that persists over N ticks is reported again on each of them.
- Numbers are exact reals, not IEEE doubles. Rounding in the offset arithmetic and in the real-stepping loops is not modelled.
- `Math.sqrt` is not available. `calculateDistance` and the `<= checkRadius` comparison are modelled together as a squared-distance comparison (`InCheckRange`). `InCheckRangeIffDistance` proves it equivalent to comparing the square root.
- The commented-out wildcard configuration is not reproduced as written: it reads `excludeBlockTypes`, which would then be undefined and throw. `Wildcard(excludes)` models the evidently intended behaviour, with the exclusion list given.
- The `Array.isArray` test is not modelled. The filter is a datatype. A string target other than `"*"`, which the code lets nothing through, corresponds to `Listed([])`.
- `NearbyBlockLocations` takes an integer radius. The call site passes 2, and a negative radius yields no cells, as the loops do.
- `Shapes.Classify` is not evaluated on the two configured literal identifiers. Instead, `StandingOnBlockFiresOnce` requires a watched type classified as a full block.
