# Dungeon floor generator — a Dafny model

This project models the level generator of an in-browser dungeon crawler,
`generateLevel` in `src/common/Level.js`, and proves properties of it.

Each floor of the dungeon is a fixed 4x4 grid of sixteen blocks. The blocks
are numbered row-major, from 0 at the top left to 15 at the bottom right.
Every block carries its list of orthogonal neighbours, each tagged with a
compass direction. Some blocks become rooms, and rooms have a door map with
one flag per direction. Generating a floor takes four steps:

1. Choose the start room. It is the block where the previous floor was left
   or, on the first floor, a random border block.
2. Choose the end room. The generator draws a random border block and
   redraws until it is neither the start block nor one of its neighbours.
3. Build both rooms. The start room gets the door the previous floor was
   left through (if there is one) and one random door towards a neighbour.
   The end room is locked, gets a door through one of its outer walls to
   the next floor, and gets one random door towards a neighbour.
4. Make one forward pass over the blocks in index order. Any other block
   that a room next to it has a door towards becomes a room with the
   matching door back.

## How the model is organised

| module | file | models |
|---|---|---|
| `Wrappers` | wrappers.dfy | `Option` |
| `Grid` | grid.dfy | `DIRECTION`, the neighbour table, `PERIMETER_ROOMS` |
| `Blocks` | blocks.dfy | blocks, `ROOM_TEMPLATE`, `LEVEL_TEMPLATE`, `generateDoors` and its rejection loop |
| `Rooms` | rooms.dfy | `createStartRoom`, `createEndRoom` |
| `Placement` | placement.dfy | the blocked set and the end-room redraw loop |
| `Level` | level.dfy | `generateLevel` and its forward pass |
| `Pass` | pass.dfy | what the forward pass does to each block |
| `LevelProperties` | properties.dfy | properties of a generated floor |

**Random draws.** Every `Math.random()` draw is an explicit argument with
the range the draw produces. The five draws of one floor are bundled in
`Level.Draws`, which holds the accepted value of each draw. Two methods
model the rejection loops themselves, consuming a sequence of raw draws:

- `Blocks.PickDoorSlots` models the loop inside `generateDoors`.
- `Placement.ResampleEnd` models the end-room redraw loop.

**The forward pass.** The pass is modelled as written, quirks included:

- The `block` parameter of the `forEach` callback is the value the block had
  before its visit. The `!block.is_room` guard therefore never stops a
  second matching neighbour.
- Every matching neighbour rebuilds the block from the room template, with
  a fresh, all-closed door map. Only the door towards the last matching
  neighbour in neighbour order survives.

`Level.Rebuild` takes a flag `keep`. With `keep` false it models the code
as written. With `keep` true it keeps the doors opened earlier, which gives
the corrected pass described under Findings. Lemmas that hold for both
passes take `keep` as a parameter.

**What the generator does not do.** `generateLevel` makes one forward pass
and has no expansion or retry step. Two consequences follow:

- The only rooms are the start room, the end room and blocks directly next
  to them. `LevelProperties.PassCreatesRooms` states this exactly.
- Nothing makes the end room reachable from the start room.

**The adjacent-rooms note.** The comment at `src/common/Level.js:214` warns
about start and end rooms that are next to each other. The redraw loop
already rules this out, and `LevelProperties.StartAndEndRooms` proves it.

## Model

| member | source | states |
|---|---|---|
| Grid.AdjacentBlocks | src/common/Level.js:75-212 | Each block has 2 to 4 neighbours. Every entry is the orthogonal grid step from the block in the listed direction. Entries are in ascending index order, with no direction repeated. |
| Grid.AdjacencyComplete | src/common/Level.js:35-41 | The neighbour table misses no neighbour: every direction that stays on the 4x4 grid appears in the block's list. |
| Grid.AdjacencySymmetric | src/common/Level.js:75-212 | The table is symmetric. If block i lists n in direction d, then n lists i, and looking i up in n's list finds direction Opposite(d). |
| Grid.Find | src/common/Level.js:335-336 | Models `find` on a neighbour list. It returns Some exactly when some entry names the index, and then it returns the first such entry. |
| Grid.PerimeterTableIsBorder | src/common/Level.js:60-73 | The perimeter table has 12 entries in ascending block order, each with 1 or 2 walls. An entry's walls are exactly the directions with no neighbour. A block appears in the table exactly when it is on the border. |
| Blocks.LevelTemplate | src/common/Level.js:75-212 | The template has 16 blocks, block i at position i with row i of the neighbour table. No block is a room and every door is closed. |
| Blocks.MakeRoom | src/common/Level.js:48-58 | Spreading the room template over a block makes it a room with a fresh door map that has every door closed. Every other field is kept. |
| Blocks.GenerateDoors | src/common/Level.js:216-241 | Door flags only turn on, and only towards listed neighbours. No other field changes. Asking for at least as many doors as neighbours opens every neighbour door. Otherwise the new doors are exactly those of the distinct drawn slots. |
| Blocks.PickDoorSlots | src/common/Level.js:224-233 | The rejection loop returns exactly the requested number of distinct in-range slots. They are exactly the distinct values among the draws it consumed. It stops at the draw that completes the set: that last draw is new, and no draw is consumed when no door is asked for. |
| Blocks.DistinctCardinality | src/common/Level.js:227-233 | A sequence without repeats has as many distinct values as entries. The slot loop relies on this to stop once enough distinct draws have been seen. |
| Rooms.CreateStartRoom | src/common/Level.js:243-260 | Only the start block changes, and it becomes a room flagged start. With a prior room, its level door is the prior's and that door is open. Its open doors are exactly the prior's level door (if any) and the door towards the drawn neighbour slot. |
| Rooms.PerimeterWalls | src/common/Level.js:273 | The perimeter lookup finds walls exactly for border blocks. The walls are 1 or 2 directions, exactly those leaving the grid. |
| Rooms.EndLevelDoor | src/common/Level.js:275-286 | The level door is one of the block's listed walls. |
| Rooms.CreateEndRoom | src/common/Level.js:262-294 | Only the end block changes, and it becomes a locked room flagged end. On a border block, the level door is an outer wall and the open doors are exactly that wall and the drawn neighbour slot. Off the border, only the slot door is open and the level door is left as it was. |
| Placement.Blocked | src/common/Level.js:307 | The blocked set has at most 5 entries. A block is in it exactly when it is the start block or one of its neighbours. |
| Placement.ResampleEnd | src/common/Level.js:308-312 | The redraw loop returns the first draw that is not blocked. Every earlier draw was blocked. |
| Placement.EndRoomAvailable | src/common/Level.js:307-312 | For every start block, some perimeter entry is acceptable as the end room, so the redraw loop can always finish. |
| Level.StartIndex | src/common/Level.js:302-304 | The start block is the prior room's block when there is one. Otherwise it is a perimeter entry, so it lies on the border. |
| Pass.SeedLevelIsSeeded | src/common/Level.js:299-318 | The level before the pass differs from the template only at the start and end blocks, which are distinct. |
| LevelProperties.SeedFacts | src/common/Level.js:299-318 | Before the pass, the start block is a room flagged start and not end or locked. The end block is a locked room flagged end. The two are distinct and not neighbours. |
| Level.SeedLevel | src/common/Level.js:299-318 | Its own contract is only the 16-block shape. `Pass.SeedLevelIsSeeded` and `LevelProperties.SeedFacts` state what it builds. |
| Level.DoorTowardsIsStepDoor | src/common/Level.js:335-337 | Models the `find` and door lookup of `DoorTowards`. For a block carrying block i's neighbour list, `DoorTowards(nb, index)` holds exactly when nb's door in the grid direction from i to index is open. |
| Level.RebuildDoors | src/common/Level.js:340-348 | As written, a rebuilt block has only the door towards the triggering neighbour. With `keep`, it has that door plus every door it already had. |
| Level.Rebuild | src/common/Level.js:340-348 | A rebuilt block is a room with the door towards the triggering neighbour open. Every field other than the room flag and the door map is kept. |
| Level.Scan | src/common/Level.js:329-352 | The neighbour loop of one visit changes no block other than the visited one, and the level keeps its shape. |
| Level.Visit | src/common/Level.js:321-325 | A visit changes no block other than the visited one, and the level keeps its shape. `Pass.ScanOutcome` states what a visit does to the visited block. |
| Level.PassFrom | src/common/Level.js:321-353 | The pass from block `index` on keeps the start and end blocks and every block before `index` unchanged. `Pass.PassResult` states the outcome at every other block. |
| Level.GenerateLevel | src/common/Level.js:296-356 | Its own contract is only the 16-block shape. Its properties are stated by `LevelProperties.StartAndEndRooms`, `StartRoomDoors`, `EndRoomDoors`, `PassCreatesRooms`, `CreatedRoomsLeadBack`, `DoorsLeadToRoomsHolds`, `DoorsFaceNeighboursOrLevelDoor` and `AsWrittenLosesReturnDoor`. |
| Pass.OpenDoorIsTrigger | src/common/Level.js:339-348 | After its visit, a block has an open door towards a neighbour only if that neighbour was a room with its door towards the block open. |
| Pass.CreatedRoomsDoNotTrigger | src/common/Level.js:331-339 | A block the pass has visited is never a room with its door open towards a block other than the start or end room, so it never triggers a later block. |
| Pass.ScanOutcome | src/common/Level.js:329-352 | One visit makes the block a room exactly when some neighbour triggers. As written, the only door is towards the last trigger. With `keep`, there is a door towards every trigger. |
| Pass.PassResult | src/common/Level.js:321-355 | After the whole pass, the start and end rooms are as built, and every other block is exactly what its triggers in the seeded level dictate. |
| LevelProperties.StartAndEndRooms | src/common/Level.js:302-312 | The end room differs from the start, is not its neighbour, and is on the border. Without a prior room the start is on the border, and otherwise it is the prior's block. Exactly one block is flagged start, one is flagged end, and only the end room is locked. |
| LevelProperties.ApartFromStart | src/common/Level.js:307-312 | A block the redraw loop accepts is not the start block. It is not a neighbour of the start, and the start is not a neighbour of it. |
| LevelProperties.StartRoomDoors | src/common/Level.js:243-260 | In the finished floor, the start room's level door is the prior's (or none). Its open doors are exactly that door and the drawn neighbour door. |
| LevelProperties.EndRoomDoors | src/common/Level.js:262-294 | In the finished floor, the end room has a level door through one of its listed outer walls. Its open doors are exactly that door and the drawn neighbour door. |
| LevelProperties.PassCreatesRooms | src/common/Level.js:321-355 | As written, another block is a room exactly when the start or end room next to it has its door towards it open. Then its only door leads to the last such neighbour, and otherwise it is the template block unchanged. |
| LevelProperties.CreatedRoomsLeadBack | src/common/Level.js:339-348 | Every room the pass creates has exactly one door, and that door leads to a room whose door points back at it. |
| LevelProperties.DoorsLeadToRoomsHolds | src/common/Level.js:321-355 | In either pass, every door towards a neighbouring block leads to a room. |
| LevelProperties.DoorsFaceNeighboursOrLevelDoor | src/common/Level.js:236-348 | Every open door of the finished floor leads to a neighbour or is the block's level door. |
| LevelProperties.ReciprocalPassCreatesRooms | src/common/Level.js:321-355 | With the corrected pass, another block is a room exactly when a start or end room next to it opens onto it. It then has a door towards each such neighbour and no other. |
| LevelProperties.LastOpeningWins | src/common/Level.js:340-348 | As written, when the last neighbour in a block's list opens onto it, the block ends up a room whose only door leads to that neighbour, whatever earlier neighbours opened onto it. |
| LevelProperties.CornerLosesReturnDoor | src/common/Level.js:340-348 | As written, take a start room at block 1 with its west door open and an end room at block 4 with its north door open. Block 0 then ends up a room with only its south door open. Block 1's west door has no door back, so door matching fails. |
| LevelProperties.AsWrittenLosesReturnDoor | src/common/Level.js:340-348 | As written, the first-floor draws (1, 4, 0, 0, 0) are valid and produce a floor whose door matching fails. |
| LevelProperties.ReciprocalPassKeepsDoorsPaired | src/common/Level.js:325-326 | With the corrected pass, every door between two blocks has a matching door back. |

## Left out

- `Math.random` is left out. Each draw is an argument with the range the draw produces, as described above.
- `Level.GenerateLevel` takes the accepted draws, not a raw stream. The redraw loops are modelled on their own by `Placement.ResampleEnd` and `Blocks.PickDoorSlots`.
- The `console.log` calls at `src/common/Level.js:314-315` are left out.
- The `monster` and `item` fields of the room template are always `null`, and nothing here reads them, so blocks do not carry them.
- `level_door` is `undefined` until a start or end room sets it. The model uses `None` for this.
- Template blocks (`src/common/Level.js:42-46`, `77-80`) have no `doors`, `start_room`, `end_room` or `locked` fields. The model gives them a closed door map and false flags. The pass reads the doors of rooms only, so the difference is never observed.
- `self_info` could be `undefined` at `src/common/Level.js:336`, which would make the code throw. This cannot happen, because the neighbour table is symmetric (`Grid.AdjacencySymmetric`). The model returns false in that case and never reaches it.
- In JavaScript the template blocks are shared objects, and the level array is a shallow copy. The code always replaces a block with a fresh object before writing to it, so the template is never changed. The model's immutable values keep that promise for free, so it has no separate lemma.
- A prior room whose index is not a border block is accepted, because the source does not check it. Only the first floor is forced to start on the border.
- `Blocks.PickDoorSlots`: the source loop runs forever if the draws never supply enough distinct slots. The method instead requires a draw sequence that does supply them.
- `Placement.ResampleEnd`: the source loop runs forever if no acceptable draw ever comes. The method instead requires a draw sequence that contains one. `Placement.EndRoomAvailable` shows that such a draw always exists.

## Findings

| source | as written | input that shows it | evidently intended | confidence | as-written member | corrected member |
|---|---|---|---|---|---|---|
| src/common/Level.js:340-348 | Each neighbour that opens onto a block rebuilds it with a fresh, all-closed door map, so only the door to the last such neighbour survives. | First floor, start at perimeter entry 1 (block 1) with its door west, end at perimeter entry 4 (block 4) with its door north. Block 0 becomes a room with only its south door open, so block 1's west door has no door back. | The comment at lines 325-326 asks for a room with a door to each adjacent room that opens onto it, so every door between two rooms should be matched. | not executed | LevelProperties.AsWrittenLosesReturnDoor | LevelProperties.ReciprocalPassKeepsDoorsPaired |

The as-written lemma instantiates `LevelProperties.LosesReturnDoor`, which rests on `LevelProperties.CornerLosesReturnDoor`. `LosesReturnDoor` covers all draws that put the start room at block 1 and the end room at block 4 with their first neighbour slots. The corrected pass is `Level.GenerateLevelReciprocal`. Several properties are proved for both passes: start and end placement, the door maps of the start and end rooms, doors leading to rooms, and doors facing neighbours.
