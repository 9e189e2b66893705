/** One call of the level generator: choose the start and end rooms, build
    them, then make a single forward pass over the blocks in index order,
    turning every block that a neighbouring room has a door towards into a
    room with the matching door. */
module Level {
  import opened Wrappers
  import opened Grid
  import opened Blocks
  import opened Rooms
  import opened Placement

  /** The random draws of one level, each already accepted by its loop. */
  datatype Draws = Draws(
    startPick: nat,  // perimeter position of the start room (first floor only)
    endPick: nat,    // accepted perimeter position of the end room
    startSlot: nat,  // neighbour slot of the start room's random door
    endWall: nat,    // outer wall of the end room, drawn when it has two
    endSlot: nat)    // neighbour slot of the end room's random door

  /** The start block: where the previous floor was left, or a perimeter block. */
  function StartIndex(prior: Option<PriorRoom>, d: Draws): (r: BlockIndex)
    requires prior.None? ==> d.startPick < 12
    ensures prior.Some? ==> r == prior.value.index
    ensures prior.None? ==> OnBorder(r)
  {
    PerimeterTableIsBorder();
    if prior.Some? then prior.value.index else PerimeterRooms()[d.startPick].index
  }

  function EndIndex(d: Draws): BlockIndex
    requires d.endPick < 12
  {
    PerimeterRooms()[d.endPick].index
  }

  /** Every draw is in the range its random source produces, and the end
      pick is one the redraw loop accepts. */
  predicate ValidDraws(prior: Option<PriorRoom>, d: Draws)
  {
    && (prior.None? ==> d.startPick < 12)
    && ValidEndPick(StartIndex(prior, d), d.endPick)
    && d.startSlot < |AdjacentBlocks(StartIndex(prior, d))|
    && d.endSlot < |AdjacentBlocks(EndIndex(d))|
    && EndWallDrawOk(EndIndex(d), d.endWall)
  }

  /** The template with the start and end rooms built, before the pass. */
  function SeedLevel(prior: Option<PriorRoom>, d: Draws): (r: seq<Block>)
    requires ValidDraws(prior, d)
    ensures WellFormed(r)
  {
    var start, end := StartIndex(prior, d), EndIndex(d);
    CreateEndRoom(CreateStartRoom(LevelTemplate(), start, prior, d.startSlot), end, d.endWall, d.endSlot)
  }

  /** Whether room `nb` has its door towards block `index` open: the
      direction is the one `nb`'s own neighbour list gives for `index`. */
  predicate DoorTowards(nb: Block, index: BlockIndex)
  {
    match Find(nb.adjacent, index)
    case Some(selfInfo) => nb.doors.Has(selfInfo.direction)
    case None => false
  }

  /** For a block carrying the neighbour list of block `i`, the door
      `DoorTowards` reads is the door facing `index` on the grid. */
  lemma DoorTowardsIsStepDoor(nb: Block, i: BlockIndex, index: BlockIndex)
    requires nb.adjacent == AdjacentBlocks(i)
    ensures DoorTowards(nb, index) <==> exists d :: Step(i, d) == Some(index) && nb.doors.Has(d)
  {
    var adj := AdjacentBlocks(i);
    var found := Find(adj, index);
    if found.Some? {
      var k :| 0 <= k < |adj| && adj[k] == found.value;
      assert Step(i, adj[k].direction) == Some(index);
      forall d | Step(i, d) == Some(index) ensures d == adj[k].direction {
        StepInjective(i, d, adj[k].direction);
      }
    } else {
      forall d | Step(i, d) == Some(index) ensures false {
        AdjacencyComplete(i, d);
      }
    }
  }

  /** Two steps from the same block that land on the same block go the same way. */
  lemma StepInjective(i: BlockIndex, d: Direction, d': Direction)
    requires Step(i, d).Some? && Step(i, d) == Step(i, d')
    ensures d == d'
  {
  }

  /** Block `b` rebuilt as a room with its door towards `dir` open. As
      written (`keep` false) the rebuild starts from the template's closed
      door map, discarding doors opened by earlier neighbours; the corrected
      pass (`keep` true) keeps them. */
  function Rebuild(b: Block, dir: Direction, keep: bool): (r: Block)
    ensures r.isRoom && r.doors.Has(dir)
    ensures r == b.(isRoom := true, doors := r.doors)
  {
    b.(isRoom := true, doors := (if keep then b.doors else ClosedDoors).Open(dir))
  }

  /** The doors of a rebuilt block: as written only the door towards `dir`,
      with `keep` that door and every door the block already had. */
  lemma RebuildDoors(b: Block, dir: Direction, keep: bool)
    ensures forall d :: Rebuild(b, dir, keep).doors.Has(d) <==> d == dir || (keep && b.doors.Has(d))
  {
    forall d ensures Rebuild(b, dir, keep).doors.Has(d) <==> d == dir || (keep && b.doors.Has(d)) {
      if d != dir {
        assert Rebuild(b, dir, keep).doors.Has(d) == (if keep then b.doors else ClosedDoors).Has(d);
      }
    }
  }

  /** The neighbour loop of one visit, from slot `k` on. `block` is the
      value the block had when its visit began, which is what the room guard
      reads. */
  function Scan(level: seq<Block>, index: BlockIndex, block: Block, k: nat, keep: bool): (r: seq<Block>)
    requires WellFormed(level)
    requires k <= |AdjacentBlocks(index)|
    ensures WellFormed(r)
    ensures forall j: BlockIndex :: j != index ==> r[j] == level[j]
    decreases |AdjacentBlocks(index)| - k
  {
    if k == |level[index].adjacent| then level
    else
      var info := level[index].adjacent[k];
      var neighbour := level[info.index];
      var level' :=
        if neighbour.isRoom && DoorTowards(neighbour, index) && !block.isRoom
        then level[index := Rebuild(level[index], info.direction, keep)]
        else level;
      Scan(level', index, block, k + 1, keep)
  }

  /** The visit of block `index`: the start and end rooms are skipped. */
  function Visit(level: seq<Block>, index: BlockIndex, start: BlockIndex, end: BlockIndex, keep: bool): (r: seq<Block>)
    requires WellFormed(level)
    ensures WellFormed(r)
    ensures forall j: BlockIndex :: j != index ==> r[j] == level[j]
  {
    if index == start || index == end then level
    else Scan(level, index, level[index], 0, keep)
  }

  /** The forward pass from block `index` to the last block. */
  function PassFrom(level: seq<Block>, index: nat, start: BlockIndex, end: BlockIndex, keep: bool): (r: seq<Block>)
    requires WellFormed(level)
    requires index <= 16
    ensures WellFormed(r)
    ensures r[start] == level[start] && r[end] == level[end]
    ensures forall j: BlockIndex :: j < index ==> r[j] == level[j]
    decreases 16 - index
  {
    if index == 16 then level
    else PassFrom(Visit(level, index, start, end, keep), index + 1, start, end, keep)
  }

  /** The level generator as written. */
  function GenerateLevel(prior: Option<PriorRoom>, d: Draws): (r: seq<Block>)
    requires ValidDraws(prior, d)
    ensures WellFormed(r)
  {
    PassFrom(SeedLevel(prior, d), 0, StartIndex(prior, d), EndIndex(d), false)
  }

  /** The level generator with the forward pass keeping every reciprocal door. */
  function GenerateLevelReciprocal(prior: Option<PriorRoom>, d: Draws): (r: seq<Block>)
    requires ValidDraws(prior, d)
    ensures WellFormed(r)
  {
    PassFrom(SeedLevel(prior, d), 0, StartIndex(prior, d), EndIndex(d), true)
  }
}
