/** Properties of a generated level: where the start and end rooms are,
    which doors they have, which other blocks become rooms, and whether the
    doors between rooms come in matching pairs. */
module LevelProperties {
  import opened Wrappers
  import opened Grid
  import opened Blocks
  import opened Rooms
  import opened Placement
  import opened Level
  import opened Pass

  /** Block `j` is one of the neighbours of block `i`. */
  predicate Neighbours(i: BlockIndex, j: BlockIndex)
  {
    exists k :: 0 <= k < |AdjacentBlocks(i)| && AdjacentBlocks(i)[k].index == j
  }

  /** The start room, the end room and the forward pass of one level, with
      the pass either as written (`keep` false) or corrected. */
  function Generated(prior: Option<PriorRoom>, d: Draws, keep: bool): (r: seq<Block>)
    requires ValidDraws(prior, d)
    ensures WellFormed(r)
    ensures !keep ==> r == GenerateLevel(prior, d)
    ensures keep ==> r == GenerateLevelReciprocal(prior, d)
  {
    PassFrom(SeedLevel(prior, d), 0, StartIndex(prior, d), EndIndex(d), keep)
  }

  /** The start and end rooms as built before the pass. */
  lemma SeedFacts(prior: Option<PriorRoom>, d: Draws)
    requires ValidDraws(prior, d)
    ensures var pre, s, e := SeedLevel(prior, d), StartIndex(prior, d), EndIndex(d);
      && s != e && !Neighbours(s, e) && !Neighbours(e, s)
      && pre[s].isRoom && pre[s].startRoom && !pre[s].endRoom && !pre[s].locked
      && pre[e].isRoom && pre[e].endRoom && pre[e].locked && !pre[e].startRoom
  {
    ApartFromStart(StartIndex(prior, d), EndIndex(d));
  }

  /** A block outside the blocked set of the start is neither the start nor
      a neighbour of it, in either direction. */
  lemma ApartFromStart(s: BlockIndex, e: BlockIndex)
    requires e !in Blocked(s)
    ensures s != e && !Neighbours(s, e) && !Neighbours(e, s)
  {
    if Neighbours(e, s) {
      var k :| 0 <= k < |AdjacentBlocks(e)| && AdjacentBlocks(e)[k].index == s;
      AdjacencySymmetric(e, k);
    }
  }

  /** The start and end blocks of `pre` are rooms that are not neighbours,
      every other block of `pre` is a template block, and `r` keeps the start
      and end rooms as they are. */
  predicate SeedKept(pre: seq<Block>, r: seq<Block>, s: BlockIndex, e: BlockIndex)
  {
    && Seeded(pre, s, e) && WellFormed(r)
    && pre[s].isRoom && pre[e].isRoom
    && !Neighbours(s, e) && !Neighbours(e, s)
    && r[s] == pre[s] && r[e] == pre[e]
  }

  /** What the pass leaves: the start and end rooms kept, every other block
      as its triggers dictate. */
  predicate PassFacts(pre: seq<Block>, r: seq<Block>, s: BlockIndex, e: BlockIndex, keep: bool)
  {
    SeedKept(pre, r, s, e) && forall j: BlockIndex :: j != s && j != e ==> PassOutcome(pre, j, r[j], keep)
  }

  lemma GeneratedPassFacts(prior: Option<PriorRoom>, d: Draws, keep: bool)
    requires ValidDraws(prior, d)
    ensures PassFacts(SeedLevel(prior, d), Generated(prior, d, keep), StartIndex(prior, d), EndIndex(d), keep)
  {
    SeedFacts(prior, d);
    SeedLevelIsSeeded(prior, d);
    PassResult(prior, d, keep);
  }

  lemma GeneratedSeedKept(prior: Option<PriorRoom>, d: Draws, keep: bool)
    requires ValidDraws(prior, d)
    ensures SeedKept(SeedLevel(prior, d), Generated(prior, d, keep), StartIndex(prior, d), EndIndex(d))
  {
    GeneratedPassFacts(prior, d, keep);
  }

  lemma GeneratedOutcomeAt(prior: Option<PriorRoom>, d: Draws, keep: bool, i: BlockIndex)
    requires ValidDraws(prior, d)
    requires i != StartIndex(prior, d) && i != EndIndex(d)
    ensures SeedKept(SeedLevel(prior, d), Generated(prior, d, keep), StartIndex(prior, d), EndIndex(d))
    ensures PassOutcome(SeedLevel(prior, d), i, Generated(prior, d, keep)[i], keep)
  {
    GeneratedPassFacts(prior, d, keep);
  }

  /** Where the start and end rooms are. The end room is a border block,
      differs from the start and is not one of its neighbours; without a
      prior floor the start is a border block too, otherwise it is where the
      prior floor was left. Exactly one block is flagged start, exactly one
      is flagged end, and only the end room is locked. */
  lemma StartAndEndRooms(prior: Option<PriorRoom>, d: Draws, keep: bool)
    requires ValidDraws(prior, d)
    ensures var r, s, e := Generated(prior, d, keep), StartIndex(prior, d), EndIndex(d);
      && s != e && !Neighbours(s, e)
      && OnBorder(e)
      && (prior.None? ==> OnBorder(s))
      && (prior.Some? ==> s == prior.value.index)
      && r[s].isRoom && r[e].isRoom
      && (forall j: BlockIndex :: r[j].startRoom <==> j == s)
      && (forall j: BlockIndex :: r[j].endRoom <==> j == e)
      && (forall j: BlockIndex :: r[j].locked <==> j == e)
  {
    var r, s, e := Generated(prior, d, keep), StartIndex(prior, d), EndIndex(d);
    SeedFacts(prior, d);
    PerimeterTableIsBorder();
    GeneratedSeedKept(prior, d, keep);
    forall j: BlockIndex | j != s && j != e
      ensures !r[j].startRoom && !r[j].endRoom && !r[j].locked
    {
      GeneratedOutcomeAt(prior, d, keep, j);
    }
  }

  /** The doors of the start room: the door the prior floor was left through
      (when there is one, also recorded as its level door) and the door
      towards the neighbour of the drawn slot, and no other. */
  lemma StartRoomDoors(prior: Option<PriorRoom>, d: Draws, keep: bool)
    requires ValidDraws(prior, d)
    ensures var r, s := Generated(prior, d, keep), StartIndex(prior, d);
      && r[s].levelDoor == (if prior.Some? then Some(prior.value.levelDoor) else None)
      && forall dir :: r[s].doors.Has(dir) <==>
           (prior.Some? && dir == prior.value.levelDoor) || dir == AdjacentBlocks(s)[d.startSlot].direction
  {
    SeedFacts(prior, d);
    GeneratedSeedKept(prior, d, keep);
  }

  /** The doors of the end room: a level door through one of its outer
      walls, the door towards the neighbour of the drawn slot, and no other. */
  lemma EndRoomDoors(prior: Option<PriorRoom>, d: Draws, keep: bool)
    requires ValidDraws(prior, d)
    ensures var r, e := Generated(prior, d, keep), EndIndex(d);
      && r[e].levelDoor.Some?
      && Step(e, r[e].levelDoor.value).None?
      && r[e].levelDoor.value in PerimeterWalls(e).value
      && forall dir :: r[e].doors.Has(dir) <==>
           dir == r[e].levelDoor.value || dir == AdjacentBlocks(e)[d.endSlot].direction
  {
    SeedFacts(prior, d);
    GeneratedSeedKept(prior, d, keep);
    PerimeterTableIsBorder();
  }

  /** Neighbour slot `k` of block `i` is the start or end room of `r` with its
      door towards `i` open. */
  predicate OpensOnto(r: seq<Block>, s: BlockIndex, e: BlockIndex, i: BlockIndex, k: nat)
    requires WellFormed(r) && k < |AdjacentBlocks(i)|
  {
    var n := AdjacentBlocks(i)[k].index;
    (n == s || n == e) && DoorTowards(r[n], i)
  }

  /** For each neighbour slot of block `i`, whether it opens onto block `i`. */
  function Openings(r: seq<Block>, s: BlockIndex, e: BlockIndex, i: BlockIndex): (o: seq<bool>)
    requires WellFormed(r)
    ensures |o| == |AdjacentBlocks(i)|
    ensures forall k :: 0 <= k < |o| ==> o[k] == OpensOnto(r, s, e, i, k)
  {
    seq(|AdjacentBlocks(i)|, k requires 0 <= k < |AdjacentBlocks(i)| => OpensOnto(r, s, e, i, k))
  }

  /** The pass's triggers at block `i` are the openings of its result. */
  lemma TriggersAreOpenings(pre: seq<Block>, r: seq<Block>, s: BlockIndex, e: BlockIndex, i: BlockIndex)
    requires SeedKept(pre, r, s, e)
    ensures TriggerFlags(pre, i) == Openings(r, s, e, i)
  {
    var t, o := TriggerFlags(pre, i), Openings(r, s, e, i);
    forall k | 0 <= k < |t| ensures t[k] == o[k] {
      var n := AdjacentBlocks(i)[k].index;
      if n != s && n != e {
        assert pre[n] == TemplateBlock(n);
      }
    }
  }

  /** The outcome at block `i` is governed by the openings of the result. */
  lemma OutcomeByOpenings(pre: seq<Block>, r: seq<Block>, s: BlockIndex, e: BlockIndex, keep: bool, i: BlockIndex)
    requires SeedKept(pre, r, s, e)
    requires PassOutcome(pre, i, r[i], keep)
    ensures ScannedTo(i, Openings(r, s, e, i), r[i], |AdjacentBlocks(i)|, keep)
  {
    TriggersAreOpenings(pre, r, s, e, i);
  }

  /** What the pass makes of block `i` of a generated level, in terms of the
      openings of the level. */
  lemma GeneratedOutcome(prior: Option<PriorRoom>, d: Draws, keep: bool, i: BlockIndex)
    requires ValidDraws(prior, d)
    requires i != StartIndex(prior, d) && i != EndIndex(d)
    ensures var r := Generated(prior, d, keep);
      ScannedTo(i, Openings(r, StartIndex(prior, d), EndIndex(d), i), r[i], |AdjacentBlocks(i)|, keep)
  {
    GeneratedOutcomeAt(prior, d, keep, i);
    OutcomeByOpenings(SeedLevel(prior, d), Generated(prior, d, keep), StartIndex(prior, d), EndIndex(d), keep, i);
  }

  /** What the forward pass as written makes of every other block. A block
      becomes a room exactly when the start or end room next to it has its
      door towards it open. Such a room has a single open door, leading to
      the last such neighbour in the block's neighbour order, since every
      match rebuilds the room from a closed door map. Every other block is
      left exactly as in the level template. */
  lemma PassCreatesRooms(prior: Option<PriorRoom>, d: Draws, i: BlockIndex)
    requires ValidDraws(prior, d)
    requires i != StartIndex(prior, d) && i != EndIndex(d)
    ensures var r := GenerateLevel(prior, d);
      var o, adj := Openings(r, StartIndex(prior, d), EndIndex(d), i), AdjacentBlocks(i);
      && (r[i].isRoom <==> exists k :: 0 <= k < |adj| && o[k])
      && (!r[i].isRoom ==> r[i] == TemplateBlock(i))
      && (r[i].isRoom ==>
            exists k :: 0 <= k < |adj| && o[k]
              && (forall k' :: k < k' < |adj| ==> !o[k'])
              && r[i] == TemplateBlock(i).(isRoom := true, doors := ClosedDoors.Open(adj[k].direction)))
  {
    GeneratedOutcome(prior, d, false, i);
  }

  /** What the corrected forward pass makes of every other block: it becomes
      a room exactly when the start or end room next to it has its door
      towards it open, and then has a door towards each such neighbour and
      no other. Every other block is left exactly as in the level template. */
  lemma ReciprocalPassCreatesRooms(prior: Option<PriorRoom>, d: Draws, i: BlockIndex)
    requires ValidDraws(prior, d)
    requires i != StartIndex(prior, d) && i != EndIndex(d)
    ensures var r := GenerateLevelReciprocal(prior, d);
      var o, adj := Openings(r, StartIndex(prior, d), EndIndex(d), i), AdjacentBlocks(i);
      && (r[i].isRoom <==> exists k :: 0 <= k < |adj| && o[k])
      && (!r[i].isRoom ==> r[i] == TemplateBlock(i))
      && (r[i].isRoom ==> r[i] == TemplateBlock(i).(isRoom := true, doors := r[i].doors))
      && forall dir :: r[i].doors.Has(dir) <==> exists k :: 0 <= k < |adj| && o[k] && adj[k].direction == dir
  {
    GeneratedOutcome(prior, d, true, i);
  }

  /** A room rebuilt around a single door has that door and no other. */
  lemma SingleDoor(b: Block, i: BlockIndex, dir: Direction)
    requires b == TemplateBlock(i).(isRoom := true, doors := ClosedDoors.Open(dir))
    ensures forall dir' :: b.doors.Has(dir') <==> dir' == dir
  {
    forall dir' ensures b.doors.Has(dir') <==> dir' == dir {
      OpenedClosedDoor(dir, dir');
    }
  }

  /** The neighbour slot a created room's door was rebuilt for: the last
      slot that opens onto it. */
  lemma CreatedRoomDoor(prior: Option<PriorRoom>, d: Draws, i: BlockIndex) returns (k: nat)
    requires ValidDraws(prior, d)
    requires i != StartIndex(prior, d) && i != EndIndex(d)
    requires GenerateLevel(prior, d)[i].isRoom
    ensures var r := GenerateLevel(prior, d);
      var o, adj := Openings(r, StartIndex(prior, d), EndIndex(d), i), AdjacentBlocks(i);
      && k < |adj| && o[k] && (forall k' :: k < k' < |adj| ==> !o[k'])
      && r[i] == TemplateBlock(i).(isRoom := true, doors := ClosedDoors.Open(adj[k].direction))
  {
    GeneratedOutcome(prior, d, false, i);
    k := ChosenSlot(i, Openings(GenerateLevel(prior, d), StartIndex(prior, d), EndIndex(d), i), GenerateLevel(prior, d)[i]);
  }

  /** The slot whose door a room scanned as written kept. */
  lemma ChosenSlot(i: BlockIndex, trig: seq<bool>, b: Block) returns (k: nat)
    requires |trig| == |AdjacentBlocks(i)|
    requires ScannedTo(i, trig, b, |AdjacentBlocks(i)|, false) && b.isRoom
    ensures var adj := AdjacentBlocks(i);
      && k < |adj| && trig[k] && (forall k' :: k < k' < |adj| ==> !trig[k'])
      && b == TemplateBlock(i).(isRoom := true, doors := ClosedDoors.Open(adj[k].direction))
  {
    var adj := AdjacentBlocks(i);
    k :| 0 <= k < |adj| && trig[k] && (forall k' :: k < k' < |adj| ==> !trig[k'])
      && b.doors == ClosedDoors.Open(adj[k].direction);
  }

  /** Block `i` of `level` has a single door, towards neighbour slot `k`, and
      that neighbour is a room whose door points back at block `i`. */
  predicate SingleDoorBack(level: seq<Block>, i: BlockIndex, k: nat)
    requires WellFormed(level) && k < |AdjacentBlocks(i)|
  {
    var a := AdjacentBlocks(i)[k];
    && (forall dir :: level[i].doors.Has(dir) <==> dir == a.direction)
    && level[a.index].isRoom && DoorTowards(level[a.index], i)
  }

  /** Each room the pass creates has its one door towards a neighbouring room
      whose door points back at it. */
  lemma CreatedRoomsLeadBack(prior: Option<PriorRoom>, d: Draws, i: BlockIndex)
    requires ValidDraws(prior, d)
    requires i != StartIndex(prior, d) && i != EndIndex(d)
    requires GenerateLevel(prior, d)[i].isRoom
    ensures exists k :: 0 <= k < |AdjacentBlocks(i)| && SingleDoorBack(GenerateLevel(prior, d), i, k)
  {
    var k := CreatedRoomDoor(prior, d, i);
    GeneratedSeedKept(prior, d, false);
    LeadsBack(GenerateLevel(prior, d), StartIndex(prior, d), EndIndex(d), i, k);
  }

  /** A room rebuilt around the door to an opening leads back to a room. */
  lemma LeadsBack(r: seq<Block>, s: BlockIndex, e: BlockIndex, i: BlockIndex, k: nat)
    requires WellFormed(r) && r[s].isRoom && r[e].isRoom
    requires k < |AdjacentBlocks(i)| && Openings(r, s, e, i)[k]
    requires r[i] == TemplateBlock(i).(isRoom := true, doors := ClosedDoors.Open(AdjacentBlocks(i)[k].direction))
    ensures SingleDoorBack(r, i, k)
  {
    assert OpensOnto(r, s, e, i, k);
    SingleDoor(r[i], i, AdjacentBlocks(i)[k].direction);
  }

  /** Every door a room has towards a neighbouring block is matched by a door
      of that block back towards it. */
  predicate DoorsReciprocal(level: seq<Block>)
    requires WellFormed(level)
  {
    forall i: BlockIndex, k :: 0 <= k < |AdjacentBlocks(i)| && level[i].doors.Has(AdjacentBlocks(i)[k].direction) ==>
      DoorTowards(level[AdjacentBlocks(i)[k].index], i)
  }

  /** Every door a room has towards a neighbouring block leads to a room. */
  predicate DoorsLeadToRooms(level: seq<Block>)
    requires WellFormed(level)
  {
    forall i: BlockIndex, k :: 0 <= k < |AdjacentBlocks(i)| && level[i].doors.Has(AdjacentBlocks(i)[k].direction) ==>
      level[AdjacentBlocks(i)[k].index].isRoom
  }

  /** The neighbours of the start and end rooms are other blocks. */
  lemma SeedNeighbourIsOther(s: BlockIndex, e: BlockIndex, i: BlockIndex, k: nat)
    requires !Neighbours(s, e) && !Neighbours(e, s)
    requires i == s || i == e
    requires k < |AdjacentBlocks(i)|
    ensures AdjacentBlocks(i)[k].index != s && AdjacentBlocks(i)[k].index != e
  {
    var a := AdjacentBlocks(i)[k];
    assert Step(i, a.direction) == Some(a.index);
  }

  /** A door of the start or end room towards a neighbour leads to a room the
      pass created; with `keep` that room has the door back. */
  lemma DoorFromSeedRoom(pre: seq<Block>, r: seq<Block>, s: BlockIndex, e: BlockIndex, keep: bool, i: BlockIndex, k: nat)
    requires SeedKept(pre, r, s, e)
    requires i == s || i == e
    requires k < |AdjacentBlocks(i)| && r[i].doors.Has(AdjacentBlocks(i)[k].direction)
    requires PassOutcome(pre, AdjacentBlocks(i)[k].index, r[AdjacentBlocks(i)[k].index], keep)
    ensures r[AdjacentBlocks(i)[k].index].isRoom
    ensures keep ==> DoorTowards(r[AdjacentBlocks(i)[k].index], i)
  {
    var a := AdjacentBlocks(i)[k];
    var n := a.index;
    var back := AdjacentBlocks(n);
    AdjacencySymmetric(i, k);
    SlotOf(i, k, n);
    var k0 :| 0 <= k0 < |back| && back[k0] == Adjacent(i, Opposite(a.direction));
    assert Trigger(pre, n, k0);
    assert TriggerFlags(pre, n)[k0];
  }

  /** A door of a room the pass created leads back to the start or end room
      that triggered it. */
  lemma DoorFromCreatedRoom(pre: seq<Block>, r: seq<Block>, s: BlockIndex, e: BlockIndex, keep: bool, i: BlockIndex, k: nat)
    requires SeedKept(pre, r, s, e)
    requires PassOutcome(pre, i, r[i], keep)
    requires k < |AdjacentBlocks(i)| && r[i].doors.Has(AdjacentBlocks(i)[k].direction)
    ensures r[AdjacentBlocks(i)[k].index].isRoom
    ensures DoorTowards(r[AdjacentBlocks(i)[k].index], i)
  {
    var n := AdjacentBlocks(i)[k].index;
    OpenDoorIsTrigger(pre, i, r[i], keep, k);
    assert n == s || n == e;
  }

  /** Every door leads to a room, for the pass as written and the corrected one. */
  lemma DoorsLeadToRoomsHolds(prior: Option<PriorRoom>, d: Draws, keep: bool)
    requires ValidDraws(prior, d)
    ensures DoorsLeadToRooms(Generated(prior, d, keep))
  {
    var pre, r := SeedLevel(prior, d), Generated(prior, d, keep);
    var s, e := StartIndex(prior, d), EndIndex(d);
    GeneratedPassFacts(prior, d, keep);
    forall i: BlockIndex, k | 0 <= k < |AdjacentBlocks(i)| && r[i].doors.Has(AdjacentBlocks(i)[k].direction)
      ensures r[AdjacentBlocks(i)[k].index].isRoom
    {
      if i == s || i == e {
        SeedNeighbourIsOther(s, e, i, k);
        DoorFromSeedRoom(pre, r, s, e, keep, i, k);
      } else {
        DoorFromCreatedRoom(pre, r, s, e, keep, i, k);
      }
    }
  }

  /** With doors accumulated rather than rebuilt, every door between two
      blocks comes in a matching pair. */
  lemma ReciprocalPassKeepsDoorsPaired(prior: Option<PriorRoom>, d: Draws)
    requires ValidDraws(prior, d)
    ensures DoorsReciprocal(GenerateLevelReciprocal(prior, d))
  {
    var pre, r := SeedLevel(prior, d), Generated(prior, d, true);
    var s, e := StartIndex(prior, d), EndIndex(d);
    GeneratedPassFacts(prior, d, true);
    forall i: BlockIndex, k | 0 <= k < |AdjacentBlocks(i)| && r[i].doors.Has(AdjacentBlocks(i)[k].direction)
      ensures DoorTowards(r[AdjacentBlocks(i)[k].index], i)
    {
      if i == s || i == e {
        SeedNeighbourIsOther(s, e, i, k);
        DoorFromSeedRoom(pre, r, s, e, true, i, k);
      } else {
        DoorFromCreatedRoom(pre, r, s, e, true, i, k);
      }
    }
  }

  /** A room the pass created has doors towards neighbours only. */
  lemma CreatedDoorFacesNeighbour(pre: seq<Block>, j: BlockIndex, b: Block, keep: bool, dir: Direction)
    requires WellFormed(pre) && PassOutcome(pre, j, b, keep)
    requires b.doors.Has(dir)
    ensures Step(j, dir).Some?
  {
    var adj, t := AdjacentBlocks(j), TriggerFlags(pre, j);
    if keep {
      var k0 :| 0 <= k0 < |adj| && t[k0] && adj[k0].direction == dir;
    } else {
      var k0 :| 0 <= k0 < |adj| && t[k0] && b.doors == ClosedDoors.Open(adj[k0].direction);
      OpenedClosedDoor(adj[k0].direction, dir);
    }
  }

  /** Every open door of the generated level leads to a neighbouring block
      or is the block's door to another floor. */
  lemma DoorsFaceNeighboursOrLevelDoor(prior: Option<PriorRoom>, d: Draws, keep: bool)
    requires ValidDraws(prior, d)
    ensures var r := Generated(prior, d, keep);
      forall j: BlockIndex, dir :: r[j].doors.Has(dir) ==> Step(j, dir).Some? || r[j].levelDoor == Some(dir)
  {
    var pre, r := SeedLevel(prior, d), Generated(prior, d, keep);
    var s, e := StartIndex(prior, d), EndIndex(d);
    GeneratedPassFacts(prior, d, keep);
    StartDoorsFace(prior, d, keep);
    EndDoorsFace(prior, d, keep);
    forall j: BlockIndex, dir | r[j].doors.Has(dir)
      ensures Step(j, dir).Some? || r[j].levelDoor == Some(dir)
    {
      if j != s && j != e {
        CreatedDoorFacesNeighbour(pre, j, r[j], keep, dir);
      }
    }
  }

  lemma StartDoorsFace(prior: Option<PriorRoom>, d: Draws, keep: bool)
    requires ValidDraws(prior, d)
    ensures var r, s := Generated(prior, d, keep), StartIndex(prior, d);
      forall dir :: r[s].doors.Has(dir) ==> Step(s, dir).Some? || r[s].levelDoor == Some(dir)
  {
    var r, s := Generated(prior, d, keep), StartIndex(prior, d);
    StartRoomDoors(prior, d, keep);
    SeedRoomDoorsFace(r[s], s, d.startSlot);
  }

  lemma EndDoorsFace(prior: Option<PriorRoom>, d: Draws, keep: bool)
    requires ValidDraws(prior, d)
    ensures var r, e := Generated(prior, d, keep), EndIndex(d);
      forall dir :: r[e].doors.Has(dir) ==> Step(e, dir).Some? || r[e].levelDoor == Some(dir)
  {
    var r, e := Generated(prior, d, keep), EndIndex(d);
    EndRoomDoors(prior, d, keep);
    SeedRoomDoorsFace(r[e], e, d.endSlot);
  }

  /** A room whose doors are its level door (if any) and one neighbour door. */
  lemma SeedRoomDoorsFace(b: Block, i: BlockIndex, slot: nat)
    requires slot < |AdjacentBlocks(i)|
    requires forall dir :: b.doors.Has(dir) <==>
      (b.levelDoor.Some? && dir == b.levelDoor.value) || dir == AdjacentBlocks(i)[slot].direction
    ensures forall dir :: b.doors.Has(dir) ==> Step(i, dir).Some? || b.levelDoor == Some(dir)
  {
  }

  /** The last set flag of a flag vector whose final flag is set is the final one. */
  lemma LastIsChosen(o: seq<bool>, k: nat)
    requires k < |o| && o[|o| - 1]
    requires forall k' :: k < k' < |o| ==> !o[k']
    ensures k == |o| - 1
  {
  }

  /** When the last neighbour slot of a block opens onto it, the pass as
      written leaves the block with the door to that slot only. */
  lemma LastOpeningWins(pre: seq<Block>, r: seq<Block>, s: BlockIndex, e: BlockIndex, i: BlockIndex)
    requires SeedKept(pre, r, s, e)
    requires PassOutcome(pre, i, r[i], false)
    requires Openings(r, s, e, i)[|AdjacentBlocks(i)| - 1]
    ensures r[i] == TemplateBlock(i).(isRoom := true, doors := ClosedDoors.Open(AdjacentBlocks(i)[|AdjacentBlocks(i)| - 1].direction))
  {
    OutcomeByOpenings(pre, r, s, e, false, i);
    LastTriggerWins(i, Openings(r, s, e, i), r[i]);
  }

  /** A block scanned as written whose last slot triggers keeps only the
      door towards that slot. */
  lemma LastTriggerWins(i: BlockIndex, trig: seq<bool>, b: Block)
    requires |trig| == |AdjacentBlocks(i)| && trig[|AdjacentBlocks(i)| - 1]
    requires ScannedTo(i, trig, b, |AdjacentBlocks(i)|, false)
    ensures b == TemplateBlock(i).(isRoom := true, doors := ClosedDoors.Open(AdjacentBlocks(i)[|AdjacentBlocks(i)| - 1].direction))
  {
    assert b.isRoom;
    var k := ChosenSlot(i, trig, b);
    LastIsChosen(trig, k);
  }

  /** An end room at block 4 with its north door open opens onto block 0. */
  lemma EndOpensOntoCorner(r: seq<Block>)
    requires WellFormed(r) && r[4].doors.Has(N)
    ensures Openings(r, 1, 4, 0)[1]
  {
    SlotOf(4, 0, 0);
    assert OpensOnto(r, 1, 4, 0, 1);
  }

  /** As written, a block next to both the start and the end room keeps only
      the door to the one it met last. With the start room at block 1
      opening west and the end room at block 4 opening north, both face
      block 0, and the end room comes last among block 0's neighbours: block
      0 becomes a room with a south door only, so the start room's west door
      has no door back. */
  lemma CornerLosesReturnDoor(pre: seq<Block>, r: seq<Block>)
    requires PassFacts(pre, r, 1, 4, false)
    requires r[1].doors.Has(W) && r[4].doors.Has(N)
    ensures r[0] == TemplateBlock(0).(isRoom := true, doors := ClosedDoors.Open(S))
    ensures !r[0].doors.Has(E)
    ensures !DoorsReciprocal(r)
  {
    CornerSlots();
    EndOpensOntoCorner(r);
    assert PassOutcome(pre, 0, r[0], false);
    LastOpeningWins(pre, r, 1, 4, 0);
    OpenedClosedDoor(S, E);
    SlotOf(0, 0, 1);
    assert !DoorTowards(r[0], 1);
    NotReciprocal(r, 1, 0);
  }

  /** The neighbour rows the example needs: block 0's list, and the first
      entries of blocks 1 and 4, which both lead to block 0. */
  lemma CornerSlots()
    ensures AdjacentBlocks(0) == [Adjacent(1, E), Adjacent(4, S)]
    ensures AdjacentBlocks(1)[0] == Adjacent(0, W)
    ensures AdjacentBlocks(4)[0] == Adjacent(0, N)
  {
  }

  /** A door with no door back breaks the matching of doors. */
  lemma NotReciprocal(level: seq<Block>, i: BlockIndex, k: nat)
    requires WellFormed(level) && k < |AdjacentBlocks(i)|
    requires level[i].doors.Has(AdjacentBlocks(i)[k].direction)
    requires !DoorTowards(level[AdjacentBlocks(i)[k].index], i)
    ensures !DoorsReciprocal(level)
  {
  }

  /** The doors towards the drawn neighbour slots of the start and end rooms are open. */
  lemma SlotDoorsOpen(prior: Option<PriorRoom>, d: Draws, keep: bool)
    requires ValidDraws(prior, d)
    ensures var r, s, e := Generated(prior, d, keep), StartIndex(prior, d), EndIndex(d);
      && r[s].doors.Has(AdjacentBlocks(s)[d.startSlot].direction)
      && r[e].doors.Has(AdjacentBlocks(e)[d.endSlot].direction)
  {
    StartRoomDoors(prior, d, keep);
    EndRoomDoors(prior, d, keep);
  }

  /** The generated level, as written, for any draws that put the start room
      at block 1 and the end room at block 4, each opening its first slot,
      has a door with no door back. */
  lemma LosesReturnDoor(prior: Option<PriorRoom>, d: Draws)
    requires ValidDraws(prior, d)
    requires StartIndex(prior, d) == 1 && EndIndex(d) == 4
    requires d.startSlot == 0 && d.endSlot == 0
    ensures !DoorsReciprocal(GenerateLevel(prior, d))
  {
    SlotDoorsOpen(prior, d, false);
    CornerSlots();
    GeneratedPassFacts(prior, d, false);
    CornerLosesReturnDoor(SeedLevel(prior, d), GenerateLevel(prior, d));
  }

  /** The draws of the example above: no prior floor, start at perimeter
      entry 1 (block 1), end at perimeter entry 4 (block 4), first slot and
      first wall everywhere. */
  lemma AsWrittenLosesReturnDoor()
    ensures ValidDraws(None, Draws(1, 4, 0, 0, 0))
    ensures !DoorsReciprocal(GenerateLevel(None, Draws(1, 4, 0, 0, 0)))
  {
    ExampleDraws();
    LosesReturnDoor(None, Draws(1, 4, 0, 0, 0));
  }

  /** The draws of the example are valid and place the rooms at blocks 1 and 4. */
  lemma ExampleDraws()
    ensures ValidDraws(None, Draws(1, 4, 0, 0, 0))
    ensures StartIndex(None, Draws(1, 4, 0, 0, 0)) == 1 && EndIndex(Draws(1, 4, 0, 0, 0)) == 4
  {
    StartApartFromEnd();
    EndWalls();
  }

  /** Block 4 is neither block 1 nor one of its neighbours. */
  lemma StartApartFromEnd()
    ensures PerimeterRooms()[1].index == 1 && PerimeterRooms()[4].index == 4
    ensures 4 !in Blocked(1)
  {
    assert AdjacentBlocks(1) == [Adjacent(0, W), Adjacent(2, E), Adjacent(5, S)];
  }

  /** Block 4 has one outer wall, to the west. */
  lemma EndWalls()
    ensures PerimeterWalls(4) == Some([W])
  {
  }
}
