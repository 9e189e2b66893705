/** The two special rooms of a level: the start room, entered from the
    previous floor, and the locked end room leading to the next floor. */
module Rooms {
  import opened Wrappers
  import opened Grid
  import opened Blocks

  /** The room a previous floor was left through: where the new floor starts
      and which wall its connecting door is on. */
  datatype PriorRoom = PriorRoom(index: BlockIndex, levelDoor: Direction)

  /** Turns block `index` of `level` into the start room: a fresh door map,
      the door the prior floor was left through (when there is one), and one
      door towards the neighbour in slot `slot` (the random draw of
      `generateDoors(room, 1)`; every block has at least two neighbours). */
  function CreateStartRoom(level: seq<Block>, index: BlockIndex, prior: Option<PriorRoom>, slot: nat): (r: seq<Block>)
    requires WellFormed(level)
    requires slot < |AdjacentBlocks(index)|
    ensures WellFormed(r)
    ensures forall j: BlockIndex :: j != index ==> r[j] == level[j]
    ensures r[index].isRoom && r[index].startRoom
    ensures r[index] == level[index].(isRoom := true, startRoom := true, doors := r[index].doors,
                                      levelDoor := r[index].levelDoor)
    ensures prior.Some? ==> r[index].levelDoor == Some(prior.value.levelDoor)
    ensures prior.None? ==> r[index].levelDoor == level[index].levelDoor
    ensures forall d :: r[index].doors.Has(d) <==>
      (prior.Some? && d == prior.value.levelDoor) || d == AdjacentBlocks(index)[slot].direction
  {
    var room := MakeRoom(level[index]).(startRoom := true);
    var room := if prior.Some? then
        room.(doors := room.doors.Open(prior.value.levelDoor), levelDoor := Some(prior.value.levelDoor))
      else room;
    var room := GenerateDoors(room, 1, [slot]);
    level[index := room]
  }

  /** The outer walls of block `index` if it is in the perimeter table, as
      `PERIMETER_ROOMS.find(...)?.walls` yields them. */
  function PerimeterWalls(index: BlockIndex): (r: Option<seq<Direction>>)
    ensures r.Some? <==> OnBorder(index)
    ensures r.Some? ==> 1 <= |r.value| <= 2
    ensures r.Some? ==> forall d :: d in r.value <==> Step(index, d).None?
  {
    PerimeterTableIsBorder();
    FindWalls(PerimeterRooms(), index)
  }

  function FindWalls(table: seq<PerimeterRoom>, index: BlockIndex): (r: Option<seq<Direction>>)
    ensures r.Some? <==> exists p :: 0 <= p < |table| && table[p].index == index
    ensures r.Some? ==> exists p :: 0 <= p < |table| && table[p] == PerimeterRoom(index, r.value)
  {
    if |table| == 0 then None
    else if table[0].index == index then Some(table[0].walls)
    else
      var r := FindWalls(table[1..], index);
      assert forall p :: 1 <= p < |table| ==> table[p] == table[1..][p - 1];
      r
  }

  /** The wall draw for the end room is in range: a block with several outer
      walls picks one of them at random, a block with one wall draws nothing. */
  predicate EndWallDrawOk(index: BlockIndex, wallDraw: nat)
  {
    match PerimeterWalls(index)
    case Some(walls) => |walls| > 1 ==> wallDraw < |walls|
    case None => true
  }

  /** The wall of a border end room that gets the door to the next floor. */
  function EndLevelDoor(walls: seq<Direction>, wallDraw: nat): (d: Direction)
    requires 1 <= |walls|
    requires |walls| > 1 ==> wallDraw < |walls|
    ensures d in walls
  {
    if |walls| > 1 then walls[wallDraw] else walls[0]
  }

  /** Turns block `index` of `level` into the locked end room: a fresh door
      map, on a border block a door through one of its outer walls to the
      next floor, and one door towards the neighbour in slot `slot`. */
  function CreateEndRoom(level: seq<Block>, index: BlockIndex, wallDraw: nat, slot: nat): (r: seq<Block>)
    requires WellFormed(level)
    requires EndWallDrawOk(index, wallDraw)
    requires slot < |AdjacentBlocks(index)|
    ensures WellFormed(r)
    ensures forall j: BlockIndex :: j != index ==> r[j] == level[j]
    ensures r[index].isRoom && r[index].endRoom && r[index].locked
    ensures r[index] == level[index].(isRoom := true, endRoom := true, locked := true,
                                      doors := r[index].doors, levelDoor := r[index].levelDoor)
    ensures OnBorder(index) ==>
      && r[index].levelDoor.Some?
      && Step(index, r[index].levelDoor.value).None?
      && forall d :: r[index].doors.Has(d) <==>
           d == r[index].levelDoor.value || d == AdjacentBlocks(index)[slot].direction
    ensures !OnBorder(index) ==>
      && r[index].levelDoor == level[index].levelDoor
      && forall d :: r[index].doors.Has(d) <==> d == AdjacentBlocks(index)[slot].direction
  {
    var room := MakeRoom(level[index]).(endRoom := true, locked := true);
    var room := match PerimeterWalls(index)
      case Some(walls) =>
        var door := EndLevelDoor(walls, wallDraw);
        room.(doors := room.doors.Open(door), levelDoor := Some(door))
      case None => room;
    var room := GenerateDoors(room, 1, [slot]);
    level[index := room]
  }
}
