/** Choice of the end room: a border block that is neither the start block
    nor one of its neighbours, found by redrawing until one qualifies. */
module Placement {
  import opened Wrappers
  import opened Grid

  /** The indices of a neighbour list, in order. */
  function Indices(adj: seq<Adjacent>): (r: seq<BlockIndex>)
    ensures |r| == |adj| && forall k :: 0 <= k < |adj| ==> r[k] == adj[k].index
  {
    if |adj| == 0 then [] else [adj[0].index] + Indices(adj[1..])
  }

  /** The blocks the end room may not occupy: the start block and its neighbours. */
  function Blocked(start: BlockIndex): (r: seq<BlockIndex>)
    ensures |r| <= 5
    ensures forall j: BlockIndex :: j in r <==>
      j == start || exists k :: 0 <= k < |AdjacentBlocks(start)| && AdjacentBlocks(start)[k].index == j
  {
    [start] + Indices(AdjacentBlocks(start))
  }

  /** Perimeter table position `pick` names a block outside `blocked`. */
  predicate Unblocked(blocked: seq<BlockIndex>, pick: nat)
  {
    pick < 12 && PerimeterRooms()[pick].index !in blocked
  }

  /** Perimeter table position `pick` is an acceptable end room for `start`. */
  predicate ValidEndPick(start: BlockIndex, pick: nat)
  {
    Unblocked(Blocked(start), pick)
  }

  /** The redraw loop choosing the end room: the first perimeter draw is
      kept unless it is blocked, in which case the next draw is taken, and so
      on. `blocked` is `Blocked(start)`; `draws` stands for the successive
      draws, one of which must qualify. */
  method ResampleEnd(blocked: seq<BlockIndex>, draws: seq<nat>) returns (pick: nat, used: nat)
    requires forall j :: 0 <= j < |draws| ==> draws[j] < 12
    requires exists j :: 0 <= j < |draws| && Unblocked(blocked, draws[j])
    ensures 0 < used <= |draws| && pick == draws[used - 1]
    ensures Unblocked(blocked, pick)
    ensures forall j :: 0 <= j < used - 1 ==> !Unblocked(blocked, draws[j])
  {
    used := 1;
    pick := draws[0];
    while !Unblocked(blocked, pick)
      invariant 0 < used <= |draws|
      invariant pick == draws[used - 1]
      invariant forall j :: 0 <= j < used - 1 ==> !Unblocked(blocked, draws[j])
      decreases |draws| - used
    {
      var w :| 0 <= w < |draws| && Unblocked(blocked, draws[w]);
      assert used <= w;
      pick := draws[used];
      used := used + 1;
    }
  }

  /** Some acceptable end room exists for every start block, so the redraw
      loop always has something to find: the perimeter corner diagonally
      across the grid is two or more rows away from the start, hence neither
      the start nor one of its neighbours. */
  lemma EndRoomAvailable(start: BlockIndex) returns (p: nat)
    ensures ValidEndPick(start, p)
  {
    var row, col := start / 4, start % 4;
    p := if row < 2 then (if col < 2 then 11 else 8) else (if col < 2 then 3 else 0);
    var corner := PerimeterRooms()[p].index;
    assert corner / 4 == (if row < 2 then 3 else 0);
    forall k | 0 <= k < |AdjacentBlocks(start)|
      ensures AdjacentBlocks(start)[k].index != corner
    {
      var a := AdjacentBlocks(start)[k];
      assert Step(start, a.direction) == Some(a.index);
      assert a.index / 4 - row <= 1 && row - a.index / 4 <= 1;
    }
  }
}
