/** The fixed 4x4 block grid every dungeon level is laid out on:
    compass directions, the neighbour table of the 16 blocks, and the
    border blocks whose outer walls may carry a door to another floor.

    Blocks are numbered row-major:
        0  1  2  3
        4  5  6  7
        8  9 10 11
       12 13 14 15
 */
module Grid {
  import opened Wrappers

  datatype Direction = N | E | S | W

  /** The direction pointing back the way `d` came. */
  function Opposite(d: Direction): (r: Direction)
    ensures r != d
  {
    match d
    case N => S
    case S => N
    case E => W
    case W => E
  }

  type BlockIndex = i: nat | i < 16

  /** One entry of a block's neighbour list: the neighbour's index and the
      direction from the block towards it. */
  datatype Adjacent = Adjacent(index: BlockIndex, direction: Direction)

  /** Reference geometry: the block one step from `i` in direction `d`, or
      None when that step leaves the grid. */
  function Step(i: BlockIndex, d: Direction): Option<BlockIndex>
  {
    match d
    case N => if i >= 4 then Some(i - 4) else None
    case S => if i < 12 then Some(i + 4) else None
    case W => if i % 4 != 0 then Some(i - 1) else None
    case E => if i % 4 != 3 then Some(i + 1) else None
  }

  /** A block lies on the border of the floor when some direction leads off the grid. */
  predicate OnBorder(i: BlockIndex)
  {
    Step(i, N).None? || Step(i, E).None? || Step(i, S).None? || Step(i, W).None?
  }

  predicate DistinctDirections(adj: seq<Adjacent>)
  {
    forall k, k' :: 0 <= k < k' < |adj| ==> adj[k].direction != adj[k'].direction
  }

  /** The neighbour table of the level template, row `i` for block `i`:
      its orthogonal neighbours in ascending index order, each with the
      direction from `i` towards it. */
  const AdjacencyTable: seq<seq<Adjacent>> := [
    [Adjacent(1, E), Adjacent(4, S)],
    [Adjacent(0, W), Adjacent(2, E), Adjacent(5, S)],
    [Adjacent(1, W), Adjacent(3, E), Adjacent(6, S)],
    [Adjacent(2, W), Adjacent(7, S)],
    [Adjacent(0, N), Adjacent(5, E), Adjacent(8, S)],
    [Adjacent(1, N), Adjacent(4, W), Adjacent(6, E), Adjacent(9, S)],
    [Adjacent(2, N), Adjacent(5, W), Adjacent(7, E), Adjacent(10, S)],
    [Adjacent(3, N), Adjacent(6, W), Adjacent(11, S)],
    [Adjacent(4, N), Adjacent(9, E), Adjacent(12, S)],
    [Adjacent(5, N), Adjacent(8, W), Adjacent(10, E), Adjacent(13, S)],
    [Adjacent(6, N), Adjacent(9, W), Adjacent(11, E), Adjacent(14, S)],
    [Adjacent(7, N), Adjacent(10, W), Adjacent(15, S)],
    [Adjacent(8, N), Adjacent(13, E)],
    [Adjacent(9, N), Adjacent(12, W), Adjacent(14, E)],
    [Adjacent(10, N), Adjacent(13, W), Adjacent(15, E)],
    [Adjacent(11, N), Adjacent(14, W)]
  ]

  /** The neighbour list of block `i`. */
  function AdjacentBlocks(i: BlockIndex): (r: seq<Adjacent>)
    ensures 2 <= |r| <= 4
    ensures forall k :: 0 <= k < |r| ==> Step(i, r[k].direction) == Some(r[k].index)
    ensures forall k, k' :: 0 <= k < k' < |r| ==> r[k].index < r[k'].index
    ensures DistinctDirections(r)
  {
    AdjacencyTable[i]
  }

  /** The neighbour table misses no neighbour: every direction that stays on
      the grid appears in the block's list. */
  lemma AdjacencyComplete(i: BlockIndex, d: Direction)
    requires Step(i, d).Some?
    ensures exists k :: 0 <= k < |AdjacentBlocks(i)| && AdjacentBlocks(i)[k].direction == d
  {
    var adj := AdjacentBlocks(i);
    if adj[0].direction == d {
    } else if adj[1].direction == d {
    } else if |adj| > 2 && adj[2].direction == d {
    } else if |adj| > 3 && adj[3].direction == d {
    } else {
      assert false;
    }
  }

  /** The first entry of `adj` naming block `index`, as `find` returns it. */
  function Find(adj: seq<Adjacent>, index: BlockIndex): (r: Option<Adjacent>)
    ensures r.Some? <==> exists k :: 0 <= k < |adj| && adj[k].index == index
    ensures r.Some? ==>
      && r.value.index == index
      && exists k :: 0 <= k < |adj| && adj[k] == r.value
           && forall k' :: 0 <= k' < k ==> adj[k'].index != index
  {
    if |adj| == 0 then None
    else if adj[0].index == index then Some(adj[0])
    else
      var r := Find(adj[1..], index);
      assert forall k :: 1 <= k < |adj| ==> adj[k] == adj[1..][k - 1];
      r
  }

  /** The slot of `AdjacentBlocks(i)` that leads to block `j`, when there is one. */
  lemma SlotOf(i: BlockIndex, k: nat, j: BlockIndex)
    requires k < |AdjacentBlocks(i)| && AdjacentBlocks(i)[k].index == j
    ensures Find(AdjacentBlocks(i), j) == Some(AdjacentBlocks(i)[k])
  {
    var adj := AdjacentBlocks(i);
    var r := Find(adj, j);
    var k0 :| 0 <= k0 < |adj| && adj[k0] == r.value && forall k' :: 0 <= k' < k0 ==> adj[k'].index != j;
    if k0 < k {
    } else if k < k0 {
    }
  }

  /** A step and the opposite step cancel out on the grid. */
  lemma StepSymmetric(i: BlockIndex, d: Direction)
    requires Step(i, d).Some?
    ensures Step(Step(i, d).value, Opposite(d)) == Some(i)
  {
  }

  /** The neighbour table is symmetric: if block `i` lists `j` in direction
      `d`, then `j` lists `i`, and looking `i` up in `j`'s list (as the
      level generator does) finds it in direction `Opposite(d)`. */
  lemma AdjacencySymmetric(i: BlockIndex, k: nat)
    requires k < |AdjacentBlocks(i)|
    ensures Find(AdjacentBlocks(AdjacentBlocks(i)[k].index), i)
      == Some(Adjacent(i, Opposite(AdjacentBlocks(i)[k].direction)))
  {
    var a := AdjacentBlocks(i)[k];
    var back := AdjacentBlocks(a.index);
    StepSymmetric(i, a.direction);
    AdjacencyComplete(a.index, Opposite(a.direction));
    var k' :| 0 <= k' < |back| && back[k'].direction == Opposite(a.direction);
    SlotOf(a.index, k', i);
  }

  /** A border block together with its walls on the outer boundary of the floor. */
  datatype PerimeterRoom = PerimeterRoom(index: BlockIndex, walls: seq<Direction>)

  /** The table of border blocks and their outer walls, in the source's order. */
  function PerimeterRooms(): seq<PerimeterRoom>
  {
    [ PerimeterRoom(0, [N, W]),
      PerimeterRoom(1, [N]),
      PerimeterRoom(2, [N]),
      PerimeterRoom(3, [N, E]),
      PerimeterRoom(4, [W]),
      PerimeterRoom(7, [E]),
      PerimeterRoom(8, [W]),
      PerimeterRoom(11, [E]),
      PerimeterRoom(12, [S, W]),
      PerimeterRoom(13, [S]),
      PerimeterRoom(14, [S]),
      PerimeterRoom(15, [S, E]) ]
  }

  /** Every entry of the perimeter table names a border block, its walls are
      exactly the directions in which that block has no neighbour, no block
      appears twice, and every border block appears. */
  lemma PerimeterTableIsBorder()
    ensures |PerimeterRooms()| == 12
    ensures forall p, d :: 0 <= p < 12 ==>
      (d in PerimeterRooms()[p].walls <==> Step(PerimeterRooms()[p].index, d).None?)
    ensures forall p :: 0 <= p < 12 ==> 1 <= |PerimeterRooms()[p].walls| <= 2
    ensures forall p, q :: 0 <= p < q < 12 ==> PerimeterRooms()[p].index < PerimeterRooms()[q].index
    ensures forall i: BlockIndex :: OnBorder(i) <==> exists p :: 0 <= p < 12 && PerimeterRooms()[p].index == i
  {
    var t := PerimeterRooms();
    forall p, d | 0 <= p < 12
      ensures d in t[p].walls <==> Step(t[p].index, d).None?
    {
      if p == 0 {} else if p == 1 {} else if p == 2 {} else if p == 3 {}
      else if p == 4 {} else if p == 5 {} else if p == 6 {} else if p == 7 {}
      else if p == 8 {} else if p == 9 {} else if p == 10 {} else {}
    }
    forall i: BlockIndex
      ensures OnBorder(i) <==> exists p :: 0 <= p < 12 && t[p].index == i
    {
      if i == 0 { assert t[0].index == i; }
      else if i == 1 { assert t[1].index == i; }
      else if i == 2 { assert t[2].index == i; }
      else if i == 3 { assert t[3].index == i; }
      else if i == 4 { assert t[4].index == i; }
      else if i == 7 { assert t[5].index == i; }
      else if i == 8 { assert t[6].index == i; }
      else if i == 11 { assert t[7].index == i; }
      else if i == 12 { assert t[8].index == i; }
      else if i == 13 { assert t[9].index == i; }
      else if i == 14 { assert t[10].index == i; }
      else if i == 15 { assert t[11].index == i; }
      else {
        assert !OnBorder(i);
        forall p | 0 <= p < 12 ensures t[p].index != i {
          if p == 0 {} else if p == 1 {} else if p == 2 {} else if p == 3 {}
          else if p == 4 {} else if p == 5 {} else if p == 6 {} else if p == 7 {}
          else if p == 8 {} else if p == 9 {} else if p == 10 {} else {}
        }
      }
    }
  }
}
