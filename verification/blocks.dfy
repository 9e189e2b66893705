/** Blocks of a level, the room template, and random door generation. */
module Blocks {
  import opened Wrappers
  import opened Grid

  /** The door flags of a block, one per compass direction. */
  datatype Doors = Doors(n: bool, e: bool, s: bool, w: bool)
  {
    predicate Has(d: Direction)
    {
      match d
      case N => n
      case E => e
      case S => s
      case W => w
    }

    /** The same door map with the door towards `d` open. */
    function Open(d: Direction): (r: Doors)
      ensures r.Has(d)
      ensures forall d' :: d' != d ==> r.Has(d') == Has(d')
    {
      match d
      case N => this.(n := true)
      case E => this.(e := true)
      case S => this.(s := true)
      case W => this.(w := true)
    }
  }

  /** The door map of the room template: every door closed. */
  const ClosedDoors := Doors(false, false, false, false)

  /** One cell of a level. A template block is not a room and has every door
      closed; rooms additionally carry the start/end/locked flags and, on a
      start or end room, the direction of the door to the adjacent floor. */
  datatype Block = Block(
    index: BlockIndex,
    isRoom: bool,
    adjacent: seq<Adjacent>,
    doors: Doors,
    startRoom: bool,
    endRoom: bool,
    locked: bool,
    levelDoor: Option<Direction>)

  /** Entry `i` of the level template. */
  function TemplateBlock(i: BlockIndex): Block
  {
    Block(i, false, AdjacentBlocks(i), ClosedDoors, false, false, false, None)
  }

  /** The level template: sixteen plain blocks carrying the neighbour table. */
  function LevelTemplate(): (r: seq<Block>)
    ensures WellFormed(r)
    ensures forall i: BlockIndex :: !r[i].isRoom && r[i] == TemplateBlock(i)
  {
    seq(16, i requires 0 <= i < 16 => TemplateBlock(i))
  }

  /** A level: sixteen blocks, block `i` at position `i`, each with its own
      row of the neighbour table. */
  predicate WellFormed(level: seq<Block>)
  {
    && |level| == 16
    && forall i: BlockIndex :: level[i].index == i && level[i].adjacent == AdjacentBlocks(i)
  }

  /** Promotes a block to a room the way the source spreads the room template
      over it: a fresh, all-closed door map and the room flag, every other
      field kept. */
  function MakeRoom(b: Block): (r: Block)
    ensures r.isRoom && forall d :: !r.doors.Has(d)
    ensures r == b.(isRoom := true, doors := r.doors)
  {
    b.(isRoom := true, doors := ClosedDoors)
  }

  /** The slots a door request opens: all of them when at least as many doors
      as neighbours are asked for, otherwise the distinct slots drawn. */
  predicate ValidPicks(picks: seq<nat>, numDoors: nat, slotCount: nat)
  {
    && |picks| == numDoors
    && (forall k :: 0 <= k < |picks| ==> picks[k] < slotCount)
    && (forall k, k' :: 0 <= k < k' < |picks| ==> picks[k] != picks[k'])
  }

  function AllSlots(slotCount: nat): (r: seq<nat>)
    ensures |r| == slotCount && forall k :: 0 <= k < slotCount ==> r[k] == k
  {
    seq(slotCount, k => k)
  }

  /** Opens the door of every listed slot of `adj`, in order. */
  function OpenSlots(doors: Doors, adj: seq<Adjacent>, slots: seq<nat>): (r: Doors)
    requires forall k :: 0 <= k < |slots| ==> slots[k] < |adj|
    ensures forall d :: r.Has(d) <==>
      doors.Has(d) || exists k :: 0 <= k < |slots| && adj[slots[k]].direction == d
    decreases |slots|
  {
    if |slots| == 0 then doors
    else
      var r := OpenSlots(doors.Open(adj[slots[0]].direction), adj, slots[1..]);
      assert forall k :: 1 <= k < |slots| ==> slots[k] == slots[1..][k - 1];
      r
  }

  /** Opens `numDoors` doors of `b` towards distinct neighbours: every
      neighbour when `numDoors` reaches the neighbour count, otherwise the
      neighbour slots in `picks`, the distinct draws of the rejection loop
      (see `PickDoorSlots`). */
  function GenerateDoors(b: Block, numDoors: nat, picks: seq<nat>): (r: Block)
    requires numDoors < |b.adjacent| ==> ValidPicks(picks, numDoors, |b.adjacent|)
    ensures r == b.(doors := r.doors)
    ensures forall d :: b.doors.Has(d) ==> r.doors.Has(d)
    ensures forall d :: r.doors.Has(d) && !b.doors.Has(d) ==>
      exists k :: 0 <= k < |b.adjacent| && b.adjacent[k].direction == d
    ensures numDoors >= |b.adjacent| ==>
      forall k :: 0 <= k < |b.adjacent| ==> r.doors.Has(b.adjacent[k].direction)
    ensures numDoors < |b.adjacent| ==> forall d :: r.doors.Has(d) <==>
      b.doors.Has(d) || exists k :: 0 <= k < |picks| && b.adjacent[picks[k]].direction == d
  {
    var slots := if numDoors >= |b.adjacent| then AllSlots(|b.adjacent|) else picks;
    var r := b.(doors := OpenSlots(b.doors, b.adjacent, slots));
    assert numDoors >= |b.adjacent| ==>
      forall k :: 0 <= k < |b.adjacent| ==> r.doors.Has(b.adjacent[k].direction)
    by {
      if numDoors >= |b.adjacent| {
        forall k | 0 <= k < |b.adjacent|
          ensures r.doors.Has(b.adjacent[k].direction)
        {
          assert b.adjacent[slots[k]] == b.adjacent[k];
        }
      }
    }
    r
  }

  /** The distinct values of a sequence. */
  function Elems(s: seq<nat>): set<nat>
  {
    set x | x in s
  }

  /** A sequence without repetitions has as many distinct elements as entries. */
  lemma {:induction false} DistinctCardinality(s: seq<nat>)
    requires forall k, k' :: 0 <= k < k' < |s| ==> s[k] != s[k']
    ensures |Elems(s)| == |s|
  {
    if |s| > 0 {
      var t := s[..|s| - 1];
      var last := s[|s| - 1];
      DistinctCardinality(t);
      var st := Elems(t);
      assert Elems(s) == st + {last} by {
        assert s == t + [last];
      }
      assert last !in st;
      assert |st + {last}| == |st| + 1;
    }
  }

  /** The rejection loop of `generateDoors` when fewer doors than neighbours
      are asked for: slot draws are consumed in order, a draw already picked
      is discarded, and drawing stops once `numDoors` distinct slots are held.
      `draws` stands for the successive random slot draws; it must hold
      enough distinct values for the loop to finish. */
  method PickDoorSlots(numDoors: nat, slotCount: nat, draws: seq<nat>) returns (picks: seq<nat>, used: nat)
    requires numDoors < slotCount
    requires forall j :: 0 <= j < |draws| ==> draws[j] < slotCount
    requires numDoors <= |Elems(draws)|
    ensures ValidPicks(picks, numDoors, slotCount)
    ensures used <= |draws|
    ensures Elems(picks) == Elems(draws[..used])
    ensures numDoors == 0 ==> used == 0
    ensures numDoors > 0 ==> 0 < used && draws[used - 1] !in draws[..used - 1]
  {
    picks := [];
    used := 0;
    while |picks| < numDoors
      invariant used <= |draws|
      invariant |picks| <= numDoors
      invariant forall k :: 0 <= k < |picks| ==> picks[k] < slotCount
      invariant forall k, k' :: 0 <= k < k' < |picks| ==> picks[k] != picks[k']
      invariant Elems(picks) == Elems(draws[..used])
      invariant numDoors == 0 ==> used == 0
      invariant numDoors > 0 && |picks| == numDoors ==> 0 < used && draws[used - 1] !in draws[..used - 1]
      decreases |draws| - used
    {
      if used == |draws| {
        assert draws[..used] == draws;
        DistinctCardinality(picks);
        assert false;
      }
      var slot := draws[used];
      assert draws[..used + 1] == draws[..used] + [slot];
      assert Elems(draws[..used + 1]) == Elems(draws[..used]) + {slot};
      if slot !in picks {
        assert Elems(picks + [slot]) == Elems(picks) + {slot};
        assert slot !in Elems(draws[..used]);
        picks := picks + [slot];
      }
      used := used + 1;
      assert draws[..used - 1] == draws[..used][..used - 1];
    }
  }
}
