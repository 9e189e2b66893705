/** What the forward pass of the level generator does to each block,
    proved for the pass as written and for the corrected pass alike. */
module Pass {
  import opened Wrappers
  import opened Grid
  import opened Blocks
  import opened Level

  /** Neighbour slot `k` of block `i` is a room of `pre` whose door towards `i` is open. */
  predicate Trigger(pre: seq<Block>, i: BlockIndex, k: nat)
    requires WellFormed(pre) && k < |AdjacentBlocks(i)|
  {
    var n := AdjacentBlocks(i)[k].index;
    pre[n].isRoom && DoorTowards(pre[n], i)
  }

  /** The trigger flags of the neighbour slots of block `i` in `pre`. */
  function TriggerFlags(pre: seq<Block>, i: BlockIndex): (r: seq<bool>)
    requires WellFormed(pre)
    ensures |r| == |AdjacentBlocks(i)|
    ensures forall k :: 0 <= k < |r| ==> r[k] == Trigger(pre, i, k)
  {
    seq(|AdjacentBlocks(i)|, k requires 0 <= k < |AdjacentBlocks(i)| => Trigger(pre, i, k))
  }

  /** Block `i` as the pass leaves it once slots `0..k-1` are scanned, given
      which slots trigger it: it is a room exactly when some scanned slot
      triggers; as written its only open door leads to the last trigger, and
      with `keep` it has a door towards every trigger and no other. Nothing
      else of the template block changes. */
  predicate ScannedTo(i: BlockIndex, trig: seq<bool>, b: Block, k: nat, keep: bool)
    requires |trig| == |AdjacentBlocks(i)| && k <= |trig|
  {
    var adj := AdjacentBlocks(i);
    && b == TemplateBlock(i).(isRoom := b.isRoom, doors := b.doors)
    && (b.isRoom <==> exists k0 :: 0 <= k0 < k && trig[k0])
    && (!b.isRoom ==> b.doors == ClosedDoors)
    && (keep ==> forall dir :: b.doors.Has(dir) <==>
          exists k0 :: 0 <= k0 < k && trig[k0] && adj[k0].direction == dir)
    && (!keep && b.isRoom ==>
          exists k0 :: 0 <= k0 < k && trig[k0]
            && (forall k1 :: k0 < k1 < k ==> !trig[k1])
            && b.doors == ClosedDoors.Open(adj[k0].direction))
  }

  /** Block `i` after its whole visit, judged against the level `pre` the pass started from. */
  predicate PassOutcome(pre: seq<Block>, i: BlockIndex, b: Block, keep: bool)
    requires WellFormed(pre)
  {
    ScannedTo(i, TriggerFlags(pre, i), b, |AdjacentBlocks(i)|, keep)
  }

  /** The level the pass starts from: only the start and end blocks differ
      from the template. */
  predicate Seeded(pre: seq<Block>, s: BlockIndex, e: BlockIndex)
  {
    && WellFormed(pre)
    && s != e
    && forall j: BlockIndex :: j != s && j != e ==> pre[j] == TemplateBlock(j)
  }

  /** The level when the visit of block `i` is about to begin (blocks other than `skip`). */
  predicate Settled(pre: seq<Block>, level: seq<Block>, i: nat, skip: nat, s: BlockIndex, e: BlockIndex, keep: bool)
    requires WellFormed(pre)
  {
    && WellFormed(level)
    && level[s] == pre[s] && level[e] == pre[e]
    && forall j: BlockIndex :: j != s && j != e && j != skip ==>
         if j < i then PassOutcome(pre, j, level[j], keep) else level[j] == TemplateBlock(j)
  }

  /** The template's closed door map with one door opened has exactly that door open. */
  lemma OpenedClosedDoor(d: Direction, d': Direction)
    ensures ClosedDoors.Open(d).Has(d') <==> d == d'
  {
  }

  /** Every open door of a block the pass visited leads to a block that triggered it. */
  lemma OpenDoorIsTrigger(pre: seq<Block>, n: BlockIndex, b: Block, keep: bool, k: nat)
    requires WellFormed(pre) && PassOutcome(pre, n, b, keep)
    requires k < |AdjacentBlocks(n)|
    ensures b.doors.Has(AdjacentBlocks(n)[k].direction) ==> Trigger(pre, n, k)
  {
    var adj := AdjacentBlocks(n);
    if b.doors.Has(adj[k].direction) {
      var k0: nat;
      if keep {
        k0 :| 0 <= k0 < |adj| && TriggerFlags(pre, n)[k0] && adj[k0].direction == adj[k].direction;
      } else {
        k0 :| 0 <= k0 < |adj| && TriggerFlags(pre, n)[k0] && b.doors == ClosedDoors.Open(adj[k0].direction);
        OpenedClosedDoor(adj[k0].direction, adj[k].direction);
      }
      assert k0 == k;
    }
  }

  /** A room the pass creates never has a door towards another block the
      pass visits, so it never triggers a later block. */
  lemma CreatedRoomsDoNotTrigger(pre: seq<Block>, s: BlockIndex, e: BlockIndex,
                                 n: BlockIndex, i: BlockIndex, b: Block, keep: bool)
    requires Seeded(pre, s, e)
    requires i != s && i != e
    requires PassOutcome(pre, n, b, keep)
    ensures !(b.isRoom && DoorTowards(b, i))
  {
    var adj := AdjacentBlocks(n);
    assert b.adjacent == adj;
    var found := Find(adj, i);
    if found.Some? {
      var ka :| 0 <= ka < |adj| && adj[ka] == found.value;
      assert pre[i] == TemplateBlock(i);
      OpenDoorIsTrigger(pre, n, b, keep, ka);
    }
  }

  /** During the visit of `i`, a neighbour triggers `i` exactly when it did
      in the level the pass started from: created rooms never trigger, and
      blocks not yet visited are still template blocks. */
  lemma TriggerUnchanged(pre: seq<Block>, s: BlockIndex, e: BlockIndex,
                         level: seq<Block>, i: BlockIndex, k: nat, keep: bool)
    requires Seeded(pre, s, e) && i != s && i != e
    requires Settled(pre, level, i, i, s, e, keep)
    requires k < |AdjacentBlocks(i)|
    ensures var n := AdjacentBlocks(i)[k].index;
      (level[n].isRoom && DoorTowards(level[n], i)) == Trigger(pre, i, k)
  {
    var info := AdjacentBlocks(i)[k];
    var n := info.index;
    assert Step(i, info.direction) == Some(n);
    if n != s && n != e && n < i {
      CreatedRoomsDoNotTrigger(pre, s, e, n, i, level[n], keep);
    }
  }

  /** A triggering slot turns the block into a room with the door towards it open. */
  lemma ScanStepTrigger(i: BlockIndex, trig: seq<bool>, b: Block, k: nat, keep: bool)
    requires |trig| == |AdjacentBlocks(i)| && k < |trig|
    requires ScannedTo(i, trig, b, k, keep)
    requires trig[k]
    ensures ScannedTo(i, trig, Rebuild(b, AdjacentBlocks(i)[k].direction, keep), k + 1, keep)
  {
    var adj := AdjacentBlocks(i);
    var b' := Rebuild(b, adj[k].direction, keep);
    if keep {
      forall dir
        ensures b'.doors.Has(dir) <==>
          exists k0 :: 0 <= k0 < k + 1 && trig[k0] && adj[k0].direction == dir
      {
        if dir != adj[k].direction && b'.doors.Has(dir) {
          assert b.doors.Has(dir);
        }
      }
    }
  }

  /** A slot that does not trigger leaves the block as it is. */
  lemma ScanStepQuiet(i: BlockIndex, trig: seq<bool>, b: Block, k: nat, keep: bool)
    requires |trig| == |AdjacentBlocks(i)| && k < |trig|
    requires ScannedTo(i, trig, b, k, keep)
    requires !trig[k]
    ensures ScannedTo(i, trig, b, k + 1, keep)
  {
    var adj := AdjacentBlocks(i);
    if !keep && b.isRoom {
      var k0 :| 0 <= k0 < k && trig[k0]
        && (forall k1 :: k0 < k1 < k ==> !trig[k1])
        && b.doors == ClosedDoors.Open(adj[k0].direction);
      assert forall k1 :: k0 < k1 < k + 1 ==> !trig[k1];
    }
  }

  /** One slot of the neighbour loop, unfolded. */
  lemma ScanUnfold(level: seq<Block>, i: BlockIndex, block: Block, k: nat, keep: bool)
    requires WellFormed(level) && k < |AdjacentBlocks(i)|
    ensures var n := AdjacentBlocks(i)[k].index;
      var hit := level[n].isRoom && DoorTowards(level[n], i) && !block.isRoom;
      Scan(level, i, block, k, keep)
        == Scan(if hit then level[i := Rebuild(level[i], AdjacentBlocks(i)[k].direction, keep)] else level,
                i, block, k + 1, keep)
  {
  }

  /** Replacing block `i` keeps the other blocks settled. */
  lemma SettledUpdate(pre: seq<Block>, level: seq<Block>, i: BlockIndex, s: BlockIndex, e: BlockIndex,
                      keep: bool, b: Block)
    requires WellFormed(pre) && i != s && i != e
    requires Settled(pre, level, i, i, s, e, keep)
    requires b.index == i && b.adjacent == AdjacentBlocks(i)
    ensures Settled(pre, level[i := b], i, i, s, e, keep)
  {
    var level' := level[i := b];
    forall j: BlockIndex | j != s && j != e && j != i
      ensures if j < i then PassOutcome(pre, j, level'[j], keep) else level'[j] == TemplateBlock(j)
    {
      assert level'[j] == level[j];
    }
  }

  /** The level after slot `k` of the visit of block `i`: rebuilt around
      the door towards that slot exactly when the slot triggers. */
  function ScanStepLevel(pre: seq<Block>, level: seq<Block>, i: BlockIndex, k: nat, keep: bool): (r: seq<Block>)
    requires WellFormed(pre) && WellFormed(level) && k < |AdjacentBlocks(i)|
    ensures WellFormed(r)
    ensures forall j: BlockIndex :: j != i ==> r[j] == level[j]
  {
    if Trigger(pre, i, k) then level[i := Rebuild(level[i], AdjacentBlocks(i)[k].direction, keep)] else level
  }

  /** The level after one slot of the neighbour loop is again settled and
      scanned one slot further. */
  lemma ScanOutcomeStep(pre: seq<Block>, s: BlockIndex, e: BlockIndex,
                        level: seq<Block>, i: BlockIndex, k: nat, keep: bool)
    requires Seeded(pre, s, e) && i != s && i != e
    requires Settled(pre, level, i, i, s, e, keep)
    requires k < |AdjacentBlocks(i)|
    requires ScannedTo(i, TriggerFlags(pre, i), level[i], k, keep)
    ensures var level' := ScanStepLevel(pre, level, i, k, keep);
      && Settled(pre, level', i, i, s, e, keep)
      && ScannedTo(i, TriggerFlags(pre, i), level'[i], k + 1, keep)
  {
    var adj := AdjacentBlocks(i);
    if Trigger(pre, i, k) {
      ScanStepTrigger(i, TriggerFlags(pre, i), level[i], k, keep);
      SettledUpdate(pre, level, i, s, e, keep, Rebuild(level[i], adj[k].direction, keep));
    } else {
      ScanStepQuiet(i, TriggerFlags(pre, i), level[i], k, keep);
    }
  }

  /** One slot of the visit of an unvisited block behaves as its trigger dictates. */
  lemma ScanAdvance(pre: seq<Block>, s: BlockIndex, e: BlockIndex,
                    level: seq<Block>, i: BlockIndex, k: nat, keep: bool)
    requires Seeded(pre, s, e) && i != s && i != e
    requires Settled(pre, level, i, i, s, e, keep)
    requires k < |AdjacentBlocks(i)|
    ensures Scan(level, i, TemplateBlock(i), k, keep)
         == Scan(ScanStepLevel(pre, level, i, k, keep), i, TemplateBlock(i), k + 1, keep)
  {
    TriggerUnchanged(pre, s, e, level, i, k, keep);
    ScanUnfold(level, i, TemplateBlock(i), k, keep);
  }

  /** The visit of block `i` from slot `k` on: it ends in the outcome its
      triggers dictate and leaves the other blocks settled. */
  lemma {:induction false} ScanOutcome(pre: seq<Block>, s: BlockIndex, e: BlockIndex,
                                       level: seq<Block>, i: BlockIndex, k: nat, keep: bool)
    requires Seeded(pre, s, e) && i != s && i != e
    requires Settled(pre, level, i, i, s, e, keep)
    requires k <= |AdjacentBlocks(i)|
    requires ScannedTo(i, TriggerFlags(pre, i), level[i], k, keep)
    ensures Settled(pre, Scan(level, i, TemplateBlock(i), k, keep), i, i, s, e, keep)
    ensures PassOutcome(pre, i, Scan(level, i, TemplateBlock(i), k, keep)[i], keep)
    decreases |AdjacentBlocks(i)| - k
  {
    if k < |AdjacentBlocks(i)| {
      var level' := ScanStepLevel(pre, level, i, k, keep);
      ScanAdvance(pre, s, e, level, i, k, keep);
      ScanOutcomeStep(pre, s, e, level, i, k, keep);
      ScanOutcome(pre, s, e, level', i, k + 1, keep);
    } else {
      ScanDone(level, i, TemplateBlock(i), k, keep);
    }
  }

  /** The neighbour loop stops after the last slot. */
  lemma ScanDone(level: seq<Block>, i: BlockIndex, block: Block, k: nat, keep: bool)
    requires WellFormed(level) && k == |AdjacentBlocks(i)|
    ensures Scan(level, i, block, k, keep) == level
  {
    assert level[i].adjacent == AdjacentBlocks(i);
  }

  /** A block about to be visited is a template block, and the blocks
      before it are settled. */
  lemma SettledOpen(pre: seq<Block>, level: seq<Block>, i: BlockIndex, s: BlockIndex, e: BlockIndex, keep: bool)
    requires WellFormed(pre) && i != s && i != e
    requires Settled(pre, level, i, 16, s, e, keep)
    ensures Settled(pre, level, i, i, s, e, keep)
    ensures level[i] == TemplateBlock(i)
    ensures ScannedTo(i, TriggerFlags(pre, i), level[i], 0, keep)
  {
  }

  /** A visited block in its final state settles it. */
  lemma SettledClose(pre: seq<Block>, level: seq<Block>, i: BlockIndex, s: BlockIndex, e: BlockIndex, keep: bool)
    requires WellFormed(pre) && i != s && i != e
    requires Settled(pre, level, i, i, s, e, keep)
    requires PassOutcome(pre, i, level[i], keep)
    ensures Settled(pre, level, i + 1, 16, s, e, keep)
  {
  }

  /** Skipping the start or end block keeps the level settled. */
  lemma SettledSkip(pre: seq<Block>, level: seq<Block>, i: BlockIndex, s: BlockIndex, e: BlockIndex, keep: bool)
    requires WellFormed(pre) && (i == s || i == e)
    requires Settled(pre, level, i, 16, s, e, keep)
    ensures Settled(pre, level, i + 1, 16, s, e, keep)
  {
  }

  /** The visit of a block that is neither the start nor the end. */
  lemma VisitIsScan(level: seq<Block>, i: BlockIndex, s: BlockIndex, e: BlockIndex, keep: bool)
    requires WellFormed(level) && i != s && i != e
    requires level[i] == TemplateBlock(i)
    ensures Visit(level, i, s, e, keep) == Scan(level, i, TemplateBlock(i), 0, keep)
  {
  }

  /** The pass from block `i` on leaves every block settled. */
  lemma {:induction false} PassFromOutcome(pre: seq<Block>, s: BlockIndex, e: BlockIndex,
                                           level: seq<Block>, i: nat, keep: bool)
    requires Seeded(pre, s, e) && i <= 16
    requires Settled(pre, level, i, 16, s, e, keep)
    ensures Settled(pre, PassFrom(level, i, s, e, keep), 16, 16, s, e, keep)
    decreases 16 - i
  {
    if i < 16 {
      var level' := Visit(level, i, s, e, keep);
      if i == s || i == e {
        SettledSkip(pre, level, i, s, e, keep);
      } else {
        SettledOpen(pre, level, i, s, e, keep);
        VisitIsScan(level, i, s, e, keep);
        ScanOutcome(pre, s, e, level, i, 0, keep);
        SettledClose(pre, level', i, s, e, keep);
      }
      PassFromOutcome(pre, s, e, level', i + 1, keep);
    }
  }

  /** The seeded level differs from the template only at the start and end blocks. */
  lemma SeedLevelIsSeeded(prior: Option<Rooms.PriorRoom>, d: Draws)
    requires ValidDraws(prior, d)
    ensures Seeded(SeedLevel(prior, d), StartIndex(prior, d), EndIndex(d))
  {
  }

  /** The whole pass: the start and end rooms come out as they went in, and
      every other block is what `PassOutcome` describes. */
  lemma PassResult(prior: Option<Rooms.PriorRoom>, d: Draws, keep: bool)
    requires ValidDraws(prior, d)
    ensures var pre, s, e := SeedLevel(prior, d), StartIndex(prior, d), EndIndex(d);
      var r := PassFrom(pre, 0, s, e, keep);
      && r[s] == pre[s] && r[e] == pre[e]
      && forall j: BlockIndex :: j != s && j != e ==> PassOutcome(pre, j, r[j], keep)
  {
    var pre, s, e := SeedLevel(prior, d), StartIndex(prior, d), EndIndex(d);
    SeedLevelIsSeeded(prior, d);
    PassFromOutcome(pre, s, e, pre, 0, keep);
  }
}
