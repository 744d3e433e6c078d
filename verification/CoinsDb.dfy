/** The coin database: entries go to disk in batches, and marks tell a disk between two batches from a finished one. */
module CoinsDb {
  import opened CoinsModel

  /** A block hash, zero standing for the null hash. */
  type Block = nat

  /** What is on disk: the unspent coins, the best block or null, the two ends of a transition or nothing. */
  datatype Disk = Disk(coins: View, best: Block, heads: seq<Block>)

  datatype Mark = EraseBest | WriteBest(b: Block) | EraseHeads | WriteHeads(heads: seq<Block>)

  /** Coins to write, the spent ones to erase, and marks; written as a whole or not at all. */
  datatype Batch = Batch(coins: map<OutPoint, Coin>, marks: seq<Mark>)

  function Changed(v: View, changes: map<OutPoint, Coin>): View {
    map o | o in v.Keys + changes.Keys && (o in changes ==> changes[o].Unspent?) ::
      if o in changes then changes[o] else v[o]
  }

  function Marked(d: Disk, marks: seq<Mark>): Disk {
    if marks == [] then d
    else
      var n := |marks| - 1;
      var e := Marked(d, marks[..n]);
      match marks[n]
      case EraseBest => e.(best := 0)
      case WriteBest(b) => e.(best := b)
      case EraseHeads => e.(heads := [])
      case WriteHeads(heads) => e.(heads := heads)
  }

  function Applied(d: Disk, batch: Batch): Disk {
    Marked(d.(coins := Changed(d.coins, batch.coins)), batch.marks)
  }

  /** The coins with the dirty ones of these entries written or erased. */
  ghost function Dirtied(v: View, coins: CoinsMap): View {
    map o | o in v.Keys + coins.Keys && (o in coins && coins[o].isDirty ==> coins[o].coin.Unspent?) &&
            (o in v || coins[o].isDirty) ::
      if o in coins && coins[o].isDirty then coins[o].coin else v[o]
  }

  ghost function Part(coins: CoinsMap, done: set<OutPoint>): CoinsMap {
    map o | o in coins && o in done :: coins[o]
  }

  /** With honest flags the dirty entries alone make the database show what the cache showed. */
  lemma DirtiedShows(v: View, coins: CoinsMap)
    requires Proper(v) && HonestAll(coins, v)
    ensures Dirtied(v, coins) == Overlay(v, coins)
  {
    forall o ensures Lookup(Dirtied(v, coins), o) == Lookup(Overlay(v, coins), o) {
      OverlayAt(v, coins, o);
    }
    SameView(Dirtied(v, coins), Overlay(v, coins));
  }

  // ---- in the middle of a transition

  /** A disk between two batches: no best block, the ends of the transition, and some of the entries written. */
  ghost predicate Midway(d: Disk, v: View, coins: CoinsMap, hashBlock: Block, oldTip: Block) {
    && d.best == 0 && d.heads == [hashBlock, oldTip]
    && exists done :: done <= coins.Keys && d.coins == Dirtied(v, Part(coins, done))
  }

  lemma DirtiedAgain(v: View, coins: CoinsMap, done: set<OutPoint>)
    ensures Dirtied(Dirtied(v, Part(coins, done)), coins) == Dirtied(v, coins)
  {}

  /** Whatever part of the entries had reached the disk, writing all of them once more gives the disk that writing them
      without interruption gives, and the transition is still known to come from the same block. */
  lemma WritingAgain(d: Disk, v: View, coins: CoinsMap, hashBlock: Block, oldTip: Block)
    requires Midway(d, v, coins, hashBlock, oldTip) && hashBlock != 0
    ensures Dirtied(d.coins, coins) == Dirtied(v, coins)
    ensures MayWrite(d, hashBlock) && OldTip(d) == oldTip
  {
    var done :| done <= coins.Keys && d.coins == Dirtied(v, Part(coins, done));
    DirtiedAgain(v, coins, done);
  }

  /** Every coin of a disk in transition is the old one or the new one. */
  lemma MidwayMixes(d: Disk, v: View, coins: CoinsMap, hashBlock: Block, oldTip: Block, o: OutPoint)
    requires Midway(d, v, coins, hashBlock, oldTip)
    ensures Lookup(d.coins, o) == Lookup(v, o) || Lookup(d.coins, o) == Lookup(Dirtied(v, coins), o)
  {}

  /** The block a transition comes from. */
  function OldTip(d: Disk): Block {
    if d.best == 0 && |d.heads| == 2 then d.heads[1] else d.best
  }

  /** A transition that was interrupted is only ever finished to the same block. */
  predicate MayWrite(d: Disk, hashBlock: Block) {
    hashBlock != 0 && (d.best == 0 && |d.heads| == 2 ==> d.heads[0] == hashBlock)
  }

  // ---- the loop

  ghost predicate Pending(v: View, coins: CoinsMap, done: set<OutPoint>, d: Disk, changes: map<OutPoint, Coin>) {
    done <= coins.Keys && Changed(d.coins, changes) == Dirtied(v, Part(coins, done))
  }

  lemma NothingPending(v: View, coins: CoinsMap, d: Disk)
    requires d.coins == v
    ensures Pending(v, coins, {}, d, map[])
  {}

  lemma ChangedOneMore(v: View, changes: map<OutPoint, Coin>, o: OutPoint, coin: Coin)
    ensures Changed(v, changes[o := coin]) ==
              if coin.Spent? then Changed(v, changes) - {o} else Changed(v, changes)[o := coin]
  {}

  lemma OneMorePending(v: View, coins: CoinsMap, done: set<OutPoint>, d: Disk, changes: map<OutPoint, Coin>,
                       o: OutPoint)
    requires Pending(v, coins, done, d, changes) && o in coins && o !in done
    ensures Pending(v, coins, done + {o}, d, if coins[o].isDirty then changes[o := coins[o].coin] else changes)
  {
    hide Changed, Dirtied, Part;
    ChangedOneMore(d.coins, changes, o, coins[o].coin);
    DirtiedOneMore(v, coins, done, o);
  }

  lemma DirtiedOneMore(v: View, coins: CoinsMap, done: set<OutPoint>, o: OutPoint)
    requires o in coins && o !in done
    ensures var was := Dirtied(v, Part(coins, done));
            Dirtied(v, Part(coins, done + {o})) ==
              if !coins[o].isDirty then was else if coins[o].coin.Spent? then was - {o} else was[o := coins[o].coin]
  {}

  lemma FlushedPending(v: View, coins: CoinsMap, done: set<OutPoint>, d: Disk, changes: map<OutPoint, Coin>, e: Disk)
    requires Pending(v, coins, done, d, changes) && e.coins == Changed(d.coins, changes)
    ensures Pending(v, coins, done, e, map[])
  {
    assert Changed(e.coins, map[]) == e.coins;
  }

  function Opening(hashBlock: Block, oldTip: Block): seq<Mark> { [EraseBest, WriteHeads([hashBlock, oldTip])] }

  function Closing(hashBlock: Block): seq<Mark> { [EraseHeads, WriteBest(hashBlock)] }

  lemma MarksAre(d: Disk, hashBlock: Block, oldTip: Block)
    ensures Marked(d, []) == d
    ensures Marked(d, Opening(hashBlock, oldTip)) == d.(best := 0, heads := [hashBlock, oldTip])
    ensures Marked(d, Closing(hashBlock)) == d.(best := hashBlock, heads := [])
    ensures Marked(d, Opening(hashBlock, oldTip) + Closing(hashBlock)) == d.(best := hashBlock, heads := [])
  {
    var a, b := Opening(hashBlock, oldTip), Closing(hashBlock);
    assert a[..1] == [EraseBest] && b[..1] == [EraseHeads] && a[..1][..0] == [] && b[..1][..0] == [];
    var c := a + b;
    assert c[..3] == a + [EraseHeads] && c[..3][..2] == a;
  }

  /** The transition is opened by this batch, or has been on disk. */
  ghost predicate Opened(d: Disk, marks: seq<Mark>, hashBlock: Block, oldTip: Block) {
    marks == Opening(hashBlock, oldTip) || (marks == [] && d.best == 0 && d.heads == [hashBlock, oldTip])
  }

  lemma OpenedFirst(d: Disk, hashBlock: Block, oldTip: Block)
    ensures Opened(d, Opening(hashBlock, oldTip), hashBlock, oldTip)
  {}

  /** All disks since were midway. */
  ghost predicate Passed(was: seq<Disk>, seen: seq<Disk>, v: View, coins: CoinsMap, hashBlock: Block, oldTip: Block) {
    && |seen| >= |was| && seen[..|was|] == was
    && forall i :: |was| <= i < |seen| ==> Midway(seen[i], v, coins, hashBlock, oldTip)
  }

  lemma PassedNone(seen: seq<Disk>, v: View, coins: CoinsMap, hashBlock: Block, oldTip: Block)
    ensures Passed(seen, seen, v, coins, hashBlock, oldTip)
  {}

  lemma PassedOneMore(was: seq<Disk>, seen: seq<Disk>, v: View, coins: CoinsMap, hashBlock: Block, oldTip: Block,
                      d: Disk)
    requires Passed(was, seen, v, coins, hashBlock, oldTip) && Midway(d, v, coins, hashBlock, oldTip)
    ensures Passed(was, seen + [d], v, coins, hashBlock, oldTip)
  {
    hide Midway;
    assert (seen + [d])[..|was|] == seen[..|was|];
  }

  lemma PassedAre(was: seq<Disk>, seen: seq<Disk>, v: View, coins: CoinsMap, hashBlock: Block, oldTip: Block)
    requires Passed(was, seen, v, coins, hashBlock, oldTip)
    ensures |seen| >= |was| && seen[..|was|] == was
    ensures forall i :: |was| <= i < |seen| ==> Midway(seen[i], v, coins, hashBlock, oldTip)
  {}

  class CoinsViewDB {
    var disk: Disk
    ghost var seen: seq<Disk>      // every disk a crash could have left, in order

    constructor (d: Disk)
      ensures disk == d && seen == [d]
    {
      disk, seen := d, [d];
    }

    method WriteBatch(batch: Batch)
      modifies this
      ensures disk == Applied(old(disk), batch) && seen == old(seen) + [disk]
    {
      disk := Applied(disk, batch);
      seen := seen + [disk];
    }

    /** Writes the dirty entries; full says after which entry the batch has grown too large and is written. Every disk
        on the way is midway between the old one and the new, so a disk with a best block is one or the other. */
    method BatchWrite(mapCoins: CoinsMap, hashBlock: Block, full: nat -> bool)
      requires MayWrite(disk, hashBlock)
      modifies this
      ensures disk == Disk(Dirtied(old(disk.coins), mapCoins), hashBlock, [])
      ensures |seen| > |old(seen)| && seen[..|old(seen)|] == old(seen) && seen[|seen| - 1] == disk
      ensures forall i :: |old(seen)| <= i < |seen| - 1 ==>
                Midway(seen[i], old(disk.coins), mapCoins, hashBlock, old(OldTip(disk)))
    {
      hide Changed, Dirtied, Part, Midway, Marked, Pending, Opened, Passed, Applied;
      ghost var v := disk.coins;
      var oldTip := OldTip(disk);
      var batch := Batch(map[], Opening(hashBlock, oldTip));
      var todo, count := mapCoins, 0;
      ghost var done: set<OutPoint> := {};
      NothingPending(v, mapCoins, disk);
      OpenedFirst(disk, hashBlock, oldTip);
      PassedNone(seen, v, mapCoins, hashBlock, oldTip);
      while todo != map[]
        invariant todo.Keys == mapCoins.Keys - done && done <= mapCoins.Keys
        invariant forall o :: o in todo ==> todo[o] == mapCoins[o]
        invariant Pending(v, mapCoins, done, disk, batch.coins)
        invariant Opened(disk, batch.marks, hashBlock, oldTip)
        invariant Passed(old(seen), seen, v, mapCoins, hashBlock, oldTip)
        decreases |todo|
      {
        var o :| o in todo;
        OneMorePending(v, mapCoins, done, disk, batch.coins, o);
        if todo[o].isDirty { batch := batch.(coins := batch.coins[o := todo[o].coin]); }
        todo := todo - {o};
        done := done + {o};
        count := count + 1;
        if full(count) {
          WrittenMidway(v, mapCoins, done, disk, batch, hashBlock, oldTip);
          PassedOneMore(old(seen), seen, v, mapCoins, hashBlock, oldTip, Applied(disk, batch));
          WriteBatch(batch);
          batch := Batch(map[], []);
        }
      }
      assert done == mapCoins.Keys;
      WrittenWhole(v, mapCoins, done, disk, batch, hashBlock, oldTip);
      PassedAre(old(seen), seen, v, mapCoins, hashBlock, oldTip);
      batch := batch.(marks := batch.marks + Closing(hashBlock));
      WriteBatch(batch);
    }
  }

  lemma WrittenMidway(v: View, coins: CoinsMap, done: set<OutPoint>, d: Disk, batch: Batch, hashBlock: Block,
                      oldTip: Block)
    requires Pending(v, coins, done, d, batch.coins) && Opened(d, batch.marks, hashBlock, oldTip)
    ensures Midway(Applied(d, batch), v, coins, hashBlock, oldTip)
    ensures Pending(v, coins, done, Applied(d, batch), map[]) && Opened(Applied(d, batch), [], hashBlock, oldTip)
  {
    MarksAre(d.(coins := Changed(d.coins, batch.coins)), hashBlock, oldTip);
    hide Changed, Dirtied, Part, Marked;
    FlushedPending(v, coins, done, d, batch.coins, Applied(d, batch));
  }

  lemma WrittenWhole(v: View, coins: CoinsMap, done: set<OutPoint>, d: Disk, batch: Batch, hashBlock: Block,
                     oldTip: Block)
    requires Pending(v, coins, done, d, batch.coins) && done == coins.Keys && Opened(d, batch.marks, hashBlock, oldTip)
    ensures Applied(d, batch.(marks := batch.marks + Closing(hashBlock))) == Disk(Dirtied(v, coins), hashBlock, [])
  {
    MarksAre(d.(coins := Changed(d.coins, batch.coins)), hashBlock, oldTip);
    assert [] + Closing(hashBlock) == Closing(hashBlock);
    assert Part(coins, coins.Keys) == coins;
    hide Changed, Dirtied, Part, Marked;
  }

  /** A disk left by a crash at any point of writing the entries over a finished disk: with a best block it is the old
      disk or the new one, without it writing the entries again gives the new one. */
  lemma CrashIsHarmless(was: Disk, coins: CoinsMap, hashBlock: Block, d: Disk)
    requires was.best != 0 && hashBlock != 0
    requires d == was || d == Disk(Dirtied(was.coins, coins), hashBlock, []) ||
               Midway(d, was.coins, coins, hashBlock, was.best)
    ensures d.best != 0 ==> d == was || d == Disk(Dirtied(was.coins, coins), hashBlock, [])
    ensures d.best == 0 ==>
              MayWrite(d, hashBlock) && OldTip(d) == was.best && Dirtied(d.coins, coins) == Dirtied(was.coins, coins)
  {
    if d.best == 0 { WritingAgain(d, was.coins, coins, hashBlock, was.best); }
  }
}
