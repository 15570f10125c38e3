/** The shared objects of the pipeline. Each method is one critical section (or the watch
    loop) and is proved to perform the corresponding step of the state machine. */
module PipelineObjects {
  import opened Chain
  import opened Pipeline
  import opened PipelineInvariant

  class BlockGetter {
    const jobs: nat
    const direction: Direction
    const lowestHeight: int
    var height: int
    var newBlocksMap: map<int, Block>

    /** The object stands for the shared part of state `s`. */
    ghost predicate Represents(c: Config, s: State)
      reads this
    {
      && jobs == c.jobs && direction == c.dir && lowestHeight == c.Lowest()
      && height == s.next && newBlocksMap == s.buf
    }

    constructor (ghost c: Config, initHeight: int, parallelJobs: nat, direction: Direction, stopHeight: nat)
      requires c.init == initHeight && c.jobs == parallelJobs && c.dir == direction && c.stopHeight == stopHeight
      ensures Represents(c, Init(c))
    {
      this.jobs := parallelJobs;
      this.direction := direction;
      this.height := initHeight;
      this.newBlocksMap := map[];
      var lowest := 1;
      if stopHeight > 1 {
        lowest := stopHeight - 1;
      }
      this.lowestHeight := lowest;
    }

    /** Draws the next height for job `j`; in backward direction there may be none left. */
    method GetHeightToFetch(ghost c: Config, ghost s: State, ghost j: nat) returns (h: int, ok: bool)
      requires Inv(c, s) && Represents(c, s) && Enabled(c, s, Draw(j))
      modifies this`height
      ensures Represents(c, Apply(c, s, Draw(j)))
      ensures Apply(c, s, Draw(j)).jobs[j] == if ok then Fetching(h) else Done
      ensures 0 <= height
      ensures ok ==> height == old(height) + (if direction.Forward? then 1 else -1) && h == old(height)
    {
      h := height;
      if direction.Forward? {
        height := height + 1;
      } else {
        if h < lowestHeight {
          return 0, false;
        }
        height := height - 1;
      }
      ok := true;
    }

    /** Stores a fetched block, and decides in the same critical section whether to sleep. */
    method Publish(ghost c: Config, ghost s: State, ghost j: nat, h: int, newBlock: Block) returns (tooFarFromHead: bool)
      requires Represents(c, s) && Enabled(c, s, FetchOk(j)) && s.jobs[j].h == h && newBlock == c.serve(h)
      modifies this`newBlocksMap
      ensures Represents(c, Apply(c, s, FetchOk(j)))
      ensures Apply(c, s, FetchOk(j)).jobs[j] == if tooFarFromHead then Sleeping else Ready
      ensures newBlocksMap == old(newBlocksMap)[h := newBlock]
      ensures tooFarFromHead <==> |newBlocksMap| > 1024 * jobs
    {
      newBlocksMap := newBlocksMap[h := newBlock];
      tooFarFromHead := |newBlocksMap| > 1024 * jobs;
    }

    /** The look a sleeping job takes at the backlog: the step it may make next. */
    method TooFarFromHead(ghost c: Config, ghost s: State, ghost j: nat) returns (tooFarFromHead: bool)
      requires Represents(c, s) && s.watch.halt.Running? && IsJob(s, j) && s.jobs[j].Sleeping?
      ensures Enabled(c, s, if tooFarFromHead then StayAsleep(j) else Wake(j))
      ensures tooFarFromHead <==> |newBlocksMap| > 1024 * jobs
    {
      tooFarFromHead := |newBlocksMap| > 1024 * jobs;
    }

    /** Removes the wanted block from the map, if it is there. */
    method TakeBlock(ghost c: Config, ghost s: State, want: int) returns (ev: Option<Block>)
      requires Represents(c, s) && Enabled(c, s, Look) && s.ann.want == want
      modifies this`newBlocksMap
      ensures Represents(c, Apply(c, s, Look))
      ensures Apply(c, s, Look).ann == if ev.Some? then Sending(want, ev.value) else Parked(want)
      ensures ev.Some? <==> want in old(newBlocksMap)
      ensures ev.Some? ==> ev.value == old(newBlocksMap)[want]
      ensures newBlocksMap == old(newBlocksMap) - {want}
    {
      if want in newBlocksMap {
        ev := Some(newBlocksMap[want]);
        newBlocksMap := newBlocksMap - {want};
      } else {
        ev := None;
      }
    }

    /** The announcer's next height after a send, or none when a backward sync is done. */
    method NextHeight(ghost c: Config, ghost s: State, sent: int) returns (next: Option<int>)
      requires Represents(c, s) && Enabled(c, s, Send) && s.ann.taken == sent
      ensures Apply(c, s, Send).ann == if next.Some? then Looking(next.value) else Finished
    {
      if direction.Forward? {
        next := Some(sent + 1);
      } else if sent <= lowestHeight {
        next := None;
      } else {
        next := Some(sent - 1);
      }
    }
  }

  /** The watch loop run over a list of received blocks; it stops at the first exit. */
  function WatchAll(dir: Direction, w: Watch, received: seq<Block>, handlerOk: int -> bool): Watch {
    if received == [] then w
    else
      var before := WatchAll(dir, w, received[..|received| - 1], handlerOk);
      if before.halt.Running? then WatchStep(dir, before, received[|received| - 1], handlerOk(|received| - 1))
      else before
  }

  /** Once the loop has stopped, further blocks change nothing. */
  lemma {:induction false} WatchAllStops(dir: Direction, w: Watch, received: seq<Block>, n: nat, handlerOk: int -> bool)
    requires n <= |received| && !WatchAll(dir, w, received[..n], handlerOk).halt.Running?
    ensures WatchAll(dir, w, received, handlerOk) == WatchAll(dir, w, received[..n], handlerOk)
    decreases |received|
  {
    if n == |received| {
      assert received[..n] == received;
    } else {
      var init := received[..|received| - 1];
      assert init[..n] == received[..n];
      WatchAllStops(dir, w, init, n, handlerOk);
    }
  }

  /** The loop stops at the first block that does not fit, or that the handler fails on, and with that cause;
      the pair is not handled. */
  lemma WatchAllStopsAtCause(dir: Direction, w: Watch, received: seq<Block>, handlerOk: int -> bool)
    requires received != [] && w.halt.Running?
    ensures var before := WatchAll(dir, w, received[..|received| - 1], handlerOk);
            var after, i := WatchAll(dir, w, received, handlerOk), |received| - 1;
            before.halt.Running? && before.held.Some? ==>
              var prev := if dir.Forward? then before.held.value else received[i];
              var next := if dir.Forward? then received[i] else before.held.value;
              && (after.halt.HeightMismatch? <==> prev.height != next.height - 1)
              && (after.halt.HandlerFailed? <==> prev.height == next.height - 1 && !handlerOk(i))
              && after.handled == if after.halt.Running? then before.handled + [(prev, next)] else before.handled
  {
  }

  class Watcher {
    var latestSyncedBlock: int
    var handled: seq<(Block, Block)>

    constructor (latestSyncedBlock: int)
      ensures this.latestSyncedBlock == latestSyncedBlock && handled == []
    {
      this.latestSyncedBlock := latestSyncedBlock;
      handled := [];
    }

    /** Calls the handler; only a handled pair moves the last synced height. */
    method HandleNewBlockData(prevBlock: Block, nextBlock: Block, handlerOk: bool) returns (ok: bool)
      modifies this
      ensures ok == handlerOk
      ensures latestSyncedBlock == if ok then nextBlock.height else old(latestSyncedBlock)
      ensures handled == if ok then old(handled) + [(prevBlock, nextBlock)] else old(handled)
    {
      ok := handlerOk;
      if ok {
        handled := handled + [(prevBlock, nextBlock)];
        latestSyncedBlock := nextBlock.height;
      }
    }

    method StartWatching(direction: Direction, newBlocks: seq<Block>, handlerOk: int -> bool)
      returns (held: Option<Block>, halt: Halt)
      modifies this
      ensures Watch(held, latestSyncedBlock, handled, halt) ==
              WatchAll(direction, old(Watch(None, latestSyncedBlock, handled, Running)), newBlocks, handlerOk)
    {
      held, halt := None, Running;
      ghost var start := Watch(None, latestSyncedBlock, handled, Running);
      for i := 0 to |newBlocks|
        invariant Watch(held, latestSyncedBlock, handled, halt) == WatchAll(direction, start, newBlocks[..i], handlerOk)
      {
        assert newBlocks[..i + 1][..i] == newBlocks[..i];
        if halt.Running? {
          var received := newBlocks[i];
          match held
          case None => held := Some(received);
          case Some(kept) =>
            var prevBlock, nextBlock := kept, received;
            if direction.Backward? {
              prevBlock, nextBlock := received, kept;
            }
            if prevBlock.height != nextBlock.height - 1 {
              halt := HeightMismatch;
            } else {
              var ok := HandleNewBlockData(prevBlock, nextBlock, handlerOk(i));
              if ok {
                held := Some(received);
              } else {
                halt := HandlerFailed;
              }
            }
        }
      }
      assert newBlocks[..|newBlocks|] == newBlocks;
    }
  }

  /** Over the announced stream of a faithful node, with a handler that succeeds, the watch loop
      never exits and handles exactly the adjacent pairs. */
  lemma {:induction false} WatchAllHandlesPairs(c: Config, n: nat, handlerOk: int -> bool)
    requires Faithful(c.serve) && forall i :: handlerOk(i)
    ensures var w := WatchAll(c.dir, Init(c).watch, c.Stream(n), handlerOk);
            w.halt.Running? && w.handled == c.Pairs(if n == 0 then 0 else n - 1) && WatchesStream(c, w, n)
  {
    if n == 0 {
      assert c.Stream(0) == [];
      assert c.Pairs(0) == [];
    } else {
      WatchAllHandlesPairs(c, n - 1, handlerOk);
      assert c.Stream(n)[..n - 1] == c.Stream(n - 1);
      var before := WatchAll(c.dir, Init(c).watch, c.Stream(n - 1), handlerOk);
      WatchStepFollowsStream(c, before, n - 1, true);
    }
  }
}
