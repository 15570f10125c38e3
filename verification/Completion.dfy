/** The pipeline together with its handler: the handler fails exactly on a block it cannot read, and the
    watch loop exits there. */
module Completion {
  import opened Chain
  import Pipeline
  import opened PipelineInvariant
  import opened PipelineRuns
  import Tracker
  import opened Handler
  import opened Conservation
  import opened Backfill
  import opened BackfillRun
  import opened LiveRun
  import opened EndToEnd

  /** The block whose transactions the handler reads when `received` arrives. */
  function HandledBlock(dir: Pipeline.Direction, kept: Block, received: Block): Block {
    if dir.Forward? then received else kept
  }

  /** A received block is handled with the outcome the handler has for it. */
  predicate Decided(c: Pipeline.Config, s: Pipeline.State, step: Pipeline.Step) {
    step.Receive? && s.chan != [] && s.watch.held.Some? ==>
      step.handlerOk == Readable(HandledBlock(c.dir, s.watch.held.value, s.chan[0]))
  }

  ghost predicate IsHandledRun(c: Pipeline.Config, states: seq<Pipeline.State>, steps: seq<Pipeline.Step>) {
    IsRun(c, states, steps) && forall i | 0 <= i < |steps| :: Decided(c, states[i], steps[i])
  }

  /** All handled blocks are readable; the loop stops only at a block that is not. */
  predicate HandledReadable(c: Pipeline.Config, w: Pipeline.Watch) {
    && (forall i | 0 <= i < |w.handled| :: Readable(w.handled[i].1))
    && (w.halt.HandlerFailed? ==> !Readable(c.PairAt(|w.handled|).1))
  }

  lemma StepKeepsReadable(c: Pipeline.Config, s: Pipeline.State, step: Pipeline.Step)
    requires Pipeline.Inv(c, s) && Pipeline.Enabled(c, s, step) && Decided(c, s, step) && HandledReadable(c, s.watch)
    ensures HandledReadable(c, Pipeline.Apply(c, s, step).watch)
  {
    hide Readable;
    if step.Receive? && s.watch.held.Some? {
      ReceivedPair(c, s);
    }
    hide Pipeline.Inv;
  }

  /** What arrives makes, with the block kept, the next pair of the stream. */
  lemma ReceivedPair(c: Pipeline.Config, s: Pipeline.State)
    requires Pipeline.Inv(c, s) && s.watch.halt.Running? && s.chan != [] && s.watch.held.Some?
    ensures HandledBlock(c.dir, s.watch.held.value, s.chan[0]) == c.PairAt(|s.watch.handled|).1
  {
    var r := |s.sent| - |s.chan|;
    assert s.chan[0] == s.sent[r] == c.serve(c.StreamHeight(r));
  }

  lemma {:induction false} RunKeepsReadable(c: Pipeline.Config, states: seq<Pipeline.State>, steps: seq<Pipeline.Step>, i: nat)
    requires c.init >= 1 && IsHandledRun(c, states, steps) && i < |states|
    ensures HandledReadable(c, states[i].watch)
  {
    hide HandledReadable, Decided;
    if i == 0 {
      NothingHandled(c);
    } else {
      RunKeepsReadable(c, states, steps, i - 1);
      RunKeepsInv(c, states, steps, i - 1);
      StepKeepsReadable(c, states[i - 1], steps[i - 1]);
    }
  }

  lemma NothingHandled(c: Pipeline.Config)
    ensures HandledReadable(c, Pipeline.Init(c).watch)
  {
  }

  ghost predicate ReachableHandled(c: Pipeline.Config, s: Pipeline.State) {
    exists states: seq<Pipeline.State>, steps: seq<Pipeline.Step> :: IsHandledRun(c, states, steps) && s == states[|steps|]
  }

  lemma HandledIsReachable(c: Pipeline.Config, s: Pipeline.State)
    requires c.init >= 1 && ReachableHandled(c, s)
    ensures Reachable(c, s) && HandledReadable(c, s.watch)
  {
    hide HandledReadable, Decided, Pipeline.Enabled, Pipeline.Apply;
    var states: seq<Pipeline.State>, steps: seq<Pipeline.Step> :| IsHandledRun(c, states, steps) && s == states[|steps|];
    RunKeepsReadable(c, states, steps, |steps|);
  }

  /** With a faithful node, the loop never sees a height mismatch; backward, it fails before the last pair
      at the latest. */
  lemma OnlyTheHandlerFails(c: Pipeline.Config, s: Pipeline.State)
    requires c.init >= 1 && Reachable(c, s) && Faithful(c.serve)
    ensures !s.watch.halt.HeightMismatch?
    ensures s.watch.halt.HandlerFailed? && c.dir.Backward? ==> |s.watch.handled| + 2 <= c.Total()
  {
    hide Reachable;
    ReachableInv(c, s);
    if s.watch.halt.HeightMismatch? {
      MismatchBlamesNode(c, s);
      assert false;
    }
  }

  /** Nothing can move, with the outcomes the handler has. */
  ghost predicate Stuck(c: Pipeline.Config, s: Pipeline.State) {
    forall step :: CanProgress(c, s, step) ==> !Decided(c, s, step)
  }

  lemma StuckMeansNoStep(c: Pipeline.Config, s: Pipeline.State, step: Pipeline.Step)
    requires Stuck(c, s)
    ensures !CanProgress(c, s, step)
  {
    if CanProgress(c, s, step) && step.Receive? && s.watch.held.Some? {
      var ok := Readable(HandledBlock(c.dir, s.watch.held.value, s.chan[0]));
      assert CanProgress(c, s, Pipeline.Receive(ok)) && Decided(c, s, Pipeline.Receive(ok));
    }
  }

  lemma HandledBlocksAreReadable(c: Pipeline.Config, w: Pipeline.Watch)
    requires HandledReadable(c, w) && w.handled == c.Pairs(|w.handled|)
    ensures c.dir.Backward? ==> ReadableBetween(c.serve, c.init - 1 - |w.handled|, c.init - 1)
    ensures c.dir.Forward? ==> ReadableBetween(c.serve, c.init, c.init + |w.handled|)
  {
    hide Readable;
    var n := |w.handled|;
    if c.dir.Backward? {
      forall h | c.init - 1 - n < h <= c.init - 1 ensures Readable(c.serve(h)) {
        assert w.handled[c.init - 1 - h].1 == c.serve(h);
      }
    } else {
      forall h | c.init < h <= c.init + n ensures Readable(c.serve(h)) {
        assert w.handled[h - c.init - 1].1 == c.serve(h);
      }
    }
  }

  /** A backfill that can no longer move has completed, or has stopped at the first block from above that the
      handler cannot read, whatever the number of jobs and their interleaving; it completes exactly if
      it can read all of them. */
  lemma BackfillCompletesOrStops(c: Pipeline.Config, s: Pipeline.State)
    requires c.init >= 1 && c.jobs >= 1 && c.dir.Backward? && c.init - 1 > c.Lowest()
    requires ReachableHandled(c, s) && Stuck(c, s) && Faithful(c.serve)
    ensures var low := c.init - 1 - |s.watch.handled|;
            && c.Lowest() <= low
            && s.watch.handled == BackwardPairs(c.serve, c.init - 1, c.init - 1 - low)
            && ReadableBetween(c.serve, low, c.init - 1)
            && (if low == c.Lowest() then s.watch.halt.Running? else s.watch.halt.HandlerFailed? && !Readable(c.serve(low)))
            && (s.watch.halt.Running? <==> ReadableBetween(c.serve, c.Lowest(), c.init - 1))
  {
    hide Readable, ReachableHandled, Stuck, CanProgress, HandledReadable;
    BackfillSoFar(c, s);
    HandledIsReachable(c, s);
    OnlyTheHandlerFails(c, s);
    if s.watch.halt.Running? {
      forall step ensures !CanProgress(c, s, step) {
        StuckMeansNoStep(c, s, step);
      }
      FinishedRunIsExact(c, s);
      assert |s.watch.handled| == c.Total() - 1;
    } else {
      FailedBlockIsUnreadable(c, s.watch);
    }
  }

  lemma FailedBlockIsUnreadable(c: Pipeline.Config, w: Pipeline.Watch)
    requires HandledReadable(c, w) && w.halt.HandlerFailed?
    ensures c.dir.Backward? ==> !Readable(c.serve(c.init - 1 - |w.handled|))
    ensures c.dir.Forward? ==> !Readable(c.serve(c.init + |w.handled| + 1))
  {
    hide Readable;
  }

  lemma BackfillSoFar(c: Pipeline.Config, s: Pipeline.State)
    requires c.init >= 1 && c.dir.Backward? && c.init - 1 > c.Lowest() && ReachableHandled(c, s)
    ensures var low := c.init - 1 - |s.watch.handled|;
            && c.Lowest() <= low
            && s.watch.handled == BackwardPairs(c.serve, c.init - 1, c.init - 1 - low)
            && ReadableBetween(c.serve, low, c.init - 1)
  {
    hide Readable, ReachableHandled, HandledReadable;
    HandledIsReachable(c, s);
    HandledPairs(c, s);
    HandledBlocksAreReadable(c, s.watch);
    PipelineFeedsBackwardPairs(c, |s.watch.handled|);
  }

  /** At every moment, a backfill has written exactly what the chain determines above the height it has come
      to: also when it has stopped early. */
  lemma BackfillWritesToItsEnd(c: Pipeline.Config, s: Pipeline.State, cfg: Tracker.Config)
    requires c.init >= 1 && c.dir.Backward? && c.init - 1 > c.Lowest() && ReachableHandled(c, s)
    requires Faithful(c.serve) && Monotonic(c.serve) && SameOptions(c, cfg)
    ensures Run(cfg, s.watch.handled).points.Some?
    ensures var setup, low := Setup(c.serve, cfg, c.init - 1), c.init - 1 - |s.watch.handled|;
            RfqPoints(Run(cfg, s.watch.handled).points.value) == FinalPoints(setup, Finished(setup, low), low)
  {
    hide ReadableBetween, Run, RfqPoints, FinalPoints, Finished, ReachableHandled;
    var setup, low := Setup(c.serve, cfg, c.init - 1), c.init - 1 - |s.watch.handled|;
    BackfillSoFar(c, s);
    if s.watch.handled == [] {
      NothingWritten(setup, s.watch.handled);
    } else {
      BackwardRunIsExact(setup, low);
    }
  }

  lemma NothingWritten(s: Setup, pairs: seq<(Block, Block)>)
    requires pairs == []
    ensures Run(s.cfg, pairs).points.Some?
    ensures RfqPoints(Run(s.cfg, pairs).points.value) == FinalPoints(s, Finished(s, s.top), s.top)
  {
  }

  /** A live run has at every moment handled readable blocks only, and stops only at a block that the handler
      cannot read. */
  lemma LiveRunStopsAtUnreadable(c: Pipeline.Config, s: Pipeline.State)
    requires c.init >= 1 && c.dir.Forward? && ReachableHandled(c, s) && Faithful(c.serve)
    ensures var height := c.init + |s.watch.handled|;
            && s.watch.handled == ForwardPairs(c.serve, c.init, height - c.init)
            && ReadableBetween(c.serve, c.init, height)
            && !s.watch.halt.HeightMismatch?
            && (s.watch.halt.HandlerFailed? ==> !Readable(c.serve(height + 1)))
  {
    hide Readable, ReachableHandled, HandledReadable;
    HandledIsReachable(c, s);
    HandledPairs(c, s);
    OnlyTheHandlerFails(c, s);
    HandledBlocksAreReadable(c, s.watch);
    PipelineFeedsForwardPairs(c, |s.watch.handled|);
    if s.watch.halt.HandlerFailed? {
      FailedBlockIsUnreadable(c, s.watch);
    }
  }

  /** ... and has written exactly what the chain determines up to its height. */
  lemma LiveRunWritesToItsEnd(c: Pipeline.Config, s: Pipeline.State, cfg: Tracker.Config)
    requires c.init >= 1 && c.dir.Forward? && ReachableHandled(c, s) && s.watch.handled != []
    requires Faithful(c.serve) && Monotonic(c.serve) && SameOptions(c, cfg)
    ensures Run(cfg, s.watch.handled).points.Some? && Run(cfg, s.watch.handled).tracker.pending == []
    ensures RfqPoints(Run(cfg, s.watch.handled).points.value)
            == LivePointsOf(c.serve, c.init, CreatedUpTo(c.serve, c.init, c.init + |s.watch.handled|))
  {
    hide Readable, Run, RfqPoints, LivePointsOf, CreatedUpTo, ReachableHandled;
    LiveRunStopsAtUnreadable(c, s);
    ForwardRunIsExact(c.serve, cfg, c.init, c.init + |s.watch.handled|);
  }
}
