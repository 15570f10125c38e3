/** The whole system: the pipeline feeding the RFQ handler. Whatever the interleaving, the
    handler sees the same pairs, so the tracker results hold for every run. */
module EndToEnd {
  import opened Chain
  import Pipeline
  import PipelineRuns
  import Tracker
  import opened Handler
  import opened Conservation
  import opened Backfill
  import opened BackfillRun
  import opened LiveRun

  lemma PipelineFeedsBackwardPairs(c: Pipeline.Config, n: nat)
    requires c.dir.Backward?
    ensures c.Pairs(n) == BackwardPairs(c.serve, c.init - 1, n)
  {
  }

  lemma PipelineFeedsForwardPairs(c: Pipeline.Config, n: nat)
    requires c.dir.Forward?
    ensures c.Pairs(n) == ForwardPairs(c.serve, c.init, n)
  {
  }

  /** The tracker is configured by the same options as the pipeline. */
  predicate SameOptions(c: Pipeline.Config, cfg: Tracker.Config) {
    cfg.stopHeight == c.stopHeight && cfg.reverse == c.dir.Backward?
  }

  /** Above the watcher's lowest height the tracker expects earlier blocks; at it, it expects none exactly
      if there is a stop height of at least 2. */
  lemma StopHeightsAgree(c: Pipeline.Config, cfg: Tracker.Config, low: int)
    requires SameOptions(c, cfg) && c.dir.Backward? && c.Lowest() <= low < c.init - 1
    ensures Tracker.CanGoLower(cfg, CacheAt(Setup(c.serve, cfg, c.init - 1), low)) <==> low > c.Lowest() || c.stopHeight < 2
  {
    assert CacheAt(Setup(c.serve, cfg, c.init - 1), low).heights[0] == low;
  }

  /** A backfill that can no longer move, with a node and a handler that did not fail. */
  ghost predicate FinishedBackfill(c: Pipeline.Config, s: Pipeline.State) {
    && c.init >= 1 && c.jobs >= 1 && c.dir.Backward? && c.init - 1 > c.Lowest()
    && PipelineRuns.Reachable(c, s) && s.watch.halt.Running?
    && !exists step :: PipelineRuns.CanProgress(c, s, step)
  }

  lemma FinishedBackfillHandled(c: Pipeline.Config, s: Pipeline.State)
    requires FinishedBackfill(c, s)
    ensures c.dir.Backward? && c.Lowest() < c.init - 1
    ensures s.watch.handled == BackwardPairs(c.serve, c.init - 1, c.init - 1 - c.Lowest())
  {
    PipelineRuns.FinishedRunIsExact(c, s);
    PipelineFeedsBackwardPairs(c, c.Total() - 1);
  }

  /** With a stop height of at least 2, the last pair handled is (stop - 1, stop). */
  lemma LastPairIsAtStopHeight(c: Pipeline.Config, s: Pipeline.State)
    requires FinishedBackfill(c, s) && c.stopHeight >= 2
    ensures s.watch.handled != []
    ensures s.watch.handled[|s.watch.handled| - 1] == (c.serve(c.stopHeight - 1), c.serve(c.stopHeight))
  {
    FinishedBackfillHandled(c, s);
  }

  /** A finished backfill has written exactly the points the chain determines, whatever the number of
      jobs and their interleaving. */
  lemma BackfillIsExact(c: Pipeline.Config, s: Pipeline.State, cfg: Tracker.Config)
    requires FinishedBackfill(c, s) && SameOptions(c, cfg) && Faithful(c.serve) && Monotonic(c.serve)
    requires ReadableBetween(c.serve, c.Lowest(), c.init - 1)
    ensures Run(cfg, s.watch.handled).points.Some?
    ensures var setup := Setup(c.serve, cfg, c.init - 1);
            RfqPoints(Run(cfg, s.watch.handled).points.value) == FinalPoints(setup, Finished(setup, c.Lowest()), c.Lowest())
  {
    hide FinishedBackfill;
    hide Run;
    hide RfqPoints;
    hide FinalPoints;
    hide Finished;
    hide ReadableBetween;
    FinishedBackfillHandled(c, s);
    BackwardRunIsExact(Setup(c.serve, cfg, c.init - 1), c.Lowest());
  }

  /** A finished backfill has lost no RFQ point exactly if it had a stop height of at least 2, or no
      point within a window of the first block has a timestamp before it. */
  lemma BackfillLosesNothingIff(c: Pipeline.Config, s: Pipeline.State, cfg: Tracker.Config)
    requires FinishedBackfill(c, s) && SameOptions(c, cfg) && Faithful(c.serve) && Monotonic(c.serve)
    requires ReadableBetween(c.serve, c.Lowest(), c.init - 1)
    ensures Run(cfg, s.watch.handled).points.Some?
    ensures Run(cfg, s.watch.handled).tracker.pending == [] <==>
            c.stopHeight >= 2 ||
            forall pp, mf | pp in CreatedAbove(Setup(c.serve, cfg, c.init - 1), 1) && mf in pp.missing ::
              pp.height > 3600 || mf.ts >= c.serve(1).time
    ensures c.stopHeight >= 2 ==>
              PendingIds(CreatedIn(s.watch.handled)) == Ids(RfqPoints(Run(cfg, s.watch.handled).points.value))
  {
    hide FinishedBackfill;
    hide Run;
    hide RfqPoints;
    hide CreatedAbove;
    hide PendingIds;
    hide Ids;
    hide ReadableBetween;
    FinishedBackfillHandled(c, s);
    BackwardRunSucceedsIff(Setup(c.serve, cfg, c.init - 1), c.Lowest());
    NothingLostIff(Setup(c.serve, cfg, c.init - 1));
    RunConserves(cfg, s.watch.handled);
    if c.stopHeight >= 2 {
      NoIds();
    }
  }

  /** At every moment of a live run, the points written are those the chain determines. */
  lemma LiveIsExact(c: Pipeline.Config, s: Pipeline.State, cfg: Tracker.Config)
    requires c.init >= 1 && c.dir.Forward? && PipelineRuns.Reachable(c, s)
    requires SameOptions(c, cfg) && Faithful(c.serve) && Monotonic(c.serve)
    requires s.watch.handled != [] && ReadableBetween(c.serve, c.init, s.watch.latest)
    ensures Run(cfg, s.watch.handled).points.Some?
    ensures RfqPoints(Run(cfg, s.watch.handled).points.value)
            == LivePointsOf(c.serve, c.init, CreatedUpTo(c.serve, c.init, s.watch.latest))
    ensures Run(cfg, s.watch.handled).tracker.pending == []
  {
    PipelineRuns.HandledPairs(c, s);
    PipelineFeedsForwardPairs(c, |s.watch.handled|);
    ForwardRunIsExact(c.serve, cfg, c.init, s.watch.latest);
  }

  /** A fresh handler over a whole run: the objects do what the run function says, up to and including
      the first pair that fails. */
  method HandleAll(cfg: Tracker.Config, pairs: seq<(Block, Block)>) returns (rfq: Tracker.RfqTracker, points: Option<seq<Tracker.OutPoint>>)
    ensures fresh(rfq) && rfq.Valid() && Outcome(rfq.Model(), points) == Run(cfg, pairs)
  {
    hide Handle;
    rfq := new Tracker.RfqTracker(cfg);
    points := Some([]);
    for i := 0 to |pairs|
      invariant fresh(rfq) && rfq.Valid() && fresh(rfq.Repr) && rfq.cfg == cfg
      invariant points.Some? && Outcome(rfq.Model(), points) == Run(cfg, pairs[..i])
    {
      assert pairs[..i + 1][..i] == pairs[..i];
      var written := RfqOnlyHandle(rfq, pairs[i].0, pairs[i].1);
      if written.None? {
        points := None;
        RunStaysFailed(cfg, pairs, i + 1);
        return;
      }
      points := Some(points.value + written.value);
    }
    assert pairs[..|pairs|] == pairs;
  }

  /** The same for the full handler: it gets through a run exactly if its own computations and the RFQ-only
      handler do, and then has kept the same tracker and written the same RFQ points, in the same order. */
  method FullHandleAll(cfg: Tracker.Config, pairs: seq<(Block, Block)>, others: nat -> Others)
    returns (rfq: Tracker.RfqTracker, points: Option<seq<Tracker.OutPoint>>)
    ensures fresh(rfq) && rfq.Valid()
    ensures points.Some? <==> Run(cfg, pairs).points.Some? && forall i | 0 <= i < |pairs| :: others(i).Succeed(pairs[i].1)
    ensures points.Some? ==> Outcome(rfq.Model(), Some(Project(points.value))) == Run(cfg, pairs)
  {
    hide Handle, Project, Others.Succeed;
    rfq := new Tracker.RfqTracker(cfg);
    points := Some([]);
    ProjectDropsOthers([]);
    for i := 0 to |pairs|
      invariant fresh(rfq) && rfq.Valid() && fresh(rfq.Repr) && rfq.cfg == cfg
      invariant points.Some? && Outcome(rfq.Model(), Some(Project(points.value))) == Run(cfg, pairs[..i])
      invariant forall k | 0 <= k < i :: others(k).Succeed(pairs[k].1)
    {
      assert pairs[..i + 1][..i] == pairs[..i];
      var written := FullHandle(rfq, others(i), pairs[i].0, pairs[i].1);
      if written.None? {
        points := None;
        if others(i).Succeed(pairs[i].1) {
          RunStaysFailed(cfg, pairs, i + 1);
        }
        return;
      }
      ProjectAppend(points.value, written.value);
      points := Some(points.value + written.value);
    }
    assert pairs[..|pairs|] == pairs;
  }

  lemma {:induction false} RunStaysFailed(cfg: Tracker.Config, pairs: seq<(Block, Block)>, n: nat)
    requires n <= |pairs| && Run(cfg, pairs[..n]).points.None?
    ensures Run(cfg, pairs) == Run(cfg, pairs[..n])
    decreases |pairs| - n
  {
    if n == |pairs| {
      assert pairs[..n] == pairs;
    } else {
      assert pairs[..n + 1][..n] == pairs[..n];
      RunStaysFailed(cfg, pairs, n + 1);
    }
  }
}
