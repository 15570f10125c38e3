/** A whole backward run: the exact state of the tracker, the exact points written, and which
    points are lost at the bottom. */
module BackfillRun {
  import opened Chain
  import opened BlockTimes
  import opened Tracker
  import opened Handler
  import opened Conservation
  import opened Backfill
  import opened Rearrange

  /** The pairs handled going down from `top`. */
  ghost function BackwardPairs(serve: Serve, top: int, n: nat): (pairs: seq<(Block, Block)>)
    ensures |pairs| == n
  {
    seq(n, i => (serve(top - 1 - i), serve(top - i)))
  }

  /** The points created as pending above `low` that a run down to `low` has not returned, ... */
  function Alive(s: Setup, low: int): seq<Pending>
    decreases s.top - low
  {
    if low >= s.top then [] else Remaining(s, Alive(s, low + 1) + CreatedBy(s.serve(low + 1)), low)
  }

  /** ... and those it has returned, in order. */
  function Finished(s: Setup, low: int): seq<Pending>
    decreases s.top - low
  {
    if low >= s.top then []
    else Finished(s, low + 1) + Returned(s, Alive(s, low + 1) + CreatedBy(s.serve(low + 1)), low)
  }

  /** All points created above `low`, from the top down. */
  function CreatedAbove(s: Setup, low: int): seq<Pending>
    decreases s.top - low
  {
    if low >= s.top then [] else CreatedAbove(s, low + 1) + CreatedBy(s.serve(low + 1))
  }

  // ---------------------------------------------------------------------------
  // Created points

  lemma {:induction false} CreatedAreFresh(block: Block, n: nat)
    requires n <= |block.txs|
    ensures forall i | 0 <= i < |Created(block, n)| :: Fresh(Created(block, n)[i]) && Created(block, n)[i].height == block.height
  {
    if n > 0 {
      CreatedAreFresh(block, n - 1);
    }
  }

  lemma {:induction false} RemainingAreSome(s: Setup, pps: seq<Pending>, low: int)
    ensures forall pp | pp in Remaining(s, pps, low) :: pp in pps && !Completed(s, pp, low)
    ensures forall pp | pp in Returned(s, pps, low) :: pp in pps && Completed(s, pp, low)
  {
    hide Completed;
    if pps != [] {
      RemainingAreSome(s, pps[..|pps| - 1], low);
    }
  }

  lemma {:induction false} SplitConserves(s: Setup, pps: seq<Pending>, low: int)
    ensures multiset(Remaining(s, pps, low)) + multiset(Returned(s, pps, low)) == multiset(pps)
  {
    hide Completed;
    if pps != [] {
      var init, last := pps[..|pps| - 1], pps[|pps| - 1];
      SplitConserves(s, init, low);
      AddOne(multiset(Remaining(s, init, low)), multiset(Returned(s, init, low)), multiset(init), last);
      assert multiset(pps) == multiset(init) + multiset{last} by {
        assert pps == init + [last];
      }
      if Completed(s, last, low) {
        assert Remaining(s, pps, low) == Remaining(s, init, low);
      } else {
        assert Returned(s, pps, low) == Returned(s, init, low);
      }
    }
  }

  lemma {:induction false} AliveAreFresh(s: Setup, low: int)
    requires Faithful(s.serve)
    ensures AllFresh(Alive(s, low), low, s.top)
    decreases s.top - low
  {
    if low < s.top {
      AliveAreFresh(s, low + 1);
      var next := s.serve(low + 1);
      CreatedAreFresh(next, |next.txs|);
      RemainingAreSome(s, Alive(s, low + 1) + CreatedBy(next), low);
      forall i | 0 <= i < |Alive(s, low)| ensures Fresh(Alive(s, low)[i]) && low < Alive(s, low)[i].height <= s.top {
        assert Alive(s, low)[i] in Alive(s, low + 1) + CreatedBy(next);
      }
    }
  }

  lemma {:induction false} FinishedAreFinal(s: Setup, low: int)
    requires Faithful(s.serve)
    requires Sound(s) && 1 <= low < s.top
    ensures forall pp | pp in Finished(s, low) :: Fresh(pp) && low < pp.height <= s.top && Completed(s, pp, low)
    decreases s.top - low
  {
    hide Completed, Returned, Remaining, Alive, Fresh, Created;
    var next := s.serve(low + 1);
    AliveAreFresh(s, low + 1);
    CreatedAreFresh(next, |next.txs|);
    var pps := Alive(s, low + 1) + CreatedBy(next);
    RemainingAreSome(s, pps, low);
    if low + 1 < s.top {
      FinishedAreFinal(s, low + 1);
    }
    forall pp | pp in Finished(s, low) ensures Fresh(pp) && low < pp.height <= s.top && Completed(s, pp, low) {
      if low + 1 < s.top && pp in Finished(s, low + 1) {
        StaysCompleted(s, pp, low);
      } else {
        assert Finished(s, low) == Finished(s, low + 1) + Returned(s, pps, low);
        assert pp in Returned(s, pps, low);
        assert pp in pps;
      }
    }
  }

  lemma StaysCompleted(s: Setup, pp: Pending, low: int)
    requires Sound(s) && 1 <= low && low + 1 < pp.height <= s.top && Completed(s, pp, low + 1)
    ensures Completed(s, pp, low)
    ensures Progress(s, pp, low).point == Progress(s, pp, low + 1).point
  {
    CompletedIsFinal(s, pp.height, low, pp.missing);
  }

  /** Each created point is either returned or still alive, exactly once. */
  lemma {:induction false} CreatedAreAliveOrFinished(s: Setup, low: int)
    ensures multiset(Alive(s, low)) + multiset(Finished(s, low)) == multiset(CreatedAbove(s, low))
    decreases s.top - low
  {
    hide Remaining;
    hide Returned;
    if low < s.top {
      CreatedAreAliveOrFinished(s, low + 1);
      var created := CreatedBy(s.serve(low + 1));
      var pps := Alive(s, low + 1) + created;
      SplitConserves(s, pps, low);
      Exchange(multiset(Remaining(s, pps, low)), multiset(Returned(s, pps, low)), multiset(Alive(s, low + 1)),
               multiset(Finished(s, low + 1)), multiset(created), multiset(CreatedAbove(s, low + 1)));
    }
  }

  lemma {:induction false} CreatedAboveBounds(s: Setup, low: int, pp: Pending)
    requires Faithful(s.serve) && pp in CreatedAbove(s, low)
    ensures low < pp.height <= s.top
    decreases s.top - low
  {
    if pp in CreatedAbove(s, low + 1) {
      CreatedAboveBounds(s, low + 1, pp);
    } else {
      CreatedAreFresh(s.serve(low + 1), |s.serve(low + 1).txs|);
    }
  }

  // ---------------------------------------------------------------------------
  // The run

  lemma ObserveGoesDown(s: Setup, low: int)
    requires Sound(s) && low < s.top
    ensures CacheAt(s, low).Valid()
    ensures Observe(s.cfg, if low + 1 == s.top then EMPTY.cache else CacheAt(s, low + 1), s.serve(low), s.serve(low + 1))
            == CacheAt(s, low)
  {
    if low + 1 == s.top {
      assert EMPTY.cache.Add(s.top, s.serve(s.top).time) == Window(s.serve, s.top, s.top, CACHE_SIZE);
      WindowBackward(s.serve, s.top, s.top, CACHE_SIZE);
    } else {
      var hi := Min(s.top, low + CACHE_SIZE);
      WindowKnown(s.serve, low + 1, hi, CACHE_SIZE, low + 1);
      WindowBackward(s.serve, low + 1, hi, CACHE_SIZE);
    }
  }

  lemma FreshPointsHaveNoProgress(s: Setup, low: int)
    requires Faithful(s.serve)
    ensures AllProgress(s, CreatedBy(s.serve(low)), low) == CreatedBy(s.serve(low))
  {
    var created := CreatedBy(s.serve(low));
    CreatedAreFresh(s.serve(low), |s.serve(low).txs|);
    forall i | 0 <= i < |created| ensures Progress(s, created[i], low) == created[i] {
      NothingDecidedYet(s, low, created[i].missing);
    }
  }

  lemma FinishedKeepTheirPoints(s: Setup, low: int)
    requires Sound(s) && 1 <= low && low + 1 < s.top
    ensures FinalPoints(s, Finished(s, low + 1), low) == FinalPoints(s, Finished(s, low + 1), low + 1)
  {
    hide Completed;
    FinishedAreFinal(s, low + 1);
    var pps := Finished(s, low + 1);
    forall i | 0 <= i < |pps| ensures Progress(s, pps[i], low).point == Progress(s, pps[i], low + 1).point {
      assert pps[i] in pps;
      StaysCompleted(s, pps[i], low);
    }
  }

  /** The flush at `low` returns the points completed there and keeps the others. */
  lemma DescendOnce(s: Setup, low: int)
    requires Sound(s) && 1 <= low < s.top
    ensures CacheAt(s, low).Valid()
    ensures var pending := AllProgress(s, Alive(s, low + 1), low + 1) + CreatedBy(s.serve(low + 1));
            var pps := Alive(s, low + 1) + CreatedBy(s.serve(low + 1));
            && Ready(s.cfg, CacheAt(s, low), pending) == FinalPoints(s, Returned(s, pps, low), low)
            && Kept(s.cfg, CacheAt(s, low), pending) == AllProgress(s, Alive(s, low), low)
  {
    hide Ready;
    hide Kept;
    hide Progress;
    hide CreatedBy;
    hide Returned;
    hide Remaining;
    WindowIsValid(s, low);
    var created := CreatedBy(s.serve(low + 1));
    var pps := Alive(s, low + 1) + created;
    FreshPointsHaveNoProgress(s, low + 1);
    assert AllProgress(s, Alive(s, low + 1), low + 1) + AllProgress(s, created, low + 1) == AllProgress(s, pps, low + 1);
    PendingAreFresh(s, low);
    FlushMakesProgress(s, pps, low);
  }

  lemma FinishedPointsGrow(s: Setup, low: int)
    requires Sound(s) && 1 <= low < s.top
    ensures FinalPoints(s, Finished(s, low), low) ==
            FinalPoints(s, Finished(s, low + 1), low + 1)
            + FinalPoints(s, Returned(s, Alive(s, low + 1) + CreatedBy(s.serve(low + 1)), low), low)
  {
    hide Progress;
    hide Returned;
    hide CreatedBy;
    if low + 1 < s.top {
      FinishedKeepTheirPoints(s, low);
    }
  }

  lemma BackwardRunSucceedsIff(s: Setup, low: int)
    requires low < s.top
    ensures Run(s.cfg, BackwardPairs(s.serve, s.top, s.top - low)).points.Some? <==> ReadableBetween(s.serve, low, s.top)
  {
    hide Run;
    hide Readable;
    var pairs := BackwardPairs(s.serve, s.top, s.top - low);
    RunSucceedsIff(s.cfg, pairs);
    forall h | low < h <= s.top ensures pairs[s.top - h].1 == s.serve(h) {
    }
    forall i | 0 <= i < |pairs| ensures pairs[i].1 == s.serve(s.top - i) {
    }
  }

  /** Exactly what a backward run down to `low` has written and what it still keeps. */
  lemma {:induction false} BackwardRunIsExact(s: Setup, low: int)
    requires Sound(s) && 1 <= low < s.top
    requires ReadableBetween(s.serve, low, s.top)
    ensures Run(s.cfg, BackwardPairs(s.serve, s.top, s.top - low)).points.Some?
    ensures Run(s.cfg, BackwardPairs(s.serve, s.top, s.top - low)).tracker
            == TrackerState(CacheAt(s, low), AllProgress(s, Alive(s, low), low))
    ensures RfqPoints(Run(s.cfg, BackwardPairs(s.serve, s.top, s.top - low)).points.value)
            == FinalPoints(s, Finished(s, low), low)
    decreases s.top - low
  {
    hide Run;
    hide Ready;
    hide Kept;
    hide RfqPoints;
    hide Observe;
    hide CacheAt;
    hide CreatedBy;
    hide Returned;
    hide Remaining;
    hide AllProgress;
    hide FinalPoints;
    BackwardRunSucceedsIff(s, low);
    var pairs := BackwardPairs(s.serve, s.top, s.top - low);
    var init := BackwardPairs(s.serve, s.top, s.top - (low + 1));
    assert pairs[..|pairs| - 1] == init;
    assert pairs[|pairs| - 1] == (s.serve(low), s.serve(low + 1));
    RunStep(s.cfg, pairs);
    ObserveGoesDown(s, low);
    DescendOnce(s, low);
    FinishedPointsGrow(s, low);
    if low + 1 == s.top {
      EmptyRun(s);
      assert init == [];
    } else {
      BackwardRunIsExact(s, low + 1);
    }
  }

  lemma EmptyRun(s: Setup)
    ensures Run(s.cfg, []) == Outcome(EMPTY, Some([])) && RfqPoints([]) == []
    ensures AllProgress(s, [], s.top) == [] && FinalPoints(s, [], s.top) == []
  {
  }

  lemma PendingAreFresh(s: Setup, low: int)
    requires Faithful(s.serve) && low < s.top
    ensures AllFresh(Alive(s, low + 1) + CreatedBy(s.serve(low + 1)), low, s.top)
  {
    AliveAreFresh(s, low + 1);
    CreatedAreFresh(s.serve(low + 1), |s.serve(low + 1).txs|);
  }

  // ---------------------------------------------------------------------------
  // What is still kept

  lemma {:induction false} WaitingFieldsWait(s: Setup, height: int, low: int, missing: seq<MissedField>)
    ensures forall mf | mf in WaitingFields(s, height, low, missing) :: mf in missing && Waits(s, height, low, mf.ts)
    ensures forall mf | mf in missing && Waits(s, height, low, mf.ts) :: mf in WaitingFields(s, height, low, missing)
  {
    hide Waits;
    if missing != [] {
      WaitingFieldsWait(s, height, low, missing[..|missing| - 1]);
      assert missing == missing[..|missing| - 1] + [missing[|missing| - 1]];
    }
  }

  /** Every point kept is less than a window above the lowest height, and waits only for timestamps
      before the lowest block. */
  lemma KeptPointsWaitBelow(s: Setup, low: int, pp: Pending)
    requires Sound(s) && 1 <= low < s.top
    requires ReadableBetween(s.serve, low, s.top)
    requires pp in Run(s.cfg, BackwardPairs(s.serve, s.top, s.top - low)).tracker.pending
    ensures pp.missing != [] && low < pp.height && pp.height - low < CACHE_SIZE
    ensures forall mf | mf in pp.missing :: mf.ts < s.serve(low).time
    ensures s.cfg.stopHeight == 0 || low >= s.cfg.stopHeight
  {
    BackwardRunIsExact(s, low);
    AliveAreFresh(s, low);
    var alive := Alive(s, low);
    var i :| 0 <= i < |alive| && pp == Progress(s, alive[i], low);
    RemainingAreSome(s, Alive(s, low + 1) + CreatedBy(s.serve(low + 1)), low);
    assert alive[i] in alive && !Completed(s, alive[i], low);
    WaitingFieldsWait(s, pp.height, low, alive[i].missing);
    assert pp.missing[0] in pp.missing;
  }

  /** Nothing is left pending exactly if no created point has a timestamp that still waits. */
  lemma NothingLeftIff(s: Setup, low: int)
    requires Sound(s) && 1 <= low < s.top
    requires ReadableBetween(s.serve, low, s.top)
    ensures Run(s.cfg, BackwardPairs(s.serve, s.top, s.top - low)).tracker.pending == [] <==>
            forall pp, mf | pp in CreatedAbove(s, low) && mf in pp.missing :: !Waits(s, pp.height, low, mf.ts)
  {
    BackwardRunIsExact(s, low);
    AliveAreFresh(s, low);
    FinishedAreFinal(s, low);
    CreatedAreAliveOrFinished(s, low);
    var alive := Alive(s, low);
    forall pp, mf | pp in CreatedAbove(s, low) && mf in pp.missing && Waits(s, pp.height, low, mf.ts) ensures alive != [] {
      assert pp in multiset(CreatedAbove(s, low));
      if pp in Finished(s, low) {
        WaitingFieldsWait(s, pp.height, low, pp.missing);
        assert false;
      }
    }
    if alive != [] {
      var pp := alive[0];
      RemainingAreSome(s, Alive(s, low + 1) + CreatedBy(s.serve(low + 1)), low);
      assert pp in alive && !Completed(s, pp, low);
      WaitingFieldsWait(s, pp.height, low, pp.missing);
      var mf := WaitingFields(s, pp.height, low, pp.missing)[0];
      assert mf in WaitingFields(s, pp.height, low, pp.missing);
      assert pp in multiset(CreatedAbove(s, low));
      assert pp in CreatedAbove(s, low) && mf in pp.missing && Waits(s, pp.height, low, mf.ts);
    }
  }

  /** At the bottom, a backfill has lost no RFQ point exactly if a stop height of at least 2 is set, or
      no point within a window of the first block has a timestamp before it. */
  lemma NothingLostIff(s: Setup)
    requires Sound(s) && LowestHeight(s.cfg.stopHeight) < s.top
    requires ReadableBetween(s.serve, LowestHeight(s.cfg.stopHeight), s.top)
    ensures Run(s.cfg, BackwardPairs(s.serve, s.top, s.top - LowestHeight(s.cfg.stopHeight))).tracker.pending == [] <==>
            s.cfg.stopHeight >= 2 ||
            forall pp, mf | pp in CreatedAbove(s, 1) && mf in pp.missing ::
              pp.height > CACHE_SIZE || mf.ts >= s.serve(1).time
  {
    var low := LowestHeight(s.cfg.stopHeight);
    NothingLeftIff(s, low);
    forall pp, mf | pp in CreatedAbove(s, low) && mf in pp.missing
      ensures Waits(s, pp.height, low, mf.ts) <==>
              s.cfg.stopHeight < 2 && pp.height <= CACHE_SIZE && mf.ts < s.serve(1).time
    {
      CreatedAboveBounds(s, low, pp);
    }
  }
}
