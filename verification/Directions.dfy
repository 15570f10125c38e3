/** A forward and a backward run over the same chain: when the points they write are the same. */
module Directions {
  import opened Chain
  import opened BlockTimes
  import opened Tracker
  import opened Handler
  import opened Conservation
  import opened Backfill
  import opened BackfillRun
  import opened LiveRun
  import opened Rearrange

  // ---------------------------------------------------------------------------
  // Created points

  /** A tx creates at most one pending point, identified by its index. */
  lemma {:induction false} CreatedByTx(block: Block, n: nat, pp: Pending)
    requires n <= |block.txs| && pp in Created(block, n)
    ensures pp.point.txIndex < n && Flatten(block.txs[pp.point.txIndex].msgs).Some?
    ensures var i := pp.point.txIndex;
            NewPending(block.height, i, block.txs[i], Flatten(block.txs[i].msgs).value) == [pp]
  {
    hide Flatten, FindRfq, MissingFields;
    if pp in Created(block, n - 1) {
      CreatedByTx(block, n - 1, pp);
    }
  }

  lemma SameTxSamePoint(block: Block, a: Pending, b: Pending)
    requires a in CreatedBy(block) && b in CreatedBy(block) && a.point.txIndex == b.point.txIndex
    ensures a == b
  {
    hide Flatten, NewPending;
    CreatedByTx(block, |block.txs|, a);
    CreatedByTx(block, |block.txs|, b);
  }

  /** The points created above `low` are those of the blocks above it. */
  lemma {:induction false} CreatedAboveIff(s: Setup, low: int, pp: Pending)
    requires Faithful(s.serve)
    ensures pp in CreatedAbove(s, low) <==> low < pp.height <= s.top && pp in CreatedBy(s.serve(pp.height))
    decreases s.top - low
  {
    hide CreatedBy;
    if low < s.top {
      CreatedAboveIff(s, low + 1, pp);
      CreatedHaveHeight(s.serve(low + 1), pp);
    }
  }

  lemma {:induction false} CreatedUpToIff(serve: Serve, start: int, height: int, pp: Pending)
    requires Faithful(serve)
    ensures pp in CreatedUpTo(serve, start, height) <==> start < pp.height <= height && pp in CreatedBy(serve(pp.height))
    decreases height - start
  {
    hide CreatedBy;
    if start < height {
      CreatedUpToIff(serve, start, height - 1, pp);
      CreatedHaveHeight(serve(height), pp);
    }
  }

  lemma CreatedHaveHeight(block: Block, pp: Pending)
    ensures pp in CreatedBy(block) ==> Fresh(pp) && pp.height == block.height
  {
    CreatedAreFresh(block, |block.txs|);
  }

  /** A completed point has been returned. */
  lemma CompletedIsFinished(s: Setup, low: int, pp: Pending)
    requires Sound(s) && 1 <= low < s.top && pp in CreatedAbove(s, low)
    ensures Completed(s, pp, low) <==> pp in Finished(s, low)
    ensures Completed(s, pp, low) <==> pp !in Alive(s, low)
  {
    hide Completed, CreatedAbove, Remaining;
    CreatedAreAliveOrFinished(s, low);
    FinishedAreFinal(s, low);
    AliveAreIncomplete(s, low);
    assert pp in multiset(Alive(s, low)) + multiset(Finished(s, low)) by {
      assert pp in multiset(CreatedAbove(s, low));
    }
  }

  lemma AliveAreIncomplete(s: Setup, low: int)
    requires low < s.top
    ensures forall pp | pp in Alive(s, low) :: !Completed(s, pp, low)
  {
    hide Completed, Remaining, CreatedBy;
    RemainingAreSome(s, Alive(s, low + 1) + CreatedBy(s.serve(low + 1)), low);
  }

  /** Completed means that no timestamp waits. */
  lemma {:induction false} CompletedIff(s: Setup, height: int, low: int, missing: seq<MissedField>)
    ensures WaitingFields(s, height, low, missing) == [] <==> forall mf | mf in missing :: !Waits(s, height, low, mf.ts)
  {
    hide Waits;
    if missing != [] {
      CompletedIff(s, height, low, missing[..|missing| - 1]);
      assert missing == missing[..|missing| - 1] + [missing[|missing| - 1]];
    }
  }

  // ---------------------------------------------------------------------------
  // One tx, in two runs over any two ranges

  /** The timestamp is inside the live window of the tx's height and before the next block, and the
      backfill down to `low` is allowed to descend to a block at or before it. */
  predicate WithinReach(s: Setup, low: int, height: int, ts: Time) {
    && s.serve(height - CACHE_SIZE + 1).time <= ts < s.serve(height + 1).time
    && s.serve(Max(low, s.cfg.stopHeight - 1)).time <= ts
  }

  lemma BothAnswersAreTheFloor(s: Setup, start: int, low: int, height: int, ts: Time)
    requires Sound(s) && 1 <= start <= height - CACHE_SIZE + 1 && height <= s.top && 1 <= low < height
    requires WithinReach(s, low, height, ts)
    ensures var floor := LastAtOrBefore(s.serve, 1, height, ts);
            && floor.Some? && !Waits(s, height, low, ts)
            && LiveAnswer(s.serve, start, height, ts) == Answer(s, height, low, ts) == Some(height - (floor.value + 1))
  {
    DirectionsAgreeInsideWindow(s, start, low, height, ts);
    hide LiveAnswer, Answer;
    var floor := LastAtOrBefore(s.serve, 1, height, ts).value;
    var deepest := Max(low, s.cfg.stopHeight - 1);
    assert deepest <= height;
    assert deepest <= floor;
  }

  /** The point a run over a range has written for a tx. */
  ghost predicate Wrote(r: Outcome, point: Point) {
    r.points.Some? && point in RfqPoints(r.points.value)
  }

  /** Direction independence of what is written: for a tx with timestamps within reach, any live run that
      starts below its window and any backfill from above it write the same point, with
      H - (floor + 1) for each timestamp, the floor being taken over the whole history. */
  lemma BothRunsWrite(s: Setup, live: Config, start: int, top: int, low: int, pp: Pending) returns (point: Point)
    requires Sound(s) && !live.reverse && pp in CreatedBy(s.serve(pp.height))
    requires 1 <= start <= pp.height - CACHE_SIZE + 1 && pp.height <= top && 1 <= low < pp.height <= s.top
    requires ReadableBetween(s.serve, start, top) && ReadableBetween(s.serve, low, s.top)
    requires forall mf | mf in pp.missing :: WithinReach(s, low, pp.height, mf.ts)
    ensures Wrote(Run(live, ForwardPairs(s.serve, start, top - start)), point)
    ensures Wrote(Run(s.cfg, BackwardPairs(s.serve, s.top, s.top - low)), point)
    ensures IdOf(point) == IdOf(pp.point)
    ensures forall mf | mf in pp.missing ::
              var floor := LastAtOrBefore(s.serve, 1, pp.height, mf.ts);
              floor.Some? && mf.field in point.missed && point.missed[mf.field] == pp.height - (floor.value + 1)
  {
    hide Run, RfqPoints, CreatedBy, CreatedUpTo, CreatedAbove, Finished, Readable, Waits, LiveAnswer, Answer, WithinReach;
    hide LastAtOrBefore;
    point := LivePoint(s.serve, start, pp);
    CreatedHaveHeight(s.serve(pp.height), pp);
    forall mf | mf in pp.missing
      ensures var floor := LastAtOrBefore(s.serve, 1, pp.height, mf.ts);
              && floor.Some? && !Waits(s, pp.height, low, mf.ts)
              && LiveAnswer(s.serve, start, pp.height, mf.ts) == Answer(s, pp.height, low, mf.ts)
              && mf.field in point.missed && point.missed[mf.field] == pp.height - (floor.value + 1)
    {
      BothAnswersAreTheFloor(s, start, low, pp.height, mf.ts);
      LookUpLive(s.serve, start, pp.height, pp.missing, mf);
    }
    CompletedIff(s, pp.height, low, pp.missing);
    SameAnswersSameMap(s, start, low, pp.height, pp.missing);
    LiveRunWrites(s.serve, live, start, top, pp);
    BackfillWrites(s, low, pp);
  }

  lemma LiveRunWrites(serve: Serve, live: Config, start: int, top: int, pp: Pending)
    requires Faithful(serve) && Monotonic(serve) && !live.reverse && pp in CreatedBy(serve(pp.height))
    requires 1 <= start < pp.height <= top && ReadableBetween(serve, start, top)
    ensures Wrote(Run(live, ForwardPairs(serve, start, top - start)), LivePoint(serve, start, pp))
  {
    hide Run, RfqPoints, CreatedBy, CreatedUpTo, Readable, LivePoint;
    ForwardRunIsExact(serve, live, start, top);
    CreatedUpToIff(serve, start, top, pp);
    var pps := CreatedUpTo(serve, start, top);
    var i :| 0 <= i < |pps| && pps[i] == pp;
    assert LivePointsOf(serve, start, pps)[i] == LivePoint(serve, start, pp);
  }

  lemma BackfillWrites(s: Setup, low: int, pp: Pending)
    requires Sound(s) && pp in CreatedBy(s.serve(pp.height)) && Completed(s, pp, low)
    requires 1 <= low < pp.height <= s.top && ReadableBetween(s.serve, low, s.top)
    ensures Wrote(Run(s.cfg, BackwardPairs(s.serve, s.top, s.top - low)), Progress(s, pp, low).point)
  {
    hide Run, RfqPoints, CreatedBy, CreatedAbove, Finished, Alive, Readable, Progress, Completed;
    BackwardRunIsExact(s, low);
    CreatedAboveIff(s, low, pp);
    CompletedIsFinished(s, low, pp);
    var pps := Finished(s, low);
    var i :| 0 <= i < |pps| && pps[i] == pp;
    assert FinalPoints(s, pps, low)[i] == Progress(s, pp, low).point;
  }

  // ---------------------------------------------------------------------------
  // The same numbers over a whole range

  /** Rearranging created points rearranges the written ones. */
  lemma {:induction false} PermutedPoints(serve: Serve, start: int, a: seq<Pending>, b: seq<Pending>)
    requires multiset(a) == multiset(b)
    ensures multiset(LivePointsOf(serve, start, a)) == multiset(LivePointsOf(serve, start, b))
  {
    hide LivePointsOf;
    if a == [] {
      assert |b| == |multiset(b)| == 0;
    } else {
      var init, last := a[..|a| - 1], a[|a| - 1];
      assert a == init + [last];
      var before, after := TakeOut(init, last, b);
      PermutedPoints(serve, start, init, before + after);
      PointsOfParts(serve, start, init, last, []);
      PointsOfParts(serve, start, before, last, after);
      assert init + [last] + [] == a && init + [] == init;
    }
  }

  lemma PointsOfParts(serve: Serve, start: int, before: seq<Pending>, pp: Pending, after: seq<Pending>)
    ensures multiset(LivePointsOf(serve, start, before + [pp] + after)) ==
            multiset(LivePointsOf(serve, start, before + after)) + multiset{LivePoint(serve, start, pp)}
  {
    hide LivePoint;
    var first, last := LivePointsOf(serve, start, before), LivePointsOf(serve, start, after);
    assert LivePointsOf(serve, start, before + after) == first + last;
    assert LivePointsOf(serve, start, before + [pp] + after) == first + [LivePoint(serve, start, pp)] + last;
    InTheMiddle(first, LivePoint(serve, start, pp), last);
  }

  lemma {:induction false} CreatedFromBelow(serve: Serve, start: int, height: int)
    requires start < height
    ensures multiset(CreatedUpTo(serve, start, height)) ==
            multiset(CreatedBy(serve(start + 1))) + multiset(CreatedUpTo(serve, start + 1, height))
    decreases height - start
  {
    hide CreatedBy;
    if start + 1 < height {
      CreatedFromBelow(serve, start, height - 1);
      Extend(CreatedUpTo(serve, start, height - 1), multiset(CreatedBy(serve(start + 1))),
             CreatedUpTo(serve, start + 1, height - 1), CreatedBy(serve(height)));
    } else {
      assert CreatedUpTo(serve, start, height) == [] + CreatedBy(serve(height));
      assert [] + CreatedBy(serve(height)) == CreatedBy(serve(height));
    }
  }

  /** Going up and going down creates the same points. */
  lemma {:induction false} SamePointsCreated(s: Setup, low: int)
    requires low <= s.top
    ensures multiset(CreatedUpTo(s.serve, low, s.top)) == multiset(CreatedAbove(s, low))
    decreases s.top - low
  {
    hide CreatedBy;
    if low < s.top {
      SamePointsCreated(s, low + 1);
      CreatedFromBelow(s.serve, low, s.top);
    }
  }

  // ---------------------------------------------------------------------------
  // What a live run writes for part of its range

  /** The points of txs above `low` and up to `top`. */
  function PointsBetween(points: seq<Point>, low: int, top: int): seq<Point> {
    if points == [] then []
    else
      var last := points[|points| - 1];
      PointsBetween(points[..|points| - 1], low, top) + if low < last.height <= top then [last] else []
  }

  lemma {:induction false} PointsBetweenAppend(a: seq<Point>, b: seq<Point>, low: int, top: int)
    ensures PointsBetween(a + b, low, top) == PointsBetween(a, low, top) + PointsBetween(b, low, top)
  {
    if b == [] {
      assert a + b == a;
    } else {
      assert (a + b)[..|a + b| - 1] == a + b[..|b| - 1];
      PointsBetweenAppend(a, b[..|b| - 1], low, top);
    }
  }

  lemma {:induction false} PointsOfOneHeight(points: seq<Point>, low: int, top: int, height: int)
    requires forall p | p in points :: p.height == height
    ensures PointsBetween(points, low, top) == if low < height <= top then points else []
  {
    if points != [] {
      var init, last := points[..|points| - 1], points[|points| - 1];
      PointsOfOneHeight(init, low, top, height);
      assert last in points && points == init + [last];
    }
  }

  lemma {:induction false} LivePointsBetween(serve: Serve, start: int, height: int, low: int, top: int)
    requires Faithful(serve) && start <= low <= top
    ensures PointsBetween(LivePointsOf(serve, start, CreatedUpTo(serve, start, height)), low, top)
            == LivePointsOf(serve, start, CreatedUpTo(serve, low, Min(height, top)))
    decreases height - start
  {
    hide CreatedBy, LivePointsOf, PointsBetween;
    if height <= start {
      NoLivePoints(serve, start, low, top);
    } else {
      LivePointsBetween(serve, start, height - 1, low, top);
      var created := CreatedBy(serve(height));
      LivePointsAppend(serve, start, CreatedUpTo(serve, start, height - 1), created);
      PointsBetweenAppend(LivePointsOf(serve, start, CreatedUpTo(serve, start, height - 1)),
                          LivePointsOf(serve, start, created), low, top);
      LivePointsOfBlock(serve, start, height);
      PointsOfOneHeight(LivePointsOf(serve, start, created), low, top, height);
      if low < height <= top {
        LivePointsAppend(serve, start, CreatedUpTo(serve, low, height - 1), created);
      }
    }
  }

  lemma NoLivePoints(serve: Serve, start: int, low: int, top: int)
    ensures LivePointsOf(serve, start, []) == [] && PointsBetween([], low, top) == []
  {
  }

  lemma LivePointsAppend(serve: Serve, start: int, a: seq<Pending>, b: seq<Pending>)
    ensures LivePointsOf(serve, start, a + b) == LivePointsOf(serve, start, a) + LivePointsOf(serve, start, b)
  {
    hide LivePoint;
  }

  lemma LivePointsOfBlock(serve: Serve, start: int, height: int)
    requires Faithful(serve)
    ensures forall p | p in LivePointsOf(serve, start, CreatedBy(serve(height))) :: p.height == height
  {
    hide LiveAnswers;
    var created := CreatedBy(serve(height));
    forall i | 0 <= i < |created| ensures LivePoint(serve, start, created[i]).height == height {
      CreatedHaveHeight(serve(height), created[i]);
    }
  }

  // ---------------------------------------------------------------------------
  // All txs of a range

  ghost predicate AllAgree(s: Setup, start: int, low: int) {
    forall pp, mf | pp in CreatedAbove(s, low) && mf in pp.missing :: Agrees(s, start, low, pp.height, mf.ts)
  }

  lemma AllFinished(s: Setup, low: int)
    requires Sound(s) && 1 <= low < s.top && Alive(s, low) == []
    ensures multiset(Finished(s, low)) == multiset(CreatedAbove(s, low)) == multiset(CreatedUpTo(s.serve, low, s.top))
    ensures forall pp :: pp in Finished(s, low) <==> pp in CreatedAbove(s, low)
  {
    hide Alive, Finished, CreatedAbove, CreatedUpTo;
    CreatedAreAliveOrFinished(s, low);
    SamePointsCreated(s, low);
    assert multiset(Finished(s, low)) == multiset(CreatedAbove(s, low));
    forall pp ensures pp in Finished(s, low) <==> pp in CreatedAbove(s, low) {
      assert pp in multiset(Finished(s, low)) <==> pp in multiset(CreatedAbove(s, low));
    }
  }

  /** Where both directions agree, the points a backfill has returned are those of a live run. */
  lemma FinishedPointsAgree(s: Setup, start: int, low: int)
    requires Sound(s) && 1 <= start <= low < s.top && Alive(s, low) == [] && AllAgree(s, start, low)
    ensures FinalPoints(s, Finished(s, low), low) == LivePointsOf(s.serve, start, Finished(s, low))
  {
    hide Agrees, LivePoint, Progress, Completed, Alive, Finished, CreatedAbove;
    AllFinished(s, low);
    FinishedAreFinal(s, low);
    var finished := Finished(s, low);
    forall i | 0 <= i < |finished| ensures LivePoint(s.serve, start, finished[i]) == Progress(s, finished[i], low).point {
      assert finished[i] in finished;
      DirectionIndependence(s, start, low, finished[i]);
    }
  }

  /** If the same points are written, the tx of each has the same point in both. */
  lemma SamePointSameTx(s: Setup, start: int, low: int, pp: Pending)
    requires Sound(s) && 1 <= start <= low < s.top && Alive(s, low) == [] && pp in CreatedAbove(s, low)
    requires multiset(LivePointsOf(s.serve, start, CreatedUpTo(s.serve, low, s.top)))
             == multiset(FinalPoints(s, Finished(s, low), low))
    ensures forall mf | mf in pp.missing :: Agrees(s, start, low, pp.height, mf.ts)
  {
    hide Agrees, Completed, Alive, Finished, CreatedAbove, CreatedUpTo, CreatedBy, LiveAnswers, Answers;
    AllFinished(s, low);
    FinishedAreFinal(s, low);
    var created, finished := CreatedUpTo(s.serve, low, s.top), Finished(s, low);
    var livePoints, finalPoints := LivePointsOf(s.serve, start, created), FinalPoints(s, finished, low);
    var i :| 0 <= i < |finished| && finished[i] == pp;
    assert finalPoints[i] in multiset(livePoints);
    var k :| 0 <= k < |livePoints| && livePoints[k] == finalPoints[i];
    var other := created[k];
    CreatedUpToIff(s.serve, low, s.top, other);
    CreatedAboveIff(s, low, pp);
    CreatedHaveHeight(s.serve(other.height), other);
    assert other.point.height == pp.point.height && other.point.txIndex == pp.point.txIndex;
    SameTxSamePoint(s.serve(pp.height), pp, other);
    DirectionIndependence(s, start, low, pp);
  }

  /** A live run over any range that contains the blocks of a completed backfill writes for them the points
      the backfill writes, as a multiset, if and only if both directions agree on every timestamp. */
  lemma SameNumbersIff(s: Setup, live: Config, start: int, top: int, low: int)
    requires Sound(s) && !live.reverse && 1 <= start <= low < s.top <= top
    requires ReadableBetween(s.serve, start, top)
    requires Run(s.cfg, BackwardPairs(s.serve, s.top, s.top - low)).tracker.pending == []
    ensures Run(live, ForwardPairs(s.serve, start, top - start)).points.Some?
    ensures Run(s.cfg, BackwardPairs(s.serve, s.top, s.top - low)).points.Some?
    ensures multiset(PointsBetween(RfqPoints(Run(live, ForwardPairs(s.serve, start, top - start)).points.value), low, s.top))
            == multiset(RfqPoints(Run(s.cfg, BackwardPairs(s.serve, s.top, s.top - low)).points.value))
            <==> AllAgree(s, start, low)
  {
    hide Run, RfqPoints, Readable, Agrees, LivePointsOf, PointsBetween, FinalPoints, Alive, Finished, CreatedAbove, CreatedUpTo;
    ForwardRunIsExact(s.serve, live, start, top);
    BackwardRunIsExact(s, low);
    assert |Alive(s, low)| == 0;
    LivePointsBetween(s.serve, start, top, low, s.top);
    if AllAgree(s, start, low) {
      AllFinished(s, low);
      FinishedPointsAgree(s, start, low);
      PermutedPoints(s.serve, start, CreatedUpTo(s.serve, low, s.top), Finished(s, low));
    } else if multiset(LivePointsOf(s.serve, start, CreatedUpTo(s.serve, low, s.top)))
              == multiset(FinalPoints(s, Finished(s, low), low)) {
      forall pp, mf | pp in CreatedAbove(s, low) && mf in pp.missing ensures Agrees(s, start, low, pp.height, mf.ts) {
        SamePointSameTx(s, start, low, pp);
      }
    }
  }
}
