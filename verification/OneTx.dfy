/** Runs over a chain with a single RFQ tx, as inputs on which a live run and a backfill differ, and on
    which a backfill loses a point. */
module OneTx {
  import opened Chain
  import opened BlockTimes
  import opened Tracker
  import opened Handler
  import opened Conservation
  import opened Backfill
  import opened BackfillRun
  import opened LiveRun
  import opened Directions

  /** One block per time unit; the block at `at` holds one RFQ tx, sent at `ts`. */
  function TxChain(at: int, ts: Time): Serve {
    (h: int) => Block(h, h, if h == at then [Tx(true, [Rfq(None)], Some(ts), false, 0)] else [])
  }

  function OnlyPending(at: int, ts: Time): Pending {
    Pending(Point(at, 0, map[]), at, [MissedField(MemoBlocksMissed, ts)])
  }

  /** The point of that tx, with an answer or without. */
  function OnlyPoint(at: int, answer: Option<int>): Point {
    Point(at, 0, if answer.Some? then map[MemoBlocksMissed := answer.value] else map[])
  }

  lemma OnlyCreated(at: int, ts: Time, h: int)
    ensures Readable(TxChain(at, ts)(h))
    ensures CreatedBy(TxChain(at, ts)(h)) == if h == at then [OnlyPending(at, ts)] else []
  {
    if h == at {
      var msgs: seq<Msg> := [Rfq(None)];
      assert Flatten(msgs[..0]) == Some([]);
      assert Flatten(msgs) == Some([] + msgs);
      assert [] + msgs == msgs;
      var block := TxChain(at, ts)(at);
      assert FindRfq(msgs) == Some(None);
      assert MissingFields(None, Some(ts)) == [MissedField(MemoBlocksMissed, ts)];
      assert Created(block, 1) == Created(block, 0) + NewPending(at, 0, block.txs[0], msgs);
    }
  }

  lemma {:induction false} OnlyCreatedUpTo(at: int, ts: Time, start: int, top: int)
    requires start < at
    ensures CreatedUpTo(TxChain(at, ts), start, top) == if at <= top then [OnlyPending(at, ts)] else []
    decreases top - start
  {
    hide CreatedBy;
    if start < top {
      OnlyCreatedUpTo(at, ts, start, top - 1);
      OnlyCreated(at, ts, top);
    }
  }

  lemma {:induction false} OnlyCreatedAbove(s: Setup, at: int, ts: Time, low: int)
    requires s.serve == TxChain(at, ts) && at <= s.top
    ensures CreatedAbove(s, low) == if low < at then [OnlyPending(at, ts)] else []
    decreases s.top - low
  {
    hide CreatedBy;
    if low < s.top {
      OnlyCreatedAbove(s, at, ts, low + 1);
      OnlyCreated(at, ts, low + 1);
    }
  }

  /** What a live run over the chain writes. */
  lemma LiveWrites(at: int, ts: Time, start: int, top: int)
    requires 1 <= start < at <= top
    ensures var r := Run(Config(false, 0), ForwardPairs(TxChain(at, ts), start, top - start));
            r.points.Some? && RfqPoints(r.points.value) == [OnlyPoint(at, LiveAnswer(TxChain(at, ts), start, at, ts))]
  {
    hide Run, RfqPoints, CreatedBy, LiveAnswer, CreatedUpTo, Readable;
    var serve, pp := TxChain(at, ts), OnlyPending(at, ts);
    AllReadable(at, ts, start, top);
    ForwardRunIsExact(serve, Config(false, 0), start, top);
    OnlyCreatedUpTo(at, ts, start, top);
    assert pp.missing[..|pp.missing| - 1] == [];
    assert LiveAnswers(serve, start, at, []) == map[];
    assert LivePoint(serve, start, pp) == OnlyPoint(at, LiveAnswer(serve, start, at, ts));
    assert LivePointsOf(serve, start, [pp]) == [LivePoint(serve, start, pp)];
  }

  lemma AllReadable(at: int, ts: Time, low: int, high: int)
    ensures ReadableBetween(TxChain(at, ts), low, high)
  {
    forall h ensures Readable(TxChain(at, ts)(h)) {
      OnlyCreated(at, ts, h);
    }
  }

  lemma OnlyWaits(s: Setup, at: int, ts: Time, low: int)
    ensures WaitingFields(s, at, low, OnlyPending(at, ts).missing) ==
            if Waits(s, at, low, ts) then OnlyPending(at, ts).missing else []
    ensures !Waits(s, at, low, ts) ==>
              Progress(s, OnlyPending(at, ts), low).point == OnlyPoint(at, Answer(s, at, low, ts))
  {
    hide Waits, Answer;
    var missing := OnlyPending(at, ts).missing;
    assert missing[..|missing| - 1] == [];
    assert Answers(s, at, low, []) == map[];
  }

  /** What a backfill over the chain writes, and what it leaves behind. */
  lemma BackfillWritesOrKeeps(s: Setup, at: int, ts: Time, low: int)
    requires s.serve == TxChain(at, ts) && s.cfg.reverse && 1 <= low < at <= s.top
    ensures var r := Run(s.cfg, BackwardPairs(s.serve, s.top, s.top - low));
            && r.points.Some?
            && RfqPoints(r.points.value) == (if Waits(s, at, low, ts) then [] else [OnlyPoint(at, Answer(s, at, low, ts))])
            && |r.tracker.pending| == if Waits(s, at, low, ts) then 1 else 0
  {
    hide Run, RfqPoints, CreatedBy, CreatedAbove, Alive, Finished, Readable, Waits, Answer;
    var pp := OnlyPending(at, ts);
    AllReadable(at, ts, low, s.top);
    BackwardRunIsExact(s, low);
    OnlyCreatedAbove(s, at, ts, low);
    OnlyWaits(s, at, ts, low);
    CompletedIsFinished(s, low, pp);
    CreatedAreAliveOrFinished(s, low);
    OneOfTwo(Alive(s, low), Finished(s, low), pp);
    assert FinalPoints(s, [pp], low) == [Progress(s, pp, low).point];
  }

  lemma OneOfTwo<T>(a: seq<T>, b: seq<T>, x: T)
    requires multiset(a) + multiset(b) == multiset([x])
    ensures (x in a && x !in b ==> a == [x] && b == []) && (x in b && x !in a ==> b == [x] && a == [])
  {
    assert |multiset(a)| + |multiset(b)| == |multiset(a) + multiset(b)| == 1;
    assert |a| + |b| == 1;
  }

  // ---------------------------------------------------------------------------
  // Inputs

  /** A tx stamped after the next block: a live run does not know that block yet, a backfill does. */
  lemma LateTimestampsDisagree()
    ensures var chain := TxChain(5, 7);
            var live := Run(Config(false, 0), ForwardPairs(chain, 1, 9));
            var backfill := Run(Config(true, 0), BackwardPairs(chain, 10, 9));
            && live.points.Some? && RfqPoints(live.points.value) == [OnlyPoint(5, Some(-1))]
            && backfill.points.Some? && RfqPoints(backfill.points.value) == [OnlyPoint(5, Some(-3))]
  {
    hide Run, RfqPoints, LastAtOrBefore;
    LiveWrites(5, 7, 1, 10);
    BackfillWritesOrKeeps(Setup(TxChain(5, 7), Config(true, 0), 10), 5, 7, 1);
    LastIsUnique(TxChain(5, 7), 1, 5, 7, 5);
    LastIsUnique(TxChain(5, 7), 1, 10, 7, 7);
  }

  /** A tx stamped one block below the live window: a backfill looks one block deeper. */
  lemma OldestTimestampsDisagree()
    ensures var chain := TxChain(4000, 400);
            var live := Run(Config(false, 0), ForwardPairs(chain, 1, 3999));
            var backfill := Run(Config(true, 0), BackwardPairs(chain, 4000, 3999));
            && live.points.Some? && RfqPoints(live.points.value) == [OnlyPoint(4000, None)]
            && backfill.points.Some? && RfqPoints(backfill.points.value) == [OnlyPoint(4000, Some(3599))]
  {
    hide Run, RfqPoints, LastAtOrBefore;
    LiveWrites(4000, 400, 1, 4000);
    BackfillWritesOrKeeps(Setup(TxChain(4000, 400), Config(true, 0), 4000), 4000, 400, 1);
    LastIsUnique(TxChain(4000, 400), 401, 4000, 400, 400);
    LastIsUnique(TxChain(4000, 400), 400, 4000, 400, 400);
  }

  /** Without a stop height, a backfill from block 2 ends with its only RFQ point, stamped before block 1,
      never written. */
  lemma GenesisLosesPoint()
    ensures var r := Run(Config(true, 0), BackwardPairs(TxChain(2, 0), 2, 1));
            && LowestHeight(0) == 1
            && r.points.Some? && RfqPoints(r.points.value) == [] && |r.tracker.pending| == 1
  {
    hide Run, RfqPoints;
    BackfillWritesOrKeeps(Setup(TxChain(2, 0), Config(true, 0), 2), 2, 0, 1);
  }
}
