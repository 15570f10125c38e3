/** A forward run (live), and when its answers are those of a backward run over the same chain. */
module LiveRun {
  import opened Chain
  import opened BlockTimes
  import opened Tracker
  import opened Handler
  import opened Conservation
  import opened Backfill
  import opened BackfillRun
  import opened Rearrange

  /** The `n` pairs handled going up from `start`. */
  ghost function ForwardPairs(serve: Serve, start: int, n: nat): (pairs: seq<(Block, Block)>)
    ensures |pairs| == n
  {
    seq(n, i => (serve(start + i), serve(start + i + 1)))
  }

  /** The cache after the pair (height - 1, height). */
  ghost function LiveCache(serve: Serve, start: int, height: int): Cache
    requires start <= height
  {
    Window(serve, Max(start, height - CACHE_SIZE + 1), height, CACHE_SIZE)
  }

  /** Blocks missed, by the chain: the latest block at or before `ts` among those still in the window. */
  function LiveAnswer(serve: Serve, start: int, height: int, ts: Time): Option<int> {
    match LastAtOrBefore(serve, Max(start, height - CACHE_SIZE + 1), height, ts)
    case None => None
    case Some(floor) => Some(height - (floor + 1))
  }

  function LiveAnswers(serve: Serve, start: int, height: int, missing: seq<MissedField>): map<Field, int> {
    if missing == [] then map[]
    else
      var before := LiveAnswers(serve, start, height, missing[..|missing| - 1]);
      var last := missing[|missing| - 1];
      match LiveAnswer(serve, start, height, last.ts)
      case None => before
      case Some(v) => before[last.field := v]
  }

  function LivePoint(serve: Serve, start: int, pp: Pending): Point {
    pp.point.(missed := LiveAnswers(serve, start, pp.height, pp.missing))
  }

  function LivePointsOf(serve: Serve, start: int, pps: seq<Pending>): (r: seq<Point>)
    ensures |r| == |pps|
  {
    seq(|pps|, i requires 0 <= i < |pps| => LivePoint(serve, start, pps[i]))
  }

  /** All points created in start + 1 .. height, upwards. */
  function CreatedUpTo(serve: Serve, start: int, height: int): seq<Pending>
    decreases height - start
  {
    if height <= start then [] else CreatedUpTo(serve, start, height - 1) + CreatedBy(serve(height))
  }

  // ---------------------------------------------------------------------------
  // The run

  lemma ObserveGoesUp(serve: Serve, cfg: Config, start: int, height: int)
    requires Faithful(serve) && start < height && !cfg.reverse
    ensures LiveCache(serve, start, height).Valid()
    ensures Observe(cfg, if height == start + 1 then EMPTY.cache else LiveCache(serve, start, height - 1),
                    serve(height - 1), serve(height))
            == LiveCache(serve, start, height)
  {
    if height == start + 1 {
      assert EMPTY.cache.Add(start, serve(start).time) == Window(serve, start, start, CACHE_SIZE);
      WindowForward(serve, start, start, CACHE_SIZE);
    } else {
      var lo := Max(start, height - CACHE_SIZE);
      WindowKnown(serve, lo, height - 1, CACHE_SIZE, height - 1);
      WindowForward(serve, lo, height - 1, CACHE_SIZE);
    }
  }

  /** In forward direction every timestamp is decided at once. */
  lemma JudgedLive(serve: Serve, cfg: Config, start: int, height: int, ts: Time)
    requires Monotonic(serve) && 1 <= start < height && !cfg.reverse
    ensures LiveCache(serve, start, height).Valid()
    ensures Judge(cfg, LiveCache(serve, start, height), height, ts) ==
            match LiveAnswer(serve, start, height, ts)
            case Some(v) => Resolved(v)
            case None => Dropped
  {
    hide LastAtOrBefore;
    hide Search;
    var lo := Max(start, height - CACHE_SIZE + 1);
    FloorOfWindow(serve, lo, height, CACHE_SIZE, ts);
    LastIsUniqueIfNone(serve, lo, height, ts);
  }

  lemma {:induction false} FieldsSettleLive(serve: Serve, cfg: Config, start: int, height: int, missing: seq<MissedField>)
    requires Monotonic(serve) && 1 <= start < height && !cfg.reverse
    ensures LiveCache(serve, start, height).Valid()
    ensures SetFields(cfg, LiveCache(serve, start, height), height, map[], missing) == LiveAnswers(serve, start, height, missing)
    ensures StillMissing(cfg, LiveCache(serve, start, height), height, missing) == []
  {
    hide Judge;
    hide LiveAnswer;
    hide LiveCache;
    JudgedLive(serve, cfg, start, height, 0);
    if missing != [] {
      FieldsSettleLive(serve, cfg, start, height, missing[..|missing| - 1]);
      JudgedLive(serve, cfg, start, height, missing[|missing| - 1].ts);
    }
  }

  lemma {:induction false} FlushLive(serve: Serve, cfg: Config, start: int, height: int, pps: seq<Pending>)
    requires Monotonic(serve) && 1 <= start < height && !cfg.reverse
    requires forall i | 0 <= i < |pps| :: Fresh(pps[i]) && pps[i].height == height
    ensures LiveCache(serve, start, height).Valid()
    ensures Ready(cfg, LiveCache(serve, start, height), pps) == LivePointsOf(serve, start, pps)
    ensures Kept(cfg, LiveCache(serve, start, height), pps) == []
  {
    hide LiveCache;
    FieldsSettleLive(serve, cfg, start, height, []);
    if pps != [] {
      var init, last := pps[..|pps| - 1], pps[|pps| - 1];
      FlushLive(serve, cfg, start, height, init);
      FieldsSettleLive(serve, cfg, start, height, last.missing);
      assert LivePointsOf(serve, start, pps) == LivePointsOf(serve, start, init) + [LivePoint(serve, start, last)];
    }
  }

  lemma ForwardRunSucceedsIff(serve: Serve, cfg: Config, start: int, height: int)
    requires start < height
    ensures Run(cfg, ForwardPairs(serve, start, height - start)).points.Some? <==> ReadableBetween(serve, start, height)
  {
    hide Run;
    hide Readable;
    var pairs := ForwardPairs(serve, start, height - start);
    RunSucceedsIff(cfg, pairs);
    forall h | start < h <= height ensures pairs[h - start - 1].1 == serve(h) {
    }
    forall i | 0 <= i < |pairs| ensures pairs[i].1 == serve(start + i + 1) {
    }
  }

  /** Exactly what a forward run up to `height` has written; it keeps nothing pending. */
  lemma {:induction false} ForwardRunIsExact(serve: Serve, cfg: Config, start: int, height: int)
    requires Faithful(serve) && Monotonic(serve) && 1 <= start < height && !cfg.reverse
    requires ReadableBetween(serve, start, height)
    ensures Run(cfg, ForwardPairs(serve, start, height - start)).points.Some?
    ensures Run(cfg, ForwardPairs(serve, start, height - start)).tracker == TrackerState(LiveCache(serve, start, height), [])
    ensures RfqPoints(Run(cfg, ForwardPairs(serve, start, height - start)).points.value)
            == LivePointsOf(serve, start, CreatedUpTo(serve, start, height))
    decreases height - start
  {
    hide Run;
    hide Ready;
    hide Kept;
    hide Observe;
    hide LiveCache;
    hide LivePointsOf;
    hide CreatedBy;
    hide RfqPoints;
    ForwardRunSucceedsIff(serve, cfg, start, height);
    var pairs := ForwardPairs(serve, start, height - start);
    var init := ForwardPairs(serve, start, height - 1 - start);
    assert pairs[..|pairs| - 1] == init;
    assert pairs[|pairs| - 1] == (serve(height - 1), serve(height));
    RunStep(cfg, pairs);
    ObserveGoesUp(serve, cfg, start, height);
    var created := CreatedBy(serve(height));
    CreatedAtHeight(serve, height);
    FlushLive(serve, cfg, start, height, created);
    if height == start + 1 {
      StartOfRun(serve, cfg, start);
      assert init == [];
    } else {
      ForwardRunIsExact(serve, cfg, start, height - 1);
    }
    assert [] + created == created;
    LivePointsGrow(serve, start, height);
  }

  lemma LivePointsGrow(serve: Serve, start: int, height: int)
    requires start < height
    ensures LivePointsOf(serve, start, CreatedUpTo(serve, start, height)) ==
            LivePointsOf(serve, start, CreatedUpTo(serve, start, height - 1)) + LivePointsOf(serve, start, CreatedBy(serve(height)))
  {
    hide LivePoint;
    hide CreatedBy;
  }

  lemma StartOfRun(serve: Serve, cfg: Config, start: int)
    ensures Run(cfg, []) == Outcome(EMPTY, Some([])) && RfqPoints([]) == []
    ensures LivePointsOf(serve, start, []) == []
  {
  }

  lemma CreatedAtHeight(serve: Serve, height: int)
    requires Faithful(serve)
    ensures forall i | 0 <= i < |CreatedBy(serve(height))| ::
              Fresh(CreatedBy(serve(height))[i]) && CreatedBy(serve(height))[i].height == height
  {
    CreatedAreFresh(serve(height), |serve(height).txs|);
  }

  // ---------------------------------------------------------------------------
  // Range of the answers

  lemma AnswerRanges(s: Setup, start: int, low: int, height: int, ts: Time)
    ensures LiveAnswer(s.serve, start, height, ts).Some? ==> -1 <= LiveAnswer(s.serve, start, height, ts).value <= 3598
    ensures Answer(s, height, low, ts).Some? ==> -3599 <= Answer(s, height, low, ts).value <= 3599
  {
    hide LastAtOrBefore;
  }

  // ---------------------------------------------------------------------------
  // Both directions

  /** When the two directions give the same answer for a timestamp of a tx at `height`: the block at the
      low end of the live window and the deepest block of the backfill are on the same side of it, and
      no later block that the backfill knows is at or before it. */
  predicate Agrees(s: Setup, start: int, low: int, height: int, ts: Time) {
    && (s.serve(Max(start, height - CACHE_SIZE + 1)).time <= ts <==> s.serve(Max(low, Deepest(s.cfg, height))).time <= ts)
    && !(s.top > height && s.serve(height + 1).time <= ts)
  }

  lemma AnswersAgreeIff(s: Setup, start: int, low: int, height: int, ts: Time)
    requires Sound(s) && 1 <= start < height <= s.top && 1 <= low < height
    ensures LiveAnswer(s.serve, start, height, ts) == Answer(s, height, low, ts) <==> Agrees(s, start, low, height, ts)
  {
  }

  lemma {:induction false} LookUpLive(serve: Serve, start: int, height: int, missing: seq<MissedField>, mf: MissedField)
    requires Distinct(missing) && mf in missing
    ensures var m := LiveAnswers(serve, start, height, missing);
            LiveAnswer(serve, start, height, mf.ts) == if mf.field in m then Some(m[mf.field]) else None
  {
    hide LiveAnswer;
    var init, last := missing[..|missing| - 1], missing[|missing| - 1];
    if mf in init {
      LookUpLive(serve, start, height, init, mf);
    } else {
      forall i | 0 <= i < |init| ensures init[i].field != mf.field {
        assert missing[i].field != missing[|missing| - 1].field;
      }
      NotNamedLive(serve, start, height, init, mf.field);
    }
  }

  lemma {:induction false} NotNamedLive(serve: Serve, start: int, height: int, missing: seq<MissedField>, field: Field)
    requires forall i | 0 <= i < |missing| :: missing[i].field != field
    ensures field !in LiveAnswers(serve, start, height, missing)
  {
    hide LiveAnswer;
    if missing != [] {
      NotNamedLive(serve, start, height, missing[..|missing| - 1], field);
    }
  }

  lemma {:induction false} LookUpBack(s: Setup, height: int, low: int, missing: seq<MissedField>, mf: MissedField)
    requires Distinct(missing) && mf in missing && WaitingFields(s, height, low, missing) == []
    ensures var m := Answers(s, height, low, missing);
            Answer(s, height, low, mf.ts) == if mf.field in m then Some(m[mf.field]) else None
  {
    hide Answer;
    hide Waits;
    var init, last := missing[..|missing| - 1], missing[|missing| - 1];
    if mf in init {
      LookUpBack(s, height, low, init, mf);
    } else {
      forall i | 0 <= i < |init| ensures init[i].field != mf.field {
        assert missing[i].field != missing[|missing| - 1].field;
      }
      NotNamedBack(s, height, low, init, mf.field);
    }
  }

  lemma {:induction false} NotNamedBack(s: Setup, height: int, low: int, missing: seq<MissedField>, field: Field)
    requires forall i | 0 <= i < |missing| :: missing[i].field != field
    ensures field !in Answers(s, height, low, missing)
  {
    hide Answer;
    hide Waits;
    if missing != [] {
      NotNamedBack(s, height, low, missing[..|missing| - 1], field);
    }
  }

  lemma {:induction false} SameAnswersSameMap(s: Setup, start: int, low: int, height: int, missing: seq<MissedField>)
    requires WaitingFields(s, height, low, missing) == []
    requires forall mf | mf in missing :: LiveAnswer(s.serve, start, height, mf.ts) == Answer(s, height, low, mf.ts)
    ensures LiveAnswers(s.serve, start, height, missing) == Answers(s, height, low, missing)
  {
    hide Answer;
    hide LiveAnswer;
    hide Waits;
    if missing != [] {
      SameAnswersSameMap(s, start, low, height, missing[..|missing| - 1]);
    }
  }

  /** Direction independence: the point a live run writes and the point a backfill writes for the same
      tx are equal exactly if both directions agree on each of its timestamps. */
  lemma DirectionIndependence(s: Setup, start: int, low: int, pp: Pending)
    requires Sound(s) && Fresh(pp) && 1 <= start < pp.height <= s.top && 1 <= low < pp.height
    requires Completed(s, pp, low)
    ensures LivePoint(s.serve, start, pp) == Progress(s, pp, low).point <==>
            forall mf | mf in pp.missing :: Agrees(s, start, low, pp.height, mf.ts)
  {
    hide Answer;
    hide LiveAnswer;
    hide Agrees;
    forall mf | mf in pp.missing
      ensures LiveAnswer(s.serve, start, pp.height, mf.ts) == Answer(s, pp.height, low, mf.ts) <==>
              Agrees(s, start, low, pp.height, mf.ts)
    {
      AnswersAgreeIff(s, start, low, pp.height, mf.ts);
    }
    if LivePoint(s.serve, start, pp) == Progress(s, pp, low).point {
      forall mf | mf in pp.missing ensures Agrees(s, start, low, pp.height, mf.ts) {
        LookUpLive(s.serve, start, pp.height, pp.missing, mf);
        LookUpBack(s, pp.height, low, pp.missing, mf);
      }
    } else if forall mf | mf in pp.missing :: Agrees(s, start, low, pp.height, mf.ts) {
      SameAnswersSameMap(s, start, low, pp.height, pp.missing);
    }
  }

  /** With the timestamp inside the live window and before the next block, a live run that started below
      the window and a backfill that may descend to the floor both give the chain's answer. */
  lemma DirectionsAgreeInsideWindow(s: Setup, start: int, low: int, height: int, ts: Time)
    requires Sound(s) && 1 <= start <= height - CACHE_SIZE + 1 && height <= s.top && low >= 1
    requires s.serve(height - CACHE_SIZE + 1).time <= ts < s.serve(height + 1).time
    ensures var floor := LastAtOrBefore(s.serve, 1, height, ts);
            && floor.Some? && height - CACHE_SIZE + 1 <= floor.value
            && LiveAnswer(s.serve, start, height, ts) == Some(height - (floor.value + 1))
            && (low < height && low <= floor.value && s.cfg.stopHeight <= floor.value + 1 ==>
                  Answer(s, height, low, ts) == Some(height - (floor.value + 1)))
  {
    hide LastAtOrBefore;
    var windowLow := height - CACHE_SIZE + 1;
    LastIsUniqueIfNone(s.serve, windowLow, height, ts);
    LastIsStable(s.serve, 1, windowLow, height, ts);
    var floor := LastAtOrBefore(s.serve, windowLow, height, ts).value;
    if low < height && low <= floor && s.cfg.stopHeight <= floor + 1 {
      assert s.serve(Max(low, Deepest(s.cfg, height))).time <= s.serve(floor).time;
      AnswersAgreeIff(s, start, low, height, ts);
    }
  }
}
