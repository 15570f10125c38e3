/** What a run writes for a transaction, told from the transaction itself. */
module Written {
  import opened Chain
  import opened BlockTimes
  import opened Tracker
  import opened Handler
  import opened Conservation
  import opened Backfill
  import opened BackfillRun
  import opened LiveRun
  import opened Directions

  /** The messages of the tx, wrappers opened, with `requestedAt` the request time of the first RFQ action. */
  predicate FirstAction(tx: Tx, before: seq<Msg>, requestedAt: Option<Time>, after: seq<Msg>) {
    && Flatten(tx.msgs) == Some(before + [Rfq(requestedAt)] + after)
    && forall msg | msg in before :: !msg.Rfq?
  }

  predicate HasAction(tx: Tx) {
    Flatten(tx.msgs).Some? && exists msg | msg in Flatten(tx.msgs).value :: msg.Rfq?
  }

  // ---------------------------------------------------------------------------
  // RFQ points

  /** A field is set from its own timestamp, and is absent without it or without an answer. */
  ghost predicate FieldIs(point: Point, field: Field, ts: Option<Time>, answer: Time -> Option<int>) {
    if ts.Some? && answer(ts.value).Some? then field in point.missed && point.missed[field] == answer(ts.value).value
    else field !in point.missed
  }

  /** The point a tx creates waits for its request time as the one field and for its memo time as the other. */
  lemma CreatedFrom(block: Block, i: nat, before: seq<Msg>, requestedAt: Option<Time>, after: seq<Msg>) returns (pp: Pending)
    requires i < |block.txs| && FirstAction(block.txs[i], before, requestedAt, after)
    ensures pp in CreatedBy(block) && pp.height == block.height && IdOf(pp.point) == (block.height, i) && Fresh(pp)
    ensures forall t :: MissedField(RfqIdBlocksMissed, t) in pp.missing <==> requestedAt == Some(t)
    ensures forall t :: MissedField(MemoBlocksMissed, t) in pp.missing <==> block.txs[i].sentAt == Some(t)
  {
    var tx := block.txs[i];
    FindRfqIsFirst(before, requestedAt, after);
    pp := Pending(Point(block.height, i, map[]), block.height, MissingFields(requestedAt, tx.sentAt));
    hide Flatten, FindRfq;
    assert NewPending(block.height, i, tx, Flatten(tx.msgs).value) == [pp];
    CreatedContains(block, |block.txs|, i, pp);
    CreatedHaveHeight(block, pp);
  }

  lemma {:induction false} CreatedContains(block: Block, n: nat, i: nat, pp: Pending)
    requires i < n <= |block.txs| && Flatten(block.txs[i].msgs).Some?
    requires NewPending(block.height, i, block.txs[i], Flatten(block.txs[i].msgs).value) == [pp]
    ensures pp in Created(block, n)
  {
    hide Flatten, NewPending;
    if i < n - 1 {
      CreatedContains(block, n - 1, i, pp);
    }
  }

  lemma NotCreated(block: Block, i: nat, pp: Pending)
    requires i < |block.txs| && !HasAction(block.txs[i]) && pp in CreatedBy(block)
    ensures pp.point.txIndex != i
  {
    CreatedByTx(block, |block.txs|, pp);
    var msgs := Flatten(block.txs[pp.point.txIndex].msgs).value;
    FindRfqIff(msgs);
    hide Flatten, FindRfq, Created;
    assert FindRfq(msgs).Some?;
  }

  /** For each RFQ tx of a handled block a live run has written one point, with the field of the request time set
      from the request time alone and that of the memo time from the memo time alone. */
  lemma LiveWritesTx(serve: Serve, live: Config, start: int, top: int, h: int, i: nat, before: seq<Msg>,
                     requestedAt: Option<Time>, after: seq<Msg>) returns (point: Point)
    requires Faithful(serve) && Monotonic(serve) && !live.reverse && 1 <= start < h <= top
    requires ReadableBetween(serve, start, top)
    requires i < |serve(h).txs| && FirstAction(serve(h).txs[i], before, requestedAt, after)
    ensures var run := Run(live, ForwardPairs(serve, start, top - start));
            && Wrote(run, point) && IdOf(point) == (h, i)
            && forall other | Wrote(run, other) && IdOf(other) == (h, i) :: other == point
    ensures FieldIs(point, RfqIdBlocksMissed, requestedAt, ts => LiveAnswer(serve, start, h, ts))
    ensures FieldIs(point, MemoBlocksMissed, serve(h).txs[i].sentAt, ts => LiveAnswer(serve, start, h, ts))
  {
    hide Run, RfqPoints, CreatedBy, CreatedUpTo, Readable, LiveAnswer, FirstAction, LivePointsOf;
    var pp := CreatedFrom(serve(h), i, before, requestedAt, after);
    point := LivePoint(serve, start, pp);
    LiveRunWrites(serve, live, start, top, pp);
    LiveFields(serve, start, pp, RfqIdBlocksMissed, requestedAt);
    LiveFields(serve, start, pp, MemoBlocksMissed, serve(h).txs[i].sentAt);
    forall other | Wrote(Run(live, ForwardPairs(serve, start, top - start)), other) && IdOf(other) == (h, i)
      ensures other == point
    {
      var qq := LiveRunWroteFor(serve, live, start, top, other);
      SameTxSamePoint(serve(h), pp, qq);
    }
  }

  lemma LiveFields(serve: Serve, start: int, pp: Pending, field: Field, ts: Option<Time>)
    requires Fresh(pp) && forall t :: MissedField(field, t) in pp.missing <==> ts == Some(t)
    ensures FieldIs(LivePoint(serve, start, pp), field, ts, t => LiveAnswer(serve, start, pp.height, t))
  {
    hide LiveAnswer;
    if ts.Some? {
      LookUpLive(serve, start, pp.height, pp.missing, MissedField(field, ts.value));
    } else {
      forall i | 0 <= i < |pp.missing| ensures pp.missing[i].field != field {
        assert pp.missing[i] == MissedField(pp.missing[i].field, pp.missing[i].ts);
        assert pp.missing[i] in pp.missing;
      }
      NotNamedLive(serve, start, pp.height, pp.missing, field);
    }
  }

  /** A point a live run has written was created by its tx. */
  lemma LiveRunWroteFor(serve: Serve, live: Config, start: int, top: int, point: Point) returns (pp: Pending)
    requires Faithful(serve) && Monotonic(serve) && !live.reverse && 1 <= start < top && ReadableBetween(serve, start, top)
    requires Wrote(Run(live, ForwardPairs(serve, start, top - start)), point)
    ensures start < pp.height <= top && pp in CreatedBy(serve(pp.height)) && Fresh(pp)
    ensures IdOf(pp.point) == IdOf(point) && pp.height == point.height && point == LivePoint(serve, start, pp)
  {
    hide Run, RfqPoints, CreatedBy, CreatedUpTo, Readable, LiveAnswers;
    ForwardRunIsExact(serve, live, start, top);
    var pps := CreatedUpTo(serve, start, top);
    var k :| 0 <= k < |pps| && LivePointsOf(serve, start, pps)[k] == point;
    pp := pps[k];
    CreatedUpToIff(serve, start, top, pp);
    CreatedHaveHeight(serve(pp.height), pp);
  }

  /** The same for a backfill that no longer waits for the tx's timestamps. */
  lemma BackfillWritesTx(s: Setup, low: int, h: int, i: nat, before: seq<Msg>, requestedAt: Option<Time>, after: seq<Msg>)
    returns (point: Point)
    requires Sound(s) && 1 <= low < h <= s.top && ReadableBetween(s.serve, low, s.top)
    requires i < |s.serve(h).txs| && FirstAction(s.serve(h).txs[i], before, requestedAt, after)
    requires requestedAt.Some? ==> !Waits(s, h, low, requestedAt.value)
    requires s.serve(h).txs[i].sentAt.Some? ==> !Waits(s, h, low, s.serve(h).txs[i].sentAt.value)
    ensures var run := Run(s.cfg, BackwardPairs(s.serve, s.top, s.top - low));
            && Wrote(run, point) && IdOf(point) == (h, i)
            && forall other | Wrote(run, other) && IdOf(other) == (h, i) :: other == point
    ensures FieldIs(point, RfqIdBlocksMissed, requestedAt, ts => Answer(s, h, low, ts))
    ensures FieldIs(point, MemoBlocksMissed, s.serve(h).txs[i].sentAt, ts => Answer(s, h, low, ts))
  {
    hide Run, RfqPoints, CreatedBy, CreatedAbove, Readable, Answer, FirstAction, Waits, Finished;
    var pp := CreatedFrom(s.serve(h), i, before, requestedAt, after);
    point := Progress(s, pp, low).point;
    forall mf | mf in pp.missing ensures !Waits(s, h, low, mf.ts) {
      assert mf == MissedField(mf.field, mf.ts);
    }
    CompletedIff(s, h, low, pp.missing);
    BackfillWrites(s, low, pp);
    BackfillFields(s, low, pp, RfqIdBlocksMissed, requestedAt);
    BackfillFields(s, low, pp, MemoBlocksMissed, s.serve(h).txs[i].sentAt);
    forall other | Wrote(Run(s.cfg, BackwardPairs(s.serve, s.top, s.top - low)), other) && IdOf(other) == (h, i)
      ensures other == point
    {
      var qq := BackfillWroteFor(s, low, other);
      SameTxSamePoint(s.serve(h), pp, qq);
    }
  }

  lemma BackfillFields(s: Setup, low: int, pp: Pending, field: Field, ts: Option<Time>)
    requires Fresh(pp) && Completed(s, pp, low) && forall t :: MissedField(field, t) in pp.missing <==> ts == Some(t)
    ensures FieldIs(Progress(s, pp, low).point, field, ts, t => Answer(s, pp.height, low, t))
  {
    hide Answer, Waits;
    if ts.Some? {
      LookUpBack(s, pp.height, low, pp.missing, MissedField(field, ts.value));
    } else {
      forall i | 0 <= i < |pp.missing| ensures pp.missing[i].field != field {
        assert pp.missing[i] == MissedField(pp.missing[i].field, pp.missing[i].ts);
        assert pp.missing[i] in pp.missing;
      }
      NotNamedBack(s, pp.height, low, pp.missing, field);
    }
  }

  lemma BackfillWroteFor(s: Setup, low: int, point: Point) returns (pp: Pending)
    requires Sound(s) && 1 <= low < s.top && ReadableBetween(s.serve, low, s.top)
    requires Wrote(Run(s.cfg, BackwardPairs(s.serve, s.top, s.top - low)), point)
    ensures low < pp.height <= s.top && pp in CreatedBy(s.serve(pp.height)) && Fresh(pp)
    ensures IdOf(pp.point) == IdOf(point) && pp.height == point.height && point == Progress(s, pp, low).point
  {
    hide Run, RfqPoints, CreatedBy, CreatedAbove, Readable, Answers, WaitingFields, Alive, Finished;
    BackwardRunIsExact(s, low);
    var pps := Finished(s, low);
    var k :| 0 <= k < |pps| && FinalPoints(s, pps, low)[k] == point;
    pp := pps[k];
    CreatedAreAliveOrFinished(s, low);
    assert pp in multiset(Alive(s, low)) + multiset(pps);
    assert pp in multiset(CreatedAbove(s, low));
    CreatedAboveIff(s, low, pp);
    CreatedHaveHeight(s.serve(pp.height), pp);
  }

  /** A tx without an RFQ action has no RFQ point, in either direction. */
  lemma NoActionNoPoint(s: Setup, live: Config, start: int, top: int, low: int, h: int, i: nat, point: Point)
    requires Sound(s) && !live.reverse && 1 <= start < top && 1 <= low < s.top
    requires ReadableBetween(s.serve, start, top) && ReadableBetween(s.serve, low, s.top)
    requires i < |s.serve(h).txs| && !HasAction(s.serve(h).txs[i]) && IdOf(point) == (h, i)
    ensures !Wrote(Run(live, ForwardPairs(s.serve, start, top - start)), point)
    ensures !Wrote(Run(s.cfg, BackwardPairs(s.serve, s.top, s.top - low)), point)
  {
    hide Run, RfqPoints, CreatedBy, Readable, HasAction;
    if Wrote(Run(live, ForwardPairs(s.serve, start, top - start)), point) {
      var pp := LiveRunWroteFor(s.serve, live, start, top, point);
      NotCreated(s.serve(h), i, pp);
    }
    if Wrote(Run(s.cfg, BackwardPairs(s.serve, s.top, s.top - low)), point) {
      var pp := BackfillWroteFor(s, low, point);
      NotCreated(s.serve(h), i, pp);
    }
  }

  // ---------------------------------------------------------------------------
  // WASM error and quote points

  /** The first `n` txs of the block call for this point: a WASM error of a failed tx, or a quote of an RFQ tx. */
  predicate Due(block: Block, n: nat, p: OutPoint)
    requires n <= |block.txs|
  {
    match p
    case WasmErrorPoint(h, i) => h == block.height && i < n && block.txs[i].wasmFailure
    case QuotePoint(h, i, q) => h == block.height && i < n && HasAction(block.txs[i]) && q < block.txs[i].quotes
    case RfqTxPoint(_) => false
    case OtherPoint(_, _) => false
  }

  lemma {:induction false} QuoteCount(height: int, i: nat, n: nat, p: OutPoint)
    ensures multiset(seq(n, q requires 0 <= q => QuotePoint(height, i, q)))[p] ==
            if p.QuotePoint? && p.height == height && p.txIndex == i && p.quote < n then 1 else 0
  {
    var quotes := seq(n, q requires 0 <= q => QuotePoint(height, i, q));
    if n > 0 {
      QuoteCount(height, i, n - 1, p);
      assert quotes == seq(n - 1, q requires 0 <= q => QuotePoint(height, i, q)) + [QuotePoint(height, i, n - 1)];
    }
  }

  lemma TxCount(height: int, i: nat, tx: Tx, p: OutPoint)
    requires Flatten(tx.msgs).Some?
    ensures multiset(ImmediatePoints(height, i, tx, Flatten(tx.msgs).value))[p] ==
            match p
            case WasmErrorPoint(h, k) => if h == height && k == i && tx.wasmFailure then 1 else 0
            case QuotePoint(h, k, q) => if h == height && k == i && HasAction(tx) && q < tx.quotes then 1 else 0
            case _ => 0
  {
    var msgs := Flatten(tx.msgs).value;
    FindRfqIff(msgs);
    hide Flatten, FindRfq;
    QuoteCount(height, i, tx.quotes, p);
  }

  lemma {:induction false} BlockCount(tracker: TrackerState, block: Block, n: nat, p: OutPoint)
    requires n <= |block.txs| && HandleTxs(tracker, block, n).points.Some?
    ensures multiset(HandleTxs(tracker, block, n).points.value)[p] == if Due(block, n, p) then 1 else 0
  {
    hide Flatten, NewPending, ImmediatePoints, HasAction;
    if n > 0 {
      BlockCount(tracker, block, n - 1, p);
      TxCount(block.height, n - 1, block.txs[n - 1], p);
    }
  }

  /** The order in which a block's points are written: by tx, the WASM error before the quotes, these in order. */
  predicate Earlier(p: OutPoint, q: OutPoint) {
    match (p, q)
    case (WasmErrorPoint(_, i), WasmErrorPoint(_, k)) => i < k
    case (WasmErrorPoint(_, i), QuotePoint(_, k, _)) => i <= k
    case (QuotePoint(_, i, _), WasmErrorPoint(_, k)) => i < k
    case (QuotePoint(_, i, a), QuotePoint(_, k, b)) => i < k || (i == k && a < b)
    case _ => false
  }

  /** A WASM error or quote point of a tx from `low` up to before `high`. */
  predicate OfTxs(p: OutPoint, low: nat, high: nat) {
    match p
    case WasmErrorPoint(_, k) => low <= k < high
    case QuotePoint(_, k, _) => low <= k < high
    case _ => false
  }

  lemma TxInOrder(height: int, i: nat, tx: Tx, msgs: seq<Msg>)
    ensures var points := ImmediatePoints(height, i, tx, msgs);
            && (forall a, b | 0 <= a < b < |points| :: Earlier(points[a], points[b]))
            && (forall a | 0 <= a < |points| :: OfTxs(points[a], i, i + 1))
  {
    hide FindRfq;
  }

  lemma {:induction false} BlockInOrder(tracker: TrackerState, block: Block, n: nat)
    requires n <= |block.txs| && HandleTxs(tracker, block, n).points.Some?
    ensures var points := HandleTxs(tracker, block, n).points.value;
            && (forall a, b | 0 <= a < b < |points| :: Earlier(points[a], points[b]))
            && (forall a | 0 <= a < |points| :: OfTxs(points[a], 0, n))
  {
    hide Flatten, NewPending, ImmediatePoints;
    if n > 0 {
      BlockInOrder(tracker, block, n - 1);
      var tx := block.txs[n - 1];
      TxInOrder(block.height, n - 1, tx, Flatten(tx.msgs).value);
    }
  }

  /** How many of the handled blocks call for the point. */
  function DueCount(pairs: seq<(Block, Block)>, p: OutPoint): nat {
    if pairs == [] then 0
    else
      var next := pairs[|pairs| - 1].1;
      DueCount(pairs[..|pairs| - 1], p) + if Due(next, |next.txs|, p) then 1 else 0
  }

  /** Over any run, each WASM error and quote point is written as often as a handled block calls for it. */
  lemma {:induction false} RunCount(cfg: Config, pairs: seq<(Block, Block)>, p: OutPoint)
    requires Run(cfg, pairs).points.Some? && !p.RfqTxPoint?
    ensures multiset(Run(cfg, pairs).points.value)[p] == DueCount(pairs, p)
  {
    hide Handle, Due;
    if pairs != [] {
      var init := pairs[..|pairs| - 1];
      var (prev, next) := pairs[|pairs| - 1];
      RunCount(cfg, init, p);
      PairCount(cfg, Run(cfg, init).tracker, prev, next, p);
    }
  }

  lemma PairCount(cfg: Config, tracker: TrackerState, prev: Block, next: Block, p: OutPoint)
    requires tracker.cache.Valid() && Handle(cfg, tracker, prev, next).points.Some? && !p.RfqTxPoint?
    ensures multiset(Handle(cfg, tracker, prev, next).points.value)[p] == if Due(next, |next.txs|, p) then 1 else 0
  {
    hide HandleTxs, Due, Ready, Kept;
    var cache := Observe(cfg, tracker.cache, prev, next);
    var done := HandleTxs(tracker.(cache := cache), next, |next.txs|);
    BlockCount(tracker.(cache := cache), next, |next.txs|, p);
    NoneAmongRfq(Ready(cfg, cache, done.tracker.pending), p);
  }

  lemma NoneAmongRfq(points: seq<Point>, p: OutPoint)
    requires !p.RfqTxPoint?
    ensures multiset(AsOutPoints(points))[p] == 0
  {
    assert p !in AsOutPoints(points);
  }

  /** The height of the tx the point is about. */
  function HeightOf(p: OutPoint): int {
    match p
    case RfqTxPoint(point) => point.height
    case QuotePoint(h, _, _) => h
    case WasmErrorPoint(h, _) => h
    case OtherPoint(_, h) => h
  }

  lemma {:induction false} ForwardCount(serve: Serve, start: int, n: nat, p: OutPoint)
    requires Faithful(serve)
    ensures var h := HeightOf(p);
            DueCount(ForwardPairs(serve, start, n), p) ==
            if start < h <= start + n && Due(serve(h), |serve(h).txs|, p) then 1 else 0
  {
    hide HasAction;
    if n > 0 {
      var pairs := ForwardPairs(serve, start, n);
      assert pairs[..n - 1] == ForwardPairs(serve, start, n - 1);
      ForwardCount(serve, start, n - 1, p);
    }
  }

  lemma {:induction false} BackwardCount(serve: Serve, top: int, n: nat, p: OutPoint)
    requires Faithful(serve)
    ensures var h := HeightOf(p);
            DueCount(BackwardPairs(serve, top, n), p) ==
            if top - n < h <= top && Due(serve(h), |serve(h).txs|, p) then 1 else 0
  {
    hide HasAction;
    if n > 0 {
      var pairs := BackwardPairs(serve, top, n);
      assert pairs[..n - 1] == BackwardPairs(serve, top, n - 1);
      BackwardCount(serve, top, n - 1, p);
    }
  }

  /** A live run writes each WASM error and quote point of its range once, and no other such point. */
  lemma LiveWritesOnce(serve: Serve, live: Config, start: int, top: int, p: OutPoint)
    requires Faithful(serve) && start < top && ReadableBetween(serve, start, top) && !p.RfqTxPoint?
    ensures var run, h := Run(live, ForwardPairs(serve, start, top - start)), HeightOf(p);
            && run.points.Some?
            && multiset(run.points.value)[p] == if start < h <= top && Due(serve(h), |serve(h).txs|, p) then 1 else 0
  {
    hide Run, Due, Readable;
    ForwardRunSucceedsIff(serve, live, start, top);
    RunCount(live, ForwardPairs(serve, start, top - start), p);
    ForwardCount(serve, start, top - start, p);
  }

  /** So does a backfill. */
  lemma BackfillWritesOnce(s: Setup, low: int, p: OutPoint)
    requires Faithful(s.serve) && low < s.top && ReadableBetween(s.serve, low, s.top) && !p.RfqTxPoint?
    ensures var run, h := Run(s.cfg, BackwardPairs(s.serve, s.top, s.top - low)), HeightOf(p);
            && run.points.Some?
            && multiset(run.points.value)[p] == if low < h <= s.top && Due(s.serve(h), |s.serve(h).txs|, p) then 1 else 0
  {
    hide Run, Due, Readable;
    BackwardRunSucceedsIff(s, low);
    RunCount(s.cfg, BackwardPairs(s.serve, s.top, s.top - low), p);
    BackwardCount(s.serve, s.top, s.top - low, p);
  }
}
