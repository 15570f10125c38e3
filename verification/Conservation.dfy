/** What holds of the tracker over any run of the handler, contiguous or not, in either
    direction: no RFQ point is lost or duplicated, and no field is set twice. */
module Conservation {
  import opened Chain
  import opened BlockTimes
  import opened Tracker
  import opened Handler

  /** A point is identified by its tx. */
  type Id = (int, nat)

  function IdOf(point: Point): Id {
    (point.height, point.txIndex)
  }

  function IdsOf(points: seq<Point>): (ids: seq<Id>)
    ensures |ids| == |points|
  {
    seq(|points|, i requires 0 <= i < |points| => IdOf(points[i]))
  }

  function PendingIdsOf(pending: seq<Pending>): (ids: seq<Id>)
    ensures |ids| == |pending|
  {
    seq(|pending|, i requires 0 <= i < |pending| => IdOf(pending[i].point))
  }

  function Ids(points: seq<Point>): multiset<Id> { multiset(IdsOf(points)) }

  function PendingIds(pending: seq<Pending>): multiset<Id> { multiset(PendingIdsOf(pending)) }

  lemma IdsAppend(a: seq<Point>, b: seq<Point>)
    ensures Ids(a + b) == Ids(a) + Ids(b)
  {
    assert IdsOf(a + b) == IdsOf(a) + IdsOf(b);
  }

  lemma PendingIdsAppend(a: seq<Pending>, b: seq<Pending>)
    ensures PendingIds(a + b) == PendingIds(a) + PendingIds(b)
  {
    assert PendingIdsOf(a + b) == PendingIdsOf(a) + PendingIdsOf(b);
  }

  lemma SingleId(cfg: Config, cache: Cache, pp: Pending)
    requires cache.Valid()
    ensures var settled := Settle(cfg, cache, pp);
            PendingIds([pp]) == PendingIds([settled]) == Ids([settled.point])
  {
  }

  // ---------------------------------------------------------------------------
  // One flush

  lemma {:induction false} FlushConserves(cfg: Config, cache: Cache, pending: seq<Pending>)
    requires cache.Valid()
    ensures Ids(Ready(cfg, cache, pending)) + PendingIds(Kept(cfg, cache, pending)) == PendingIds(pending)
  {
    hide Settle;
    hide Ids;
    hide PendingIds;
    if pending == [] {
      NoIds();
    } else {
      var init, last := pending[..|pending| - 1], pending[|pending| - 1];
      var settled := Settle(cfg, cache, last);
      FlushConserves(cfg, cache, init);
      assert pending == init + [last];
      PendingIdsAppend(init, [last]);
      SingleId(cfg, cache, last);
      if settled.missing == [] {
        IdsAppend(Ready(cfg, cache, init), [settled.point]);
        assert Kept(cfg, cache, pending) == Kept(cfg, cache, init);
      } else {
        PendingIdsAppend(Kept(cfg, cache, init), [settled]);
        assert Ready(cfg, cache, pending) == Ready(cfg, cache, init);
      }
    }
  }

  lemma NoIds()
    ensures Ids([]) == PendingIds([]) == multiset{}
  {
  }

  /** Unless blocks still come from below, nothing is kept. */
  lemma {:induction false} NothingWaitsWithoutLowerBlocks(cfg: Config, cache: Cache, pending: seq<Pending>)
    requires cache.Valid() && !CanGoLower(cfg, cache)
    ensures Kept(cfg, cache, pending) == []
  {
    if pending != [] {
      var pp := pending[|pending| - 1];
      NothingWaitsWithoutLowerBlocks(cfg, cache, pending[..|pending| - 1]);
      NoFieldWaits(cfg, cache, pp.height, pp.missing);
    }
  }

  lemma {:induction false} NoFieldWaits(cfg: Config, cache: Cache, height: int, missing: seq<MissedField>)
    requires cache.Valid() && !CanGoLower(cfg, cache)
    ensures StillMissing(cfg, cache, height, missing) == []
  {
    if missing != [] {
      NoFieldWaits(cfg, cache, height, missing[..|missing| - 1]);
    }
  }

  ghost predicate Distinct(missing: seq<MissedField>) {
    forall i, j | 0 <= i < j < |missing| :: missing[i].field != missing[j].field
  }

  ghost predicate Names(missing: seq<MissedField>, field: Field) {
    exists i :: 0 <= i < |missing| && missing[i].field == field
  }

  /** No field is both set and missing, or missing twice. */
  ghost predicate Consistent(missed: map<Field, int>, missing: seq<MissedField>) {
    && Distinct(missing)
    && forall field | field in missed :: !Names(missing, field)
  }

  /** A flush sets each missing field at most once: set fields keep their value and never become
      missing again, and every field of the point stays set, waits, or is given up. */
  lemma {:induction false} SettleSetsOnce(cfg: Config, cache: Cache, height: int, missed: map<Field, int>, missing: seq<MissedField>)
    requires cache.Valid() && Consistent(missed, missing)
    ensures var missed' := SetFields(cfg, cache, height, missed, missing);
            var missing' := StillMissing(cfg, cache, height, missing);
            && Consistent(missed', missing')
            && (forall field | field in missed :: field in missed' && missed'[field] == missed[field])
            && (forall field | field in missed' :: field in missed || Names(missing, field))
            && (forall field | Names(missing', field) :: Names(missing, field))
  {
    if missing != [] {
      var init := missing[..|missing| - 1];
      var last := missing[|missing| - 1];
      assert forall field | Names(init, field) :: Names(missing, field) by {
        forall field | Names(init, field) ensures Names(missing, field) {
          var i :| 0 <= i < |init| && init[i].field == field;
          assert missing[i].field == field;
        }
      }
      assert Names(missing, last.field);
      SettleSetsOnce(cfg, cache, height, missed, init);
      assert !Names(init, last.field);
      var before := StillMissing(cfg, cache, height, init);
      assert !Names(before, last.field);
      forall field | Names(before + [last], field) ensures Names(before, field) || field == last.field {
        var i :| 0 <= i < |before + [last]| && (before + [last])[i].field == field;
        assert i < |before| ==> before[i].field == field;
      }
      forall i, j | 0 <= i < j < |before + [last]| ensures (before + [last])[i].field != (before + [last])[j].field {
        assert before[i].field == (before + [last])[i].field;
      }
    }
  }

  // ---------------------------------------------------------------------------
  // Whole runs

  /** The pending points the first `n` transactions of a block create. */
  function Created(block: Block, n: nat): seq<Pending>
    requires n <= |block.txs|
  {
    if n == 0 then []
    else
      Created(block, n - 1) +
      match Flatten(block.txs[n - 1].msgs)
      case None => []
      case Some(msgs) => NewPending(block.height, n - 1, block.txs[n - 1], msgs)
  }

  function CreatedBy(block: Block): seq<Pending> {
    Created(block, |block.txs|)
  }

  lemma {:induction false} HandleTxsCreate(tracker: TrackerState, block: Block, n: nat)
    requires n <= |block.txs| && HandleTxs(tracker, block, n).points.Some?
    ensures HandleTxs(tracker, block, n).tracker.pending == tracker.pending + Created(block, n)
    ensures RfqPoints(HandleTxs(tracker, block, n).points.value) == []
  {
    hide ImmediatePoints;
    hide NewPending;
    hide Flatten;
    hide RfqPoints;
    if n == 0 {
      NoRfqPoints([]);
    } else {
      HandleTxsCreate(tracker, block, n - 1);
      var tx := block.txs[n - 1];
      var immediate := ImmediatePoints(block.height, n - 1, tx, Flatten(tx.msgs).value);
      RfqPointsAppend(HandleTxs(tracker, block, n - 1).points.value, immediate);
      ImmediateAreNotRfqTxs(block.height, n - 1, tx, Flatten(tx.msgs).value);
    }
  }

  lemma ImmediateAreNotRfqTxs(height: int, txIndex: nat, tx: Tx, msgs: seq<Msg>)
    ensures RfqPoints(ImmediatePoints(height, txIndex, tx, msgs)) == []
  {
    NoRfqPoints(ImmediatePoints(height, txIndex, tx, msgs));
  }

  /** The RFQ tx points among the written ones. */
  function RfqPoints(out: seq<OutPoint>): seq<Point> {
    if out == [] then []
    else
      var last := out[|out| - 1];
      RfqPoints(out[..|out| - 1]) + if last.RfqTxPoint? then [last.point] else []
  }

  lemma {:induction false} RfqPointsAppend(a: seq<OutPoint>, b: seq<OutPoint>)
    ensures RfqPoints(a + b) == RfqPoints(a) + RfqPoints(b)
  {
    if b == [] {
      assert a + b == a;
    } else {
      assert (a + b)[..|a + b| - 1] == a + b[..|b| - 1];
      RfqPointsAppend(a, b[..|b| - 1]);
    }
  }

  lemma {:induction false} NoRfqPoints(out: seq<OutPoint>)
    requires forall p | p in out :: !p.RfqTxPoint?
    ensures RfqPoints(out) == []
  {
    if out != [] {
      NoRfqPoints(out[..|out| - 1]);
    }
  }

  lemma {:induction false} RfqPointsOfReady(points: seq<Point>)
    ensures RfqPoints(AsOutPoints(points)) == points
  {
    if points != [] {
      var init := points[..|points| - 1];
      RfqPointsOfReady(init);
      assert AsOutPoints(points)[..|points| - 1] == AsOutPoints(init);
      assert points == init + [points[|points| - 1]];
    }
  }

  /** The tracker and all points written after handling the pairs in order, by a fresh handler. */
  function Run(cfg: Config, pairs: seq<(Block, Block)>): (r: Outcome)
    ensures r.tracker.cache.Valid()
  {
    if pairs == [] then Outcome(EMPTY, Some([]))
    else
      var before := Run(cfg, pairs[..|pairs| - 1]);
      var (prev, next) := pairs[|pairs| - 1];
      if before.points.None? then before
      else
        var r := Handle(cfg, before.tracker, prev, next);
        if r.points.None? then r else r.(points := Some(before.points.value + r.points.value))
  }

  /** Every transaction decodes and every authz wrapper unpacks. */
  predicate Readable(block: Block) {
    forall i | 0 <= i < |block.txs| :: block.txs[i].decodable && Flatten(block.txs[i].msgs).Some?
  }

  lemma ReadableIff(block: Block)
    ensures Readable(block) <==>
            forall i | 0 <= i < |block.txs| ::
              && block.txs[i].decodable
              && forall msg | msg in block.txs[i].msgs && msg.Exec? :: forall m | m in msg.inner :: m.Some?
  {
    hide Flatten;
    forall i | 0 <= i < |block.txs|
      ensures Flatten(block.txs[i].msgs).Some? <==>
              forall msg | msg in block.txs[i].msgs && msg.Exec? :: forall m | m in msg.inner :: m.Some?
    {
      FlattenSucceedsIff(block.txs[i].msgs);
    }
  }

  /** All blocks above `low` and up to `high` are readable. */
  predicate ReadableBetween(serve: Serve, low: int, high: int) {
    forall h | low < h <= high :: Readable(serve(h))
  }

  lemma {:induction false} HandleTxsSucceed(tracker: TrackerState, block: Block, n: nat)
    requires n <= |block.txs|
    ensures HandleTxs(tracker, block, n).points.Some? <==>
            forall i | 0 <= i < n :: block.txs[i].decodable && Flatten(block.txs[i].msgs).Some?
  {
    hide Flatten, NewPending, ImmediatePoints;
    if n > 0 {
      HandleTxsSucceed(tracker, block, n - 1);
    }
  }

  lemma HandleSucceedsIff(cfg: Config, tracker: TrackerState, prev: Block, next: Block)
    requires tracker.cache.Valid()
    ensures Handle(cfg, tracker, prev, next).points.Some? <==> Readable(next)
  {
    HandleTxsSucceed(tracker.(cache := Observe(cfg, tracker.cache, prev, next)), next, |next.txs|);
  }

  /** A run fails exactly if some handled block is not readable. */
  lemma {:induction false} RunSucceedsIff(cfg: Config, pairs: seq<(Block, Block)>)
    ensures Run(cfg, pairs).points.Some? <==> forall i | 0 <= i < |pairs| :: Readable(pairs[i].1)
  {
    hide Handle;
    hide Readable;
    if pairs != [] {
      var init := pairs[..|pairs| - 1];
      var (prev, next) := pairs[|pairs| - 1];
      RunSucceedsIff(cfg, init);
      HandleSucceedsIff(cfg, Run(cfg, init).tracker, prev, next);
      assert forall i | 0 <= i < |init| :: pairs[i] == init[i];
    }
  }

  function CreatedIn(pairs: seq<(Block, Block)>): seq<Pending> {
    if pairs == [] then [] else CreatedIn(pairs[..|pairs| - 1]) + CreatedBy(pairs[|pairs| - 1].1)
  }

  /** What one pair does to the tracker and the RFQ points, when the handler succeeds. */
  lemma HandleEffect(cfg: Config, tracker: TrackerState, prev: Block, next: Block)
    requires tracker.cache.Valid() && Handle(cfg, tracker, prev, next).points.Some?
    ensures var r := Handle(cfg, tracker, prev, next);
            var cache := Observe(cfg, tracker.cache, prev, next);
            var pending := tracker.pending + CreatedBy(next);
            && r.tracker == TrackerState(cache, Kept(cfg, cache, pending))
            && RfqPoints(r.points.value) == Ready(cfg, cache, pending)
  {
    var cache := Observe(cfg, tracker.cache, prev, next);
    var observed := tracker.(cache := cache);
    HandleTxsCreate(observed, next, |next.txs|);
    var done := HandleTxs(observed, next, |next.txs|);
    RfqPointsAppend(done.points.value, AsOutPoints(Ready(cfg, cache, done.tracker.pending)));
    RfqPointsOfReady(Ready(cfg, cache, done.tracker.pending));
  }

  /** What the last pair of a run adds. */
  lemma RunStep(cfg: Config, pairs: seq<(Block, Block)>)
    requires pairs != [] && Run(cfg, pairs).points.Some?
    ensures var init := pairs[..|pairs| - 1];
            var (prev, next) := pairs[|pairs| - 1];
            && Run(cfg, init).points.Some?
            && var before := Run(cfg, init);
               var cache := Observe(cfg, before.tracker.cache, prev, next);
               var pending := before.tracker.pending + CreatedBy(next);
               && Run(cfg, pairs).tracker == TrackerState(cache, Kept(cfg, cache, pending))
               && RfqPoints(Run(cfg, pairs).points.value) == RfqPoints(before.points.value) + Ready(cfg, cache, pending)
  {
    hide Handle;
    hide RfqPoints;
    var before := Run(cfg, pairs[..|pairs| - 1]);
    var (prev, next) := pairs[|pairs| - 1];
    HandleEffect(cfg, before.tracker, prev, next);
    RfqPointsAppend(before.points.value, Handle(cfg, before.tracker, prev, next).points.value);
  }

  /** Over any run, the points created are exactly those returned plus those still pending. */
  lemma {:induction false} RunConserves(cfg: Config, pairs: seq<(Block, Block)>)
    requires Run(cfg, pairs).points.Some?
    ensures PendingIds(CreatedIn(pairs)) ==
            Ids(RfqPoints(Run(cfg, pairs).points.value)) + PendingIds(Run(cfg, pairs).tracker.pending)
  {
    hide Ids;
    hide PendingIds;
    hide Kept;
    hide Ready;
    if pairs == [] {
      NoIds();
    } else {
      hide Run;
      hide RfqPoints;
      var init := pairs[..|pairs| - 1];
      var (prev, next) := pairs[|pairs| - 1];
      RunStep(cfg, pairs);
      RunConserves(cfg, init);
      var before := Run(cfg, init);
      var cache := Observe(cfg, before.tracker.cache, prev, next);
      var pending := before.tracker.pending + CreatedBy(next);
      FlushConserves(cfg, cache, pending);
      PendingIdsAppend(before.tracker.pending, CreatedBy(next));
      PendingIdsAppend(CreatedIn(init), CreatedBy(next));
      IdsAppend(RfqPoints(before.points.value), Ready(cfg, cache, pending));
      var returned, ready := Ids(RfqPoints(before.points.value)), Ids(Ready(cfg, cache, pending));
      var waiting, created := PendingIds(before.tracker.pending), PendingIds(CreatedBy(next));
      var kept := PendingIds(Kept(cfg, cache, pending));
      assert (returned + waiting) + created == returned + (waiting + created);
      assert (returned + ready) + kept == returned + (ready + kept);
    }
  }

  // ---------------------------------------------------------------------------
  // Fields over a whole run

  lemma {:induction false} CreatedAreConsistent(block: Block, n: nat)
    requires n <= |block.txs|
    ensures forall pp | pp in Created(block, n) :: Consistent(pp.point.missed, pp.missing)
  {
    hide Flatten, NewPending, Consistent;
    if n > 0 {
      CreatedAreConsistent(block, n - 1);
      var tx := block.txs[n - 1];
      if Flatten(tx.msgs).Some? {
        NewIsConsistent(block.height, n - 1, tx, Flatten(tx.msgs).value);
      }
    }
  }

  lemma NewIsConsistent(height: int, txIndex: nat, tx: Tx, msgs: seq<Msg>)
    ensures forall pp | pp in NewPending(height, txIndex, tx, msgs) :: Consistent(pp.point.missed, pp.missing)
  {
    hide FindRfq;
  }

  /** What a point has become: the same tx, with the fields set before unchanged, and no field set or
      waiting that was not set or waiting before. */
  ghost predicate Descends(pp: Pending, point: Point, missing: seq<MissedField>) {
    && IdOf(point) == IdOf(pp.point)
    && (forall field | field in pp.point.missed :: field in point.missed && point.missed[field] == pp.point.missed[field])
    && (forall field | field in point.missed :: field in pp.point.missed || Names(pp.missing, field))
    && (forall field | Names(missing, field) :: Names(pp.missing, field))
    && Consistent(point.missed, missing)
  }

  lemma SettledDescends(cfg: Config, cache: Cache, pp: Pending)
    requires cache.Valid() && Consistent(pp.point.missed, pp.missing)
    ensures var settled := Settle(cfg, cache, pp); Descends(pp, settled.point, settled.missing)
  {
    SettleSetsOnce(cfg, cache, pp.height, pp.point.missed, pp.missing);
  }

  /** Each pending point goes on, settled, as a returned or as a kept one. */
  lemma {:induction false} FlushKeepsEach(cfg: Config, cache: Cache, pending: seq<Pending>)
    requires cache.Valid()
    ensures forall pp | pp in pending ::
              var settled := Settle(cfg, cache, pp);
              if settled.missing == [] then settled.point in Ready(cfg, cache, pending) else settled in Kept(cfg, cache, pending)
    ensures forall kept | kept in Kept(cfg, cache, pending) :: exists pp :: pp in pending && kept == Settle(cfg, cache, pp)
  {
    hide Settle;
    if pending != [] {
      var init, last := pending[..|pending| - 1], pending[|pending| - 1];
      FlushKeepsEach(cfg, cache, init);
      assert pending == init + [last];
    }
  }

  /** Over any run, no pending point has a field both set and missing, or missing twice. */
  lemma {:induction false} RunIsConsistent(cfg: Config, pairs: seq<(Block, Block)>)
    requires Run(cfg, pairs).points.Some?
    ensures forall pp | pp in Run(cfg, pairs).tracker.pending :: Consistent(pp.point.missed, pp.missing)
  {
    hide Consistent, Kept, Ready, Settle;
    if pairs != [] {
      var init := pairs[..|pairs| - 1];
      var (prev, next) := pairs[|pairs| - 1];
      RunStep(cfg, pairs);
      hide Run;
      RunIsConsistent(cfg, init);
      CreatedAreConsistent(next, |next.txs|);
      var cache := Observe(cfg, Run(cfg, init).tracker.cache, prev, next);
      var pending := Run(cfg, init).tracker.pending + CreatedBy(next);
      FlushKeepsEach(cfg, cache, pending);
      forall kept | kept in Kept(cfg, cache, pending) ensures Consistent(kept.point.missed, kept.missing) {
        var pp :| pp in pending && kept == Settle(cfg, cache, pp);
        SettledDescends(cfg, cache, pp);
      }
    }
  }

  /** At the end of a run, a point is still pending or has been returned. */
  ghost predicate GoesOn(pp: Pending, r: Outcome)
    requires r.points.Some?
  {
    || (exists later :: later in r.tracker.pending && Descends(pp, later.point, later.missing))
    || (exists point :: point in RfqPoints(r.points.value) && Descends(pp, point, []))
  }

  /** Over all flushes of a run, each missing field is set at most once: whatever is pending after the first
      `n` pairs ends as a pending or returned point of the same tx in which every field set by then
      has kept its value. */
  lemma {:induction false} FieldsAreSetOnce(cfg: Config, pairs: seq<(Block, Block)>, n: nat, pp: Pending)
    requires Run(cfg, pairs).points.Some? && n <= |pairs|
    ensures Run(cfg, pairs[..n]).points.Some?
    ensures pp in Run(cfg, pairs[..n]).tracker.pending ==> GoesOn(pp, Run(cfg, pairs))
    decreases |pairs|
  {
    if n == |pairs| {
      assert pairs[..n] == pairs;
      RunIsConsistent(cfg, pairs);
      DescendsItself(pp);
    } else {
      var init := pairs[..|pairs| - 1];
      RunStep(cfg, pairs);
      assert init[..n] == pairs[..n];
      FieldsAreSetOnce(cfg, init, n, pp);
      if pp in Run(cfg, pairs[..n]).tracker.pending {
        GoesOnOnce(cfg, pairs, pp);
      }
    }
  }

  lemma DescendsItself(pp: Pending)
    ensures Consistent(pp.point.missed, pp.missing) ==> Descends(pp, pp.point, pp.missing)
  {
  }

  lemma DescendsTwice(pp: Pending, later: Pending, point: Point, missing: seq<MissedField>)
    requires Descends(pp, later.point, later.missing) && Descends(later, point, missing)
    ensures Descends(pp, point, missing)
  {
  }

  lemma GoesOnOnce(cfg: Config, pairs: seq<(Block, Block)>, pp: Pending)
    requires pairs != [] && Run(cfg, pairs).points.Some? && Run(cfg, pairs[..|pairs| - 1]).points.Some?
    requires GoesOn(pp, Run(cfg, pairs[..|pairs| - 1]))
    ensures GoesOn(pp, Run(cfg, pairs))
  {
    hide Descends, Consistent, Kept, Ready, Settle, RfqPoints;
    var init := pairs[..|pairs| - 1];
    var (prev, next) := pairs[|pairs| - 1];
    RunStep(cfg, pairs);
    RunIsConsistent(cfg, init);
    hide Run;
    var before, r := Run(cfg, init), Run(cfg, pairs);
    var cache := Observe(cfg, before.tracker.cache, prev, next);
    var pending := before.tracker.pending + CreatedBy(next);
    FlushKeepsEach(cfg, cache, pending);
    if later :| later in before.tracker.pending && Descends(pp, later.point, later.missing) {
      var settled := Settle(cfg, cache, later);
      assert later in pending;
      SettledDescends(cfg, cache, later);
      DescendsTwice(pp, later, settled.point, settled.missing);
      if settled.missing == [] {
        assert settled.point in RfqPoints(r.points.value);
      }
    } else {
      var point :| point in RfqPoints(before.points.value) && Descends(pp, point, []);
      assert point in RfqPoints(r.points.value);
    }
  }

  /** In forward direction nothing is ever left pending after a flush. */
  lemma ForwardLeavesNothing(cfg: Config, pairs: seq<(Block, Block)>)
    requires Run(cfg, pairs).points.Some? && !cfg.reverse
    ensures Run(cfg, pairs).tracker.pending == []
  {
    if pairs != [] {
      RunStep(cfg, pairs);
      var before := Run(cfg, pairs[..|pairs| - 1]);
      var (prev, next) := pairs[|pairs| - 1];
      NothingWaitsWithoutLowerBlocks(cfg, Observe(cfg, before.tracker.cache, prev, next), before.tracker.pending + CreatedBy(next));
    }
  }
}
