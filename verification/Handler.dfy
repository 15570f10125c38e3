/** Handling a (previous, next) pair of blocks: observe both, take the points of each tx, flush.
    The RFQ-only handler and the full handler share this core; the full one writes other
    measurements in between. */
module Handler {
  import opened Chain
  import opened BlockTimes
  import opened Tracker

  // ---------------------------------------------------------------------------
  // Operations on values

  /** The messages an authz wrapper carries; none if one of them does not unpack. */
  function Unpack(inner: seq<Option<Msg>>): Option<seq<Msg>> {
    if inner == [] then Some([])
    else
      match Unpack(inner[..|inner| - 1])
      case None => None
      case Some(before) =>
        var last := inner[|inner| - 1];
        if last.None? then None else Some(before + [last.value])
  }

  /** Replaces each authz wrapper by its messages, one level deep. */
  function Flatten(msgs: seq<Msg>): Option<seq<Msg>> {
    if msgs == [] then Some([])
    else
      match Flatten(msgs[..|msgs| - 1])
      case None => None
      case Some(before) =>
        var last := msgs[|msgs| - 1];
        if !last.Exec? then Some(before + [last])
        else
          match Unpack(last.inner)
          case None => None
          case Some(unpacked) => Some(before + unpacked)
  }

  /** The tracker and, unless the handler failed, the points to write. */
  datatype Outcome = Outcome(tracker: TrackerState, points: Option<seq<OutPoint>>)

  function HandleTx(before: Outcome, height: int, txIndex: nat, tx: Tx): Outcome
    requires before.points.Some?
  {
    if !tx.decodable then before.(points := None)
    else
      match Flatten(tx.msgs)
      case None => before.(points := None)
      case Some(msgs) =>
        Outcome(before.tracker.(pending := before.tracker.pending + NewPending(height, txIndex, tx, msgs)),
                Some(before.points.value + ImmediatePoints(height, txIndex, tx, msgs)))
  }

  /** The first `n` transactions of a block. */
  function HandleTxs(tracker: TrackerState, block: Block, n: nat): (r: Outcome)
    requires n <= |block.txs|
    ensures r.tracker.cache == tracker.cache
  {
    if n == 0 then Outcome(tracker, Some([]))
    else
      var before := HandleTxs(tracker, block, n - 1);
      if before.points.None? then before else HandleTx(before, block.height, n - 1, block.txs[n - 1])
  }

  function AsOutPoints(points: seq<Point>): (out: seq<OutPoint>)
    ensures |out| == |points|
  {
    seq(|points|, i requires 0 <= i < |points| => RfqTxPoint(points[i]))
  }

  function Handle(cfg: Config, tracker: TrackerState, prev: Block, next: Block): (r: Outcome)
    requires tracker.cache.Valid()
    ensures r.tracker.cache.Valid()
  {
    var cache := Observe(cfg, tracker.cache, prev, next);
    var done := HandleTxs(tracker.(cache := cache), next, |next.txs|);
    if done.points.None? then done
    else Outcome(done.tracker.(pending := Kept(cfg, cache, done.tracker.pending)),
                 Some(done.points.value + AsOutPoints(Ready(cfg, cache, done.tracker.pending))))
  }

  /** The RFQ and WASM error measurements among the points. */
  function Project(points: seq<OutPoint>): seq<OutPoint> {
    if points == [] then []
    else
      var last := points[|points| - 1];
      Project(points[..|points| - 1]) + if last.OtherPoint? then [] else [last]
  }

  lemma {:induction false} ProjectAppend(a: seq<OutPoint>, b: seq<OutPoint>)
    ensures Project(a + b) == Project(a) + Project(b)
  {
    if b == [] {
      assert a + b == a;
    } else {
      assert (a + b)[..|a + b| - 1] == a + b[..|b| - 1];
      ProjectAppend(a, b[..|b| - 1]);
    }
  }

  lemma {:induction false} ProjectKeepsRfq(points: seq<OutPoint>)
    requires forall p | p in points :: !p.OtherPoint?
    ensures Project(points) == points
  {
    if points != [] {
      ProjectKeepsRfq(points[..|points| - 1]);
      assert points == points[..|points| - 1] + [points[|points| - 1]];
    }
  }

  lemma {:induction false} ProjectDropsOthers(points: seq<OutPoint>)
    requires forall p | p in points :: p.OtherPoint?
    ensures Project(points) == []
  {
    if points != [] {
      ProjectDropsOthers(points[..|points| - 1]);
    }
  }

  // ---------------------------------------------------------------------------
  // Flattening

  lemma {:induction false} FlattenAppend(a: seq<Msg>, b: seq<Msg>)
    ensures Flatten(a + b) ==
            if Flatten(a).Some? && Flatten(b).Some? then Some(Flatten(a).value + Flatten(b).value) else None
  {
    if b == [] {
      assert a + b == a;
      assert Flatten(a).Some? ==> Flatten(a).value + [] == Flatten(a).value;
    } else {
      var b' := b[..|b| - 1];
      assert (a + b)[..|a + b| - 1] == a + b';
      FlattenAppend(a, b');
      if Flatten(a).Some? && Flatten(b).Some? {
        var last := b[|b| - 1];
        var tail := if last.Exec? then Unpack(last.inner).value else [last];
        assert Flatten(a).value + Flatten(b').value + tail == Flatten(a).value + (Flatten(b').value + tail);
      }
    }
  }

  lemma {:induction false} UnpackAll(inner: seq<Msg>)
    ensures Unpack(seq(|inner|, i requires 0 <= i < |inner| => Some(inner[i]))) == Some(inner)
  {
    var packed := seq(|inner|, i requires 0 <= i < |inner| => Some(inner[i]));
    if inner != [] {
      var init := inner[..|inner| - 1];
      UnpackAll(init);
      assert packed[..|packed| - 1] == seq(|init|, i requires 0 <= i < |init| => Some(init[i]));
      assert init + [inner[|inner| - 1]] == inner;
    }
  }

  /** Flattening keeps the order of messages and opens exactly one level: what a wrapper carries
      stands in its place, nested wrappers included. */
  lemma FlattenOpensOneLevel(a: seq<Msg>, inner: seq<Msg>, b: seq<Msg>)
    requires Flatten(a).Some? && Flatten(b).Some?
    ensures Flatten(a + [Exec(seq(|inner|, i requires 0 <= i < |inner| => Some(inner[i])))] + b)
            == Some(Flatten(a).value + inner + Flatten(b).value)
  {
    var wrapper := Exec(seq(|inner|, i requires 0 <= i < |inner| => Some(inner[i])));
    UnpackAll(inner);
    assert Flatten([wrapper]) == Some([] + inner) by {
      assert [wrapper][..0] == [];
    }
    FlattenAppend(a, [wrapper]);
    FlattenAppend(a + [wrapper], b);
  }

  /** Messages that are not wrappers stay as they are. */
  lemma {:induction false} FlattenKeepsPlain(msgs: seq<Msg>)
    requires forall msg | msg in msgs :: !msg.Exec?
    ensures Flatten(msgs) == Some(msgs)
  {
    if msgs != [] {
      var init, last := msgs[..|msgs| - 1], msgs[|msgs| - 1];
      assert msgs == init + [last];
      FlattenKeepsPlain(init);
    }
  }

  lemma {:induction false} UnpackSucceedsIff(inner: seq<Option<Msg>>)
    ensures Unpack(inner).Some? <==> forall m | m in inner :: m.Some?
  {
    if inner != [] {
      var init, last := inner[..|inner| - 1], inner[|inner| - 1];
      assert inner == init + [last];
      UnpackSucceedsIff(init);
    }
  }

  /** Flattening fails exactly if something in a wrapper does not unpack. */
  lemma {:induction false} FlattenSucceedsIff(msgs: seq<Msg>)
    ensures Flatten(msgs).Some? <==> forall msg | msg in msgs && msg.Exec? :: forall m | m in msg.inner :: m.Some?
  {
    if msgs != [] {
      var init, last := msgs[..|msgs| - 1], msgs[|msgs| - 1];
      assert msgs == init + [last];
      FlattenSucceedsIff(init);
      if last.Exec? {
        UnpackSucceedsIff(last.inner);
      }
    }
  }

  // ---------------------------------------------------------------------------
  // The handlers

  method FlattenMsgs(msgs: seq<Msg>) returns (filtered: Option<seq<Msg>>)
    ensures filtered == Flatten(msgs)
  {
    var filteredMsgs := [];
    for i := 0 to |msgs|
      invariant Flatten(msgs[..i]) == Some(filteredMsgs)
    {
      assert msgs[..i + 1][..i] == msgs[..i];
      if !msgs[i].Exec? {
        filteredMsgs := filteredMsgs + [msgs[i]];
      } else {
        var inner := msgs[i].inner;
        ghost var before := filteredMsgs;
        ghost var unpacked: seq<Msg> := [];
        for k := 0 to |inner|
          invariant Unpack(inner[..k]) == Some(unpacked)
          invariant filteredMsgs == before + unpacked
        {
          assert inner[..k + 1][..k] == inner[..k];
          if inner[k].None? {
            UnpackFails(inner, k);
            FlattenFails(msgs, i);
            return None;
          }
          filteredMsgs := filteredMsgs + [inner[k].value];
          unpacked := unpacked + [inner[k].value];
        }
        assert inner[..|inner|] == inner;
      }
    }
    assert msgs[..|msgs|] == msgs;
    return Some(filteredMsgs);
  }

  lemma {:induction false} UnpackFails(inner: seq<Option<Msg>>, k: nat)
    requires k < |inner| && inner[k].None?
    ensures Unpack(inner).None?
  {
    if k < |inner| - 1 {
      UnpackFails(inner[..|inner| - 1], k);
    }
  }

  lemma {:induction false} FlattenFails(msgs: seq<Msg>, i: nat)
    requires i < |msgs| && msgs[i].Exec? && Unpack(msgs[i].inner).None?
    ensures Flatten(msgs).None?
  {
    if i < |msgs| - 1 {
      FlattenFails(msgs[..|msgs| - 1], i);
    }
  }

  lemma {:induction false} HandleTxsFails(tracker: TrackerState, block: Block, n: nat, m: nat)
    requires n <= m <= |block.txs| && HandleTxs(tracker, block, n).points.None?
    ensures HandleTxs(tracker, block, m) == HandleTxs(tracker, block, n)
  {
    hide HandleTx;
    if n < m {
      HandleTxsFails(tracker, block, n, m - 1);
    }
  }

  /** The part of a tx both handlers share: decode, open authz wrappers, take the RFQ points. */
  method HandleOneTx(rfq: RfqTracker, height: int, txIndex: nat, tx: Tx, ghost before: Outcome) returns (points: Option<seq<OutPoint>>)
    requires rfq.Valid() && before.tracker == rfq.Model() && before.points.Some?
    modifies rfq.Repr
    ensures rfq.Valid() && fresh(rfq.Repr - old(rfq.Repr))
    ensures HandleTx(before, height, txIndex, tx) ==
            Outcome(rfq.Model(), if points.None? then None else Some(before.points.value + points.value))
    ensures points.Some? ==> forall p | p in points.value :: !p.OtherPoint?
  {
    if !tx.decodable {
      return None;
    }
    var filteredMsgs := FlattenMsgs(tx.msgs);
    if filteredMsgs.None? {
      return None;
    }
    var txPoints := rfq.TxPoints(height, txIndex, tx, filteredMsgs.value);
    return Some(txPoints);
  }

  /** Writes only the RFQ and WASM error measurements. */
  method RfqOnlyHandle(rfq: RfqTracker, prevBlock: Block, nextBlock: Block) returns (points: Option<seq<OutPoint>>)
    requires rfq.Valid()
    modifies rfq.Repr
    ensures rfq.Valid() && fresh(rfq.Repr - old(rfq.Repr))
    ensures Outcome(rfq.Model(), points) == Handle(rfq.cfg, old(rfq.Model()), prevBlock, nextBlock)
  {
    hide HandleTx;
    hide Ready;
    hide Kept;
    rfq.ObserveBlocks(prevBlock, nextBlock);
    ghost var observed := rfq.Model();
    var pointsToWrite := [];
    for txIndex := 0 to |nextBlock.txs|
      invariant rfq.Valid() && fresh(rfq.Repr - old(rfq.Repr))
      invariant Outcome(rfq.Model(), Some(pointsToWrite)) == HandleTxs(observed, nextBlock, txIndex)
    {
      var txPoints := HandleOneTx(rfq, nextBlock.height, txIndex, nextBlock.txs[txIndex],
                                  Outcome(rfq.Model(), Some(pointsToWrite)));
      if txPoints.None? {
        HandleTxsFails(observed, nextBlock, txIndex + 1, |nextBlock.txs|);
        return None;
      }
      pointsToWrite := pointsToWrite + txPoints.value;
    }
    var ready := rfq.Flush();
    points := Some(pointsToWrite + AsOutPoints(ready));
  }

  /** What the full handler writes besides: `None` where it fails before reaching the tracker again. */
  datatype Others = Others(head: Option<seq<string>>, beforeTx: nat -> Option<seq<string>>,
                           afterTx: nat -> seq<string>, report: seq<string>) {
    predicate Succeed(block: Block) {
      head.Some? && forall i | 0 <= i < |block.txs| :: beforeTx(i).Some?
    }
  }

  function OtherPoints(height: int, what: seq<string>): (out: seq<OutPoint>)
    ensures Project(out) == []
  {
    var out := seq(|what|, i requires 0 <= i < |what| => OtherPoint(what[i], height));
    ProjectDropsOthers(out);
    out
  }

  /** One tx of the full handler: its other measurements stand around the RFQ points. */
  method FullTx(rfq: RfqTracker, others: Others, height: int, txIndex: nat, tx: Tx, ghost before: Outcome)
    returns (points: Option<seq<OutPoint>>)
    requires rfq.Valid() && before.tracker == rfq.Model() && before.points.Some?
    modifies rfq.Repr
    ensures rfq.Valid() && fresh(rfq.Repr - old(rfq.Repr))
    ensures points.Some? <==> others.beforeTx(txIndex).Some? && HandleTx(before, height, txIndex, tx).points.Some?
    ensures points.Some? ==> HandleTx(before, height, txIndex, tx) ==
                             Outcome(rfq.Model(), Some(before.points.value + Project(points.value)))
  {
    hide HandleTx;
    hide OtherPoints;
    var head := others.beforeTx(txIndex);
    if head.None? {
      return None;
    }
    var txPoints := HandleOneTx(rfq, height, txIndex, tx, before);
    if txPoints.None? {
      return None;
    }
    var start, tail := OtherPoints(height, head.value), OtherPoints(height, others.afterTx(txIndex));
    ProjectAround([], start, txPoints.value, tail);
    assert [] + start + txPoints.value + tail == start + txPoints.value + tail;
    assert Project(start + txPoints.value + tail) == [] + txPoints.value == txPoints.value;
    hide Project;
    points := Some(start + txPoints.value + tail);
  }

  /** The loop over the transactions of a block. */
  method FullTxs(rfq: RfqTracker, others: Others, block: Block) returns (points: Option<seq<OutPoint>>)
    requires rfq.Valid()
    modifies rfq.Repr
    ensures rfq.Valid() && fresh(rfq.Repr - old(rfq.Repr))
    ensures points.Some? <==> && (forall i | 0 <= i < |block.txs| :: others.beforeTx(i).Some?)
                              && HandleTxs(old(rfq.Model()), block, |block.txs|).points.Some?
    ensures points.Some? ==>
              Outcome(rfq.Model(), Some(Project(points.value))) == HandleTxs(old(rfq.Model()), block, |block.txs|)
  {
    hide HandleTx;
    ghost var observed := rfq.Model();
    var pointsToWrite := [];
    for txIndex := 0 to |block.txs|
      invariant rfq.Valid() && fresh(rfq.Repr - old(rfq.Repr))
      invariant Outcome(rfq.Model(), Some(Project(pointsToWrite))) == HandleTxs(observed, block, txIndex)
      invariant forall i | 0 <= i < txIndex :: others.beforeTx(i).Some?
    {
      var txPoints := FullTx(rfq, others, block.height, txIndex, block.txs[txIndex], HandleTxs(observed, block, txIndex));
      if txPoints.None? {
        if others.beforeTx(txIndex).Some? {
          HandleTxsFails(observed, block, txIndex + 1, |block.txs|);
        }
        return None;
      }
      ProjectAppend(pointsToWrite, txPoints.value);
      pointsToWrite := pointsToWrite + txPoints.value;
    }
    points := Some(pointsToWrite);
  }

  /** Writes every measurement. It succeeds exactly if its own computations and the RFQ-only handler do;
      then it has kept the same tracker and written exactly the RFQ-only points, in the same order,
      among its own. */
  method FullHandle(rfq: RfqTracker, others: Others, prevBlock: Block, nextBlock: Block) returns (points: Option<seq<OutPoint>>)
    requires rfq.Valid()
    modifies rfq.Repr
    ensures rfq.Valid() && fresh(rfq.Repr - old(rfq.Repr))
    ensures points.Some? <==> others.Succeed(nextBlock) && Handle(rfq.cfg, old(rfq.Model()), prevBlock, nextBlock).points.Some?
    ensures points.Some? ==>
              Outcome(rfq.Model(), Some(Project(points.value))) == Handle(rfq.cfg, old(rfq.Model()), prevBlock, nextBlock)
  {
    hide HandleTxs, Ready, Kept, OtherPoints, Project;
    rfq.ObserveBlocks(prevBlock, nextBlock);
    if others.head.None? {
      return None;
    }
    var head := OtherPoints(nextBlock.height, others.head.value);
    var txPoints := FullTxs(rfq, others, nextBlock);
    if txPoints.None? {
      return None;
    }
    var report := OtherPoints(nextBlock.height, others.report);
    var ready := rfq.Flush();
    points := Some(head + txPoints.value + report + AsOutPoints(ready));
    ProjectAppend(head, txPoints.value);
    ProjectAppend(head + txPoints.value, report);
    ProjectAppend(head + txPoints.value + report, AsOutPoints(ready));
    ProjectKeepsRfq(AsOutPoints(ready));
    assert [] + Project(txPoints.value) + [] == Project(txPoints.value);
  }

  /** Other measurements around RFQ points vanish in the projection. */
  lemma ProjectAround(points: seq<OutPoint>, before: seq<OutPoint>, mid: seq<OutPoint>, after: seq<OutPoint>)
    requires Project(before) == [] && Project(after) == [] && forall p | p in mid :: !p.OtherPoint?
    ensures Project(points + before + mid + after) == Project(points) + mid
  {
    hide Project;
    ProjectAppend(points + before + mid, after);
    ProjectAppend(points + before, mid);
    ProjectAppend(points, before);
    ProjectKeepsRfq(mid);
  }
}
