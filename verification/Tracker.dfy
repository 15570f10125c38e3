/** The RFQ "blocks missed" tracker. The functions say what each operation does to the values;
    the classes do it in place, compacting the slices while iterating over them. */
module Tracker {
  import opened Chain
  import opened BlockTimes

  datatype Config = Config(reverse: bool, stopHeight: nat)

  datatype Field = RfqIdBlocksMissed | MemoBlocksMissed

  datatype MissedField = MissedField(field: Field, ts: Time)

  /** An RFQ tx point, identified by its tx, with the blocks-missed fields set so far. */
  datatype Point = Point(height: int, txIndex: nat, missed: map<Field, int>)

  /** A point waiting for block times at or before its client timestamps. */
  datatype Pending = Pending(point: Point, height: int, missing: seq<MissedField>)

  /** What goes to the database: the three RFQ measurements, and everything else the full
      handler writes. */
  datatype OutPoint =
    | RfqTxPoint(point: Point)
    | QuotePoint(height: int, txIndex: nat, quote: nat)
    | WasmErrorPoint(height: int, txIndex: nat)
    | OtherPoint(what: string, height: int)

  datatype TrackerState = TrackerState(cache: Cache, pending: seq<Pending>)

  const EMPTY: TrackerState := TrackerState(Cache([], [], CACHE_SIZE), [])

  // ---------------------------------------------------------------------------
  // Operations on values

  function Observe(cfg: Config, cache: Cache, prev: Block, next: Block): (c: Cache)
    requires cache.Valid()
    ensures c.Valid() && c.size == cache.size
  {
    if cfg.reverse then cache.Add(next.height, next.time).Add(prev.height, prev.time)
    else cache.Add(prev.height, prev.time).Add(next.height, next.time)
  }

  /** Earlier blocks are still to come. */
  predicate CanGoLower(cfg: Config, cache: Cache) {
    cfg.reverse && cache.Lowest().Some? && (cfg.stopHeight == 0 || cache.Lowest().value >= cfg.stopHeight)
  }

  datatype Verdict = Resolved(blocksMissed: int) | Postponed | Dropped

  /** What a flush decides about one client timestamp of a tx at `height`. */
  function Judge(cfg: Config, cache: Cache, height: int, ts: Time): Verdict
    requires cache.Valid()
  {
    if cache.Covers(ts) then
      match cache.FloorHeight(ts)
      case Some(floor) => Resolved(height - (floor + 1))
      case None => Dropped
    else if CanGoLower(cfg, cache) && height - cache.Lowest().value < CACHE_SIZE then Postponed
    else Dropped
  }

  function SetFields(cfg: Config, cache: Cache, height: int, missed: map<Field, int>, missing: seq<MissedField>): map<Field, int>
    requires cache.Valid()
  {
    if missing == [] then missed
    else
      var before := SetFields(cfg, cache, height, missed, missing[..|missing| - 1]);
      var mf := missing[|missing| - 1];
      match Judge(cfg, cache, height, mf.ts)
      case Resolved(v) => before[mf.field := v]
      case _ => before
  }

  function StillMissing(cfg: Config, cache: Cache, height: int, missing: seq<MissedField>): (still: seq<MissedField>)
    requires cache.Valid()
    ensures |still| <= |missing|
  {
    if missing == [] then []
    else
      var before := StillMissing(cfg, cache, height, missing[..|missing| - 1]);
      var mf := missing[|missing| - 1];
      if Judge(cfg, cache, height, mf.ts).Postponed? then before + [mf] else before
  }

  function Settle(cfg: Config, cache: Cache, pp: Pending): Pending
    requires cache.Valid()
  {
    Pending(pp.point.(missed := SetFields(cfg, cache, pp.height, pp.point.missed, pp.missing)),
            pp.height,
            StillMissing(cfg, cache, pp.height, pp.missing))
  }

  /** The points a flush returns ... */
  function Ready(cfg: Config, cache: Cache, pending: seq<Pending>): seq<Point>
    requires cache.Valid()
  {
    if pending == [] then []
    else
      var settled := Settle(cfg, cache, pending[|pending| - 1]);
      Ready(cfg, cache, pending[..|pending| - 1]) + if settled.missing == [] then [settled.point] else []
  }

  /** ... and those it keeps. */
  function Kept(cfg: Config, cache: Cache, pending: seq<Pending>): seq<Pending>
    requires cache.Valid()
  {
    if pending == [] then []
    else
      var settled := Settle(cfg, cache, pending[|pending| - 1]);
      Kept(cfg, cache, pending[..|pending| - 1]) + if settled.missing == [] then [] else [settled]
  }

  /** The request time of the first RFQ action among the messages. */
  function FindRfq(msgs: seq<Msg>): Option<Option<Time>> {
    if msgs == [] then None
    else if msgs[0].Rfq? then Some(msgs[0].requestedAt)
    else FindRfq(msgs[1..])
  }

  /** ... is that of the first one, whatever follows. */
  lemma {:induction false} FindRfqIsFirst(before: seq<Msg>, requestedAt: Option<Time>, after: seq<Msg>)
    requires forall msg | msg in before :: !msg.Rfq?
    ensures FindRfq(before + [Rfq(requestedAt)] + after) == Some(requestedAt)
  {
    if before != [] {
      FindRfqIsFirst(before[1..], requestedAt, after);
      assert (before + [Rfq(requestedAt)] + after)[1..] == before[1..] + [Rfq(requestedAt)] + after;
    }
  }

  lemma {:induction false} FindRfqIff(msgs: seq<Msg>)
    ensures FindRfq(msgs).Some? <==> exists msg :: msg in msgs && msg.Rfq?
  {
    if msgs != [] {
      FindRfqIff(msgs[1..]);
      assert msgs == [msgs[0]] + msgs[1..];
    }
  }

  function MissingFields(requestedAt: Option<Time>, sentAt: Option<Time>): seq<MissedField> {
    (if requestedAt.Some? then [MissedField(RfqIdBlocksMissed, requestedAt.value)] else [])
    + (if sentAt.Some? then [MissedField(MemoBlocksMissed, sentAt.value)] else [])
  }

  /** The pending point a tx creates, if it is an RFQ tx. */
  function NewPending(height: int, txIndex: nat, tx: Tx, msgs: seq<Msg>): seq<Pending> {
    match FindRfq(msgs)
    case None => []
    case Some(requestedAt) =>
      [Pending(Point(height, txIndex, map[]), height, MissingFields(requestedAt, tx.sentAt))]
  }

  /** The points a tx produces at once. */
  function ImmediatePoints(height: int, txIndex: nat, tx: Tx, msgs: seq<Msg>): seq<OutPoint> {
    (if tx.wasmFailure then [WasmErrorPoint(height, txIndex)] else [])
    + if FindRfq(msgs).None? then [] else seq(tx.quotes, q requires 0 <= q => QuotePoint(height, txIndex, q))
  }

  // ---------------------------------------------------------------------------
  // The same in place

  class PendingPoint {
    var point: Point
    const height: int
    /** The slice `missing`: a backing array and a length. */
    const missing: array<MissedField>
    var missingLen: nat

    ghost predicate Valid()
      reads this
    {
      missingLen <= missing.Length
    }

    ghost function Model(): Pending
      reads this, missing
      requires Valid()
    {
      Pending(point, height, missing[..missingLen])
    }

    constructor (point: Point, height: int, fields: seq<MissedField>)
      ensures Valid() && fresh(missing) && Model() == Pending(point, height, fields)
    {
      this.point := point;
      this.height := height;
      var backing := new MissedField[|fields|](i requires 0 <= i < |fields| => fields[i]);
      this.missing := backing;
      this.missingLen := |fields|;
      new;
      assert missing[..] == fields;
    }

    /** Resolves what can be resolved and keeps, at the front of the same array, what still waits. */
    method Resolve(ghost cfg: Config, blockTimes: BlockTimeCache, canGoLower: bool, lowest: int)
      requires Valid() && blockTimes.Model().Valid()
      requires canGoLower == CanGoLower(cfg, blockTimes.Model())
      requires canGoLower ==> blockTimes.Model().Lowest() == Some(lowest)
      modifies this`point, this`missingLen, missing
      ensures Valid()
      ensures Model() == Settle(cfg, blockTimes.Model(), old(Model()))
    {
      ghost var cache := blockTimes.Model();
      ghost var fields := missing[..missingLen];
      ghost var before := point;
      var kept := 0;
      var n := missingLen;
      for i := 0 to n
        invariant kept <= i && missingLen == n == |fields|
        invariant missing[..kept] == StillMissing(cfg, cache, height, fields[..i])
        invariant missing[i..n] == fields[i..]
        invariant point == before.(missed := SetFields(cfg, cache, height, before.missed, fields[..i]))
      {
        assert fields[..i + 1][..i] == fields[..i];
        assert missing[i..n][0] == missing[i];
        assert fields[i + 1..] == fields[i..][1..];
        var mf := missing[i];
        var covered := blockTimes.Covers(mf.ts);
        if covered {
          var floor, ok := blockTimes.FloorHeight(mf.ts);
          if ok {
            point := point.(missed := point.missed[mf.field := height - (floor + 1)]);
          }
        } else if canGoLower && height - lowest < CACHE_SIZE {
          missing[kept] := mf;
          kept := kept + 1;
        }
      }
      missingLen := kept;
      assert fields[..n] == fields;
    }
  }

  class RfqTracker {
    const cfg: Config
    const blockTimes: BlockTimeCache
    /** The slice `pending`: a backing array and a length. */
    var pending: array<PendingPoint?>
    var pendingLen: nat
    /** The live part of the slice, and the values it stands for. */
    ghost var items: seq<PendingPoint>
    ghost var contents: seq<Pending>
    ghost var Repr: set<object>

    ghost predicate Stands(pp: PendingPoint, value: Pending)
      reads pp, pp.missing
    {
      pp.Valid() && pp.Model() == value
    }

    ghost predicate Valid()
      reads this, Repr
      ensures Valid() ==> this in Repr
    {
      && {this, blockTimes, pending} <= Repr
      && blockTimes.Model().Valid()
      && |items| == |contents| == pendingLen <= pending.Length
      && (forall i | 0 <= i < pendingLen :: pending[i] == items[i])
      && (forall i | 0 <= i < |items| :: items[i] in Repr && items[i].missing in Repr)
      && (forall i | 0 <= i < |items| :: Stands(items[i], contents[i]))
      && Separate(items)
    }

    static ghost predicate Separate(items: seq<PendingPoint>) {
      forall i, j | 0 <= i < j < |items| :: items[i] != items[j] && items[i].missing != items[j].missing
    }

    ghost function Model(): TrackerState
      reads this, blockTimes
    {
      TrackerState(blockTimes.Model(), contents)
    }

    constructor (cfg: Config)
      ensures Valid() && fresh(Repr) && this.cfg == cfg && Model() == EMPTY
    {
      this.cfg := cfg;
      this.blockTimes := new BlockTimeCache(CACHE_SIZE);
      this.pending := new PendingPoint?[0];
      this.pendingLen := 0;
      this.items, this.contents := [], [];
      new;
      Repr := {this, blockTimes, pending};
    }

    method ObserveBlocks(prevBlock: Block, nextBlock: Block)
      requires Valid()
      modifies blockTimes
      ensures Valid()
      ensures Model() == old(Model()).(cache := Observe(cfg, old(Model()).cache, prevBlock, nextBlock))
    {
      if cfg.reverse {
        blockTimes.Add(nextBlock.height, nextBlock.time);
        blockTimes.Add(prevBlock.height, prevBlock.time);
        return;
      }
      blockTimes.Add(prevBlock.height, prevBlock.time);
      blockTimes.Add(nextBlock.height, nextBlock.time);
    }

    /** Makes room for one more element, moving to a larger backing array if needed. */
    method EnsureRoom()
      requires Valid()
      modifies this`pending, this`Repr
      ensures Valid() && fresh(Repr - old(Repr)) && fresh({pending} - {old(pending)})
      ensures pendingLen < pending.Length
    {
      if pendingLen == pending.Length {
        var grown := new PendingPoint?[2 * pendingLen + 1];
        forall i | 0 <= i < pendingLen {
          grown[i] := pending[i];
        }
        pending := grown;
        Repr := Repr + {grown};
      }
    }

    /** Appends to the slice. */
    method AddPending(pp: PendingPoint)
      requires Valid() && pp.Valid()
      requires pp !in Repr && pp.missing !in Repr
      modifies this`pending, this`pendingLen, this`items, this`contents, this`Repr, pending
      ensures Valid() && fresh(Repr - old(Repr) - {pp, pp.missing})
      ensures contents == old(contents) + [old(pp.Model())]
    {
      EnsureRoom();
      pending[pendingLen] := pp;
      pendingLen := pendingLen + 1;
      items := items + [pp];
      contents := contents + [pp.Model()];
      Repr := Repr + {pp, pp.missing};
    }

    /** Creates the pending point of an RFQ tx. */
    method Defer(height: int, txIndex: nat, requestedAt: Option<Time>, sentAt: Option<Time>)
      requires Valid()
      modifies this`pending, this`pendingLen, this`items, this`contents, this`Repr, pending
      ensures Valid() && fresh(Repr - old(Repr))
      ensures contents == old(contents) +
                [Pending(Point(height, txIndex, map[]), height, MissingFields(requestedAt, sentAt))]
    {
      var missing := [];
      if requestedAt.Some? {
        missing := missing + [MissedField(RfqIdBlocksMissed, requestedAt.value)];
      }
      if sentAt.Some? {
        missing := missing + [MissedField(MemoBlocksMissed, sentAt.value)];
      }
      assert missing == MissingFields(requestedAt, sentAt);
      var pp := new PendingPoint(Point(height, txIndex, map[]), height, missing);
      AddPending(pp);
    }

    /** The points of a tx: RFQ tx points are deferred until `Flush`. */
    method TxPoints(height: int, txIndex: nat, tx: Tx, msgs: seq<Msg>) returns (points: seq<OutPoint>)
      requires Valid()
      modifies this`pending, this`pendingLen, this`items, this`contents, this`Repr, pending
      ensures Valid() && fresh(Repr - old(Repr))
      ensures points == ImmediatePoints(height, txIndex, tx, msgs)
      ensures Model() == old(Model()).(pending := old(Model()).pending + NewPending(height, txIndex, tx, msgs))
    {
      points := [];
      var rfqInfo := FindRfq(msgs);
      if tx.wasmFailure {
        points := points + [WasmErrorPoint(height, txIndex)];
      }
      if rfqInfo.None? {
        return;
      }
      var quotes := QuotePoints(height, txIndex, tx.quotes);
      points := points + quotes;
      Defer(height, txIndex, rfqInfo.value, tx.sentAt);
    }

    static method QuotePoints(height: int, txIndex: nat, quotes: nat) returns (points: seq<OutPoint>)
      ensures points == seq(quotes, q requires 0 <= q => QuotePoint(height, txIndex, q))
    {
      points := [];
      for q := 0 to quotes
        invariant |points| == q
        invariant forall i | 0 <= i < q :: points[i] == QuotePoint(height, txIndex, i)
      {
        points := points + [QuotePoint(height, txIndex, q)];
      }
    }

    /** Returns the points that can be completed now, and compacts the slice of the others. */
    method Flush() returns (ready: seq<Point>)
      requires Valid()
      modifies Repr
      ensures Valid() && Repr == old(Repr)
      ensures ready == Ready(cfg, old(Model()).cache, old(Model()).pending)
      ensures Model() == old(Model()).(pending := Kept(cfg, old(Model()).cache, old(Model()).pending))
    {
      hide Ready, Kept, Settle;
      ready := [];
      if pendingLen == 0 {
        FlushOfNone(cfg, blockTimes.Model(), contents);
        return;
      }
      var lowest, hasLowest := blockTimes.Lowest();
      var canGoLower := cfg.reverse && hasLowest && (cfg.stopHeight == 0 || lowest >= cfg.stopHeight);
      assert Arranged(0, 0, items, contents, []);
      var kept;
      ghost var now, from;
      ready, kept, now, from := Compact(blockTimes.Model(), Repr - {this, blockTimes}, canGoLower, lowest, items, contents);
      ghost var cache := blockTimes.Model();
      SortedAll(cfg, cache, contents, ready, now, from);
      Shrink(kept, now, from, Kept(cfg, cache, contents));
    }

    /** After `i` iterations of the loop of `Flush`: the kept points among the first `i` stand at the
        front, and the rest of the slice is untouched. */
    ghost predicate Arranged(i: nat, kept: nat, all: seq<PendingPoint>, now: seq<Pending>, from: seq<nat>)
      reads this, pending, all, set p | p in all :: p.missing
    {
      && i <= |all| == |now| <= pending.Length
      && (forall j | 0 <= j < |all| :: Stands(all[j], now[j]))
      && (forall j | i <= j < |all| :: pending[j] == all[j])
      && kept == |from| <= i && Subsequence(from, i)
      && (forall k | 0 <= k < kept :: pending[k] == all[from[k]])
    }

    /** The loop of `Flush`: completed points are returned, the others move to the front. */
    method Compact(ghost cache: Cache, ghost frame: set<object>, canGoLower: bool, lowest: int,
                   ghost all: seq<PendingPoint>, ghost values: seq<Pending>)
      returns (ready: seq<Point>, kept: nat, ghost now: seq<Pending>, ghost from: seq<nat>)
      requires blockTimes.Model() == cache && cache.Valid()
      requires canGoLower == CanGoLower(cfg, cache) && (canGoLower ==> cache.Lowest() == Some(lowest))
      requires Separate(all) && |all| == pendingLen && Arranged(0, 0, all, values, [])
      requires this !in frame && blockTimes !in frame && pending in frame
      requires forall j | 0 <= j < |all| :: all[j] in frame && all[j].missing in frame
      modifies frame
      ensures Arranged(|all|, kept, all, now, from)
      ensures Sorted(cfg, cache, values, |all|, ready, now, from)
    {
      hide Settle;
      hide Ready;
      hide Kept;
      ready, kept, now, from := [], 0, values, [];
      SortedNone(cfg, cache, values);
      for i := 0 to pendingLen
        invariant blockTimes.Model() == cache
        invariant Arranged(i, kept, all, now, from)
        invariant Sorted(cfg, cache, values, i, ready, now, from)
      {
        var done;
        SortedStep(cfg, cache, values, i, ready, now, from);
        done, kept, now, from := CompactOne(cache, i, kept, canGoLower, lowest, all, now, from);
        ready := ready + done;
      }
    }

    /** One iteration: resolves a point and returns it if nothing is missing any more. */
    method CompactOne(ghost cache: Cache, i: nat, kept: nat, canGoLower: bool, lowest: int,
                      ghost all: seq<PendingPoint>, ghost now: seq<Pending>, ghost from: seq<nat>)
      returns (done: seq<Point>, kept': nat, ghost now': seq<Pending>, ghost from': seq<nat>)
      requires blockTimes.Model() == cache && cache.Valid()
      requires canGoLower == CanGoLower(cfg, cache) && (canGoLower ==> cache.Lowest() == Some(lowest))
      requires Separate(all) && i < |all| && Arranged(i, kept, all, now, from)
      modifies pending, all[i], all[i].missing
      ensures now' == now[i := Settle(cfg, cache, now[i])]
      ensures done == if now'[i].missing == [] then [now'[i].point] else []
      ensures from' == if now'[i].missing == [] then from else from + [i]
      ensures Arranged(i + 1, kept', all, now', from')
    {
      ResolveOne(cache, all, now, i, canGoLower, lowest);
      now' := now[i := Settle(cfg, cache, now[i])];
      assert Stands(all[i], now'[i]);
      if pending[i].missingLen == 0 {
        done, kept', from' := [pending[i].point], kept, from;
      } else {
        MoveToFront(all, now', from, kept, i);
        done, kept', from' := [], kept + 1, from + [i];
      }
    }

    /** Resolving one point leaves the others alone. */
    method ResolveOne(ghost cache: Cache, ghost all: seq<PendingPoint>, ghost now: seq<Pending>, i: nat, canGoLower: bool, lowest: int)
      requires blockTimes.Model() == cache && cache.Valid()
      requires canGoLower == CanGoLower(cfg, cache) && (canGoLower ==> cache.Lowest() == Some(lowest))
      requires i < |all| == |now| && Separate(all) && i < pending.Length && pending[i] == all[i]
      requires forall j | 0 <= j < |all| :: Stands(all[j], now[j])
      modifies all[i], all[i].missing
      ensures forall j | 0 <= j < |all| :: Stands(all[j], now[i := Settle(cfg, cache, now[i])][j])
    {
      pending[i].Resolve(cfg, blockTimes, canGoLower, lowest);
      assert Stands(all[i], Settle(cfg, cache, now[i]));
    }

    /** Overwrites a place that has been read already. */
    method MoveToFront(ghost all: seq<PendingPoint>, ghost now: seq<Pending>, ghost from: seq<nat>, kept: nat, i: nat)
      requires kept == |from| <= i < |all| == |now| && |all| <= pending.Length && Subsequence(from, i)
      requires forall j | 0 <= j < |all| :: Stands(all[j], now[j])
      requires forall j | i <= j < |all| :: pending[j] == all[j]
      requires forall k | 0 <= k < kept :: pending[k] == all[from[k]]
      modifies pending
      ensures Arranged(i + 1, kept + 1, all, now, from + [i])
    {
      pending[kept] := pending[i];
      assert forall j | 0 <= j < |all| :: Stands(all[j], now[j]);
    }

    /** Cuts the slice to the elements moved to the front. */
    method Shrink(kept: nat, ghost now: seq<Pending>, ghost from: seq<nat>, ghost picked: seq<Pending>)
      requires {this, blockTimes, pending} <= Repr && blockTimes.Model().Valid()
      requires Separate(items) && Arranged(|items|, kept, items, now, from)
      requires forall j | 0 <= j < |items| :: items[j] in Repr && items[j].missing in Repr
      requires Picks(picked, now, from)
      modifies this`pendingLen, this`contents, this`items
      ensures Valid() && contents == picked
    {
      ghost var all := items;
      pendingLen := kept;
      contents := picked;
      items := seq(kept, k requires 0 <= k < kept => all[from[k]]);
    }

    /** `picked` are the elements of `values` at the indices `from`. */
    static ghost predicate Picks(picked: seq<Pending>, values: seq<Pending>, from: seq<nat>) {
      && |picked| == |from|
      && forall k | 0 <= k < |from| :: from[k] < |values| && picked[k] == values[from[k]]
    }

    /** The first `i` points are sorted into returned and kept ones, the others are as before. */
    static ghost predicate Sorted(cfg: Config, cache: Cache, values: seq<Pending>, i: nat, ready: seq<Point>, now: seq<Pending>, from: seq<nat>)
      requires cache.Valid()
    {
      && i <= |values| == |now| && now[i..] == values[i..] && Subsequence(from, i)
      && ready == Ready(cfg, cache, values[..i])
      && Picks(Kept(cfg, cache, values[..i]), now, from)
    }

    static lemma FlushOfNone(cfg: Config, cache: Cache, values: seq<Pending>)
      requires cache.Valid() && values == []
      ensures Ready(cfg, cache, values) == [] && Kept(cfg, cache, values) == []
    {
    }

    static lemma SortedNone(cfg: Config, cache: Cache, values: seq<Pending>)
      requires cache.Valid()
      ensures Sorted(cfg, cache, values, 0, [], values, [])
    {
    }

    static lemma {:induction false} SortedStep(cfg: Config, cache: Cache, values: seq<Pending>, i: nat, ready: seq<Point>, now: seq<Pending>, from: seq<nat>)
      requires cache.Valid() && i < |values| && Sorted(cfg, cache, values, i, ready, now, from)
      ensures var settled := Settle(cfg, cache, now[i]);
              Sorted(cfg, cache, values, i + 1, ready + (if settled.missing == [] then [settled.point] else []),
                     now[i := settled], if settled.missing == [] then from else from + [i])
    {
      FlushOfPrefix(cfg, cache, values, i);
      PicksStep(Kept(cfg, cache, values[..i]), now, from, i, Settle(cfg, cache, now[i]));
      hide Settle, Ready, Kept, Picks;
      assert now[i..][0] == values[i..][0];
      assert now[i := Settle(cfg, cache, now[i])][i + 1..] == values[i + 1..] by {
        assert now[i..][1..] == values[i..][1..];
      }
    }

    static lemma PicksStep(picked: seq<Pending>, now: seq<Pending>, from: seq<nat>, i: nat, settled: Pending)
      requires Picks(picked, now, from) && Subsequence(from, i) && i < |now|
      ensures Subsequence(from, i + 1) && Picks(picked, now[i := settled], from)
      ensures Subsequence(from + [i], i + 1) && Picks(picked + [settled], now[i := settled], from + [i])
    {
    }

    static lemma {:induction false} FlushOfPrefix(cfg: Config, cache: Cache, values: seq<Pending>, i: nat)
      requires cache.Valid() && i < |values|
      ensures var settled := Settle(cfg, cache, values[i]);
              && Ready(cfg, cache, values[..i + 1]) ==
                 Ready(cfg, cache, values[..i]) + (if settled.missing == [] then [settled.point] else [])
              && Kept(cfg, cache, values[..i + 1]) ==
                 Kept(cfg, cache, values[..i]) + (if settled.missing == [] then [] else [settled])
    {
      assert values[..i + 1][..i] == values[..i];
    }

    static lemma SortedAll(cfg: Config, cache: Cache, values: seq<Pending>, ready: seq<Point>, now: seq<Pending>, from: seq<nat>)
      requires cache.Valid() && Sorted(cfg, cache, values, |values|, ready, now, from)
      ensures ready == Ready(cfg, cache, values) && Picks(Kept(cfg, cache, values), now, from)
    {
      assert values[..|values|] == values;
    }

    /** `from` picks some of the first `n` indices, in order. */
    static ghost predicate Subsequence(from: seq<nat>, n: nat) {
      && (forall k | 0 <= k < |from| :: from[k] < n)
      && (forall k, l | 0 <= k < l < |from| :: from[k] < from[l])
    }
  }
}
