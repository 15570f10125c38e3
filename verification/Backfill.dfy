/** A backward run (backfill) over a chain: which points it has returned and which it still
    keeps at every height, and with which values, although the cache forgets its high end. */
module Backfill {
  import opened Chain
  import opened BlockTimes
  import opened Tracker
  import opened Handler
  import opened Conservation

  /** The backward run that started at height `top`. */
  datatype Setup = Setup(serve: Serve, cfg: Config, top: int)

  ghost predicate Sound(s: Setup) {
    && Faithful(s.serve) && Monotonic(s.serve)
    && s.cfg.reverse
  }

  /** The cache after the pair (low, low + 1). */
  ghost function CacheAt(s: Setup, low: int): Cache
    requires low < s.top
  {
    Window(s.serve, low, Min(s.top, low + CACHE_SIZE - 1), CACHE_SIZE)
  }

  lemma WindowIsValid(s: Setup, low: int)
    requires low < s.top
    ensures CacheAt(s, low).Valid()
  {
  }

  /** A timestamp of a tx at `height` still waits once heights down to `low` have been seen. */
  predicate Waits(s: Setup, height: int, low: int, ts: Time) {
    low >= height ||
    (s.serve(low).time > ts && (s.cfg.stopHeight == 0 || low >= s.cfg.stopHeight) && height - low < CACHE_SIZE)
  }

  /** The lowest height a backward run looks at for a tx at `height`. */
  function Deepest(cfg: Config, height: int): int {
    Min(height - 1, Max(if cfg.stopHeight == 0 then height - CACHE_SIZE else cfg.stopHeight - 1, height - CACHE_SIZE))
  }

  /** Blocks missed, by the chain: the latest block at or before `ts`, among those a backward run down
      to `low` looks at. */
  function Answer(s: Setup, height: int, low: int, ts: Time): Option<int> {
    match LastAtOrBefore(s.serve, Max(low, Deepest(s.cfg, height)), Min(s.top, height + CACHE_SIZE - 2), ts)
    case None => None
    case Some(floor) => Some(height - (floor + 1))
  }

  // ---------------------------------------------------------------------------
  // One timestamp

  lemma LastIsStable(serve: Serve, lo: int, lo': int, hi: int, ts: Time)
    requires Monotonic(serve) && 1 <= lo <= lo' <= hi && serve(lo').time <= ts
    ensures LastAtOrBefore(serve, lo, hi, ts) == LastAtOrBefore(serve, lo', hi, ts)
  {
  }

  /** Once decided, an answer no longer depends on how much further down the run goes. */
  lemma AnswerIsStable(s: Setup, height: int, low: int, ts: Time)
    requires Sound(s) && 1 <= low && low + 1 < height <= s.top
    requires !Waits(s, height, low + 1, ts)
    ensures !Waits(s, height, low, ts)
    ensures Answer(s, height, low, ts) == Answer(s, height, low + 1, ts)
  {
    var deepest := Deepest(s.cfg, height);
    if deepest <= low && s.serve(low + 1).time <= ts {
      LastIsStable(s.serve, low, low + 1, Min(s.top, height + CACHE_SIZE - 2), ts);
    }
  }

  /** The first time a timestamp is looked at, at the tx's own pair. */
  lemma JudgedAtFirst(s: Setup, height: int, ts: Time)
    requires Sound(s) && 2 <= height <= s.top
    ensures CacheAt(s, height - 1).Valid()
    ensures Judge(s.cfg, CacheAt(s, height - 1), height, ts) ==
            if Waits(s, height, height - 1, ts) then Postponed
            else match Answer(s, height, height - 1, ts)
                 case Some(v) => Resolved(v)
                 case None => Dropped
  {
    hide LastAtOrBefore;
    hide Search;
    var hi := Min(s.top, height + CACHE_SIZE - 2);
    FloorOfWindow(s.serve, height - 1, hi, CACHE_SIZE, ts);
    LastIsUniqueIfNone(s.serve, height - 1, hi, ts);
  }

  lemma LastIsUniqueIfNone(serve: Serve, lo: int, hi: int, ts: Time)
    requires Monotonic(serve) && 1 <= lo <= hi
    ensures LastAtOrBefore(serve, lo, hi, ts).None? <==> serve(lo).time > ts
  {
  }

  /** A timestamp that has waited is completed at the first height at or before it, however much of
      the high end the cache has dropped. */
  lemma WaitingIsJudged(s: Setup, height: int, low: int, ts: Time)
    requires Sound(s) && 1 <= low && low + 1 < height <= s.top && Waits(s, height, low + 1, ts)
    ensures CacheAt(s, low).Valid()
    ensures Judge(s.cfg, CacheAt(s, low), height, ts) ==
            if Waits(s, height, low, ts) then Postponed
            else match Answer(s, height, low, ts)
                 case Some(v) => Resolved(v)
                 case None => Dropped
    ensures s.serve(low).time <= ts ==> Answer(s, height, low, ts) == Some(height - (low + 1))
    ensures s.serve(low).time > ts && !Waits(s, height, low, ts) ==> Answer(s, height, low, ts) == None
  {
    hide LastAtOrBefore;
    hide Search;
    var hi := Min(s.top, low + CACHE_SIZE - 1);
    FloorOfWindow(s.serve, low, hi, CACHE_SIZE, ts);
    forall g | low + 1 <= g ensures s.serve(g).time > ts {
      assert s.serve(low + 1).time <= s.serve(g).time;
    }
    assert Deepest(s.cfg, height) <= low;
    if s.serve(low).time <= ts {
      LastIsUnique(s.serve, low, hi, ts, low);
      LastIsUnique(s.serve, low, Min(s.top, height + CACHE_SIZE - 2), ts, low);
    } else if !Waits(s, height, low, ts) {
      assert Deepest(s.cfg, height) == low;
      LastIsUniqueIfNone(s.serve, low, Min(s.top, height + CACHE_SIZE - 2), ts);
    }
  }

  /** Both cases, and stability, in one: what a flush at `low` makes of one timestamp. */
  lemma OneTimestamp(s: Setup, height: int, low: int, ts: Time)
    requires Sound(s) && 1 <= low < height <= s.top
    ensures CacheAt(s, low).Valid()
    ensures Waits(s, height, low + 1, ts) ==>
              Judge(s.cfg, CacheAt(s, low), height, ts) ==
              if Waits(s, height, low, ts) then Postponed
              else match Answer(s, height, low, ts)
                   case Some(v) => Resolved(v)
                   case None => Dropped
    ensures !Waits(s, height, low + 1, ts) ==>
              !Waits(s, height, low, ts) && Answer(s, height, low, ts) == Answer(s, height, low + 1, ts)
  {
    hide Judge;
    hide CacheAt;
    hide Answer;
    WindowIsValid(s, low);
    if low + 1 == height {
      JudgedAtFirst(s, height, ts);
    } else if Waits(s, height, low + 1, ts) {
      WaitingIsJudged(s, height, low, ts);
    } else {
      AnswerIsStable(s, height, low, ts);
    }
  }

  // ---------------------------------------------------------------------------
  // The timestamps of one point

  function WaitingFields(s: Setup, height: int, low: int, missing: seq<MissedField>): seq<MissedField> {
    if missing == [] then []
    else
      var last := missing[|missing| - 1];
      WaitingFields(s, height, low, missing[..|missing| - 1]) + if Waits(s, height, low, last.ts) then [last] else []
  }

  function Answers(s: Setup, height: int, low: int, missing: seq<MissedField>): map<Field, int> {
    if missing == [] then map[]
    else
      var before := Answers(s, height, low, missing[..|missing| - 1]);
      var last := missing[|missing| - 1];
      if Waits(s, height, low, last.ts) then before
      else
        match Answer(s, height, low, last.ts)
        case None => before
        case Some(v) => before[last.field := v]
  }

  lemma {:induction false} SettingAnotherField(cfg: Config, cache: Cache, height: int, missed: map<Field, int>,
                                               missing: seq<MissedField>, field: Field, v: int)
    requires cache.Valid() && !Names(missing, field)
    ensures SetFields(cfg, cache, height, missed[field := v], missing)
            == SetFields(cfg, cache, height, missed, missing)[field := v]
  {
    hide Judge;
    if missing != [] {
      var init := missing[..|missing| - 1];
      forall i | 0 <= i < |init| ensures init[i].field != field {
        assert missing[i].field != field;
      }
      assert missing[|missing| - 1].field != field;
      SettingAnotherField(cfg, cache, height, missed, init, field, v);
    }
  }

  lemma {:induction false} WaitingAreNamed(s: Setup, height: int, low: int, missing: seq<MissedField>, field: Field)
    requires Names(WaitingFields(s, height, low, missing), field)
    ensures Names(missing, field)
  {
    var init, last := missing[..|missing| - 1], missing[|missing| - 1];
    var waiting := WaitingFields(s, height, low, missing);
    var i :| 0 <= i < |waiting| && waiting[i].field == field;
    if i < |WaitingFields(s, height, low, init)| {
      assert Names(WaitingFields(s, height, low, init), field);
      WaitingAreNamed(s, height, low, init, field);
      var j :| 0 <= j < |init| && init[j].field == field;
      assert missing[j].field == field;
    } else {
      assert missing[|missing| - 1].field == field;
    }
  }

  lemma {:induction false} FieldsStep(s: Setup, height: int, low: int, missing: seq<MissedField>)
    requires Sound(s) && 1 <= low < height <= s.top && Distinct(missing)
    ensures CacheAt(s, low).Valid()
    ensures StillMissing(s.cfg, CacheAt(s, low), height, WaitingFields(s, height, low + 1, missing))
            == WaitingFields(s, height, low, missing)
    ensures SetFields(s.cfg, CacheAt(s, low), height, Answers(s, height, low + 1, missing),
                      WaitingFields(s, height, low + 1, missing))
            == Answers(s, height, low, missing)
  {
    hide Judge;
    hide Waits;
    hide Answer;
    hide CacheAt;
    WindowIsValid(s, low);
    if missing != [] {
      var init, last := missing[..|missing| - 1], missing[|missing| - 1];
      FieldsStep(s, height, low, init);
      OneTimestamp(s, height, low, last.ts);
      var waiting := WaitingFields(s, height, low + 1, init);
      if Waits(s, height, low + 1, last.ts) {
        assert (waiting + [last])[..|waiting|] == waiting;
      } else {
        assert waiting + [] == waiting;
        if Answer(s, height, low, last.ts).Some? {
          if Names(waiting, last.field) {
            WaitingAreNamed(s, height, low + 1, init, last.field);
          }
          SettingAnotherField(s.cfg, CacheAt(s, low), height, Answers(s, height, low + 1, init), waiting,
                              last.field, Answer(s, height, low, last.ts).value);
        }
      }
    }
  }

  // ---------------------------------------------------------------------------
  // Points

  /** As `TxPoints` creates it. */
  ghost predicate Fresh(pp: Pending) {
    pp.point.missed == map[] && Distinct(pp.missing) && pp.point.height == pp.height
  }

  /** What has become of a point created as `pp` once heights down to `low` have been seen. */
  function Progress(s: Setup, pp: Pending, low: int): Pending {
    Pending(pp.point.(missed := Answers(s, pp.height, low, pp.missing)), pp.height,
            WaitingFields(s, pp.height, low, pp.missing))
  }

  predicate Completed(s: Setup, pp: Pending, low: int) {
    low < pp.height && WaitingFields(s, pp.height, low, pp.missing) == []
  }

  lemma SettleMakesProgress(s: Setup, pp: Pending, low: int)
    requires Sound(s) && Fresh(pp) && 1 <= low < pp.height <= s.top
    ensures CacheAt(s, low).Valid()
    ensures Settle(s.cfg, CacheAt(s, low), Progress(s, pp, low + 1)) == Progress(s, pp, low)
  {
    FieldsStep(s, pp.height, low, pp.missing);
  }

  lemma {:induction false} NothingDecidedYet(s: Setup, height: int, missing: seq<MissedField>)
    ensures WaitingFields(s, height, height, missing) == missing
    ensures Answers(s, height, height, missing) == map[]
  {
    if missing != [] {
      NothingDecidedYet(s, height, missing[..|missing| - 1]);
      assert missing == missing[..|missing| - 1] + [missing[|missing| - 1]];
    }
  }

  /** A completed point stays as it is. */
  lemma {:induction false} CompletedIsFinal(s: Setup, height: int, low: int, missing: seq<MissedField>)
    requires Sound(s) && 1 <= low && low + 1 < height <= s.top
    requires WaitingFields(s, height, low + 1, missing) == []
    ensures WaitingFields(s, height, low, missing) == []
    ensures Answers(s, height, low, missing) == Answers(s, height, low + 1, missing)
  {
    hide Waits;
    hide Answer;
    if missing != [] {
      CompletedIsFinal(s, height, low, missing[..|missing| - 1]);
      AnswerIsStable(s, height, low, missing[|missing| - 1].ts);
    }
  }

  // ---------------------------------------------------------------------------
  // Lists of points

  ghost predicate AllFresh(pps: seq<Pending>, above: int, top: int) {
    forall i | 0 <= i < |pps| :: Fresh(pps[i]) && above < pps[i].height <= top
  }

  function AllProgress(s: Setup, pps: seq<Pending>, low: int): (r: seq<Pending>)
    ensures |r| == |pps|
  {
    seq(|pps|, i requires 0 <= i < |pps| => Progress(s, pps[i], low))
  }

  /** The completed points of a list, ... */
  function Returned(s: Setup, pps: seq<Pending>, low: int): seq<Pending> {
    if pps == [] then []
    else
      var last := pps[|pps| - 1];
      Returned(s, pps[..|pps| - 1], low) + if Completed(s, last, low) then [last] else []
  }

  /** ... and the others. */
  function Remaining(s: Setup, pps: seq<Pending>, low: int): seq<Pending> {
    if pps == [] then []
    else
      var last := pps[|pps| - 1];
      Remaining(s, pps[..|pps| - 1], low) + if Completed(s, last, low) then [] else [last]
  }

  function FinalPoints(s: Setup, pps: seq<Pending>, low: int): (r: seq<Point>)
    ensures |r| == |pps|
  {
    seq(|pps|, i requires 0 <= i < |pps| => Progress(s, pps[i], low).point)
  }

  lemma {:induction false} FlushMakesProgress(s: Setup, pps: seq<Pending>, low: int)
    requires Sound(s) && 1 <= low < s.top && AllFresh(pps, low, s.top)
    ensures CacheAt(s, low).Valid()
    ensures Ready(s.cfg, CacheAt(s, low), AllProgress(s, pps, low + 1)) == FinalPoints(s, Returned(s, pps, low), low)
    ensures Kept(s.cfg, CacheAt(s, low), AllProgress(s, pps, low + 1)) == AllProgress(s, Remaining(s, pps, low), low)
  {
    hide Settle;
    hide CacheAt;
    WindowIsValid(s, low);
    if pps != [] {
      var init, last := pps[..|pps| - 1], pps[|pps| - 1];
      FlushMakesProgress(s, init, low);
      SettleMakesProgress(s, last, low);
      assert AllProgress(s, pps, low + 1)[..|pps| - 1] == AllProgress(s, init, low + 1);
      if Completed(s, last, low) {
        assert FinalPoints(s, Returned(s, init, low) + [last], low)
               == FinalPoints(s, Returned(s, init, low), low) + [Progress(s, last, low).point];
      } else {
        assert AllProgress(s, Remaining(s, init, low) + [last], low)
               == AllProgress(s, Remaining(s, init, low), low) + [Progress(s, last, low)];
      }
    }
  }

}
