/** The bounded window of recent (height, time) pairs that stands in for the whole chain when
    looking up the latest block at or before a client timestamp. */
module BlockTimes {
  import opened Chain

  /** About one hour of blocks. */
  const CACHE_SIZE: nat := 3600

  function Max(a: int, b: int): int { if a > b then a else b }

  function Min(a: int, b: int): int { if a < b then a else b }

  datatype Cache = Cache(heights: seq<int>, times: seq<Time>, size: nat) {
    predicate Valid() {
      && |heights| == |times|
      && (size > 0 ==> |heights| <= size)
    }

    function Add(height: int, t: Time): (c: Cache)
      requires Valid()
      ensures c.Valid() && c.size == size
    {
      var n := |heights|;
      if n == 0 then Cache([height], [t], size)
      else if heights[0] <= height <= heights[n - 1] then this
      else if height == heights[n - 1] + 1 then
        var drop := Max(n + 1 - size, 0);
        Cache((heights + [height])[drop..], (times + [t])[drop..], size)
      else if height == heights[0] - 1 then
        var keep := Min(n + 1, size);
        Cache(([height] + heights)[..keep], ([t] + times)[..keep], size)
      else Cache([height], [t], size)
    }

    predicate Covers(ts: Time) {
      |times| > 0 && times[0] <= ts
    }

    function Lowest(): Option<int> {
      if |heights| == 0 then None else Some(heights[0])
    }

    function FloorHeight(ts: Time): Option<int>
      requires Valid()
    {
      var idx := Search(times, ts, 0, |times|);
      if idx == 0 then None else Some(heights[idx - 1])
    }
  }

  /** The bisection `sort.Search` makes for the first time after `ts`, within `i..j`. */
  function Search(times: seq<Time>, ts: Time, i: nat, j: nat): (k: nat)
    requires i <= j <= |times|
    ensures i <= k <= j
    decreases j - i
  {
    if i == j then i
    else
      var mid := (i + j) / 2;
      if times[mid] > ts then Search(times, ts, i, mid) else Search(times, ts, mid + 1, j)
  }

  class BlockTimeCache {
    var heights: seq<int>
    var times: seq<Time>
    const size: nat

    function Model(): Cache
      reads this
    {
      Cache(heights, times, size)
    }

    constructor (size: nat)
      ensures Model() == Cache([], [], size)
    {
      this.size := size;
      heights, times := [], [];
    }

    method Add(height: int, t: Time)
      requires Model().Valid()
      modifies this
      ensures Model() == old(Model()).Add(height, t)
      ensures Model().Valid()
    {
      var n := |heights|;
      if n == 0 {
        heights := heights + [height];
        times := times + [t];
      } else if heights[0] <= height <= heights[n - 1] {
        return;
      } else if height == heights[n - 1] + 1 {
        heights := heights + [height];
        times := times + [t];
        if |heights| > size {
          var drop := |heights| - size;
          heights := heights[drop..];
          times := times[drop..];
        }
      } else if height == heights[0] - 1 {
        heights := [height] + heights;
        times := [t] + times;
        if |heights| > size {
          heights := heights[..size];
          times := times[..size];
        }
      } else {
        heights := [height];
        times := [t];
      }
    }

    method Covers(ts: Time) returns (covered: bool)
      ensures covered == Model().Covers(ts)
    {
      covered := |times| > 0 && !(times[0] > ts);
    }

    method Lowest() returns (lowest: int, ok: bool)
      ensures Model().Lowest() == if ok then Some(lowest) else None
    {
      if |heights| == 0 {
        return 0, false;
      }
      return heights[0], true;
    }

    method FloorHeight(ts: Time) returns (floor: int, ok: bool)
      requires Model().Valid()
      ensures Model().FloorHeight(ts) == if ok then Some(floor) else None
    {
      var i, j := 0, |times|;
      while i < j
        invariant 0 <= i <= j <= |times|
        invariant Search(times, ts, 0, |times|) == Search(times, ts, i, j)
      {
        var mid := (i + j) / 2;
        if !(times[mid] > ts) {
          i := mid + 1;
        } else {
          j := mid;
        }
      }
      if i == 0 {
        return 0, false;
      }
      return heights[i - 1], true;
    }
  }

  // ---------------------------------------------------------------------------
  // Lookup

  lemma {:induction false} SearchFindsBoundary(times: seq<Time>, ts: Time, i: nat, j: nat)
    requires i <= j <= |times|
    requires forall x, y | 0 <= x <= y < |times| :: times[x] <= times[y]
    ensures forall x | i <= x < Search(times, ts, i, j) :: times[x] <= ts
    ensures forall x | Search(times, ts, i, j) <= x < j :: times[x] > ts
    decreases j - i
  {
    if i < j {
      var mid := (i + j) / 2;
      if times[mid] > ts {
        SearchFindsBoundary(times, ts, i, mid);
      } else {
        SearchFindsBoundary(times, ts, mid + 1, j);
      }
    }
  }

  /** Whatever the times, bisection ends at the first index only by probing it. */
  lemma {:induction false} SearchEndsAtZero(times: seq<Time>, ts: Time, j: nat)
    requires 0 < j <= |times| && Search(times, ts, 0, j) == 0
    ensures times[0] > ts
  {
    var mid := j / 2;
    if times[mid] > ts && mid > 0 {
      SearchEndsAtZero(times, ts, mid);
    }
  }

  /** A covered timestamp always has a floor; the converse needs times in order. */
  lemma CoversIffFloor(c: Cache, ts: Time)
    requires c.Valid()
    ensures c.Covers(ts) ==> c.FloorHeight(ts).Some?
    ensures (forall x, y | 0 <= x <= y < |c.times| :: c.times[x] <= c.times[y]) ==>
              (c.Covers(ts) <==> c.FloorHeight(ts).Some?)
  {
    if c.Covers(ts) && Search(c.times, ts, 0, |c.times|) == 0 {
      SearchEndsAtZero(c.times, ts, |c.times|);
    }
    if forall x, y | 0 <= x <= y < |c.times| :: c.times[x] <= c.times[y] {
      SearchFindsBoundary(c.times, ts, 0, |c.times|);
    }
  }

  /** The probes a bisection within 0..j makes while it goes left are all at or after `bound`. */
  predicate LeftProbes(times: seq<Time>, j: nat, bound: Time)
    requires j <= |times|
  {
    j == 0 || (bound <= times[j / 2] && LeftProbes(times, j / 2, bound))
  }

  lemma {:induction false} SearchEndsAtZeroIff(times: seq<Time>, ts: Time, j: nat)
    requires j <= |times|
    ensures Search(times, ts, 0, j) == 0 <==> LeftProbes(times, j, ts + 1)
  {
    if j > 0 {
      SearchEndsAtZeroIff(times, ts, j / 2);
    }
  }

  lemma {:induction false} LeftProbesWeaken(times: seq<Time>, j: nat, bound: Time, lower: Time)
    requires j <= |times| && LeftProbes(times, j, bound) && lower <= bound
    ensures LeftProbes(times, j, lower)
  {
    if j > 0 {
      LeftProbesWeaken(times, j / 2, bound, lower);
    }
  }

  /** Whatever the times, a timestamp is answered exactly if it is covered, or a probe on the way to
      the low end is at or before it. */
  lemma FloorIff(c: Cache, ts: Time)
    requires c.Valid()
    ensures c.FloorHeight(ts).Some? <==> !LeftProbes(c.times, |c.times|, ts + 1)
    ensures (c.Covers(ts) <==> c.FloorHeight(ts).Some?) <==>
              c.Covers(ts) || LeftProbes(c.times, |c.times|, ts + 1)
  {
    SearchEndsAtZeroIff(c.times, ts, |c.times|);
    CoversIffFloor(c, ts);
  }

  /** Coverage and an answer coincide for every timestamp exactly if the probes on the way to the low
      end are at or after the low end. */
  lemma CoversIffFloorExactly(c: Cache)
    requires c.Valid()
    ensures (forall ts :: c.Covers(ts) <==> c.FloorHeight(ts).Some?) <==>
              |c.times| == 0 || LeftProbes(c.times, |c.times|, c.times[0])
  {
    if |c.times| > 0 {
      if LeftProbes(c.times, |c.times|, c.times[0]) {
        forall ts ensures c.Covers(ts) <==> c.FloorHeight(ts).Some? {
          FloorIff(c, ts);
          if ts < c.times[0] {
            LeftProbesWeaken(c.times, |c.times|, c.times[0], ts + 1);
          }
        }
      } else {
        FloorIff(c, c.times[0] - 1);
      }
    }
  }

  /** Without it: no coverage, yet an answer. */
  lemma FloorWithoutCoverage()
    ensures var c := Cache([7, 8], [10, 0], CACHE_SIZE);
            c.Valid() && !c.Covers(5) && c.FloorHeight(5) == Some(8)
  {
  }

  // ---------------------------------------------------------------------------
  // Adding

  ghost predicate Contiguous(c: Cache) {
    c.Valid() && forall i | 0 <= i < |c.heights| :: c.heights[i] == c.heights[0] + i
  }

  ghost predicate Holds(c: Cache, height: int, t: Time)
    requires c.Valid()
  {
    exists i :: 0 <= i < |c.heights| && c.heights[i] == height && c.times[i] == t
  }

  ghost predicate Knows(c: Cache, height: int)
    requires c.Valid()
  {
    exists t :: Holds(c, height, t)
  }

  /** Whatever block is added, the cache keeps a contiguous range that contains it: a known block keeps its time,
      a block next to the range extends it, trimmed at the other end only when full, and any other
      block starts the range over. */
  lemma AddKeepsRange(c: Cache, height: int, t: Time)
    requires Contiguous(c) && c.size >= 1
    ensures Contiguous(c.Add(height, t)) && Knows(c.Add(height, t), height)
    ensures Knows(c, height) ==> c.Add(height, t) == c
    ensures !Knows(c, height) ==> Holds(c.Add(height, t), height, t)
    ensures forall h, u | h != height && Holds(c.Add(height, t), h, u) :: Holds(c, h, u)
    ensures !Knows(c, height) && (Knows(c, height - 1) || Knows(c, height + 1)) ==>
              |c.Add(height, t).heights| == Min(|c.heights| + 1, c.size)
    ensures !Knows(c, height) && !Knows(c, height - 1) && !Knows(c, height + 1) ==> c.Add(height, t).heights == [height]
  {
    var n, d := |c.heights|, c.Add(height, t);
    KnowsIff(c, height);
    KnowsIff(c, height - 1);
    KnowsIff(c, height + 1);
    AddHolds(c, height, t);
    KnowsIff(d, height);
  }

  lemma KnowsIff(c: Cache, height: int)
    requires Contiguous(c)
    ensures Knows(c, height) <==> |c.heights| > 0 && c.heights[0] <= height < c.heights[0] + |c.heights|
  {
    if |c.heights| > 0 && c.heights[0] <= height < c.heights[0] + |c.heights| {
      assert Holds(c, height, c.times[height - c.heights[0]]);
    }
  }

  lemma AddHolds(c: Cache, height: int, t: Time)
    requires Contiguous(c) && c.size >= 1
    ensures Contiguous(c.Add(height, t))
    ensures !Knows(c, height) ==> Holds(c.Add(height, t), height, t)
    ensures forall h, u | h != height && Holds(c.Add(height, t), h, u) :: Holds(c, h, u)
  {
    var n := |c.heights|;
    KnowsIff(c, height);
    hide Holds, Knows;
    if n > 0 && height == c.heights[n - 1] + 1 {
      AppendHolds(c, height, t);
    } else if n > 0 && height == c.heights[0] - 1 {
      PrependHolds(c, height, t);
    } else if Knows(c, height) {
      assert c.Add(height, t) == c;
    } else {
      StartHolds(c, height, t);
    }
  }

  lemma AppendHolds(c: Cache, height: int, t: Time)
    requires Contiguous(c) && c.size >= 1 && c.heights != [] && height == c.heights[|c.heights| - 1] + 1
    ensures Contiguous(c.Add(height, t)) && Holds(c.Add(height, t), height, t)
    ensures forall h, u | h != height && Holds(c.Add(height, t), h, u) :: Holds(c, h, u)
  {
    hide Holds;
    var n, d := |c.heights|, c.Add(height, t);
    var drop := Max(n + 1 - c.size, 0);
    assert d.heights == (c.heights + [height])[drop..] && d.times == (c.times + [t])[drop..];
    PartOf(c, d, height, t, n - drop, drop);
  }

  lemma PrependHolds(c: Cache, height: int, t: Time)
    requires Contiguous(c) && c.size >= 1 && c.heights != [] && height == c.heights[0] - 1
    ensures Contiguous(c.Add(height, t)) && Holds(c.Add(height, t), height, t)
    ensures forall h, u | h != height && Holds(c.Add(height, t), h, u) :: Holds(c, h, u)
  {
    hide Holds;
    var d, keep := c.Add(height, t), Min(|c.heights| + 1, c.size);
    assert d.heights == ([height] + c.heights)[..keep] && d.times == ([t] + c.times)[..keep];
    PartOf(c, d, height, t, 0, -1);
  }

  lemma StartHolds(c: Cache, height: int, t: Time)
    requires c.Valid() && c.Add(height, t) == Cache([height], [t], c.size)
    ensures Contiguous(c.Add(height, t)) && Holds(c.Add(height, t), height, t)
    ensures forall h, u | h != height && Holds(c.Add(height, t), h, u) :: Holds(c, h, u)
  {
    var d := c.Add(height, t);
    assert d.heights[0] == height && d.times[0] == t;
  }

  /** A cache that has the block at one place and otherwise repeats another one, shifted. */
  lemma PartOf(c: Cache, d: Cache, height: int, t: Time, at: nat, shift: int)
    requires c.Valid() && d.Valid() && at < |d.heights|
    requires d.heights[at] == height && d.times[at] == t
    requires forall i | 0 <= i < |d.heights| && i != at ::
               0 <= i + shift < |c.heights| && d.heights[i] == c.heights[i + shift] && d.times[i] == c.times[i + shift]
    ensures Holds(d, height, t)
    ensures forall h, u | h != height && Holds(d, h, u) :: Holds(c, h, u)
  {
    forall h, u | h != height && Holds(d, h, u) ensures Holds(c, h, u) {
      var i :| 0 <= i < |d.heights| && d.heights[i] == h && d.times[i] == u;
      assert c.heights[i + shift] == h && c.times[i + shift] == u;
    }
  }

  // ---------------------------------------------------------------------------
  // The window against the full history

  /** The window of a chain from `lo` to `hi`. */
  ghost function Window(serve: Serve, lo: int, hi: int, size: nat): (c: Cache)
    requires lo <= hi
  {
    Cache(seq(hi - lo + 1, i => lo + i), seq(hi - lo + 1, i => serve(lo + i).time), size)
  }

  lemma WindowKnown(serve: Serve, lo: int, hi: int, size: nat, h: int)
    requires lo <= h <= hi && hi - lo + 1 <= size
    ensures Window(serve, lo, hi, size).Valid()
    ensures Window(serve, lo, hi, size).Add(h, serve(h).time) == Window(serve, lo, hi, size)
  {
  }

  /** Going forward, the window slides: the low end is trimmed. */
  lemma WindowForward(serve: Serve, lo: int, hi: int, size: nat)
    requires lo <= hi && hi - lo + 1 <= size
    ensures Window(serve, lo, hi, size).Valid()
    ensures Window(serve, lo, hi, size).Add(hi + 1, serve(hi + 1).time)
            == Window(serve, Max(lo, hi + 2 - size), hi + 1, size)
  {
    var c := Window(serve, lo, hi, size);
    var d := Window(serve, Max(lo, hi + 2 - size), hi + 1, size);
    assert c.Add(hi + 1, serve(hi + 1).time).heights == d.heights;
    assert c.Add(hi + 1, serve(hi + 1).time).times == d.times;
  }

  /** Going backward, the high end is trimmed. */
  lemma WindowBackward(serve: Serve, lo: int, hi: int, size: nat)
    requires lo <= hi && hi - lo + 1 <= size
    ensures Window(serve, lo, hi, size).Valid()
    ensures Window(serve, lo, hi, size).Add(lo - 1, serve(lo - 1).time)
            == Window(serve, lo - 1, Min(hi, lo + size - 2), size)
  {
  }

  /** The latest block in `lo..hi` at or before `ts`, by a linear scan of the full history. */
  function LastAtOrBefore(serve: Serve, lo: int, hi: int, ts: Time): (r: Option<int>)
    ensures r.Some? ==> lo <= r.value <= hi && serve(r.value).time <= ts
    ensures r.Some? ==> forall g | r.value < g <= hi :: serve(g).time > ts
    ensures r.None? ==> forall g | lo <= g <= hi :: serve(g).time > ts
    decreases hi - lo
  {
    if hi < lo then None
    else if serve(hi).time <= ts then Some(hi)
    else LastAtOrBefore(serve, lo, hi - 1, ts)
  }

  lemma LastIsUnique(serve: Serve, lo: int, hi: int, ts: Time, k: int)
    requires lo - 1 <= k <= hi
    requires lo <= k ==> serve(k).time <= ts
    requires forall g | k < g <= hi :: serve(g).time > ts
    ensures LastAtOrBefore(serve, lo, hi, ts) == if k < lo then None else Some(k)
  {
  }

  /** The times of a window are in order, and bisection splits them at the same height as the history. */
  lemma WindowBoundary(serve: Serve, lo: int, times: seq<Time>, ts: Time)
    requires Monotonic(serve) && 1 <= lo
    requires forall i | 0 <= i < |times| :: times[i] == serve(lo + i).time
    ensures var k := Search(times, ts, 0, |times|);
            (k > 0 ==> serve(lo + k - 1).time <= ts) && forall g | lo + k <= g < lo + |times| :: serve(g).time > ts
  {
    SearchFindsBoundary(times, ts, 0, |times|);
    var k := Search(times, ts, 0, |times|);
    assert k > 0 ==> times[k - 1] <= ts;
    forall g | lo + k <= g < lo + |times| ensures serve(g).time > ts {
      assert serve(g).time == times[g - lo];
    }
  }

  /** Bisection over the window is the linear scan over the history. */
  lemma FloorOfWindow(serve: Serve, lo: int, hi: int, size: nat, ts: Time)
    requires Monotonic(serve) && 1 <= lo <= hi && hi - lo + 1 <= size
    ensures Window(serve, lo, hi, size).Valid()
    ensures Window(serve, lo, hi, size).FloorHeight(ts) == LastAtOrBefore(serve, lo, hi, ts)
    ensures Window(serve, lo, hi, size).Covers(ts) <==> serve(lo).time <= ts
  {
    hide LastAtOrBefore;
    hide Search;
    var c := Window(serve, lo, hi, size);
    assert |c.times| == hi - lo + 1 && forall i | 0 <= i < |c.times| :: c.times[i] == serve(lo + i).time;
    assert c.times[0] == serve(lo).time;
    WindowBoundary(serve, lo, c.times, ts);
    var k := Search(c.times, ts, 0, |c.times|);
    assert k > 0 ==> c.heights[k - 1] == lo + k - 1;
    LastIsUnique(serve, lo, hi, ts, lo + k - 1);
  }
}
