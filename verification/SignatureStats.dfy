/** Statistics of signature delays, over the reals: standard deviation of the non-zero delays
    and the distance of a delay from their mean in standard deviations. A map is iterated in
    an arbitrary order; a list of its keys stands for one such order. */
module SignatureStats {
  import opened Rearrange

  /** Nanoseconds to milliseconds. */
  function Ms(d: int): real {
    d as real / 1000000.0
  }

  /** The keys of a map in the order of one iteration. */
  ghost predicate Enumerates(order: seq<string>, delays: map<string, int>) {
    && (forall k | k in order :: k in delays)
    && (forall k | k in delays :: multiset(order)[k] == 1)
  }

  predicate KeysOf(order: seq<string>, delays: map<string, int>) {
    forall k | k in order :: k in delays
  }

  /** The non-zero delays in milliseconds. */
  function NonZero(delays: map<string, int>, order: seq<string>): seq<real>
    requires KeysOf(order, delays)
  {
    if order == [] then []
    else
      var init, d := order[..|order| - 1], delays[order[|order| - 1]];
      NonZero(delays, init) + if d != 0 then [Ms(d)] else []
  }

  function Sum(xs: seq<real>): real {
    if xs == [] then 0.0 else Sum(xs[..|xs| - 1]) + xs[|xs| - 1]
  }

  function Square(x: real): real {
    x * x
  }

  function SumSquares(xs: seq<real>): real {
    if xs == [] then 0.0 else SumSquares(xs[..|xs| - 1]) + Square(xs[|xs| - 1])
  }

  function Mean(xs: seq<real>): real
    requires xs != []
  {
    Sum(xs) / |xs| as real
  }

  function Shift(xs: seq<real>, m: real): (ys: seq<real>)
    ensures |ys| == |xs|
  {
    seq(|xs|, i requires 0 <= i < |xs| => xs[i] - m)
  }

  function Scale(xs: seq<real>, s: real): (ys: seq<real>)
    requires s != 0.0
    ensures |ys| == |xs|
  {
    seq(|xs|, i requires 0 <= i < |xs| => xs[i] / s)
  }

  function Variance(xs: seq<real>): real
    requires xs != []
  {
    SumSquares(Shift(xs, Mean(xs))) / |xs| as real
  }

  function StdDev(xs: seq<real>, sqrt: real -> real): real {
    if |xs| < 2 then 0.0 else sqrt(Variance(xs))
  }

  function Distance(value: real, stdDev: real, xs: seq<real>): real {
    if stdDev == 0.0 || xs == [] then 0.0 else (value - Mean(xs)) / stdDev
  }

  function Distances(values: seq<real>, stdDev: real, xs: seq<real>): (ds: seq<real>)
    ensures |ds| == |values|
  {
    seq(|values|, i requires 0 <= i < |values| => Distance(values[i], stdDev, xs))
  }

  // ---------------------------------------------------------------------------
  // The computations

  method NonZeroDelays(delays: map<string, int>) returns (nonZeroDelays: seq<real>)
    ensures exists order :: Enumerates(order, delays) && nonZeroDelays == NonZero(delays, order)
  {
    nonZeroDelays := [];
    var left := delays.Keys;
    ghost var order: seq<string> := [];
    while left != {}
      invariant left <= delays.Keys && Enumerates(order, Without(delays, left)) && KeysOf(order, delays)
      invariant nonZeroDelays == NonZero(delays, order)
    {
      var key :| key in left;
      EnumerateOneMore(order, delays, left, key);
      assert (order + [key])[..|order|] == order;
      var delay := delays[key];
      if delay != 0 {
        nonZeroDelays := nonZeroDelays + [Ms(delay)];
      }
      left, order := left - {key}, order + [key];
    }
    assert Without(delays, {}) == delays;
  }

  function Without(delays: map<string, int>, left: set<string>): map<string, int> {
    map k | k in delays && k !in left :: delays[k]
  }

  lemma EnumerateOneMore(order: seq<string>, delays: map<string, int>, left: set<string>, key: string)
    requires Enumerates(order, Without(delays, left)) && key in left && key in delays
    ensures Enumerates(order + [key], Without(delays, left - {key}))
  {
    assert multiset(order + [key]) == multiset(order) + multiset{key};
    assert key !in Without(delays, left);
    assert key !in order;
  }

  method ComputeMean(xs: seq<real>) returns (mean: real)
    requires xs != []
    ensures mean == Mean(xs)
  {
    var sum := 0.0;
    for i := 0 to |xs|
      invariant sum == Sum(xs[..i])
    {
      assert xs[..i + 1][..i] == xs[..i];
      sum := sum + xs[i];
    }
    assert xs[..|xs|] == xs;
    mean := sum / |xs| as real;
  }

  method ComputeVariance(xs: seq<real>, mean: real) returns (variance: real)
    requires xs != [] && mean == Mean(xs)
    ensures variance == Variance(xs)
  {
    ghost var shifted := Shift(xs, mean);
    variance := 0.0;
    for i := 0 to |xs|
      invariant variance == SumSquares(shifted[..i])
    {
      assert shifted[..i + 1][..i] == shifted[..i];
      var diff := xs[i] - mean;
      variance := variance + diff * diff;
    }
    assert shifted[..|xs|] == shifted;
    variance := variance / |xs| as real;
  }

  /** `sqrt` is any square root. */
  method ComputeStdDevOfDelays(delays: map<string, int>, sqrt: real -> real) returns (stdDev: real)
    ensures forall order | Enumerates(order, delays) :: stdDev == StdDev(NonZero(delays, order), sqrt)
  {
    var xs := NonZeroDelays(delays);
    ghost var order :| Enumerates(order, delays) && xs == NonZero(delays, order);
    forall order' | Enumerates(order', delays)
      ensures StdDev(NonZero(delays, order'), sqrt) == StdDev(xs, sqrt)
    {
      StdDevIgnoresOrder(delays, order', order, sqrt);
    }
    if |xs| == 0 || |xs| == 1 {
      return 0.0;
    }
    var mean := ComputeMean(xs);
    var variance := ComputeVariance(xs, mean);
    return sqrt(variance);
  }

  method ComputeStdDevDistance(value: int, stdDev: real, allValues: map<string, int>) returns (distance: real)
    ensures forall order | Enumerates(order, allValues) ::
              distance == Distance(Ms(value), stdDev, NonZero(allValues, order))
  {
    if stdDev == 0.0 || |allValues| == 0 {
      forall order | Enumerates(order, allValues)
        ensures 0.0 == Distance(Ms(value), stdDev, NonZero(allValues, order))
      {
        assert |allValues| == 0 ==> order == [] by {
          assert order != [] ==> order[0] in order;
        }
      }
      return 0.0;
    }
    var sum, count := SumAndCount(allValues);
    if count == 0 {
      return 0.0;
    }
    var mean := sum / count as real;
    return (Ms(value) - mean) / stdDev;
  }

  method SumAndCount(allValues: map<string, int>) returns (sum: real, count: nat)
    ensures forall order | Enumerates(order, allValues) ::
              sum == Sum(NonZero(allValues, order)) && count == |NonZero(allValues, order)|
  {
    hide Ms;
    sum, count := 0.0, 0;
    var left := allValues.Keys;
    ghost var done: seq<string> := [];
    while left != {}
      invariant left <= allValues.Keys && Enumerates(done, Without(allValues, left)) && KeysOf(done, allValues)
      invariant sum == Sum(NonZero(allValues, done)) && count == |NonZero(allValues, done)|
    {
      var key :| key in left;
      EnumerateOneMore(done, allValues, left, key);
      assert (done + [key])[..|done|] == done;
      var v := allValues[key];
      if v != 0 {
        SumPush(NonZero(allValues, done), Ms(v));
        sum := sum + Ms(v);
        count := count + 1;
      } else {
        assert NonZero(allValues, done) + [] == NonZero(allValues, done);
      }
      left, done := left - {key}, done + [key];
    }
    assert Without(allValues, {}) == allValues;
    forall order | Enumerates(order, allValues)
      ensures sum == Sum(NonZero(allValues, order)) && count == |NonZero(allValues, order)|
    {
      SameElements(allValues, order, done);
      OrderDoesNotMatter(allValues, order, done);
    }
  }

  lemma SumPush(xs: seq<real>, x: real)
    ensures Sum(xs + [x]) == Sum(xs) + x
  {
  }

  // ---------------------------------------------------------------------------
  // Sums

  lemma {:induction false} SumAppend(a: seq<real>, b: seq<real>)
    ensures Sum(a + b) == Sum(a) + Sum(b)
    ensures SumSquares(a + b) == SumSquares(a) + SumSquares(b)
  {
    if b == [] {
      assert a + b == a;
    } else {
      assert (a + b)[..|a + b| - 1] == a + b[..|b| - 1];
      SumAppend(a, b[..|b| - 1]);
    }
  }

  lemma {:induction false} NonZeroAppend(delays: map<string, int>, a: seq<string>, b: seq<string>)
    requires KeysOf(a + b, delays) && KeysOf(a, delays) && KeysOf(b, delays)
    ensures NonZero(delays, a + b) == NonZero(delays, a) + NonZero(delays, b)
  {
    if b == [] {
      assert a + b == a;
    } else {
      assert (a + b)[..|a + b| - 1] == a + b[..|b| - 1];
      NonZeroAppend(delays, a, b[..|b| - 1]);
    }
  }

  /** The order of the map iteration does not change the sums or the number of non-zero delays. */
  lemma {:induction false} OrderDoesNotMatter(delays: map<string, int>, a: seq<string>, b: seq<string>)
    requires KeysOf(a, delays) && KeysOf(b, delays) && multiset(a) == multiset(b)
    ensures Sum(NonZero(delays, a)) == Sum(NonZero(delays, b))
    ensures SumSquares(NonZero(delays, a)) == SumSquares(NonZero(delays, b))
    ensures |NonZero(delays, a)| == |NonZero(delays, b)|
  {
    hide NonZero;
    if a == [] {
      assert |b| == |multiset(b)| == 0;
    } else {
      var init, last := a[..|a| - 1], a[|a| - 1];
      assert a == init + [last];
      var before, after := TakeOut(init, last, b);
      OrderDoesNotMatter(delays, init, before + after);
      NonZeroWithout(delays, init, last, []);
      NonZeroWithout(delays, before, last, after);
      assert init + [last] + [] == a && init + [] == init;
    }
  }

  lemma NonZeroWithout(delays: map<string, int>, before: seq<string>, key: string, after: seq<string>)
    requires KeysOf(before, delays) && KeysOf(after, delays) && key in delays
    ensures KeysOf(before + [key] + after, delays) && KeysOf(before + after, delays)
    ensures Sum(NonZero(delays, before + [key] + after)) ==
            Sum(NonZero(delays, before + after)) + Sum(NonZero(delays, [key]))
    ensures SumSquares(NonZero(delays, before + [key] + after)) ==
            SumSquares(NonZero(delays, before + after)) + SumSquares(NonZero(delays, [key]))
    ensures |NonZero(delays, before + [key] + after)| == |NonZero(delays, before + after)| + |NonZero(delays, [key])|
  {
    hide NonZero;
    NonZeroAppend(delays, before + [key], after);
    NonZeroAppend(delays, before, [key]);
    NonZeroAppend(delays, before, after);
    SumAppend(NonZero(delays, before) + NonZero(delays, [key]), NonZero(delays, after));
    SumAppend(NonZero(delays, before), NonZero(delays, [key]));
    SumAppend(NonZero(delays, before), NonZero(delays, after));
  }

  lemma SameElements(delays: map<string, int>, a: seq<string>, b: seq<string>)
    requires Enumerates(a, delays) && Enumerates(b, delays)
    ensures multiset(a) == multiset(b)
  {
  }

  lemma {:induction false} SumOfShifted(xs: seq<real>, m: real)
    ensures Sum(Shift(xs, m)) == Sum(xs) - |xs| as real * m
    ensures SumSquares(Shift(xs, m)) == SumSquares(xs) - 2.0 * (m * Sum(xs)) + |xs| as real * Square(m)
  {
    hide Square;
    if xs != [] {
      var init, last := xs[..|xs| - 1], xs[|xs| - 1];
      SumOfShifted(init, m);
      assert Shift(xs, m)[..|xs| - 1] == Shift(init, m);
      ShiftOneMore(Sum(init), SumSquares(init), |init| as real, last, m);
    }
  }

  lemma ShiftOneMore(sum: real, squares: real, n: real, x: real, m: real)
    ensures sum - n * m + (x - m) == sum + x - (n + 1.0) * m
    ensures squares - 2.0 * (m * sum) + n * Square(m) + Square(x - m) ==
            squares + Square(x) - 2.0 * (m * (sum + x)) + (n + 1.0) * Square(m)
  {
  }

  lemma StdDevIgnoresOrder(delays: map<string, int>, a: seq<string>, b: seq<string>, sqrt: real -> real)
    requires Enumerates(a, delays) && Enumerates(b, delays)
    ensures StdDev(NonZero(delays, a), sqrt) == StdDev(NonZero(delays, b), sqrt)
  {
    hide NonZero, Sum, SumSquares, Square, Shift;
    var xs, ys := NonZero(delays, a), NonZero(delays, b);
    SameElements(delays, a, b);
    OrderDoesNotMatter(delays, a, b);
    if |xs| >= 2 {
      SumOfShifted(xs, Mean(xs));
      assert Mean(xs) == Mean(ys) by {
        assert |xs| as real == |ys| as real;
      }
      SumOfShifted(ys, Mean(xs));
      assert SumSquares(Shift(xs, Mean(xs))) == SumSquares(Shift(ys, Mean(ys)));
      assert Variance(xs) == Variance(ys);
    }
  }

  lemma DivideSum(a: real, b: real, s: real)
    requires s != 0.0
    ensures (a + b) / s == a / s + b / s
  {
  }

  lemma SquareIsPositive(s: real)
    ensures Square(s) >= 0.0
    ensures s != 0.0 ==> Square(s) > 0.0
  {
    if s != 0.0 {
      QuotientIs(Square(s), s, s);
      QuotientIs(0.0, s, 0.0);
    }
  }

  lemma QuotientIs(a: real, b: real, q: real)
    requires b != 0.0 && q * b == a
    ensures a / b == q
  {
  }

  lemma SquareOfProduct(q: real, s: real)
    ensures Square(q * s) == Square(q) * Square(s)
  {
  }

  lemma SquareOfQuotient(x: real, s: real)
    requires s != 0.0
    ensures Square(s) > 0.0 && Square(x / s) == Square(x) / Square(s)
  {
    hide Square;
    var q := x / s;
    assert q * s == x;
    SquareIsPositive(s);
    SquareOfProduct(q, s);
    QuotientIs(Square(x), Square(s), Square(q));
  }

  lemma {:induction false} SumOfScaled(xs: seq<real>, s: real)
    requires s != 0.0
    ensures Square(s) > 0.0
    ensures Sum(Scale(xs, s)) == Sum(xs) / s
    ensures SumSquares(Scale(xs, s)) == SumSquares(xs) / Square(s)
  {
    hide Square;
    SquareIsPositive(s);
    if xs != [] {
      var init, last, ys := xs[..|xs| - 1], xs[|xs| - 1], Scale(xs, s);
      SumOfScaled(init, s);
      assert ys[..|xs| - 1] == Scale(init, s);
      DivideSum(Sum(init), last, s);
      SquareOfQuotient(last, s);
      DivideSum(SumSquares(init), Square(last), Square(s));
    }
  }

  // ---------------------------------------------------------------------------
  // Bounded dispersion

  /** Twice a product is at most the sum of the squares. */
  lemma TwiceProduct(a: real, x: real)
    ensures 2.0 * (a * x) <= Square(a) + Square(x)
  {
  }

  lemma Monotone(n: real, a: real, b: real)
    requires n >= 0.0 && a <= b
    ensures n * a <= n * b
  {
  }

  lemma CancelFactor(n: real, a: real, b: real)
    requires n > 0.0 && n * a <= n * b
    ensures a <= b
  {
  }

  lemma SquareOfSumOfTwo(a: real, b: real)
    ensures Square(a + b) == Square(a) + 2.0 * (a * b) + Square(b)
    ensures Square(a - b) == Square(a) - 2.0 * (a * b) + Square(b)
  {
  }

  /** One step of Cauchy-Schwarz against a list of ones, with `a` the mean so far. */
  lemma SquareOfSumStep(a: real, squares: real, n: real, x: real)
    requires n > 0.0 && n * Square(a) <= squares
    ensures Square(n * a + x) <= (n + 1.0) * (squares + Square(x))
  {
    hide Square;
    var aa, xx, ax := Square(a), Square(x), a * x;
    TwiceProduct(a, x);
    Monotone(n, 2.0 * ax, aa + xx);
    Monotone(n, n * aa, squares);
    SquareOfProduct(n, a);
    assert Square(n) * aa == n * (n * aa) by { TimesTwice(n, aa); }
    SquareOfSumOfTwo(n * a, x);
    assert (n * a) * x == n * ax;
    assert n * (2.0 * ax) == 2.0 * (n * ax);
    assert n * (aa + xx) == n * aa + n * xx;
    assert (n + 1.0) * (squares + xx) == n * squares + n * xx + squares + xx;
  }

  lemma TimesTwice(n: real, a: real)
    ensures Square(n) * a == n * (n * a)
  {
  }

  /** Cauchy-Schwarz against a list of ones. */
  lemma {:induction false} SquareOfSum(xs: seq<real>)
    ensures Square(Sum(xs)) <= |xs| as real * SumSquares(xs)
  {
    if |xs| == 1 {
      SumOfOne(xs[0]);
      assert xs == [xs[0]];
    } else if |xs| > 1 {
      hide Square;
      var init, x := xs[..|xs| - 1], xs[|xs| - 1];
      SquareOfSum(init);
      SquareOfSumFrom(Sum(init), SumSquares(init), |init| as real, x);
    }
  }

  lemma SquareOfSumFrom(sum: real, squares: real, n: real, x: real)
    requires n > 0.0 && Square(sum) <= n * squares
    ensures Square(sum + x) <= (n + 1.0) * (squares + Square(x))
  {
    hide Square;
    var a := sum / n;
    assert sum == n * a;
    SquareOfProduct(n, a);
    TimesTwice(n, Square(a));
    CancelFactor(n, n * Square(a), squares);
    SquareOfSumStep(a, squares, n, x);
  }

  lemma SumOfOne(x: real)
    ensures Sum([x]) == x && SumSquares([x]) == Square(x)
  {
  }

  /** Samuelson's inequality for a list with sum 0 whose squares sum to its length. */
  lemma EachSquareIsBounded(ys: seq<real>, j: nat)
    requires j < |ys| && Sum(ys) == 0.0 && SumSquares(ys) == |ys| as real
    ensures Square(ys[j]) <= |ys| as real - 1.0
  {
    hide Sum, SumSquares, Square;
    var before, y, after := ys[..j], ys[j], ys[j + 1..];
    assert ys == before + [y] + after;
    SumAppend(before + [y], after);
    SumAppend(before, [y]);
    SumAppend(before, after);
    SumOfOne(y);
    SquareOfSum(before + after);
    BoundFromRest(y, |ys| as real, Sum(before + after), SumSquares(before + after));
  }

  lemma BoundFromRest(y: real, n: real, sum: real, squares: real)
    requires n > 0.0 && sum == -y && squares == n - Square(y)
    requires Square(sum) <= (n - 1.0) * squares
    ensures Square(y) <= n - 1.0
  {
    assert Square(sum) == Square(y);
    hide Square;
    var yy := Square(y);
    assert (n - 1.0) * (n - yy) == n * (n - 1.0) - n * yy + yy;
    CancelFactor(n, yy, n - 1.0);
  }

  /** Distances from the mean, over a deviation that is a square root of the variance. */
  lemma ScaledShift(xs: seq<real>, stdDev: real)
    requires |xs| >= 1 && stdDev != 0.0 && Square(stdDev) == Variance(xs)
    ensures var ds := Scale(Shift(xs, Mean(xs)), stdDev);
            Sum(ds) == 0.0 && SumSquares(ds) == |xs| as real
  {
    hide Sum, SumSquares, Square, Shift, Scale;
    var n, shifted := |xs| as real, Shift(xs, Mean(xs));
    SumOfShifted(xs, Mean(xs));
    assert n * Mean(xs) == Sum(xs);
    SumOfScaled(shifted, stdDev);
    QuotientIs(0.0, stdDev, 0.0);
    assert n * Square(stdDev) == SumSquares(shifted);
    QuotientIs(SumSquares(shifted), Square(stdDev), n);
  }

  /** For at least two non-zero delays with a non-zero deviation: the distances of the non-zero delays
      sum to 0, their squares sum to their number, and no squared distance exceeds that number less
      one; whatever the order of each map iteration. */
  lemma DispersionIsBounded(delays: map<string, int>, order: seq<string>, order': seq<string>, stdDev: real)
    requires Enumerates(order, delays) && Enumerates(order', delays)
    requires |NonZero(delays, order)| >= 2
    requires stdDev != 0.0 && Square(stdDev) == Variance(NonZero(delays, order))
    ensures var xs := NonZero(delays, order);
            var ds := Distances(xs, stdDev, NonZero(delays, order'));
            && Sum(ds) == 0.0 && SumSquares(ds) == |xs| as real
            && forall i | 0 <= i < |ds| :: Square(ds[i]) <= |xs| as real - 1.0
  {
    hide NonZero, Sum, SumSquares, Square, Variance;
    var xs := NonZero(delays, order);
    SameElements(delays, order, order');
    OrderDoesNotMatter(delays, order, order');
    var ds := Distances(xs, stdDev, NonZero(delays, order'));
    assert ds == Scale(Shift(xs, Mean(xs)), stdDev);
    ScaledShift(xs, stdDev);
    forall i | 0 <= i < |ds| ensures Square(ds[i]) <= |xs| as real - 1.0 {
      EachSquareIsBounded(ds, i);
    }
  }

  lemma {:induction false} SumSquaresIsNotNegative(xs: seq<real>)
    ensures SumSquares(xs) >= 0.0
  {
    if xs != [] {
      SumSquaresIsNotNegative(xs[..|xs| - 1]);
      SquareIsPositive(xs[|xs| - 1]);
    }
  }

  lemma {:induction false} NonZeroContains(delays: map<string, int>, order: seq<string>, key: string)
    requires KeysOf(order, delays) && key in order && delays[key] != 0
    ensures Ms(delays[key]) in NonZero(delays, order)
  {
    var init, last := order[..|order| - 1], order[|order| - 1];
    assert order == init + [last];
    if last != key {
      NonZeroContains(delays, init, key);
    }
  }

  /** The squared distance of a non-zero delay is below the number of non-zero delays, for every map. */
  lemma DistanceIsBounded(delays: map<string, int>, order: seq<string>, key: string, stdDev: real, sqrt: real -> real)
    requires Enumerates(order, delays) && key in delays && delays[key] != 0
    requires stdDev == StdDev(NonZero(delays, order), sqrt)
    requires forall v: real | v >= 0.0 :: Square(sqrt(v)) == v
    ensures Square(Distance(Ms(delays[key]), stdDev, NonZero(delays, order))) <= |NonZero(delays, order)| as real - 1.0
  {
    hide NonZero, Sum, SumSquares, Square, Ms;
    var xs, x := NonZero(delays, order), Ms(delays[key]);
    assert key in order by {
      assert multiset(order)[key] == 1;
    }
    NonZeroContains(delays, order, key);
    if stdDev == 0.0 {
      assert Square(0.0) == 0.0 by { SumOfOne(0.0); SquareOfSumOfTwo(0.0, 0.0); }
    } else {
      SumSquaresIsNotNegative(Shift(xs, Mean(xs)));
      DispersionIsBounded(delays, order, order, stdDev);
      var i :| 0 <= i < |xs| && xs[i] == x;
      assert Distances(xs, stdDev, xs)[i] == Distance(x, stdDev, xs);
    }
  }
}
