/** What the deviation and the distances are, in sums over the delays themselves. */
module Deviation {
  import opened SignatureStats

  /** The keys with a non-zero delay. */
  function Delayed(delays: map<string, int>): set<string> {
    set k | k in delays && delays[k] != 0
  }

  /** The sum of the delays, in nanoseconds. */
  function Total(delays: map<string, int>, order: seq<string>): real
    requires KeysOf(order, delays)
  {
    if order == [] then 0.0
    else Total(delays, order[..|order| - 1]) + delays[order[|order| - 1]] as real
  }

  /** The sum of their squares. */
  function TotalSquares(delays: map<string, int>, order: seq<string>): real
    requires KeysOf(order, delays)
  {
    if order == [] then 0.0
    else TotalSquares(delays, order[..|order| - 1]) + Square(delays[order[|order| - 1]] as real)
  }

  function Times(n: nat, x: real): real {
    n as real * x
  }

  ghost predicate IsSquareRoot(sqrt: real -> real) {
    forall v: real | v >= 0.0 :: sqrt(v) >= 0.0 && Square(sqrt(v)) == v
  }

  // ---------------------------------------------------------------------------
  // The non-zero delays

  lemma {:induction false} NonZeroSums(delays: map<string, int>, order: seq<string>)
    requires KeysOf(order, delays)
    ensures 1000000.0 * Sum(NonZero(delays, order)) == Total(delays, order)
    ensures 1000000000000.0 * SumSquares(NonZero(delays, order)) == TotalSquares(delays, order)
  {
    hide Square, Ms;
    if order != [] {
      var init, d := order[..|order| - 1], delays[order[|order| - 1]];
      var before := NonZero(delays, init);
      NonZeroSums(delays, init);
      MsSquare(d);
      if d == 0 {
        assert NonZero(delays, order) == before + [] == before;
      } else {
        hide Sum, SumSquares;
        SumAppend(before, [Ms(d)]);
        SumOfOne(Ms(d));
      }
    }
  }

  lemma MsSquare(d: int)
    ensures 1000000.0 * Ms(d) == d as real
    ensures 1000000000000.0 * Square(Ms(d)) == Square(d as real)
    ensures d == 0 ==> Square(d as real) == 0.0
  {
    SquareInNanoseconds(Ms(d));
  }

  lemma SquareInNanoseconds(x: real)
    ensures Square(1000000.0 * x) == 1000000000000.0 * Square(x)
  {
  }

  lemma {:induction false} NonZeroElements(delays: map<string, int>, order: seq<string>)
    requires KeysOf(order, delays)
    ensures forall x :: x in NonZero(delays, order) <==> exists k :: k in order && delays[k] != 0 && x == Ms(delays[k])
  {
    hide Ms;
    if order != [] {
      var init, last := order[..|order| - 1], order[|order| - 1];
      NonZeroElements(delays, init);
      assert order == init + [last];
      assert forall k :: k in order <==> k in init || k == last;
    }
  }

  lemma {:induction false} NonZeroCount(delays: map<string, int>, order: seq<string>)
    requires KeysOf(order, delays) && forall i, j | 0 <= i < j < |order| :: order[i] != order[j]
    ensures |NonZero(delays, order)| == |set k | k in order && delays[k] != 0|
  {
    if order != [] {
      var init, last := order[..|order| - 1], order[|order| - 1];
      NonZeroCount(delays, init);
      assert last !in init;
      assert forall k :: k in order <==> k in init || k == last;
      var before, after := set k | k in init && delays[k] != 0, set k | k in order && delays[k] != 0;
      assert after == if delays[last] != 0 then before + {last} else before;
    }
  }

  lemma ListedOnce(delays: map<string, int>, order: seq<string>)
    requires Enumerates(order, delays)
    ensures forall i, j | 0 <= i < j < |order| :: order[i] != order[j]
  {
    forall i, j | 0 <= i < j < |order| ensures order[i] != order[j] {
      var k := order[j];
      assert order == order[..j] + [k] + order[j + 1..];
      assert multiset(order)[k] >= multiset(order[..j])[k] + 1;
      assert k in order;
      assert multiset(order[..j])[k] == 0;
      assert order[i] in order[..j];
    }
  }

  lemma DelayedCount(delays: map<string, int>, order: seq<string>)
    requires Enumerates(order, delays)
    ensures |NonZero(delays, order)| == |Delayed(delays)|
  {
    ListedOnce(delays, order);
    NonZeroCount(delays, order);
    AllListed(delays, order);
    assert (set k | k in order && delays[k] != 0) == Delayed(delays);
  }

  lemma AllListed(delays: map<string, int>, order: seq<string>)
    requires Enumerates(order, delays)
    ensures forall k :: k in order <==> k in delays
  {
    forall k | k in delays ensures k in order {
      assert multiset(order)[k] == 1;
    }
  }

  // ---------------------------------------------------------------------------
  // The deviation

  lemma MeanTimes(xs: seq<real>)
    requires xs != []
    ensures |xs| as real * Mean(xs) == Sum(xs)
  {
    hide Sum;
    QuotientTimes(|xs| as real, Sum(xs));
  }

  lemma VarianceTimes(xs: seq<real>)
    requires xs != []
    ensures |xs| as real * Variance(xs) == SumSquares(Shift(xs, Mean(xs)))
  {
    hide SumSquares, Shift, Mean;
    QuotientTimes(|xs| as real, SumSquares(Shift(xs, Mean(xs))));
  }

  lemma QuotientTimes(n: real, a: real)
    requires n != 0.0
    ensures n * (a / n) == a
  {
  }

  lemma DeviationOfSums(xs: seq<real>, s: real)
    requires xs != [] && Square(s) == Variance(xs)
    ensures Square(Times(|xs|, s)) == Times(|xs|, SumSquares(xs)) - Square(Sum(xs))
  {
    hide Sum, SumSquares, Square, Shift;
    hide Variance, Mean;
    MeanTimes(xs);
    VarianceTimes(xs);
    SumOfShifted(xs, Mean(xs));
    DeviationAlgebra(|xs|, Square(s), s, Mean(xs), Sum(xs), SumSquares(xs));
  }

  lemma DeviationAlgebra(n: nat, v: real, s: real, m: real, sum: real, squares: real)
    requires v == Square(s) && n as real * m == sum && n as real * v == squares - 2.0 * (m * sum) + n as real * Square(m)
    ensures Square(Times(n, s)) == Times(n, squares) - Square(sum)
  {
    var N := n as real;
    SquareOfProduct(N, s);
    SquareOfProduct(N, m);
    assert Square(N * s) == N * (N * v);
    assert Square(sum) == N * (N * Square(m));
    assert N * (m * sum) == sum * sum;
    SameProduct(N, N * v, squares - 2.0 * (m * sum) + N * Square(m));
  }

  lemma SquareIsZeroIff(x: real)
    ensures Square(x) >= 0.0 && (Square(x) == 0.0 <==> x == 0.0)
  {
    SquareIsPositive(x);
  }

  lemma SameProduct(n: real, a: real, b: real)
    requires a == b
    ensures n * a == n * b
  {
  }

  lemma {:induction false} SumSquaresIsZeroIff(ys: seq<real>)
    ensures SumSquares(ys) == 0.0 <==> forall y | y in ys :: y == 0.0
  {
    hide Square;
    if ys != [] {
      var init, last := ys[..|ys| - 1], ys[|ys| - 1];
      assert ys == init + [last];
      assert forall y :: y in ys <==> y in init || y == last;
      SumSquaresIsZeroIff(init);
      SumSquaresIsNotNegative(init);
      SquareIsZeroIff(last);
      assert last in ys;
    }
  }

  lemma TimesOneMore(n: nat, c: real)
    ensures Times(0, c) == 0.0 && Times(n + 1, c) == Times(n, c) + c
  {
  }

  lemma TimesDivided(n: nat, c: real)
    requires n > 0
    ensures Times(n, c) / n as real == c
  {
    QuotientIs(Times(n, c), n as real, c);
  }

  lemma {:induction false} SumOfEqual(xs: seq<real>, c: real)
    requires forall x | x in xs :: x == c
    ensures Sum(xs) == Times(|xs|, c)
  {
    hide Times;
    TimesOneMore(0, c);
    if xs != [] {
      var init, last := xs[..|xs| - 1], xs[|xs| - 1];
      assert xs == init + [last];
      forall x | x in init ensures x == c {
        assert x in xs;
      }
      SumOfEqual(init, c);
      assert last in xs;
      TimesOneMore(|init|, c);
    }
  }

  lemma VarianceIsZeroIff(xs: seq<real>)
    requires xs != []
    ensures Variance(xs) >= 0.0
    ensures Variance(xs) == 0.0 <==> AllEqual(xs)
  {
    hide Sum, SumSquares, Shift, Mean, Variance;
    var n, shifted := |xs| as real, Shift(xs, Mean(xs));
    VarianceTimes(xs);
    SumSquaresIsZeroIff(shifted);
    SumSquaresIsNotNegative(shifted);
    QuotientIs(SumSquares(shifted), n, Variance(xs));
    ShiftedIsZeroIff(xs);
  }

  lemma ShiftedIsZeroIff(xs: seq<real>)
    requires xs != []
    ensures (forall y | y in Shift(xs, Mean(xs)) :: y == 0.0) <==> AllEqual(xs)
  {
    var m := Mean(xs);
    var shifted := Shift(xs, m);
    if AllEqual(xs) {
      assert xs[0] in xs;
      SumOfEqual(xs, xs[0]);
      TimesDivided(|xs|, xs[0]);
      forall y | y in shifted ensures y == 0.0 {
        var i :| 0 <= i < |xs| && shifted[i] == y;
        assert xs[i] in xs;
      }
    }
    if forall y | y in shifted :: y == 0.0 {
      forall x | x in xs ensures x == m {
        var i :| 0 <= i < |xs| && xs[i] == x;
        assert shifted[i] in shifted;
      }
    }
  }

  /** The result of the deviation's computation, as its contract gives it. */
  ghost predicate IsStdDev(stdDev: real, delays: map<string, int>, sqrt: real -> real) {
    forall order | Enumerates(order, delays) :: stdDev == StdDev(NonZero(delays, order), sqrt)
  }

  /** For n >= 2 non-zero delays d: stdDev >= 0 and (n * stdDev)^2 = n * sum(d^2) - sum(d)^2, the left side in
      milliseconds and the right in nanoseconds; it is 0 exactly if all non-zero delays are equal, in particular for fewer than two. */
  lemma StdDevIs(stdDev: real, delays: map<string, int>, sqrt: real -> real, order: seq<string>)
    requires IsStdDev(stdDev, delays, sqrt) && IsSquareRoot(sqrt) && Enumerates(order, delays)
    ensures stdDev >= 0.0
    ensures var n := |Delayed(delays)|;
            n >= 2 ==> 1000000000000.0 * Square(Times(n, stdDev)) ==
                       Times(n, TotalSquares(delays, order)) - Square(Total(delays, order))
    ensures stdDev == 0.0 <==> EquallyDelayed(delays)
    ensures |Delayed(delays)| < 2 ==> stdDev == 0.0
  {
    hide NonZero, Sum, SumSquares, Square, Variance, Times, Total, TotalSquares;
    var xs := NonZero(delays, order);
    DelayedCount(delays, order);
    if |xs| < 2 {
      FewAreEqual(Delayed(delays));
    } else {
      VarianceIsZeroIff(xs);
      assert Square(sqrt(Variance(xs))) == Variance(xs);
      DeviationOfSums(xs, stdDev);
      SumsInNanoseconds(delays, order, stdDev);
      SquareIsZeroIff(stdDev);
      EqualDelays(delays, order);
    }
  }

  lemma FewAreEqual<T>(s: set<T>)
    requires |s| < 2
    ensures forall x, y | x in s && y in s :: x == y
  {
    forall x, y | x in s && y in s ensures x == y {
      assert |s - {x}| == |s| - 1;
      assert y !in s - {x};
    }
  }

  lemma SumsInNanoseconds(delays: map<string, int>, order: seq<string>, s: real)
    requires KeysOf(order, delays)
    requires var xs := NonZero(delays, order);
             Square(Times(|xs|, s)) == Times(|xs|, SumSquares(xs)) - Square(Sum(xs))
    ensures 1000000000000.0 * Square(Times(|NonZero(delays, order)|, s)) ==
            Times(|NonZero(delays, order)|, TotalSquares(delays, order)) - Square(Total(delays, order))
  {
    hide NonZero, Sum, SumSquares, Square, Total, TotalSquares, Times;
    var xs := NonZero(delays, order);
    NonZeroSums(delays, order);
    SquareInNanoseconds(Sum(xs));
    TimesScaled(|xs|, SumSquares(xs));
  }

  lemma TimesScaled(n: nat, x: real)
    ensures Times(n, 1000000000000.0 * x) == 1000000000000.0 * Times(n, x)
  {
  }

  ghost predicate AllEqual(xs: seq<real>) {
    forall x, y | x in xs && y in xs :: x == y
  }

  ghost predicate EquallyDelayed(delays: map<string, int>) {
    forall k, k' | k in Delayed(delays) && k' in Delayed(delays) :: delays[k] == delays[k']
  }

  lemma EqualDelays(delays: map<string, int>, order: seq<string>)
    requires Enumerates(order, delays)
    ensures AllEqual(NonZero(delays, order)) <==> EquallyDelayed(delays)
  {
    hide NonZero, AllEqual, EquallyDelayed;
    NonZeroElements(delays, order);
    AllListed(delays, order);
    if AllEqual(NonZero(delays, order)) {
      FromEqualValues(delays, order);
    }
    if EquallyDelayed(delays) {
      FromEqualDelays(delays, order);
    }
  }

  lemma FromEqualValues(delays: map<string, int>, order: seq<string>)
    requires Enumerates(order, delays) && AllEqual(NonZero(delays, order))
    ensures EquallyDelayed(delays)
  {
    hide NonZero;
    NonZeroElements(delays, order);
    AllListed(delays, order);
    forall k, k' | k in Delayed(delays) && k' in Delayed(delays) ensures delays[k] == delays[k'] {
      assert Ms(delays[k]) in NonZero(delays, order) && Ms(delays[k']) in NonZero(delays, order);
      MsSquare(delays[k]);
      MsSquare(delays[k']);
    }
  }

  lemma FromEqualDelays(delays: map<string, int>, order: seq<string>)
    requires Enumerates(order, delays) && EquallyDelayed(delays)
    ensures AllEqual(NonZero(delays, order))
  {
    hide NonZero, Ms;
    NonZeroElements(delays, order);
    AllListed(delays, order);
    var xs := NonZero(delays, order);
    forall x, y | x in xs && y in xs ensures x == y {
      var k :| k in order && delays[k] != 0 && x == Ms(delays[k]);
      var k' :| k' in order && delays[k'] != 0 && y == Ms(delays[k']);
      assert k in Delayed(delays) && k' in Delayed(delays);
    }
  }

  // ---------------------------------------------------------------------------
  // The distance

  ghost predicate IsDistanceOf(distance: real, value: int, stdDev: real, delays: map<string, int>) {
    forall order | Enumerates(order, delays) :: distance == Distance(Ms(value), stdDev, NonZero(delays, order))
  }

  /** The distance times the deviation is the value less the mean of the non-zero delays; without deviation, or
      without such delays, the distance is 0. */
  lemma DistanceIs(distance: real, value: int, stdDev: real, delays: map<string, int>, order: seq<string>)
    requires IsDistanceOf(distance, value, stdDev, delays) && Enumerates(order, delays)
    ensures stdDev == 0.0 || Delayed(delays) == {} ==> distance == 0.0
    ensures var n := |Delayed(delays)|;
            stdDev != 0.0 && n > 0 ==>
              1000000.0 * Times(n, distance * stdDev) == Times(n, value as real) - Total(delays, order)
  {
    hide NonZero, Sum, Total, Ms;
    var xs := NonZero(delays, order);
    DelayedCount(delays, order);
    if stdDev != 0.0 && xs != [] {
      NonZeroSums(delays, order);
      MsSquare(value);
      DistanceAlgebra(|xs|, distance, stdDev, Ms(value), Mean(xs), Sum(xs));
    }
  }

  lemma DistanceAlgebra(n: nat, distance: real, s: real, v: real, m: real, sum: real)
    requires s != 0.0 && n > 0 && distance == (v - m) / s && m == sum / n as real
    ensures 1000000.0 * Times(n, distance * s) == Times(n, 1000000.0 * v) - 1000000.0 * sum
  {
    assert distance * s == v - m;
    assert n as real * m == sum;
    assert n as real * (v - m) == n as real * v - n as real * m;
    SameProduct(n as real, distance * s, v - m);
  }
}
