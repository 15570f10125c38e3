/** Facts about multisets of list elements. */
module Rearrange {

  lemma AddOne<T>(a: multiset<T>, b: multiset<T>, all: multiset<T>, x: T)
    requires a + b == all
    ensures (a + multiset{x}) + b == all + multiset{x} == a + (b + multiset{x})
  {
  }

  lemma Exchange<T>(remaining: multiset<T>, returned: multiset<T>, alive: multiset<T>, finished: multiset<T>,
                    created: multiset<T>, all: multiset<T>)
    requires remaining + returned == alive + created && alive + finished == all
    ensures remaining + (finished + returned) == all + created
  {
    assert remaining + (finished + returned) == (remaining + returned) + finished;
    assert (alive + created) + finished == (alive + finished) + created;
  }

  lemma Extend<T>(all: seq<T>, first: multiset<T>, rest: seq<T>, last: seq<T>)
    requires multiset(all) == first + multiset(rest)
    ensures multiset(all + last) == first + multiset(rest + last)
  {
  }

  lemma Cancel<T>(a: multiset<T>, b: multiset<T>, x: T)
    requires a + multiset{x} == b + multiset{x}
    ensures a == b
  {
    assert a == (a + multiset{x}) - multiset{x};
    assert b == (b + multiset{x}) - multiset{x};
  }

  lemma InTheMiddle<T>(before: seq<T>, x: T, after: seq<T>)
    ensures multiset(before + [x] + after) == multiset(before + after) + multiset{x}
  {
  }

  lemma TakeOut<T>(init: seq<T>, x: T, b: seq<T>) returns (before: seq<T>, after: seq<T>)
    requires multiset(b) == multiset(init) + multiset{x}
    ensures b == before + [x] + after
    ensures multiset(init) == multiset(before + after)
  {
    assert x in multiset(b);
    var k :| 0 <= k < |b| && b[k] == x;
    before, after := b[..k], b[k + 1..];
    assert b == before + [x] + after;
    InTheMiddle(before, x, after);
    Cancel(multiset(init), multiset(before + after), x);
  }
}
