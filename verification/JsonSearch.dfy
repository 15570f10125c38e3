/** Bounded depth-first search for an object key in a JSON document. */
module JsonSearch {
  import opened Chain

  /** A document is an object, or it does not parse as one. */
  datatype Json = Object(members: map<string, Json>) | NoObject(text: string)

  /** Nested object members lead along the path to an object with the key. */
  predicate Reaches(doc: Json, key: string, path: seq<string>) {
    && doc.Object?
    && if path == [] then key in doc.members
       else path[0] in doc.members && Reaches(doc.members[path[0]], key, path[1..])
  }

  /** The value of the key at the end of the path. */
  function ValueAt(doc: Json, key: string, path: seq<string>): Json
    requires Reaches(doc, key, path)
  {
    if path == [] then doc.members[key] else ValueAt(doc.members[path[0]], key, path[1..])
  }

  // ---------------------------------------------------------------------------
  // Order of strings and of paths

  predicate Before(a: string, b: string) {
    if a == [] || b == [] then a == [] && b != []
    else a[0] < b[0] || (a[0] == b[0] && Before(a[1..], b[1..]))
  }

  /** Sorted-key preorder: an object comes before its members, members come in the order of their keys. */
  predicate Precedes(p: seq<string>, q: seq<string>) {
    if p == [] || q == [] then p == [] && q != []
    else Before(p[0], q[0]) || (p[0] == q[0] && Precedes(p[1..], q[1..]))
  }

  ghost predicate FirstHit(doc: Json, key: string, maxDepth: int, path: seq<string>) {
    && Reaches(doc, key, path) && |path| < maxDepth
    && forall q | Reaches(doc, key, q) && |q| < maxDepth :: q == path || Precedes(path, q)
  }

  ghost predicate Missing(doc: Json, key: string, maxDepth: int) {
    forall q | |q| < maxDepth :: !Reaches(doc, key, q)
  }

  predicate SortedListOf(keys: seq<string>, all: set<string>) {
    && (forall k | k in keys :: k in all) && (forall k | k in all :: k in keys)
    && forall i, j | 0 <= i < j < |keys| :: Before(keys[i], keys[j])
  }

  lemma {:induction false} BeforeIsTotal(a: string, b: string)
    ensures a == b || Before(a, b) || Before(b, a)
    ensures !(Before(a, b) && Before(b, a))
  {
    if a != [] && b != [] && a[0] == b[0] {
      BeforeIsTotal(a[1..], b[1..]);
      assert a == [a[0]] + a[1..] && b == [b[0]] + b[1..];
    }
  }

  lemma {:induction false} BeforeIsTransitive(a: string, b: string, c: string)
    requires Before(a, b) && Before(b, c)
    ensures Before(a, c)
  {
    if a != [] && a[0] == b[0] && b[0] == c[0] {
      BeforeIsTransitive(a[1..], b[1..], c[1..]);
    }
  }

  /** A string comes before its extensions; of two strings that part after a common beginning, the one with the
      smaller character comes first. */
  lemma {:induction false} BeforeMeans(common: string, a: char, x: string, b: char, y: string)
    ensures Before(common, common + [a] + x) && !Before(common + [a] + x, common)
    ensures a != b ==> (Before(common + [a] + x, common + [b] + y) <==> a < b)
    decreases |common|
  {
    var p, q := common + [a] + x, common + [b] + y;
    if common != [] {
      BeforeMeans(common[1..], a, x, b, y);
      assert p[1..] == common[1..] + [a] + x && q[1..] == common[1..] + [b] + y;
    }
  }

  /** A path comes before its extensions; of two paths that part after a common beginning, the one with the
      smaller key comes first. */
  lemma {:induction false} PrecedesMeans(common: seq<string>, a: string, x: seq<string>, b: string, y: seq<string>)
    ensures Precedes(common, common + [a] + x) && !Precedes(common + [a] + x, common)
    ensures a != b ==> (Precedes(common + [a] + x, common + [b] + y) <==> Before(a, b))
    decreases |common|
  {
    var p, q := common + [a] + x, common + [b] + y;
    if common == [] {
      BeforeIsTotal(a, b);
    } else {
      BeforeIsTotal(common[0], common[0]);
      PrecedesMeans(common[1..], a, x, b, y);
      assert p[1..] == common[1..] + [a] + x && q[1..] == common[1..] + [b] + y;
    }
  }

  lemma {:induction false} SortedListExists(all: set<string>) returns (keys: seq<string>)
    ensures SortedListOf(keys, all)
    decreases |all|
  {
    if all == {} {
      keys := [];
    } else {
      var last := LastOf(all);
      keys := SortedListExists(all - {last});
      assert forall k | k in keys :: Before(k, last);
      keys := keys + [last];
    }
  }

  lemma ListedAreMembers(keys: seq<string>, all: set<string>)
    requires SortedListOf(keys, all)
    ensures forall i | 0 <= i < |keys| :: keys[i] in all
  {
  }

  lemma {:induction false} LastOf(all: set<string>) returns (last: string)
    requires all != {}
    ensures last in all && forall k | k in all && k != last :: Before(k, last)
    decreases |all|
  {
    var some :| some in all;
    if all == {some} {
      last := some;
    } else {
      var other := LastOf(all - {some});
      BeforeIsTotal(some, other);
      last := if Before(other, some) then some else other;
      forall k | k in all && k != last ensures Before(k, last) {
        if last == some && k != other {
          BeforeIsTransitive(k, other, some);
        }
      }
    }
  }

  // ---------------------------------------------------------------------------
  // The search

  /** Succeeds if and only if some path of fewer than maxDepth members reaches the key, with the value
      at the first such path in sorted-key preorder. */
  method FindJSONKey(doc: Json, key: string, maxDepth: int) returns (raw: Option<Json>, ghost path: seq<string>)
    ensures raw.None? <==> Missing(doc, key, maxDepth)
    ensures raw.Some? ==> FirstHit(doc, key, maxDepth, path) && raw.value == ValueAt(doc, key, path)
    decreases maxDepth
  {
    path := [];
    if maxDepth <= 0 {
      return None, path;
    }
    if !doc.Object? {
      return None, path;
    }
    var obj := doc.members;
    if key in obj {
      return Some(obj[key]), path;
    }
    var _ := SortedListExists(obj.Keys);
    var keys :| SortedListOf(keys, obj.Keys);
    ListedAreMembers(keys, obj.Keys);
    for i := 0 to |keys|
      invariant forall j | 0 <= j < i :: keys[j] in obj && Missing(obj[keys[j]], key, maxDepth - 1)
    {
      var raw', path' := FindJSONKey(obj[keys[i]], key, maxDepth - 1);
      if raw'.Some? {
        path := [keys[i]] + path';
        FirstAmongMembers(doc, key, maxDepth, keys, i, path');
        return raw', path;
      }
    }
    NoMemberReaches(doc, key, maxDepth, keys);
    return None, path;
  }

  /** A path that reaches the key goes through a member that comes no earlier than the first hit's. */
  lemma {:induction false} HitComesNoEarlier(doc: Json, key: string, maxDepth: int, keys: seq<string>, i: nat,
                                             path: seq<string>, q: seq<string>)
    requires doc.Object? && key !in doc.members && SortedListOf(keys, doc.members.Keys)
    requires i < |keys| && keys[i] in doc.members
    requires forall j | 0 <= j < i :: keys[j] in doc.members && Missing(doc.members[keys[j]], key, maxDepth - 1)
    requires FirstHit(doc.members[keys[i]], key, maxDepth - 1, path)
    requires Reaches(doc, key, q) && |q| < maxDepth
    ensures q == [keys[i]] + path || Precedes([keys[i]] + path, q)
  {
    hide Before;
    assert q != [] && q[0] in keys;
    var j :| 0 <= j < |keys| && keys[j] == q[0];
    assert Reaches(doc.members[keys[j]], key, q[1..]) && |q[1..]| < maxDepth - 1;
    assert j >= i;
    assert q == [q[0]] + q[1..];
    var found := [keys[i]] + path;
    assert found[0] == keys[i] && found[1..] == path;
  }

  lemma {:induction false} FirstAmongMembers(doc: Json, key: string, maxDepth: int, keys: seq<string>, i: nat, path: seq<string>)
    requires doc.Object? && key !in doc.members && SortedListOf(keys, doc.members.Keys) && i < |keys| && keys[i] in doc.members
    requires forall j | 0 <= j < i :: keys[j] in doc.members && Missing(doc.members[keys[j]], key, maxDepth - 1)
    requires FirstHit(doc.members[keys[i]], key, maxDepth - 1, path)
    ensures FirstHit(doc, key, maxDepth, [keys[i]] + path)
    ensures ValueAt(doc, key, [keys[i]] + path) == ValueAt(doc.members[keys[i]], key, path)
  {
    hide Before, SortedListOf, Precedes;
    var found := [keys[i]] + path;
    assert found[1..] == path;
    forall q | Reaches(doc, key, q) && |q| < maxDepth ensures q == found || Precedes(found, q) {
      HitComesNoEarlier(doc, key, maxDepth, keys, i, path, q);
    }
  }

  lemma {:induction false} NoMemberReaches(doc: Json, key: string, maxDepth: int, keys: seq<string>)
    requires doc.Object? && key !in doc.members && SortedListOf(keys, doc.members.Keys)
    requires forall j | 0 <= j < |keys| :: keys[j] in doc.members && Missing(doc.members[keys[j]], key, maxDepth - 1)
    ensures Missing(doc, key, maxDepth)
  {
  }

  lemma {:induction false} PrecedesIsTotal(p: seq<string>, q: seq<string>)
    ensures p == q || Precedes(p, q) || Precedes(q, p)
    ensures !(Precedes(p, q) && Precedes(q, p))
  {
    if p != [] && q != [] {
      BeforeIsTotal(p[0], q[0]);
      if p[0] == q[0] {
        PrecedesIsTotal(p[1..], q[1..]);
        assert p == [p[0]] + p[1..] && q == [q[0]] + q[1..];
      }
    }
  }

  /** A document that consists of nested objects with one member each, around another document. */
  function Nest(path: seq<string>, doc: Json): Json {
    if path == [] then doc else Object(map[path[0] := Nest(path[1..], doc)])
  }

  /** What is nested along a path is found along it. */
  lemma {:induction false} NestedIsReached(path: seq<string>, members: map<string, Json>, key: string)
    ensures Reaches(Nest(path, Object(members)), key, path) <==> key in members
    ensures key in members ==> ValueAt(Nest(path, Object(members)), key, path) == members[key]
  {
    if path != [] {
      NestedIsReached(path[1..], members, key);
    }
  }

  /** There is one first path, so the result of the search is determined. */
  lemma {:induction false} FirstHitIsUnique(doc: Json, key: string, maxDepth: int, p: seq<string>, q: seq<string>)
    requires FirstHit(doc, key, maxDepth, p) && FirstHit(doc, key, maxDepth, q)
    ensures p == q
  {
    PrecedesIsTotal(p, q);
  }
}
