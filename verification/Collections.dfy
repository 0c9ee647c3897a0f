/** Small facts about sequences, sets and sums shared by the other modules. */
module Collections {

  datatype Option<+T> = None | Some(value: T)

  function Min(a: nat, b: nat): nat { if a <= b then a else b }

  function Max(a: nat, b: nat): nat { if a <= b then b else a }

  lemma ConcatAssociates<T>(a: seq<T>, b: seq<T>, c: seq<T>)
    ensures (a + b) + c == a + (b + c)
  {
  }

  lemma NextPrefix<T>(before: seq<T>, s: seq<T>, i: nat)
    requires i < |s|
    ensures before + s[..i] + [s[i]] == before + s[..i + 1]
  {
  }

  /** Cutting a sequence at three positions. */
  lemma Slices<T>(s: seq<T>, a: nat, b: nat, e: nat)
    requires a <= b <= e <= |s|
    ensures s[a..] == s[a..b] + (s[b..e] + s[e..])
    ensures s[..a] + s[a..b] == s[..b]
    ensures s[..a] + s[a..] == s
  {
  }

  lemma MiddleOut<T>(front: seq<T>, x: T, back: seq<T>)
    ensures multiset(front + ([x] + back)) == multiset(front + back) + multiset{x}
  {
  }

  /** The concatenation of all parts. */
  function Flatten<T>(parts: seq<seq<T>>): seq<T> {
    if parts == [] then [] else parts[0] + Flatten(parts[1..])
  }

  lemma {:induction false} FlattenExtend<T>(parts: seq<seq<T>>, i: nat, x: T)
    requires i < |parts|
    ensures multiset(Flatten(parts[i := parts[i] + [x]])) == multiset(Flatten(parts)) + multiset{x}
  {
    var longer := parts[i := parts[i] + [x]];
    if i == 0 {
      assert longer[1..] == parts[1..];
      ConcatAssociates(parts[0], [x], Flatten(parts[1..]));
      MiddleOut(parts[0], x, Flatten(parts[1..]));
    } else {
      FlattenExtend(parts[1..], i - 1, x);
      assert longer[1..] == parts[1..][i - 1 := parts[i] + [x]];
    }
  }

  lemma {:induction false} FlattenConcat<T>(a: seq<seq<T>>, b: seq<seq<T>>)
    ensures Flatten(a + b) == Flatten(a) + Flatten(b)
  {
    if a == [] {
      assert a + b == b;
    } else {
      FlattenConcat(a[1..], b);
      assert (a + b)[1..] == a[1..] + b;
      ConcatAssociates(a[0], Flatten(a[1..]), Flatten(b));
    }
  }

  lemma FlattenSplit<T>(parts: seq<seq<T>>, i: nat)
    requires i < |parts|
    ensures Flatten(parts) == Flatten(parts[..i]) + (parts[i] + Flatten(parts[i + 1..]))
  {
    var back := parts[i..];
    assert parts == parts[..i] + back;
    FlattenConcat(parts[..i], back);
    assert back[0] == parts[i] && back[1..] == parts[i + 1..];
  }

  /** The sum of `f` over the elements of `s`. */
  function SumBy<T>(s: seq<T>, f: T -> int): int {
    if s == [] then 0 else f(s[0]) + SumBy(s[1..], f)
  }

  lemma {:induction false} SumByConcat<T>(s: seq<T>, t: seq<T>, f: T -> int)
    ensures SumBy(s + t, f) == SumBy(s, f) + SumBy(t, f)
  {
    if s == [] {
      assert s + t == t;
    } else {
      assert (s + t)[1..] == s[1..] + t;
      SumByConcat(s[1..], t, f);
    }
  }

  lemma SumByAppend<T>(s: seq<T>, x: T, f: T -> int)
    ensures SumBy(s + [x], f) == SumBy(s, f) + f(x)
  {
    SumByConcat(s, [x], f);
  }

  /** The first element of one arrangement can be taken out of the other. */
  lemma TakeOut<T>(s: seq<T>, t: seq<T>) returns (front: seq<T>, back: seq<T>)
    requires multiset(s) == multiset(t) && s != []
    ensures s == [s[0]] + s[1..] && t == front + ([s[0]] + back)
    ensures multiset(s[1..]) == multiset(front + back)
  {
    assert s[0] in multiset(t);
    var i :| 0 <= i < |t| && t[i] == s[0];
    front, back := t[..i], t[i + 1..];
    assert t == front + ([t[i]] + back);
    assert s == [] + ([s[0]] + s[1..]) && [] + s[1..] == s[1..];
    MiddleOut([], s[0], s[1..]);
    MiddleOut(front, s[0], back);
    SameWithout(multiset(s[1..]), multiset(front + back), s[0]);
  }

  lemma SameWithout<T>(a: multiset<T>, b: multiset<T>, x: T)
    requires a + multiset{x} == b + multiset{x}
    ensures a == b
  {
    assert a + multiset{x} - multiset{x} == a && b + multiset{x} - multiset{x} == b;
  }

  lemma SumByMiddle<T>(front: seq<T>, x: T, back: seq<T>, f: T -> int)
    ensures SumBy(front + ([x] + back), f) == f(x) + SumBy(front + back, f)
  {
    SumByConcat(front, [x] + back, f);
    SumByConcat([x], back, f);
    SumByConcat(front, back, f);
  }

  /** A sum depends only on the multiset of its terms. */
  lemma {:induction false} SumByPermutation<T>(s: seq<T>, t: seq<T>, f: T -> int)
    requires multiset(s) == multiset(t)
    ensures SumBy(s, f) == SumBy(t, f)
    decreases |s|
  {
    if s == [] {
      assert |multiset(t)| == 0;
    } else {
      var front, back := TakeOut(s, t);
      SumByPermutation(s[1..], front + back, f);
      SumByMiddle(front, s[0], back, f);
    }
  }

  /** The sum of `f` over a finite set. */
  ghost function SumOver<K>(keys: set<K>, f: K -> int): int {
    if keys == {} then 0 else
      var k :| k in keys;
      f(k) + SumOver(keys - {k}, f)
  }

  /** Any element can be taken out of the sum first. */
  lemma {:induction false} SumOverPick<K>(keys: set<K>, k: K, f: K -> int)
    requires k in keys
    ensures SumOver(keys, f) == f(k) + SumOver(keys - {k}, f)
    decreases keys
  {
    var first :| first in keys && SumOver(keys, f) == f(first) + SumOver(keys - {first}, f);
    if first != k {
      SumOverPick(keys - {first}, k, f);
      SumOverPick(keys - {k}, first, f);
      assert keys - {first} - {k} == keys - {k} - {first};
    }
  }

  lemma {:induction false} SumOverEqual<K>(keys: set<K>, f: K -> int, g: K -> int)
    requires forall k :: k in keys ==> f(k) == g(k)
    ensures SumOver(keys, f) == SumOver(keys, g)
    decreases keys
  {
    if keys != {} {
      var k :| k in keys;
      SumOverPick(keys, k, f);
      SumOverPick(keys, k, g);
      SumOverEqual(keys - {k}, f, g);
    }
  }

  /** The multiset union of `f` over a finite set. */
  ghost function UnionOver<K, T>(keys: set<K>, f: K -> multiset<T>): multiset<T> {
    if keys == {} then multiset{} else
      var k :| k in keys;
      f(k) + UnionOver(keys - {k}, f)
  }

  lemma {:induction false} UnionOverPick<K, T>(keys: set<K>, k: K, f: K -> multiset<T>)
    requires k in keys
    ensures UnionOver(keys, f) == f(k) + UnionOver(keys - {k}, f)
    decreases keys
  {
    var first :| first in keys && UnionOver(keys, f) == f(first) + UnionOver(keys - {first}, f);
    if first != k {
      UnionOverPick(keys - {first}, k, f);
      UnionOverPick(keys - {k}, first, f);
      assert keys - {first} - {k} == keys - {k} - {first};
    }
  }

  lemma {:induction false} UnionOverEqual<K, T>(keys: set<K>, f: K -> multiset<T>, g: K -> multiset<T>)
    requires forall k :: k in keys ==> f(k) == g(k)
    ensures UnionOver(keys, f) == UnionOver(keys, g)
    decreases keys
  {
    if keys != {} {
      var k :| k in keys;
      UnionOverPick(keys, k, f);
      UnionOverPick(keys, k, g);
      UnionOverEqual(keys - {k}, f, g);
    }
  }

  function MapBy<A, B>(s: seq<A>, f: A -> B): (r: seq<B>)
    ensures |r| == |s| && forall k :: 0 <= k < |r| ==> r[k] == f(s[k])
  {
    if s == [] then [] else [f(s[0])] + MapBy(s[1..], f)
  }

  lemma MapConcat<A, B>(s: seq<A>, t: seq<A>, f: A -> B)
    ensures MapBy(s + t, f) == MapBy(s, f) + MapBy(t, f)
  {
  }

  lemma MapInsert<A, B>(front: seq<A>, x: A, back: seq<A>, f: A -> B)
    ensures multiset(MapBy(front + ([x] + back), f)) == multiset(MapBy(front + back, f)) + multiset{f(x)}
  {
    MapConcat(front, back, f);
    MapConcat(front, [x] + back, f);
    MapConcat([x], back, f);
    assert MapBy([x], f) == [f(x)];
  }

  /** Mapping respects rearrangement. */
  lemma {:induction false} MapPermutation<A, B>(s: seq<A>, t: seq<A>, f: A -> B)
    requires multiset(s) == multiset(t)
    ensures multiset(MapBy(s, f)) == multiset(MapBy(t, f))
    decreases |s|
  {
    if s == [] {
      assert |multiset(t)| == 0;
    } else {
      var front, back := TakeOut(s, t);
      MapPermutation(s[1..], front + back, f);
      MapInsert(front, s[0], back, f);
      MapInsert([], s[0], s[1..], f);
      assert [] + ([s[0]] + s[1..]) == s && [] + s[1..] == s[1..];
    }
  }
}
