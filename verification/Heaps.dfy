/** A binary heap kept in an array by sifting one element down. */
module Heaps {

  /** `less` is asymmetric and negatively transitive on the elements of `s`. */
  ghost predicate OrderOn<A>(less: (A, A) -> bool, s: seq<A>) {
    && (forall x, y :: x in s && y in s && less(x, y) ==> !less(y, x))
    && (forall x, y, z :: x in s && y in s && z in s && less(x, z) ==> less(x, y) || less(y, z))
  }

  function Parent(c: nat): (p: int)
    requires c > 0
    ensures 0 <= p < c && (c == 2 * p + 1 || c == 2 * p + 2)
  {
    (c - 1) / 2
  }

  /** No child of a position at or after `lo` is above its parent. */
  ghost predicate HeapFrom<A>(s: seq<A>, lo: nat, less: (A, A) -> bool) {
    forall c :: 0 < c < |s| && lo <= Parent(c) ==> !less(s[Parent(c)], s[c])
  }

  /** The same, except that only the children of `hole` may be above it; the
      parent of `hole` already bounds them. */
  ghost predicate HeapExceptAt<A>(s: seq<A>, lo: nat, hole: nat, less: (A, A) -> bool)
    requires hole < |s|
  {
    && (forall c :: 0 < c < |s| && lo <= Parent(c) && Parent(c) != hole ==> !less(s[Parent(c)], s[c]))
    && (forall c :: 0 < c < |s| && Parent(c) == hole && hole > 0 && lo <= Parent(hole)
                    ==> !less(s[Parent(hole)], s[c]))
  }

  /** The child that `less` puts on top; past the end when there is none. */
  function MaxChild<A>(s: seq<A>, hole: nat, less: (A, A) -> bool): (m: nat)
    ensures m == 2 * hole + 1 || (m == 2 * hole + 2 && m < |s|)
  {
    var l := 2 * hole + 1;
    if l + 1 < |s| && less(s[l], s[l + 1]) then l + 1 else l
  }

  /** Moves the element at `hole` down until no child is above it. */
  function SiftDown<A>(s: seq<A>, hole: nat, less: (A, A) -> bool): (r: seq<A>)
    requires hole < |s|
    ensures |r| == |s|
    decreases |s| - hole
  {
    var m := MaxChild(s, hole, less);
    if m >= |s| || !less(s[hole], s[m]) then s else SiftDown(s[hole := s[m]][m := s[hole]], m, less)
  }

  lemma {:induction false} SiftDownPermutes<A>(s: seq<A>, hole: nat, less: (A, A) -> bool)
    requires hole < |s|
    ensures multiset(SiftDown(s, hole, less)) == multiset(s)
    decreases |s| - hole
  {
    var m := MaxChild(s, hole, less);
    if m < |s| && less(s[hole], s[m]) {
      SiftDownPermutes(s[hole := s[m]][m := s[hole]], m, less);
    }
  }

  /** Sifting down repairs a heap in which only the hole is out of place. */
  lemma {:induction false} SiftDownRestores<A>(s: seq<A>, lo: nat, hole: nat, less: (A, A) -> bool)
    requires lo <= hole < |s| && OrderOn(less, s) && HeapExceptAt(s, lo, hole, less)
    ensures HeapFrom(SiftDown(s, hole, less), lo, less)
    decreases |s| - hole
  {
    var m := MaxChild(s, hole, less);
    if m < |s| && less(s[hole], s[m]) {
      var t := s[hole := s[m]][m := s[hole]];
      assert forall x :: x in t ==> x in s;
      SwapKeepsHeap(s, lo, hole, less);
      SiftDownRestores(t, lo, m, less);
    } else {
      forall c | 0 < c < |s| && Parent(c) == hole ensures !less(s[hole], s[c]) {
        assert m == c || !less(s[m], s[c]);
      }
    }
  }

  lemma SwapKeepsHeap<A>(s: seq<A>, lo: nat, hole: nat, less: (A, A) -> bool)
    requires lo <= hole < |s| && OrderOn(less, s) && HeapExceptAt(s, lo, hole, less)
    requires MaxChild(s, hole, less) < |s| && less(s[hole], s[MaxChild(s, hole, less)])
    ensures var m := MaxChild(s, hole, less);
      HeapExceptAt(s[hole := s[m]][m := s[hole]], lo, m, less)
  {
    var m := MaxChild(s, hole, less);
    var t := s[hole := s[m]][m := s[hole]];
    forall c | 0 < c < |t| && lo <= Parent(c) && Parent(c) != m ensures !less(t[Parent(c)], t[c]) {
      if Parent(c) == hole && c != m {
        assert !less(s[m], s[c]);
      }
    }
    forall c | 0 < c < |t| && Parent(c) == m ensures !less(t[Parent(m)], t[c]) {
      assert !less(s[Parent(c)], s[c]);
    }
  }

  /** The top of a heap is below no element. */
  lemma {:induction false} TopIsAboveAll<A>(s: seq<A>, k: nat, less: (A, A) -> bool)
    requires k < |s| && OrderOn(less, s) && HeapFrom(s, 0, less)
    ensures !less(s[0], s[k])
    decreases k
  {
    if k > 0 {
      TopIsAboveAll(s, Parent(k), less);
    }
  }

  /** Moving a child up into the hole is a swap, once the value is put back. */
  lemma MoveUp<A>(s: seq<A>, hole: nat, child: nat, value: A)
    requires hole < child < |s|
    ensures var view := s[hole := value];
      s[hole := s[child]][child := value] == view[hole := view[child]][child := view[hole]]
  {
  }

  /** Sifts the element at `hole` down within the first `size` elements: the value
      is lifted out, larger children move up, and it drops into the last hole. */
  method PushDownHeap<A>(a: array<A>, size: nat, start: nat, less: (A, A) -> bool)
    requires start < size <= a.Length
    modifies a
    ensures a[..size] == SiftDown(old(a[..size]), start, less)
    ensures a[size..] == old(a[size..])
  {
    var hole := start;
    var value := a[hole];
    ghost var goal := SiftDown(a[..size], start, less);
    assert a[..size][hole := value] == a[..size];
    while true
      invariant start <= hole < size
      invariant SiftDown(a[..size][hole := value], hole, less) == goal
      invariant a[size..] == old(a[size..])
      decreases size - hole
    {
      ghost var view := a[..size][hole := value];
      var lChild := 2 * hole + 1;
      var rChild := lChild + 1;
      var maxChild := lChild;
      if rChild < size && less(a[lChild], a[rChild]) {
        maxChild := rChild;
      }
      assert maxChild == MaxChild(view, hole, less);
      if maxChild >= size { break; }
      if !less(value, a[maxChild]) { break; }
      ghost var before := a[..size];
      a[hole] := a[maxChild];
      assert a[..size] == before[hole := before[maxChild]];
      MoveUp(before, hole, maxChild, value);
      hole := maxChild;
    }
    ghost var view := a[..size][hole := value];
    a[hole] := value;
    assert a[..size] == view;
  }

  /** Pushes the root of the first `size` elements down. */
  method PushRootHeap<A>(a: array<A>, size: nat, less: (A, A) -> bool)
    requires 0 < size <= a.Length
    requires OrderOn(less, a[..size]) && HeapFrom(a[..size], 1, less)
    modifies a
    ensures HeapFrom(a[..size], 0, less)
    ensures multiset(a[..size]) == old(multiset(a[..size]))
    ensures a[size..] == old(a[size..])
  {
    SiftDownPermutes(a[..size], 0, less);
    SiftDownRestores(a[..size], 0, 0, less);
    PushDownHeap(a, size, 0, less);
  }

  /** Orders an array as a heap, from the last parent up to the root. */
  method MakeHeap<A>(a: array<A>, less: (A, A) -> bool)
    requires OrderOn(less, a[..])
    modifies a
    ensures HeapFrom(a[..], 0, less)
    ensures multiset(a[..]) == old(multiset(a[..]))
  {
    var i := a.Length / 2;
    while i > 0
      invariant 0 <= i <= a.Length
      invariant multiset(a[..]) == old(multiset(a[..]))
      invariant HeapFrom(a[..], i, less)
    {
      i := i - 1;
      assert a[..a.Length] == a[..];
      assert forall x :: x in a[..] <==> x in multiset(a[..]);
      assert forall x :: x in old(a[..]) <==> x in old(multiset(a[..]));
      SiftDownPermutes(a[..], i, less);
      SiftDownRestores(a[..], i, i, less);
      PushDownHeap(a, a.Length, i, less);
      assert a[..a.Length] == a[..];
    }
  }
}
