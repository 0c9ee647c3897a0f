/** Merging any number of sorted sequences with one heap of cursors. */
module NwayMerge {
  import opened Collections
  import opened Heaps

  /** A comparator as the standard algorithms demand it: asymmetric, and with
      incomparable elements forming classes. */
  ghost predicate StrictWeakOrder<T(!new)>(cmp: (T, T) -> bool) {
    && (forall x, y :: cmp(x, y) ==> !cmp(y, x))
    && (forall x, y, z :: cmp(x, z) ==> cmp(x, y) || cmp(y, z))
  }

  ghost predicate Sorted<T>(s: seq<T>, cmp: (T, T) -> bool) {
    forall i, j :: 0 <= i < j < |s| ==> !cmp(s[j], s[i])
  }

  /** The elements of `out` that come from source `i`, in order. */
  function Pick<T>(out: seq<T>, origin: seq<nat>, i: nat): seq<T>
    requires |origin| == |out|
  {
    if out == [] then []
    else
      var n := |out| - 1;
      Pick(out[..n], origin[..n], i) + if origin[n] == i then [out[n]] else []
  }

  ghost predicate InterleavedBy<T>(out: seq<T>, origin: seq<nat>, sources: seq<seq<T>>) {
    && |origin| == |out|
    && (forall k :: 0 <= k < |origin| ==> origin[k] < |sources|)
    && (forall i :: 0 <= i < |sources| ==> Pick(out, origin, i) == sources[i])
  }

  /** `out` holds every element of every source, each source's own order kept. */
  ghost predicate IsInterleaving<T>(out: seq<T>, sources: seq<seq<T>>) {
    exists origin :: InterleavedBy(out, origin, sources)
  }

  lemma {:induction false} FlattenEmpties<T>(sources: seq<seq<T>>)
    requires forall i :: 0 <= i < |sources| ==> sources[i] == []
    ensures Flatten(sources) == []
  {
    if sources != [] {
      FlattenEmpties(sources[1..]);
    }
  }

  /** The sources of an interleaving without its last element. */
  function WithoutLast<T>(out: seq<T>, origin: seq<nat>, sources: seq<seq<T>>): seq<seq<T>>
    requires out != [] && |origin| == |out| && origin[|out| - 1] < |sources|
  {
    var n := |out| - 1;
    sources[origin[n] := Pick(out[..n], origin[..n], origin[n])]
  }

  lemma DropLast<T>(out: seq<T>, origin: seq<nat>, sources: seq<seq<T>>)
    requires out != [] && InterleavedBy(out, origin, sources)
    ensures var n, shorter := |out| - 1, WithoutLast(out, origin, sources);
      && InterleavedBy(out[..n], origin[..n], shorter)
      && sources == shorter[origin[n] := shorter[origin[n]] + [out[n]]]
  {
    var n := |out| - 1;
    forall i | 0 <= i < |sources|
      ensures Pick(out[..n], origin[..n], i) == WithoutLast(out, origin, sources)[i]
    {
      assert Pick(out, origin, i) == sources[i];
    }
  }

  lemma {:induction false} PickedAll<T>(out: seq<T>, origin: seq<nat>, sources: seq<seq<T>>)
    requires InterleavedBy(out, origin, sources)
    ensures multiset(out) == multiset(Flatten(sources))
    decreases |out|
  {
    if out == [] {
      FlattenEmpties(sources);
    } else {
      var n, shorter := |out| - 1, WithoutLast(out, origin, sources);
      DropLast(out, origin, sources);
      calc {
        multiset(out);
      ==  { assert out == out[..n] + [out[n]]; }
        multiset(out[..n]) + multiset{out[n]};
      ==  { PickedAll(out[..n], origin[..n], shorter); }
        multiset(Flatten(shorter)) + multiset{out[n]};
      ==  { FlattenExtend(shorter, origin[n], out[n]); }
        multiset(Flatten(sources));
      }
    }
  }

  /** An interleaving has the elements of the sources, no more and no fewer. */
  lemma InterleavingPermutes<T>(out: seq<T>, sources: seq<seq<T>>)
    requires IsInterleaving(out, sources)
    ensures multiset(out) == multiset(Flatten(sources))
  {
    var origin :| InterleavedBy(out, origin, sources);
    PickedAll(out, origin, sources);
  }

  /** The cursor into one source: the pair of iterators of the original. */
  datatype Range = Range(source: nat, first: nat, last: nat)

  predicate Live<T>(r: Range, sources: seq<seq<T>>) {
    r.source < |sources| && r.first < |sources[r.source]|
  }

  /** The inverted comparator, which makes the heap deliver the least element.
      Only cursors that still point at an element are ever compared. */
  function HeapCmp<T>(sources: seq<seq<T>>, cmp: (T, T) -> bool): (Range, Range) -> bool {
    (a: Range, b: Range) =>
      Live(a, sources) && Live(b, sources) && cmp(sources[b.source][b.first], sources[a.source][a.first])
  }

  /** The state of a merge: `pos[i]` elements of source `i` have been taken. */
  ghost predicate Merging<T>(sources: seq<seq<T>>, cmp: (T, T) -> bool, out: seq<T>, origin: seq<nat>, pos: seq<nat>) {
    && |pos| == |sources|
    && |origin| == |out|
    && (forall k :: 0 <= k < |origin| ==> origin[k] < |sources|)
    && (forall i :: 0 <= i < |sources| ==> pos[i] <= |sources[i]| && Pick(out, origin, i) == sources[i][..pos[i]])
    && Sorted(out, cmp)
    && (forall x, i :: x in out && 0 <= i < |sources| && pos[i] < |sources[i]| ==> !cmp(sources[i][pos[i]], x))
  }

  /** The cursors of all sources that still have elements. */
  ghost function LiveRanges<T>(sources: seq<seq<T>>, pos: seq<nat>): set<Range>
    requires |pos| == |sources|
  {
    LiveBelow(sources, pos, |sources|)
  }

  ghost function LiveBelow<T>(sources: seq<seq<T>>, pos: seq<nat>, n: nat): set<Range>
    requires n <= |sources| && |pos| == |sources|
  {
    set i | 0 <= i < n && pos[i] < |sources[i]| :: Range(i, pos[i], |sources[i]|)
  }

  ghost predicate Least<T>(sources: seq<seq<T>>, cmp: (T, T) -> bool, pos: seq<nat>, i: nat)
    requires |pos| == |sources|
  {
    && i < |sources| && pos[i] < |sources[i]|
    && (forall j :: 0 <= j < |sources| && pos[j] < |sources[j]| ==> !cmp(sources[j][pos[j]], sources[i][pos[i]]))
  }

  /** Taking the least head keeps the merge going. */
  lemma Take<T(!new)>(sources: seq<seq<T>>, cmp: (T, T) -> bool, out: seq<T>, origin: seq<nat>, pos: seq<nat>, i: nat)
    requires StrictWeakOrder(cmp) && forall s :: s in sources ==> Sorted(s, cmp)
    requires Merging(sources, cmp, out, origin, pos) && Least(sources, cmp, pos, i)
    ensures Merging(sources, cmp, out + [sources[i][pos[i]]], origin + [i], pos[i := pos[i] + 1])
    ensures Remaining(sources, pos[i := pos[i] + 1]) == Remaining(sources, pos) - 1
  {
    var x := sources[i][pos[i]];
    var out', origin', pos' := out + [x], origin + [i], pos[i := pos[i] + 1];
    assert out'[..|out|] == out && origin'[..|out|] == origin;
    forall j | 0 <= j < |sources| ensures Pick(out', origin', j) == sources[j][..pos'[j]] {
      assert Pick(out, origin, j) == sources[j][..pos[j]];
    }
    forall k | 0 <= k < |out| ensures !cmp(x, out[k]) {
      assert out[k] in out;
    }
    assert Sorted(out', cmp);
    forall y, j | y in out' && 0 <= j < |sources| && pos'[j] < |sources[j]|
      ensures !cmp(sources[j][pos'[j]], y)
    {
      if j == i {
        assert sources[i] in sources;
        assert !cmp(sources[i][pos[i] + 1], x);
        assert y in out ==> !cmp(x, y);
      }
    }
    RemainingStep(sources, pos, i);
  }

  function Remaining<T>(sources: seq<seq<T>>, pos: seq<nat>): int
    requires |pos| == |sources|
  {
    if sources == [] then 0 else |sources[0]| - pos[0] + Remaining(sources[1..], pos[1..])
  }

  lemma {:induction false} RemainingStep<T>(sources: seq<seq<T>>, pos: seq<nat>, i: nat)
    requires |pos| == |sources| && i < |sources|
    ensures Remaining(sources, pos[i := pos[i] + 1]) == Remaining(sources, pos) - 1
  {
    if i > 0 {
      RemainingStep(sources[1..], pos[1..], i - 1);
      assert pos[i := pos[i] + 1][1..] == pos[1..][i - 1 := pos[i] + 1];
    } else {
      assert pos[i := pos[i] + 1][1..] == pos[1..];
    }
  }

  lemma {:induction false} RemainingIsNatural<T>(sources: seq<seq<T>>, pos: seq<nat>)
    requires |pos| == |sources| && forall i :: 0 <= i < |sources| ==> pos[i] <= |sources[i]|
    ensures Remaining(sources, pos) >= 0
  {
    if sources != [] {
      RemainingIsNatural(sources[1..], pos[1..]);
    }
  }

  lemma AdvanceRange<T>(sources: seq<seq<T>>, pos: seq<nat>, i: nat)
    requires |pos| == |sources| && i < |sources| && pos[i] < |sources[i]|
    ensures var top := Range(i, pos[i], |sources[i]|);
      var rest := LiveRanges(sources, pos) - {top};
      && top in LiveRanges(sources, pos)
      && (forall r :: r in rest ==> r.source != i)
      && LiveRanges(sources, pos[i := pos[i] + 1])
         == rest + if pos[i] + 1 < |sources[i]| then {Range(i, pos[i] + 1, |sources[i]|)} else {}
  {
    var top := Range(i, pos[i], |sources[i]|);
    var before, after := LiveRanges(sources, pos), LiveRanges(sources, pos[i := pos[i] + 1]);
    var rest := before - {top};
    var next := if pos[i] + 1 < |sources[i]| then {Range(i, pos[i] + 1, |sources[i]|)} else {};
    forall r ensures r in after <==> r in rest + next {
    }
  }

  /** The cursor points at the next element of its source. */
  ghost predicate At<T>(r: Range, sources: seq<seq<T>>, pos: seq<nat>) {
    && |pos| == |sources|
    && r.source < |sources| && r.first == pos[r.source] <= r.last == |sources[r.source]|
  }

  /** Elements of `second` come before equal ones of `first` nowhere in `out[from..]`. */
  ghost predicate FavoursFirst<T>(out: seq<T>, origin: seq<nat>, cmp: (T, T) -> bool, from: nat,
                                  first: nat, second: nat) {
    && |origin| == |out|
    && forall i, j :: from <= i < j < |out| && origin[i] == second && origin[j] == first ==> cmp(out[i], out[j])
  }

  /** What is left of `a` is above all that has been taken from `second`. */
  ghost predicate LeavesGreater<T>(sources: seq<seq<T>>, cmp: (T, T) -> bool, out: seq<T>, origin: seq<nat>, from: nat,
                                   a: Range, second: nat) {
    && |origin| == |out| && a.source < |sources| && a.last <= |sources[a.source]|
    && forall i, k :: from <= i < |out| && origin[i] == second && a.first <= k < a.last ==>
         cmp(out[i], sources[a.source][k])
  }

  lemma FirstTaken<T>(sources: seq<seq<T>>, cmp: (T, T) -> bool, out: seq<T>, origin: seq<nat>, from: nat,
                      a: Range, second: nat)
    requires FavoursFirst(out, origin, cmp, from, a.source, second) && a.source != second
    requires LeavesGreater(sources, cmp, out, origin, from, a, second) && a.first < a.last
    ensures var next := out + [sources[a.source][a.first]];
      && FavoursFirst(next, origin + [a.source], cmp, from, a.source, second)
      && LeavesGreater(sources, cmp, next, origin + [a.source], from, a.(first := a.first + 1), second)
  {
  }

  lemma SecondTaken<T(!new)>(sources: seq<seq<T>>, cmp: (T, T) -> bool, out: seq<T>, origin: seq<nat>, from: nat,
                             a: Range, second: nat, x: T)
    requires FavoursFirst(out, origin, cmp, from, a.source, second) && a.source != second
    requires LeavesGreater(sources, cmp, out, origin, from, a, second) && a.first < a.last
    requires StrictWeakOrder(cmp) && Sorted(sources[a.source], cmp) && cmp(x, sources[a.source][a.first])
    ensures FavoursFirst(out + [x], origin + [second], cmp, from, a.source, second)
    ensures LeavesGreater(sources, cmp, out + [x], origin + [second], from, a, second)
  {
    forall k | a.first <= k < a.last ensures cmp(x, sources[a.source][k]) {
      assert !cmp(sources[a.source][k], sources[a.source][a.first]);
    }
  }

  /** Every element of `out[from..]` comes from one source, from `first` on. */
  ghost predicate IsRestOf<T>(sources: seq<seq<T>>, out: seq<T>, origin: seq<nat>, from: nat, range: Range) {
    && |origin| == |out| && range.source < |sources|
    && forall i :: from <= i < |out| ==>
         && origin[i] == range.source && range.first + i - from < |sources[range.source]|
         && out[i] == sources[range.source][range.first + i - from]
  }

  lemma RestTaken<T>(sources: seq<seq<T>>, cmp: (T, T) -> bool, before: seq<T>, origin0: seq<nat>, from: nat,
                     a: Range, b: Range, out: seq<T>, origin: seq<nat>)
    requires FavoursFirst(before, origin0, cmp, from, a.source, b.source) && a.source != b.source
    requires LeavesGreater(sources, cmp, before, origin0, from, a, b.source) && a.last == |sources[a.source]|
    requires before <= out && origin0 <= origin
    requires IsRestOf(sources, out, origin, |before|, a) || IsRestOf(sources, out, origin, |before|, b)
    ensures FavoursFirst(out, origin, cmp, from, a.source, b.source)
  {
  }

  lemma MergeIsComplete<T>(sources: seq<seq<T>>, cmp: (T, T) -> bool, out: seq<T>, origin: seq<nat>, pos: seq<nat>)
    requires Merging(sources, cmp, out, origin, pos)
    requires forall i :: 0 <= i < |sources| ==> pos[i] == |sources[i]|
    ensures Sorted(out, cmp) && IsInterleaving(out, sources)
  {
    assert InterleavedBy(out, origin, sources);
  }

  /** Taking the head of the only source that is left. */
  lemma TakeOfOne<T(!new)>(sources: seq<seq<T>>, cmp: (T, T) -> bool, out: seq<T>, origin: seq<nat>, pos: seq<nat>,
                           r: Range)
    requires StrictWeakOrder(cmp) && forall s :: s in sources ==> Sorted(s, cmp)
    requires Merging(sources, cmp, out, origin, pos) && At(r, sources, pos) && r.first != r.last
    requires forall i :: 0 <= i < |sources| && i != r.source ==> pos[i] == |sources[i]|
    ensures var pos' := pos[r.source := pos[r.source] + 1];
      && Merging(sources, cmp, out + [sources[r.source][r.first]], origin + [r.source], pos')
      && At(r.(first := r.first + 1), sources, pos')
      && forall i :: 0 <= i < |sources| && i != r.source ==> pos'[i] == |sources[i]|
  {
    Take(sources, cmp, out, origin, pos, r.source);
  }

  /** Copies the rest of the only source that still has elements. */
  method CopyRange<T(!new)>(sources: seq<seq<T>>, cmp: (T, T) -> bool, range: Range, before: seq<T>,
                            ghost origin0: seq<nat>, ghost pos0: seq<nat>)
    returns (out: seq<T>, ghost origin: seq<nat>)
    requires StrictWeakOrder(cmp) && forall s :: s in sources ==> Sorted(s, cmp)
    requires Merging(sources, cmp, before, origin0, pos0) && At(range, sources, pos0)
    requires forall i :: 0 <= i < |sources| && i != range.source ==> pos0[i] == |sources[i]|
    ensures Sorted(out, cmp) && InterleavedBy(out, origin, sources)
    ensures before <= out && origin0 <= origin && IsRestOf(sources, out, origin, |before|, range)
  {
    out, origin := before, origin0;
    var r := range;
    ghost var pos := pos0;
    while r.first != r.last
      invariant before <= out && origin0 <= origin && IsRestOf(sources, out, origin, |before|, range)
      invariant r.first == range.first + |out| - |before|
      invariant r.source == range.source && At(r, sources, pos)
      invariant Merging(sources, cmp, out, origin, pos)
      invariant forall i :: 0 <= i < |sources| && i != r.source ==> pos[i] == |sources[i]|
      decreases r.last - r.first
    {
      TakeOfOne(sources, cmp, out, origin, pos, r);
      out := out + [sources[r.source][r.first]];
      origin, pos := origin + [r.source], pos[r.source := pos[r.source] + 1];
      r := r.(first := r.first + 1);
    }
    MergeIsComplete(sources, cmp, out, origin, pos);
  }

  /** Taking the lesser of the only two heads that are left. */
  lemma TakeOfTwo<T(!new)>(sources: seq<seq<T>>, cmp: (T, T) -> bool, out: seq<T>, origin: seq<nat>, pos: seq<nat>,
                           r: Range, other: Range)
    requires StrictWeakOrder(cmp) && forall s :: s in sources ==> Sorted(s, cmp)
    requires Merging(sources, cmp, out, origin, pos)
    requires At(r, sources, pos) && At(other, sources, pos) && r.source != other.source && r.first != r.last
    requires forall i :: 0 <= i < |sources| && i != r.source && i != other.source ==> pos[i] == |sources[i]|
    requires other.first != other.last ==> !cmp(sources[other.source][other.first], sources[r.source][r.first])
    ensures var pos' := pos[r.source := pos[r.source] + 1];
      && Merging(sources, cmp, out + [sources[r.source][r.first]], origin + [r.source], pos')
      && At(r.(first := r.first + 1), sources, pos') && At(other, sources, pos')
      && forall i :: 0 <= i < |sources| && i != r.source && i != other.source ==> pos'[i] == |sources[i]|
  {
    Take(sources, cmp, out, origin, pos, r.source);
  }

  /** Merges the rests of the only two sources that still have elements. */
  method MergeTwo<T(!new)>(sources: seq<seq<T>>, cmp: (T, T) -> bool, first: Range, second: Range,
                           before: seq<T>, ghost origin0: seq<nat>, ghost pos0: seq<nat>)
    returns (out: seq<T>, ghost origin: seq<nat>)
    requires StrictWeakOrder(cmp) && forall s :: s in sources ==> Sorted(s, cmp)
    requires Merging(sources, cmp, before, origin0, pos0)
    requires At(first, sources, pos0) && At(second, sources, pos0) && first.source != second.source
    requires forall i :: 0 <= i < |sources| && i != first.source && i != second.source ==> pos0[i] == |sources[i]|
    ensures Sorted(out, cmp) && InterleavedBy(out, origin, sources)
    ensures FavoursFirst(out, origin, cmp, |before|, first.source, second.source)
  {
    out, origin := before, origin0;
    var a, b := first, second;
    ghost var pos := pos0;
    while a.first != a.last && b.first != b.last
      invariant a.source == first.source && b.source == second.source
      invariant At(a, sources, pos) && At(b, sources, pos)
      invariant Merging(sources, cmp, out, origin, pos)
      invariant forall i :: 0 <= i < |sources| && i != a.source && i != b.source ==> pos[i] == |sources[i]|
      invariant FavoursFirst(out, origin, cmp, |before|, a.source, b.source)
      invariant LeavesGreater(sources, cmp, out, origin, |before|, a, b.source)
      decreases a.last - a.first + b.last - b.first
    {
      if cmp(sources[b.source][b.first], sources[a.source][a.first]) {
        TakeOfTwo(sources, cmp, out, origin, pos, b, a);
        SecondTaken(sources, cmp, out, origin, |before|, a, b.source, sources[b.source][b.first]);
        out := out + [sources[b.source][b.first]];
        origin, pos := origin + [b.source], pos[b.source := pos[b.source] + 1];
        b := b.(first := b.first + 1);
      } else {
        TakeOfTwo(sources, cmp, out, origin, pos, a, b);
        FirstTaken(sources, cmp, out, origin, |before|, a, b.source);
        out := out + [sources[a.source][a.first]];
        origin, pos := origin + [a.source], pos[a.source := pos[a.source] + 1];
        a := a.(first := a.first + 1);
      }
    }
    ghost var merged, origins := out, origin;
    if a.first != a.last {
      out, origin := CopyRange(sources, cmp, a, out, origin, pos);
    } else {
      out, origin := CopyRange(sources, cmp, b, out, origin, pos);
    }
    RestTaken(sources, cmp, merged, origins, |before|, a, b, out, origin);
  }

  /** The ordered heap of cursors: one for every source that has elements left. */
  ghost predicate HeapOfLive<T>(heap: seq<Range>, sources: seq<seq<T>>, pos: seq<nat>) {
    |pos| == |sources| && multiset(heap) == multiset(LiveRanges(sources, pos))
  }

  lemma TwiceInSequence<A>(s: seq<A>, i: nat, j: nat)
    requires i < j < |s| && s[i] == s[j]
    ensures multiset(s)[s[i]] >= 2
  {
    assert s == s[..j] + [s[j]] + s[j + 1..];
    assert s[i] in s[..j];
  }

  lemma HeapCmpIsOrder<T(!new)>(heap: seq<Range>, sources: seq<seq<T>>, cmp: (T, T) -> bool)
    requires StrictWeakOrder(cmp) && forall r :: r in heap ==> Live(r, sources)
    ensures OrderOn(HeapCmp(sources, cmp), heap)
  {
    var less := HeapCmp(sources, cmp);
    forall x, y, z | x in heap && y in heap && z in heap && less(x, z) ensures less(x, y) || less(y, z) {
      var hx, hy, hz := sources[x.source][x.first], sources[y.source][y.first], sources[z.source][z.first];
      assert cmp(hz, hx) ==> cmp(hz, hy) || cmp(hy, hx);
    }
  }

  lemma HeapMembers<T(!new)>(heap: seq<Range>, sources: seq<seq<T>>, cmp: (T, T) -> bool, pos: seq<nat>)
    requires HeapOfLive(heap, sources, pos) && StrictWeakOrder(cmp)
    ensures OrderOn(HeapCmp(sources, cmp), heap)
    ensures forall r :: r in heap ==> At(r, sources, pos) && Live(r, sources)
    ensures forall i, j :: 0 <= i < j < |heap| ==> heap[i].source != heap[j].source
    ensures forall i :: 0 <= i < |sources| && pos[i] < |sources[i]| ==> Range(i, pos[i], |sources[i]|) in heap
  {
    forall r ensures r in heap <==> r in LiveRanges(sources, pos) {
      assert r in heap <==> r in multiset(heap);
    }
    HeapCmpIsOrder(heap, sources, cmp);
    forall i, j | 0 <= i < j < |heap| ensures heap[i].source != heap[j].source {
      if heap[i].source == heap[j].source {
        assert heap[i] in heap && heap[j] in heap;
        TwiceInSequence(heap, i, j);
      }
    }
  }

  lemma TopIsLeast<T(!new)>(heap: seq<Range>, sources: seq<seq<T>>, cmp: (T, T) -> bool, pos: seq<nat>)
    requires heap != [] && HeapOfLive(heap, sources, pos) && StrictWeakOrder(cmp)
    requires HeapFrom(heap, 0, HeapCmp(sources, cmp))
    ensures At(heap[0], sources, pos) && Least(sources, cmp, pos, heap[0].source)
  {
    HeapMembers(heap, sources, cmp, pos);
    assert heap[0] in heap;
    forall j | 0 <= j < |sources| && pos[j] < |sources[j]|
      ensures !cmp(sources[j][pos[j]], sources[heap[0].source][pos[heap[0].source]])
    {
      var r := Range(j, pos[j], |sources[j]|);
      var k :| 0 <= k < |heap| && heap[k] == r;
      TopIsAboveAll(heap, k, HeapCmp(sources, cmp));
    }
  }

  lemma Popped<T>(heap: seq<Range>, sources: seq<seq<T>>, pos: seq<nat>)
    requires heap != [] && HeapOfLive(heap, sources, pos) && Live(heap[0], sources) && At(heap[0], sources, pos)
    ensures var top := heap[0];
      var next, pos' := top.(first := top.first + 1), pos[top.source := top.first + 1];
      && At(next, sources, pos')
      && (next.first != next.last ==> HeapOfLive(heap[0 := next], sources, pos'))
      && (next.first == next.last ==> HeapOfLive(heap[1..], sources, pos'))
  {
    var top := heap[0];
    AdvanceRange(sources, pos, top.source);
    var next := top.(first := top.first + 1);
    HeadOfSet(heap, LiveRanges(sources, pos), next);
    assert LiveRanges(sources, pos) - {top} + {} == LiveRanges(sources, pos) - {top};
  }

  lemma HeadOfSet<A>(s: seq<A>, all: set<A>, next: A)
    requires s != [] && multiset(s) == multiset(all)
    ensures multiset(s[1..]) == multiset(all - {s[0]})
    ensures next !in all - {s[0]} ==> multiset(s[0 := next]) == multiset(all - {s[0]} + {next})
  {
    var rest := all - {s[0]};
    HeadOut(s, s[0]);
    assert s[0 := s[0]] == s;
    assert s[0] in multiset(s);
    SetPlus(rest, s[0]);
    assert all == rest + {s[0]};
    SameWithout(multiset(s[1..]), multiset(rest), s[0]);
    if next !in rest {
      HeadOut(s, next);
      SetPlus(rest, next);
    }
  }

  lemma HeadOut<A>(s: seq<A>, x: A)
    requires s != []
    ensures multiset(s[0 := x]) == multiset(s[1..]) + multiset{x}
  {
    assert s[0 := x] == [x] + s[1..];
  }

  lemma SetPlus<A>(s: set<A>, x: A)
    requires x !in s
    ensures multiset(s + {x}) == multiset(s) + multiset{x}
  {
  }

  /** Moving the last cursor into the place of the exhausted top. */
  lemma LastToTop<A>(heap: seq<A>, rest: seq<A>)
    requires |heap| > 1 && rest == heap[0 := heap[|heap| - 1]][..|heap| - 1]
    ensures multiset(rest) == multiset(heap[1..])
  {
    var n := |heap| - 1;
    assert rest == [heap[n]] + heap[1..n];
    assert heap[1..] == heap[1..n] + [heap[n]];
  }

  lemma HeapKeepsBelowRoot<A>(s: seq<A>, t: seq<A>, less: (A, A) -> bool)
    requires HeapFrom(s, 1, less) && |t| <= |s| && forall k :: 0 < k < |t| ==> t[k] == s[k]
    ensures HeapFrom(t, 1, less)
  {
  }

  lemma LiveBelowStep<T>(sources: seq<seq<T>>, pos: seq<nat>, i: nat)
    requires i < |sources| && |pos| == |sources|
    ensures var r, below := Range(i, pos[i], |sources[i]|), LiveBelow(sources, pos, i);
      && r !in below
      && LiveBelow(sources, pos, i + 1) == if pos[i] < |sources[i]| then below + {r} else below
  {
    var r, below, next := Range(i, pos[i], |sources[i]|), LiveBelow(sources, pos, i), LiveBelow(sources, pos, i + 1);
    forall x ensures x in next <==> x in below || (x == r && pos[i] < |sources[i]|) {}
  }

  ghost predicate InSourceOrder(ranges: seq<Range>, n: nat) {
    && |ranges| <= n && (forall i :: 0 <= i < |ranges| ==> ranges[i].source < n)
    && forall i, j :: 0 <= i < j < |ranges| ==> ranges[i].source < ranges[j].source
  }

  /** The cursors of the first `i` sources. */
  ghost predicate AreCursors<T>(ranges: seq<Range>, sources: seq<seq<T>>, pos: seq<nat>, i: nat)
    requires i <= |sources| == |pos|
  {
    multiset(ranges) == multiset(LiveBelow(sources, pos, i)) && InSourceOrder(ranges, i)
  }

  lemma NextInOrder(ranges: seq<Range>, n: nat, r: Range)
    requires InSourceOrder(ranges, n) && r.source == n
    ensures InSourceOrder(ranges, n + 1) && InSourceOrder(ranges + [r], n + 1)
  {
  }

  lemma NextCursor<T>(ranges: seq<Range>, sources: seq<seq<T>>, pos: seq<nat>, i: nat)
    requires i < |sources| == |pos| && pos[i] == 0 && AreCursors(ranges, sources, pos, i)
    ensures var r := Range(i, 0, |sources[i]|);
      AreCursors(if sources[i] != [] then ranges + [r] else ranges, sources, pos, i + 1)
  {
    LiveBelowStep(sources, pos, i);
    NextInOrder(ranges, i, Range(i, 0, |sources[i]|));
  }

  /** The cursors of the sources that are not empty. */
  method Cursors<T>(sources: seq<seq<T>>, ghost pos: seq<nat>) returns (ranges: seq<Range>)
    requires |pos| == |sources| && forall i :: 0 <= i < |pos| ==> pos[i] == 0
    ensures HeapOfLive(ranges, sources, pos) && InSourceOrder(ranges, |sources|)
  {
    ranges := [];
    for i := 0 to |sources|
      invariant AreCursors(ranges, sources, pos, i)
    {
      NextCursor(ranges, sources, pos, i);
      if sources[i] != [] {
        ranges := ranges + [Range(i, 0, |sources[i]|)];
      }
    }
  }

  /** Merges sorted sources into one sorted sequence; of two sources the first one's
      elements come before equal ones of the second. */
  method Merge<T(!new)>(sources: seq<seq<T>>, cmp: (T, T) -> bool) returns (out: seq<T>)
    requires StrictWeakOrder(cmp) && forall s :: s in sources ==> Sorted(s, cmp)
    ensures Sorted(out, cmp) && IsInterleaving(out, sources)
    ensures |sources| == 2 ==>
              exists origin :: InterleavedBy(out, origin, sources) && FavoursFirst(out, origin, cmp, 0, 0, 1)
  {
    ghost var origin: seq<nat> := [];
    out := [];
    ghost var pos: seq<nat> := seq(|sources|, i => 0);
    assert Merging(sources, cmp, out, [], pos);
    var ranges := Cursors(sources, pos);
    HeapMembers(ranges, sources, cmp, pos);
    if |ranges| == 0 {
      MergeIsComplete(sources, cmp, out, [], pos);
    } else if |ranges| == 1 {
      assert ranges[0] in ranges;
      out, origin := CopyRange(sources, cmp, ranges[0], out, [], pos);
    } else if |ranges| == 2 {
      assert ranges[0] in ranges && ranges[1] in ranges;
      out, origin := MergeTwo(sources, cmp, ranges[0], ranges[1], out, [], pos);
    } else {
      out := MergeByHeap(sources, cmp, ranges, pos);
    }
  }

  /** The merge of three or more cursors: two sources are left when the heap is done. */
  method MergeByHeap<T(!new)>(sources: seq<seq<T>>, cmp: (T, T) -> bool, ranges: seq<Range>, ghost pos0: seq<nat>)
    returns (out: seq<T>)
    requires StrictWeakOrder(cmp) && forall s :: s in sources ==> Sorted(s, cmp)
    requires |ranges| > 2 && HeapOfLive(ranges, sources, pos0) && Merging(sources, cmp, [], [], pos0)
    ensures Sorted(out, cmp) && IsInterleaving(out, sources)
  {
    out := [];
    ghost var origin: seq<nat>, pos := [], pos0;
    var heap := HeapOfRanges(sources, cmp, ranges, pos);
    var heapSize := heap.Length;
    assert heap[..heapSize] == heap[..];
    while heapSize > 2
      invariant 2 <= heapSize <= heap.Length
      invariant Merging(sources, cmp, out, origin, pos)
      invariant HeapOfLive(heap[..heapSize], sources, pos)
      invariant HeapFrom(heap[..heapSize], 0, HeapCmp(sources, cmp))
      decreases heapSize
    {
      out, origin, pos := PopUntilExhausted(sources, cmp, heap, heapSize, out, origin, pos);
      heapSize := heapSize - 1;
      ReplaceTop(sources, cmp, heap, heapSize, pos);
    }
    HeapMembers(heap[..2], sources, cmp, pos);
    ghost var last := heap[..2];
    assert last[0] in last && last[1] in last;
    out, origin := MergeTwo(sources, cmp, heap[0], heap[1], out, origin, pos);
  }

  method HeapOfRanges<T(!new)>(sources: seq<seq<T>>, cmp: (T, T) -> bool, ranges: seq<Range>, ghost pos: seq<nat>)
    returns (heap: array<Range>)
    requires StrictWeakOrder(cmp) && HeapOfLive(ranges, sources, pos)
    ensures fresh(heap) && heap.Length == |ranges|
    ensures HeapOfLive(heap[..], sources, pos) && HeapFrom(heap[..], 0, HeapCmp(sources, cmp))
  {
    heap := new Range[|ranges|](i requires 0 <= i < |ranges| => ranges[i]);
    assert heap[..] == ranges;
    HeapMembers(ranges, sources, cmp, pos);
    MakeHeap(heap, HeapCmp(sources, cmp));
  }

  /** Puts the cursor behind the heap's end in the place of its exhausted top. */
  method ReplaceTop<T(!new)>(sources: seq<seq<T>>, cmp: (T, T) -> bool, heap: array<Range>, heapSize: nat,
                             ghost pos: seq<nat>)
    requires StrictWeakOrder(cmp) && 0 < heapSize < heap.Length
    requires HeapOfLive(heap[1..heapSize + 1], sources, pos)
    requires HeapFrom(heap[..heapSize + 1], 1, HeapCmp(sources, cmp))
    modifies heap
    ensures HeapOfLive(heap[..heapSize], sources, pos)
    ensures HeapFrom(heap[..heapSize], 0, HeapCmp(sources, cmp))
  {
    ghost var view := heap[..heapSize + 1];
    assert view[1..] == heap[1..heapSize + 1];
    heap[0] := heap[heapSize];
    assert heap[..heapSize] == view[0 := view[heapSize]][..heapSize];
    LastToTop(view, heap[..heapSize]);
    HeapMembers(heap[..heapSize], sources, cmp, pos);
    HeapKeepsBelowRoot(view, heap[..heapSize], HeapCmp(sources, cmp));
    PushRootHeap(heap, heapSize, HeapCmp(sources, cmp));
  }

  /** Taking the element under the top cursor and moving that cursor on. */
  lemma PopStep<T(!new)>(view: seq<Range>, sources: seq<seq<T>>, cmp: (T, T) -> bool, out: seq<T>,
                         origin: seq<nat>, pos: seq<nat>)
    requires StrictWeakOrder(cmp) && forall s :: s in sources ==> Sorted(s, cmp)
    requires view != [] && Merging(sources, cmp, out, origin, pos) && HeapOfLive(view, sources, pos)
    requires HeapFrom(view, 0, HeapCmp(sources, cmp))
    ensures Live(view[0], sources) && At(view[0], sources, pos)
    ensures var top := view[0];
      var next, pos' := top.(first := top.first + 1), pos[top.source := pos[top.source] + 1];
      && Merging(sources, cmp, out + [sources[top.source][top.first]], origin + [top.source], pos')
      && 0 <= Remaining(sources, pos') < Remaining(sources, pos)
      && HeapFrom(view[0 := next], 1, HeapCmp(sources, cmp))
      && (if next.first == next.last then HeapOfLive(view[1..], sources, pos')
          else HeapOfLive(view[0 := next], sources, pos') && OrderOn(HeapCmp(sources, cmp), view[0 := next]))
  {
    HeapMembers(view, sources, cmp, pos);
    assert view[0] in view;
    var top := view[0];
    var next, pos' := top.(first := top.first + 1), pos[top.source := pos[top.source] + 1];
    TopIsLeast(view, sources, cmp, pos);
    Popped(view, sources, pos);
    Take(sources, cmp, out, origin, pos, top.source);
    RemainingIsNatural(sources, pos');
    HeapKeepsBelowRoot(view, view[0 := next], HeapCmp(sources, cmp));
    if next.first != next.last { HeapMembers(view[0 := next], sources, cmp, pos'); }
  }

  /** Takes the element under the top cursor and moves that cursor on in place. */
  method PopTop<T(!new)>(sources: seq<seq<T>>, cmp: (T, T) -> bool, heap: array<Range>, heapSize: nat,
                         before: seq<T>, ghost origin0: seq<nat>, ghost pos0: seq<nat>)
    returns (out: seq<T>, ghost origin: seq<nat>, ghost pos: seq<nat>)
    requires StrictWeakOrder(cmp) && forall s :: s in sources ==> Sorted(s, cmp)
    requires 0 < heapSize <= heap.Length && Merging(sources, cmp, before, origin0, pos0)
    requires HeapOfLive(heap[..heapSize], sources, pos0)
    requires HeapFrom(heap[..heapSize], 0, HeapCmp(sources, cmp))
    modifies heap
    ensures Merging(sources, cmp, out, origin, pos) && 0 <= Remaining(sources, pos) < Remaining(sources, pos0)
    ensures HeapFrom(heap[..heapSize], 1, HeapCmp(sources, cmp))
    ensures if heap[0].first == heap[0].last then HeapOfLive(heap[1..heapSize], sources, pos)
            else HeapOfLive(heap[..heapSize], sources, pos) && OrderOn(HeapCmp(sources, cmp), heap[..heapSize])
  {
    ghost var view := heap[..heapSize];
    PopStep(view, sources, cmp, before, origin0, pos0);
    var top := heap[0];
    out := before + [sources[top.source][top.first]];
    origin, pos := origin0 + [top.source], pos0[top.source := pos0[top.source] + 1];
    heap[0] := top.(first := top.first + 1);
    assert heap[..heapSize] == view[0 := heap[0]] && heap[1..heapSize] == view[1..];
  }

  /** Takes the top until its source is exhausted, repairing the heap in between. */
  method PopUntilExhausted<T(!new)>(sources: seq<seq<T>>, cmp: (T, T) -> bool, heap: array<Range>, heapSize: nat,
                                    before: seq<T>, ghost origin0: seq<nat>, ghost pos0: seq<nat>)
    returns (out: seq<T>, ghost origin: seq<nat>, ghost pos: seq<nat>)
    requires StrictWeakOrder(cmp) && forall s :: s in sources ==> Sorted(s, cmp)
    requires 0 < heapSize <= heap.Length && Merging(sources, cmp, before, origin0, pos0)
    requires HeapOfLive(heap[..heapSize], sources, pos0)
    requires HeapFrom(heap[..heapSize], 0, HeapCmp(sources, cmp))
    modifies heap
    ensures Merging(sources, cmp, out, origin, pos)
    ensures HeapOfLive(heap[1..heapSize], sources, pos)
    ensures HeapFrom(heap[..heapSize], 1, HeapCmp(sources, cmp))
  {
    out, origin, pos := before, origin0, pos0;
    while true
      invariant Merging(sources, cmp, out, origin, pos) && HeapOfLive(heap[..heapSize], sources, pos)
      invariant HeapFrom(heap[..heapSize], 0, HeapCmp(sources, cmp))
      decreases Remaining(sources, pos)
    {
      out, origin, pos := PopTop(sources, cmp, heap, heapSize, out, origin, pos);
      if heap[0].first == heap[0].last { break; }
      PushRootHeap(heap, heapSize, HeapCmp(sources, cmp));
    }
  }
}
