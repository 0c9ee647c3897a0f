/** Time spans, the sets of time points they cover, and canonical span lists. */
module Timespans {
  import opened Collections

  /** A span of time in picoseconds, closed at `begin` and open at `End()`. */
  datatype Timespan = Timespan(begin: nat, duration: nat) {
    function End(): nat { begin + duration }

    predicate Includes(other: Timespan) {
      begin <= other.begin && other.End() <= End()
    }

    /** The smallest span that includes both. */
    function Hull(other: Timespan): (r: Timespan)
      ensures r.Includes(this) && r.Includes(other)
      ensures r.begin in {begin, other.begin} && r.End() in {End(), other.End()}
    {
      FromEndPoints(Min(begin, other.begin), Max(End(), other.End()))
    }

    static function FromEndPoints(begin: nat, end: nat): Timespan
      requires begin <= end
    {
      Timespan(begin, end - begin)
    }

    /** Half points: `h` stands for the instant `h / 2`. The closed span keeps two
        touching spans together, and an empty span still covers one instant. */
    predicate Touches(h: int) { 2 * begin <= h <= 2 * End() }

    /** The unit of time that starts at `p` lies in the span. */
    predicate Contains(p: int) { begin <= p < End() }
  }

  ghost predicate Covered(spans: seq<Timespan>, h: int) {
    exists s :: s in spans && s.Touches(h)
  }

  /** Some span contains the time unit that starts at `p`. */
  ghost predicate ActiveAt(spans: seq<Timespan>, p: int) {
    exists s :: s in spans && s.Contains(p)
  }

  ghost predicate SameCover(a: seq<Timespan>, b: seq<Timespan>) {
    forall h :: Covered(a, h) <==> Covered(b, h)
  }

  /** Sorted, with every end strictly below the next begin. */
  ghost predicate Canonical(spans: seq<Timespan>) {
    forall i, j :: 0 <= i < j < |spans| ==> Apart(spans, i, j)
  }

  ghost predicate Apart(spans: seq<Timespan>, i: int, j: int)
    requires 0 <= i < j < |spans|
  {
    spans[i].End() < spans[j].begin
  }

  lemma CanonicalSlice(spans: seq<Timespan>, a: nat, b: nat)
    requires Canonical(spans) && a <= b <= |spans|
    ensures Canonical(spans[a..b])
  {
    forall i, j | 0 <= i < j < b - a ensures Apart(spans[a..b], i, j) {
      assert Apart(spans, a + i, a + j);
    }
  }

  /** The spans behind a canonical list's head are canonical and above the head. */
  lemma CanonicalTail(spans: seq<Timespan>)
    requires Canonical(spans) && spans != []
    ensures Canonical(spans[1..])
    ensures forall x :: x in spans[1..] ==> spans[0].End() < x.begin
  {
    CanonicalSlice(spans, 1, |spans|);
    assert spans[1..|spans|] == spans[1..];
    forall x | x in spans[1..] ensures spans[0].End() < x.begin {
      var j :| 0 <= j < |spans| - 1 && spans[1..][j] == x;
      assert Apart(spans, 0, j + 1);
    }
  }

  lemma CanonicalCons(head: Timespan, tail: seq<Timespan>)
    requires Canonical(tail)
    requires forall x :: x in tail ==> head.End() < x.begin
    ensures Canonical([head] + tail)
  {
    var spans := [head] + tail;
    forall i, j | 0 <= i < j < |spans| ensures Apart(spans, i, j) {
      assert spans[j] == tail[j - 1];
      assert i > 0 ==> spans[i] == tail[i - 1] && Apart(tail, i - 1, j - 1);
    }
  }

  lemma UnitIsOddHalfPoint(spans: seq<Timespan>, p: int)
    ensures ActiveAt(spans, p) <==> Covered(spans, 2 * p + 1)
  {
    if ActiveAt(spans, p) {
      var s :| s in spans && s.Contains(p);
      assert s.Touches(2 * p + 1);
    }
    if Covered(spans, 2 * p + 1) {
      var s :| s in spans && s.Touches(2 * p + 1);
      assert s.Contains(p);
    }
  }

  lemma CoveredCons(spans: seq<Timespan>, h: int)
    requires spans != []
    ensures Covered(spans, h) <==> spans[0].Touches(h) || Covered(spans[1..], h)
  {
    assert spans == [spans[0]] + spans[1..];
  }

  lemma CoveredConcat(a: seq<Timespan>, b: seq<Timespan>, h: int)
    ensures Covered(a + b, h) <==> Covered(a, h) || Covered(b, h)
  {
  }

  /** A canonical list is determined by the set of points it covers. */
  lemma {:induction false} CanonicalIsUnique(a: seq<Timespan>, b: seq<Timespan>)
    requires Canonical(a) && Canonical(b) && SameCover(a, b)
    ensures a == b
  {
    if a == [] || b == [] {
      if a != [] { assert a[0].Touches(2 * a[0].begin); assert Covered(a, 2 * a[0].begin); }
      if b != [] { assert b[0].Touches(2 * b[0].begin); assert Covered(b, 2 * b[0].begin); }
    } else {
      HeadIsBelow(a, b);
      HeadIsBelow(b, a);
      CanonicalTail(a);
      CanonicalTail(b);
      assert a[0] == b[0];
      forall h ensures Covered(a[1..], h) <==> Covered(b[1..], h) {
        CoveredCons(a, h);
        CoveredCons(b, h);
        TailIsAbove(a, h);
        TailIsAbove(b, h);
      }
      CanonicalIsUnique(a[1..], b[1..]);
    }
  }

  /** The tail of a canonical list covers only points above its head. */
  lemma TailIsAbove(a: seq<Timespan>, h: int)
    requires Canonical(a) && a != []
    ensures Covered(a[1..], h) ==> h > 2 * a[0].End() + 1
  {
    CanonicalTail(a);
  }

  lemma HeadIsBelow(a: seq<Timespan>, b: seq<Timespan>)
    requires Canonical(a) && Canonical(b) && SameCover(a, b) && a != [] && b != []
    ensures a[0].begin <= b[0].begin && a[0].End() <= b[0].End()
  {
    assert b[0].Touches(2 * b[0].begin) && Covered(b, 2 * b[0].begin);
    assert a[0].Touches(2 * a[0].begin) && Covered(a, 2 * a[0].begin);
    CoveredCons(a, 2 * b[0].begin);
    TailIsAbove(a, 2 * b[0].begin);
    if b[0].End() < a[0].End() {
      var h := 2 * b[0].End() + 1;
      CoveredCons(b, 2 * a[0].begin);
      TailIsAbove(b, 2 * a[0].begin);
      assert a[0].Touches(h) && Covered(a, h);
      CoveredCons(b, h);
      TailIsAbove(b, h);
    }
  }

  /** The units of time in one span. */
  ghost function Units(s: Timespan): set<int> {
    set p | s.begin <= p < s.End() && s.Contains(p)
  }

  ghost function UnitsOf(spans: seq<Timespan>): (r: set<int>)
    ensures forall p :: p in r <==> ActiveAt(spans, p)
  {
    if spans == [] then {} else
      assert spans == [spans[0]] + spans[1..];
      assert forall p :: ActiveAt(spans, p) <==> spans[0].Contains(p) || ActiveAt(spans[1..], p);
      Units(spans[0]) + UnitsOf(spans[1..])
  }

  lemma OneMoreUnit(t: Timespan, s: Timespan)
    requires s.begin == t.begin && s.duration == t.duration + 1
    ensures Units(s) == Units(t) + {s.End() - 1} && s.End() - 1 !in Units(t)
  {
    forall p ensures s.Contains(p) <==> t.Contains(p) || p == s.End() - 1 {}
  }

  lemma {:induction false} UnitCount(s: Timespan)
    ensures |Units(s)| == s.duration
    decreases s.duration
  {
    if s.duration > 0 {
      var t := Timespan(s.begin, s.duration - 1);
      UnitCount(t);
      OneMoreUnit(t, s);
    } else {
      assert Units(s) == {};
    }
  }

  function Duration(): Timespan -> int { (s: Timespan) => s.duration }

  /** In a canonical list no unit is counted twice. */
  lemma {:induction false} CanonicalMeasure(spans: seq<Timespan>)
    requires Canonical(spans)
    ensures SumBy(spans, Duration()) == |UnitsOf(spans)|
  {
    if spans != [] {
      CanonicalTail(spans);
      CanonicalMeasure(spans[1..]);
      UnitCount(spans[0]);
      assert Units(spans[0]) !! UnitsOf(spans[1..]);
    }
  }

  lemma SameCoverSameUnits(a: seq<Timespan>, b: seq<Timespan>)
    requires SameCover(a, b)
    ensures UnitsOf(a) == UnitsOf(b)
  {
    forall p ensures p in UnitsOf(a) <==> p in UnitsOf(b) {
      UnitIsOddHalfPoint(a, p);
      UnitIsOddHalfPoint(b, p);
    }
  }
}
