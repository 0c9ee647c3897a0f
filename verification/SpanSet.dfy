/** What merging one span into an ordered set of spans means. */
module SpanSet {
  import opened Timespans

  /** Merges `s` into `spans`, scanning from the first span. */
  function Merge(spans: seq<Timespan>, s: Timespan): (r: seq<Timespan>) {
    if spans == [] then [s]
    else if spans[0].End() < s.begin then [spans[0]] + Merge(spans[1..], s)
    else if s.End() < spans[0].begin then [s] + spans
    else Merge(spans[1..], spans[0].Hull(s))
  }

  /** Two spans that overlap or touch. */
  predicate Meets(a: Timespan, b: Timespan) {
    a.begin <= b.End() && b.begin <= a.End()
  }

  /** The order of the span set: increasing begin, then decreasing duration. */
  predicate Before(a: Timespan, b: Timespan) {
    a.begin < b.begin || (a.begin == b.begin && a.duration > b.duration)
  }

  /** A strict total order in which a span comes before all others that begin later or
      that it includes. */
  lemma BeforeIsOrder(a: Timespan, b: Timespan, c: Timespan)
    ensures Before(a, b) <==> a != b && !Before(b, a)
    ensures Before(a, b) && Before(b, c) ==> Before(a, c)
    ensures a.begin < b.begin ==> Before(a, b)
    ensures a.Includes(b) && a != b ==> Before(a, b)
  {
  }

  /** The position of the first span that does not come before `s`. */
  function LowerBound(spans: seq<Timespan>, s: Timespan): (i: nat)
    ensures i <= |spans|
    ensures forall j :: 0 <= j < i ==> Before(spans[j], s)
    ensures i < |spans| ==> !Before(spans[i], s)
  {
    if spans == [] || !Before(spans[0], s) then 0 else 1 + LowerBound(spans[1..], s)
  }

  /** Insertion into the ordered set: in order, and not at all if it is there already. */
  function Insert(spans: seq<Timespan>, s: Timespan): seq<Timespan> {
    var i := LowerBound(spans, s);
    if i < |spans| && spans[i] == s then spans else spans[..i] + ([s] + spans[i..])
  }

  /** The spans that do not meet `s`. */
  function Unmet(spans: seq<Timespan>, s: Timespan): seq<Timespan> {
    if spans == [] then []
    else if Meets(spans[0], s) then Unmet(spans[1..], s)
    else [spans[0]] + Unmet(spans[1..], s)
  }

  /** `s` joined with all spans that meet it. */
  function JoinMet(spans: seq<Timespan>, s: Timespan): Timespan {
    if spans == [] then s
    else if Meets(spans[0], s) then JoinMet(spans[1..], s).Hull(spans[0])
    else JoinMet(spans[1..], s)
  }

  /** Merges `s` with the spans from `hint` on. The spans before the hint are not
      looked at; the set puts the joined span in its place among all of them. */
  function MergeFrom(spans: seq<Timespan>, s: Timespan, hint: nat): seq<Timespan>
    requires hint <= |spans|
  {
    Insert(spans[..hint] + Unmet(spans[hint..], s), JoinMet(spans[hint..], s))
  }

  /** Every span before `hint` ends strictly before `begin`. */
  predicate EndsBefore(spans: seq<Timespan>, hint: nat, begin: nat)
    requires hint <= |spans|
  {
    forall j :: 0 <= j < hint ==> spans[j].End() < begin
  }

  /** No span before `hint` meets `s`, unless it is `s` itself. */
  predicate SkipsNothing(spans: seq<Timespan>, s: Timespan, hint: nat)
    requires hint <= |spans|
  {
    forall j :: 0 <= j < hint ==> spans[j] == s || !Meets(spans[j], s)
  }

  /** Merges the spans of `added` one by one. */
  function MergeAll(spans: seq<Timespan>, added: seq<Timespan>): seq<Timespan> {
    if added == [] then spans
    else Merge(MergeAll(spans, added[..|added| - 1]), added[|added| - 1])
  }

  lemma {:induction false} MergeCovers(spans: seq<Timespan>, s: Timespan, h: int)
    ensures Covered(Merge(spans, s), h) <==> Covered(spans, h) || s.Touches(h)
    decreases |spans|
  {
    if spans != [] {
      CoveredCons(spans, h);
      if spans[0].End() < s.begin {
        MergeCovers(spans[1..], s, h);
        CoveredConcat([spans[0]], Merge(spans[1..], s), h);
      } else if s.End() < spans[0].begin {
        CoveredConcat([s], spans, h);
      } else {
        MergeCovers(spans[1..], spans[0].Hull(s), h);
      }
    }
  }

  lemma {:induction false} MergeIsCanonical(spans: seq<Timespan>, s: Timespan)
    requires Canonical(spans)
    ensures Canonical(Merge(spans, s))
    ensures forall x :: x in Merge(spans, s) ==> x.begin >= s.begin || (spans != [] && x.begin >= spans[0].begin)
    decreases |spans|
  {
    if spans == [] {
      assert Canonical([s]);
    } else {
      CanonicalTail(spans);
      if spans[0].End() < s.begin {
        MergeIsCanonical(spans[1..], s);
        CanonicalCons(spans[0], Merge(spans[1..], s));
      } else if s.End() < spans[0].begin {
        CanonicalCons(s, spans);
      } else {
        MergeIsCanonical(spans[1..], spans[0].Hull(s));
      }
    }
  }

  lemma InsertMembers(spans: seq<Timespan>, s: Timespan)
    ensures forall x :: x in Insert(spans, s) <==> x in spans || x == s
  {
    var i := LowerBound(spans, s);
    assert spans == spans[..i] + spans[i..];
  }

  /** Inserting a span apart from all others keeps the list canonical. */
  lemma InsertIsCanonical(spans: seq<Timespan>, s: Timespan)
    requires Canonical(spans) && forall x :: x in spans ==> !Meets(x, s)
    ensures Canonical(Insert(spans, s))
  {
    var i, r := LowerBound(spans, s), Insert(spans, s);
    forall k | 0 <= k < |spans| ensures if k < i then spans[k].End() < s.begin else s.End() < spans[k].begin {
      assert spans[k] in spans;
      assert k > i ==> Apart(spans, i, k);
      assert i < |spans| ==> spans[i] in spans;
    }
    forall a, b | 0 <= a < b < |r| ensures Apart(r, a, b) {
      var a', b' := if a < i then a else a - 1, if b < i then b else b - 1;
      assert a != i && b != i ==> Apart(spans, a', b');
    }
  }

  lemma {:induction false} UnmetMembers(spans: seq<Timespan>, s: Timespan)
    ensures forall x :: x in Unmet(spans, s) <==> x in spans && !Meets(x, s)
  {
    if spans != [] {
      assert spans == [spans[0]] + spans[1..];
      UnmetMembers(spans[1..], s);
    }
  }

  lemma {:induction false} UnmetIsCanonical(spans: seq<Timespan>, s: Timespan)
    requires Canonical(spans)
    ensures Canonical(Unmet(spans, s))
  {
    if spans != [] {
      CanonicalTail(spans);
      UnmetIsCanonical(spans[1..], s);
      UnmetMembers(spans[1..], s);
      if !Meets(spans[0], s) { CanonicalCons(spans[0], Unmet(spans[1..], s)); }
    }
  }

  /** Joining covers `s` and what meets it, and nothing else. */
  lemma {:induction false} JoinCovers(spans: seq<Timespan>, s: Timespan, h: int)
    ensures JoinMet(spans, s).Includes(s)
    ensures JoinMet(spans, s).Touches(h) || Covered(Unmet(spans, s), h) <==> s.Touches(h) || Covered(spans, h)
  {
    if spans != [] {
      JoinCovers(spans[1..], s, h);
      CoveredCons(spans, h);
      if !Meets(spans[0], s) {
        CoveredConcat([spans[0]], Unmet(spans[1..], s), h);
      } else {
        var joined := JoinMet(spans[1..], s);
        assert joined.Hull(spans[0]).Touches(h) <==> joined.Touches(h) || spans[0].Touches(h);
      }
    }
  }

  /** A span apart from `s` and from all that `s` is joined with is apart from the join. */
  lemma {:induction false} JoinStaysApart(spans: seq<Timespan>, s: Timespan, x: Timespan)
    requires !Meets(x, s) && forall y :: y in spans ==> !Meets(x, y)
    ensures !Meets(x, JoinMet(spans, s))
  {
    if spans != [] {
      assert spans[0] in spans;
      JoinStaysApart(spans[1..], s, x);
      JoinCovers(spans[1..], s, 0);
    }
  }

  /** The join begins and ends with `s` or with a span it has taken in. */
  lemma {:induction false} JoinEnds(spans: seq<Timespan>, s: Timespan)
    ensures JoinMet(spans, s) == s || exists x :: x in spans && Meets(x, s) && JoinMet(spans, s).Includes(x)
  {
    if spans != [] {
      JoinEnds(spans[1..], s);
      if Meets(spans[0], s) { assert spans[0] in spans; }
    }
  }

  /** Starting at the hint gives the merge from scratch exactly when no skipped span
      meets the new one, other than the new one itself. */
  lemma HintIsSound(spans: seq<Timespan>, s: Timespan, hint: nat)
    requires Canonical(spans) && hint <= |spans|
    ensures MergeFrom(spans, s, hint) == Merge(spans, s) <==> SkipsNothing(spans, s, hint)
  {
    MergeIsCanonical(spans, s);
    if SkipsNothing(spans, s, hint) {
      if s in spans[..hint] {
        SkippedItself(spans, s, hint);
      } else {
        SkippedNone(spans, s, hint);
      }
    } else {
      var j :| 0 <= j < hint && spans[j] != s && Meets(spans[j], s);
      SkippedMet(spans, s, hint, j);
    }
  }

  /** What lies before and from a position of a canonical list is apart. */
  lemma SkippedAreApart(spans: seq<Timespan>, hint: nat)
    requires Canonical(spans) && hint <= |spans|
    ensures Canonical(spans[..hint]) && Canonical(spans[hint..])
    ensures forall x, y :: x in spans[..hint] && y in spans[hint..] ==> x.End() < y.begin
  {
    CanonicalSlice(spans, 0, hint);
    CanonicalSlice(spans, hint, |spans|);
    assert spans[0..hint] == spans[..hint] && spans[hint..|spans|] == spans[hint..];
    forall x, y | x in spans[..hint] && y in spans[hint..] ensures x.End() < y.begin {
      var i :| 0 <= i < hint && spans[i] == x;
      var j :| 0 <= j < |spans| - hint && spans[hint..][j] == y;
      assert Apart(spans, i, hint + j);
    }
  }

  lemma ConcatIsCanonical(a: seq<Timespan>, b: seq<Timespan>)
    requires Canonical(a) && Canonical(b) && forall x, y :: x in a && y in b ==> x.End() < y.begin
    ensures Canonical(a + b)
  {
    forall i, j | 0 <= i < j < |a + b| ensures Apart(a + b, i, j) {
      if j < |a| { assert Apart(a, i, j); }
      else if i >= |a| { assert Apart(b, i - |a|, j - |a|); }
      else { assert (a + b)[i] in a && (a + b)[j] in b; }
    }
  }

  /** The spans that a merge from the hint leaves alone. */
  lemma KeptIsCanonical(spans: seq<Timespan>, s: Timespan, hint: nat)
    requires Canonical(spans) && hint <= |spans|
    ensures Canonical(spans[..hint] + Unmet(spans[hint..], s))
  {
    SkippedAreApart(spans, hint);
    UnmetIsCanonical(spans[hint..], s);
    UnmetMembers(spans[hint..], s);
    ConcatIsCanonical(spans[..hint], Unmet(spans[hint..], s));
  }

  lemma MergeFromCovers(spans: seq<Timespan>, s: Timespan, hint: nat, h: int)
    requires hint <= |spans|
    ensures Covered(MergeFrom(spans, s, hint), h) <==> Covered(spans, h) || s.Touches(h)
  {
    var skipped, rest := spans[..hint], spans[hint..];
    JoinCovers(rest, s, h);
    CoveredConcat(skipped, rest, h);
    CoveredConcat(skipped, Unmet(rest, s), h);
    assert skipped + rest == spans;
    CoveredInsert(skipped + Unmet(rest, s), JoinMet(rest, s), h);
  }

  lemma SkippedNone(spans: seq<Timespan>, s: Timespan, hint: nat)
    requires Canonical(spans) && hint <= |spans| && forall x :: x in spans[..hint] ==> !Meets(x, s)
    ensures MergeFrom(spans, s, hint) == Merge(spans, s)
  {
    var skipped, rest, joined := spans[..hint], spans[hint..], JoinMet(spans[hint..], s);
    var kept := skipped + Unmet(rest, s);
    SkippedAreApart(spans, hint);
    KeptIsCanonical(spans, s, hint);
    UnmetMembers(rest, s);
    forall x | x in kept ensures !Meets(x, joined) {
      if x in skipped { JoinStaysApart(rest, s, x); } else { UnmetStaysApart(rest, s, x); }
    }
    InsertIsCanonical(kept, joined);
    InsertMembers(kept, joined);
    MergeIsCanonical(spans, s);
    forall h ensures Covered(MergeFrom(spans, s, hint), h) <==> Covered(Merge(spans, s), h) {
      MergeFromCovers(spans, s, hint, h);
      MergeCovers(spans, s, h);
    }
    CanonicalIsUnique(MergeFrom(spans, s, hint), Merge(spans, s));
  }

  lemma CoveredInsert(spans: seq<Timespan>, s: Timespan, h: int)
    ensures Covered(Insert(spans, s), h) <==> Covered(spans, h) || s.Touches(h)
  {
    InsertMembers(spans, s);
    assert s in Insert(spans, s);
  }

  lemma {:induction false} UnmetStaysApart(spans: seq<Timespan>, s: Timespan, x: Timespan)
    requires Canonical(spans) && x in spans && !Meets(x, s)
    ensures !Meets(x, JoinMet(spans, s))
  {
    CanonicalTail(spans);
    assert spans == [spans[0]] + spans[1..];
    JoinCovers(spans[1..], s, 0);
    if x == spans[0] {
      JoinStaysApart(spans[1..], s, x);
    } else {
      UnmetStaysApart(spans[1..], s, x);
    }
  }

  /** A span that is skipped and added again is found by the set. */
  lemma SkippedItself(spans: seq<Timespan>, s: Timespan, hint: nat)
    requires Canonical(spans) && hint <= |spans| && s in spans[..hint]
    ensures MergeFrom(spans, s, hint) == Merge(spans, s)
  {
    SkippedAreApart(spans, hint);
    NoneMet(spans[hint..], s);
    assert spans[..hint] + spans[hint..] == spans;
    var at :| 0 <= at < hint && spans[at] == s;
    var i := LowerBound(spans, s);
    assert i <= at;
    assert i < at ==> Apart(spans, i, at);
    assert s.Includes(s);
    MergeAgain(spans, s);
  }

  lemma {:induction false} NoneMet(spans: seq<Timespan>, s: Timespan)
    requires forall x :: x in spans ==> !Meets(x, s)
    ensures Unmet(spans, s) == spans && JoinMet(spans, s) == s
  {
    if spans != [] {
      assert spans[0] in spans;
      NoneMet(spans[1..], s);
    }
  }

  /** A skipped span that meets the new one stays beside it. */
  lemma SkippedMet(spans: seq<Timespan>, s: Timespan, hint: nat, j: nat)
    requires Canonical(spans) && j < hint <= |spans| && spans[j] != s && Meets(spans[j], s)
    ensures !Canonical(MergeFrom(spans, s, hint))
  {
    var rest, joined, merged := spans[hint..], JoinMet(spans[hint..], s), MergeFrom(spans, s, hint);
    SkippedAreApart(spans, hint);
    assert spans[j] in spans[..hint];
    JoinEnds(rest, s);
    JoinCovers(rest, s, 0);
    assert joined != spans[j];
    InsertMembers(spans[..hint] + Unmet(rest, s), joined);
    assert spans[j] in merged && joined in merged;
    if Canonical(merged) { MembersAreApart(merged, spans[j], joined); }
  }

  lemma MembersAreApart(spans: seq<Timespan>, x: Timespan, y: Timespan)
    requires Canonical(spans) && x in spans && y in spans && x != y
    ensures !Meets(x, y)
  {
    var a :| 0 <= a < |spans| && spans[a] == x;
    var b :| 0 <= b < |spans| && spans[b] == y;
    if a < b { assert Apart(spans, a, b); } else { assert Apart(spans, b, a); }
  }

  lemma EndsBeforeSkipsNothing(spans: seq<Timespan>, s: Timespan, hint: nat)
    requires hint <= |spans| && EndsBefore(spans, hint, s.begin)
    ensures SkipsNothing(spans, s, hint)
  {
  }

  /** Every hint that is accepted is sound, but for the end of the set. */
  lemma AcceptedHintsAreSound(spans: seq<Timespan>, s: Timespan, hint: nat)
    requires Canonical(spans) && (hint == 0 || (hint < |spans| && spans[hint].begin <= s.begin))
    ensures EndsBefore(spans, hint, s.begin) && MergeFrom(spans, s, hint) == Merge(spans, s)
  {
    forall j | 0 <= j < hint ensures spans[j].End() < s.begin {
      assert Apart(spans, j, hint);
    }
    HintIsSound(spans, s, hint);
  }

  /** The end of the set can be a right hint: the set puts the new span in its place. */
  lemma EndHintCanServe()
    ensures var spans, s := [Timespan(5, 5)], Timespan(1, 2);
      MergeFrom(spans, s, 1) == [s] + spans && Merge(spans, s) == [s] + spans
  {
    var spans, s := [Timespan(5, 5)], Timespan(1, 2);
    assert spans[..1] + Unmet(spans[1..], s) == spans;
  }

  /** The end of the set can be a wrong hint: the new span stays beside one that includes it. */
  lemma EndHintCanFail()
    ensures var spans, s := [Timespan(0, 10)], Timespan(5, 2);
      Canonical(spans) && Merge(spans, s) == spans && MergeFrom(spans, s, 1) == spans + [s]
  {
    var spans, s := [Timespan(0, 10)], Timespan(5, 2);
    assert spans[..1] + Unmet(spans[1..], s) == spans;
    assert LowerBound(spans, s) == 1 + LowerBound(spans[1..], s);
  }

  lemma {:induction false} MergeAllCovers(spans: seq<Timespan>, added: seq<Timespan>, h: int)
    ensures Covered(MergeAll(spans, added), h) <==> Covered(spans, h) || Covered(added, h)
    decreases |added|
  {
    if added != [] {
      var front, last := added[..|added| - 1], added[|added| - 1];
      MergeAllCovers(spans, front, h);
      MergeCovers(MergeAll(spans, front), last, h);
      assert added == front + [last];
      CoveredConcat(front, [last], h);
    }
  }

  lemma {:induction false} MergeAllIsCanonical(spans: seq<Timespan>, added: seq<Timespan>)
    requires Canonical(spans)
    ensures Canonical(MergeAll(spans, added))
    decreases |added|
  {
    if added != [] {
      MergeAllIsCanonical(spans, added[..|added| - 1]);
      MergeIsCanonical(MergeAll(spans, added[..|added| - 1]), added[|added| - 1]);
    }
  }

  /** Merging a span that is already included changes nothing. */
  lemma MergeAgain(spans: seq<Timespan>, s: Timespan)
    requires Canonical(spans) && exists t :: t in spans && t.Includes(s)
    ensures Merge(spans, s) == spans
  {
    MergeIsCanonical(spans, s);
    forall h ensures Covered(Merge(spans, s), h) <==> Covered(spans, h) {
      MergeCovers(spans, s, h);
      var t :| t in spans && t.Includes(s);
      assert s.Touches(h) ==> t.Touches(h);
    }
    CanonicalIsUnique(Merge(spans, s), spans);
  }
}
