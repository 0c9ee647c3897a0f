/** Combining the trackers of all cores, chip by chip. */
module DutyCycleCombining {
  import opened Collections
  import opened Timespans
  import opened DutyCycle
  import opened DutyCycleHistory

  /** One `CombineCore` call: the chip and the value of the core's tracker. */
  datatype CoreCall = CoreCall(chip: nat, core: Tracking)

  function ChipAfter(chips: map<nat, Tracking>, call: CoreCall): map<nat, Tracking> {
    var before := if call.chip in chips then chips[call.chip] else Empty;
    chips[call.chip := UnionWith(before, call.core)]
  }

  function ChipsOf(calls: seq<CoreCall>): map<nat, Tracking> {
    if calls == [] then map[] else ChipAfter(ChipsOf(calls[..|calls| - 1]), calls[|calls| - 1])
  }

  /** The unions performed on one chip's tracker. */
  function CallsOn(calls: seq<CoreCall>, chip: nat): seq<Call> {
    if calls == [] then []
    else
      var before, last := CallsOn(calls[..|calls| - 1], chip), calls[|calls| - 1];
      if last.chip == chip then before + [Join(last.core)] else before
  }

  /** Per chip: the active units of its tracker. */
  ghost function ActiveUnits(chips: map<nat, Tracking>): nat -> int {
    (chip: nat) => if chip in chips then |UnitsOf(chips[chip].spans)| else 0
  }

  ghost function IdleUnits(chips: map<nat, Tracking>): nat -> int {
    (chip: nat) => if chip in chips then IdleOf(chips[chip]) else 0
  }

  /** Per chip: the units in which at least one of its cores was active. */
  ghost function CoreUnits(calls: seq<CoreCall>): nat -> int {
    (chip: nat) => |UnitsOf(AddedSpans(CallsOn(calls, chip)))|
  }

  /** Per chip: the units between the earliest begin and the latest end of its cores'
      totals in which none of them was active. */
  ghost function CoreGaps(calls: seq<CoreCall>): nat -> int {
    (chip: nat) => |UnitsIn(Run(CallsOn(calls, chip)).total) - UnitsOf(AddedSpans(CallsOn(calls, chip)))|
  }

  /** Every core tracker keeps its invariant. */
  ghost predicate SoundCores(calls: seq<CoreCall>) {
    forall c :: c in calls ==> Consistent(c.core)
  }

  lemma {:induction false} ChipIsARun(calls: seq<CoreCall>, chip: nat)
    ensures chip in ChipsOf(calls) <==> CallsOn(calls, chip) != []
    ensures chip in ChipsOf(calls) ==> ChipsOf(calls)[chip] == Run(CallsOn(calls, chip))
  {
    if calls != [] {
      var before, last := calls[..|calls| - 1], calls[|calls| - 1];
      ChipIsARun(before, chip);
      if last.chip == chip {
        var on := CallsOn(before, chip);
        assert CallsOn(calls, chip)[..|on|] == on;
      }
    }
  }

  lemma {:induction false} CallsOnChip(calls: seq<CoreCall>, chip: nat, call: Call)
    ensures call in CallsOn(calls, chip) <==> call.Join? && CoreCall(chip, call.other) in calls
  {
    if calls != [] {
      var before, last := calls[..|calls| - 1], calls[|calls| - 1];
      assert calls == before + [last];
      CallsOnChip(before, chip, call);
    }
  }

  lemma CallsOnAreSound(calls: seq<CoreCall>, chip: nat)
    requires SoundCores(calls)
    ensures SoundCalls(CallsOn(calls, chip))
  {
    forall c | c in CallsOn(calls, chip) && c.Join? ensures Consistent(c.other) {
      CallsOnChip(calls, chip, c);
    }
  }

  /** The total active time is the sum over chips of the measure of the union of
      the chip's cores. */
  lemma TotalIsSumOfUnions(calls: seq<CoreCall>)
    requires SoundCores(calls)
    ensures SumOver(ChipsOf(calls).Keys, ActiveUnits(ChipsOf(calls)))
         == SumOver(ChipsOf(calls).Keys, CoreUnits(calls))
  {
    var chips := ChipsOf(calls);
    forall chip | chip in chips.Keys ensures ActiveUnits(chips)(chip) == CoreUnits(calls)(chip) {
      ChipIsARun(calls, chip);
      CallsOnAreSound(calls, chip);
      RunCovers(CallsOn(calls, chip));
      SameCoverSameUnits(chips[chip].spans, AddedSpans(CallsOn(calls, chip)));
    }
    SumOverEqual(chips.Keys, ActiveUnits(chips), CoreUnits(calls));
  }

  /** The total idle time is the sum over chips of the gaps that all cores of the chip
      leave between the earliest begin and the latest end of any of their spans. */
  lemma TotalIdleIsSumOfGaps(calls: seq<CoreCall>)
    requires SoundCores(calls)
    ensures SumOver(ChipsOf(calls).Keys, IdleUnits(ChipsOf(calls)))
         == SumOver(ChipsOf(calls).Keys, CoreGaps(calls))
    ensures forall chip: nat :: IsHull(Run(CallsOn(calls, chip)).total, IncludedSpans(CallsOn(calls, chip)))
  {
    var chips := ChipsOf(calls);
    forall chip | chip in chips.Keys ensures IdleUnits(chips)(chip) == CoreGaps(calls)(chip) {
      ChipIsARun(calls, chip);
      CallsOnAreSound(calls, chip);
      RunCovers(CallsOn(calls, chip));
      SameCoverSameUnits(chips[chip].spans, AddedSpans(CallsOn(calls, chip)));
    }
    SumOverEqual(chips.Keys, IdleUnits(chips), CoreGaps(calls));
    forall chip: nat ensures IsHull(Run(CallsOn(calls, chip)).total, IncludedSpans(CallsOn(calls, chip))) {
      TotalIsHull(CallsOn(calls, chip));
    }
  }

  /** Any order of the same calls, repeated or not, leaves the same chips. */
  lemma ChipOrderDoesNotMatter(a: seq<CoreCall>, b: seq<CoreCall>)
    requires SoundCores(a) && forall c :: c in a <==> c in b
    ensures ChipsOf(a) == ChipsOf(b)
  {
    forall chip: nat
      ensures chip in ChipsOf(a) <==> chip in ChipsOf(b)
      ensures chip in ChipsOf(a) ==> ChipsOf(a)[chip] == ChipsOf(b)[chip]
    {
      SameChip(a, b, chip);
    }
  }

  lemma SameChip(a: seq<CoreCall>, b: seq<CoreCall>, chip: nat)
    requires SoundCores(a) && forall c :: c in a <==> c in b
    ensures chip in ChipsOf(a) <==> chip in ChipsOf(b)
    ensures chip in ChipsOf(a) ==> ChipsOf(a)[chip] == ChipsOf(b)[chip]
  {
    var onA, onB := CallsOn(a, chip), CallsOn(b, chip);
    forall call ensures call in onA <==> call in onB {
      CallsOnChip(a, chip, call);
      CallsOnChip(b, chip, call);
    }
    assert onA != [] ==> onA[0] in onB;
    assert onB != [] ==> onB[0] in onA;
    ChipIsARun(a, chip);
    ChipIsARun(b, chip);
    CallsOnAreSound(a, chip);
    OrderDoesNotMatter(onA, onB);
  }

  lemma ChipsAfter(before: map<nat, Tracking>, created: map<nat, Tracking>, after: map<nat, Tracking>, call: CoreCall)
    requires created == before[call.chip := if call.chip in before then before[call.chip] else Empty]
    requires after.Keys == created.Keys
    requires forall c :: c in after && c != call.chip ==> after[c] == created[c]
    requires call.chip in after && after[call.chip] == UnionWith(created[call.chip], call.core)
    ensures after == ChipAfter(before, call)
  {
  }

  class DutyCycleCombiner {
    var chipTrackers: map<nat, DutyCycleTracker>
    var chipActiveTimePs: nat
    var chipIdleTimePs: nat
    ghost var Repr: set<object>

    ghost predicate Valid()
      reads this`chipTrackers, this`Repr, Repr
    {
      && this !in Repr
      && (forall c :: c in chipTrackers ==> chipTrackers[c] in Repr)
      && (forall c :: c in chipTrackers ==> chipTrackers[c].Valid())
      && (forall c, d :: c in chipTrackers && d in chipTrackers && c != d ==> chipTrackers[c] != chipTrackers[d])
    }

    ghost function Chips(): map<nat, Tracking>
      requires Valid()
      reads this`chipTrackers, this`Repr, Repr
    {
      map c | c in chipTrackers :: chipTrackers[c].Value()
    }

    constructor ()
      ensures Valid() && Repr == {} && Chips() == map[] && chipActiveTimePs == chipIdleTimePs == 0
    {
      Repr := {};
      chipTrackers := map[];
      chipActiveTimePs, chipIdleTimePs := 0, 0;
    }

    /** The chip's tracker, created empty when the chip is seen for the first time. */
    method TrackerOf(chipId: nat) returns (tracker: DutyCycleTracker)
      requires Valid()
      modifies this`chipTrackers, this`Repr
      ensures Valid() && fresh(Repr - old(Repr)) && old(Repr) <= Repr
      ensures chipId in chipTrackers && chipTrackers[chipId] == tracker
      ensures Chips() == old(Chips())[chipId := if chipId in old(Chips()) then old(Chips())[chipId] else Empty]
    {
      if chipId in chipTrackers {
        return chipTrackers[chipId];
      }
      tracker := new DutyCycleTracker();
      chipTrackers := chipTrackers[chipId := tracker];
      Repr := Repr + {tracker};
    }

    method CombineCore(core: DutyCycleTracker, chipId: nat)
      requires Valid() && core.Valid()
      modifies this`chipTrackers, this`Repr, Repr
      ensures Valid() && fresh(Repr - old(Repr))
      ensures Chips() == ChipAfter(old(Chips()), CoreCall(chipId, old(core.Value())))
    {
      ghost var before, added := Chips(), core.Value();
      var tracker := TrackerOf(chipId);
      label created:
      ghost var chips := Chips();
      tracker.Union(core);
      assert forall c :: c in chipTrackers && c != chipId ==> unchanged@created(chipTrackers[c]);
      ChipsAfter(before, chips, Chips(), CoreCall(chipId, added));
    }

    /** Counts a chip at once. Only the counters change: what `Valid` and `Chips` say,
        which do not read them, goes on holding. */
    method CombineChip(chip: DutyCycleTracker)
      requires chip.Valid()
      modifies this`chipActiveTimePs, this`chipIdleTimePs
      ensures chipActiveTimePs == old(chipActiveTimePs) + |UnitsOf(chip.activeTimeSpans)|
      ensures chipIdleTimePs == old(chipIdleTimePs) + IdleOf(chip.Value())
    {
      var active := chip.GetActiveTimePs();
      var idle := chip.GetIdleTimePs();
      chipActiveTimePs := chipActiveTimePs + active;
      chipIdleTimePs := chipIdleTimePs + idle;
    }

    method ActiveOf(chip: nat) returns (active: int)
      requires Valid() && chip in chipTrackers
      ensures active == ActiveUnits(Chips())(chip)
    {
      active := chipTrackers[chip].GetActiveTimePs();
      assert Chips()[chip] == chipTrackers[chip].Value();
    }

    method IdleTimeOf(chip: nat) returns (idle: int)
      requires Valid() && chip in chipTrackers
      ensures idle == IdleUnits(Chips())(chip)
    {
      idle := chipTrackers[chip].GetIdleTimePs();
      assert Chips()[chip] == chipTrackers[chip].Value();
    }

    method GetTotalActiveTimePs() returns (total: int)
      requires Valid()
      ensures total == chipActiveTimePs + SumOver(Chips().Keys, ActiveUnits(Chips()))
    {
      ghost var units := ActiveUnits(Chips());
      total := chipActiveTimePs;
      var left := chipTrackers.Keys;
      assert left == Chips().Keys;
      while left != {}
        invariant left <= chipTrackers.Keys
        invariant total + SumOver(left, units) == chipActiveTimePs + SumOver(Chips().Keys, units)
        decreases left
      {
        var chip :| chip in left;
        SumOverPick(left, chip, units);
        var active := ActiveOf(chip);
        total := total + active;
        left := left - {chip};
      }
    }

    method GetTotalIdleTimePs() returns (total: int)
      requires Valid()
      ensures total == chipIdleTimePs + SumOver(Chips().Keys, IdleUnits(Chips()))
    {
      ghost var units := IdleUnits(Chips());
      total := chipIdleTimePs;
      var left := chipTrackers.Keys;
      assert left == Chips().Keys;
      while left != {}
        invariant left <= chipTrackers.Keys
        invariant total + SumOver(left, units) == chipIdleTimePs + SumOver(Chips().Keys, units)
        decreases left
      {
        var chip :| chip in left;
        SumOverPick(left, chip, units);
        var idle := IdleTimeOf(chip);
        total := total + idle;
        left := left - {chip};
      }
    }
  }
}
