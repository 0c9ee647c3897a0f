/** Received DCN messages: which are valid, and where they go. */
module DcnMessages {
  import opened DcnEvents

  /** A received message before it is checked; -1 marks a field that was not set. */
  datatype Received = Received(message: Message, sliceDst: int, tpuSrc: int)

  datatype Validity = Valid | ValidLoopback | InvalidClockSkew | InvalidBadKey

  /** The message starts its duration before it ends. */
  predicate WellTimed(r: Received) {
    r.message.end == r.message.start + 1000 * r.message.durationUs
  }

  function ValidityOf(r: Received): Validity {
    var m := r.message;
    if m.collective == "" || m.srcSlice == -1 || r.tpuSrc == -1 || r.sliceDst == -1 || m.tpuDst == -1
       || m.size == 0xFFFF_FFFF_FFFF_FFFF then InvalidBadKey
    else if r.message.durationUs == 0 then InvalidClockSkew
    else if m.srcSlice == r.sliceDst then ValidLoopback
    else Valid
  }

  /** The collective has a name, and slices, tensor cores and size were all set. */
  predicate IsComplete(r: Received) {
    && r.message.collective != "" && r.message.srcSlice != -1 && r.sliceDst != -1
    && r.tpuSrc != -1 && r.message.tpuDst != -1 && r.message.size != 0xFFFF_FFFF_FFFF_FFFF
  }

  /** A message from another slice that took time. */
  predicate BecomesEvents(r: Received) {
    IsComplete(r) && r.message.durationUs > 0 && r.message.srcSlice != r.sliceDst
  }

  /** Each kind of message, by its fields. */
  lemma ValidityIs(r: Received)
    ensures ValidityOf(r) == InvalidBadKey <==> !IsComplete(r)
    ensures ValidityOf(r) == InvalidClockSkew <==> IsComplete(r) && r.message.durationUs == 0
    ensures ValidityOf(r) == ValidLoopback
       <==> IsComplete(r) && r.message.durationUs > 0 && r.message.srcSlice == r.sliceDst
    ensures ValidityOf(r) == Valid <==> BecomesEvents(r)
  {
  }

  /** The messages that become events, in the order in which they were received. */
  function ValidMessages(received: seq<Received>): seq<Message> {
    if received == [] then []
    else
      var front, last := ValidMessages(received[..|received| - 1]), received[|received| - 1];
      if BecomesEvents(last) then front + [last.message] else front
  }

  /** The duration does not exceed the timestamp. */
  predicate FitsTheClock(r: Received) {
    1000 * r.message.durationUs <= r.message.end
  }

  /** The start is the end less the duration, when that is not negative. */
  predicate StartIsComputed(r: Received) {
    FitsTheClock(r) ==> r.message.start == r.message.end - 1000 * r.message.durationUs
  }

  /** What becomes of a negative difference if it wraps around to a 64-bit word. */
  predicate StartWraps(r: Received) {
    && r.message.end < 0x1_0000_0000_0000_0000 && 1000 * r.message.durationUs < 0x1_0000_0000_0000_0000
    && r.message.start == (r.message.end - 1000 * r.message.durationUs) % 0x1_0000_0000_0000_0000
  }

  /** A message with a computed start that fits the clock is one that starts its duration
      before it ends. */
  lemma FittingIsWellTimed(r: Received)
    ensures StartIsComputed(r) && FitsTheClock(r) <==> WellTimed(r)
  {
  }

  /** A valid message that fits the clock starts its duration before it ends; one that
      does not ends before it starts, if its start wraps around. */
  lemma ValidMessageLasts(r: Received)
    requires StartIsComputed(r) && BecomesEvents(r)
    ensures FitsTheClock(r) ==> WellTimed(r) && r.message.start < r.message.end
    ensures !FitsTheClock(r) && StartWraps(r) ==> r.message.start > r.message.end
  {
    var difference := r.message.end - 1000 * r.message.durationUs;
    if difference < 0 && StartWraps(r) {
      SmallModulus(difference + 0x1_0000_0000_0000_0000, 0x1_0000_0000_0000_0000);
      AddModulus64(difference);
    }
  }

  ghost predicate AllFit(received: seq<Received>) {
    forall r :: r in received && BecomesEvents(r) ==> FitsTheClock(r)
  }

  /** So the messages that become events all last when all valid ones fit the clock,
      and only then if the starts of the others wrap around. */
  lemma {:induction false} ValidMessagesLast(received: seq<Received>)
    requires forall r :: r in received ==> StartIsComputed(r)
    ensures AllFit(received) ==> Lasting(ValidMessages(received))
    ensures (forall r :: r in received && !FitsTheClock(r) ==> StartWraps(r)) ==>
              (Lasting(ValidMessages(received)) <==> AllFit(received))
    decreases |received|
  {
    if received != [] {
      var front, last := received[..|received| - 1], received[|received| - 1];
      assert received == front + [last];
      ValidMessagesLast(front);
      if BecomesEvents(last) {
        ValidMessageLasts(last);
        LastingAppend(ValidMessages(front), last.message);
      }
    }
  }

  lemma LastingAppend(messages: seq<Message>, m: Message)
    ensures Lasting(messages + [m]) <==> Lasting(messages) && m.start < m.end
  {
    assert forall x :: x in messages + [m] <==> x in messages || x == m;
  }

  lemma AddModulus64(x: int)
    ensures (x + 0x1_0000_0000_0000_0000) % 0x1_0000_0000_0000_0000 == x % 0x1_0000_0000_0000_0000
  {
  }

  /** A microsecond that ends five nanoseconds into the clock starts at its far end. */
  lemma LongMessageWraps()
    ensures var m := Message(0xFFFF_FFFF_FFFF_FC1D, 5, 1, 0, 0, 0, "all-reduce");
      var r := Received(m, 1, 0);
      StartIsComputed(r) && StartWraps(r) && BecomesEvents(r) && m.start > m.end
  {
  }

  /** How many tensor cores take part: all, or every second one. */
  function Dealt(numTensorCores: nat, isMegacore: bool): nat {
    if isMegacore then numTensorCores / 2 else numTensorCores
  }

  /** The tensor core a message for `tpu` goes to: even ones only under megacore.
      A negative number wraps around to an unsigned one first. */
  function FindTpuIdx(tpu: int, numTensorCores: nat, isMegacore: bool): (idx: nat)
    requires numTensorCores > 0 && (isMegacore ==> numTensorCores > 1)
    ensures idx < numTensorCores
    ensures isMegacore ==> idx % 2 == 0
  {
    var idx := (tpu % 0x1_0000_0000) % Dealt(numTensorCores, isMegacore);
    if isMegacore then 2 * idx else idx
  }

  /** The first numbers go to the tensor cores in turn. */
  lemma FirstCores(tpu: nat, numTensorCores: nat, isMegacore: bool)
    requires numTensorCores > 0 && (isMegacore ==> numTensorCores > 1)
    requires tpu < Dealt(numTensorCores, isMegacore) && tpu < 0x1_0000_0000
    ensures FindTpuIdx(tpu, numTensorCores, isMegacore) == if isMegacore then 2 * tpu else tpu
  {
    SmallModulus(tpu, 0x1_0000_0000);
    SmallModulus(tpu, Dealt(numTensorCores, isMegacore));
  }

  /** After that they go round again. */
  lemma CoresRepeat(tpu: nat, numTensorCores: nat, isMegacore: bool)
    requires numTensorCores > 0 && (isMegacore ==> numTensorCores > 1)
    requires tpu + Dealt(numTensorCores, isMegacore) < 0x1_0000_0000
    ensures FindTpuIdx(tpu + Dealt(numTensorCores, isMegacore), numTensorCores, isMegacore)
         == FindTpuIdx(tpu, numTensorCores, isMegacore)
  {
    var dealt := Dealt(numTensorCores, isMegacore);
    SmallModulus(tpu, 0x1_0000_0000);
    SmallModulus(tpu + dealt, 0x1_0000_0000);
    AddModulus(tpu, dealt);
  }

  /** A negative number goes where the unsigned number it wraps around to goes. */
  lemma NegativeCores(tpu: int, numTensorCores: nat, isMegacore: bool)
    requires numTensorCores > 0 && (isMegacore ==> numTensorCores > 1) && -0x8000_0000 <= tpu < 0
    ensures FindTpuIdx(tpu, numTensorCores, isMegacore)
         == FindTpuIdx(tpu + 0x1_0000_0000, numTensorCores, isMegacore)
  {
    assert (tpu + 0x1_0000_0000) % 0x1_0000_0000 == tpu % 0x1_0000_0000;
  }

  lemma SmallModulus(x: nat, m: nat)
    requires x < m
    ensures x % m == x
  {
  }

  lemma AddModulus(x: nat, m: nat)
    requires m > 0
    ensures (x + m) % m == x % m
  {
    var q, q' := x / m, (x + m) / m;
    assert x == q * m + x % m && x + m == q' * m + (x + m) % m;
    assert (q' - q - 1) * m == x % m - (x + m) % m;
    BetweenMultiples(q' - q - 1, m);
  }

  lemma BetweenMultiples(k: int, m: int)
    requires -1 * m < k * m < m
    ensures k == 0
  {
  }
}
