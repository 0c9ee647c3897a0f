/** Reading an object in parallel chunks. */
module ChunkedRead {
  import opened Collections

  type Byte = b: int | 0 <= b < 256

  const NUM_THREADS: nat := 32
  const MIN_CHUNK_SIZE: nat := 8 * 1024 * 1024

  // Chunks.

  function ChunkSize(total: nat): (size: nat)
    ensures size >= MIN_CHUNK_SIZE
  {
    Max(MIN_CHUNK_SIZE, (total + NUM_THREADS - 1) / NUM_THREADS)
  }

  function NumChunks(total: nat): nat {
    (total + ChunkSize(total) - 1) / ChunkSize(total)
  }

  /** Where a chunk begins, counted from the start of the range. */
  function ChunkStart(total: nat, i: nat): nat {
    i * ChunkSize(total)
  }

  function ChunkEnd(total: nat, i: nat): nat {
    Min(ChunkStart(total, i) + ChunkSize(total), total)
  }

  /** Where the chunks before the `i`-th end. */
  function Boundary(total: nat, i: nat): (b: nat)
    ensures i == 0 ==> b == 0
  {
    Min(i * ChunkSize(total), total)
  }

  lemma Division(total: nat, size: nat)
    requires size > 0
    ensures var n := (total + size - 1) / size;
      total <= n * size && (n > 0 ==> (n - 1) * size < total) && (n == 0 <==> total == 0)
  {
    var n := (total + size - 1) / size;
    assert total + size - 1 == n * size + (total + size - 1) % size;
    assert n > 0 ==> (n - 1) * size == n * size - size;
    if n == 0 { assert n * size == 0; }
  }

  lemma Multiply(a: nat, b: nat, size: nat)
    requires a <= b
    ensures a * size <= b * size
    ensures (a + 1) * size == a * size + size
  {
  }

  /** There are at most as many chunks as threads, and just one up to eight megabytes. */
  lemma FewChunks(total: nat)
    ensures NumChunks(total) <= 32
    ensures NumChunks(total) == 0 <==> total == 0
    ensures NumChunks(total) == 1 <== 0 < total <= 8388608
  {
    var size, n := ChunkSize(total), NumChunks(total);
    Division(total, size);
    Division(total, NUM_THREADS);
    if n > NUM_THREADS {
      Multiply(NUM_THREADS, n - 1, size);
    }
  }

  /** Every chunk is a non-empty part of the range, and they lie end to end. */
  lemma ChunksTile(total: nat, i: nat)
    requires i < NumChunks(total)
    ensures ChunkStart(total, i) == Boundary(total, i) < ChunkEnd(total, i) == Boundary(total, i + 1) <= total
    ensures Boundary(total, 0) == 0 && Boundary(total, NumChunks(total)) == total
  {
    var size, n := ChunkSize(total), NumChunks(total);
    Division(total, size);
    Multiply(i, n - 1, size);
  }

  /** All chunks but the last have the same length: eight megabytes, or as many bytes
      as 32 equal chunks need when that is more. */
  lemma ChunksAreEven(total: nat, i: nat)
    requires i + 1 < NumChunks(total)
    ensures var length := ChunkEnd(total, i) - ChunkStart(total, i);
      length >= 8388608 && total <= 32 * length && (length > 8388608 ==> 32 * (length - 1) < total)
    ensures ChunkEnd(total, i + 1) - ChunkStart(total, i + 1) <= ChunkEnd(total, i) - ChunkStart(total, i)
  {
    ChunksTile(total, i);
    ChunksTile(total, i + 1);
    Division(total, NUM_THREADS);
    Multiply(i, i + 1, ChunkSize(total));
  }

  lemma BoundariesGrow(total: nat, i: nat, j: nat)
    requires i <= j
    ensures Boundary(total, i) <= Boundary(total, j) <= total
  {
    Multiply(i, j, ChunkSize(total));
  }

  /** Every byte of the range is in exactly one chunk. */
  lemma OneChunkForEachByte(total: nat, p: nat) returns (i: nat)
    requires p < total
    ensures i < NumChunks(total) && ChunkStart(total, i) <= p < ChunkEnd(total, i)
    ensures forall j :: 0 <= j < NumChunks(total) && ChunkStart(total, j) <= p < ChunkEnd(total, j) ==> j == i
  {
    var size := ChunkSize(total);
    i := p / size;
    assert p == i * size + p % size;
    Division(total, size);
    if i >= NumChunks(total) { Multiply(NumChunks(total), i, size); }
    forall j: nat | j < NumChunks(total) && ChunkStart(total, j) <= p < ChunkEnd(total, j) ensures j == i {
      if j < i { Multiply(j + 1, i, size); Multiply(j, j, size); }
      if i < j { Multiply(i + 1, j, size); Multiply(i, i, size); }
    }
  }

  // Tasks. Each is given a run of chunks; the tasks' steps may interleave in any order.

  datatype Status = Ok | Internal | DataLoss

  /** Only the first error is kept. */
  function Update(status: Status, error: Status): Status {
    if status.Ok? then error else status
  }

  datatype Phase = Checking | Opening | Reading | OpenFailed | ReadFailed | Returned

  datatype Task = Task(next: nat, end: nat, phase: Phase)

  datatype State = State(contents: seq<Byte>, status: Status, tasks: seq<Task>)

  /** What is read: `total` bytes of an object from `start` on. */
  datatype Range = Range(data: seq<Byte>, start: nat, total: nat)

  /** All of a chunk's bytes exist. */
  predicate Exists(r: Range, i: nat) {
    i < NumChunks(r.total) && r.start + ChunkEnd(r.total, i) <= |r.data|
  }

  /** One atomic step of a task. `Deliver` stands for bytes that arrive before the
      outcome of a read is known. */
  datatype Step =
    | Check(task: nat)
    | Open(task: nat, ok: bool)
    | Deliver(task: nat, bytes: seq<Byte>)
    | Finish(task: nat, ok: bool)
    | Report(task: nat)

  predicate Enabled(r: Range, s: State, e: Step) {
    e.task < |s.tasks| &&
    var t := s.tasks[e.task];
    match e
    case Check(_) => t.phase.Checking?
    case Open(_, _) => t.phase.Opening?
    case Deliver(_, bytes) => t.phase.Reading? && |bytes| <= ChunkEnd(r.total, t.next) - ChunkStart(r.total, t.next)
    case Finish(_, ok) => t.phase.Reading? && (ok ==> Exists(r, t.next))
    case Report(_) => t.phase.OpenFailed? || t.phase.ReadFailed?
  }

  function Write(contents: seq<Byte>, at: nat, bytes: seq<Byte>): (after: seq<Byte>)
    requires at + |bytes| <= |contents|
    ensures |after| == |contents|
    ensures forall p :: 0 <= p < |contents| ==>
              after[p] == if at <= p < at + |bytes| then bytes[p - at] else contents[p]
  {
    contents[..at] + bytes + contents[at + |bytes|..]
  }

  function SetTask(s: State, i: nat, t: Task): State
    requires i < |s.tasks|
  {
    s.(tasks := s.tasks[i := t])
  }

  /** A read that succeeds delivers exactly the bytes of its chunk. */
  function ChunkBytes(r: Range, i: nat): (bytes: seq<Byte>)
    requires Exists(r, i)
    ensures |bytes| == ChunkEnd(r.total, i) - ChunkStart(r.total, i)
  {
    ChunksTile(r.total, i);
    r.data[r.start + ChunkStart(r.total, i)..r.start + ChunkEnd(r.total, i)]
  }

  function Apply(r: Range, s: State, e: Step): State
    requires |s.contents| == r.total && Enabled(r, s, e)
    requires !e.Check? ==> s.tasks[e.task].next < NumChunks(r.total)
  {
    var t := s.tasks[e.task];
    match e
    case Check(_) =>
      if t.next < t.end && s.status.Ok? then SetTask(s, e.task, t.(phase := Opening))
      else SetTask(s, e.task, t.(phase := Returned))
    case Open(_, ok) => SetTask(s, e.task, t.(phase := if ok then Reading else OpenFailed))
    case Deliver(_, bytes) =>
      ChunksTile(r.total, t.next);
      s.(contents := Write(s.contents, ChunkStart(r.total, t.next), bytes))
    case Finish(_, ok) =>
      if !ok then SetTask(s, e.task, t.(phase := ReadFailed))
      else
        ChunksTile(r.total, t.next);
        SetTask(s.(contents := Write(s.contents, ChunkStart(r.total, t.next), ChunkBytes(r, t.next))),
                e.task, Task(t.next + 1, t.end, Checking))
    case Report(_) =>
      SetTask(s.(status := Update(s.status, if t.phase.OpenFailed? then Internal else DataLoss)),
              e.task, t.(phase := Returned))
  }

  /** The blocks the thread pool hands out: runs of chunks that lie end to end. */
  ghost predicate Blocks(blocks: seq<(nat, nat)>, count: nat) {
    && (forall k :: 0 <= k < |blocks| ==> blocks[k].0 <= blocks[k].1)
    && (forall k :: 0 < k < |blocks| ==> blocks[k].0 == blocks[k - 1].1)
    && (if blocks == [] then count == 0 else blocks[0].0 == 0 && blocks[|blocks| - 1].1 == count)
  }

  function Start(r: Range, blocks: seq<(nat, nat)>, blank: seq<Byte>): State {
    State(blank, Ok, seq(|blocks|, k requires 0 <= k < |blocks| => Task(blocks[k].0, blocks[k].1, Checking)))
  }

  /** The chunks before `next` of every block have arrived. */
  ghost predicate Inv(r: Range, blocks: seq<(nat, nat)>, s: State) {
    && |s.contents| == r.total && |s.tasks| == |blocks|
    && forall k {:trigger TaskInv(r, blocks[k].0, blocks[k].1, s.tasks[k], s.contents, s.status)} ::
         0 <= k < |blocks| ==> TaskInv(r, blocks[k].0, blocks[k].1, s.tasks[k], s.contents, s.status)
  }

  ghost predicate TaskInv(r: Range, first: nat, end: nat, t: Task, contents: seq<Byte>, status: Status) {
    && first <= t.next <= t.end == end
    && (!t.phase.Checking? && !t.phase.Returned? ==> t.next < end)
    && (t.phase.Returned? && t.next < end ==> !status.Ok?)
    && HasArrived(r, contents, Boundary(r.total, first), Boundary(r.total, t.next))
  }

  ghost predicate HasArrived(r: Range, contents: seq<Byte>, from: nat, to: nat) {
    forall p :: from <= p < to && p < |contents| ==> IsByteOf(r, contents, p)
  }

  predicate IsByteOf(r: Range, contents: seq<Byte>, p: nat)
    requires p < |contents|
  {
    r.start + p < |r.data| && contents[p] == r.data[r.start + p]
  }

  /** Blocks do not overlap. */
  lemma {:induction false} BlocksAreOrdered(blocks: seq<(nat, nat)>, count: nat, i: nat, j: nat)
    requires Blocks(blocks, count) && i < j < |blocks|
    ensures blocks[i].1 <= blocks[j].0 && blocks[j].1 <= count
    decreases |blocks| - i
  {
    if i + 1 < j { BlocksAreOrdered(blocks, count, i + 1, j); }
    BlockEnds(blocks, count, j);
  }

  lemma {:induction false} BlockEnds(blocks: seq<(nat, nat)>, count: nat, j: nat)
    requires Blocks(blocks, count) && j < |blocks|
    ensures blocks[j].1 <= count
    decreases |blocks| - j
  {
    if j + 1 < |blocks| { BlockEnds(blocks, count, j + 1); }
  }

  /** A write into its own chunk disturbs no other task. */
  lemma OthersKeepTheirs(r: Range, blocks: seq<(nat, nat)>, contents: seq<Byte>, i: nat, k: nat, bytes: seq<Byte>,
                         chunk: nat, next: nat)
    requires Blocks(blocks, NumChunks(r.total)) && |contents| == r.total && i < |blocks| && k < |blocks|
    requires blocks[i].0 <= chunk < blocks[i].1 && chunk < NumChunks(r.total)
    requires |bytes| <= ChunkEnd(r.total, chunk) - ChunkStart(r.total, chunk)
    requires ChunkStart(r.total, chunk) + |bytes| <= r.total
    requires blocks[k].0 <= next <= if k == i then chunk else blocks[k].1
    requires HasArrived(r, contents, Boundary(r.total, blocks[k].0), Boundary(r.total, next))
    ensures HasArrived(r, Write(contents, ChunkStart(r.total, chunk), bytes),
                       Boundary(r.total, blocks[k].0), Boundary(r.total, next))
  {
    ChunksTile(r.total, chunk);
    if k < i {
      BlocksAreOrdered(blocks, NumChunks(r.total), k, i);
      BoundariesGrow(r.total, next, chunk);
    } else if i < k {
      BlocksAreOrdered(blocks, NumChunks(r.total), i, k);
      BoundariesGrow(r.total, chunk + 1, blocks[k].0);
    } else {
      BoundariesGrow(r.total, next, chunk);
    }
    var after := Write(contents, ChunkStart(r.total, chunk), bytes);
    forall p | Boundary(r.total, blocks[k].0) <= p < Boundary(r.total, next) && p < |after|
      ensures IsByteOf(r, after, p)
    {
      assert IsByteOf(r, contents, p);
    }
  }

  lemma Arrives(r: Range, contents: seq<Byte>, first: nat, chunk: nat)
    requires |contents| == r.total && Exists(r, chunk)
    requires ChunkStart(r.total, chunk) + |ChunkBytes(r, chunk)| <= r.total
    requires HasArrived(r, contents, Boundary(r.total, first), Boundary(r.total, chunk))
    ensures HasArrived(r, Write(contents, ChunkStart(r.total, chunk), ChunkBytes(r, chunk)),
                       Boundary(r.total, first), Boundary(r.total, chunk + 1))
  {
    ChunksTile(r.total, chunk);
    var after := Write(contents, ChunkStart(r.total, chunk), ChunkBytes(r, chunk));
    forall p | Boundary(r.total, first) <= p < Boundary(r.total, chunk + 1) && p < |after|
      ensures IsByteOf(r, after, p)
    {
      assert p < Boundary(r.total, chunk) ==> IsByteOf(r, contents, p);
    }
  }

  /** A step that writes nothing only moves its own task on. */
  lemma SilentStepKeepsTask(r: Range, blocks: seq<(nat, nat)>, s: State, e: Step, k: nat)
    requires Inv(r, blocks, s) && Enabled(r, s, e) && k < |blocks|
    requires e.Check? || e.Open? || e.Report? || (e.Finish? && !e.ok)
    requires !e.Check? ==> s.tasks[e.task].next < NumChunks(r.total)
    ensures var after := Apply(r, s, e);
      TaskInv(r, blocks[k].0, blocks[k].1, after.tasks[k], after.contents, after.status)
  {
    assert TaskInv(r, blocks[k].0, blocks[k].1, s.tasks[k], s.contents, s.status);
  }

  /** A step that writes part of a chunk. */
  lemma DeliverKeepsTask(r: Range, blocks: seq<(nat, nat)>, s: State, e: Step, k: nat)
    requires Blocks(blocks, NumChunks(r.total)) && Inv(r, blocks, s) && Enabled(r, s, e)
    requires k < |blocks| && e.Deliver? && s.tasks[e.task].next < NumChunks(r.total)
    ensures var after := Apply(r, s, e);
      TaskInv(r, blocks[k].0, blocks[k].1, after.tasks[k], after.contents, after.status)
  {
    var i, t := e.task, s.tasks[e.task];
    assert TaskInv(r, blocks[i].0, blocks[i].1, t, s.contents, s.status);
    assert TaskInv(r, blocks[k].0, blocks[k].1, s.tasks[k], s.contents, s.status);
    ChunksTile(r.total, t.next);
    OthersKeepTheirs(r, blocks, s.contents, i, k, e.bytes, t.next, s.tasks[k].next);
  }

  /** A step that completes a chunk moves its own task on. */
  lemma FinishKeepsOwn(r: Range, blocks: seq<(nat, nat)>, s: State, e: Step)
    requires Blocks(blocks, NumChunks(r.total)) && Inv(r, blocks, s) && Enabled(r, s, e)
    requires e.Finish? && e.ok && s.tasks[e.task].next < NumChunks(r.total)
    ensures var after, k := Apply(r, s, e), e.task;
      TaskInv(r, blocks[k].0, blocks[k].1, after.tasks[k], after.contents, after.status)
  {
    var k, t := e.task, s.tasks[e.task];
    assert TaskInv(r, blocks[k].0, blocks[k].1, t, s.contents, s.status);
    ChunksTile(r.total, t.next);
    Arrives(r, s.contents, blocks[k].0, t.next);
  }

  lemma FinishKeepsOther(r: Range, blocks: seq<(nat, nat)>, s: State, e: Step, k: nat)
    requires Blocks(blocks, NumChunks(r.total)) && Inv(r, blocks, s) && Enabled(r, s, e)
    requires k < |blocks| && k != e.task && e.Finish? && e.ok && s.tasks[e.task].next < NumChunks(r.total)
    ensures var after := Apply(r, s, e);
      TaskInv(r, blocks[k].0, blocks[k].1, after.tasks[k], after.contents, after.status)
  {
    var i, t := e.task, s.tasks[e.task];
    assert TaskInv(r, blocks[i].0, blocks[i].1, t, s.contents, s.status);
    assert TaskInv(r, blocks[k].0, blocks[k].1, s.tasks[k], s.contents, s.status);
    ChunksTile(r.total, t.next);
    OthersKeepTheirs(r, blocks, s.contents, i, k, ChunkBytes(r, t.next), t.next, s.tasks[k].next);
  }

  /** Every step of every task keeps what has arrived, and no error is forgotten. */
  lemma StepKeepsInv(r: Range, blocks: seq<(nat, nat)>, s: State, e: Step)
    requires Blocks(blocks, NumChunks(r.total)) && Inv(r, blocks, s) && Enabled(r, s, e)
    ensures !e.Check? ==> s.tasks[e.task].next < NumChunks(r.total)
    ensures Inv(r, blocks, Apply(r, s, e))
    ensures !s.status.Ok? ==> Apply(r, s, e).status == s.status
  {
    var i := e.task;
    assert TaskInv(r, blocks[i].0, blocks[i].1, s.tasks[i], s.contents, s.status);
    BlockEnds(blocks, NumChunks(r.total), i);
    var after := Apply(r, s, e);
    forall k | 0 <= k < |blocks|
      ensures TaskInv(r, blocks[k].0, blocks[k].1, after.tasks[k], after.contents, after.status)
    {
      if e.Deliver? {
        DeliverKeepsTask(r, blocks, s, e, k);
      } else if e.Finish? && e.ok {
        if k == i { FinishKeepsOwn(r, blocks, s, e); } else { FinishKeepsOther(r, blocks, s, e, k); }
      } else {
        SilentStepKeepsTask(r, blocks, s, e, k);
      }
    }
  }

  /** The state after some steps, if they can be taken in this order. */
  ghost function Execute(r: Range, blocks: seq<(nat, nat)>, blank: seq<Byte>, steps: seq<Step>): (s: Option<State>)
    requires Blocks(blocks, NumChunks(r.total)) && |blank| == r.total
    ensures s.Some? ==> Inv(r, blocks, s.value)
  {
    if steps == [] then
      StartKeepsInv(r, blocks, blank);
      Some(Start(r, blocks, blank))
    else
      var before := Execute(r, blocks, blank, steps[..|steps| - 1]);
      if before.Some? && Enabled(r, before.value, steps[|steps| - 1]) then
        StepKeepsInv(r, blocks, before.value, steps[|steps| - 1]);
        Some(Apply(r, before.value, steps[|steps| - 1]))
      else None
  }

  lemma StartKeepsInv(r: Range, blocks: seq<(nat, nat)>, blank: seq<Byte>)
    requires Blocks(blocks, NumChunks(r.total)) && |blank| == r.total
    ensures Inv(r, blocks, Start(r, blocks, blank))
  {
  }

  predicate AllReturned(s: State) {
    forall k :: 0 <= k < |s.tasks| ==> s.tasks[k].phase.Returned?
  }

  /** Exactly the bytes of the range, all of which exist unless none is asked for. */
  predicate IsRange(r: Range, bytes: seq<Byte>) {
    if r.total == 0 then bytes == []
    else r.start + r.total <= |r.data| && bytes == r.data[r.start..r.start + r.total]
  }

  lemma ReturnedIsComplete(r: Range, blocks: seq<(nat, nat)>, s: State)
    requires Blocks(blocks, NumChunks(r.total)) && Inv(r, blocks, s)
    requires AllReturned(s) && s.status.Ok?
    ensures IsRange(r, s.contents)
  {
    forall k | 0 <= k < |blocks| ensures s.tasks[k].next == blocks[k].1 {
      assert TaskInv(r, blocks[k].0, blocks[k].1, s.tasks[k], s.contents, s.status);
    }
    FewChunks(r.total);
    if r.total > 0 {
      PrefixArrived(r, blocks, s, |blocks| - 1);
      ChunksTile(r.total, 0);
      ArrivedIsRange(r, s.contents);
    }
  }

  lemma ArrivedIsRange(r: Range, contents: seq<Byte>)
    requires |contents| == r.total > 0 && HasArrived(r, contents, 0, r.total)
    ensures IsRange(r, contents)
  {
    assert IsByteOf(r, contents, r.total - 1);
    forall p | 0 <= p < r.total ensures contents[p] == r.data[r.start..r.start + r.total][p] {
      assert IsByteOf(r, contents, p);
    }
  }

  /** Whatever the interleaving: if all tasks have returned and the status is fine,
      the contents are exactly the bytes asked for. */
  lemma OkMeansComplete(r: Range, blocks: seq<(nat, nat)>, blank: seq<Byte>, steps: seq<Step>)
    requires Blocks(blocks, NumChunks(r.total)) && |blank| == r.total
    requires Execute(r, blocks, blank, steps).Some? && AllReturned(Execute(r, blocks, blank, steps).value)
    ensures var s := Execute(r, blocks, blank, steps).value;
      s.status.Ok? ==> IsRange(r, s.contents)
  {
    var s := Execute(r, blocks, blank, steps).value;
    if s.status.Ok? { ReturnedIsComplete(r, blocks, s); }
  }

  lemma {:induction false} PrefixArrived(r: Range, blocks: seq<(nat, nat)>, s: State, k: nat)
    requires Inv(r, blocks, s) && Blocks(blocks, NumChunks(r.total)) && k < |blocks|
    requires forall i :: 0 <= i < |blocks| ==> s.tasks[i].next == blocks[i].1
    ensures HasArrived(r, s.contents, 0, Boundary(r.total, blocks[k].1))
  {
    assert TaskInv(r, blocks[k].0, blocks[k].1, s.tasks[k], s.contents, s.status);
    if k > 0 {
      PrefixArrived(r, blocks, s, k - 1);
      assert blocks[k].0 == blocks[k - 1].1;
    }
  }

  predicate Fails(e: Step) {
    (e.Open? || e.Finish?) && !e.ok
  }

  ghost predicate NobodyFailed(s: State) {
    s.status.Ok? && forall k :: 0 <= k < |s.tasks| ==> !s.tasks[k].phase.OpenFailed? && !s.tasks[k].phase.ReadFailed?
  }

  lemma StepStatus(r: Range, s: State, e: Step)
    requires |s.contents| == r.total && Enabled(r, s, e)
    requires !e.Check? ==> s.tasks[e.task].next < NumChunks(r.total)
    ensures Apply(r, s, e).status.Ok? <==> s.status.Ok? && !e.Report?
    ensures NobodyFailed(s) && !Fails(e) ==> NobodyFailed(Apply(r, s, e))
  {
  }

  ghost predicate NoReports(steps: seq<Step>) {
    forall e :: e in steps ==> !e.Report?
  }

  ghost predicate NoFailures(steps: seq<Step>) {
    forall e :: e in steps ==> !Fails(e)
  }

  lemma OneMoreStep(steps: seq<Step>, e: Step)
    ensures NoReports(steps + [e]) <==> NoReports(steps) && !e.Report?
    ensures NoFailures(steps + [e]) <==> NoFailures(steps) && !Fails(e)
  {
    assert forall x :: x in steps + [e] <==> x in steps || x == e;
  }

  /** The status is bad exactly when some task has reported a failure, and it stays
      fine as long as no open and no read fails. */
  lemma {:induction false} StatusRemembersReports(r: Range, blocks: seq<(nat, nat)>, blank: seq<Byte>, steps: seq<Step>)
    requires Blocks(blocks, NumChunks(r.total)) && |blank| == r.total
    requires Execute(r, blocks, blank, steps).Some?
    ensures Execute(r, blocks, blank, steps).value.status.Ok? <==> NoReports(steps)
    ensures NoFailures(steps) ==> NobodyFailed(Execute(r, blocks, blank, steps).value)
    decreases |steps|
  {
    if steps != [] {
      var front, e := steps[..|steps| - 1], steps[|steps| - 1];
      assert steps == front + [e];
      StatusRemembersReports(r, blocks, blank, front);
      OneMoreStep(front, e);
      var before := Execute(r, blocks, blank, front).value;
      StepKeepsInv(r, blocks, before, e);
      StepStatus(r, before, e);
    }
  }

  /** What a step makes of the phase of task `k`. */
  predicate MovesOn(before: Phase, status: Status, e: Step, k: nat, after: Phase) {
    if e.task != k then after == before
    else
      && !before.Returned?
      && (after.OpenFailed? <==> e.Open? && !e.ok) && (after.ReadFailed? <==> e.Finish? && !e.ok)
      && (e.Check? && !status.Ok? ==> after.Returned?)
  }

  lemma StepPhase(r: Range, s: State, e: Step, k: nat)
    requires |s.contents| == r.total && Enabled(r, s, e) && k < |s.tasks|
    requires !e.Check? ==> s.tasks[e.task].next < NumChunks(r.total)
    ensures |Apply(r, s, e).tasks| == |s.tasks|
    ensures MovesOn(s.tasks[k].phase, s.status, e, k, Apply(r, s, e).tasks[k].phase)
  {
  }

  lemma LastStep(r: Range, blocks: seq<(nat, nat)>, blank: seq<Byte>, steps: seq<Step>, k: nat)
    returns (before: State, after: State)
    requires Blocks(blocks, NumChunks(r.total)) && |blank| == r.total && steps != [] && k < |blocks|
    requires Execute(r, blocks, blank, steps).Some?
    ensures Execute(r, blocks, blank, steps[..|steps| - 1]) == Some(before)
    ensures Execute(r, blocks, blank, steps) == Some(after)
    ensures |before.tasks| == |after.tasks| == |blocks|
    ensures MovesOn(before.tasks[k].phase, before.status, steps[|steps| - 1], k, after.tasks[k].phase)
  {
    var e := steps[|steps| - 1];
    before := Execute(r, blocks, blank, steps[..|steps| - 1]).value;
    StepKeepsInv(r, blocks, before, e);
    after := Apply(r, before, e);
    StepPhase(r, before, e, k);
  }

  /** The last step of a task that is about to report is the one that failed. */
  lemma {:induction false} FailureIsLast(r: Range, blocks: seq<(nat, nat)>, blank: seq<Byte>, steps: seq<Step>,
                                         k: nat, s: State) returns (j: nat)
    requires Blocks(blocks, NumChunks(r.total)) && |blank| == r.total && k < |blocks| == |s.tasks|
    requires Execute(r, blocks, blank, steps) == Some(s)
    requires s.tasks[k].phase.OpenFailed? || s.tasks[k].phase.ReadFailed?
    ensures j < |steps| && steps[j].task == k && Fails(steps[j])
    ensures steps[j].Open? <==> s.tasks[k].phase.OpenFailed?
    ensures forall m :: j < m < |steps| ==> steps[m].task != k
    decreases |steps|
  {
    assert steps != [];
    var before, after := LastStep(r, blocks, blank, steps, k);
    var front, e := steps[..|steps| - 1], steps[|steps| - 1];
    if e.task == k {
      j := |steps| - 1;
    } else {
      j := FailureIsLast(r, blocks, blank, front, k, before);
      assert forall m :: j < m < |front| ==> steps[m] == front[m];
    }
  }

  /** The error of a read is that of the first report: an internal one if that task
      failed to open its chunk, and lost data if the chunk could not be read. */
  lemma {:induction false} FirstReportDecides(r: Range, blocks: seq<(nat, nat)>, blank: seq<Byte>, steps: seq<Step>,
                                              i: nat) returns (j: nat)
    requires Blocks(blocks, NumChunks(r.total)) && |blank| == r.total
    requires Execute(r, blocks, blank, steps).Some?
    requires i < |steps| && steps[i].Report? && NoReports(steps[..i])
    ensures j < i && steps[j].task == steps[i].task && (forall m :: j < m < i ==> steps[m].task != steps[i].task)
    ensures if Execute(r, blocks, blank, steps).value.status.Internal? then steps[j].Open? && !steps[j].ok
            else Execute(r, blocks, blank, steps).value.status.DataLoss? && steps[j].Finish? && !steps[j].ok
    decreases |steps|
  {
    var front, e := steps[..|steps| - 1], steps[|steps| - 1];
    var before := Execute(r, blocks, blank, front).value;
    StepKeepsInv(r, blocks, before, e);
    if i < |front| {
      assert front[..i] == steps[..i];
      j := FirstReportDecides(r, blocks, blank, front, i);
      assert forall m :: j < m < i ==> steps[m] == front[m];
    } else {
      assert front == steps[..i];
      StatusRemembersReports(r, blocks, blank, front);
      j := FailureIsLast(r, blocks, blank, front, e.task, before);
      assert forall m :: j < m < i ==> steps[m] == front[m];
    }
  }

  /** A task that looks at the status after a report takes no further step. */
  lemma {:induction false} ReportStopsTasks(r: Range, blocks: seq<(nat, nat)>, blank: seq<Byte>, steps: seq<Step>,
                                            i: nat, j: nat, s: State)
    requires Blocks(blocks, NumChunks(r.total)) && |blank| == r.total
    requires Execute(r, blocks, blank, steps) == Some(s)
    requires i < j < |steps| && steps[i].Report? && steps[j].Check?
    ensures steps[j].task < |s.tasks| && s.tasks[steps[j].task].phase.Returned?
    ensures forall m :: j < m < |steps| ==> steps[m].task != steps[j].task
    decreases |steps|
  {
    var front, e, k := steps[..|steps| - 1], steps[|steps| - 1], steps[j].task;
    if j < |front| {
      ReportStopsTasks(r, blocks, blank, front, i, j, Execute(r, blocks, blank, front).value);
      var before, after := LastStep(r, blocks, blank, steps, k);
      assert forall m :: j < m < |front| ==> steps[m] == front[m];
    } else {
      StatusRemembersReports(r, blocks, blank, front);
      assert front[i] == steps[i] && front[i] in front;
      var before, after := LastStep(r, blocks, blank, steps, k);
    }
  }

  /** As long as some task has not returned, some step can be taken. */
  lemma NeverStuck(r: Range, s: State) returns (e: Step)
    requires !AllReturned(s)
    ensures Enabled(r, s, e) && !e.Deliver?
  {
    var k :| 0 <= k < |s.tasks| && !s.tasks[k].phase.Returned?;
    var phase := s.tasks[k].phase;
    if phase.Checking? {
      e := Check(k);
    } else if phase.Opening? {
      e := Open(k, true);
    } else if phase.Reading? {
      e := Finish(k, false);
    } else {
      e := Report(k);
    }
  }

  /** How many more steps a task can take, deliveries aside. */
  function StepsLeft(t: Task): nat {
    if t.phase.Returned? then 0
    else
      var rest := if t.next <= t.end then 3 * (t.end - t.next) else 0;
      match t.phase
      case Checking => rest + 3
      case Opening => rest + 2
      case Reading => rest + 1
      case _ => 1
  }

  /** Every step but a delivery brings its task closer to its return. */
  lemma StepsRunOut(r: Range, blocks: seq<(nat, nat)>, s: State, e: Step)
    requires Blocks(blocks, NumChunks(r.total)) && Inv(r, blocks, s) && Enabled(r, s, e)
    requires !e.Check? ==> s.tasks[e.task].next < NumChunks(r.total)
    ensures var after := Apply(r, s, e);
      && (forall k :: 0 <= k < |s.tasks| && k != e.task ==> after.tasks[k] == s.tasks[k])
      && (if e.Deliver? then after.tasks == s.tasks
          else StepsLeft(after.tasks[e.task]) < StepsLeft(s.tasks[e.task]))
  {
    assert TaskInv(r, blocks[e.task].0, blocks[e.task].1, s.tasks[e.task], s.contents, s.status);
  }

  // The whole read.

  datatype ReadResult = InvalidArgument | Failed(status: Status) | Contents(bytes: seq<Byte>)

  /** What the caller gets once all tasks have returned. */
  function ResultOf(s: State): ReadResult {
    if s.status.Ok? then Contents(s.contents) else Failed(s.status)
  }

  ghost predicate Returns(data: seq<Byte>, start: nat, end: nat, result: ReadResult) {
    if start > end then result == InvalidArgument
    else
      var r := Range(data, start, end - start);
      exists blocks, blank, steps :: ReturnsBy(r, blocks, blank, steps, result)
  }

  ghost predicate ReturnsBy(r: Range, blocks: seq<(nat, nat)>, blank: seq<Byte>, steps: seq<Step>, result: ReadResult) {
    && Blocks(blocks, NumChunks(r.total)) && |blank| == r.total
    && Execute(r, blocks, blank, steps).Some? && AllReturned(Execute(r, blocks, blank, steps).value)
    && result == ResultOf(Execute(r, blocks, blank, steps).value)
  }

  /** A read returns the bytes of the range or an error, and refuses a range that
      ends before it starts. */
  lemma ReadReturnsTheRange(data: seq<Byte>, start: nat, end: nat, result: ReadResult)
    requires Returns(data, start, end, result)
    ensures result.Contents? ==> start <= end && IsRange(Range(data, start, end - start), result.bytes)
    ensures result.InvalidArgument? <==> start > end
    ensures result.Failed? ==> !result.status.Ok?
  {
    if start <= end {
      var r := Range(data, start, end - start);
      var blocks, blank, steps :| ReturnsBy(r, blocks, blank, steps, result);
      OkMeansComplete(r, blocks, blank, steps);
    }
  }

  // A read of existing bytes can succeed.

  /** A single task has come this far without error. */
  ghost predicate HasCome(r: Range, blank: seq<Byte>, steps: seq<Step>, next: nat, phase: Phase)
    requires |blank| == r.total
  {
    var n := NumChunks(r.total);
    && next <= n
    && var s := Execute(r, [(0, n)], blank, steps);
       s.Some? && s.value.status.Ok? && s.value.tasks == [Task(next, n, phase)]
  }

  /** What the next step makes of it. */
  lemma ComesOn(r: Range, blank: seq<Byte>, steps: seq<Step>, next: nat, phase: Phase, e: Step)
    returns (more: seq<Step>)
    requires |blank| == r.total && (r.total == 0 || r.start + r.total <= |r.data|)
    requires HasCome(r, blank, steps, next, phase)
    ensures phase.Checking? && e == Check(0) ==>
              HasCome(r, blank, more, next, if next < NumChunks(r.total) then Opening else Returned)
    ensures phase.Opening? && e == Open(0, true) ==> HasCome(r, blank, more, next, Reading)
    ensures phase.Reading? && e == Finish(0, true) ==> HasCome(r, blank, more, next + 1, Checking)
  {
    var blocks := [(0, NumChunks(r.total))];
    more := steps + [e];
    var s := Execute(r, blocks, blank, steps).value;
    assert TaskInv(r, blocks[0].0, blocks[0].1, s.tasks[0], s.contents, s.status);
    if next < NumChunks(r.total) { ChunksTile(r.total, next); }
    if Enabled(r, s, e) {
      StepKeepsInv(r, blocks, s, e);
      assert more[..|steps|] == steps;
      assert Execute(r, blocks, blank, more) == Some(Apply(r, s, e));
    }
  }

  /** A run of one task that opens and reads the first `i` chunks. */
  lemma {:induction false} ReadFirst(r: Range, blank: seq<Byte>, i: nat) returns (steps: seq<Step>)
    requires i <= NumChunks(r.total) && |blank| == r.total && (r.total == 0 || r.start + r.total <= |r.data|)
    ensures HasCome(r, blank, steps, i, Checking)
  {
    steps := [];
    if i > 0 {
      steps := ReadFirst(r, blank, i - 1);
      steps := ComesOn(r, blank, steps, i - 1, Checking, Check(0));
      steps := ComesOn(r, blank, steps, i - 1, Opening, Open(0, true));
      steps := ComesOn(r, blank, steps, i - 1, Reading, Finish(0, true));
    }
  }

  /** A range is read in full by some run exactly when all its bytes exist. */
  lemma ReadCanSucceed(data: seq<Byte>, start: nat, end: nat)
    requires start <= end
    ensures (exists bytes :: Returns(data, start, end, Contents(bytes))) <==> start == end || end <= |data|
  {
    var r := Range(data, start, end - start);
    if start == end || end <= |data| {
      var n := NumChunks(r.total);
      var blocks, blank: seq<Byte> := [(0, n)], seq(r.total, k => 0);
      var steps := ReadFirst(r, blank, n);
      steps := ComesOn(r, blank, steps, n, Checking, Check(0));
      var s := Execute(r, blocks, blank, steps).value;
      assert ReturnsBy(r, blocks, blank, steps, Contents(s.contents));
      assert Returns(data, start, end, Contents(s.contents));
    } else {
      forall bytes | Returns(data, start, end, Contents(bytes)) ensures false {
        ReadReturnsTheRange(data, start, end, Contents(bytes));
      }
    }
  }
}
