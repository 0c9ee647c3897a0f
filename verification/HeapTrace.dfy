/** Heap-simulator traces, and what a trace itself says about its buffers. */
module HeapTrace {
  import opened Collections

  type Id = int

  datatype Info = Info(size: nat, unpaddedSize: nat, allocation: int)

  /** One event. `Other` stands for an event kind the simulator does not know. */
  datatype Event = Alloc(id: Id) | Free(id: Id) | ShareWith(id: Id, target: Id) | Other(id: Id)

  type Trace = seq<Event>

  predicate Introduces(e: Event, b: Id) {
    (e.Alloc? || e.ShareWith?) && e.id == b
  }

  predicate Introduced(trace: Trace, b: Id) {
    exists e :: e in trace && Introduces(e, b)
  }

  predicate Freed(trace: Trace, b: Id) {
    Free(b) in trace
  }

  /** What an event may do after the events before it. Events on unknown buffers
      are skipped by the simulator and may be anything. */
  predicate Allowed(infos: map<Id, Info>, before: Trace, e: Event) {
    e.id in infos ==>
      match e
      case Alloc(b) => !Introduced(before, b)
      case ShareWith(b, t) => !Introduced(before, b) && t in infos && Introduced(before, t)
      case Free(b) => Introduced(before, b) && !Freed(before, b)
      case Other(_) => false
  }

  ghost predicate WellFormed(infos: map<Id, Info>, trace: Trace) {
    forall k :: 0 <= k < |trace| ==> Allowed(infos, trace[..k], trace[k])
  }

  /** The buffer whose memory `b` uses: sharers use that of their target. */
  function RootIn(trace: Trace, b: Id): Id {
    if trace == [] then b
    else
      var front, last := trace[..|trace| - 1], trace[|trace| - 1];
      if last.ShareWith? && last.id == b then RootIn(front, last.target) else RootIn(front, b)
  }

  /** The known buffers that were introduced and not freed. */
  function OpenIn(infos: map<Id, Info>, trace: Trace): set<Id> {
    if trace == [] then {}
    else
      var before, last := OpenIn(infos, trace[..|trace| - 1]), trace[|trace| - 1];
      if last.id !in infos then before
      else
        match last
        case Alloc(b) => before + {b}
        case ShareWith(b, _) => before + {b}
        case Free(b) => before - {b}
        case Other(_) => before
  }

  /** The open buffers that use the memory of `root`. */
  ghost function Users(infos: map<Id, Info>, trace: Trace, root: Id): set<Id> {
    set b | b in OpenIn(infos, trace) && RootIn(trace, b) == root
  }

  ghost predicate IsRoot(infos: map<Id, Info>, trace: Trace, b: Id) {
    b in infos && RootIn(trace, b) == b
  }

  /** Facts about the roots of a well-formed trace. */
  ghost predicate RootsAreSound(infos: map<Id, Info>, trace: Trace) {
    && (forall b :: b in infos ==> IsRoot(infos, trace, RootIn(trace, b)))
    && (forall b :: b in infos && !Introduced(trace, b) ==> IsRoot(infos, trace, b))
    && (forall b, x :: b in infos && x in infos && !Introduced(trace, b) && RootIn(trace, x) == b ==> x == b)
    && (forall b :: b in infos && Freed(trace, b) ==> Introduced(trace, b))
    && (forall b :: b in OpenIn(infos, trace) ==> b in infos && Introduced(trace, b) && !Freed(trace, b))
    && (forall b :: b in infos && Introduced(trace, b) && !Freed(trace, b) ==> b in OpenIn(infos, trace))
  }

  lemma Append(trace: Trace, e: Event)
    ensures (trace + [e])[..|trace|] == trace
    ensures forall b :: Introduced(trace + [e], b) <==> Introduced(trace, b) || Introduces(e, b)
    ensures forall b :: Freed(trace + [e], b) <==> Freed(trace, b) || e == Free(b)
  {
    assert forall x :: x in trace + [e] <==> x in trace || x == e;
  }

  lemma WellFormedPrefix(infos: map<Id, Info>, trace: Trace, e: Event)
    requires WellFormed(infos, trace + [e])
    ensures WellFormed(infos, trace) && Allowed(infos, trace, e)
  {
    Append(trace, e);
    assert (trace + [e])[|trace|] == e;
    forall k | 0 <= k < |trace| ensures Allowed(infos, trace[..k], trace[k]) {
      assert (trace + [e])[..k] == trace[..k] && (trace + [e])[k] == trace[k];
    }
  }

  /** How one event moves roots. */
  lemma RootStep(infos: map<Id, Info>, trace: Trace, e: Event, b: Id)
    requires RootsAreSound(infos, trace) && Allowed(infos, trace, e) && b in infos
    ensures RootIn(trace + [e], b)
         == if e.ShareWith? && e.id == b then RootIn(trace, e.target) else RootIn(trace, b)
  {
    Append(trace, e);
  }

  lemma RootsStaySound(infos: map<Id, Info>, trace: Trace, e: Event)
    requires RootsAreSound(infos, trace) && Allowed(infos, trace, e)
    ensures RootsAreSound(infos, trace + [e])
  {
    Append(trace, e);
    forall b | b in infos
      ensures RootIn(trace + [e], b)
           == if e.ShareWith? && e.id == b then RootIn(trace, e.target) else RootIn(trace, b)
    {
      RootStep(infos, trace, e, b);
    }
  }

  lemma {:induction false} RootsOf(infos: map<Id, Info>, trace: Trace)
    requires WellFormed(infos, trace)
    ensures RootsAreSound(infos, trace)
    decreases |trace|
  {
    if trace != [] {
      var front, last := trace[..|trace| - 1], trace[|trace| - 1];
      assert trace == front + [last];
      WellFormedPrefix(infos, front, last);
      RootsOf(infos, front);
      RootsStaySound(infos, front, last);
    }
  }

  /** How one event changes who uses a root's memory. */
  lemma UsersStep(infos: map<Id, Info>, trace: Trace, e: Event, root: Id)
    requires RootsAreSound(infos, trace) && Allowed(infos, trace, e)
    ensures Users(infos, trace + [e], root)
         == if e.id !in infos then Users(infos, trace, root)
            else if e.Alloc? && e.id == root then Users(infos, trace, root) + {e.id}
            else if e.ShareWith? && RootIn(trace, e.target) == root then Users(infos, trace, root) + {e.id}
            else if e.Free? then Users(infos, trace, root) - {e.id}
            else Users(infos, trace, root)
    ensures Introduced(trace, e.id) || e.id !in Users(infos, trace, root)
    ensures e.id in infos && !Introduced(trace, e.id) ==> Users(infos, trace, e.id) == {}
    ensures e.id in infos && e.Free? ==> e.id in Users(infos, trace, RootIn(trace, e.id))
  {
    Append(trace, e);
    forall b | b in infos
      ensures RootIn(trace + [e], b)
           == if e.ShareWith? && e.id == b then RootIn(trace, e.target) else RootIn(trace, b)
    {
      RootStep(infos, trace, e, b);
    }
  }

  // Spans.

  /** The event that allocated `b`. */
  function AllocAt(trace: Trace, b: Id): Option<nat> {
    if trace == [] then None
    else if trace[|trace| - 1] == Alloc(b) then Some(|trace| - 1)
    else AllocAt(trace[..|trace| - 1], b)
  }

  /** The event that made `b` share memory nobody was using. */
  ghost function RevivedAt(infos: map<Id, Info>, trace: Trace, b: Id): Option<nat> {
    if trace == [] then None
    else
      var front, last := trace[..|trace| - 1], trace[|trace| - 1];
      if last.ShareWith? && last.id == b && Users(infos, front, RootIn(front, last.target)) == {}
      then Some(|trace| - 1)
      else RevivedAt(infos, front, b)
  }

  function FreedAt(trace: Trace, b: Id): Option<nat> {
    if trace == [] then None
    else if trace[|trace| - 1] == Free(b) then Some(|trace| - 1)
    else FreedAt(trace[..|trace| - 1], b)
  }

  /** The last event after which nobody used `root`'s memory any more. */
  ghost function EmptiedAt(infos: map<Id, Info>, trace: Trace, root: Id): Option<nat> {
    if trace == [] then None
    else
      var front := trace[..|trace| - 1];
      if Users(infos, front, root) != {} && Users(infos, trace, root) == {} then Some(|trace| - 1)
      else EmptiedAt(infos, front, root)
  }

  function At(found: Option<nat>, default: nat): nat {
    match found
    case Some(k) => k
    case None => default
  }

  /** The lifetime of a buffer. An allocated one lives from its allocation to the
      last event that emptied its sharing class, a sharer that revives memory from
      its sharing to its own free; either lives to the last event if that never
      happened. Other buffers have no lifetime of their own. */
  ghost function SpanIn(infos: map<Id, Info>, trace: Trace, b: Id, lastEvent: nat): Option<(nat, nat)> {
    if AllocAt(trace, b).Some? then
      Some((AllocAt(trace, b).value, At(EmptiedAt(infos, trace, b), lastEvent)))
    else if RevivedAt(infos, trace, b).Some? then
      Some((RevivedAt(infos, trace, b).value, At(FreedAt(trace, b), lastEvent)))
    else None
  }
}
