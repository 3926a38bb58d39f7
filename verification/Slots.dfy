/**
 The coordinator's asynchronous work: remainder tasks counted per object and in a wait
 group, a bounded queue with one worker, inline fallback, exclusive slots for repair, and
 shutdown. Every critical section is one event; an execution is any sequence of enabled
 events. Counting a task and adding it to the wait group are two events: nothing locks both.
 */
module Slots {
  import opened Records
  import Sets

  /** Where a task is: counted, in the wait group, in the queue, to be run by its caller,
      taken by the worker, run (by the worker or inline), no longer counted, or out of the
      wait group. */
  datatype Stage = Begun | Joined | Queued | Inline | Taken | Ran(byWorker: bool) | Settled(byWorker: bool) | Done

  datatype Task = Task(ref: string, stage: Stage)

  datatype State = State(
    inflight: map<string, nat>,
    group: nat,
    queue: seq<nat>,
    closed: bool,
    gone: bool,
    returned: bool,
    busy: Option<nat>,
    tasks: map<nat, Task>,
    held: map<nat, string>)

  const INIT := State(map[], 0, [], false, false, false, None, map[], map[])

  datatype Event =
    | Begin(id: nat, ref: string)
    | Join(id: nat)
    | Place(id: nat)
    | Take
    | Execute(id: nat)
    | Settle(id: nat)
    | Finish(id: nat)
    | Acquire(holder: nat, ref: string)
    | Release(holder: nat)
    | Pass(ref: string)
    | Close
    | WorkerExit
    | CloseReturns

  function Count(s: State, ref: string): nat {
    if ref in s.inflight then s.inflight[ref] else 0
  }

  function Up(m: map<string, nat>, ref: string): map<string, nat> {
    m[ref := (if ref in m then m[ref] else 0) + 1]
  }

  /** The counter drops, and its entry goes when nothing is left. */
  function Down(m: map<string, nat>, ref: string): map<string, nat> {
    if ref !in m || m[ref] <= 1 then m - {ref} else m[ref := m[ref] - 1]
  }

  function Move(s: State, id: nat, stage: Stage): State
    requires id in s.tasks
  {
    s.(tasks := s.tasks[id := Task(s.tasks[id].ref, stage)])
  }

  predicate Enabled(s: State, e: Event) {
    match e
    case Begin(id, _) => id !in s.tasks
    case Join(id) => id in s.tasks && s.tasks[id].stage == Begun
    case Place(id) => id in s.tasks && s.tasks[id].stage == Joined
    case Take => s.queue != [] && s.busy == None && !s.gone
    case Execute(id) => id in s.tasks && (s.tasks[id].stage == Inline || s.tasks[id].stage == Taken)
    case Settle(id) => id in s.tasks && s.tasks[id].stage.Ran?
    case Finish(id) => id in s.tasks && s.tasks[id].stage.Settled?
    case Acquire(h, ref) => h !in s.held && Count(s, ref) == 0
    case Release(h) => h in s.held
    case Pass(ref) => Count(s, ref) == 0
    case Close => !s.closed
    case WorkerExit => s.closed && s.queue == [] && s.busy == None && !s.gone
    case CloseReturns => s.gone && s.group == 0 && !s.returned
  }

  function Next(s: State, e: Event, capacity: nat): State
    requires Enabled(s, e)
  {
    match e
    case Begin(id, ref) => s.(inflight := Up(s.inflight, ref), tasks := s.tasks[id := Task(ref, Begun)])
    case Join(id) => Move(s, id, Joined).(group := s.group + 1)
    case Place(id) =>
      if !s.closed && |s.queue| < capacity then Move(s, id, Queued).(queue := s.queue + [id]) else Move(s, id, Inline)
    case Take =>
      if s.queue[0] in s.tasks then Move(s, s.queue[0], Taken).(queue := s.queue[1..], busy := Some(s.queue[0])) else s
    case Execute(id) => Move(s, id, Ran(s.tasks[id].stage == Taken))
    case Settle(id) =>
      Move(s, id, Settled(s.tasks[id].stage.byWorker)).(inflight := Down(s.inflight, s.tasks[id].ref))
    case Finish(id) =>
      Move(s, id, Done).(group := if s.group > 0 then s.group - 1 else 0,
                         busy := if s.tasks[id].stage.byWorker then None else s.busy)
    case Acquire(h, ref) => s.(inflight := Up(s.inflight, ref), held := s.held[h := ref])
    case Release(h) => s.(inflight := Down(s.inflight, s.held[h]), held := s.held - {h})
    case Pass(_) => s
    case Close => s.(closed := true)
    case WorkerExit => s.(gone := true)
    case CloseReturns => s.(returned := true)
  }

  // ---- Executions ----

  ghost predicate Possible(evs: seq<Event>, capacity: nat)
    decreases |evs|, 0
  {
    evs == [] || (Possible(evs[..|evs| - 1], capacity) && Enabled(After(evs[..|evs| - 1], capacity), evs[|evs| - 1]))
  }

  ghost function After(evs: seq<Event>, capacity: nat): State
    requires Possible(evs, capacity)
    decreases |evs|, 1
  {
    if evs == [] then INIT else Next(After(evs[..|evs| - 1], capacity), evs[|evs| - 1], capacity)
  }

  lemma Extended(evs: seq<Event>, capacity: nat, e: Event)
    requires Possible(evs, capacity) && Enabled(After(evs, capacity), e)
    ensures Possible(evs + [e], capacity) && After(evs + [e], capacity) == Next(After(evs, capacity), e, capacity)
  {
    assert (evs + [e])[..|evs|] == evs;
  }

  // ---- The counters ----

  predicate Counts(stage: Stage) {
    !stage.Settled? && !stage.Done?
  }

  /** Accepted tasks of the object that are still counted. */
  ghost function Pending(s: State, ref: string): set<nat> {
    set id | id in s.tasks && s.tasks[id].ref == ref && Counts(s.tasks[id].stage)
  }

  /** Tasks in the wait group. */
  ghost function Waited(s: State): set<nat> {
    set id | id in s.tasks && !s.tasks[id].stage.Begun? && !s.tasks[id].stage.Done?
  }

  ghost function Holders(s: State, ref: string): set<nat> {
    set h | h in s.held && s.held[h] == ref
  }

  /** Each object's counter is its unfinished tasks plus its held slots. */
  ghost predicate Counted(s: State) {
    && (forall ref :: Count(s, ref) == |Pending(s, ref)| + |Holders(s, ref)|)
    && (forall ref :: ref in s.inflight ==> s.inflight[ref] > 0)
  }

  /** The wait group counts tasks between their joining and their end. */
  ghost predicate Grouped(s: State) {
    s.group == |Waited(s)|
  }

  /** At most one exclusive holder per object. */
  ghost predicate Exclusive(s: State) {
    forall g, h :: g in s.held && h in s.held && s.held[g] == s.held[h] ==> g == h
  }

  predicate OnWorker(stage: Stage) {
    stage == Taken || stage == Ran(true) || stage == Settled(true)
  }

  /** The queue holds exactly the queued tasks, each once; the worker exactly the one it
      took; a worker that left left nothing behind. */
  ghost predicate Placed(s: State) {
    && Sets.Unrepeated(s.queue)
    && (forall id :: id in s.queue <==> id in s.tasks && s.tasks[id].stage == Queued)
    && (forall id :: s.busy == Some(id) <==> id in s.tasks && OnWorker(s.tasks[id].stage))
    && (s.returned ==> s.gone)
    && (s.gone ==> s.closed && s.queue == [] && s.busy == None)
  }

  ghost predicate Invariant(s: State) {
    Counted(s) && Grouped(s) && Exclusive(s) && Placed(s)
  }

  lemma PendingMove(s: State, id: nat, stage: Stage, ref: string)
    requires id in s.tasks && Counts(s.tasks[id].stage) == Counts(stage)
    ensures Pending(Move(s, id, stage), ref) == Pending(s, ref)
    ensures Holders(Move(s, id, stage), ref) == Holders(s, ref)
  {
  }

  /** The counters after one goes up, or down, by one. */
  lemma CountUp(s: State, t: State, ref: string, r: string)
    requires t.inflight == Up(s.inflight, ref)
    ensures Count(t, r) == Count(s, r) + if r == ref then 1 else 0
  {
  }

  lemma CountDown(s: State, t: State, ref: string, r: string)
    requires t.inflight == Down(s.inflight, ref) && Count(s, ref) > 0
    ensures Count(t, r) == Count(s, r) - if r == ref then 1 else 0
  {
  }

  lemma PendingBegin(s: State, t: State, id: nat, ref: string, r: string)
    requires id !in s.tasks && t.tasks == s.tasks[id := Task(ref, Begun)]
    ensures |Pending(t, r)| == |Pending(s, r)| + if r == ref then 1 else 0
  {
    assert forall x :: x in Pending(t, r) <==> x in Pending(s, r) || (x == id && r == ref);
    if r == ref {
      assert Pending(t, r) == Pending(s, r) + {id};
      assert id !in Pending(s, r);
    } else {
      assert Pending(t, r) == Pending(s, r);
    }
  }

  lemma PendingSettle(s: State, t: State, id: nat, r: string, own: bool)
    requires id in s.tasks && Counts(s.tasks[id].stage) && t.tasks == s.tasks[id := Task(s.tasks[id].ref, Settled(own))]
    ensures |Pending(t, r)| == |Pending(s, r)| - if r == s.tasks[id].ref then 1 else 0
  {
    if r == s.tasks[id].ref {
      assert Pending(s, r) == Pending(t, r) + {id};
    } else {
      assert Pending(t, r) == Pending(s, r);
    }
  }

  lemma HoldersHold(s: State, t: State, h: nat, ref: string, r: string)
    requires h !in s.held && t.held == s.held[h := ref]
    ensures |Holders(t, r)| == |Holders(s, r)| + if r == ref then 1 else 0
  {
    if r == ref {
      assert Holders(t, r) == Holders(s, r) + {h};
    } else {
      assert Holders(t, r) == Holders(s, r);
    }
  }

  lemma HoldersRelease(s: State, t: State, h: nat, r: string)
    requires h in s.held && t.held == s.held - {h}
    ensures |Holders(t, r)| == |Holders(s, r)| - if r == s.held[h] then 1 else 0
  {
    if r == s.held[h] {
      assert Holders(s, r) == Holders(t, r) + {h};
    } else {
      assert Holders(t, r) == Holders(s, r);
    }
  }

  lemma CountedBegin(s: State, t: State, id: nat, ref: string)
    requires Counted(s) && id !in s.tasks
    requires t == s.(inflight := Up(s.inflight, ref), tasks := s.tasks[id := Task(ref, Begun)])
    ensures Counted(t)
  {
    forall r
      ensures Count(t, r) == |Pending(t, r)| + |Holders(t, r)|
    {
      CountUp(s, t, ref, r);
      PendingBegin(s, t, id, ref, r);
      assert Holders(t, r) == Holders(s, r);
    }
  }

  lemma CountedSettle(s: State, t: State, id: nat)
    requires Counted(s) && id in s.tasks && s.tasks[id].stage.Ran? && t == Next(s, Settle(id), 0)
    ensures Counted(t)
  {
    var ref := s.tasks[id].ref;
    assert id in Pending(s, ref);
    forall r
      ensures Count(t, r) == |Pending(t, r)| + |Holders(t, r)|
    {
      CountDown(s, t, ref, r);
      PendingSettle(s, t, id, r, s.tasks[id].stage.byWorker);
      assert Holders(t, r) == Holders(s, r);
    }
  }

  lemma CountedHold(s: State, t: State, h: nat, ref: string)
    requires Counted(s) && h !in s.held
    requires t == s.(inflight := Up(s.inflight, ref), held := s.held[h := ref])
    ensures Counted(t)
  {
    forall r
      ensures Count(t, r) == |Pending(t, r)| + |Holders(t, r)|
    {
      CountUp(s, t, ref, r);
      HoldersHold(s, t, h, ref, r);
      assert Pending(t, r) == Pending(s, r);
    }
  }

  lemma CountedRelease(s: State, t: State, h: nat)
    requires Counted(s) && h in s.held
    requires t == s.(inflight := Down(s.inflight, s.held[h]), held := s.held - {h})
    ensures Counted(t)
  {
    assert h in Holders(s, s.held[h]);
    forall r
      ensures Count(t, r) == |Pending(t, r)| + |Holders(t, r)|
    {
      CountDown(s, t, s.held[h], r);
      HoldersRelease(s, t, h, r);
      assert Pending(t, r) == Pending(s, r);
    }
  }

  lemma CountedMove(s: State, id: nat, stage: Stage)
    requires Counted(s) && id in s.tasks && Counts(s.tasks[id].stage) == Counts(stage)
    ensures Counted(Move(s, id, stage))
  {
    forall r
      ensures Count(Move(s, id, stage), r) == |Pending(Move(s, id, stage), r)| + |Holders(Move(s, id, stage), r)|
    {
      PendingMove(s, id, stage, r);
    }
  }

  lemma CountedSame(s: State, t: State)
    requires Counted(s) && s.inflight == t.inflight && s.tasks == t.tasks && s.held == t.held
    ensures Counted(t)
  {
    forall r
      ensures Count(t, r) == |Pending(t, r)| + |Holders(t, r)|
    {
      assert Pending(t, r) == Pending(s, r) && Holders(t, r) == Holders(s, r);
    }
  }

  lemma StepCounted(s: State, e: Event, capacity: nat)
    requires Counted(s) && Placed(s) && Enabled(s, e)
    ensures Counted(Next(s, e, capacity))
  {
    match e {
      case Begin(id, ref) => CountedBegin(s, Next(s, e, capacity), id, ref);
      case Join(id) =>
        CountedMove(s, id, Joined);
        CountedSame(Move(s, id, Joined), Next(s, e, capacity));
      case Place(id) =>
        CountedMove(s, id, Queued);
        CountedMove(s, id, Inline);
        if !s.closed && |s.queue| < capacity { CountedSame(Move(s, id, Queued), Next(s, e, capacity)); }
      case Take =>
        assert s.queue[0] in s.queue;
        CountedMove(s, s.queue[0], Taken);
        CountedSame(Move(s, s.queue[0], Taken), Next(s, e, capacity));
      case Execute(id) => CountedMove(s, id, Ran(s.tasks[id].stage == Taken));
      case Settle(id) => CountedSettle(s, Next(s, e, capacity), id);
      case Finish(id) =>
        CountedMove(s, id, Done);
        CountedSame(Move(s, id, Done), Next(s, e, capacity));
      case Acquire(h, ref) => CountedHold(s, Next(s, e, capacity), h, ref);
      case Release(h) => CountedRelease(s, Next(s, e, capacity), h);
      case Pass(_) =>
      case Close => CountedSame(s, Next(s, e, capacity));
      case WorkerExit => CountedSame(s, Next(s, e, capacity));
      case CloseReturns => CountedSame(s, Next(s, e, capacity));
    }
  }

  lemma WaitedMove(s: State, id: nat, stage: Stage)
    requires id in s.tasks && (s.tasks[id].stage.Begun? ==> !stage.Done?) && !s.tasks[id].stage.Done? && !stage.Begun?
    ensures Waited(Move(s, id, stage)) == if stage.Done? then Waited(s) - {id} else Waited(s) + {id}
    ensures id in Waited(s) <==> !s.tasks[id].stage.Begun?
  {
  }

  /** A task that moves on stays in the wait group, enters it, or leaves it. */
  lemma GroupedMove(s: State, t: State, id: nat, stage: Stage)
    requires Grouped(s) && id in s.tasks && !s.tasks[id].stage.Done? && !stage.Begun?
    requires (s.tasks[id].stage.Begun? ==> !stage.Done?)
    requires t.tasks == s.tasks[id := Task(s.tasks[id].ref, stage)]
    requires t.group == s.group + (if s.tasks[id].stage.Begun? then 1 else 0) - (if stage.Done? then 1 else 0)
    ensures Grouped(t)
  {
    WaitedMove(s, id, stage);
    assert Waited(t) == Waited(Move(s, id, stage));
    if stage.Done? {
      assert id in Waited(s);
    } else if !s.tasks[id].stage.Begun? {
      assert Waited(s) + {id} == Waited(s);
    }
  }

  lemma StepGrouped(s: State, e: Event, capacity: nat)
    requires Grouped(s) && Placed(s) && Enabled(s, e)
    ensures Grouped(Next(s, e, capacity))
  {
    var t := Next(s, e, capacity);
    match e {
      case Join(id) => GroupedMove(s, t, id, Joined);
      case Place(id) => GroupedMove(s, t, id, t.tasks[id].stage);
      case Take =>
        assert s.queue[0] in s.queue;
        GroupedMove(s, t, s.queue[0], Taken);
      case Execute(id) => GroupedMove(s, t, id, t.tasks[id].stage);
      case Settle(id) => GroupedMove(s, t, id, t.tasks[id].stage);
      case Finish(id) =>
        assert id in Waited(s);
        GroupedMove(s, t, id, Done);
      case _ => assert Waited(t) == Waited(s);
    }
  }

  /** A slot is only acquired when nothing is counted, so nobody else holds it. */
  lemma StepExclusive(s: State, e: Event, capacity: nat)
    requires Counted(s) && Exclusive(s) && Enabled(s, e)
    ensures Exclusive(Next(s, e, capacity))
  {
    if e.Acquire? {
      assert Holders(s, e.ref) == {};
      assert forall h :: h in s.held ==> h in Holders(s, s.held[h]);
    }
  }

  lemma PlacedTake(s: State, capacity: nat)
    requires Placed(s) && Enabled(s, Take)
    ensures Placed(Next(s, Take, capacity))
  {
    assert s.queue == [s.queue[0]] + s.queue[1..];
    assert s.queue[0] in s.queue;
  }

  lemma PlacedPlace(s: State, id: nat, capacity: nat)
    requires Placed(s) && Enabled(s, Place(id))
    ensures Placed(Next(s, Place(id), capacity))
  {
  }

  lemma PlacedExecute(s: State, id: nat, capacity: nat)
    requires Placed(s) && Enabled(s, Execute(id))
    ensures Placed(Next(s, Execute(id), capacity))
  {
  }

  lemma PlacedSettle(s: State, id: nat, capacity: nat)
    requires Placed(s) && Enabled(s, Settle(id))
    ensures Placed(Next(s, Settle(id), capacity))
  {
  }

  lemma PlacedFinish(s: State, id: nat, capacity: nat)
    requires Placed(s) && Enabled(s, Finish(id))
    ensures Placed(Next(s, Finish(id), capacity))
  {
  }

  lemma StepPlaced(s: State, e: Event, capacity: nat)
    requires Placed(s) && Enabled(s, e)
    ensures Placed(Next(s, e, capacity))
  {
    match e {
      case Take => PlacedTake(s, capacity);
      case Place(id) => PlacedPlace(s, id, capacity);
      case Execute(id) => PlacedExecute(s, id, capacity);
      case Settle(id) => PlacedSettle(s, id, capacity);
      case Finish(id) => PlacedFinish(s, id, capacity);
      case _ =>
    }
  }

  lemma StepInvariant(s: State, e: Event, capacity: nat)
    requires Invariant(s) && Enabled(s, e)
    ensures Invariant(Next(s, e, capacity))
  {
    StepCounted(s, e, capacity);
    StepGrouped(s, e, capacity);
    StepExclusive(s, e, capacity);
    StepPlaced(s, e, capacity);
  }

  /** The counters, the wait group, the exclusive slots and the queue are right after every
      execution. */
  lemma {:induction false} Always(evs: seq<Event>, capacity: nat)
    requires Possible(evs, capacity)
    ensures Invariant(After(evs, capacity))
  {
    if evs == [] {
      assert Waited(INIT) == {} && forall r :: Pending(INIT, r) == {} && Holders(INIT, r) == {};
    } else {
      var before, e := evs[..|evs| - 1], evs[|evs| - 1];
      Always(before, capacity);
      StepInvariant(After(before, capacity), e, capacity);
    }
  }

  // ---- Exactly once ----

  function Executions(evs: seq<Event>, id: nat): nat {
    if evs == [] then 0 else Executions(evs[..|evs| - 1], id) + if evs[|evs| - 1] == Execute(id) then 1 else 0
  }

  predicate HasRun(stage: Stage) {
    stage.Ran? || stage.Settled? || stage.Done?
  }

  /** An accepted task has run once if it is past running, and not at all before. */
  lemma {:induction false} RunsOnce(evs: seq<Event>, capacity: nat, id: nat)
    requires Possible(evs, capacity)
    ensures var s := After(evs, capacity);
      Executions(evs, id) == if id in s.tasks && HasRun(s.tasks[id].stage) then 1 else 0
  {
    if evs != [] {
      var before := evs[..|evs| - 1];
      RunsOnce(before, capacity, id);
      Always(before, capacity);
      RunStep(After(before, capacity), evs[|evs| - 1], capacity, id);
    }
  }

  lemma RunStep(s: State, e: Event, capacity: nat, id: nat)
    requires Placed(s) && Enabled(s, e)
    ensures var t := Next(s, e, capacity);
      (id in t.tasks && HasRun(t.tasks[id].stage)) <==> (id in s.tasks && HasRun(s.tasks[id].stage)) || e == Execute(id)
    ensures e == Execute(id) ==> !HasRun(s.tasks[id].stage)
  {
    if e.Take? { assert s.queue[0] in s.queue; }
  }

  predicate HasJoined(s: State, id: nat) {
    id in s.tasks && !s.tasks[id].stage.Begun?
  }

  lemma JoinedStep(s: State, e: Event, capacity: nat, id: nat)
    requires Placed(s) && Enabled(s, e)
    ensures HasJoined(Next(s, e, capacity), id) <==> HasJoined(s, id) || e == Join(id)
  {
    if e.Take? { assert s.queue[0] in s.queue; }
  }

  /** A task is past the wait group's Add exactly when that happened. */
  lemma {:induction false} JoinedIff(evs: seq<Event>, capacity: nat, id: nat)
    requires Possible(evs, capacity)
    ensures Join(id) in evs <==> HasJoined(After(evs, capacity), id)
  {
    if evs != [] {
      var before, e := evs[..|evs| - 1], evs[|evs| - 1];
      assert evs == before + [e];
      JoinedIff(before, capacity, id);
      Always(before, capacity);
      JoinedStep(After(before, capacity), e, capacity, id);
    }
  }

  // ---- Shutdown ----

  /** Whenever the wait group is empty, as when a flush returns, exactly those tasks that had
      joined it have run, each once and to its end. */
  lemma FlushedIff(evs: seq<Event>, capacity: nat, id: nat)
    requires Possible(evs, capacity) && After(evs, capacity).group == 0 && id in After(evs, capacity).tasks
    ensures Executions(evs, id) == if Join(id) in evs then 1 else 0
    ensures After(evs, capacity).tasks[id].stage == if Join(id) in evs then Done else Begun
  {
    var s := After(evs, capacity);
    Always(evs, capacity);
    RunsOnce(evs, capacity, id);
    JoinedIff(evs, capacity, id);
    assert Waited(s) == {};
    assert id !in Waited(s);
  }

  /** When a shutdown returns, exactly those tasks that had joined the wait group have run, each
      once and to its end, however full the queue was and whenever it was closed. A task that
      was counted but had not joined has not run. */
  lemma CloseReturnedIff(evs: seq<Event>, capacity: nat, id: nat)
    requires Possible(evs, capacity) && Enabled(After(evs, capacity), CloseReturns) && id in After(evs, capacity).tasks
    ensures Executions(evs, id) == if Join(id) in evs then 1 else 0
    ensures After(evs, capacity).tasks[id].stage == if Join(id) in evs then Done else Begun
    ensures After(evs, capacity).closed && After(evs, capacity).queue == [] && After(evs, capacity).busy == None
  {
    Always(evs, capacity);
    FlushedIff(evs, capacity, id);
  }

  /** "Every accepted task ran" does not hold of a returned shutdown: a task counted but not
      yet in the wait group is overtaken by it, and runs afterwards. */
  lemma CloseOvertakes(capacity: nat, ref: string)
    ensures var evs := [Begin(0, ref), Close, WorkerExit, CloseReturns];
      Possible(evs, capacity) && Executions(evs, 0) == 0 && Count(After(evs, capacity), ref) == 1 &&
        Enabled(After(evs, capacity), Join(0))
  {
    var one := Played([], capacity, Begin(0, ref), 0);
    var two := Played(one, capacity, Close, 0);
    var three := Played(two, capacity, WorkerExit, 0);
    var four := Played(three, capacity, CloseReturns, 0);
    assert four == [Begin(0, ref), Close, WorkerExit, CloseReturns];
  }

  /** Nor does "nothing is counted": a held repair slot is not waited for. */
  lemma CloseLeavesSlot(capacity: nat, ref: string)
    ensures var evs := [Acquire(0, ref), Close, WorkerExit, CloseReturns];
      Possible(evs, capacity) && Count(After(evs, capacity), ref) == 1
  {
    var one := Played([], capacity, Acquire(0, ref), 0);
    var two := Played(one, capacity, Close, 0);
    var three := Played(two, capacity, WorkerExit, 0);
    var four := Played(three, capacity, CloseReturns, 0);
    assert four == [Acquire(0, ref), Close, WorkerExit, CloseReturns];
  }

  /** One more event, and how often a task has run by then. */
  lemma Played(evs: seq<Event>, capacity: nat, e: Event, id: nat) returns (more: seq<Event>)
    requires Possible(evs, capacity) && Enabled(After(evs, capacity), e)
    ensures more == evs + [e] && Possible(more, capacity)
    ensures After(more, capacity) == Next(After(evs, capacity), e, capacity)
    ensures Executions(more, id) == Executions(evs, id) + if e == Execute(id) then 1 else 0
  {
    Extended(evs, capacity, e);
    ExecutionsMore(evs, e, id);
    more := evs + [e];
  }

  lemma ExecutionsMore(evs: seq<Event>, e: Event, id: nat)
    ensures Executions(evs + [e], id) == Executions(evs, id) + if e == Execute(id) then 1 else 0
  {
    assert (evs + [e])[..|evs|] == evs;
  }

  // ---- Progress ----

  /** Steps left until a task is done. */
  function Rank(stage: Stage): nat {
    match stage
    case Begun => 6
    case Joined => 5
    case Queued => 4
    case Inline => 3
    case Taken => 3
    case Ran(_) => 2
    case Settled(_) => 1
    case Done => 0
  }

  ghost function AtLeast(s: State, k: nat): set<nat> {
    set id | id in s.tasks && Rank(s.tasks[id].stage) >= k
  }

  /** Steps left until every task is done. */
  ghost function Left(s: State, k: nat): nat {
    if k == 0 then 0 else |AtLeast(s, k)| + Left(s, k - 1)
  }

  ghost function Measure(s: State): nat {
    Left(s, 6)
  }

  predicate TaskStep(e: Event) {
    e.Join? || e.Place? || e.Take? || e.Execute? || e.Settle? || e.Finish?
  }

  lemma {:induction false} LeftMove(s: State, t: State, id: nat, stage: Stage, k: nat)
    requires id in s.tasks && Rank(stage) < Rank(s.tasks[id].stage)
    requires t.tasks == s.tasks[id := Task(s.tasks[id].ref, stage)]
    ensures Left(t, k) <= Left(s, k)
    ensures k >= Rank(s.tasks[id].stage) ==> Left(t, k) < Left(s, k)
  {
    if k > 0 {
      LeftMove(s, t, id, stage, k - 1);
      if Rank(stage) < k <= Rank(s.tasks[id].stage) {
        assert AtLeast(t, k) == AtLeast(s, k) - {id} && id in AtLeast(s, k);
      } else {
        assert AtLeast(t, k) == AtLeast(s, k);
      }
    }
  }

  lemma {:induction false} LeftSame(s: State, t: State, k: nat)
    requires s.tasks == t.tasks
    ensures Left(s, k) == Left(t, k)
  {
    if k > 0 {
      LeftSame(s, t, k - 1);
      assert AtLeast(s, k) == AtLeast(t, k);
    }
  }

  /** Every step of a task brings all tasks nearer to their end, and nothing but a new task
      takes them farther away. */
  lemma StepsDown(s: State, e: Event, capacity: nat)
    requires Placed(s) && Enabled(s, e)
    ensures TaskStep(e) ==> Measure(Next(s, e, capacity)) < Measure(s)
    ensures !TaskStep(e) && !e.Begin? ==> Measure(Next(s, e, capacity)) == Measure(s)
  {
    var t := Next(s, e, capacity);
    match e {
      case Begin(_, _) =>
      case Join(id) => LeftMove(s, t, id, Joined, 6);
      case Place(id) => LeftMove(s, t, id, t.tasks[id].stage, 6);
      case Take =>
        assert s.queue[0] in s.queue;
        LeftMove(s, t, s.queue[0], Taken, 6);
      case Execute(id) => LeftMove(s, t, id, t.tasks[id].stage, 6);
      case Settle(id) => LeftMove(s, t, id, t.tasks[id].stage, 6);
      case Finish(id) => LeftMove(s, t, id, Done, 6);
      case _ => LeftSame(s, t, 6);
    }
  }

  /** The step an unfinished task is waiting for: its own, or the worker's. */
  ghost function Pick(s: State, id: nat): Event
    requires id in s.tasks && s.tasks[id].stage != Done
  {
    match s.tasks[id].stage
    case Begun => Join(id)
    case Joined => Place(id)
    case Queued =>
      if s.busy.None? then Take
      else if s.busy.value in s.tasks && s.tasks[s.busy.value].stage.Ran? then Settle(s.busy.value)
      else if s.busy.value in s.tasks && s.tasks[s.busy.value].stage.Settled? then Finish(s.busy.value)
      else Execute(s.busy.value)
    case Inline => Execute(id)
    case Taken => Execute(id)
    case Ran(_) => Settle(id)
    case Settled(_) => Finish(id)
  }

  /** An unfinished task is never stranded: a step towards its end, its own or the worker's,
      can always be taken, also after the queue is closed. */
  lemma NeverStranded(evs: seq<Event>, capacity: nat, id: nat)
    requires Possible(evs, capacity) && id in After(evs, capacity).tasks && After(evs, capacity).tasks[id].stage != Done
    ensures var s := After(evs, capacity);
      Enabled(s, Pick(s, id)) && TaskStep(Pick(s, id)) && Measure(Next(s, Pick(s, id), capacity)) < Measure(s)
  {
    Always(evs, capacity);
    PickSteps(After(evs, capacity), id, capacity);
  }

  lemma PickSteps(s: State, id: nat, capacity: nat)
    requires Placed(s) && id in s.tasks && s.tasks[id].stage != Done
    ensures Enabled(s, Pick(s, id)) && TaskStep(Pick(s, id)) && Measure(Next(s, Pick(s, id), capacity)) < Measure(s)
  {
    if s.tasks[id].stage == Queued {
      assert id in s.queue;
      assert s.busy.Some? ==> s.busy == Some(s.busy.value);
    }
    StepsDown(s, Pick(s, id), capacity);
  }

  function TaskSteps(evs: seq<Event>): nat {
    if evs == [] then 0 else TaskSteps(evs[..|evs| - 1]) + if TaskStep(evs[|evs| - 1]) then 1 else 0
  }

  /** Without new tasks an execution takes at most as many task steps as are left. */
  lemma {:induction false} Bounded(evs: seq<Event>, more: seq<Event>, capacity: nat)
    requires Possible(evs, capacity) && Possible(evs + more, capacity) && forall e :: e in more ==> !e.Begin?
    ensures TaskSteps(more) + Measure(After(evs + more, capacity)) <= Measure(After(evs, capacity))
  {
    if more == [] {
      assert evs + more == evs;
    } else {
      var before, e := more[..|more| - 1], more[|more| - 1];
      assert (evs + more)[..|evs + more| - 1] == evs + before && (evs + more)[|evs + more| - 1] == e;
      Bounded(evs, before, capacity);
      Always(evs + before, capacity);
      StepsDown(After(evs + before, capacity), e, capacity);
    }
  }

  lemma WorkerHas(s: State)
    requires Placed(s)
    ensures s.queue != [] ==> s.queue[0] in s.tasks && s.tasks[s.queue[0]].stage == Queued
    ensures s.busy.Some? ==> s.busy.value in s.tasks && OnWorker(s.tasks[s.busy.value].stage)
  {
    assert s.queue != [] ==> s.queue[0] in s.queue;
    assert s.busy.Some? ==> s.busy == Some(s.busy.value);
  }

  lemma FlagsKept(s: State, e: Event, capacity: nat)
    requires Enabled(s, e) && (TaskStep(e) || e.WorkerExit?)
    ensures var t := Next(s, e, capacity);
      t.closed == s.closed && t.returned == s.returned && t.gone == (s.gone || e.WorkerExit?)
  {
  }

  /** A step on the way of a shutdown to its return. */
  lemma NextOfClose(s: State, capacity: nat) returns (e: Event)
    requires Invariant(s) && s.closed && !s.returned && !Enabled(s, CloseReturns)
    ensures Enabled(s, e) && (TaskStep(e) || e.WorkerExit?) && Invariant(Next(s, e, capacity))
    ensures Next(s, e, capacity).closed && !Next(s, e, capacity).returned
    ensures Measure(Next(s, e, capacity)) < Measure(s) || (Measure(Next(s, e, capacity)) == Measure(s) && !s.gone &&
      Next(s, e, capacity).gone)
  {
    WorkerHas(s);
    if id :| id in s.tasks && s.tasks[id].stage != Done {
      PickSteps(s, id, capacity);
      e := Pick(s, id);
    } else {
      assert Waited(s) == {};
      e := WorkerExit;
      StepsDown(s, e, capacity);
    }
    FlagsKept(s, e, capacity);
    StepInvariant(s, e, capacity);
  }

  lemma {:induction false} ReturnFrom(evs: seq<Event>, capacity: nat, s: State) returns (all: seq<Event>)
    requires Possible(evs, capacity) && After(evs, capacity) == s && Invariant(s) && s.closed && !s.returned
    ensures evs <= all && Possible(all, capacity) && Enabled(After(all, capacity), CloseReturns)
    ensures forall i :: |evs| <= i < |all| ==> !all[i].Begin?
    decreases Measure(s), !s.gone
  {
    if Enabled(s, CloseReturns) {
      all := evs;
    } else {
      var e := NextOfClose(s, capacity);
      var more := Played(evs, capacity, e, 0);
      all := ReturnFrom(more, capacity, Next(s, e, capacity));
    }
  }

  /** A shutdown that began can always return: some continuation without new tasks finishes
      every task and lets it. */
  lemma CloseCanReturn(evs: seq<Event>, capacity: nat) returns (all: seq<Event>)
    requires Possible(evs, capacity) && After(evs, capacity).closed && !After(evs, capacity).returned
    ensures evs <= all && Possible(all, capacity) && Enabled(After(all, capacity), CloseReturns)
    ensures forall i :: |evs| <= i < |all| ==> !all[i].Begin?
  {
    Always(evs, capacity);
    all := ReturnFrom(evs, capacity, After(evs, capacity));
  }

  // ---- Waiting out an exclusive slot ----

  lemma {:induction false} PossiblePrefix(evs: seq<Event>, capacity: nat, i: nat)
    requires Possible(evs, capacity) && i <= |evs|
    ensures Possible(evs[..i], capacity)
    ensures i < |evs| ==> Enabled(After(evs[..i], capacity), evs[i])
  {
    if i == |evs| {
      assert evs[..i] == evs;
    } else {
      var before := evs[..|evs| - 1];
      PossiblePrefix(before, capacity, i);
      assert before[..i] == evs[..i];
      if i == |evs| - 1 { assert before == evs[..i]; }
    }
  }

  ghost function At(evs: seq<Event>, capacity: nat, i: nat): State
    requires Possible(evs, capacity) && i <= |evs|
  {
    PossiblePrefix(evs, capacity, i);
    After(evs[..i], capacity)
  }

  lemma HeldStep(s: State, e: Event, capacity: nat, h: nat)
    requires Enabled(s, e) && h in s.held && e != Release(h)
    ensures h in Next(s, e, capacity).held && Next(s, e, capacity).held[h] == s.held[h]
  {
  }

  lemma AtStep(evs: seq<Event>, capacity: nat, j: nat)
    requires Possible(evs, capacity) && 0 < j <= |evs|
    ensures Enabled(At(evs, capacity, j - 1), evs[j - 1])
    ensures At(evs, capacity, j) == Next(At(evs, capacity, j - 1), evs[j - 1], capacity)
  {
    PossiblePrefix(evs, capacity, j - 1);
    PossiblePrefix(evs, capacity, j);
    assert evs[..j][..j - 1] == evs[..j - 1];
  }

  lemma {:induction false} HeldUntilReleased(evs: seq<Event>, capacity: nat, i: nat, j: nat, h: nat)
    requires Possible(evs, capacity) && i <= j <= |evs| && h in At(evs, capacity, i).held
    requires forall k :: i <= k < j ==> evs[k] != Release(h)
    ensures h in At(evs, capacity, j).held && At(evs, capacity, j).held[h] == At(evs, capacity, i).held[h]
    decreases j
  {
    if i < j {
      HeldUntilReleased(evs, capacity, i, j - 1, h);
      AtStep(evs, capacity, j);
      HeldStep(At(evs, capacity, j - 1), evs[j - 1], capacity, h);
    }
  }

  lemma HeldBlocks(s: State, h: nat)
    requires Counted(s) && h in s.held
    ensures Count(s, s.held[h]) > 0
  {
    assert h in Holders(s, s.held[h]);
  }

  /** A wait that is passed, or a slot that is acquired, after another was seen held was
      passed only after that one's release. */
  lemma NoPassWhileHeld(evs: seq<Event>, capacity: nat, i: nat, j: nat, h: nat, ref: string)
    requires Possible(evs, capacity) && i <= j < |evs|
    requires h in At(evs, capacity, i).held && At(evs, capacity, i).held[h] == ref
    requires evs[j] == Pass(ref) || (evs[j].Acquire? && evs[j].ref == ref)
    ensures exists k :: i <= k < j && evs[k] == Release(h)
  {
    if forall k :: i <= k < j ==> evs[k] != Release(h) {
      PossiblePrefix(evs, capacity, j);
      Always(evs[..j], capacity);
      HeldUntilReleased(evs, capacity, i, j, h);
      HeldBlocks(At(evs, capacity, j), h);
    }
  }

  // ---- The coordinator's part ----

  class Coordinator {
    var inflight: map<string, nat>
    var group: nat
    var queue: seq<nat>
    var closed: bool
    const capacity: nat
    ghost var gone: bool
    ghost var returned: bool
    ghost var busy: Option<nat>
    ghost var tasks: map<nat, Task>
    ghost var held: map<nat, string>
    ghost var history: seq<Event>

    ghost function Abs(): State
      reads this
    {
      State(inflight, group, queue, closed, gone, returned, busy, tasks, held)
    }

    /** The coordinator is where its history leads. */
    ghost predicate Valid()
      reads this
    {
      Possible(history, capacity) && After(history, capacity) == Abs()
    }

    constructor (queueLen: int)
      ensures Valid() && history == [] && capacity == if queueLen <= 0 then 128 else queueLen
    {
      capacity := if queueLen <= 0 then 128 else queueLen;
      inflight, group, queue, closed := map[], 0, [], false;
      gone, returned, busy, tasks, held, history := false, false, None, map[], map[], [];
    }

    ghost method Happened(e: Event, was: State)
      requires Possible(history, capacity) && After(history, capacity) == was && Enabled(was, e)
      requires Abs() == Next(was, e, capacity)
      modifies this`history
      ensures Valid() && history == old(history) + [e]
    {
      Extended(history, capacity, e);
      history := history + [e];
    }

    method Increment(ref: string)
      modifies this`inflight
      ensures inflight == Up(old(inflight), ref)
    {
      inflight := inflight[ref := (if ref in inflight then inflight[ref] else 0) + 1];
    }

    method Decrement(ref: string)
      requires ref in inflight
      modifies this`inflight
      ensures inflight == Down(old(inflight), ref)
    {
      if inflight[ref] <= 1 {
        inflight := inflight - {ref};
      } else {
        inflight := inflight[ref := inflight[ref] - 1];
      }
    }

    /** First part of an enqueue: the work is counted. */
    method BeginTask(id: nat, ref: string)
      requires Valid() && Enabled(Abs(), Begin(id, ref))
      modifies this
      ensures Valid() && history == old(history) + [Begin(id, ref)]
    {
      ghost var was := Abs();
      Increment(ref);
      tasks := tasks[id := Task(ref, Begun)];
      Happened(Begin(id, ref), was);
    }

    /** Then it joins the wait group, under no common lock. */
    method JoinTask(id: nat)
      requires Valid() && Enabled(Abs(), Join(id))
      modifies this
      ensures Valid() && history == old(history) + [Join(id)]
    {
      ghost var was := Abs();
      group := group + 1;
      tasks := tasks[id := Task(tasks[id].ref, Joined)];
      Happened(Join(id), was);
    }

    /** Last part: to the queue, or to the caller when it is full or closed. */
    method PlaceTask(id: nat) returns (inline: bool)
      requires Valid() && Enabled(Abs(), Place(id))
      modifies this
      ensures Valid() && history == old(history) + [Place(id)]
      ensures inline <==> old(closed) || |old(queue)| >= capacity
    {
      ghost var was := Abs();
      inline := closed || |queue| >= capacity;
      if !inline { queue := queue + [id]; }
      tasks := tasks[id := Task(tasks[id].ref, if inline then Inline else Queued)];
      Happened(Place(id), was);
    }

    /** A task's deferred bookkeeping: it is no longer counted. */
    method SettleTask(id: nat, ref: string)
      requires Valid() && Enabled(Abs(), Settle(id)) && tasks[id].ref == ref
      modifies this
      ensures Valid() && history == old(history) + [Settle(id)]
    {
      ghost var was := Abs();
      Always(history, capacity);
      assert id in Pending(was, ref);
      Decrement(ref);
      tasks := tasks[id := Task(ref, Settled(tasks[id].stage.byWorker))];
      Happened(Settle(id), was);
    }

    /** And then leaves the wait group. */
    method FinishTask(id: nat)
      requires Valid() && Enabled(Abs(), Finish(id))
      modifies this
      ensures Valid() && history == old(history) + [Finish(id)]
    {
      ghost var was := Abs();
      Always(history, capacity);
      assert id in Waited(was);
      group := group - 1;
      busy := if tasks[id].stage.byWorker then None else busy;
      tasks := tasks[id := Task(tasks[id].ref, Done)];
      Happened(Finish(id), was);
    }

    /** One look of a waiting repair at the counter: it takes the slot at zero. */
    method TryExclusive(holder: nat, ref: string) returns (ok: bool)
      requires Valid() && holder !in held
      modifies this
      ensures Valid() && (ok <==> Count(old(Abs()), ref) == 0)
      ensures ok ==> history == old(history) + [Acquire(holder, ref)]
      ensures !ok ==> Abs() == old(Abs()) && history == old(history)
    {
      ghost var was := Abs();
      ok := ref !in inflight || inflight[ref] == 0;
      if ok {
        Increment(ref);
        held := held[holder := ref];
        Happened(Acquire(holder, ref), was);
      }
    }

    method ReleaseKey(holder: nat, ref: string)
      requires Valid() && holder in held && held[holder] == ref
      modifies this
      ensures Valid() && history == old(history) + [Release(holder)]
    {
      ghost var was := Abs();
      Always(history, capacity);
      HeldBlocks(was, holder);
      Decrement(ref);
      held := held - {holder};
      Happened(Release(holder), was);
    }

    /** The start of a shutdown; a second one returns at once. */
    method CloseQueue() returns (first: bool)
      requires Valid()
      modifies this
      ensures Valid() && (first <==> !old(closed))
      ensures history == old(history) + if first then [Close] else []
    {
      ghost var was := Abs();
      first := !closed;
      if first {
        closed := true;
        Happened(Close, was);
      }
    }

    /** One look of a shutdown at the wait group, after the worker left. */
    method TryReturn() returns (ok: bool)
      requires Valid() && gone && !returned
      modifies this
      ensures Valid() && (ok <==> old(group) == 0)
      ensures history == old(history) + if ok then [CloseReturns] else []
    {
      ghost var was := Abs();
      ok := group == 0;
      if ok {
        returned := true;
        Happened(CloseReturns, was);
      }
    }

    /** The backlog: everything unfinished and every held slot. */
    method QueueDepth() returns (total: nat)
      requires Valid()
      ensures total == |Unfinished(Abs(), inflight.Keys)| + |Holding(Abs(), inflight.Keys)|
      ensures forall id :: id in tasks && Counts(tasks[id].stage) ==> id in Unfinished(Abs(), inflight.Keys)
      ensures forall h :: h in held ==> h in Holding(Abs(), inflight.Keys)
    {
      Always(history, capacity);
      total := 0;
      var keys := inflight.Keys;
      while keys != {}
        invariant keys <= inflight.Keys
        invariant total == |Unfinished(Abs(), inflight.Keys - keys)| + |Holding(Abs(), inflight.Keys - keys)|
      {
        var ref :| ref in keys;
        DepthStep(Abs(), inflight.Keys - keys, ref);
        assert inflight.Keys - (keys - {ref}) == inflight.Keys - keys + {ref};
        total := total + inflight[ref];
        keys := keys - {ref};
      }
      assert inflight.Keys - {} == inflight.Keys;
      DepthAll(Abs());
    }
  }

  ghost function Unfinished(s: State, refs: set<string>): set<nat> {
    set id | id in s.tasks && s.tasks[id].ref in refs && Counts(s.tasks[id].stage)
  }

  ghost function Holding(s: State, refs: set<string>): set<nat> {
    set h | h in s.held && s.held[h] in refs
  }

  lemma DepthStep(s: State, refs: set<string>, ref: string)
    requires Counted(s) && ref !in refs && ref in s.inflight
    ensures |Unfinished(s, refs + {ref})| + |Holding(s, refs + {ref})| == |Unfinished(s, refs)| + |Holding(s,
      refs)| + s.inflight[ref]
  {
    assert Unfinished(s, refs + {ref}) == Unfinished(s, refs) + Pending(s, ref);
    assert Holding(s, refs + {ref}) == Holding(s, refs) + Holders(s, ref);
    assert Unfinished(s, refs) !! Pending(s, ref) && Holding(s, refs) !! Holders(s, ref);
    assert Count(s, ref) == s.inflight[ref];
  }

  lemma DepthAll(s: State)
    requires Counted(s)
    ensures forall id :: id in s.tasks && Counts(s.tasks[id].stage) ==> id in Unfinished(s, s.inflight.Keys)
    ensures forall h :: h in s.held ==> h in Holding(s, s.inflight.Keys)
  {
    forall id | id in s.tasks && Counts(s.tasks[id].stage)
      ensures s.tasks[id].ref in s.inflight
    {
      assert id in Pending(s, s.tasks[id].ref);
    }
    forall h | h in s.held
      ensures s.held[h] in s.inflight
    {
      assert h in Holders(s, s.held[h]);
    }
  }
}
