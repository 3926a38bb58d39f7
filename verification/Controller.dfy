/**
 The rebalance controller of one node: start, pause and resume by the operator against
 runner goroutines that campaign, walk and exit in their own time. Every critical section
 of its mutex is one event; a run of the controller is any sequence of enabled events.
 */
module Controller {

  datatype Phase = Idle | Waiting | Running | Paused | Finished | Failed

  /** A runner campaigns until it is elected, then walks. */
  datatype Runner = Campaigning | Walking

  datatype Outcome = Repaired | Moved | Errored

  datatype State = State(
    phase: Phase,
    gen: nat,
    pauseRequested: bool,
    objects: nat,
    relocated: nat,
    failed: nat,
    finished: bool,
    runners: map<nat, Runner>)

  datatype Event =
    | Launch(resume: bool)
    | Pause
    | Elect(gen: nat)
    | Progress(gen: nat, outcome: Outcome)
    | Exit(gen: nat, err: bool)

  const INIT := State(Idle, 0, false, 0, 0, 0, false, map[])

  /** Runner events need a live runner in the right stage; operator events come any time. */
  predicate Enabled(s: State, e: Event) {
    match e
    case Launch(_) => true
    case Pause => true
    case Elect(g) => g in s.runners && s.runners[g] == Campaigning
    case Progress(g, _) => g in s.runners && s.runners[g] == Walking
    case Exit(g, _) => g in s.runners
  }

  predicate InProgress(s: State) {
    s.phase == Waiting || s.phase == Running
  }

  /** The operator's request conflicts with the current state and changes nothing. */
  predicate Refused(s: State, e: Event) {
    match e
    case Launch(resume) => InProgress(s) || (resume && s.phase != Paused)
    case Pause => !InProgress(s)
    case _ => false
  }

  function Next(s: State, e: Event): State
    requires Enabled(s, e)
  {
    if Refused(s, e) then s else
    match e
    case Launch(_) => State(Waiting, s.gen + 1, false, 0, 0, 0, false, s.runners[s.gen + 1 := Campaigning])
    case Pause => s.(pauseRequested := true, phase := Paused)
    case Elect(g) =>
      var t := s.(runners := s.runners[g := Walking]);
      if s.gen == g && !s.pauseRequested then t.(phase := Running) else t
    case Progress(g, o) =>
      if s.gen != g then s
      else s.(objects := s.objects + 1,
              failed := s.failed + (if o == Errored then 1 else 0),
              relocated := s.relocated + (if o == Moved then 1 else 0))
    case Exit(g, err) =>
      var t := s.(runners := s.runners - {g});
      if s.gen != g then t
      else if s.pauseRequested then t.(finished := true)
      else t.(finished := true, phase := if err then Failed else Finished)
  }

  // ---- Runs ----

  ghost predicate Possible(evs: seq<Event>)
    decreases |evs|, 0
  {
    evs == [] || (Possible(evs[..|evs| - 1]) && Enabled(After(evs[..|evs| - 1]), evs[|evs| - 1]))
  }

  ghost function After(evs: seq<Event>): State
    requires Possible(evs)
    decreases |evs|, 1
  {
    if evs == [] then INIT else Next(After(evs[..|evs| - 1]), evs[|evs| - 1])
  }

  lemma Extended(evs: seq<Event>, e: Event)
    requires Possible(evs) && Enabled(After(evs), e)
    ensures Possible(evs + [e]) && After(evs + [e]) == Next(After(evs), e)
  {
    assert (evs + [e])[..|evs|] == evs;
  }

  /** The current run's runner is live. */
  predicate Live(s: State) {
    s.gen in s.runners
  }

  ghost predicate Invariant(s: State) {
    && (InProgress(s) <==> Live(s) && !s.pauseRequested)
    && (s.phase == Running ==> s.runners[s.gen] == Walking)
    && (s.phase == Waiting ==> s.runners[s.gen] == Campaigning)
    && (s.phase == Paused <==> s.pauseRequested)
    && (s.finished <==> s.gen > 0 && !Live(s))
    && (s.phase == Idle <==> s.gen == 0)
    && (forall g :: g in s.runners ==> 0 < g <= s.gen)
    && s.relocated + s.failed <= s.objects
  }

  /** Waiting or running exactly while the current runner is live and not asked to pause;
      paused exactly while a pause stands, whatever the runners do. */
  lemma {:induction false} Always(evs: seq<Event>)
    requires Possible(evs)
    ensures Invariant(After(evs))
  {
    if evs != [] { Always(evs[..|evs| - 1]); }
  }

  /** A runner of a superseded run changes no state and no counter. */
  lemma SupersededSilent(evs: seq<Event>, e: Event)
    requires Possible(evs) && Enabled(After(evs), e) && (e.Elect? || e.Progress? || e.Exit?)
    requires e.gen != After(evs).gen
    ensures Next(After(evs), e).(runners := After(evs).runners) == After(evs)
    ensures e.gen < After(evs).gen
  {
    Always(evs);
  }

  /** The state after the first `i` events. */
  ghost function At(evs: seq<Event>, i: nat): State
    requires Possible(evs) && i <= |evs|
  {
    PossiblePrefix(evs, i);
    After(evs[..i])
  }

  /** An operator's start or resume that is not refused. */
  ghost predicate Launches(evs: seq<Event>, i: nat)
    requires Possible(evs) && i < |evs|
  {
    evs[i].Launch? && !Refused(At(evs, i), evs[i])
  }

  lemma {:induction false} PossiblePrefix(evs: seq<Event>, i: nat)
    requires Possible(evs) && i <= |evs|
    ensures Possible(evs[..i])
    ensures i < |evs| ==> Enabled(After(evs[..i]), evs[i])
  {
    if i == |evs| {
      assert evs[..i] == evs;
    } else {
      var before := evs[..|evs| - 1];
      PossiblePrefix(before, i);
      assert before[..i] == evs[..i];
      if i == |evs| - 1 { assert before == evs[..i]; }
    }
  }

  /** Paused stays paused until an explicit start or resume. */
  lemma {:induction false} PausePersists(evs: seq<Event>, i: nat)
    requires Possible(evs) && i <= |evs| && At(evs, i).phase == Paused
    requires forall k :: i <= k < |evs| ==> !Launches(evs, k)
    ensures After(evs).phase == Paused
    ensures After(evs).gen == At(evs, i).gen
  {
    PossiblePrefix(evs, i);
    if i == |evs| {
      assert evs[..i] == evs;
    } else {
      var n := |evs| - 1;
      var before := evs[..n];
      PossiblePrefix(evs, n);
      assert before[..i] == evs[..i];
      forall k | i <= k < n
        ensures !Launches(before, k)
      {
        assert before[..k] == evs[..k];
        assert !Launches(evs, k);
      }
      PausePersists(before, i);
      Always(before);
      assert !Launches(evs, n);
    }
  }

  // ---- Counters ----

  /** Objects a given run reported. */
  function Reported(evs: seq<Event>, g: nat): nat {
    if evs == [] then 0
    else
      var e := evs[|evs| - 1];
      Reported(evs[..|evs| - 1], g) + if e.Progress? && e.gen == g then 1 else 0
  }

  /** Nothing was reported by a run that has not begun. */
  lemma {:induction false} ReportedLater(evs: seq<Event>, g: nat)
    requires Possible(evs) && g > After(evs).gen
    ensures Reported(evs, g) == 0
  {
    if evs != [] {
      var before := evs[..|evs| - 1];
      Always(before);
      ReportedLater(before, g);
    }
  }

  /** The counter is exactly what the current run's own runner reported. */
  lemma {:induction false} CounterExact(evs: seq<Event>)
    requires Possible(evs)
    ensures After(evs).objects == Reported(evs, After(evs).gen)
  {
    if evs != [] {
      var before, e := evs[..|evs| - 1], evs[|evs| - 1];
      CounterExact(before);
      Always(before);
      if e.Launch? && !Refused(After(before), e) { ReportedLater(before, After(evs).gen); }
      if After(before).gen == 0 { ReportedNone(before); }
    }
  }

  lemma {:induction false} ReportedNone(evs: seq<Event>)
    requires Possible(evs)
    ensures Reported(evs, 0) == 0
  {
    if evs != [] {
      Always(evs[..|evs| - 1]);
      ReportedNone(evs[..|evs| - 1]);
    }
  }

  // ---- The controller ----

  class RebalanceController {
    var phase: Phase
    var gen: nat
    var pauseRequested: bool
    var objects: nat
    var relocated: nat
    var failed: nat
    var finished: bool
    ghost var runners: map<nat, Runner>
    ghost var history: seq<Event>

    ghost function Abs(): State
      reads this
    {
      State(phase, gen, pauseRequested, objects, relocated, failed, finished, runners)
    }

    /** The controller is where its history leads. */
    ghost predicate Valid()
      reads this
    {
      Possible(history) && After(history) == Abs()
    }

    constructor ()
      ensures Valid() && history == []
    {
      phase, gen, pauseRequested := Idle, 0, false;
      objects, relocated, failed, finished := 0, 0, 0, false;
      runners, history := map[], [];
    }

    ghost method Happened(e: Event, was: State)
      requires Possible(history) && After(history) == was && Enabled(was, e) && Abs() == Next(was, e)
      modifies this`history
      ensures Valid() && history == old(history) + [e]
    {
      Extended(history, e);
      history := history + [e];
    }

    method LaunchRun(resume: bool) returns (ok: bool)
      requires Valid()
      modifies this
      ensures Valid() && history == old(history) + [Launch(resume)]
      ensures ok <==> !Refused(old(Abs()), Launch(resume))
    {
      ghost var was := Abs();
      if phase == Waiting || phase == Running || (resume && phase != Paused) {
        ok := false;
      } else {
        ok := true;
        phase, gen, pauseRequested := Waiting, gen + 1, false;
        objects, relocated, failed, finished := 0, 0, 0, false;
        runners := runners[gen := Campaigning];
      }
      Happened(Launch(resume), was);
    }

    method PauseRun() returns (ok: bool)
      requires Valid()
      modifies this
      ensures Valid() && history == old(history) + [Event.Pause]
      ensures ok <==> !Refused(old(Abs()), Event.Pause)
    {
      ghost var was := Abs();
      ok := phase == Waiting || phase == Running;
      if ok { pauseRequested, phase := true, Paused; }
      Happened(Event.Pause, was);
    }

    /** The runner won the election and loaded the cursor. */
    method Elected(g: nat)
      requires Valid() && Enabled(Abs(), Elect(g))
      modifies this
      ensures Valid() && history == old(history) + [Elect(g)]
    {
      ghost var was := Abs();
      if gen == g && !pauseRequested { phase := Running; }
      runners := runners[g := Walking];
      Happened(Elect(g), was);
    }

    method OnObject(g: nat, o: Outcome)
      requires Valid() && Enabled(Abs(), Progress(g, o))
      modifies this
      ensures Valid() && history == old(history) + [Progress(g, o)]
    {
      ghost var was := Abs();
      if gen == g {
        objects := objects + 1;
        if o == Errored { failed := failed + 1; } else if o == Moved { relocated := relocated + 1; }
      }
      Happened(Progress(g, o), was);
    }

    /** The runner goroutine settles the state as it ends. */
    method RunnerExit(g: nat, err: bool)
      requires Valid() && Enabled(Abs(), Exit(g, err))
      modifies this
      ensures Valid() && history == old(history) + [Exit(g, err)]
    {
      ghost var was := Abs();
      runners := runners - {g};
      if gen == g {
        finished := true;
        if !pauseRequested { phase := if err then Failed else Finished; }
      }
      Happened(Exit(g, err), was);
    }
  }
}
