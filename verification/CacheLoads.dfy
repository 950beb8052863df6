/** Whose load it was: what a get that may not use the cache returns, and which loads end
    in the cache, in terms of the events of a run. */
module CacheLoads {
  import opened Text
  import opened CacheKey
  import opened CacheCore
  import opened CacheSystem
  import opened CacheInvariant
  import opened CacheEffects

  /** The step was the start of this task's load. */
  predicate LoadStartedBy(events: seq<Event>, step: nat, i: nat) {
    step < |events| && events[step].StartLoad? && events[step].task == i
  }

  predicate ChildLoaded(tasks: seq<Task>, events: seq<Event>, step: nat, i: nat) {
    exists c: nat :: c < |tasks| && tasks[c].parent == Some(i) && LoadStartedBy(events, step, c)
  }

  /** Every read in the value was made by this get's own load, the usage part of a resource
      value by the load of the get that it called itself. */
  predicate ReadsItself(tasks: seq<Task>, events: seq<Event>, i: nat, v: Value) {
    match v
    case Native(u) => LoadStartedBy(events, u.load, i)
    case Query(q) => LoadStartedBy(events, q.load, i)
    case Resource(u, _, c) => ChildLoaded(tasks, events, u.load, i) && (c.Some? ==> LoadStartedBy(events, c.value.load, i))
  }

  predicate OwnSoFar(tasks: seq<Task>, events: seq<Event>, i: nat)
    requires i < |tasks|
  {
    match tasks[i].phase
    case Loading(Querying(began)) => LoadStartedBy(events, began, i)
    case Loading(Fetching(_, load)) => LoadStartedBy(events, load, i)
    case Loading(Crediting(usage, _, load, _)) => LoadStartedBy(events, load, i) && ChildLoaded(tasks, events, usage.load, i)
    case Loading(Done(load)) => load.outcome.Ok? ==> ReadsItself(tasks, events, i, load.outcome.value)
    case Returned(outcome, _) => outcome.Ok? ==> ReadsItself(tasks, events, i, outcome.value)
    case _ => true
  }

  predicate UpstreamAnswered(events: seq<Event>, i: nat) {
    exists n | 0 <= n < |events| :: (events[n].ReadReturns? && events[n].task == i && events[n].ok) || (events[n].CreditsReturn? && events[n].task == i)
  }

  /** The load of this task came back with something that may be cached: a native read, a
      query that its caller calls cacheable, or usage together with its credits. */
  predicate CameBackCacheable(events: seq<Event>, i: nat, kind: Kind) {
    exists n | 0 <= n < |events| ::
      || (events[n].ReadReturns? && events[n].task == i && events[n].ok && (kind == CodexNative || events[n].cacheable))
      || (events[n].CreditsReturn? && events[n].task == i && events[n].ok)
  }

  /** A load is over when its upstream has answered, and its result is what the answer was. */
  predicate EndsAsAnswered(task: Task, events: seq<Event>, i: nat) {
    match task.phase
    case Loading(Done(load)) =>
      && (load.outcome.Ok? <==> UpstreamAnswered(events, i))
      && (load.outcome.Ok? && load.cacheable <==> CameBackCacheable(events, i, task.key.kind))
    case Returned(_, _) => true
    case _ => !UpstreamAnswered(events, i)
  }

  ghost predicate Accounted(s: State, events: seq<Event>) {
    && s.step == |events|
    && (forall e | e in events && (e.ReadReturns? || e.CreditsReturn?) :: e.task < |s.tasks|)
    && (forall i | 0 <= i < |s.tasks| :: EndsAsAnswered(s.tasks[i], events, i))
    && (forall i | 0 <= i < |s.tasks| && !MayBeCached(s.ttl, s.tasks[i].key) :: OwnSoFar(s.tasks, events, i))
  }

  /** Tasks are only added, and keep their parents. */
  predicate Keeps(tasks: seq<Task>, tasks': seq<Task>) {
    |tasks| <= |tasks'| && forall c | 0 <= c < |tasks| :: tasks'[c].parent == tasks[c].parent && tasks'[c].key == tasks[c].key
  }

  lemma OwnStays(tasks: seq<Task>, tasks': seq<Task>, events: seq<Event>, e: Event, i: nat)
    requires Keeps(tasks, tasks') && i < |tasks| && tasks'[i].phase == tasks[i].phase && OwnSoFar(tasks, events, i)
    ensures OwnSoFar(tasks', events + [e], i)
  {
    ValuesStay(tasks, tasks', events, e);
    hide ReadsItself, ChildLoaded;
  }

  lemma ValuesStay(tasks: seq<Task>, tasks': seq<Task>, events: seq<Event>, e: Event)
    requires Keeps(tasks, tasks')
    ensures forall step: nat, i: nat | LoadStartedBy(events, step, i) :: LoadStartedBy(events + [e], step, i)
    ensures forall step: nat, i: nat | ChildLoaded(tasks, events, step, i) :: ChildLoaded(tasks', events + [e], step, i)
    ensures forall v: Value, i: nat | ReadsItself(tasks, events, i, v) :: ReadsItself(tasks', events + [e], i, v)
  {
    forall step: nat, i: nat | LoadStartedBy(events, step, i)
      ensures LoadStartedBy(events + [e], step, i)
    {
    }
    hide LoadStartedBy;
    forall step: nat, i: nat | ChildLoaded(tasks, events, step, i)
      ensures ChildLoaded(tasks', events + [e], step, i)
    {
      var c: nat :| c < |tasks| && tasks[c].parent == Some(i) && LoadStartedBy(events, step, c);
      assert tasks'[c].parent == Some(i) && LoadStartedBy(events + [e], step, c);
    }
    hide ChildLoaded;
  }

  lemma StepKeepsTasks(s: State, e: Event)
    requires WellFormed(s) && Enabled(s, e)
    ensures Keeps(s.tasks, Next(s, e).tasks) && Next(s, e).step == s.step + 1 && Next(s, e).ttl == s.ttl
    ensures forall i | 0 <= i < |s.tasks| && i != Mover(s, e) :: Next(s, e).tasks[i] == s.tasks[i]
  {
    hide WellFormed, Extends, Lookup, Finish, FinishVictim;
    StepKeepsWellFormed(s, e);
    assert Next(s, e).step == s.step + 1;
    var t := Mover(s, e);
    hide Next, Enabled, FlightGrows;
    assert t < |s.tasks| ==> TaskGrows(s, Next(s, e), t);
  }

  // ------------------------------------------------------------------ own loads

  lemma FlightsAreCached(s: State, t: nat)
    requires WellFormed(s) && t < |s.tasks|
    ensures s.tasks[t].flight.Some? ==> MayBeCached(s.ttl, s.tasks[t].key)
  {
    hide Consistent;
    if s.tasks[t].flight.Some? {
      assert TaskOk(s, t);
      assert FlightOk(s, s.tasks[t].flight.value);
    }
  }

  /** A get that may not use the cache never waits, and reads everything itself. */
  lemma MoverReadsItself(s: State, e: Event, events: seq<Event>, t: nat)
    requires WellFormed(s) && Accounted(s, events) && Enabled(s, e)
    requires t == Mover(s, e) && t < |s.tasks| && !MayBeCached(s.ttl, s.tasks[t].key)
    ensures t < |Next(s, e).tasks| && OwnSoFar(Next(s, e).tasks, events + [e], t)
  {
    var s' := Next(s, e);
    StepKeepsTasks(s, e);
    ValuesStay(s.tasks, s'.tasks, events, e);
    assert TaskOk(s, t) && OwnSoFar(s.tasks, events, t);
    assert e.StartLoad? ==> LoadStartedBy(events + [e], |events|, t);
    FlightsAreCached(s, t);
    match e
    case Begin(_) =>
      BeginExactly(s, t);
      hide Next, WellFormed, TaskOk, ReadsItself, ChildLoaded;
    case ChildReturned(_) => ResumerReadsItself(s, events, t);
    case _ =>
      hide WellFormed, Consistent, FlightOk, ChildLoaded, LoadStartedBy, Finish, FinishVictim, Lookup;
  }

  lemma ResumerReadsItself(s: State, events: seq<Event>, t: nat)
    requires WellFormed(s) && Accounted(s, events) && Enabled(s, ChildReturned(t))
    requires !MayBeCached(s.ttl, s.tasks[t].key)
    ensures var s', e := Next(s, ChildReturned(t)), ChildReturned(t);
            t < |s'.tasks| && OwnSoFar(s'.tasks, events + [e], t)
  {
    var e := ChildReturned(t);
    var s' := Next(s, e);
    StepKeepsTasks(s, e);
    ValuesStay(s.tasks, s'.tasks, events, e);
    assert TaskOk(s, t) && OwnSoFar(s.tasks, events, t);
    var c := s.tasks[t].phase.progress.child;
    assert !MayBeCached(s.ttl, s.tasks[c].key);
    assert OwnSoFar(s.tasks, events, c);
    hide WellFormed, Consistent, FlightOk, TaskOk, MayBeCached, Accounted;
    var phase := s.tasks[c].phase;
    if phase.outcome.Ok? && phase.outcome.value.Native? {
      assert ReadsItself(s.tasks, events, c, phase.outcome.value);
      assert ChildLoaded(s.tasks, events, phase.outcome.value.usage.load, t);
    }
    hide ChildLoaded, LoadStartedBy, ReadsItself;
  }

  // ------------------------------------------------------------------ load ends

  lemma OneMoreAnswer(events: seq<Event>, e: Event, i: nat, kind: Kind)
    ensures UpstreamAnswered(events + [e], i) <==>
            UpstreamAnswered(events, i) || (e.ReadReturns? && e.task == i && e.ok) || (e.CreditsReturn? && e.task == i)
    ensures CameBackCacheable(events + [e], i, kind) <==>
            || CameBackCacheable(events, i, kind)
            || (e.ReadReturns? && e.task == i && e.ok && (kind == CodexNative || e.cacheable))
            || (e.CreditsReturn? && e.task == i && e.ok)
    ensures CameBackCacheable(events, i, kind) ==> UpstreamAnswered(events, i)
  {
    var more := events + [e];
    assert more[|events|] == e;
    assert forall n | 0 <= n < |events| :: more[n] == events[n];
  }

  predicate IsDone(phase: Phase) {
    phase.Loading? && phase.progress.Done?
  }

  /** How a step can move a task as far as the end of its load goes. */
  predicate MovesTowardsEnd(old': Task, new': Task, e: Event, i: nat) {
    && new'.key == old'.key
    && (if e.ReadReturns? && e.task == i then
          && !IsDone(old'.phase) && !old'.phase.Returned? && IsDone(new'.phase)
          && (new'.phase.progress.load.outcome.Ok? <==> e.ok)
          && (e.ok ==> (new'.phase.progress.load.cacheable <==> new'.key.kind == CodexNative || e.cacheable))
        else if e.CreditsReturn? && e.task == i then
          && !IsDone(old'.phase) && !old'.phase.Returned? && IsDone(new'.phase)
          && new'.phase.progress.load.outcome.Ok? && new'.phase.progress.load.cacheable == e.ok
        else
          || new'.phase == old'.phase || new'.phase.Returned?
          || (&& !IsDone(old'.phase) && !old'.phase.Returned?
              && (IsDone(new'.phase) ==> new'.phase.progress.load.outcome.Err?)))
  }

  lemma StepMovesTowardsEnd(s: State, e: Event, i: nat)
    requires Enabled(s, e) && i < |s.tasks| && i < |Next(s, e).tasks|
    ensures MovesTowardsEnd(s.tasks[i], Next(s, e).tasks[i], e, i)
  {
    hide Lookup, Finish, FinishVictim;
  }

  lemma StepEndsAsAnswered(s: State, e: Event, events: seq<Event>, i: nat)
    requires WellFormed(s) && Accounted(s, events) && Enabled(s, e) && i < |Next(s, e).tasks|
    ensures EndsAsAnswered(Next(s, e).tasks[i], events + [e], i)
  {
    hide WellFormed;
    var s' := Next(s, e);
    OneMoreAnswer(events, e, i, s'.tasks[i].key.kind);
    if i < |s.tasks| {
      assert EndsAsAnswered(s.tasks[i], events, i);
      StepMovesTowardsEnd(s, e, i);
    } else {
      NewTaskIsIdle(s, e, i);
      AnswersAreForTasks(s, e);
      assert !UpstreamAnswered(events, i);
    }
    hide UpstreamAnswered, CameBackCacheable, Next, Enabled, Accounted;
  }

  lemma AnswersAreForTasks(s: State, e: Event)
    requires Enabled(s, e)
    ensures e.ReadReturns? || e.CreditsReturn? ==> e.task < |s.tasks|
  {
  }

  lemma StepAccounts(s: State, e: Event, events: seq<Event>)
    requires WellFormed(s) && Accounted(s, events) && Enabled(s, e)
    ensures Accounted(Next(s, e), events + [e])
  {
    var s', t := Next(s, e), Mover(s, e);
    StepKeepsTasks(s, e);
    forall i | 0 <= i < |s'.tasks|
      ensures EndsAsAnswered(s'.tasks[i], events + [e], i)
    {
      StepEndsAsAnswered(s, e, events, i);
    }
    forall i | 0 <= i < |s'.tasks| && !MayBeCached(s'.ttl, s'.tasks[i].key)
      ensures OwnSoFar(s'.tasks, events + [e], i)
    {
      if i < |s.tasks| {
        if i == t {
          MoverReadsItself(s, e, events, t);
        } else {
          OwnStays(s.tasks, s'.tasks, events, e, i);
        }
      } else {
        NewTaskIsIdle(s, e, i);
      }
    }
    hide EndsAsAnswered, OwnSoFar, Next, WellFormed, MayBeCached;
  }

  lemma NewTaskIsIdle(s: State, e: Event, i: nat)
    requires Enabled(s, e) && |s.tasks| <= i < |Next(s, e).tasks|
    ensures Next(s, e).tasks[i].phase == Calling
  {
    hide Lookup, Finish, FinishVictim;
  }

  lemma {:induction false} RunAccounts(s: State, past: seq<Event>, events: seq<Event>)
    requires WellFormed(s) && Accounted(s, past) && ValidFrom(s, events)
    ensures WellFormed(Run(s, events)) && Accounted(Run(s, events), past + events)
    decreases |events|
  {
    hide WellFormed, Accounted, Next, Enabled, Grows, Extends;
    if events == [] {
      assert past + events == past;
    } else {
      StepKeepsWellFormed(s, events[0]);
      StepAccounts(s, events[0], past);
      RunAccounts(Next(s, events[0]), past + [events[0]], events[1..]);
      assert past + [events[0]] + events[1..] == past + events;
    }
  }

  lemma RunIsAccounted(ttl: int, now: int, events: seq<Event>)
    requires ValidFrom(Init(ttl, now), events)
    ensures WellFormed(Run(Init(ttl, now), events)) && Accounted(Run(Init(ttl, now), events), events)
  {
    InitWellFormed(ttl, now);
    RunAccounts(Init(ttl, now), [], events);
    assert [] + events == events;
  }

  // ----------------------------------------------------------------- theorems

  /** In every run a get that may not use the cache, such as one with a blank auth index,
      returns nothing but what its own load read, with the get that load called. */
  lemma UncachedGetsReadThemselves(ttl: int, now: int, events: seq<Event>, i: nat)
    requires ValidFrom(Init(ttl, now), events)
    requires var s := Run(Init(ttl, now), events);
             && i < |s.tasks| && !MayBeCached(s.ttl, s.tasks[i].key)
             && s.tasks[i].phase.Returned? && s.tasks[i].phase.outcome.Ok?
    ensures var s := Run(Init(ttl, now), events);
            ReadsItself(s.tasks, events, i, s.tasks[i].phase.outcome.value)
  {
    RunIsAccounted(ttl, now, events);
    assert OwnSoFar(Run(Init(ttl, now), events).tasks, events, i);
  }

  /** In every run a load that finishes is stored exactly when its flight is still bound and
      its upstream came back with something that may be cached; it ends in an error exactly
      when its upstream did not answer. */
  lemma LoadsAreStoredExactly(ttl: int, now: int, events: seq<Event>, t: nat, victim: Option<Key>)
    requires ValidFrom(Init(ttl, now), events) && Enabled(Run(Init(ttl, now), events), FinishLoad(t, victim))
    ensures var s, e := Run(Init(ttl, now), events), FinishLoad(t, victim);
            var task, s' := s.tasks[t], Next(s, e);
            && (Stores(s, e, task.key) <==>
                  && task.flight.Some? && Bound(s.core, task.key, task.flight.value)
                  && CameBackCacheable(events, t, task.key.kind))
            && s'.tasks[t].phase.Returned?
            && (s'.tasks[t].phase.outcome.Ok? <==> UpstreamAnswered(events, t))
  {
    RunIsAccounted(ttl, now, events);
    var s := Run(Init(ttl, now), events);
    assert EndsAsAnswered(s.tasks[t], events, t);
    ReturnsItsLoad(s, t, victim);
    hide Next, WellFormed, Accounted, UpstreamAnswered, CameBackCacheable, FinishVictim, ValidFrom, Run;
  }
}
