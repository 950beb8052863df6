/** What every reachable state of the cache system keeps: the shape of tasks and
    flights, and the state invariant of the cache itself. */
module CacheInvariant {
  import opened Text
  import opened CacheKey
  import opened CacheCore
  import opened CacheSystem

  ghost predicate ProgressOk(s: State, i: nat)
    requires i < |s.tasks| && s.tasks[i].phase.Loading?
  {
    var t := s.tasks[i];
    match t.phase.progress
    case Unstarted => true
    case Querying(b) => t.key.kind != CodexResource && t.lookedUp < b < s.step
    case Fetching(c, load) =>
      && t.lookedUp < load < s.step
      && t.key.kind == CodexResource && i < c < |s.tasks|
      && s.tasks[c].parent == Some(i)
      && s.tasks[c].key.kind == CodexNative && SameCredential(s.tasks[c].key, t.key)
      && (s.tasks[c].LookedUp() ==> t.lookedUp < s.tasks[c].lookedUp)
    case Crediting(_, _, load, b) => t.key.kind == CodexResource && t.lookedUp < load <= b < s.step
    case Done(_) => true
  }

  ghost predicate TaskOk(s: State, i: nat)
    requires i < |s.tasks| && |s.info| == |s.core.flights|
  {
    var t := s.tasks[i];
    && (t.LookedUp() ==> t.lookedUp < s.step)
    && (t.phase.Calling? ==> t.flight.None?)
    && (t.flight.Some? ==> t.flight.value < |s.info| && s.info[t.flight.value].key == t.key)
    && (t.phase.Waiting? ==> t.flight.Some?)
    && (t.phase.Loading? ==> ProgressOk(s, i))
    && (t.phase.Loading? && t.flight.None? ==> Bypasses(s, t.key))
    && (t.phase.Loading? && t.flight.Some? ==>
          && s.info[t.flight.value].leader == i
          && s.info[t.flight.value].began == t.lookedUp
          && !s.core.flights[t.flight.value].done)
  }

  ghost predicate FlightOk(s: State, f: nat)
    requires f < |s.info| == |s.core.flights|
  {
    var info := s.info[f];
    && info.began < s.step
    && info.leader < |s.tasks|
    && !Bypasses(s, info.key)
    && (!s.core.flights[f].done ==> s.tasks[info.leader].Leads(f))
    && (forall g | f < g < |s.info| :: info.began < s.info[g].began)
  }

  ghost predicate WellFormed(s: State) {
    && |s.info| == |s.core.flights|
    && Consistent(s.core)
    && (forall k | k in s.core.inFlight :: s.info[s.core.inFlight[k]].key == k)
    && (forall k | k in s.core.entries :: !Bypasses(s, k))
    && (forall f | 0 <= f < |s.info| :: FlightOk(s, f))
    && (forall i | 0 <= i < |s.tasks| :: TaskOk(s, i))
    && (forall n | 0 <= n < |s.resets| :: s.resets[n].at < s.step)
    && (forall c | 0 <= c < |s.consumed| ::
          && s.consumed[c].reset < |s.resets|
          && s.resets[s.consumed[c].reset].at < s.consumed[c].at < s.step)
    && (forall b | b in s.loads :: b < s.step)
    && (forall b | b in s.started :: b < s.step)
  }

  lemma InitWellFormed(ttl: int, now: int)
    ensures WellFormed(Init(ttl, now))
  {
  }

  lemma StepKeepsWellFormed(s: State, e: Event)
    requires WellFormed(s) && Enabled(s, e)
    ensures WellFormed(Next(s, e)) && Grows(s, Next(s, e), Mover(s, e)) && Extends(s, Next(s, e))
  {
    StepExtends(s, e);
    match e
    case Tick(_) => TickKeeps(s, e);
    case ConsumeReturns(_) => TickKeeps(s, e);
    case Call(_) => CallKeeps(s, e);
    case Begin(t) => BeginKeeps(s, t);
    case StartLoad(t, child) => StartLoadKeeps(s, t, child);
    case FinishLoad(t, victim) => FinishKeeps(s, t, victim);
    case ResetInvalidates(target) => InvalidateKeeps(s, target);
    case _ => PhaseChangeKeeps(s, e, e.task);
  }

  /** s' differs from s in one task at most, in flights that task leads, and by
      additions at the end. */
  ghost predicate Grows(s: State, s': State, t: nat) {
    && s'.ttl == s.ttl && s.step < s'.step
    && |s.tasks| <= |s'.tasks|
    && |s.info| == |s.core.flights| <= |s'.info| == |s'.core.flights|
    && (forall i | 0 <= i < |s.tasks| && i != t :: s'.tasks[i] == s.tasks[i])
    && (t < |s.tasks| ==> TaskGrows(s, s', t))
    && (forall f | 0 <= f < |s.info| :: FlightGrows(s, s', t, f))
    && (forall f | |s.info| <= f < |s'.info| :: s.step <= s'.info[f].began)
  }

  ghost predicate TaskGrows(s: State, s': State, t: nat)
    requires t < |s.tasks| && t < |s'.tasks|
  {
    var old', new' := s.tasks[t], s'.tasks[t];
    && new'.key == old'.key && new'.parent == old'.parent
    && (if old'.LookedUp() then new'.LookedUp() && new'.lookedUp == old'.lookedUp
        else new'.LookedUp() ==> new'.lookedUp == s.step)
  }

  ghost predicate FlightGrows(s: State, s': State, t: nat, f: nat)
    requires f < |s.info| == |s.core.flights| && |s.info| <= |s'.info| == |s'.core.flights|
    requires |s.tasks| <= |s'.tasks|
  {
    var leads := t < |s.tasks| && s.tasks[t].Leads(f);
    && s'.info[f].key == s.info[f].key
    && s'.info[f].leader == s.info[f].leader
    && s'.info[f].began == s.info[f].began
    && (s'.core.flights[f].done == s.core.flights[f].done || (leads && s'.core.flights[f].done))
    && (leads ==> s'.core.flights[f].done || s'.tasks[t].Leads(f))
  }

  /** Growth does not disturb the other tasks or the existing flights. */
  lemma GrowsKeeps(s: State, s': State, t: nat)
    requires WellFormed(s) && Grows(s, s', t)
    ensures forall i | 0 <= i < |s.tasks| && i != t :: TaskOk(s', i)
    ensures forall f | 0 <= f < |s.info| :: FlightOk(s', f)
  {
    forall i | 0 <= i < |s.tasks| && i != t
      ensures TaskOk(s', i)
    {
      var task := s.tasks[i];
      assert TaskOk(s, i);
      assert t < |s.tasks| ==> TaskOk(s, t);
      if task.flight.Some? {
        assert FlightGrows(s, s', t, task.flight.value);
      }
    }
    forall f | 0 <= f < |s.info|
      ensures FlightOk(s', f)
    {
      assert FlightOk(s, f) && FlightGrows(s, s', t, f);
      forall g | f < g < |s'.info|
        ensures s'.info[f].began < s'.info[g].began
      {
        if g < |s.info| {
          assert FlightGrows(s, s', t, g);
        }
      }
    }
  }

  lemma StepExtends(s: State, e: Event)
    requires WellFormed(s) && Enabled(s, e)
    ensures Extends(s, Next(s, e))
  {
  }

  lemma TickKeeps(s: State, e: Event)
    requires WellFormed(s) && Enabled(s, e)
    requires e.Tick? || e.ConsumeReturns?
    ensures Grows(s, Next(s, e), |s.tasks|) && WellFormed(Next(s, e))
  {
    GrowsKeeps(s, Next(s, e), |s.tasks|);
  }

  lemma CallKeeps(s: State, e: Event)
    requires WellFormed(s) && Enabled(s, e) && e.Call?
    ensures Grows(s, Next(s, e), |s.tasks|) && WellFormed(Next(s, e))
  {
    GrowsKeeps(s, Next(s, e), |s.tasks|);
    assert TaskOk(Next(s, e), |s.tasks|);
  }

  /** A step that moves one task and leaves the cache alone. */
  lemma MoveKeeps(s: State, s': State, t: nat, task: Task)
    requires WellFormed(s) && t < |s.tasks|
    requires s' == s.(tasks := s.tasks[t := task], loads := s'.loads, started := s'.started, step := s.step + 1)
    requires forall b | b in s'.loads :: b < s'.step
    requires forall b | b in s'.started :: b < s'.step
    requires TaskGrows(s, s', t)
    requires forall f: nat | s.tasks[t].Leads(f) :: task.Leads(f)
    requires TaskOk(s', t)
    ensures Grows(s, s', t) && WellFormed(s')
  {
    GrowsKeeps(s, s', t);
  }

  lemma PhaseChangeKeeps(s: State, e: Event, t: nat)
    requires WellFormed(s) && Enabled(s, e)
    requires e == Cancel(t) || e == Wake(t) || e == ChildReturned(t)
          || (e.ReadReturns? && e.task == t) || (e.CreditsReturn? && e.task == t)
    ensures Grows(s, Next(s, e), t) && WellFormed(Next(s, e))
  {
    var s' := Next(s, e);
    PhaseChangeMoves(s, e, t);
    hide Next, Enabled, WellFormed, TaskOk, Grows, TaskGrows;
    MoveKeeps(s, s', t, s'.tasks[t]);
  }

  ghost predicate MoveFits(s: State, s': State, t: nat) {
    && t < |s.tasks| == |s'.tasks| && |s.info| == |s.core.flights| && |s'.info| == |s'.core.flights|
    && s' == s.(tasks := s.tasks[t := s'.tasks[t]], loads := s'.loads, started := s'.started, step := s.step + 1)
    && (forall b | b in s'.loads :: b < s'.step) && (forall b | b in s'.started :: b < s'.step)
    && TaskGrows(s, s', t)
    && (forall f: nat | s.tasks[t].Leads(f) :: s'.tasks[t].Leads(f))
    && TaskOk(s', t)
  }

  lemma PhaseChangeMoves(s: State, e: Event, t: nat)
    requires WellFormed(s) && Enabled(s, e)
    requires e == Cancel(t) || e == Wake(t) || e == ChildReturned(t)
          || (e.ReadReturns? && e.task == t) || (e.CreditsReturn? && e.task == t)
    ensures MoveFits(s, Next(s, e), t)
  {
    if e.ChildReturned? {
      ChildReturnedMoves(s, t);
    } else if e.CreditsReturn? {
      CreditsReturnMoves(s, t, e.ok);
    } else {
      hide Consistent, FlightOk, FinishVictim;
      assert TaskOk(s, t);
      hide WellFormed;
    }
  }

  lemma ChildReturnedMoves(s: State, t: nat)
    requires WellFormed(s) && Enabled(s, ChildReturned(t))
    ensures MoveFits(s, Next(s, ChildReturned(t)), t)
  {
    hide Consistent, FlightOk;
    assert TaskOk(s, t);
    hide WellFormed;
    var s' := Next(s, ChildReturned(t));
    assert s' == DoChildReturned(s, t).(step := s.step + 1);
    hide Next, Effect;
    var child := s.tasks[s.tasks[t].phase.progress.child].phase;
    if child.outcome.Ok? && child.outcome.value.Native? {
      assert s'.tasks[t].phase.progress.Crediting?;
    } else {
      assert s'.tasks[t].phase.progress.Done?;
    }
  }

  lemma CreditsReturnMoves(s: State, t: nat, ok: bool)
    requires WellFormed(s) && Enabled(s, CreditsReturn(t, ok))
    ensures MoveFits(s, Next(s, CreditsReturn(t, ok)), t)
  {
    hide Consistent, FlightOk;
    assert TaskOk(s, t);
    hide WellFormed;
  }

  /** A step inside the lock: one task moves and the core changes with it. */
  lemma LockedKeeps(s: State, s': State, t: nat)
    requires WellFormed(s) && t < |s.tasks| && Grows(s, s', t)
    requires s' == s.(tasks := s.tasks[t := s'.tasks[t]], core := s'.core, info := s'.info, step := s.step + 1)
    requires Consistent(s'.core)
    requires forall k | k in s'.core.inFlight :: s'.info[s'.core.inFlight[k]].key == k
    requires forall k | k in s'.core.entries :: !Bypasses(s, k)
    requires TaskOk(s', t)
    requires forall f | |s.info| <= f < |s'.info| :: f == |s.info| && FlightOk(s', f)
    ensures WellFormed(s')
  {
    GrowsKeeps(s, s', t);
  }

  /** Begin, when it joins a flight. */
  ghost predicate JoinShape(s: State, s': State, t: nat, f: nat)
    requires t < |s.tasks|
  {
    var task := s.tasks[t];
    && Bound(s.core, task.key, f)
    && s'.core == s.core.(entries := s'.core.entries)
    && (forall k | k in s'.core.entries :: k in s.core.entries && s'.core.entries[k] == s.core.entries[k])
    && s' == s.(tasks := s.tasks[t := task.(lookedUp := s.step, flight := Some(f), phase := Waiting)],
                core := s'.core, step := s.step + 1)
  }

  /** Begin, when it starts a flight. */
  ghost predicate LeadShape(s: State, s': State, t: nat, f: nat)
    requires t < |s.tasks|
  {
    var task := s.tasks[t];
    && !Bypasses(s, task.key) && f == |s.core.flights|
    && s'.core.inFlight == s.core.inFlight[task.key := f]
    && s'.core.flights == s.core.flights + [OPEN_FLIGHT]
    && (forall k | k in s'.core.entries :: k in s.core.entries && s'.core.entries[k] == s.core.entries[k])
    && s' == s.(tasks := s.tasks[t := task.(lookedUp := s.step, flight := Some(f), phase := Loading(Unstarted))],
                info := s.info + [Info(task.key, t, s.step, s.now, false)],
                core := s'.core, step := s.step + 1)
  }

  /** FinishLoad, when the load ran for a flight. */
  ghost predicate CloseShape(s: State, s': State, t: nat, f: nat, load: Load)
    requires t < |s.tasks|
  {
    var task := s.tasks[t];
    && s.tasks[t].Leads(f) && f < |s.core.flights| == |s.info|
    && s'.core.flights == s.core.flights[f := FlightState(true, load.outcome)]
    && (forall k | k in s'.core.inFlight :: Bound(s.core, k, s'.core.inFlight[k]))
    && (forall k | k in s.core.inFlight && s.core.inFlight[k] != f :: Bound(s'.core, k, s.core.inFlight[k]))
    && (forall k | k in s'.core.entries ::
          || (k in s.core.entries && s'.core.entries[k] == s.core.entries[k])
          || (k == task.key && Bound(s.core, k, f) && load.Storable()
              && s'.core.entries[k] == Entry(load.outcome.value, s.now, s.now + s.ttl)))
    && s' == s.(tasks := s.tasks[t := task.(phase := Returned(load.outcome, Times(s.now, s.now, s.now)))],
                info := s.info[f := s.info[f].(closedAt := s.now, storable := load.Storable())],
                core := s'.core, step := s.step + 1)
  }

  /** What a Begin can look like besides a bypass or a hit. */
  lemma BeginShape(s: State, s': State, t: nat)
    requires WellFormed(s) && Enabled(s, Begin(t)) && s' == Next(s, Begin(t))
    requires !Bypasses(s, s.tasks[t].key) && !Lookup(s.core, s.tasks[t].key, s.now).1.Hit?
    ensures Consistent(s'.core)
    ensures var key := s.tasks[t].key;
            if key in s.core.inFlight then JoinShape(s, s', t, s.core.inFlight[key])
            else LeadShape(s, s', t, |s.core.flights|)
  {
    LookupConsistent(s.core, s.tasks[t].key, s.now);
  }

  lemma FinishShape(s: State, s': State, t: nat, victim: Option<Key>)
    requires WellFormed(s) && Enabled(s, FinishLoad(t, victim)) && s' == Next(s, FinishLoad(t, victim))
    requires s.tasks[t].flight.Some?
    ensures Consistent(s'.core)
    ensures CloseShape(s, s', t, s.tasks[t].flight.value, s.tasks[t].phase.progress.load)
  {
    hide Finish, FinishVictim, FlightOk, Consistent;
    var task := s.tasks[t];
    assert TaskOk(s, t);
    FinishNext(s, t, victim);
    assert forall k | k in s.core.inFlight && s.core.inFlight[k] == task.flight.value :: k == task.key;
    hide Next, Enabled, WellFormed, TaskOk;
    CoreAfterFinish(s.core, s'.core, task.key, task.flight.value, task.phase.progress.load, s.now, s.ttl, victim);
  }

  lemma FinishNext(s: State, t: nat, victim: Option<Key>)
    requires Enabled(s, FinishLoad(t, victim)) && s.tasks[t].flight.Some?
    ensures var task := s.tasks[t];
            var f, load := task.flight.value, task.phase.progress.load;
            && f < |s.core.flights| == |s.info|
            && FinishVictim(s.core, task.key, f, load, s.now, victim)
            && Next(s, FinishLoad(t, victim))
               == s.(tasks := s.tasks[t := task.(phase := Returned(load.outcome, Times(s.now, s.now, s.now)))],
                     info := s.info[f := s.info[f].(closedAt := s.now, storable := load.Storable())],
                     core := Finish(s.core, task.key, f, load, s.now, s.ttl, victim), step := s.step + 1)
  {
    hide Finish, FinishVictim;
  }

  lemma CoreAfterFinish(c: Core, after: Core, key: Key, f: nat, load: Load, now: int, ttl: int, victim: Option<Key>)
    requires Consistent(c) && f < |c.flights| && FinishVictim(c, key, f, load, now, victim)
    requires after == Finish(c, key, f, load, now, ttl, victim)
    requires forall k | k in c.inFlight && c.inFlight[k] == f :: k == key
    ensures Consistent(after)
    ensures after.flights == c.flights[f := FlightState(true, load.outcome)]
    ensures forall k | k in after.inFlight :: Bound(c, k, after.inFlight[k])
    ensures forall k | k in c.inFlight && c.inFlight[k] != f :: Bound(after, k, c.inFlight[k])
    ensures forall k | k in after.entries ::
              || (k in c.entries && after.entries[k] == c.entries[k])
              || (k == key && Bound(c, k, f) && load.Storable() && after.entries[k] == Entry(load.outcome.value, now, now + ttl))
  {
    FinishConsistent(c, key, f, load, now, ttl, victim);
    FinishFrame(c, key, f, load, now, ttl, victim);
  }

  lemma JoinKeeps(s: State, s': State, t: nat, f: nat)
    requires WellFormed(s) && t < |s.tasks| && s.tasks[t].phase.Calling?
    requires Consistent(s'.core) && JoinShape(s, s', t, f)
    ensures Grows(s, s', t) && WellFormed(s')
  {
    LockedKeeps(s, s', t);
  }

  lemma LeadKeeps(s: State, s': State, t: nat, f: nat)
    requires WellFormed(s) && t < |s.tasks| && s.tasks[t].phase.Calling?
    requires Consistent(s'.core) && LeadShape(s, s', t, f)
    ensures Grows(s, s', t) && WellFormed(s')
  {
    assert s.tasks[t].flight.None? by { assert TaskOk(s, t); }
    assert forall k | k in s'.core.inFlight :: s'.core.inFlight[k] < |s'.info| && s'.info[s'.core.inFlight[k]].key == k;
    hide Consistent;
    assert s'.info[f] == Info(s.tasks[t].key, t, s.step, s.now, false);
    assert FlightOk(s', f);
    LockedKeeps(s, s', t);
  }

  lemma CloseKeeps(s: State, s': State, t: nat, f: nat, load: Load)
    requires WellFormed(s) && t < |s.tasks|
    requires Consistent(s'.core) && CloseShape(s, s', t, f, load)
    ensures Grows(s, s', t) && WellFormed(s')
  {
    assert TaskOk(s, t) && FlightOk(s, f);
    LockedKeeps(s, s', t);
  }

  lemma BeginKeeps(s: State, t: nat)
    requires WellFormed(s) && Enabled(s, Begin(t))
    ensures Grows(s, Next(s, Begin(t)), t) && WellFormed(Next(s, Begin(t)))
  {
    var s', key := Next(s, Begin(t)), s.tasks[t].key;
    if Bypasses(s, key) || Lookup(s.core, key, s.now).1.Hit? {
      assert TaskOk(s, t);
      MoveKeeps(s, s', t, s'.tasks[t]);
    } else {
      BeginShape(s, s', t);
      if key in s.core.inFlight {
        JoinKeeps(s, s', t, s.core.inFlight[key]);
      } else {
        LeadKeeps(s, s', t, |s.core.flights|);
      }
    }
  }

  lemma StartLoadKeeps(s: State, t: nat, child: Key)
    requires WellFormed(s) && Enabled(s, StartLoad(t, child))
    ensures Grows(s, Next(s, StartLoad(t, child)), t) && WellFormed(Next(s, StartLoad(t, child)))
  {
    hide Consistent, FlightOk;
    var s' := Next(s, StartLoad(t, child));
    assert TaskOk(s, t);
    assert Grows(s, s', t);
    assert TaskOk(s', t);
    assert |s'.tasks| > |s.tasks| ==> TaskOk(s', |s.tasks|);
    assert s'.core == s.core && s'.info == s.info && s'.resets == s.resets && s'.consumed == s.consumed && s'.ttl == s.ttl;
    assert s'.step == s.step + 1 && |s'.tasks| <= |s.tasks| + 1;
    assert (forall b | b in s'.loads :: b < s'.step) && (forall b | b in s'.started :: b < s'.step);
    hide Next, Enabled, Grows, TaskOk;
    GrowsKeeps(s, s', t);
  }

  lemma FinishKeeps(s: State, t: nat, victim: Option<Key>)
    requires WellFormed(s) && Enabled(s, FinishLoad(t, victim))
    ensures Grows(s, Next(s, FinishLoad(t, victim)), t) && WellFormed(Next(s, FinishLoad(t, victim)))
  {
    var s', task := Next(s, FinishLoad(t, victim)), s.tasks[t];
    if task.flight.Some? {
      FinishShape(s, s', t, victim);
      CloseKeeps(s, s', t, task.flight.value, task.phase.progress.load);
    } else {
      assert TaskOk(s, t);
      MoveKeeps(s, s', t, s'.tasks[t]);
    }
  }

  lemma InvalidateKeeps(s: State, target: Target)
    requires WellFormed(s)
    ensures Grows(s, Next(s, ResetInvalidates(target)), |s.tasks|) && WellFormed(Next(s, ResetInvalidates(target)))
  {
    InvalidateConsistent(s.core, target);
    GrowsKeeps(s, Next(s, ResetInvalidates(target)), |s.tasks|);
  }

  /** The task an event moves; one past the last for events that move none. */
  function Mover(s: State, e: Event): nat {
    match e
    case Tick(_) => |s.tasks|
    case Call(_) => |s.tasks|
    case ResetInvalidates(_) => |s.tasks|
    case ConsumeReturns(_) => |s.tasks|
    case _ => e.task
  }

  /** Growth composes into a history that is only added to. */
  ghost predicate Extends(s: State, s': State) {
    && s.step < s'.step && |s.resets| <= |s'.resets|
    && (forall n | 0 <= n < |s.resets| :: s'.resets[n] == s.resets[n])
    && (forall n | |s.resets| <= n < |s'.resets| :: s.step <= s'.resets[n].at)
    && (forall b | b in s.loads :: b in s'.loads && s'.loads[b] == s.loads[b])
    && (forall b | b in s.started :: b in s'.started && s'.started[b] == s.started[b])
  }

  lemma {:induction false} RunKeepsWellFormed(s: State, events: seq<Event>)
    requires WellFormed(s) && ValidFrom(s, events)
    ensures WellFormed(Run(s, events))
    decreases |events|
  {
    if events != [] {
      StepKeepsWellFormed(s, events[0]);
      RunKeepsWellFormed(Next(s, events[0]), events[1..]);
    }
  }

  /** In every run: no key is both cached and in flight, the cache never holds
      more than 256 entries, and flights that are bound are distinct and open. */
  lemma CacheStaysConsistent(s: State)
    requires Reachable(s)
    ensures WellFormed(s) && Consistent(s.core)
  {
    var ttl, now, events :| ValidFrom(Init(ttl, now), events) && Run(Init(ttl, now), events) == s;
    InitWellFormed(ttl, now);
    RunKeepsWellFormed(Init(ttl, now), events);
  }

  /** A flight is closed once, by the get that leads it, detached or not; from
      then on its outcome never changes. */
  lemma ClosedOnceByLeader(s: State, e: Event, f: nat)
    requires WellFormed(s) && Enabled(s, e) && f < |s.core.flights|
    ensures var s' := Next(s, e);
            && f < |s'.core.flights|
            && (s.core.flights[f].done ==> s'.core.flights[f] == s.core.flights[f])
            && (!s.core.flights[f].done ==>
                  (s'.core.flights[f].done <==> e.FinishLoad? && e.task == s.info[f].leader))
  {
    if e.FinishLoad? {
      FinishClosesItsOwn(s, e.task, e.victim, f);
    } else if e.Begin? {
      BeginKeepsFlights(s, e.task, f);
    } else {
      hide WellFormed, FlightOk, FinishVictim;
    }
  }

  lemma FinishClosesItsOwn(s: State, t: nat, victim: Option<Key>, f: nat)
    requires WellFormed(s) && Enabled(s, FinishLoad(t, victim)) && f < |s.core.flights|
    ensures var s' := Next(s, FinishLoad(t, victim));
            && f < |s'.core.flights|
            && (t == s.info[f].leader && !s.core.flights[f].done ==> s'.core.flights[f].done)
            && (t != s.info[f].leader || s.core.flights[f].done ==> s'.core.flights[f] == s.core.flights[f])
  {
    hide Consistent;
    assert FlightOk(s, f) && TaskOk(s, t);
    if s.tasks[t].flight.Some? {
      FinishShape(s, Next(s, FinishLoad(t, victim)), t, victim);
      hide Next, Enabled, WellFormed;
    } else {
      hide WellFormed;
    }
  }

  lemma BeginKeepsFlights(s: State, t: nat, f: nat)
    requires Enabled(s, Begin(t)) && f < |s.core.flights|
    ensures f < |Next(s, Begin(t)).core.flights| && Next(s, Begin(t)).core.flights[f] == s.core.flights[f]
  {
  }
}
