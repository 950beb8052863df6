/** Where cached values come from: every entry is what one load returned, without error
    and as cacheable, and a cached resource value has its credit details. */
module CacheOrigin {
  import opened Text
  import opened CacheKey
  import opened CacheCore
  import opened CacheSystem
  import opened CacheInvariant

  /** The entry is the outcome of this flight, stored when the flight was closed. */
  predicate StoredBy(s: State, k: Key, f: nat)
    requires k in s.core.entries
  {
    && f < |s.info| == |s.core.flights|
    && s.info[f].key == k && s.core.flights[f].done && s.info[f].storable
    && s.core.flights[f].outcome == Ok(s.core.entries[k].value)
    && s.info[f].closedAt == s.core.entries[k].insertedAt
  }

  predicate IsComplete(v: Value) {
    v.Resource? ==> v.credits.Some?
  }

  predicate LoadOk(load: Load) {
    load.Storable() ==> IsComplete(load.outcome.value)
  }

  ghost predicate FlightStores(s: State, f: nat)
    requires f < |s.info| == |s.core.flights|
  {
    s.core.flights[f].done && s.info[f].storable ==>
      s.core.flights[f].outcome.Ok? && IsComplete(s.core.flights[f].outcome.value)
  }

  predicate TaskLoads(t: Task) {
    match t.phase
    case Loading(Done(load)) => LoadOk(load)
    case _ => true
  }

  ghost predicate Traced(s: State) {
    && |s.info| == |s.core.flights|
    && (forall k | k in s.core.entries :: exists f :: StoredBy(s, k, f))
    && (forall f | 0 <= f < |s.info| :: FlightStores(s, f))
    && (forall i | 0 <= i < |s.tasks| :: TaskLoads(s.tasks[i]))
  }

  /** What a step may do: closed flights stay, each entry stays or is stored by a flight,
      a flight that closes stores properly. */
  lemma KeepsTraced(s: State, s': State)
    requires Traced(s) && |s.info| <= |s'.info| == |s'.core.flights|
    requires forall f | 0 <= f < |s.info| && s.core.flights[f].done ::
               s'.core.flights[f] == s.core.flights[f] && s'.info[f] == s.info[f]
    requires forall k | k in s'.core.entries ::
               (k in s.core.entries && s'.core.entries[k] == s.core.entries[k]) || exists f :: StoredBy(s', k, f)
    requires forall f | 0 <= f < |s'.info| && (f >= |s.info| || !s.core.flights[f].done) :: FlightStores(s', f)
    requires forall i | 0 <= i < |s'.tasks| :: TaskLoads(s'.tasks[i])
    ensures Traced(s')
  {
    forall k | k in s'.core.entries
      ensures exists f :: StoredBy(s', k, f)
    {
      if k in s.core.entries && s'.core.entries[k] == s.core.entries[k] {
        var f :| StoredBy(s, k, f);
        assert StoredBy(s', k, f);
      }
    }
    forall f | 0 <= f < |s'.info|
      ensures FlightStores(s', f)
    {
      assert f < |s.info| ==> FlightStores(s, f);
    }
  }

  /** Steps outside the cache's locked sections leave cache and flights alone. */
  lemma UnlockedSteps(s: State, e: Event)
    requires Enabled(s, e) && !e.Begin? && !e.FinishLoad? && !e.ResetInvalidates?
    ensures Next(s, e).core == s.core && Next(s, e).info == s.info
  {
  }

  /** Only a credit read that succeeded makes a resource load cacheable. */
  lemma LoadsStayOk(s: State, e: Event)
    requires Traced(s) && Enabled(s, e)
    ensures forall i | 0 <= i < |Next(s, e).tasks| :: TaskLoads(Next(s, e).tasks[i])
  {
    hide StoredBy, FlightStores, FinishVictim, Finish, Lookup, Bypasses;
    forall i | 0 <= i < |Next(s, e).tasks|
      ensures TaskLoads(Next(s, e).tasks[i])
    {
      assert i < |s.tasks| ==> TaskLoads(s.tasks[i]);
    }
  }

  lemma StepKeepsTraced(s: State, e: Event)
    requires WellFormed(s) && Traced(s) && Enabled(s, e)
    ensures WellFormed(Next(s, e)) && Traced(Next(s, e))
  {
    var s' := Next(s, e);
    StepKeepsWellFormed(s, e);
    LoadsStayOk(s, e);
    if e.FinishLoad? && s.tasks[e.task].flight.Some? {
      var t := e.task;
      var load := s.tasks[t].phase.progress.load;
      assert TaskLoads(s.tasks[t]);
      FinishShape(s, s', t, e.victim);
      CloseTraces(s, s', t, s.tasks[t].flight.value, load);
    } else if e.Begin? {
      BeginTraces(s, e.task);
    } else if e.ResetInvalidates? {
      hide TaskLoads, StoredBy;
      KeepsTraced(s, s');
    } else {
      SameCoreTraces(s, e);
    }
  }

  lemma SameCoreTraces(s: State, e: Event)
    requires WellFormed(s) && Traced(s) && Enabled(s, e) && !e.Begin? && !e.ResetInvalidates?
    requires e.FinishLoad? ==> s.tasks[e.task].flight.None?
    requires forall i | 0 <= i < |Next(s, e).tasks| :: TaskLoads(Next(s, e).tasks[i])
    ensures Traced(Next(s, e))
  {
    if !e.FinishLoad? {
      UnlockedSteps(s, e);
    }
    assert Next(s, e).core == s.core && Next(s, e).info == s.info;
    hide Next, Enabled, WellFormed, StoredBy, TaskLoads;
    KeepsTraced(s, Next(s, e));
  }

  lemma BeginTraces(s: State, t: nat)
    requires WellFormed(s) && Traced(s) && Enabled(s, Begin(t))
    requires forall i | 0 <= i < |Next(s, Begin(t)).tasks| :: TaskLoads(Next(s, Begin(t)).tasks[i])
    ensures Traced(Next(s, Begin(t)))
  {
    var s', key := Next(s, Begin(t)), s.tasks[t].key;
    if !Bypasses(s, key) && !Lookup(s.core, key, s.now).1.Hit? {
      BeginShape(s, s', t);
    }
    hide Consistent, TaskOk, FlightOk, TaskLoads, StoredBy;
    KeepsTraced(s, s');
  }

  lemma CloseTraces(s: State, s': State, t: nat, f: nat, load: Load)
    requires WellFormed(s) && Traced(s) && t < |s.tasks| && s.tasks[t].phase == Loading(Done(load))
    requires CloseShape(s, s', t, f, load) && LoadOk(load)
    requires forall i | 0 <= i < |s'.tasks| :: TaskLoads(s'.tasks[i])
    ensures Traced(s')
  {
    assert TaskOk(s, t);
    assert s'.info[f] == s.info[f].(closedAt := s.now, storable := load.Storable());
    assert s'.core.flights[f] == FlightState(true, load.outcome);
    var key := s.tasks[t].key;
    forall k | k in s'.core.entries
      ensures (k in s.core.entries && s'.core.entries[k] == s.core.entries[k]) || exists g :: StoredBy(s', k, g)
    {
      if !(k in s.core.entries && s'.core.entries[k] == s.core.entries[k]) {
        assert StoredBy(s', k, f);
      }
    }
    hide Consistent, FlightOk, TaskLoads, StoredBy, WellFormed;
    KeepsTraced(s, s');
  }

  lemma {:induction false} RunKeepsTraced(s: State, events: seq<Event>)
    requires WellFormed(s) && Traced(s) && ValidFrom(s, events)
    ensures Traced(Run(s, events))
    decreases |events|
  {
    if events != [] {
      StepKeepsTraced(s, events[0]);
      hide Next, Enabled;
      RunKeepsTraced(Next(s, events[0]), events[1..]);
    }
  }

  /** In every reachable state each entry is the value that a closed flight for its key was
      given by a load without error that called it cacheable; and a cached resource value
      has its credit details. */
  lemma EntriesComeFromStorableLoads(s: State, key: Key)
    requires Reachable(s) && key in s.core.entries
    ensures exists f :: StoredBy(s, key, f)
    ensures s.core.entries[key].value.Resource? ==> s.core.entries[key].value.credits.Some?
  {
    var ttl, now, events :| ValidFrom(Init(ttl, now), events) && Run(Init(ttl, now), events) == s;
    InitWellFormed(ttl, now);
    RunKeepsTraced(Init(ttl, now), events);
    var f :| StoredBy(s, key, f);
    assert FlightStores(s, f);
  }
}
