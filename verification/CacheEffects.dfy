/** Exactly what each step does to entries and bindings, and who may use them. */
module CacheEffects {
  import opened Text
  import opened CacheKey
  import opened CacheCore
  import opened CacheSystem
  import opened CacheInvariant

  /** Caching is on, the credential has an index, and the kind and provider are ones whose
      answers may be cached. */
  predicate MayBeCached(ttl: int, key: Key) {
    && 0 < ttl && key.authIndex != ""
    && (key.kind == ProviderQuery ==> key.provider == "codex" || key.provider == "claude" || key.provider == "antigravity")
  }

  predicate Live(s: State, k: Key) {
    k in s.core.entries && s.now < s.core.entries[k].expiresAt
  }

  /** What a get does when it is called, for each state of the cache. */
  lemma BeginExactly(s: State, t: nat)
    requires WellFormed(s) && Enabled(s, Begin(t))
    ensures var s', key := Next(s, Begin(t)), s.tasks[t].key;
            var task := s'.tasks[t];
            if !MayBeCached(s.ttl, key) then
              s'.core == s.core && task.phase == Loading(Unstarted) && task.flight == None
            else if Live(s, key) then
              && s'.core == s.core && task.flight == None
              && task.phase.Returned? && task.phase.outcome == Ok(s.core.entries[key].value)
            else
              && s'.core.entries == s.core.entries - {key}
              && if key in s.core.inFlight then
                   && s'.core.inFlight == s.core.inFlight && s'.core.flights == s.core.flights
                   && task.phase == Waiting && task.flight == Some(s.core.inFlight[key])
                 else
                   && s'.core.inFlight == s.core.inFlight[key := |s.core.flights|]
                   && |s'.core.flights| == |s.core.flights| + 1 && !s'.core.flights[|s.core.flights|].done
                   && task.phase == Loading(Unstarted) && task.flight == Some(|s.core.flights|)
  {
    hide FlightOk, Consistent;
    assert TaskOk(s, t);
  }

  // ------------------------------------------------------------------- entries

  /** The step stores a value under k: its flight is still bound, and its load came back
      without error and may be cached. */
  predicate Stores(s: State, e: Event, k: Key)
    requires Enabled(s, e)
  {
    && e.FinishLoad? && s.tasks[e.task].key == k
    && s.tasks[e.task].flight.Some? && k in s.core.inFlight && s.core.inFlight[k] == s.tasks[e.task].flight.value
    && s.tasks[e.task].phase.progress.load.outcome.Ok? && s.tasks[e.task].phase.progress.load.cacheable
  }

  /** The step drops the entry under k: a get finds it expired, a store sweeps it or makes
      room with it, or an invalidation names its credential. */
  predicate Drops(s: State, e: Event, k: Key)
    requires Enabled(s, e) && k in s.core.entries
  {
    match e
    case Begin(t) => s.tasks[t].key == k && s.core.entries[k].expiresAt <= s.now
    case FinishLoad(t, victim) => Stores(s, e, s.tasks[t].key) && (s.core.entries[k].expiresAt <= s.now || victim == Some(k))
    case ResetInvalidates(target) => k.provider == target.provider && (target.authIndex == "" || target.authIndex == k.authIndex)
    case _ => false
  }

  /** Entries come and go in exactly these ways, and are otherwise left as they are. */
  lemma EntriesChangeExactly(s: State, e: Event, k: Key)
    requires WellFormed(s) && Enabled(s, e)
    ensures var s' := Next(s, e);
            && (k in s'.core.entries <==> Stores(s, e, k) || (k in s.core.entries && !Drops(s, e, k)))
            && (k in s'.core.entries ==>
                  s'.core.entries[k] == if Stores(s, e, k)
                                        then Entry(s.tasks[e.task].phase.progress.load.outcome.value, s.now, s.now + s.ttl)
                                        else s.core.entries[k])
  {
    match e
    case Begin(t) =>
      hide FlightOk, Consistent;
      assert TaskOk(s, t);
      EntryNotBypassed(s, k);
      BeginExactly(s, t);
      hide Next, WellFormed, TaskOk;
    case FinishLoad(t, victim) => FinishedEntries(s, t, victim, k);
    case ResetInvalidates(_) =>
    case _ => UnlockedEntries(s, e);
  }

  lemma EntryNotBypassed(s: State, k: Key)
    requires WellFormed(s)
    ensures k in s.core.entries ==> MayBeCached(s.ttl, k)
  {
    hide FlightOk, Consistent, TaskOk;
  }

  lemma UnlockedEntries(s: State, e: Event)
    requires Enabled(s, e) && !e.Begin? && !e.FinishLoad? && !e.ResetInvalidates?
    ensures Next(s, e).core == s.core
  {
  }

  lemma FinishedEntries(s: State, t: nat, victim: Option<Key>, k: Key)
    requires WellFormed(s) && Enabled(s, FinishLoad(t, victim))
    ensures var s', e := Next(s, FinishLoad(t, victim)), FinishLoad(t, victim);
            && (k in s'.core.entries <==> Stores(s, e, k) || (k in s.core.entries && !Drops(s, e, k)))
            && (k in s'.core.entries ==>
                  s'.core.entries[k] == if Stores(s, e, k) then Entry(s.tasks[t].phase.progress.load.outcome.value, s.now, s.now + s.ttl)
                                        else s.core.entries[k])
  {
    var task := s.tasks[t];
    hide Finish, FinishVictim, FlightOk, TaskOk;
    if task.flight.Some? {
      FinishNext(s, t, victim);
      var f, load := task.flight.value, task.phase.progress.load;
      if Bound(s.core, task.key, f) && load.Storable() {
        StoreContents(s.core, task.key, f, load, s.now, s.ttl, victim, k);
      } else {
        FinishFrame(s.core, task.key, f, load, s.now, s.ttl, victim);
      }
      hide Next, Enabled, WellFormed, Consistent;
    }
  }

  /** Room is made exactly when 256 entries are unexpired, with one that expires no later
      than any other. */
  lemma VictimIsOldest(s: State, t: nat, victim: Option<Key>)
    requires WellFormed(s) && Enabled(s, FinishLoad(t, victim))
    ensures var live := set k | k in s.core.entries && s.now < s.core.entries[k].expiresAt;
            && (victim.Some? <==> Stores(s, FinishLoad(t, victim), s.tasks[t].key) && |live| >= 256)
            && (victim.Some? ==>
                  && victim.value in live
                  && forall k | k in live :: s.core.entries[victim.value].expiresAt <= s.core.entries[k].expiresAt)
  {
    hide FlightOk, TaskOk, Consistent, WellFormed;
    var live := set k | k in s.core.entries && s.now < s.core.entries[k].expiresAt;
    assert Sweep(s.core.entries, s.now).Keys == live;
  }

  // ------------------------------------------------------------------ bindings

  predicate Binds(s: State, e: Event, k: Key, f: nat)
    requires Enabled(s, e)
  {
    && e.Begin? && s.tasks[e.task].key == k && MayBeCached(s.ttl, k) && !Live(s, k)
    && k !in s.core.inFlight && f == |s.core.flights|
  }

  predicate Unbinds(s: State, e: Event, k: Key, f: nat)
    requires Enabled(s, e)
  {
    match e
    case FinishLoad(t, _) => s.tasks[t].flight == Some(f)
    case ResetInvalidates(target) => k.provider == target.provider && (target.authIndex == "" || target.authIndex == k.authIndex)
    case _ => false
  }

  /** A key is bound by a get that misses, to a flight of its own, until the leader of that
      flight finishes or an invalidation names the credential. */
  lemma BindingsChangeExactly(s: State, e: Event, k: Key, f: nat)
    requires WellFormed(s) && Enabled(s, e)
    ensures Bound(Next(s, e).core, k, f) <==> Binds(s, e, k, f) || (Bound(s.core, k, f) && !Unbinds(s, e, k, f))
  {
    match e
    case Begin(t) =>
      BeginExactly(s, t);
      hide Next, Enabled, FlightOk, TaskOk;
    case FinishLoad(t, victim) =>
      if s.tasks[t].flight.Some? {
        FinishShape(s, Next(s, e), t, victim);
        OwnBindingGoes(s, t, victim, k);
        hide Next, Enabled, WellFormed, Consistent;
      }
    case ResetInvalidates(_) =>
    case _ => UnlockedEntries(s, e);
  }

  lemma OwnBindingGoes(s: State, t: nat, victim: Option<Key>, k: Key)
    requires WellFormed(s) && Enabled(s, FinishLoad(t, victim)) && s.tasks[t].flight.Some?
    ensures !Bound(Next(s, FinishLoad(t, victim)).core, k, s.tasks[t].flight.value)
  {
    hide FlightOk, Consistent, FinishVictim, Sweep, Evict;
    assert TaskOk(s, t);
    hide TaskOk;
    FinishNext(s, t, victim);
    var c, task := s.core, s.tasks[t];
    if k in c.inFlight && c.inFlight[k] == task.flight.value {
      assert k == task.key && Bound(c, task.key, task.flight.value);
    }
    hide Next, Enabled, WellFormed;
  }

  // ---------------------------------------------------------- who uses the cache

  /** Nothing is ever held for a key that may not be cached: in particular no entry, binding
      or flight has a blank auth index, and a get with one has no part in a flight. */
  lemma OnlyCacheableKeysAreHeld(s: State)
    requires Reachable(s)
    ensures forall k | k in s.core.entries :: MayBeCached(s.ttl, k)
    ensures forall k | k in s.core.inFlight :: MayBeCached(s.ttl, k)
    ensures forall f | 0 <= f < |s.info| :: MayBeCached(s.ttl, s.info[f].key)
    ensures forall i | 0 <= i < |s.tasks| && s.tasks[i].flight.Some? :: MayBeCached(s.ttl, s.tasks[i].key)
  {
    CacheStaysConsistent(s);
    hide Reachable;
    forall f | 0 <= f < |s.info|
      ensures MayBeCached(s.ttl, s.info[f].key)
    {
      assert FlightOk(s, f);
    }
    forall i | 0 <= i < |s.tasks| && s.tasks[i].flight.Some?
      ensures MayBeCached(s.ttl, s.tasks[i].key)
    {
      assert TaskOk(s, i);
    }
  }

  // ------------------------------------------------------------- shared outcomes

  ghost predicate SharesOutcome(s: State, i: nat)
    requires i < |s.tasks|
  {
    var t := s.tasks[i];
    t.phase.Returned? && t.flight.Some? ==>
      || t.phase.outcome == Err(Cancelled)
      || (t.flight.value < |s.core.flights| && s.core.flights[t.flight.value] == FlightState(true, t.phase.outcome))
  }

  lemma StepShares(s: State, e: Event, i: nat)
    requires WellFormed(s) && Enabled(s, e) && i < |Next(s, e).tasks|
    requires i < |s.tasks| ==> SharesOutcome(s, i)
    ensures SharesOutcome(Next(s, e), i)
  {
    var s' := Next(s, e);
    StepKeepsWellFormed(s, e);
    if i < |s.tasks| && s.tasks[i].flight.Some? {
      assert TaskOk(s, i);
      ClosedOnceByLeader(s, e, s.tasks[i].flight.value);
    }
    hide WellFormed, Grows, Extends, FlightOk, Consistent;
    if e.FinishLoad? && e.task == i {
      ReturnsItsLoad(s, i, e.victim);
      hide Next, Enabled;
    } else if e.Begin? && e.task == i {
      BeginReturns(s, i);
      hide Next, Enabled;
    } else {
      OtherwiseReturns(s, e, i);
      hide Next, Enabled;
    }
  }

  lemma ReturnsItsLoad(s: State, t: nat, victim: Option<Key>)
    requires Enabled(s, FinishLoad(t, victim))
    ensures var s', load := Next(s, FinishLoad(t, victim)), s.tasks[t].phase.progress.load;
            && t < |s'.tasks| && s'.tasks[t].flight == s.tasks[t].flight
            && s'.tasks[t].phase.Returned? && s'.tasks[t].phase.outcome == load.outcome
            && (s.tasks[t].flight.Some? ==>
                  && s.tasks[t].flight.value < |s'.core.flights|
                  && s'.core.flights[s.tasks[t].flight.value] == FlightState(true, load.outcome))
  {
    hide FinishVictim;
  }

  lemma BeginReturns(s: State, t: nat)
    requires Enabled(s, Begin(t))
    ensures t < |Next(s, Begin(t)).tasks|
    ensures Next(s, Begin(t)).tasks[t].phase.Returned? ==> Next(s, Begin(t)).tasks[t].flight == s.tasks[t].flight
  {
  }

  lemma OtherwiseReturns(s: State, e: Event, i: nat)
    requires Enabled(s, e) && i < |Next(s, e).tasks| && !(e.FinishLoad? && e.task == i) && !(e.Begin? && e.task == i)
    ensures var task := Next(s, e).tasks[i];
            task.phase.Returned? ==>
              && i < |s.tasks| && task.flight == s.tasks[i].flight
              && (|| task.phase == s.tasks[i].phase
                  || task.phase.outcome == Err(Cancelled)
                  || (&& task.flight.Some? && task.flight.value < |s.core.flights|
                      && s.core.flights[task.flight.value] == FlightState(true, task.phase.outcome)))
  {
    hide FinishVictim, Finish, Lookup;
  }

  lemma {:induction false} RunShares(s: State, events: seq<Event>)
    requires WellFormed(s) && ValidFrom(s, events) && forall i | 0 <= i < |s.tasks| :: SharesOutcome(s, i)
    ensures forall i | 0 <= i < |Run(s, events).tasks| :: SharesOutcome(Run(s, events), i)
    decreases |events|
  {
    if events != [] {
      var s' := Next(s, events[0]);
      StepKeepsWellFormed(s, events[0]);
      forall i | 0 <= i < |s'.tasks|
        ensures SharesOutcome(s', i)
      {
        StepShares(s, events[0], i);
      }
      hide WellFormed, Next, Enabled, SharesOutcome;
      RunShares(s', events[1..]);
    }
  }

  /** Whoever led or joined a flight returns the one outcome of that flight, or was
      cancelled while it waited. */
  lemma OneOutcomePerFlight(s: State, i: nat, j: nat)
    requires Reachable(s) && i < |s.tasks| && j < |s.tasks|
    requires s.tasks[i].phase.Returned? && s.tasks[j].phase.Returned?
    requires s.tasks[i].flight.Some? && s.tasks[i].flight == s.tasks[j].flight
    ensures || s.tasks[i].phase.outcome == s.tasks[j].phase.outcome
            || s.tasks[i].phase.outcome == Err(Cancelled)
            || s.tasks[j].phase.outcome == Err(Cancelled)
  {
    var ttl, now, events :| ValidFrom(Init(ttl, now), events) && Run(Init(ttl, now), events) == s;
    InitWellFormed(ttl, now);
    RunShares(Init(ttl, now), events);
    assert SharesOutcome(s, i) && SharesOutcome(s, j);
  }
}
