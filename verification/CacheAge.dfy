/** Age: how old cached quota can be when it is served, layer by layer. */
module CacheAge {
  import opened Text
  import opened CacheKey
  import opened CacheCore
  import opened CacheSystem
  import opened CacheInvariant
  import opened CacheFreshness

  /** A get decided at settled got a value recorded at stored: less than one TTL
      lies between, unless nothing is cached at all. */
  predicate OneLayer(ttl: int, stored: int, settled: int) {
    stored <= settled && (0 < ttl ==> settled < stored + ttl)
  }

  /** Usage that a native get returned by the given clock. */
  predicate Supplied(u: Reading, times: Times, clock: int, ttl: int) {
    u.landed <= times.stored && OneLayer(ttl, times.stored, times.settled) && times.settled <= times.returned <= clock
  }

  /** The times in a value recorded at the given clock are in order. */
  predicate Timely(v: Value, clock: int, ttl: int) {
    match v
    case Native(u) => u.landed <= clock
    case Resource(u, supplied, c) =>
      && Supplied(u, supplied, clock, ttl)
      && (c.Some? ==> supplied.returned <= c.value.landed <= clock)
    case Query(q) => q.landed <= clock
  }

  predicate TaskTimely(s: State, i: nat)
    requires i < |s.tasks|
  {
    match s.tasks[i].phase
    case Loading(Crediting(u, supplied, _, _)) => Supplied(u, supplied, s.now, s.ttl)
    case Loading(Done(load)) => load.outcome.Ok? ==> Timely(load.outcome.value, s.now, s.ttl)
    case Returned(outcome, times) =>
      outcome.Ok? ==>
        && Timely(outcome.value, times.stored, s.ttl) && OneLayer(s.ttl, times.stored, times.settled)
        && times.settled <= times.returned <= s.now
    case _ => true
  }

  predicate FlightTimely(s: State, f: nat)
    requires f < |s.info| == |s.core.flights|
  {
    s.core.flights[f].done && s.core.flights[f].outcome.Ok? ==>
      s.info[f].closedAt <= s.now && Timely(s.core.flights[f].outcome.value, s.info[f].closedAt, s.ttl)
  }

  /** Entries expire one TTL after they were inserted. */
  predicate EntryTimely(s: State, e: Entry) {
    e.expiresAt == e.insertedAt + s.ttl && e.insertedAt <= s.now && Timely(e.value, e.insertedAt, s.ttl)
  }

  ghost predicate Aged(s: State)
    requires |s.info| == |s.core.flights|
  {
    && (forall k | k in s.core.entries :: EntryTimely(s, s.core.entries[k]))
    && (forall f | 0 <= f < |s.info| :: FlightTimely(s, f))
    && (forall i | 0 <= i < |s.tasks| :: TaskTimely(s, i))
  }

  lemma WellFormedParallel(s: State)
    requires WellFormed(s)
    ensures |s.info| == |s.core.flights|
  {
  }

  lemma TickKeepsAged(s: State, e: Event)
    requires WellFormed(s) && Aged(s) && Enabled(s, e)
    requires e.Tick? || e.Call? || e.ConsumeReturns? || e.ResetInvalidates?
    ensures WellFormed(Next(s, e)) && Aged(Next(s, e))
  {
    hide Consistent, FlightOk, TaskOk, Grows, Extends, WellFormed;
    var s' := Next(s, e);
    StepKeepsWellFormed(s, e);
    assert |s.info| == |s.core.flights| by { WellFormedParallel(s); }
    assert forall i | 0 <= i < |s.tasks| :: TaskTimely(s, i) ==> TaskTimely(s', i);
    assert forall f | 0 <= f < |s.info| :: FlightTimely(s, f) ==> FlightTimely(s', f);
    assert forall k | k in s.core.entries :: EntryTimely(s, s.core.entries[k]) ==> EntryTimely(s', s.core.entries[k]);
  }

  /** Steps that move one task at an unchanged clock. */
  lemma MoveKeepsAged(s: State, s': State, t: nat)
    requires WellFormed(s) && Aged(s) && t < |s.tasks| <= |s'.tasks| && WellFormed(s')
    requires s'.now == s.now && s'.ttl == s.ttl && |s.info| <= |s'.info|
    requires forall i | 0 <= i < |s'.tasks| && i != t ::
               if i < |s.tasks| then s'.tasks[i] == s.tasks[i] else s'.tasks[i].phase.Calling?
    requires forall f | 0 <= f < |s'.info| ::
               || (f < |s.info| && s'.core.flights[f] == s.core.flights[f] && s'.info[f] == s.info[f])
               || FlightTimely(s', f)
    requires TaskTimely(s', t)
    requires forall k | k in s'.core.entries ::
               || (k in s.core.entries && s'.core.entries[k] == s.core.entries[k])
               || EntryTimely(s', s'.core.entries[k])
    ensures Aged(s')
  {
    forall i | 0 <= i < |s'.tasks|
      ensures TaskTimely(s', i)
    {
      assert i < |s.tasks| ==> TaskTimely(s, i);
    }
    forall f | 0 <= f < |s'.info|
      ensures FlightTimely(s', f)
    {
      assert f < |s.info| ==> FlightTimely(s, f);
    }
  }

  lemma WakeIsTimely(s: State, t: nat)
    requires WellFormed(s) && Aged(s) && Enabled(s, Wake(t))
    ensures t < |Next(s, Wake(t)).tasks| && TaskTimely(Next(s, Wake(t)), t)
  {
    assert TaskTimely(s, t);
    assert FlightTimely(s, s.tasks[t].flight.value);
    hide WellFormed, Aged;
  }

  lemma StartLoadIsTimely(s: State, t: nat, child: Key)
    requires WellFormed(s) && Aged(s) && Enabled(s, StartLoad(t, child))
    ensures t < |Next(s, StartLoad(t, child)).tasks| && TaskTimely(Next(s, StartLoad(t, child)), t)
  {
    assert TaskTimely(s, t);
    hide WellFormed, Aged;
  }

  lemma ReadReturnsIsTimely(s: State, t: nat, ok: bool, cacheable: bool)
    requires WellFormed(s) && Aged(s) && Enabled(s, ReadReturns(t, ok, cacheable))
    ensures t < |Next(s, ReadReturns(t, ok, cacheable)).tasks| && TaskTimely(Next(s, ReadReturns(t, ok, cacheable)), t)
  {
    assert TaskTimely(s, t);
    hide WellFormed, Aged;
  }

  lemma ChildReturnedIsTimely(s: State, t: nat)
    requires WellFormed(s) && Aged(s) && Enabled(s, ChildReturned(t))
    ensures t < |Next(s, ChildReturned(t)).tasks| && TaskTimely(Next(s, ChildReturned(t)), t)
  {
    assert TaskTimely(s, t);
    assert TaskTimely(s, s.tasks[t].phase.progress.child);
    hide WellFormed, Aged;
  }

  lemma CreditsReturnIsTimely(s: State, t: nat, ok: bool)
    requires WellFormed(s) && Aged(s) && Enabled(s, CreditsReturn(t, ok))
    ensures t < |Next(s, CreditsReturn(t, ok)).tasks| && TaskTimely(Next(s, CreditsReturn(t, ok)), t)
  {
    assert TaskTimely(s, t);
    hide WellFormed, Aged;
  }

  lemma TaskStepKeepsAged(s: State, e: Event, t: nat)
    requires WellFormed(s) && Aged(s) && Enabled(s, e) && MovesTask(e, t)
    ensures WellFormed(Next(s, e)) && Aged(Next(s, e))
  {
    StepKeepsWellFormed(s, e);
    TaskStepShape(s, e, t);
    assert Mover(s, e) == t;
    assert e.Cancel? ==> TaskTimely(Next(s, e), t);
    hide Next, Enabled, WellFormed, TaskTimely, Extends;
    match e {
      case Wake(_) => WakeIsTimely(s, t);
      case StartLoad(_, child) => StartLoadIsTimely(s, t, child);
      case ReadReturns(_, ok, cacheable) => ReadReturnsIsTimely(s, t, ok, cacheable);
      case ChildReturned(_) => ChildReturnedIsTimely(s, t);
      case CreditsReturn(_, ok) => CreditsReturnIsTimely(s, t, ok);
      case _ =>
    }
    MoveKeepsAged(s, Next(s, e), t);
  }

  lemma BeginKeepsAged(s: State, t: nat)
    requires WellFormed(s) && Aged(s) && Enabled(s, Begin(t))
    ensures WellFormed(Next(s, Begin(t))) && Aged(Next(s, Begin(t)))
  {
    hide Consistent, FlightOk, TaskOk, Grows, Extends;
    var s', key := Next(s, Begin(t)), s.tasks[t].key;
    StepKeepsWellFormed(s, Begin(t));
    if Bypasses(s, key) || Lookup(s.core, key, s.now).1.Hit? {
      MoveKeepsAged(s, s', t);
    } else {
      BeginShape(s, s', t);
      hide Next, Enabled;
      MoveKeepsAged(s, s', t);
    }
  }

  lemma FinishKeepsAged(s: State, t: nat, victim: Option<Key>)
    requires WellFormed(s) && Aged(s) && Enabled(s, FinishLoad(t, victim))
    ensures WellFormed(Next(s, FinishLoad(t, victim))) && Aged(Next(s, FinishLoad(t, victim)))
  {
    hide Consistent, FlightOk, TaskOk, Grows, Extends, Finish, FinishVictim;
    var s' := Next(s, FinishLoad(t, victim));
    StepKeepsWellFormed(s, FinishLoad(t, victim));
    assert TaskTimely(s, t);
    if s.tasks[t].flight.Some? {
      FinishShape(s, s', t, victim);
      hide Next, Enabled;
      MoveKeepsAged(s, s', t);
    } else {
      MoveKeepsAged(s, s', t);
    }
  }

  lemma StepKeepsAged(s: State, e: Event)
    requires WellFormed(s) && Aged(s) && Enabled(s, e)
    ensures WellFormed(Next(s, e)) && Aged(Next(s, e))
  {
    match e
    case Begin(t) => BeginKeepsAged(s, t);
    case FinishLoad(t, victim) => FinishKeepsAged(s, t, victim);
    case Tick(_) => TickKeepsAged(s, e);
    case Call(_) => TickKeepsAged(s, e);
    case ConsumeReturns(_) => TickKeepsAged(s, e);
    case ResetInvalidates(_) => TickKeepsAged(s, e);
    case _ => TaskStepKeepsAged(s, e, e.task);
  }

  lemma {:induction false} RunKeepsAged(s: State, events: seq<Event>)
    requires WellFormed(s) && Aged(s) && ValidFrom(s, events)
    ensures WellFormed(Run(s, events)) && Aged(Run(s, events))
    decreases |events|
  {
    if events != [] {
      StepKeepsAged(s, events[0]);
      RunKeepsAged(Next(s, events[0]), events[1..]);
    }
  }

  lemma ReachableAged(s: State)
    requires Reachable(s)
    ensures WellFormed(s) && Aged(s)
  {
    var ttl, now, events :| ValidFrom(Init(ttl, now), events) && Run(Init(ttl, now), events) == s;
    InitWellFormed(ttl, now);
    RunKeepsAged(Init(ttl, now), events);
  }

  // ----------------------------------------------------------------- theorems

  /** Every entry expires one TTL after its insertion, so what a hit serves was inserted
      into its layer less than one TTL ago. */
  lemma HitIsYoungerThanTtl(s: State, key: Key)
    requires Reachable(s)
    ensures key in s.core.entries ==> s.core.entries[key].expiresAt == s.core.entries[key].insertedAt + s.ttl
    ensures Lookup(s.core, key, s.now).1.Hit? ==>
              var entry := Lookup(s.core, key, s.now).1.entry;
              && entry.insertedAt <= s.now < entry.insertedAt + s.ttl
              && Timely(entry.value, entry.insertedAt, s.ttl)
  {
    ReachableAged(s);
    assert key in s.core.entries ==> EntryTimely(s, s.core.entries[key]);
  }

  /** A cached resource value: its usage was recorded by the native layer, settled by the
      native get of its load within one TTL of that, returned by that get, and inserted
      with the value, in this order. */
  lemma ResourceTimes(s: State, key: Key)
    requires Reachable(s) && key in s.core.entries && key.kind == CodexResource
    ensures 0 < s.ttl && s.core.entries[key].value.Resource?
    ensures var entry := s.core.entries[key];
            var times := entry.value.supplied;
            && entry.value.usage.landed <= times.stored <= times.settled <= times.returned <= entry.insertedAt <= s.now
            && times.settled < times.stored + s.ttl
            && entry.expiresAt == entry.insertedAt + s.ttl
  {
    ReachableAged(s);
    ReachableFresh(s);
    assert EntryTimely(s, s.core.entries[key]);
    assert Sound(s, key, s.step, s.core.entries[key].value);
    hide Aged, Fresh, Reachable, Consistent, TaskOk, FlightOk;
  }

  /** Usage served by a resource hit: younger than two TTLs plus the time the
      resource load still ran after its native get was decided, counted from when
      the native layer recorded the usage. */
  lemma ResourceHitAge(s: State, key: Key)
    requires Reachable(s) && Lookup(s.core, key, s.now).1.Hit? && key.kind == CodexResource
    ensures var entry := Lookup(s.core, key, s.now).1.entry;
            && entry.value.Resource?
            && s.now - entry.value.supplied.stored < 2 * s.ttl + (entry.insertedAt - entry.value.supplied.settled)
  {
    ResourceTimes(s, key);
  }

  predicate AgeBelow(now: int, since: int, bound: int) {
    now - since < bound
  }

  /** At every clock at which the entry can be hit, less than the bound has passed. */
  ghost predicate AgeStaysBelow(entry: Entry, since: int, bound: int) {
    forall now | entry.insertedAt <= now < entry.expiresAt :: AgeBelow(now, since, bound)
  }

  lemma OldestAtTheEnd(entry: Entry, since: int, bound: int)
    requires entry.insertedAt < entry.expiresAt
    ensures AgeStaysBelow(entry, since, bound) <==> entry.expiresAt - 1 - since < bound
  {
    assert AgeBelow(entry.expiresAt - 1, since, bound) <==> entry.expiresAt - 1 - since < bound;
  }

  /** Counted from the return of the native get instead, the bound holds at every clock at
      which the entry can be hit exactly when that get returned within one TTL of when its
      usage was recorded; a get that was hit or led its own flight always did. */
  lemma ReturnTimeBoundHoldsExactly(s: State, key: Key)
    requires Reachable(s) && key in s.core.entries && key.kind == CodexResource
    ensures s.core.entries[key].value.Resource?
    ensures var entry := s.core.entries[key];
            var times := entry.value.supplied;
            && (AgeStaysBelow(entry, times.stored, 2 * s.ttl + (entry.insertedAt - times.returned))
                <==> times.returned - times.stored <= s.ttl)
            && (times.returned == times.settled ==> times.returned - times.stored <= s.ttl)
  {
    ResourceTimes(s, key);
    var entry := s.core.entries[key];
    var times := entry.value.supplied;
    OldestAtTheEnd(entry, times.stored, 2 * s.ttl + (entry.insertedAt - times.returned));
  }

  /** One TTL bounds the age of the usage, at every clock at which the entry can be hit,
      exactly when the usage was recorded at the very clock of the insertion. */
  lemma OneTtlHoldsExactly(s: State, key: Key)
    requires Reachable(s) && key in s.core.entries && key.kind == CodexResource
    ensures s.core.entries[key].value.Resource?
    ensures var entry := s.core.entries[key];
            AgeStaysBelow(entry, entry.value.supplied.stored, s.ttl) <==> entry.value.supplied.stored == entry.insertedAt
  {
    ResourceTimes(s, key);
    var entry := s.core.entries[key];
    OldestAtTheEnd(entry, entry.value.supplied.stored, s.ttl);
  }

  /** In every run, whatever a store drops was inserted no later than whatever it
      keeps: eviction is first in, first out. */
  lemma RunsEvictFifo(s: State, t: nat, victim: Option<Key>, dropped: Key, kept: Key)
    requires Reachable(s) && Enabled(s, FinishLoad(t, victim))
    requires dropped in s.core.entries && dropped !in Next(s, FinishLoad(t, victim)).core.entries
    requires kept in Next(s, FinishLoad(t, victim)).core.entries
    ensures s.core.entries[dropped].insertedAt <= Next(s, FinishLoad(t, victim)).core.entries[kept].insertedAt
  {
    ReachableAged(s);
    var task := s.tasks[t];
    var load := task.phase.progress.load;
    var f := task.flight.value;
    StoreContents(s.core, task.key, f, load, s.now, s.ttl, victim, dropped);
    StoreContents(s.core, task.key, f, load, s.now, s.ttl, victim, kept);
    assert TaskOk(s, t) && EntryTimely(s, s.core.entries[dropped]);
    assert kept in s.core.entries ==> EntryTimely(s, s.core.entries[kept]);
    if kept != task.key && s.now < s.core.entries[dropped].expiresAt {
      assert dropped in Sweep(s.core.entries, s.now) && kept in Sweep(s.core.entries, s.now);
    }
  }
}
