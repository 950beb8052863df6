/** Freshness: no get returns quota that was read before an invalidation that
    precedes its lookup, through both cache layers; and no value ever crosses
    credentials. */
module CacheFreshness {
  import opened Text
  import opened CacheKey
  import opened CacheCore
  import opened CacheSystem
  import opened CacheInvariant

  predicate KindFits(key: Key, v: Value) {
    match key.kind
    case CodexResource => v.Resource?
    case CodexNative => v.Native?
    case ProviderQuery => v.Query?
  }

  /** The read began as an upstream read of this credential, in a load of it. */
  predicate Recorded(s: State, key: Key, r: Reading) {
    && r.load in s.loads && SameCredential(s.loads[r.load], key)
    && r.began in s.started && SameCredential(s.started[r.began], key)
    && r.load <= r.began
  }

  predicate AllRecorded(s: State, key: Key, v: Value) {
    match v
    case Native(u) => Recorded(s, key, u)
    case Resource(u, _, c) => Recorded(s, key, u) && (c.Some? ==> Recorded(s, key, c.value))
    case Query(q) => Recorded(s, key, q)
  }

  ghost predicate Follows(s: State, key: Key, upto: nat, began: nat) {
    forall n | 0 <= n < |s.resets| && Matches(s.resets[n].target, key) && s.resets[n].at < upto :: s.resets[n].at < began
  }

  /** The value is of this key's kind and credential, and every load that made one of
      its upstream reads began after every matching invalidation dated before upto. */
  ghost predicate Sound(s: State, key: Key, upto: nat, v: Value) {
    && KindFits(key, v)
    && AllRecorded(s, key, v)
    && (forall n | 0 <= n < |s.resets| && Matches(s.resets[n].target, key) && s.resets[n].at < upto ::
          v.LoadedAfter(s.resets[n].at))
  }

  ghost predicate TaskFresh(s: State, i: nat)
    requires i < |s.tasks| && |s.info| == |s.core.flights|
  {
    var t := s.tasks[i];
    match t.phase
    case Calling => true
    case Waiting => t.flight.Some? && t.flight.value < |s.info| && Follows(s, t.key, t.lookedUp, s.info[t.flight.value].began)
    case Loading(Querying(b)) => Recorded(s, t.key, Reading(b, b, 0))
    case Loading(Fetching(_, load)) => load in s.loads && SameCredential(s.loads[load], t.key)
    case Loading(Crediting(u, supplied, load, b)) =>
      Sound(s, t.key, t.lookedUp, Resource(u, supplied, Some(Reading(load, b, 0))))
    case Loading(Done(load)) => load.outcome.Ok? ==> Sound(s, t.key, t.lookedUp, load.outcome.value)
    case Loading(_) => true
    case Returned(outcome, _) => outcome.Ok? ==> Sound(s, t.key, t.lookedUp, outcome.value)
  }

  ghost predicate FlightFresh(s: State, f: nat)
    requires f < |s.info| == |s.core.flights|
  {
    s.core.flights[f].done && s.core.flights[f].outcome.Ok? ==>
      Sound(s, s.info[f].key, s.info[f].began, s.core.flights[f].outcome.value)
  }

  ghost predicate Fresh(s: State)
    requires |s.info| == |s.core.flights|
    requires forall k | k in s.core.inFlight :: s.core.inFlight[k] < |s.info|
  {
    && (forall k | k in s.core.entries :: Sound(s, k, s.step, s.core.entries[k].value))
    && (forall k | k in s.core.inFlight :: Follows(s, k, s.step, s.info[s.core.inFlight[k]].began))
    && (forall f | 0 <= f < |s.info| :: FlightFresh(s, f))
    && (forall i | 0 <= i < |s.tasks| :: TaskFresh(s, i))
  }

  lemma OthersStayFresh(s: State, s': State, t: nat)
    requires WellFormed(s) && Fresh(s)
    requires Grows(s, s', t) && Extends(s, s')
    requires forall f | 0 <= f < |s.info| && (t < |s.tasks| ==> !s.tasks[t].Leads(f)) ::
               s'.core.flights[f] == s.core.flights[f]
    ensures forall i | 0 <= i < |s.tasks| && i != t :: TaskFresh(s', i)
    ensures forall f | 0 <= f < |s.info| && (t < |s.tasks| ==> !s.tasks[t].Leads(f)) :: FlightFresh(s', f)
  {
    hide Consistent, SameCredential, Matches, KindFits;
    forall i | 0 <= i < |s.tasks| && i != t
      ensures TaskFresh(s', i)
    {
      assert TaskOk(s, i) && TaskFresh(s, i);
      if s.tasks[i].phase.Waiting? {
        assert FlightGrows(s, s', t, s.tasks[i].flight.value);
      }
    }
    forall f | 0 <= f < |s.info| && (t < |s.tasks| ==> !s.tasks[t].Leads(f))
      ensures FlightFresh(s', f)
    {
      assert FlightOk(s, f) && FlightFresh(s, f) && FlightGrows(s, s', t, f);
    }
  }

  /** A finished child's usage is sound for its parent: the child was looked up
      later, so it excludes whatever the parent must exclude. */
  lemma ChildSound(s: State, t: nat)
    requires WellFormed(s) && Fresh(s) && Enabled(s, ChildReturned(t))
    ensures var child := s.tasks[s.tasks[t].phase.progress.child].phase;
            child.outcome.Ok? ==>
              && child.outcome.value.Native?
              && Recorded(s, s.tasks[t].key, child.outcome.value.usage)
              && Follows(s, s.tasks[t].key, s.tasks[t].lookedUp, child.outcome.value.usage.load)
  {
    var c := s.tasks[t].phase.progress.child;
    assert TaskOk(s, t) && TaskFresh(s, c);
  }

  /** With no new invalidation, surviving entries and bindings stay fresh. */
  lemma CacheStaysFresh(s: State, s': State, t: nat)
    requires WellFormed(s) && Fresh(s) && Grows(s, s', t) && Extends(s, s') && s'.resets == s.resets
    ensures forall k | k in s.core.entries :: Sound(s', k, s'.step, s.core.entries[k].value)
    ensures forall k | k in s.core.inFlight :: Follows(s', k, s'.step, s'.info[s.core.inFlight[k]].began)
  {
    forall k | k in s.core.entries
      ensures Sound(s', k, s'.step, s.core.entries[k].value)
    {
      assert Sound(s, k, s.step, s.core.entries[k].value);
    }
    forall k | k in s.core.inFlight
      ensures Follows(s', k, s'.step, s'.info[s.core.inFlight[k]].began)
    {
      assert FlightGrows(s, s', t, s.core.inFlight[k]);
    }
  }

  lemma QuietStepKeepsFresh(s: State, e: Event)
    requires WellFormed(s) && Fresh(s) && Enabled(s, e)
    requires e.Tick? || e.Call? || e.ConsumeReturns?
    ensures WellFormed(Next(s, e)) && Fresh(Next(s, e))
  {
    StepKeepsWellFormed(s, e);
    OthersStayFresh(s, Next(s, e), |s.tasks|);
    CacheStaysFresh(s, Next(s, e), |s.tasks|);
  }

  /** Steps of one task that leave cache and flights alone. */
  lemma MoveKeepsFresh(s: State, s': State, t: nat)
    requires WellFormed(s) && Fresh(s) && t < |s.tasks| <= |s'.tasks|
    requires WellFormed(s') && Grows(s, s', t) && Extends(s, s')
    requires s'.core == s.core && s'.info == s.info && s'.resets == s.resets
    requires TaskFresh(s', t) && forall i | |s.tasks| <= i < |s'.tasks| :: s'.tasks[i].phase.Calling?
    ensures Fresh(s')
  {
    OthersStayFresh(s, s', t);
    CacheStaysFresh(s, s', t);
    forall f | 0 <= f < |s'.info|
      ensures FlightFresh(s', f)
    {
      assert TaskOk(s, t);
    }
  }

  /** Steps of one task outside the lock. */
  predicate MovesTask(e: Event, t: nat) {
    || e == Cancel(t) || e == Wake(t) || e == ChildReturned(t) || (e.StartLoad? && e.task == t)
    || (e.ReadReturns? && e.task == t) || (e.CreditsReturn? && e.task == t)
  }

  ghost predicate MoveShape(s: State, s': State) {
    && s'.core == s.core && s'.info == s.info && s'.resets == s.resets && s'.step == s.step + 1
    && s'.now == s.now && s'.ttl == s.ttl
    && |s.tasks| <= |s'.tasks|
    && forall i | |s.tasks| <= i < |s'.tasks| :: s'.tasks[i].phase.Calling?
  }

  lemma TaskStepShape(s: State, e: Event, t: nat)
    requires Enabled(s, e) && MovesTask(e, t)
    ensures t < |s.tasks| && MoveShape(s, Next(s, e))
  {
    hide FinishVictim, Finish, Lookup, Bypasses, ReadValue, SameCredential, StartsNow;
  }

  lemma WakeIsFresh(s: State, t: nat)
    requires WellFormed(s) && Fresh(s) && Enabled(s, Wake(t)) && Extends(s, Next(s, Wake(t)))
    ensures TaskFresh(Next(s, Wake(t)), t)
  {
    hide Consistent, FlightOk;
    assert TaskOk(s, t) && TaskFresh(s, t);
    assert FlightFresh(s, s.tasks[t].flight.value);
    hide WellFormed, Fresh;
  }

  lemma StartLoadIsFresh(s: State, t: nat, child: Key)
    requires WellFormed(s) && Fresh(s) && Enabled(s, StartLoad(t, child)) && Extends(s, Next(s, StartLoad(t, child)))
    ensures TaskFresh(Next(s, StartLoad(t, child)), t)
  {
    hide Consistent, FlightOk;
    assert TaskOk(s, t) && TaskFresh(s, t);
    hide WellFormed, Fresh;
  }

  lemma ReadReturnsIsFresh(s: State, t: nat, ok: bool, cacheable: bool)
    requires WellFormed(s) && Fresh(s) && Enabled(s, ReadReturns(t, ok, cacheable)) && Extends(s, Next(s, ReadReturns(t, ok, cacheable)))
    ensures TaskFresh(Next(s, ReadReturns(t, ok, cacheable)), t)
  {
    hide Consistent, FlightOk;
    assert TaskOk(s, t) && TaskFresh(s, t);
    hide WellFormed, Fresh;
  }

  lemma ChildReturnedIsFresh(s: State, t: nat)
    requires WellFormed(s) && Fresh(s) && Enabled(s, ChildReturned(t)) && Extends(s, Next(s, ChildReturned(t)))
    ensures TaskFresh(Next(s, ChildReturned(t)), t)
  {
    hide Consistent, FlightOk;
    assert TaskOk(s, t) && TaskFresh(s, t);
    ChildSound(s, t);
    hide WellFormed, Fresh;
  }

  lemma CreditsReturnIsFresh(s: State, t: nat, ok: bool)
    requires WellFormed(s) && Fresh(s) && Enabled(s, CreditsReturn(t, ok)) && Extends(s, Next(s, CreditsReturn(t, ok)))
    ensures TaskFresh(Next(s, CreditsReturn(t, ok)), t)
  {
    hide Consistent, FlightOk;
    assert TaskOk(s, t) && TaskFresh(s, t);
    hide WellFormed, Fresh;
  }

  /** The task that moves is fresh afterwards: reads land as they were recorded. */
  lemma TaskStepIsFresh(s: State, e: Event, t: nat)
    requires WellFormed(s) && Fresh(s) && Enabled(s, e) && MovesTask(e, t) && Extends(s, Next(s, e))
    ensures t < |Next(s, e).tasks| && |Next(s, e).info| == |Next(s, e).core.flights| && TaskFresh(Next(s, e), t)
  {
    TaskStepShape(s, e, t);
    hide Fresh, Extends, Consistent, FlightOk, TaskOk;
    match e
    case Wake(_) => WakeIsFresh(s, t);
    case StartLoad(_, child) => StartLoadIsFresh(s, t, child);
    case ReadReturns(_, ok, cacheable) => ReadReturnsIsFresh(s, t, ok, cacheable);
    case ChildReturned(_) => ChildReturnedIsFresh(s, t);
    case CreditsReturn(_, ok) => CreditsReturnIsFresh(s, t, ok);
    case _ =>
  }

  lemma TaskStepKeepsFresh(s: State, e: Event, t: nat)
    requires WellFormed(s) && Fresh(s) && Enabled(s, e) && MovesTask(e, t)
    ensures WellFormed(Next(s, e)) && Fresh(Next(s, e))
  {
    StepKeepsWellFormed(s, e);
    TaskStepShape(s, e, t);
    TaskStepIsFresh(s, e, t);
    assert Mover(s, e) == t;
    hide Next, Enabled, Grows, Extends, TaskFresh, WellFormed, Fresh;
    MoveKeepsFresh(s, Next(s, e), t);
  }

  /** Steps inside the lock: one task moves, and the cache and that task's flight
      with it. */
  lemma LockedKeepsFresh(s: State, s': State, t: nat)
    requires WellFormed(s) && Fresh(s) && t < |s.tasks| == |s'.tasks|
    requires WellFormed(s') && Grows(s, s', t) && Extends(s, s') && s'.resets == s.resets
    requires forall f | 0 <= f < |s.info| && !s.tasks[t].Leads(f) :: s'.core.flights[f] == s.core.flights[f]
    requires TaskFresh(s', t)
    requires forall f | 0 <= f < |s'.info| && (s.tasks[t].Leads(f) || |s.info| <= f) :: FlightFresh(s', f)
    requires forall k | k in s'.core.entries ::
               || (k in s.core.entries && s'.core.entries[k] == s.core.entries[k])
               || Sound(s', k, s'.step, s'.core.entries[k].value)
    requires forall k | k in s'.core.inFlight ::
               || Bound(s.core, k, s'.core.inFlight[k])
               || Follows(s', k, s'.step, s'.info[s'.core.inFlight[k]].began)
    ensures Fresh(s')
  {
    OthersStayFresh(s, s', t);
    CacheStaysFresh(s, s', t);
  }

  lemma JoinIsFresh(s: State, s': State, t: nat, f: nat)
    requires WellFormed(s) && Fresh(s) && t < |s.tasks| && s.tasks[t].phase.Calling?
    requires JoinShape(s, s', t, f) && WellFormed(s') && Grows(s, s', t) && Extends(s, s')
    ensures Fresh(s')
  {
    assert Follows(s, s.tasks[t].key, s.step, s.info[f].began);
    assert TaskFresh(s', t);
    LockedKeepsFresh(s, s', t);
  }

  /** A new flight begins after every invalidation there has been. */
  lemma LeadIsFresh(s: State, s': State, t: nat, f: nat)
    requires WellFormed(s) && Fresh(s) && t < |s.tasks| && s.tasks[t].phase.Calling?
    requires LeadShape(s, s', t, f) && WellFormed(s') && Grows(s, s', t) && Extends(s, s')
    ensures Fresh(s')
  {
    assert s'.info[f].began == s.step;
    assert TaskFresh(s', t) && FlightFresh(s', f);
    LockedKeepsFresh(s, s', t);
  }

  lemma BeginKeepsFresh(s: State, t: nat)
    requires WellFormed(s) && Fresh(s) && Enabled(s, Begin(t))
    ensures WellFormed(Next(s, Begin(t))) && Fresh(Next(s, Begin(t)))
  {
    hide Consistent, FlightOk, TaskOk, Grows;
    var s', key := Next(s, Begin(t)), s.tasks[t].key;
    StepKeepsWellFormed(s, Begin(t));
    if Bypasses(s, key) || Lookup(s.core, key, s.now).1.Hit? {
      assert key in s.core.entries ==> Sound(s, key, s.step, s.core.entries[key].value);
      MoveKeepsFresh(s, s', t);
    } else {
      BeginShape(s, s', t);
      hide Next, Enabled, Fresh, WellFormed, Extends;
      if key in s.core.inFlight {
        JoinIsFresh(s, s', t, s.core.inFlight[key]);
      } else {
        LeadIsFresh(s, s', t, |s.core.flights|);
      }
    }
  }

  /** The finishing task returns its load; its flight and, if still bound, the
      cache get the same value, which then follows every matching invalidation. */
  lemma CloseIsFresh(s: State, s': State, t: nat, f: nat, load: Load)
    requires WellFormed(s) && Fresh(s) && t < |s.tasks| && s.tasks[t].phase == Loading(Done(load))
    requires CloseShape(s, s', t, f, load) && WellFormed(s') && Grows(s, s', t) && Extends(s, s')
    ensures Fresh(s')
  {
    hide Consistent, FlightOk;
    var key := s.tasks[t].key;
    assert TaskOk(s, t) && TaskFresh(s, t);
    hide WellFormed, TaskOk;
    assert TaskFresh(s', t) && FlightFresh(s', f);
    if Bound(s.core, key, f) && load.outcome.Ok? {
      assert Follows(s, key, s.step, s.tasks[t].lookedUp);
      assert Sound(s', key, s'.step, load.outcome.value);
    }
    LockedKeepsFresh(s, s', t);
  }

  lemma FinishKeepsFresh(s: State, t: nat, victim: Option<Key>)
    requires WellFormed(s) && Fresh(s) && Enabled(s, FinishLoad(t, victim))
    ensures WellFormed(Next(s, FinishLoad(t, victim))) && Fresh(Next(s, FinishLoad(t, victim)))
  {
    hide Consistent, FlightOk, TaskOk, WellFormed;
    var s', task := Next(s, FinishLoad(t, victim)), s.tasks[t];
    StepKeepsWellFormed(s, FinishLoad(t, victim));
    if task.flight.Some? {
      FinishShape(s, s', t, victim);
      hide Fresh;
      CloseIsFresh(s, s', t, task.flight.value, task.phase.progress.load);
    } else {
      assert TaskFresh(s, t);
      MoveKeepsFresh(s, s', t);
    }
  }

  predicate InvalidateShape(s: State, s': State, target: Target) {
    s' == s.(core := Invalidate(s.core, target), resets := s.resets + [Invalidation(target, s.step)], step := s.step + 1)
  }

  /** What an invalidation leaves did not match it, so it stays fresh. */
  lemma InvalidateKeepsFresh(s: State, target: Target)
    requires WellFormed(s) && Fresh(s)
    ensures WellFormed(Next(s, ResetInvalidates(target))) && Fresh(Next(s, ResetInvalidates(target)))
  {
    hide Consistent, FlightOk, TaskOk;
    var s' := Next(s, ResetInvalidates(target));
    StepKeepsWellFormed(s, ResetInvalidates(target));
    assert InvalidateShape(s, s', target);
    OthersStayFresh(s, s', |s.tasks|);
    hide Next, Sound, Follows, TaskFresh, FlightFresh, Grows, Extends;
    SurvivorsStayFresh(s, s', target);
  }

  lemma SurvivorsStayFresh(s: State, s': State, target: Target)
    requires WellFormed(s) && Fresh(s) && InvalidateShape(s, s', target)
    ensures forall k | k in s'.core.entries :: Sound(s', k, s'.step, s'.core.entries[k].value)
    ensures forall k | k in s'.core.inFlight ::
              s'.core.inFlight[k] < |s'.info| && Follows(s', k, s'.step, s'.info[s'.core.inFlight[k]].began)
  {
    hide FlightOk, TaskOk, TaskFresh, FlightFresh;
    forall k | k in s'.core.entries
      ensures Sound(s', k, s'.step, s'.core.entries[k].value)
    {
      SurvivorStaysSound(s, s', target, k, s.core.entries[k].value);
    }
    hide Sound;
    forall k | k in s'.core.inFlight
      ensures Follows(s', k, s'.step, s.info[s.core.inFlight[k]].began)
    {
      assert Follows(s, k, s.step, s.info[s.core.inFlight[k]].began);
    }
  }

  lemma SurvivorStaysSound(s: State, s': State, target: Target, key: Key, v: Value)
    requires s'.resets == s.resets + [Invalidation(target, s.step)] && s'.loads == s.loads && s'.started == s.started && s.step < s'.step
    requires forall n | 0 <= n < |s.resets| :: s.resets[n].at < s.step
    requires !Matches(target, key) && Sound(s, key, s.step, v)
    ensures Sound(s', key, s'.step, v)
  {
  }

  lemma StepKeepsFresh(s: State, e: Event)
    requires WellFormed(s) && Fresh(s) && Enabled(s, e)
    ensures WellFormed(Next(s, e)) && Fresh(Next(s, e))
  {
    match e
    case Begin(t) => BeginKeepsFresh(s, t);
    case FinishLoad(t, victim) => FinishKeepsFresh(s, t, victim);
    case ResetInvalidates(target) => InvalidateKeepsFresh(s, target);
    case Cancel(t) => TaskStepKeepsFresh(s, e, t);
    case Wake(t) => TaskStepKeepsFresh(s, e, t);
    case StartLoad(t, _) => TaskStepKeepsFresh(s, e, t);
    case ReadReturns(t, _, _) => TaskStepKeepsFresh(s, e, t);
    case ChildReturned(t) => TaskStepKeepsFresh(s, e, t);
    case CreditsReturn(t, _) => TaskStepKeepsFresh(s, e, t);
    case _ => QuietStepKeepsFresh(s, e);
  }

  lemma {:induction false} RunKeepsFresh(s: State, events: seq<Event>)
    requires WellFormed(s) && Fresh(s) && ValidFrom(s, events)
    ensures WellFormed(Run(s, events)) && Fresh(Run(s, events))
    decreases |events|
  {
    if events != [] {
      StepKeepsFresh(s, events[0]);
      RunKeepsFresh(Next(s, events[0]), events[1..]);
    }
  }

  lemma ReachableFresh(s: State)
    requires Reachable(s)
    ensures WellFormed(s) && Fresh(s)
  {
    var ttl, now, events :| ValidFrom(Init(ttl, now), events) && Run(Init(ttl, now), events) == s;
    InitWellFormed(ttl, now);
    RunKeepsFresh(Init(ttl, now), events);
  }

  // ----------------------------------------------------------------- theorems

  /** In every interleaving: a get whose lookup follows an invalidation of its
      credential returns nothing that a load begun before it has read. Resource values
      are included with their usage part, whichever layer or flight supplied it. */
  lemma GetIsFreshAfterInvalidation(s: State, i: nat, n: nat)
    requires Reachable(s) && i < |s.tasks| && n < |s.resets|
    requires s.tasks[i].phase.Returned? && s.tasks[i].phase.outcome.Ok?
    requires Matches(s.resets[n].target, s.tasks[i].key) && s.resets[n].at < s.tasks[i].lookedUp
    ensures s.tasks[i].phase.outcome.value.LoadedAfter(s.resets[n].at)
    ensures s.tasks[i].phase.outcome.value.BeganAfter(s.resets[n].at)
  {
    ReachableFresh(s);
    assert TaskFresh(s, i);
  }

  /** The upstream reads in a value. */
  function Reads(v: Value): seq<Reading> {
    match v
    case Native(u) => [u]
    case Resource(u, _, c) => if c.Some? then [u, c.value] else [u]
    case Query(q) => [q]
  }

  /** This step began something with the provider, auth index and contents of the key. */
  predicate MadeWith(history: map<nat, Key>, step: nat, key: Key) {
    && step in history
    && history[step].provider == key.provider
    && history[step].authIndex == key.authIndex
    && history[step].rawAuth == key.rawAuth
  }

  /** Every upstream read inside a returned value was made with the provider, the
      auth index and the credential contents of the get that returned it. */
  lemma GetNeverCrossesCredentials(s: State, i: nat)
    requires Reachable(s) && i < |s.tasks|
    requires s.tasks[i].phase.Returned? && s.tasks[i].phase.outcome.Ok?
    ensures KindFits(s.tasks[i].key, s.tasks[i].phase.outcome.value)
    ensures forall r | r in Reads(s.tasks[i].phase.outcome.value) ::
              MadeWith(s.loads, r.load, s.tasks[i].key) && MadeWith(s.started, r.began, s.tasks[i].key)
  {
    ReachableFresh(s);
    assert TaskFresh(s, i);
  }

  /** No load of the credential began between a reset's invalidation and the answer to
      its consume request. Loads that began before, and were detached by the invalidation
      if they were still running, may read in the meantime. */
  ghost predicate QuietWindow(s: State, c: nat, key: Key)
    requires c < |s.consumed| && s.consumed[c].reset < |s.resets|
  {
    forall b | b in s.loads && SameCredential(s.loads[b], key) ::
      !(s.resets[s.consumed[c].reset].at < b <= s.consumed[c].at)
  }

  /** Reset and cache together: when the window is quiet, a get that looks up after the
      consume was answered returns only what was loaded, and so read, after it. */
  lemma GetIsFreshAfterReset(s: State, i: nat, c: nat)
    requires Reachable(s) && i < |s.tasks| && c < |s.consumed| && s.consumed[c].reset < |s.resets|
    requires s.tasks[i].phase.Returned? && s.tasks[i].phase.outcome.Ok?
    requires Matches(s.resets[s.consumed[c].reset].target, s.tasks[i].key)
    requires s.consumed[c].at < s.tasks[i].lookedUp
    requires QuietWindow(s, c, s.tasks[i].key)
    ensures s.tasks[i].phase.outcome.value.LoadedAfter(s.consumed[c].at)
    ensures s.tasks[i].phase.outcome.value.BeganAfter(s.consumed[c].at)
  {
    ReachableFresh(s);
    assert TaskFresh(s, i);
    var v := s.tasks[i].phase.outcome.value;
    assert s.resets[s.consumed[c].reset].at < s.consumed[c].at;
    hide WellFormed, Fresh, TaskFresh, FlightFresh, TaskOk, FlightOk, Consistent, Reachable;
    assert v.LoadedAfter(s.resets[s.consumed[c].reset].at);
  }
}
