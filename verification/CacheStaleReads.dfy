/** A get that looks up from now on can return quota read before now exactly when such a
    read is held now. */
module CacheStaleReads {
  import opened Text
  import opened CacheKey
  import opened CacheCore
  import opened CacheSystem
  import opened CacheInvariant
  import opened CacheFreshness
  import opened CacheProgress
  import opened CacheStaleness

  // ------------------------------------------------------ what is held can be served

  // A load that goes well hands on what it holds.

  lemma WakeHandsOn(s: State, t: nat, step: nat)
    requires WellFormed(s) && Fresh(s) && Enabled(s, Wake(t)) && WellFormed(Next(s, Wake(t)))
    requires HoldsItself(s, t, step)
    ensures t < |Next(s, Wake(t)).tasks| && Holds(Next(s, Wake(t)), t, step)
  {
    hide Consistent, FlightOk;
    hide WellFormed, Fresh, TaskOk, TaskFresh, Sound;
  }

  lemma ReadHandsOn(s: State, t: nat, cacheable: bool, step: nat)
    requires WellFormed(s) && Fresh(s) && Enabled(s, ReadReturns(t, true, cacheable)) && WellFormed(Next(s, ReadReturns(t, true, cacheable)))
    requires HoldsItself(s, t, step)
    ensures t < |Next(s, ReadReturns(t, true, cacheable)).tasks| && Holds(Next(s, ReadReturns(t, true, cacheable)), t, step)
  {
    hide Consistent, FlightOk;
    hide WellFormed, Fresh, TaskOk, TaskFresh, Sound;
  }

  lemma ChildHandsOn(s: State, t: nat, step: nat)
    requires WellFormed(s) && Fresh(s) && Enabled(s, ChildReturned(t)) && WellFormed(Next(s, ChildReturned(t)))
    requires HoldsItself(s, t, step)
    ensures t < |Next(s, ChildReturned(t)).tasks| && Holds(Next(s, ChildReturned(t)), t, step)
  {
    hide Consistent, FlightOk;
    ChildSound(s, t);
    hide WellFormed, Fresh, TaskOk, TaskFresh, Sound;
  }

  lemma CreditsHandOn(s: State, t: nat, step: nat)
    requires WellFormed(s) && Fresh(s) && Enabled(s, CreditsReturn(t, true)) && WellFormed(Next(s, CreditsReturn(t, true)))
    requires HoldsItself(s, t, step)
    ensures t < |Next(s, CreditsReturn(t, true)).tasks| && Holds(Next(s, CreditsReturn(t, true)), t, step)
  {
    hide Consistent, FlightOk;
    hide WellFormed, Fresh, TaskOk, TaskFresh, Sound;
  }

  lemma FinishHandsOn(s: State, t: nat, victim: Option<Key>, step: nat)
    requires WellFormed(s) && Fresh(s) && Enabled(s, FinishLoad(t, victim)) && WellFormed(Next(s, FinishLoad(t, victim)))
    requires HoldsItself(s, t, step)
    ensures t < |Next(s, FinishLoad(t, victim)).tasks| && Holds(Next(s, FinishLoad(t, victim)), t, step)
  {
    hide Consistent, FlightOk;
    hide WellFormed, Fresh, TaskOk, TaskFresh, Sound;
  }

  lemma MoverHandsOn(s: State, e: Event, step: nat)
    requires WellFormed(s) && Fresh(s) && Enabled(s, e) && Internal(e) && WellFormed(Next(s, e))
    requires (e.ReadReturns? || e.CreditsReturn?) ==> e.ok
    requires e.task < |s.tasks| && WaitsFor(s, e.task).None? && HoldsItself(s, e.task, step)
    ensures e.task < |Next(s, e).tasks| && Holds(Next(s, e), e.task, step)
  {
    assert !e.Begin? && !e.StartLoad?;
    hide WellFormed, Fresh, HoldsItself;
    match e
    case ReadReturns(t, ok, cacheable) => ReadHandsOn(s, t, cacheable, step);
    case ChildReturned(t) => ChildHandsOn(s, t, step);
    case CreditsReturn(t, ok) => CreditsHandOn(s, t, step);
    case FinishLoad(t, victim) => FinishHandsOn(s, t, victim, step);
    case Wake(t) => WakeHandsOn(s, t, step);
    case _ =>
  }

  /** So does whoever waits for it. */
  lemma WaiterIsHanded(s: State, e: Event, i: nat, step: nat)
    requires WellFormed(s) && Enabled(s, e) && WellFormed(Next(s, e)) && Grows(s, Next(s, e), Mover(s, e))
    requires i < |s.tasks| && i != Mover(s, e) && WaitsFor(s, i).Some?
    requires WaitsFor(s, i).value < |Next(s, e).tasks| && Holds(Next(s, e), WaitsFor(s, i).value, step)
    ensures i < |Next(s, e).tasks| && Holds(Next(s, e), i, step)
  {
    if WaitsFor(Next(s, e), i).Some? {
      StillWaits(s, e, i);
    } else {
      NoLongerWaits(s, e, i, step);
    }
    hide Next, Enabled, WellFormed, WaitsFor, HoldsItself, Grows;
  }

  /** A get that holds a read and is not done can be moved on without losing it. */
  lemma {:induction false} CanHandOn(s: State, i: nat, step: nat) returns (e: Event)
    requires WellFormed(s) && Fresh(s) && i < |s.tasks| && s.tasks[i].Active() && Holds(s, i, step)
    ensures Internal(e) && Enabled(s, e) && WellFormed(Next(s, e))
    ensures e.task < |s.tasks| && WaitRank(s.tasks[e.task]) <= WaitRank(s.tasks[i])
    ensures i < |Next(s, e).tasks| && Holds(Next(s, e), i, step)
    decreases WaitRank(s.tasks[i])
  {
    if WaitsFor(s, i).None? {
      e := UnblockedCanMove(s, i);
      StepKeepsWellFormed(s, e);
      MoverHandsOn(s, e, step);
    } else {
      var j := WaitsFor(s, i).value;
      WaitingDescends(s, i);
      hide WellFormed, Fresh, Enabled, Next, WaitsFor, HoldsItself, WaitRank;
      e := CanHandOn(s, j, step);
      StepKeepsWellFormed(s, e);
      MoverOf(s, e);
      WaiterIsHanded(s, e, i, step);
    }
  }

  lemma MoverOf(s: State, e: Event)
    requires Internal(e)
    ensures Mover(s, e) == e.task
  {
  }

  predicate ReturnedWith(t: Task, step: nat) {
    t.phase.Returned? && OutcomeHolds(t.phase.outcome, step)
  }

  /** It can be moved on until it has returned, with the read in its outcome. */
  lemma {:induction false} CanReturnHeld(s: State, i: nat, step: nat) returns (events: seq<Event>)
    requires WellFormed(s) && Fresh(s) && i < |s.tasks| && s.tasks[i].LookedUp() && Holds(s, i, step)
    ensures ValidFrom(s, events) && i < |Run(s, events).tasks|
    ensures var t := Run(s, events).tasks[i];
            ReturnedWith(t, step) && t.key == s.tasks[i].key && t.lookedUp == s.tasks[i].lookedUp
    decreases Work(s.tasks)
  {
    if s.tasks[i].phase.Returned? {
      events := [];
    } else {
      var e := CanHandOn(s, i, step);
      StepKeepsFresh(s, e);
      StepKeepsWellFormed(s, e);
      InternalStepsUseWork(s, e);
      assert i == Mover(s, e) ==> TaskGrows(s, Next(s, e), i);
      var s' := Next(s, e);
      assert s'.tasks[i].key == s.tasks[i].key && s'.tasks[i].LookedUp() && s'.tasks[i].lookedUp == s.tasks[i].lookedUp;
      hide WellFormed, Fresh, Enabled, Next, Holds, Grows, ReturnedWith;
      var rest := CanReturnHeld(s', i, step);
      events := [e] + rest;
      assert events[1..] == rest;
    }
  }

  /** New callers do not disturb what is held. */
  lemma {:induction false} LookupsKeepHolding(s: State, e: Event, i: nat, step: nat)
    requires WellFormed(s) && Enabled(s, e) && (e.Call? || e.Begin?) && i < |s.tasks| && Holds(s, i, step)
    requires WellFormed(Next(s, e)) && Grows(s, Next(s, e), Mover(s, e))
    ensures i < |Next(s, e).tasks| && Holds(Next(s, e), i, step)
    decreases WaitRank(s.tasks[i])
  {
    if WaitsFor(s, i).Some? {
      WaitingDescends(s, i);
      LookupsKeepHolding(s, e, WaitsFor(s, i).value, step);
      assert e.Begin? ==> s.tasks[e.task].phase.Calling?;
      assert i != Mover(s, e);
      WaiterIsHanded(s, e, i, step);
    } else {
      HolderIsUndisturbed(s, e, i, step);
    }
  }

  lemma HolderIsUndisturbed(s: State, e: Event, i: nat, step: nat)
    requires WellFormed(s) && Enabled(s, e) && (e.Call? || e.Begin?) && i < |s.tasks|
    requires WaitsFor(s, i).None? && HoldsItself(s, i, step)
    requires WellFormed(Next(s, e)) && Grows(s, Next(s, e), Mover(s, e))
    ensures i < |Next(s, e).tasks| && Holds(Next(s, e), i, step)
  {
    var s' := Next(s, e);
    assert e.Begin? ==> s.tasks[e.task].phase.Calling?;
    assert TaskOk(s, i);
    if s.tasks[i].phase.Waiting? {
      ClosedOnceByLeader(s, e, s.tasks[i].flight.value);
    }
    hide Next, Enabled, WellFormed, TaskOk;
  }

  // -------------------------------------------------------------- what is held now

  /** The get has begun a read that has not failed, or has an outcome. */
  predicate HasReadItself(s: State, i: nat)
    requires i < |s.tasks| && |s.info| == |s.core.flights|
  {
    var t := s.tasks[i];
    match t.phase
    case Calling => false
    case Waiting => t.flight.Some? && t.flight.value < |s.info| && s.core.flights[t.flight.value].outcome.Ok?
    case Loading(Unstarted) => false
    case Loading(Querying(_)) => true
    case Loading(Fetching(c, _)) => c < |s.tasks| && s.tasks[c].phase.Returned? && s.tasks[c].phase.outcome.Ok?
    case Loading(Crediting(_, _, _, _)) => true
    case Loading(Done(load)) => load.outcome.Ok?
    case Returned(outcome, _) => outcome.Ok?
  }

  /** The get, or whoever it waits for in the end, has. */
  ghost predicate HasRead(s: State, i: nat)
    requires WellFormed(s) && i < |s.tasks|
    decreases WaitRank(s.tasks[i])
  {
    if WaitsFor(s, i).Some? then
      WaitingDescends(s, i);
      HasRead(s, WaitsFor(s, i).value)
    else HasReadItself(s, i)
  }

  /** A matching key has an unexpired entry, or a bound flight whose load has begun a read
      that has not failed, be it its own or one of the native get it waits for. */
  ghost predicate Held(s: State, target: Target)
    requires WellFormed(s)
  {
    || (exists k | k in s.core.entries :: Matches(target, k) && s.now < s.core.entries[k].expiresAt)
    || (exists k | k in s.core.inFlight :: Matches(target, k) && LoadHasRead(s, s.core.inFlight[k]))
  }

  ghost predicate LoadHasRead(s: State, f: nat)
    requires WellFormed(s) && f < |s.info|
  {
    assert FlightOk(s, f);
    HasRead(s, s.info[f].leader)
  }

  lemma RecordedReadsAreOld(s: State, key: Key, upto: nat, v: Value)
    requires WellFormed(s) && Sound(s, key, upto, v)
    ensures ReadBefore(v, s.step)
  {
    hide Consistent, TaskOk, FlightOk;
  }

  lemma OwnReadsAreOld(s: State, i: nat)
    requires WellFormed(s) && Fresh(s) && i < |s.tasks| && WaitsFor(s, i).None?
    ensures HasReadItself(s, i) <==> HoldsItself(s, i, s.step)
  {
    assert TaskOk(s, i) && TaskFresh(s, i);
    var t := s.tasks[i];
    match t.phase {
      case Waiting =>
        var f := t.flight.value;
        assert FlightFresh(s, f);
        if s.core.flights[f].outcome.Ok? {
          RecordedReadsAreOld(s, s.info[f].key, s.info[f].began, s.core.flights[f].outcome.value);
        }
      case Returned(outcome, _) =>
        if outcome.Ok? {
          RecordedReadsAreOld(s, t.key, t.lookedUp, outcome.value);
        }
      case Loading(p) =>
        if p.Done? && p.load.outcome.Ok? {
          RecordedReadsAreOld(s, t.key, t.lookedUp, p.load.outcome.value);
        }
        if p.Fetching? && s.tasks[p.child].phase.Returned? && s.tasks[p.child].phase.outcome.Ok? {
          assert TaskFresh(s, p.child);
          RecordedReadsAreOld(s, s.tasks[p.child].key, s.tasks[p.child].lookedUp, s.tasks[p.child].phase.outcome.value);
        }
      case Calling =>
    }
    hide WellFormed, Fresh, TaskFresh, FlightFresh, Sound;
  }

  /** Whatever read there is now began before now. */
  lemma {:induction false} ReadsAreOld(s: State, i: nat)
    requires WellFormed(s) && Fresh(s) && i < |s.tasks|
    ensures HasRead(s, i) <==> Holds(s, i, s.step)
    decreases WaitRank(s.tasks[i])
  {
    if WaitsFor(s, i).Some? {
      WaitingDescends(s, i);
      hide WellFormed, Fresh, WaitsFor;
      ReadsAreOld(s, WaitsFor(s, i).value);
    } else {
      OwnReadsAreOld(s, i);
    }
  }

  // ------------------------------------------------------------------- the theorem

  /** In this run from s, get i looks up at the given step or later, and returns quota of
      the target read before it. */
  predicate Serves(s: State, events: seq<Event>, i: nat, target: Target, step: nat) {
    && ValidFrom(s, events) && i < |Run(s, events).tasks|
    && Matches(target, Run(s, events).tasks[i].key)
    && step <= Run(s, events).tasks[i].lookedUp
    && ReturnedWith(Run(s, events).tasks[i], step)
  }

  lemma TwoMore(s: State, a: Event, b: Event, rest: seq<Event>)
    requires Enabled(s, a) && Enabled(Next(s, a), b) && ValidFrom(Next(Next(s, a), b), rest)
    ensures ValidFrom(s, [a, b] + rest) && Run(s, [a, b] + rest) == Run(Next(Next(s, a), b), rest)
  {
    hide Next, Enabled;
    var events := [a, b] + rest;
    assert events[1..] == [b] + rest && events[1..][1..] == rest;
  }

  lemma EntryIsServed(s: State, target: Target, k: Key) returns (events: seq<Event>)
    requires WellFormed(s) && Fresh(s) && k in s.core.entries && Matches(target, k) && s.now < s.core.entries[k].expiresAt
    ensures Serves(s, events, |s.tasks|, target, s.step)
  {
    var n := |s.tasks|;
    var s1 := Next(s, Call(k));
    RecordedReadsAreOld(s, k, s.step, s.core.entries[k].value);
    CallerArrives(s, k);
    assert !Bypasses(s, k) && !Bypasses(s1, k);
    hide Next, Enabled, Matches, ReadBefore, Fresh, WellFormed, Bypasses;
    CallerHits(s1, n, k);
    var s2 := Next(s1, Begin(n));
    TwoMore(s, Call(k), Begin(n), []);
    assert Run(s2, []) == s2;
    events := [Call(k), Begin(n)] + [];
  }

  lemma CallerHits(s: State, n: nat, k: Key)
    requires n < |s.tasks| && s.tasks[n] == Task(k, None, 0, None, Calling) && !Bypasses(s, k)
    requires k in s.core.entries && s.now < s.core.entries[k].expiresAt
    ensures Enabled(s, Begin(n))
    ensures var entry, s2 := s.core.entries[k], Next(s, Begin(n));
            && n < |s2.tasks|
            && s2.tasks[n] == Task(k, None, s.step, None, Returned(Ok(entry.value), Times(entry.insertedAt, s.now, s.now)))
  {
  }

  /** A caller that joins the flight. */
  lemma JoinHolds(s: State, k: Key) returns (s2: State)
    requires WellFormed(s) && Fresh(s) && k in s.core.inFlight && LoadHolds(s, s.core.inFlight[k], s.step)
    ensures Enabled(s, Call(k)) && Enabled(Next(s, Call(k)), Begin(|s.tasks|)) && s2 == Next(Next(s, Call(k)), Begin(|s.tasks|))
    ensures WellFormed(s2) && Fresh(s2) && |s.tasks| < |s2.tasks|
    ensures var t := s2.tasks[|s.tasks|];
            t.key == k && t.LookedUp() && t.lookedUp == s.step + 1 && Holds(s2, |s.tasks|, s.step)
  {
    BoundFlight(s, k);
    CallerArrives(s, k);
    hide Next, Enabled, Fresh, FlightOk, TaskOk, Consistent, Grows, Extends, HoldsItself, WellFormed, Mover;
    hide Holds, LoadHolds;
    var n, f := |s.tasks|, s.core.inFlight[k];
    var l := s.info[f].leader;
    LoadIsLeaders(s, f, s.step);
    StepKeepsFresh(s, Call(k));
    StepKeepsWellFormed(s, Call(k));
    LookupsKeepHolding(s, Call(k), l, s.step);
    CallerHolds(Next(s, Call(k)), n, k, f, s.step);
    s2 := Next(Next(s, Call(k)), Begin(n));
  }

  lemma CallerHolds(s: State, n: nat, k: Key, f: nat, step: nat)
    requires WellFormed(s) && Fresh(s) && n < |s.tasks| && s.tasks[n] == Task(k, None, 0, None, Calling)
    requires Bound(s.core, k, f) && f < |s.info| && s.info[f].leader < |s.tasks| && Holds(s, s.info[f].leader, step)
    ensures Enabled(s, Begin(n))
    ensures var s2 := Next(s, Begin(n));
            && WellFormed(s2) && Fresh(s2) && n < |s2.tasks| && s2.tasks[n] == Task(k, None, s.step, Some(f), Waiting)
            && Holds(s2, n, step)
  {
    CallerJoins(s, n, k, f);
    hide Next, Enabled, Fresh, FlightOk, TaskOk, Consistent, Grows, Extends, HoldsItself, WellFormed, Mover, Holds;
    var l, s2 := s.info[f].leader, Next(s, Begin(n));
    StepKeepsFresh(s, Begin(n));
    StepKeepsWellFormed(s, Begin(n));
    LookupsKeepHolding(s, Begin(n), l, step);
    assert WaitsFor(s2, n) == Some(l);
    WaiterHolds(s2, n, step);
  }

  lemma LoadIsLeaders(s: State, f: nat, step: nat)
    requires WellFormed(s) && f < |s.info| && LoadHolds(s, f, step)
    ensures s.info[f].leader < |s.tasks| && Holds(s, s.info[f].leader, step)
  {
    assert FlightOk(s, f);
  }

  lemma WaiterHolds(s: State, i: nat, step: nat)
    requires WellFormed(s) && i < |s.tasks| && WaitsFor(s, i).Some?
    requires WaitsFor(s, i).value < |s.tasks| && Holds(s, WaitsFor(s, i).value, step)
    ensures Holds(s, i, step)
  {
  }

  lemma BoundFlight(s: State, k: Key)
    requires WellFormed(s) && k in s.core.inFlight
    ensures |s.info| == |s.core.flights| && s.core.inFlight[k] < |s.info| && s.info[s.core.inFlight[k]].leader < |s.tasks|
  {
    assert FlightOk(s, s.core.inFlight[k]);
  }

  lemma CallerArrives(s: State, k: Key)
    ensures Enabled(s, Call(k))
    ensures Next(s, Call(k)) == s.(tasks := s.tasks + [Task(k, None, 0, None, Calling)], step := s.step + 1)
  {
  }

  lemma CallerJoins(s: State, n: nat, k: Key, f: nat)
    requires WellFormed(s) && n < |s.tasks| && s.tasks[n] == Task(k, None, 0, None, Calling) && Bound(s.core, k, f)
    ensures Enabled(s, Begin(n))
    ensures var s2 := Next(s, Begin(n));
            && n < |s2.tasks| && s2.tasks[n] == Task(k, None, s.step, Some(f), Waiting)
            && |s2.info| == |s2.core.flights| && f < |s2.info| && s2.info[f] == s.info[f] && !s2.core.flights[f].done
  {
    assert FlightOk(s, f);
    BeginShape(s, Next(s, Begin(n)), n);
    hide Next, FlightOk, TaskOk;
  }

  lemma FlightIsServed(s: State, target: Target, k: Key) returns (events: seq<Event>)
    requires WellFormed(s) && Fresh(s) && k in s.core.inFlight && Matches(target, k)
    requires LoadHolds(s, s.core.inFlight[k], s.step)
    ensures Serves(s, events, |s.tasks|, target, s.step)
  {
    var s2 := JoinHolds(s, k);
    hide Next, Enabled, Fresh, WellFormed, Matches, Holds, LoadHolds, ReturnedWith;
    var rest := CanReturnHeld(s2, |s.tasks|, s.step);
    TwoMore(s, Call(k), Begin(|s.tasks|), rest);
    events := [Call(k), Begin(|s.tasks|)] + rest;
  }

  lemma NothingHeldIsClean(s: State, target: Target)
    requires WellFormed(s) && Fresh(s) && !Held(s, target)
    ensures Clean(s, target, s.step)
  {
    forall k | k in s.core.inFlight && Matches(target, k)
      ensures !LoadHolds(s, s.core.inFlight[k], s.step)
    {
      var f := s.core.inFlight[k];
      assert !LoadHasRead(s, f) && FlightOk(s, f);
      ReadsAreOld(s, s.info[f].leader);
    }
    forall i | 0 <= i < |s.tasks| && s.tasks[i].LookedUp()
      ensures s.tasks[i].lookedUp < s.step
    {
      assert TaskOk(s, i);
    }
    hide Fresh, Holds, Matches;
  }

  lemma CleanServesNothing(s: State, events: seq<Event>, i: nat, target: Target)
    requires WellFormed(s) && Clean(s, target, s.step) && ValidFrom(s, events)
    ensures !Serves(s, events, i, target, s.step)
  {
    RunKeepsClean(s, events, target, s.step);
    if i < |Run(s, events).tasks| && Run(s, events).tasks[i].phase.Returned? {
      assert WaitsFor(Run(s, events), i).None?;
    }
    hide Run, ValidFrom, WellFormed;
  }

  /** In every reachable state: some run from here has a get of the target that looks up
      from now on and returns quota read before now, exactly when such quota is held. */
  lemma OldQuotaIsServedExactlyWhenHeld(s: State, target: Target)
    requires Reachable(s)
    ensures WellFormed(s)
    ensures (exists events, i :: Serves(s, events, i, target, s.step)) <==> Held(s, target)
  {
    ReachableFresh(s);
    hide Reachable, WellFormed, Fresh, Serves;
    if Held(s, target) {
      if k :| k in s.core.entries && Matches(target, k) && s.now < s.core.entries[k].expiresAt {
        var events := EntryIsServed(s, target, k);
      } else {
        var k :| k in s.core.inFlight && Matches(target, k) && LoadHasRead(s, s.core.inFlight[k]);
        BoundReadIsOld(s, k);
        var events := FlightIsServed(s, target, k);
      }
    } else {
      NothingHeldIsClean(s, target);
      forall events, i | Serves(s, events, i, target, s.step)
        ensures false
      {
        ServesValid(s, events, i, target, s.step);
        CleanServesNothing(s, events, i, target);
      }
    }
  }

  lemma BoundReadIsOld(s: State, k: Key)
    requires WellFormed(s) && Fresh(s) && k in s.core.inFlight && LoadHasRead(s, s.core.inFlight[k])
    ensures LoadHolds(s, s.core.inFlight[k], s.step)
  {
    assert FlightOk(s, s.core.inFlight[k]);
    ReadsAreOld(s, s.info[s.core.inFlight[k]].leader);
  }

  lemma ServesValid(s: State, events: seq<Event>, i: nat, target: Target, step: nat)
    requires Serves(s, events, i, target, step)
    ensures ValidFrom(s, events)
  {
  }

  lemma ReadBeforeIsNotAfter(v: Value, at: nat)
    ensures ReadBefore(v, at + 1) <==> !v.BeganAfter(at)
  {
  }

  /** From s, some get of the target that looks up after the given step can return quota
      that was not all read after it. */
  predicate ServesStale(s: State, events: seq<Event>, i: nat, target: Target, at: nat) {
    && ValidFrom(s, events) && i < |Run(s, events).tasks|
    && var t := Run(s, events).tasks[i];
       Matches(target, t.key) && at < t.lookedUp && t.phase.Returned? && t.phase.outcome.Ok? && !t.phase.outcome.value.BeganAfter(at)
  }

  /** Reset and cache together: a consume request has just been answered. Some later get of
      the credential can return quota read before the answer exactly when a matching key
      has an unexpired entry, or a bound flight whose load has begun a read. */
  lemma StaleAfterConsumeExactlyWhenHeld(s: State, reset: nat)
    requires Reachable(s) && reset < |s.resets|
    ensures var answered := Next(s, ConsumeReturns(reset));
            && WellFormed(answered)
            && answered.consumed == s.consumed + [Consumption(reset, s.step)]
            && ((exists events, i :: ServesStale(answered, events, i, s.resets[reset].target, s.step))
                <==> Held(answered, s.resets[reset].target))
  {
    AnswerArrives(s, reset);
    hide Next, Enabled, Reachable, WellFormed, Fresh, Held, Serves, ServesStale, Grows, Extends;
    var answered, target := Next(s, ConsumeReturns(reset)), s.resets[reset].target;
    ReachableNext(s, ConsumeReturns(reset));
    OldQuotaIsServedExactlyWhenHeld(answered, target);
    assert answered.step == s.step + 1;
    if events, i: nat :| ServesStale(answered, events, i, target, s.step) {
      StaleIsReadBefore(answered, events, i, target, s.step);
      assert Serves(answered, events, i, target, answered.step);
    }
    if events, i: nat :| Serves(answered, events, i, target, answered.step) {
      StaleIsReadBefore(answered, events, i, target, s.step);
      assert ServesStale(answered, events, i, target, s.step);
    }
  }

  lemma AnswerArrives(s: State, reset: nat)
    requires reset < |s.resets|
    ensures Enabled(s, ConsumeReturns(reset))
    ensures Next(s, ConsumeReturns(reset)) == s.(consumed := s.consumed + [Consumption(reset, s.step)], step := s.step + 1)
  {
  }

  lemma StaleIsReadBefore(s: State, events: seq<Event>, i: nat, target: Target, at: nat)
    ensures ServesStale(s, events, i, target, at) <==> Serves(s, events, i, target, at + 1)
  {
    hide Run, ValidFrom, Matches;
    if ValidFrom(s, events) && i < |Run(s, events).tasks| {
      var t := Run(s, events).tasks[i];
      if t.phase.Returned? && t.phase.outcome.Ok? {
        ReadBeforeIsNotAfter(t.phase.outcome.value, at);
      }
    }
  }
}
