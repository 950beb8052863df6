/** Who holds quota read before a given step, and that nobody comes to hold it once no
    matching entry or bound load does. */
module CacheStaleness {
  import opened Text
  import opened CacheKey
  import opened CacheCore
  import opened CacheSystem
  import opened CacheInvariant
  import opened CacheProgress

  /** Some upstream read in the value began before the given step. */
  predicate ReadBefore(v: Value, step: nat) {
    match v
    case Native(u) => u.began < step
    case Resource(u, _, c) => u.began < step || (c.Some? && c.value.began < step)
    case Query(q) => q.began < step
  }

  predicate OutcomeHolds(o: Outcome, step: nat) {
    o.Ok? && ReadBefore(o.value, step)
  }

  /** A get that waits for nobody holds a read begun before the given step: it is making
      one, or has an outcome with one in its hands. */
  predicate HoldsItself(s: State, i: nat, step: nat)
    requires i < |s.tasks| && |s.info| == |s.core.flights|
  {
    var t := s.tasks[i];
    match t.phase
    case Calling => false
    case Waiting => t.flight.Some? && t.flight.value < |s.info| && OutcomeHolds(s.core.flights[t.flight.value].outcome, step)
    case Loading(Unstarted) => false
    case Loading(Querying(b)) => b < step
    case Loading(Fetching(c, _)) => c < |s.tasks| && s.tasks[c].phase.Returned? && OutcomeHolds(s.tasks[c].phase.outcome, step)
    case Loading(Crediting(u, _, _, b)) => u.began < step || b < step
    case Loading(Done(load)) => OutcomeHolds(load.outcome, step)
    case Returned(outcome, _) => OutcomeHolds(outcome, step)
  }

  /** The get, or whoever it waits for in the end, does. */
  ghost predicate Holds(s: State, i: nat, step: nat)
    requires WellFormed(s) && i < |s.tasks|
    decreases WaitRank(s.tasks[i])
  {
    if WaitsFor(s, i).Some? then
      WaitingDescends(s, i);
      Holds(s, WaitsFor(s, i).value, step)
    else HoldsItself(s, i, step)
  }

  ghost predicate LoadHolds(s: State, f: nat, step: nat)
    requires WellFormed(s) && f < |s.info|
  {
    assert FlightOk(s, f);
    Holds(s, s.info[f].leader, step)
  }

  // -------------------------------------------------------- nothing held, nothing served

  ghost predicate Clean(s: State, target: Target, step: nat)
    requires WellFormed(s)
  {
    && (forall k | k in s.core.entries && Matches(target, k) && s.now < s.core.entries[k].expiresAt ::
          !ReadBefore(s.core.entries[k].value, step))
    && (forall k | k in s.core.inFlight && Matches(target, k) :: !LoadHolds(s, s.core.inFlight[k], step))
    && (forall i | 0 <= i < |s.tasks| && Matches(target, s.tasks[i].key) && s.tasks[i].LookedUp() && step <= s.tasks[i].lookedUp ::
          !Holds(s, i, step))
  }

  /** A step of a get other than its lookup, which also waits for nobody afterwards unless
      for a new child: what it holds then, it held before. */
  predicate Proceeds(e: Event) {
    e.Cancel? || e.StartLoad? || e.ReadReturns? || e.ChildReturned? || e.CreditsReturn? || e.FinishLoad? || e.Wake?
  }

  ghost predicate GainsNothing(s: State, s': State, t: nat, step: nat)
    requires |s.info| == |s.core.flights| && |s'.info| == |s'.core.flights|
  {
    && t < |s.tasks| <= |s'.tasks|
    && (WaitsFor(s', t).Some? ==>
          WaitsFor(s', t) == Some(|s.tasks|) && |s.tasks| < |s'.tasks| && s'.tasks[|s.tasks|].phase.Calling?)
    && (HoldsItself(s', t, step) ==> WaitsFor(s, t).None? && HoldsItself(s, t, step))
  }

  lemma ProceedingGainsNothing(s: State, e: Event, step: nat)
    requires WellFormed(s) && Enabled(s, e) && Proceeds(e) && WellFormed(Next(s, e)) && step <= s.step
    ensures GainsNothing(s, Next(s, e), e.task, step)
  {
    var t := e.task;
    match e
    case Cancel(_) => CancelGainsNothing(s, t, step);
    case StartLoad(_, child) => StartLoadGainsNothing(s, t, child, step);
    case ReadReturns(_, ok, cacheable) => ReadReturnsGainsNothing(s, t, ok, cacheable, step);
    case ChildReturned(_) => ChildReturnedGainsNothing(s, t, step);
    case CreditsReturn(_, ok) => CreditsReturnGainsNothing(s, t, ok, step);
    case FinishLoad(_, victim) => FinishLoadGainsNothing(s, t, victim, step);
    case Wake(_) => WakeGainsNothing(s, t, step);
  }

  lemma CancelGainsNothing(s: State, t: nat, step: nat)
    requires WellFormed(s) && Enabled(s, Cancel(t)) && WellFormed(Next(s, Cancel(t))) && step <= s.step
    ensures GainsNothing(s, Next(s, Cancel(t)), t, step)
  {
    hide Consistent, FlightOk;
    assert TaskOk(s, t);
    hide WellFormed, TaskOk;
  }

  lemma StartLoadGainsNothing(s: State, t: nat, child: Key, step: nat)
    requires WellFormed(s) && Enabled(s, StartLoad(t, child)) && WellFormed(Next(s, StartLoad(t, child))) && step <= s.step
    ensures GainsNothing(s, Next(s, StartLoad(t, child)), t, step)
  {
    hide Consistent, FlightOk;
    assert TaskOk(s, t);
    hide WellFormed, TaskOk;
  }

  lemma ReadReturnsGainsNothing(s: State, t: nat, ok: bool, cacheable: bool, step: nat)
    requires WellFormed(s) && Enabled(s, ReadReturns(t, ok, cacheable)) && WellFormed(Next(s, ReadReturns(t, ok, cacheable))) && step <= s.step
    ensures GainsNothing(s, Next(s, ReadReturns(t, ok, cacheable)), t, step)
  {
    hide Consistent, FlightOk;
    assert TaskOk(s, t);
    hide WellFormed, TaskOk;
  }

  lemma ChildReturnedGainsNothing(s: State, t: nat, step: nat)
    requires WellFormed(s) && Enabled(s, ChildReturned(t)) && WellFormed(Next(s, ChildReturned(t))) && step <= s.step
    ensures GainsNothing(s, Next(s, ChildReturned(t)), t, step)
  {
    hide Consistent, FlightOk;
    assert TaskOk(s, t);
    hide WellFormed, TaskOk;
  }

  lemma CreditsReturnGainsNothing(s: State, t: nat, ok: bool, step: nat)
    requires WellFormed(s) && Enabled(s, CreditsReturn(t, ok)) && WellFormed(Next(s, CreditsReturn(t, ok))) && step <= s.step
    ensures GainsNothing(s, Next(s, CreditsReturn(t, ok)), t, step)
  {
    hide Consistent, FlightOk;
    assert TaskOk(s, t);
    hide WellFormed, TaskOk;
  }

  lemma FinishLoadGainsNothing(s: State, t: nat, victim: Option<Key>, step: nat)
    requires WellFormed(s) && Enabled(s, FinishLoad(t, victim)) && WellFormed(Next(s, FinishLoad(t, victim))) && step <= s.step
    ensures GainsNothing(s, Next(s, FinishLoad(t, victim)), t, step)
  {
    hide Consistent, FlightOk;
    assert TaskOk(s, t);
    hide WellFormed, TaskOk;
  }

  lemma WakeGainsNothing(s: State, t: nat, step: nat)
    requires WellFormed(s) && Enabled(s, Wake(t)) && WellFormed(Next(s, Wake(t))) && step <= s.step
    ensures GainsNothing(s, Next(s, Wake(t)), t, step)
  {
    hide Consistent, FlightOk;
    assert TaskOk(s, t);
    hide WellFormed, TaskOk;
  }

  /** A lookup finds only what is not held: a hit that is fresh, or a flight whose load
      holds no read from before. */
  lemma LookupGainsNothing(s: State, t: nat, target: Target, step: nat)
    requires WellFormed(s) && Clean(s, target, step) && Enabled(s, Begin(t)) && Matches(target, s.tasks[t].key)
    requires WellFormed(Next(s, Begin(t)))
    ensures NewlyClean(s, Next(s, Begin(t)), t, target, step)
  {
    var s', key := Next(s, Begin(t)), s.tasks[t].key;
    if Bypasses(s, key) || Lookup(s.core, key, s.now).1.Hit? {
      UnflownGainsNothing(s, t, target, step);
    } else {
      BeginShape(s, s', t);
      hide Next, Enabled, Clean, Holds;
      if key in s.core.inFlight {
        JoinGainsNothing(s, s', t, target, step);
      } else {
        LeadGainsNothing(s, s', t, |s.core.flights|, target, step);
      }
    }
  }

  lemma UnflownGainsNothing(s: State, t: nat, target: Target, step: nat)
    requires WellFormed(s) && Clean(s, target, step) && Enabled(s, Begin(t)) && Matches(target, s.tasks[t].key)
    requires WellFormed(Next(s, Begin(t)))
    requires Bypasses(s, s.tasks[t].key) || Lookup(s.core, s.tasks[t].key, s.now).1.Hit?
    ensures NewlyClean(s, Next(s, Begin(t)), t, target, step)
  {
    hide WellFormed, Holds, LoadHolds, Matches;
  }

  lemma LeadGainsNothing(s: State, s': State, t: nat, f: nat, target: Target, step: nat)
    requires WellFormed(s) && WellFormed(s') && t < |s.tasks| && LeadShape(s, s', t, f)
    ensures NewlyClean(s, s', t, target, step)
  {
    hide WellFormed, Holds;
  }

  ghost predicate NewlyClean(s: State, s': State, t: nat, target: Target, step: nat)
    requires WellFormed(s) && WellFormed(s')
  {
    && t < |s.tasks| == |s'.tasks|
    && (WaitsFor(s', t).None? ==> !HoldsItself(s', t, step))
    && (WaitsFor(s', t).Some? ==>
          var j := WaitsFor(s', t).value;
          j < |s.tasks| && j != t && Matches(target, s.tasks[j].key) && !Holds(s, j, step))
  }

  lemma JoinGainsNothing(s: State, s': State, t: nat, target: Target, step: nat)
    requires WellFormed(s) && WellFormed(s') && Clean(s, target, step)
    requires t < |s.tasks| && s.tasks[t].phase.Calling? && Matches(target, s.tasks[t].key)
    requires s.tasks[t].key in s.core.inFlight && JoinShape(s, s', t, s.core.inFlight[s.tasks[t].key])
    ensures NewlyClean(s, s', t, target, step)
  {
    var f := s.core.inFlight[s.tasks[t].key];
    assert FlightOk(s, f) && TaskOk(s, s.info[f].leader);
    assert !LoadHolds(s, f, step);
    hide Clean, Holds;
  }

  // The steps of one get, seen from a get that waits for it.

  lemma ClosedNow(s: State, e: Event, f: nat)
    requires WellFormed(s) && Enabled(s, e) && f < |s.core.flights| && !s.core.flights[f].done
    requires f < |Next(s, e).core.flights| && Next(s, e).core.flights[f].done
    ensures e.FinishLoad? && e.task == s.info[f].leader < |s.tasks| == |Next(s, e).tasks|
    ensures var t := Next(s, e).tasks[e.task];
            t.phase.Returned? && t.phase.outcome == Next(s, e).core.flights[f].outcome
  {
    ClosedOnceByLeader(s, e, f);
    assert FlightOk(s, f) && TaskOk(s, e.task);
    FinishShape(s, Next(s, e), e.task, e.victim);
    hide Next, Enabled, WellFormed, Consistent, TaskOk, FlightOk;
  }

  lemma MoverWasActive(s: State, e: Event)
    requires Enabled(s, e) && Mover(s, e) < |s.tasks|
    ensures s.tasks[Mover(s, e)].Active()
  {
  }

  /** Waiting is only ever entered by the waiter's own step. */
  lemma StillWaits(s: State, e: Event, i: nat)
    requires WellFormed(s) && Enabled(s, e) && WellFormed(Next(s, e)) && Grows(s, Next(s, e), Mover(s, e))
    requires i < |s.tasks| && i != Mover(s, e) && WaitsFor(Next(s, e), i).Some?
    ensures WaitsFor(s, i) == WaitsFor(Next(s, e), i) && WaitsFor(s, i).value < |s.tasks|
    ensures SameCredential(s.tasks[WaitsFor(s, i).value].key, s.tasks[i].key)
  {
    var s' := Next(s, e);
    if Mover(s, e) < |s.tasks| {
      MoverWasActive(s, e);
    }
    hide Next, Enabled, Consistent, TaskGrows;
    assert TaskOk(s, i);
    assert s'.tasks[i] == s.tasks[i];
    if s.tasks[i].phase.Waiting? {
      var f := s.tasks[i].flight.value;
      assert FlightGrows(s, s', Mover(s, e), f) && FlightOk(s, f) && TaskOk(s, s.info[f].leader);
      hide WellFormed, Grows, FlightOk;
    } else {
      hide WellFormed, FlightGrows, FlightOk;
    }
  }

  /** What a waiter gets when its waiting ends is what the one it waited for has. */
  lemma NoLongerWaits(s: State, e: Event, i: nat, step: nat)
    requires WellFormed(s) && Enabled(s, e) && WellFormed(Next(s, e)) && Grows(s, Next(s, e), Mover(s, e))
    requires i < |s.tasks| && i != Mover(s, e) && WaitsFor(Next(s, e), i).None?
    ensures WaitsFor(s, i).None? ==> (HoldsItself(Next(s, e), i, step) <==> HoldsItself(s, i, step))
    ensures WaitsFor(s, i).Some? ==>
              var s', j := Next(s, e), WaitsFor(s, i).value;
              && j == Mover(s, e) < |s.tasks| && WaitsFor(s', j).None?
              && (HoldsItself(s', i, step) <==> HoldsItself(s', j, step))
              && SameCredential(s.tasks[j].key, s.tasks[i].key)
              && WaitRank(s'.tasks[j]) < WaitRank(s'.tasks[i])
  {
    if s.tasks[i].phase.Waiting? {
      WaiterWakes(s, e, i, step);
    } else {
      ParentResumes(s, e, i, step);
    }
  }

  lemma ParentResumes(s: State, e: Event, i: nat, step: nat)
    requires WellFormed(s) && Enabled(s, e) && WellFormed(Next(s, e)) && Grows(s, Next(s, e), Mover(s, e))
    requires i < |s.tasks| && i != Mover(s, e) && WaitsFor(Next(s, e), i).None? && !s.tasks[i].phase.Waiting?
    ensures WaitsFor(s, i).None? ==> (HoldsItself(Next(s, e), i, step) <==> HoldsItself(s, i, step))
    ensures WaitsFor(s, i).Some? ==>
              var s', j := Next(s, e), WaitsFor(s, i).value;
              && j == Mover(s, e) < |s.tasks| && WaitsFor(s', j).None?
              && (HoldsItself(s', i, step) <==> HoldsItself(s', j, step))
              && SameCredential(s.tasks[j].key, s.tasks[i].key)
              && WaitRank(s'.tasks[j]) < WaitRank(s'.tasks[i])
  {
    if Mover(s, e) < |s.tasks| {
      MoverWasActive(s, e);
    }
    hide Next, Enabled, FlightOk, Consistent, FlightGrows;
    var s' := Next(s, e);
    assert TaskOk(s, i);
    hide WellFormed;
    assert s'.tasks[i] == s.tasks[i];
    var t := s.tasks[i];
    if t.phase.Loading? && t.phase.progress.Fetching? {
      var c := t.phase.progress.child;
      assert c != Mover(s, e) ==> s'.tasks[c] == s.tasks[c];
    }
  }

  lemma WaiterWakes(s: State, e: Event, i: nat, step: nat)
    requires WellFormed(s) && Enabled(s, e) && WellFormed(Next(s, e)) && Grows(s, Next(s, e), Mover(s, e))
    requires i < |s.tasks| && i != Mover(s, e) && WaitsFor(Next(s, e), i).None? && s.tasks[i].phase.Waiting?
    ensures WaitsFor(s, i).None? ==> (HoldsItself(Next(s, e), i, step) <==> HoldsItself(s, i, step))
    ensures WaitsFor(s, i).Some? ==>
              var s', j := Next(s, e), WaitsFor(s, i).value;
              && j == Mover(s, e) < |s.tasks| && WaitsFor(s', j).None?
              && (HoldsItself(s', i, step) <==> HoldsItself(s', j, step))
              && SameCredential(s.tasks[j].key, s.tasks[i].key)
              && WaitRank(s'.tasks[j]) < WaitRank(s'.tasks[i])
  {
    var s' := Next(s, e);
    assert TaskOk(s, i);
    var f := s.tasks[i].flight.value;
    assert FlightOk(s, f) && TaskOk(s, s.info[f].leader);
    assert FlightGrows(s, s', Mover(s, e), f);
    if !s.core.flights[f].done {
      ClosedNow(s, e, f);
    } else {
      ClosedOnceByLeader(s, e, f);
    }
    hide Next, Enabled, WellFormed, FlightOk, Consistent;
  }

  /** In a state that holds nothing for the target, no step makes a get of the target hold
      a read from before that it did not hold. */
  lemma {:induction false} StepGainsNothing(s: State, e: Event, target: Target, step: nat, i: nat)
    requires WellFormed(s) && Clean(s, target, step) && Enabled(s, e) && step <= s.step && WellFormed(Next(s, e))
    requires Grows(s, Next(s, e), Mover(s, e))
    requires i < |s.tasks| && Matches(target, s.tasks[i].key)
    ensures i < |Next(s, e).tasks| && (Holds(Next(s, e), i, step) ==> Holds(s, i, step))
    decreases WaitRank(Next(s, e).tasks[i])
  {
    var s' := Next(s, e);
    if i == Mover(s, e) {
      MoverGains(s, e, target, step);
      hide Next, Enabled, Clean, Grows, WaitsFor, HoldsItself, Matches, WaitRank;
      if WaitsFor(s', i).Some? && WaitsFor(s', i).value < |s.tasks| {
        WaitingDescends(s', i);
        StepGainsNothing(s, e, target, step, WaitsFor(s', i).value);
      }
    } else if WaitsFor(s', i).Some? {
      WaitingDescends(s', i);
      StillWaits(s, e, i);
      assert Matches(target, s.tasks[WaitsFor(s', i).value].key);
      hide Next, Enabled, Clean, Grows, WaitsFor, HoldsItself, Matches, WaitRank;
      StepGainsNothing(s, e, target, step, WaitsFor(s', i).value);
    } else {
      NoLongerWaits(s, e, i, step);
      assert WaitsFor(s, i).Some? ==> Matches(target, s.tasks[WaitsFor(s, i).value].key);
      hide Next, Enabled, Clean, Grows, WaitsFor, HoldsItself, Matches, WaitRank;
      if WaitsFor(s, i).Some? {
        StepGainsNothing(s, e, target, step, WaitsFor(s, i).value);
      }
    }
  }

  /** The case of the step's own get. */
  lemma MoverGains(s: State, e: Event, target: Target, step: nat)
    requires WellFormed(s) && Clean(s, target, step) && Enabled(s, e) && step <= s.step && WellFormed(Next(s, e))
    requires Mover(s, e) < |s.tasks| && Matches(target, s.tasks[Mover(s, e)].key)
    ensures var t, s' := Mover(s, e), Next(s, e);
            && t < |s'.tasks|
            && (WaitsFor(s', t).None? && HoldsItself(s', t, step) ==> Holds(s, t, step))
            && (WaitsFor(s', t).Some? ==>
                  var j := WaitsFor(s', t).value;
                  && j < |s'.tasks|
                  && (j < |s.tasks| ==> Matches(target, s.tasks[j].key) && !Holds(s, j, step))
                  && (j >= |s.tasks| ==> !Holds(s', j, step)))
  {
    var t, s' := Mover(s, e), Next(s, e);
    if e.Begin? {
      LookupGainsNothing(s, t, target, step);
    } else {
      ProceedingGainsNothing(s, e, step);
    }
    hide Next, Enabled, Clean, WellFormed;
  }

  /** An entry is old, or is the outcome of a load whose flight was bound. */
  ghost predicate EntryKept(s: State, s': State, e: Event, k: Key)
    requires k in s'.core.entries
  {
    || (k in s.core.entries && s'.core.entries[k] == s.core.entries[k])
    || (&& e.FinishLoad? && e.task < |s.tasks| && s.tasks[e.task].phase.Loading? && s.tasks[e.task].phase.progress.Done?
        && s.tasks[e.task].flight.Some? && Bound(s.core, k, s.tasks[e.task].flight.value)
        && s.tasks[e.task].phase.progress.load.outcome == Ok(s'.core.entries[k].value))
  }

  /** A binding is old, or has just been made by its leader. */
  ghost predicate BindingKept(s: State, s': State, e: Event, k: Key)
    requires k in s'.core.inFlight
  {
    var f := s'.core.inFlight[k];
    || Bound(s.core, k, f)
    || (&& e.Begin? && e.task < |s.tasks| <= |s'.tasks| && |s.info| <= f < |s'.info|
        && s'.info[f].leader == e.task && s'.tasks[e.task].phase == Loading(Unstarted))
  }

  lemma CacheKept(s: State, e: Event)
    requires WellFormed(s) && Enabled(s, e)
    ensures forall k | k in Next(s, e).core.entries :: EntryKept(s, Next(s, e), e, k)
    ensures forall k | k in Next(s, e).core.inFlight :: BindingKept(s, Next(s, e), e, k)
  {
    if e.FinishLoad? && s.tasks[e.task].flight.Some? {
      FinishKept(s, e.task, e.victim);
    } else if e.Begin? {
      BeginKept(s, e.task);
    } else {
      hide WellFormed, FinishVictim;
    }
  }

  lemma FinishKept(s: State, t: nat, victim: Option<Key>)
    requires WellFormed(s) && Enabled(s, FinishLoad(t, victim)) && s.tasks[t].flight.Some?
    ensures var s' := Next(s, FinishLoad(t, victim));
            && (forall k | k in s'.core.entries :: EntryKept(s, s', FinishLoad(t, victim), k))
            && (forall k | k in s'.core.inFlight :: BindingKept(s, s', FinishLoad(t, victim), k))
  {
    FinishShape(s, Next(s, FinishLoad(t, victim)), t, victim);
    assert s.tasks[t].phase.Loading? && s.tasks[t].phase.progress.Done?;
    hide Next, Enabled, WellFormed, Consistent;
  }

  lemma BeginKept(s: State, t: nat)
    requires WellFormed(s) && Enabled(s, Begin(t))
    ensures forall k | k in Next(s, Begin(t)).core.entries :: EntryKept(s, Next(s, Begin(t)), Begin(t), k)
    ensures forall k | k in Next(s, Begin(t)).core.inFlight :: BindingKept(s, Next(s, Begin(t)), Begin(t), k)
  {
    var s', key := Next(s, Begin(t)), s.tasks[t].key;
    if !Bypasses(s, key) && !Lookup(s.core, key, s.now).1.Hit? {
      BeginShape(s, s', t);
      hide Next, Enabled;
    }
    hide WellFormed, Consistent;
  }

  lemma StepKeepsClean(s: State, e: Event, target: Target, step: nat)
    requires WellFormed(s) && Clean(s, target, step) && Enabled(s, e) && step <= s.step
    ensures WellFormed(Next(s, e)) && Clean(Next(s, e), target, step) && step <= Next(s, e).step
  {
    StepKeepsWellFormed(s, e);
    var s' := Next(s, e);
    CacheKept(s, e);
    assert s.now <= s'.now;
    hide Next, Enabled;
    forall k | k in s'.core.entries && Matches(target, k) && s'.now < s'.core.entries[k].expiresAt
      ensures !ReadBefore(s'.core.entries[k].value, step)
    {
      EntryStaysClean(s, s', e, target, step, k);
    }
    forall k | k in s'.core.inFlight && Matches(target, k)
      ensures !LoadHolds(s', s'.core.inFlight[k], step)
    {
      BindingStaysClean(s, e, target, step, k);
    }
    forall i | 0 <= i < |s'.tasks| && Matches(target, s'.tasks[i].key) && s'.tasks[i].LookedUp() && step <= s'.tasks[i].lookedUp
      ensures !Holds(s', i, step)
    {
      TaskStaysClean(s, e, target, step, i);
    }
  }

  lemma EntryStaysClean(s: State, s': State, e: Event, target: Target, step: nat, k: Key)
    requires WellFormed(s) && Clean(s, target, step) && s.now <= s'.now
    requires k in s'.core.entries && Matches(target, k) && s'.now < s'.core.entries[k].expiresAt && EntryKept(s, s', e, k)
    ensures !ReadBefore(s'.core.entries[k].value, step)
  {
    if !(k in s.core.entries && s'.core.entries[k] == s.core.entries[k]) {
      var f := s.tasks[e.task].flight.value;
      assert TaskOk(s, e.task);
      assert !LoadHolds(s, f, step);
      hide WellFormed, Clean;
    }
  }

  lemma BindingStaysClean(s: State, e: Event, target: Target, step: nat, k: Key)
    requires WellFormed(s) && Clean(s, target, step) && Enabled(s, e) && step <= s.step
    requires WellFormed(Next(s, e)) && Grows(s, Next(s, e), Mover(s, e))
    requires k in Next(s, e).core.inFlight && Matches(target, k) && BindingKept(s, Next(s, e), e, k)
    ensures !LoadHolds(Next(s, e), Next(s, e).core.inFlight[k], step)
  {
    hide Next, Enabled;
    var s' := Next(s, e);
    var f := s'.core.inFlight[k];
    if Bound(s.core, k, f) {
      var l := s.info[f].leader;
      assert FlightOk(s, f) && TaskOk(s, l) && FlightGrows(s, s', Mover(s, e), f);
      assert !LoadHolds(s, f, step);
      hide TaskOk, FlightOk, Consistent, Holds;
      StepGainsNothing(s, e, target, step, l);
      hide WellFormed, Clean;
    } else {
      hide WellFormed, Clean, Grows;
    }
  }

  lemma TaskStaysClean(s: State, e: Event, target: Target, step: nat, i: nat)
    requires WellFormed(s) && Clean(s, target, step) && Enabled(s, e) && step <= s.step
    requires WellFormed(Next(s, e)) && Grows(s, Next(s, e), Mover(s, e))
    requires i < |Next(s, e).tasks| && Matches(target, Next(s, e).tasks[i].key)
    requires Next(s, e).tasks[i].LookedUp() && step <= Next(s, e).tasks[i].lookedUp
    ensures !Holds(Next(s, e), i, step)
  {
    NewTasksAreCalling(s, e);
    assert i < |s.tasks|;
    var s' := Next(s, e);
    assert i == Mover(s, e) ==> TaskGrows(s, s', i);
    StepGainsNothing(s, e, target, step, i);
    hide Next, Enabled, WellFormed, Grows, Matches;
  }

  lemma NewTasksAreCalling(s: State, e: Event)
    requires Enabled(s, e)
    ensures forall i | |s.tasks| <= i < |Next(s, e).tasks| :: Next(s, e).tasks[i].phase.Calling?
  {
    hide FinishVictim, Finish, Lookup, Bypasses;
  }

  lemma {:induction false} RunKeepsClean(s: State, events: seq<Event>, target: Target, step: nat)
    requires WellFormed(s) && Clean(s, target, step) && ValidFrom(s, events) && step <= s.step
    ensures WellFormed(Run(s, events)) && Clean(Run(s, events), target, step)
    decreases |events|
  {
    if events != [] {
      StepKeepsClean(s, events[0], target, step);
      hide Next, Enabled, WellFormed, Clean;
      RunKeepsClean(Next(s, events[0]), events[1..], target, step);
    }
  }
}
