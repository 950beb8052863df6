/** Progress: with upstream loads that return, no get is ever stuck. */
module CacheProgress {
  import opened Text
  import opened CacheKey
  import opened CacheCore
  import opened CacheSystem
  import opened CacheInvariant

  /** Steps that the cache and its running gets take by themselves, upstream
      answers included; cancellation is left out, so nothing relies on it. */
  predicate Internal(e: Event) {
    || e.Begin? || e.StartLoad? || e.ReadReturns? || e.ChildReturned? || e.CreditsReturn?
    || e.FinishLoad? || e.Wake?
  }

  // ----------------------------------------------------------------- measure

  /** Steps a task can still cause, its future child included. */
  function Weight(t: Task): nat {
    var resource := t.key.kind == CodexResource;
    match t.phase
    case Calling => if resource then 12 else 5
    case Waiting => 1
    case Loading(Unstarted) => if resource then 11 else 4
    case Loading(Fetching(_, _)) => 5
    case Loading(Crediting(_, _, _, _)) => 4
    case Loading(Querying(_)) => 3
    case Loading(Done(_)) => 2
    case Returned(_, _) => 0
  }

  function Work(tasks: seq<Task>): nat {
    if tasks == [] then 0 else Work(tasks[..|tasks| - 1]) + Weight(tasks[|tasks| - 1])
  }

  lemma {:induction false} WorkUpdate(tasks: seq<Task>, i: nat, t: Task)
    requires i < |tasks|
    ensures Work(tasks[i := t]) == Work(tasks) - Weight(tasks[i]) + Weight(t)
  {
    var n := |tasks| - 1;
    if i < n {
      assert tasks[i := t][..n] == tasks[..n][i := t];
      WorkUpdate(tasks[..n], i, t);
    } else {
      assert tasks[i := t][..n] == tasks[..n];
    }
  }

  lemma {:induction false} ActiveMeansWork(tasks: seq<Task>, i: nat)
    requires i < |tasks| && tasks[i].Active()
    ensures 0 < Work(tasks)
  {
    if i < |tasks| - 1 {
      ActiveMeansWork(tasks[..|tasks| - 1], i);
    }
  }

  /** One task moves, one may be appended, and their weight goes down. */
  ghost predicate MovesOne(tasks: seq<Task>, after: seq<Task>, t: nat) {
    && t < |tasks| <= |after| <= |tasks| + 1
    && after[..|tasks|] == tasks[t := after[t]]
    && Weight(after[t]) + (if |after| > |tasks| then Weight(after[|tasks|]) else 0) < Weight(tasks[t])
  }

  lemma StepMovesOne(s: State, e: Event)
    requires WellFormed(s) && Enabled(s, e) && Internal(e)
    ensures MovesOne(s.tasks, Next(s, e).tasks, e.task)
  {
    hide WellFormed, Weight;
    match e
    case Begin(t) => BeginMovesOne(s, t);
    case StartLoad(t, child) => StartLoadMovesOne(s, t, child);
    case ReadReturns(t, ok, cacheable) => ReadReturnsMovesOne(s, t, ok, cacheable);
    case ChildReturned(t) => ChildReturnedMovesOne(s, t);
    case CreditsReturn(t, ok) => CreditsReturnMovesOne(s, t, ok);
    case FinishLoad(t, victim) => FinishLoadMovesOne(s, t, victim);
    case Wake(t) => WakeMovesOne(s, t);
    case _ =>
  }

  lemma OneMoves(tasks: seq<Task>, t: nat, moved: Task)
    requires t < |tasks| && Weight(moved) < Weight(tasks[t])
    ensures MovesOne(tasks, tasks[t := moved], t)
  {
    hide Weight;
  }

  lemma BeginMovesOne(s: State, t: nat)
    requires Enabled(s, Begin(t))
    ensures MovesOne(s.tasks, Next(s, Begin(t)).tasks, t)
  {
    OneMoves(s.tasks, t, Next(s, Begin(t)).tasks[t]);
  }

  lemma ReadReturnsMovesOne(s: State, t: nat, ok: bool, cacheable: bool)
    requires Enabled(s, ReadReturns(t, ok, cacheable))
    ensures MovesOne(s.tasks, Next(s, ReadReturns(t, ok, cacheable)).tasks, t)
  {
    OneMoves(s.tasks, t, Next(s, ReadReturns(t, ok, cacheable)).tasks[t]);
  }

  lemma ChildReturnedMovesOne(s: State, t: nat)
    requires Enabled(s, ChildReturned(t))
    ensures MovesOne(s.tasks, Next(s, ChildReturned(t)).tasks, t)
  {
    OneMoves(s.tasks, t, Next(s, ChildReturned(t)).tasks[t]);
  }

  lemma CreditsReturnMovesOne(s: State, t: nat, ok: bool)
    requires Enabled(s, CreditsReturn(t, ok))
    ensures MovesOne(s.tasks, Next(s, CreditsReturn(t, ok)).tasks, t)
  {
    OneMoves(s.tasks, t, Next(s, CreditsReturn(t, ok)).tasks[t]);
  }

  lemma FinishLoadMovesOne(s: State, t: nat, victim: Option<Key>)
    requires Enabled(s, FinishLoad(t, victim))
    ensures MovesOne(s.tasks, Next(s, FinishLoad(t, victim)).tasks, t)
  {
    hide FinishVictim, Finish;
    OneMoves(s.tasks, t, Next(s, FinishLoad(t, victim)).tasks[t]);
  }

  lemma WakeMovesOne(s: State, t: nat)
    requires Enabled(s, Wake(t))
    ensures MovesOne(s.tasks, Next(s, Wake(t)).tasks, t)
  {
    OneMoves(s.tasks, t, Next(s, Wake(t)).tasks[t]);
  }

  lemma StartLoadMovesOne(s: State, t: nat, child: Key)
    requires Enabled(s, StartLoad(t, child))
    ensures MovesOne(s.tasks, Next(s, StartLoad(t, child)).tasks, t)
  {
    var after := Next(s, StartLoad(t, child)).tasks;
    if s.tasks[t].key.kind == CodexResource {
      assert after[|s.tasks|] == Task(child, Some(t), 0, None, Calling);
      assert Weight(after[|s.tasks|]) == 5 && Weight(after[t]) == 5;
    }
  }


  /** Every internal step uses up work; clock ticks, invalidations and consume
      answers add none. Only a new call does. */
  lemma InternalStepsUseWork(s: State, e: Event)
    requires WellFormed(s) && Enabled(s, e)
    ensures Internal(e) ==> Work(Next(s, e).tasks) < Work(s.tasks)
    ensures !Internal(e) && !e.Call? && !e.Cancel? ==> Work(Next(s, e).tasks) == Work(s.tasks)
  {
    hide WellFormed, Weight;
    if Internal(e) {
      StepMovesOne(s, e);
      hide Next, Enabled;
      var tasks := Next(s, e).tasks;
      var n := |s.tasks|;
      WorkUpdate(s.tasks, e.task, tasks[e.task]);
      if |tasks| == n {
        assert tasks[..n] == tasks;
      }
    }
  }

  /** So a run of internal steps is never longer than the work it starts with. */
  lemma {:induction false} InternalRunsEnd(s: State, events: seq<Event>)
    requires WellFormed(s) && ValidFrom(s, events) && forall e | e in events :: Internal(e)
    ensures |events| + Work(Run(s, events).tasks) <= Work(s.tasks)
    decreases |events|
  {
    if events != [] {
      StepKeepsWellFormed(s, events[0]);
      InternalStepsUseWork(s, events[0]);
      InternalRunsEnd(Next(s, events[0]), events[1..]);
    }
  }

  // ---------------------------------------------------------------- wait-for

  /** The task that this one is blocked on, if any: a joiner on the leader of its
      open flight, a resource load on its unfinished native child. */
  function WaitsFor(s: State, i: nat): Option<nat>
    requires i < |s.tasks| && |s.info| == |s.core.flights|
  {
    match s.tasks[i].phase
    case Waiting =>
      if s.tasks[i].flight.Some? && s.tasks[i].flight.value < |s.info| && !s.core.flights[s.tasks[i].flight.value].done
      then Some(s.info[s.tasks[i].flight.value].leader) else None
    case Loading(Fetching(c, _)) => if c < |s.tasks| && s.tasks[c].Active() then Some(c) else None
    case _ => None
  }

  /** Rank in the wait-for order: the resource kind waits on the native kind and
      never the other way round. */
  function WaitRank(t: Task): nat {
    var joined := if t.phase.Waiting? then 1 else 0;
    if t.key.kind == CodexResource then 2 + joined else joined
  }

  /** The wait-for relation has no cycles, and what is waited for is unfinished. */
  lemma WaitingDescends(s: State, i: nat)
    requires WellFormed(s) && i < |s.tasks| && WaitsFor(s, i).Some?
    ensures WaitsFor(s, i).value < |s.tasks|
    ensures s.tasks[WaitsFor(s, i).value].Active()
    ensures WaitRank(s.tasks[WaitsFor(s, i).value]) < WaitRank(s.tasks[i])
  {
    assert TaskOk(s, i);
    if s.tasks[i].phase.Waiting? {
      var f := s.tasks[i].flight.value;
      assert FlightOk(s, f) && TaskOk(s, s.info[f].leader);
    }
  }

  /** An unfinished task that waits for nobody can take its next step. */
  lemma UnblockedCanMove(s: State, i: nat) returns (e: Event)
    requires WellFormed(s) && i < |s.tasks| && s.tasks[i].Active() && WaitsFor(s, i).None?
    ensures Internal(e) && Enabled(s, e) && e.task == i
    ensures (e.ReadReturns? || e.CreditsReturn?) ==> e.ok
  {
    var t := s.tasks[i];
    assert TaskOk(s, i);
    match t.phase
    case Calling => e := Begin(i);
    case Waiting => e := Wake(i);
    case Loading(Unstarted) => e := StartLoad(i, t.key.(kind := CodexNative));
    case Loading(Querying(_)) => e := ReadReturns(i, true, true);
    case Loading(Fetching(_, _)) => e := ChildReturned(i);
    case Loading(Crediting(_, _, _, _)) => e := CreditsReturn(i, true);
    case Loading(Done(load)) =>
      if t.flight.Some? && Bound(s.core, t.key, t.flight.value) && load.Storable() {
        var victim := VictimExists(Sweep(s.core.entries, s.now));
        e := FinishLoad(i, victim);
      } else {
        e := FinishLoad(i, None);
      }
  }

  /** Each task on the path waits for the next one, and the last for nobody. */
  ghost predicate WaitPath(s: State, path: seq<nat>)
    requires |s.info| == |s.core.flights|
  {
    && path != [] && (forall k | 0 <= k < |path| :: path[k] < |s.tasks|)
    && (forall k | 0 <= k < |path| - 1 :: WaitsFor(s, path[k]) == Some(path[k + 1]))
    && WaitsFor(s, path[|path| - 1]).None?
  }

  /** Whoever a task waits for, directly or through others, can move: at the end of its
      wait path there is a task that waits for nobody, and that task has an enabled step. */
  lemma {:induction false} NobodyIsStuck(s: State, i: nat) returns (path: seq<nat>, e: Event)
    requires WellFormed(s) && i < |s.tasks| && s.tasks[i].Active()
    ensures WaitPath(s, path) && path[0] == i
    ensures Internal(e) && Enabled(s, e) && e.task == path[|path| - 1]
    decreases WaitRank(s.tasks[i])
  {
    if WaitsFor(s, i).None? {
      path := [i];
      e := UnblockedCanMove(s, i);
    } else {
      WaitingDescends(s, i);
      hide WellFormed, WaitsFor, Enabled;
      path, e := NobodyIsStuck(s, WaitsFor(s, i).value);
      path := [i] + path;
    }
  }

  predicate AllReturned(s: State) {
    forall i | 0 <= i < |s.tasks| :: !s.tasks[i].Active()
  }

  /** From every reachable state, once no further calls arrive, internal steps
      lead to a state where every get has returned and every flight is closed;
      and InternalRunsEnd says that no choice of them can avoid it. */
  lemma {:induction false} EveryGetReturns(s: State) returns (events: seq<Event>)
    requires WellFormed(s)
    ensures ValidFrom(s, events) && (forall e | e in events :: Internal(e))
    ensures WellFormed(Run(s, events)) && AllReturned(Run(s, events))
    ensures forall f | 0 <= f < |Run(s, events).core.flights| :: Run(s, events).core.flights[f].done
    decreases Work(s.tasks)
  {
    if AllReturned(s) {
      events := [];
      assert forall f | 0 <= f < |s.core.flights| :: FlightOk(s, f) ==> s.core.flights[f].done;
    } else {
      var i :| 0 <= i < |s.tasks| && s.tasks[i].Active();
      var _, e := NobodyIsStuck(s, i);
      StepKeepsWellFormed(s, e);
      InternalStepsUseWork(s, e);
      var rest := EveryGetReturns(Next(s, e));
      events := [e] + rest;
      assert events[1..] == rest;
    }
  }
}
