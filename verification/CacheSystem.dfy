/** Any number of concurrent gets on one quota cache, as a small-step system.
    The locked sections are the functions of CacheCore; everything between them
    interleaves freely with other gets and with invalidations. A Codex resource
    get that loads calls FetchQuota, whose get on the Codex native key is a child
    task of its own. Steps are numbered, which dates lookups, upstream reads and
    invalidations. */
module CacheSystem {
  import opened Text
  import opened CacheKey
  import opened CacheCore

  /** How far a running load has come. */
  datatype Progress =
    | Unstarted                 // flight bound, load not entered yet
    | Querying(began: nat)      // upstream read running (native and query kinds)
    | Fetching(child: nat, loadBegan: nat)  // inside FetchQuota, waiting for the child get
    | Crediting(usage: Reading, supplied: Times, loadBegan: nat, began: nat)  // credit read running
    | Done(load: Load)          // load returned, second lock not taken yet

  datatype Phase =
    | Calling                   // lookup not done yet
    | Waiting                   // joined the flight
    | Loading(progress: Progress)
    | Returned(outcome: Outcome, times: Times)

  /** One call of get. lookedUp dates its lookup, or its failure to get there; flight is
      the slot it joined or leads, None while it bypasses the cache. */
  datatype Task = Task(key: Key, parent: Option<nat>, lookedUp: nat, flight: Option<nat>, phase: Phase) {
    predicate Active() { !phase.Returned? }
    predicate LookedUp() { !phase.Calling? }
    predicate Leads(f: nat) { phase.Loading? && flight == Some(f) }
  }

  /** Bookkeeping for one flight, parallel to Core.flights. closedAt and storable are
      meaningful once it is done. */
  datatype Info = Info(key: Key, leader: nat, began: nat, closedAt: int, storable: bool)

  datatype Invalidation = Invalidation(target: Target, at: nat)

  /** The consume request of a reset has been answered. */
  datatype Consumption = Consumption(reset: nat, at: nat)

  datatype State = State(
    ttl: int,
    now: int,
    step: nat,
    core: Core,
    info: seq<Info>,
    tasks: seq<Task>,
    resets: seq<Invalidation>,
    consumed: seq<Consumption>,
    loads: map<nat, Key>,    // loads by the step at which they began
    started: map<nat, Key>)  // upstream reads by the step at which they began

  datatype Event =
    | Tick(to: int)
    | Call(key: Key)
    | Cancel(task: nat)
    | Begin(task: nat)
    | StartLoad(task: nat, childKey: Key)
    | ReadReturns(task: nat, ok: bool, cacheable: bool)
    | ChildReturned(task: nat)
    | CreditsReturn(task: nat, ok: bool)
    | FinishLoad(task: nat, victim: Option<Key>)
    | Wake(task: nat)
    | ResetInvalidates(target: Target)
    | ConsumeReturns(reset: nat)

  function Init(ttl: int, now: int): State {
    State(ttl, now, 0, EMPTY_CORE, [], [], [], [], map[], map[])
  }

  /** Caching is off, the credential is anonymous, or an explicit query names a
      provider that is never cached. */
  predicate Bypasses(s: State, key: Key) {
    || s.ttl <= 0
    || key.authIndex == ""
    || (key.kind == ProviderQuery && key.provider !in {CODEX_PROVIDER, "claude", "antigravity"})
  }

  function ReadValue(key: Key, began: nat, now: int): Value {
    var reading := Reading(began, began, now);
    if key.kind == CodexNative then Native(reading) else Query(reading)
  }

  /** When the event may happen. */
  predicate Enabled(s: State, e: Event) {
    match e
    case Tick(to) => s.now <= to
    case Call(_) => true
    case Cancel(t) => t < |s.tasks| && (s.tasks[t].phase.Calling? || s.tasks[t].phase.Waiting?)
    case Begin(t) => t < |s.tasks| && s.tasks[t].phase.Calling?
    case StartLoad(t, child) =>
      && t < |s.tasks| && s.tasks[t].phase == Loading(Unstarted)
      && (s.tasks[t].key.kind == CodexResource ==> child.kind == CodexNative && SameCredential(child, s.tasks[t].key))
    case ReadReturns(t, _, _) => t < |s.tasks| && s.tasks[t].phase.Loading? && s.tasks[t].phase.progress.Querying?
    case ChildReturned(t) =>
      && t < |s.tasks| && s.tasks[t].phase.Loading? && s.tasks[t].phase.progress.Fetching?
      && s.tasks[t].phase.progress.child < |s.tasks|
      && !s.tasks[s.tasks[t].phase.progress.child].Active()
    case CreditsReturn(t, _) => t < |s.tasks| && s.tasks[t].phase.Loading? && s.tasks[t].phase.progress.Crediting?
    case FinishLoad(t, victim) =>
      && t < |s.tasks| && s.tasks[t].phase.Loading? && s.tasks[t].phase.progress.Done?
      && (s.tasks[t].flight.Some? ==> s.tasks[t].flight.value < |s.core.flights| == |s.info|)
      && (if s.tasks[t].flight.None? then victim.None?
          else FinishVictim(s.core, s.tasks[t].key, s.tasks[t].flight.value, s.tasks[t].phase.progress.load, s.now, victim))
    case Wake(t) =>
      && t < |s.tasks| && s.tasks[t].phase.Waiting? && s.tasks[t].flight.Some?
      && s.tasks[t].flight.value < |s.core.flights| == |s.info|
      && s.core.flights[s.tasks[t].flight.value].done
    case ResetInvalidates(_) => true
    case ConsumeReturns(r) => r < |s.resets|
  }

  /** r differs from s in tasks, flights, cache and started reads only. */
  predicate SameHistory(s: State, r: State) {
    r.ttl == s.ttl && r.now == s.now && r.step == s.step && r.resets == s.resets && r.consumed == s.consumed
  }

  /** The second history is the first, save for something at this very step. */
  predicate AddsNow(before: map<nat, Key>, after: map<nat, Key>, step: nat) {
    after == before || (step in after && after == before[step := after[step]])
  }

  /** r has started no load and no read that s had not, save at this very step. */
  predicate StartsNow(s: State, r: State) {
    AddsNow(s.loads, r.loads, s.step) && AddsNow(s.started, r.started, s.step)
  }

  function SetPhase(s: State, t: nat, phase: Phase): (r: State)
    requires t < |s.tasks|
    ensures SameHistory(s, r) && r.loads == s.loads && r.started == s.started && r.core == s.core && r.info == s.info
  {
    s.(tasks := s.tasks[t := s.tasks[t].(phase := phase)])
  }

  /** Entry of get: bypass, or the first locked section. */
  function DoBegin(s: State, t: nat): (r: State)
    requires t < |s.tasks|
    ensures SameHistory(s, r) && r.loads == s.loads && r.started == s.started
  {
    var task := s.tasks[t].(lookedUp := s.step);
    if Bypasses(s, task.key) then
      s.(tasks := s.tasks[t := task.(phase := Loading(Unstarted))])
    else
      var (core, found) := Lookup(s.core, task.key, s.now);
      match found
      case Hit(entry) =>
        s.(tasks := s.tasks[t := task.(phase := Returned(Ok(entry.value), Times(entry.insertedAt, s.now, s.now)))])
      case Join(f) =>
        s.(core := core, tasks := s.tasks[t := task.(flight := Some(f), phase := Waiting)])
      case Lead(f) =>
        s.(core := core, info := s.info + [Info(task.key, t, s.step, s.now, false)],
           tasks := s.tasks[t := task.(flight := Some(f), phase := Loading(Unstarted))])
  }

  function DoStartLoad(s: State, t: nat, childKey: Key): (r: State)
    requires t < |s.tasks|
    ensures SameHistory(s, r) && StartsNow(s, r) && r.core == s.core && r.info == s.info
  {
    if s.tasks[t].key.kind == CodexResource then
      var parent := s.tasks[t].(phase := Loading(Fetching(|s.tasks|, s.step)));
      s.(tasks := s.tasks[t := parent] + [Task(childKey, Some(t), 0, None, Calling)],
         loads := s.loads[s.step := s.tasks[t].key])
    else
      SetPhase(s, t, Loading(Querying(s.step)))
        .(loads := s.loads[s.step := s.tasks[t].key], started := s.started[s.step := s.tasks[t].key])
  }

  function DoChildReturned(s: State, t: nat): (r: State)
    requires Enabled(s, ChildReturned(t))
    ensures SameHistory(s, r) && StartsNow(s, r) && r.core == s.core && r.info == s.info
  {
    var p := s.tasks[t].phase.progress;
    var child := s.tasks[p.child].phase;
    if child.outcome.Ok? && child.outcome.value.Native? then
      SetPhase(s, t, Loading(Crediting(child.outcome.value.usage, child.times, p.loadBegan, s.step)))
        .(started := s.started[s.step := s.tasks[t].key])
    else
      SetPhase(s, t, Loading(Done(Load(Err(LoadFailed), false))))
  }

  function DoCreditsReturn(s: State, t: nat, ok: bool): (r: State)
    requires Enabled(s, CreditsReturn(t, ok))
    ensures SameHistory(s, r) && r.loads == s.loads && r.started == s.started
  {
    var p := s.tasks[t].phase.progress;
    var credits := if ok then Some(Reading(p.loadBegan, p.began, s.now)) else None;
    SetPhase(s, t, Loading(Done(Load(Ok(Resource(p.usage, p.supplied, credits)), ok))))
  }

  /** End of get: return a bypassing load's result, or the second locked section. */
  function DoFinishLoad(s: State, t: nat, victim: Option<Key>): (r: State)
    requires Enabled(s, FinishLoad(t, victim))
    ensures SameHistory(s, r) && r.loads == s.loads && r.started == s.started
  {
    var task := s.tasks[t];
    var load := task.phase.progress.load;
    var s' := SetPhase(s, t, Returned(load.outcome, Times(s.now, s.now, s.now)));
    if task.flight.None? then s'
    else
      var f := task.flight.value;
      s'.(core := Finish(s.core, task.key, f, load, s.now, s.ttl, victim),
          info := s.info[f := s.info[f].(closedAt := s.now, storable := load.Storable())])
  }

  function DoWake(s: State, t: nat): (r: State)
    requires Enabled(s, Wake(t))
    ensures SameHistory(s, r) && r.loads == s.loads && r.started == s.started
  {
    var f := s.tasks[t].flight.value;
    SetPhase(s, t, Returned(s.core.flights[f].outcome, Times(s.info[f].closedAt, s.info[f].closedAt, s.now)))
  }

  function Effect(s: State, e: Event): State
    requires Enabled(s, e)
  {
    match e
    case Tick(to) => s.(now := to)
    case Call(key) => s.(tasks := s.tasks + [Task(key, None, 0, None, Calling)])
    case Cancel(t) =>
      var task := s.tasks[t].(lookedUp := if s.tasks[t].LookedUp() then s.tasks[t].lookedUp else s.step);
      s.(tasks := s.tasks[t := task.(phase := Returned(Err(Cancelled), Times(s.now, s.now, s.now)))])
    case Begin(t) => DoBegin(s, t)
    case StartLoad(t, child) => DoStartLoad(s, t, child)
    case ReadReturns(t, ok, cacheable) =>
      var task := s.tasks[t];
      var value := ReadValue(task.key, task.phase.progress.began, s.now);
      SetPhase(s, t, Loading(Done(if ok then Load(Ok(value), task.key.kind == CodexNative || cacheable)
                                  else Load(Err(LoadFailed), false))))
    case ChildReturned(t) => DoChildReturned(s, t)
    case CreditsReturn(t, ok) => DoCreditsReturn(s, t, ok)
    case FinishLoad(t, victim) => DoFinishLoad(s, t, victim)
    case Wake(t) => DoWake(s, t)
    case ResetInvalidates(target) =>
      s.(core := Invalidate(s.core, target), resets := s.resets + [Invalidation(target, s.step)])
    case ConsumeReturns(r) => s.(consumed := s.consumed + [Consumption(r, s.step)])
  }

  function Next(s: State, e: Event): State
    requires Enabled(s, e)
  {
    Effect(s, e).(step := s.step + 1)
  }

  predicate ValidFrom(s: State, events: seq<Event>)
    decreases |events|
  {
    events == [] || (Enabled(s, events[0]) && ValidFrom(Next(s, events[0]), events[1..]))
  }

  function Run(s: State, events: seq<Event>): State
    requires ValidFrom(s, events)
    decreases |events|
  {
    if events == [] then s else Run(Next(s, events[0]), events[1..])
  }

  /** s occurs in some run of a fresh cache. */
  ghost predicate Reachable(s: State) {
    exists ttl: int, now: int, events: seq<Event> ::
      ValidFrom(Init(ttl, now), events) && Run(Init(ttl, now), events) == s
  }

  lemma {:induction false} RunConcat(s: State, a: seq<Event>, b: seq<Event>)
    requires ValidFrom(s, a) && ValidFrom(Run(s, a), b)
    ensures ValidFrom(s, a + b) && Run(s, a + b) == Run(Run(s, a), b)
    decreases |a|
  {
    hide Next, Enabled;
    if a == [] {
      assert a + b == b;
    } else {
      RunConcat(Next(s, a[0]), a[1..], b);
      assert (a + b)[1..] == a[1..] + b;
    }
  }

  lemma ReachableNext(s: State, e: Event)
    requires Reachable(s) && Enabled(s, e)
    ensures Reachable(Next(s, e))
  {
    var ttl, now, events :| ValidFrom(Init(ttl, now), events) && Run(Init(ttl, now), events) == s;
    assert ValidFrom(s, [e]) && Run(s, [e]) == Next(s, e) by {
      assert [e][1..] == [];
      assert Run(Next(s, e), []) == Next(s, e);
    }
    RunConcat(Init(ttl, now), events, [e]);
  }
}
