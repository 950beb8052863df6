/** Runs that show where the documented promises of the cache stop. The first
    part writes out what each kind of step does in an uncontended run. */
module CacheWitness {
  import opened Text
  import opened CacheKey
  import opened CacheCore
  import opened CacheSystem
  import opened CacheFreshness

  const USAGE := Key(CodexNative, "codex", "1", [], [])
  const RESOURCE := Key(CodexResource, "codex", "1", [], [])
  const TARGET := Target("codex", "1")

  lemma Start(ttl: int) returns (r: State)
    ensures Reachable(r) && r == State(ttl, 0, 0, EMPTY_CORE, [], [], [], [], map[], map[])
  {
    r := Init(ttl, 0);
    assert ValidFrom(r, []) && Run(r, []) == r;
  }

  lemma Clock(s: State, to: int) returns (r: State)
    requires Reachable(s) && s.now <= to
    ensures Reachable(r) && r == s.(now := to, step := s.step + 1)
  {
    r := Next(s, Tick(to));
    ReachableNext(s, Tick(to));
  }

  lemma NewGet(s: State, key: Key) returns (r: State)
    requires Reachable(s)
    ensures Reachable(r) && r == s.(tasks := s.tasks + [Task(key, None, 0, None, Calling)], step := s.step + 1)
  {
    r := Next(s, Call(key));
    ReachableNext(s, Call(key));
  }

  lemma Miss(s: State, t: nat) returns (r: State)
    requires Reachable(s) && t < |s.tasks| && s.tasks[t].phase.Calling? && !Bypasses(s, s.tasks[t].key)
    requires s.tasks[t].key !in s.core.entries && s.tasks[t].key !in s.core.inFlight
    ensures Reachable(r)
    ensures r == s.(core := Core(s.core.entries, s.core.inFlight[s.tasks[t].key := |s.core.flights|], s.core.flights + [OPEN_FLIGHT]),
                    info := s.info + [Info(s.tasks[t].key, t, s.step, s.now, false)],
                    tasks := s.tasks[t := s.tasks[t].(lookedUp := s.step, flight := Some(|s.core.flights|), phase := Loading(Unstarted))],
                    step := s.step + 1)
  {
    r := Next(s, Begin(t));
    assert s.core.entries - {s.tasks[t].key} == s.core.entries;
    ReachableNext(s, Begin(t));
  }

  lemma HitStep(s: State, t: nat) returns (r: State)
    requires Reachable(s) && t < |s.tasks| && s.tasks[t].phase.Calling? && !Bypasses(s, s.tasks[t].key)
    requires s.tasks[t].key in s.core.entries && s.now < s.core.entries[s.tasks[t].key].expiresAt
    ensures Reachable(r)
    ensures var entry := s.core.entries[s.tasks[t].key];
            r == s.(tasks := s.tasks[t := s.tasks[t].(lookedUp := s.step, phase := Returned(Ok(entry.value), Times(entry.insertedAt, s.now, s.now)))],
                    step := s.step + 1)
  {
    r := Next(s, Begin(t));
    ReachableNext(s, Begin(t));
  }

  lemma JoinStep(s: State, t: nat) returns (r: State)
    requires Reachable(s) && t < |s.tasks| && s.tasks[t].phase.Calling? && !Bypasses(s, s.tasks[t].key)
    requires s.tasks[t].key !in s.core.entries && s.tasks[t].key in s.core.inFlight
    ensures Reachable(r)
    ensures r == s.(tasks := s.tasks[t := s.tasks[t].(lookedUp := s.step, flight := Some(s.core.inFlight[s.tasks[t].key]), phase := Waiting)],
                    step := s.step + 1)
  {
    r := Next(s, Begin(t));
    assert s.core.entries - {s.tasks[t].key} == s.core.entries;
    ReachableNext(s, Begin(t));
  }

  lemma StartQuery(s: State, t: nat) returns (r: State)
    requires Reachable(s) && t < |s.tasks| && s.tasks[t].phase == Loading(Unstarted) && s.tasks[t].key.kind != CodexResource
    ensures Reachable(r)
    ensures r == s.(tasks := s.tasks[t := s.tasks[t].(phase := Loading(Querying(s.step)))],
                    loads := s.loads[s.step := s.tasks[t].key],
                    started := s.started[s.step := s.tasks[t].key], step := s.step + 1)
  {
    r := Next(s, StartLoad(t, s.tasks[t].key));
    ReachableNext(s, StartLoad(t, s.tasks[t].key));
  }

  lemma StartChild(s: State, t: nat) returns (r: State)
    requires Reachable(s) && t < |s.tasks| && s.tasks[t].phase == Loading(Unstarted) && s.tasks[t].key == RESOURCE
    ensures Reachable(r)
    ensures r == s.(tasks := s.tasks[t := s.tasks[t].(phase := Loading(Fetching(|s.tasks|, s.step)))] + [Task(USAGE, Some(t), 0, None, Calling)],
                    loads := s.loads[s.step := s.tasks[t].key], step := s.step + 1)
  {
    r := Next(s, StartLoad(t, USAGE));
    ReachableNext(s, StartLoad(t, USAGE));
  }

  lemma UsageArrives(s: State, t: nat, began: nat) returns (r: State)
    requires Reachable(s) && t < |s.tasks| && s.tasks[t].phase == Loading(Querying(began)) && s.tasks[t].key == USAGE
    ensures Reachable(r)
    ensures r == s.(tasks := s.tasks[t := s.tasks[t].(phase := Loading(Done(Load(Ok(Native(Reading(began, began, s.now))), true))))],
                    step := s.step + 1)
  {
    r := Next(s, ReadReturns(t, true, true));
    ReachableNext(s, ReadReturns(t, true, true));
  }

  lemma ChildDelivers(s: State, t: nat, c: nat, load: nat, usage: Reading, supplied: Times) returns (r: State)
    requires Reachable(s) && t < |s.tasks| && c < |s.tasks| && s.tasks[t].phase == Loading(Fetching(c, load))
    requires s.tasks[c].phase == Returned(Ok(Native(usage)), supplied)
    ensures Reachable(r)
    ensures r == s.(tasks := s.tasks[t := s.tasks[t].(phase := Loading(Crediting(usage, supplied, load, s.step)))],
                    started := s.started[s.step := s.tasks[t].key], step := s.step + 1)
  {
    r := Next(s, ChildReturned(t));
    ReachableNext(s, ChildReturned(t));
  }

  lemma CreditsArrive(s: State, t: nat, ok: bool) returns (r: State)
    requires Reachable(s) && t < |s.tasks| && s.tasks[t].phase.Loading? && s.tasks[t].phase.progress.Crediting?
    ensures Reachable(r)
    ensures var p := s.tasks[t].phase.progress;
            var credits := if ok then Some(Reading(p.loadBegan, p.began, s.now)) else None;
            r == s.(tasks := s.tasks[t := s.tasks[t].(phase := Loading(Done(Load(Ok(Resource(p.usage, p.supplied, credits)), ok))))],
                    step := s.step + 1)
  {
    r := Next(s, CreditsReturn(t, ok));
    ReachableNext(s, CreditsReturn(t, ok));
  }

  lemma FinishWithRoom(c: Core, key: Key, f: nat, load: Load, now: int, ttl: int)
    requires f < |c.flights| && Bound(c, key, f) && load.outcome.Ok? && |c.entries| < MAX_ENTRIES
    ensures FinishVictim(c, key, f, load, now, None)
    ensures Finish(c, key, f, load, now, ttl, None)
         == Core(if load.cacheable then Sweep(c.entries, now)[key := Entry(load.outcome.value, now, now + ttl)] else c.entries,
                 c.inFlight - {key},
                 c.flights[f := FlightState(true, load.outcome)])
  {
    SubmapSize(Sweep(c.entries, now), c.entries);
  }

  /** The end of a load whose flight is still bound, in a cache with room. */
  lemma Close(s: State, t: nat, f: nat, load: Load) returns (r: State)
    requires Reachable(s) && t < |s.tasks| && s.tasks[t].flight == Some(f) && s.tasks[t].phase == Loading(Done(load))
    requires f < |s.core.flights| == |s.info| && Bound(s.core, s.tasks[t].key, f) && load.outcome.Ok?
    requires |s.core.entries| < MAX_ENTRIES
    ensures Reachable(r)
    ensures r == s.(core := Core(if load.cacheable then Sweep(s.core.entries, s.now)[s.tasks[t].key := Entry(load.outcome.value, s.now, s.now + s.ttl)]
                                 else s.core.entries,
                                 s.core.inFlight - {s.tasks[t].key},
                                 s.core.flights[f := FlightState(true, load.outcome)]),
                    info := s.info[f := s.info[f].(closedAt := s.now, storable := load.cacheable)],
                    tasks := s.tasks[t := s.tasks[t].(phase := Returned(load.outcome, Times(s.now, s.now, s.now)))],
                    step := s.step + 1)
  {
    FinishWithRoom(s.core, s.tasks[t].key, f, load, s.now, s.ttl);
    r := Next(s, FinishLoad(t, None));
    ReachableNext(s, FinishLoad(t, None));
  }

  lemma WakeStep(s: State, t: nat, f: nat) returns (r: State)
    requires Reachable(s) && t < |s.tasks| && s.tasks[t].flight == Some(f) && s.tasks[t].phase.Waiting?
    requires f < |s.core.flights| == |s.info| && s.core.flights[f].done
    ensures Reachable(r)
    ensures r == s.(tasks := s.tasks[t := s.tasks[t].(phase := Returned(s.core.flights[f].outcome, Times(s.info[f].closedAt, s.info[f].closedAt, s.now)))],
                    step := s.step + 1)
  {
    r := Next(s, Wake(t));
    ReachableNext(s, Wake(t));
  }

  lemma InvalidateStep(s: State) returns (r: State)
    requires Reachable(s)
    ensures Reachable(r)
    ensures r == s.(core := Invalidate(s.core, TARGET), resets := s.resets + [Invalidation(TARGET, s.step)], step := s.step + 1)
  {
    r := Next(s, ResetInvalidates(TARGET));
    ReachableNext(s, ResetInvalidates(TARGET));
  }

  lemma AnswerStep(s: State) returns (r: State)
    requires Reachable(s) && 0 < |s.resets|
    ensures Reachable(r) && r == s.(consumed := s.consumed + [Consumption(0, s.step)], step := s.step + 1)
  {
    r := Next(s, ConsumeReturns(0));
    ReachableNext(s, ConsumeReturns(0));
  }

  // ---------------------------------------------------------------- the runs

  /** A native get that misses, up to the end of its load; t may be the child of another. */
  lemma ReadUsage(s: State, t: nat) returns (r: State)
    requires Reachable(s) && t < |s.tasks| && s.tasks[t].key == USAGE && s.tasks[t].phase.Calling? && 0 < s.ttl
    requires USAGE !in s.core.entries && USAGE !in s.core.inFlight
    ensures Reachable(r)
    ensures var f, value := |s.core.flights|, Native(Reading(s.step + 1, s.step + 1, s.now));
            && r.core == Core(s.core.entries, s.core.inFlight[USAGE := f], s.core.flights + [OPEN_FLIGHT])
            && r.info == s.info + [Info(USAGE, t, s.step, s.now, false)]
            && r.tasks == s.tasks[t := Task(USAGE, s.tasks[t].parent, s.step, Some(f), Loading(Done(Load(Ok(value), true))))]
            && r.step == s.step + 3 && r.now == s.now && r.ttl == s.ttl && r.resets == s.resets && r.consumed == s.consumed
            && r.loads == s.loads[s.step + 1 := USAGE]
  {
    hide Reachable;
    r := Miss(s, t);
    assert r.tasks[t] == Task(USAGE, s.tasks[t].parent, s.step, Some(|s.core.flights|), Loading(Unstarted));
    hide Bypasses;
    r := StartQuery(r, t);
    assert r.tasks[t].phase == Loading(Querying(s.step + 1));
    r := UsageArrives(r, t, s.step + 1);
  }

  lemma ClosedOverEmpty(c: Core, inFlight: map<Key, nat>, flights: seq<FlightState>, f: nat, value: Value, now: int, ttl: int)
    requires USAGE !in inFlight && f == |flights|
    requires c == Core(map[], inFlight[USAGE := f], flights + [OPEN_FLIGHT])
    ensures Bound(c, USAGE, f) && |c.entries| < MAX_ENTRIES
    ensures var entry, closed := Entry(value, now, now + ttl), FlightState(true, Ok(value));
            (Core(Sweep(c.entries, now)[USAGE := entry], c.inFlight - {USAGE}, c.flights[f := closed])
             == Core(map[USAGE := entry], inFlight, flights + [closed]))
  {
    assert Sweep(map[], now) == map[];
    assert inFlight[USAGE := f] - {USAGE} == inFlight;
    assert (flights + [OPEN_FLIGHT])[f := FlightState(true, Ok(value))] == flights + [FlightState(true, Ok(value))];
  }

  lemma UpdatedTwice(tasks: seq<Task>, t: nat, first: Task, second: Task)
    requires t < |tasks|
    ensures tasks[t := first][t := second] == tasks[t := second]
  {
  }

  /** The same, closed and stored, on a cache whose lists are of one length. */
  lemma LoadUsage(s: State, t: nat) returns (r: State)
    requires Reachable(s) && t < |s.tasks| && s.tasks[t].key == USAGE && s.tasks[t].phase.Calling? && 0 < s.ttl
    requires s.core.entries == map[] && USAGE !in s.core.inFlight && |s.info| == |s.core.flights|
    ensures Reachable(r)
    ensures var f, value := |s.core.flights|, Native(Reading(s.step + 1, s.step + 1, s.now));
            && r.core == Core(map[USAGE := Entry(value, s.now, s.now + s.ttl)], s.core.inFlight,
                              s.core.flights + [FlightState(true, Ok(value))])
            && |r.info| == |s.info| + 1
            && r.tasks == s.tasks[t := Task(USAGE, s.tasks[t].parent, s.step, Some(f), Returned(Ok(value), Times(s.now, s.now, s.now)))]
            && r.step == s.step + 4 && r.now == s.now && r.ttl == s.ttl && r.resets == s.resets && r.consumed == s.consumed
            && r.loads == s.loads[s.step + 1 := USAGE]
  {
    var f, value := |s.core.flights|, Native(Reading(s.step + 1, s.step + 1, s.now));
    hide *;
    r := ReadUsage(s, t);
    var loaded := r.tasks[t];
    ClosedOverEmpty(r.core, s.core.inFlight, s.core.flights, f, value, s.now, s.ttl);
    UpdatedTwice(s.tasks, t, loaded, loaded.(phase := Returned(Ok(value), Times(s.now, s.now, s.now))));
    r := Close(r, t, f, Load(Ok(value), true));
  }

  /** A load that starts inside the window between a reset's invalidation and the
      answer to its consume request is cached, and serves a get that starts after
      the answer with quota read before it. */
  lemma WindowReadOutlivesReset() returns (s: State)
    ensures Reachable(s) && |s.tasks| == 2 && |s.resets| == 1 && |s.consumed| == 1
    ensures s.consumed[0].reset == 0 && Matches(s.resets[0].target, s.tasks[1].key)
    ensures s.consumed[0].at < s.tasks[1].lookedUp
    ensures s.tasks[1].phase.Returned? && s.tasks[1].phase.outcome.Ok?
    ensures s.tasks[1].phase.outcome.value.Native?
    ensures s.resets[0].at < s.tasks[1].phase.outcome.value.usage.began < s.consumed[0].at
  {
    s := Start(10);
    s := InvalidateStep(s);
    assert s.core == EMPTY_CORE;
    s := NewGet(s, USAGE);
    s := LoadUsage(s, 0);
    s := AnswerStep(s);
    s := NewGet(s, USAGE);
    s := HitStep(s, 1);
  }

  /** A resource get that misses, up to its child's lookup. */
  lemma OpenResource(s: State) returns (r: State)
    requires Reachable(s) && 0 < s.ttl && RESOURCE !in s.core.entries && RESOURCE !in s.core.inFlight
    ensures Reachable(r)
    ensures var t, f := |s.tasks|, |s.core.flights|;
            && r.core == Core(s.core.entries, s.core.inFlight[RESOURCE := f], s.core.flights + [OPEN_FLIGHT])
            && r.info == s.info + [Info(RESOURCE, t, s.step + 1, s.now, false)]
            && r.tasks == s.tasks + [Task(RESOURCE, None, s.step + 1, Some(f), Loading(Fetching(t + 1, s.step + 2))),
                                     Task(USAGE, Some(t), 0, None, Calling)]
            && r.step == s.step + 3 && r.now == s.now && r.ttl == s.ttl && r.resets == s.resets && r.consumed == s.consumed
            && r.loads == s.loads[s.step + 2 := RESOURCE]
  {
    var t := |s.tasks|;
    r := NewGet(s, RESOURCE);
    r := Miss(r, t);
    assert r.tasks[t] == Task(RESOURCE, None, s.step + 1, Some(|s.core.flights|), Loading(Unstarted));
    r := StartChild(r, t);
  }

  /** The rest of a resource get once its child has returned: credits read, value
      returned, and stored if the credits are complete. */
  lemma CloseResource(s: State, t: nat, f: nat, load: nat, usage: Reading, supplied: Times, ok: bool) returns (r: State)
    requires Reachable(s) && 0 < s.ttl && t + 1 < |s.tasks| && f < |s.core.flights| == |s.info|
    requires s.tasks[t].key == RESOURCE && s.tasks[t].flight == Some(f) && s.tasks[t].phase == Loading(Fetching(t + 1, load))
    requires s.tasks[t + 1].phase == Returned(Ok(Native(usage)), supplied)
    requires Bound(s.core, RESOURCE, f) && |s.core.entries| < MAX_ENTRIES
    ensures Reachable(r) && |r.core.flights| == |r.info| == |s.info| && |r.tasks| == |s.tasks|
    ensures r.core.inFlight == s.core.inFlight - {RESOURCE} && r.now == s.now && r.ttl == s.ttl
    ensures var value := Resource(usage, supplied, if ok then Some(Reading(load, s.step, s.now)) else None);
            && r.core.entries == (if ok then Sweep(s.core.entries, s.now)[RESOURCE := Entry(value, s.now, s.now + s.ttl)]
                                  else s.core.entries)
            && r.tasks == s.tasks[t := s.tasks[t].(phase := Returned(Ok(value), Times(s.now, s.now, s.now)))]
  {
    hide *;
    r := ChildDelivers(s, t, t + 1, load, usage, supplied);
    assert r.tasks[t].phase == Loading(Crediting(usage, supplied, load, s.step));
    r := CreditsArrive(r, t, ok);
    var value := Resource(usage, supplied, if ok then Some(Reading(load, s.step, s.now)) else None);
    assert r.tasks[t].phase == Loading(Done(Load(Ok(value), ok)));
    r := Close(r, t, f, Load(Ok(value), ok));
    assert r.tasks[t] == s.tasks[t].(phase := Returned(Ok(value), Times(s.now, s.now, s.now)));
  }

  /** A load that began before a reset's invalidation may read while the window lasts: the
      window is quiet all the same, and gets that come later are fresh. */
  lemma DetachedLoadReadsInQuietWindow() returns (s: State, read: nat)
    ensures Reachable(s) && |s.resets| == |s.consumed| == 1 && s.consumed[0].reset == 0
    ensures Matches(s.resets[0].target, RESOURCE) && QuietWindow(s, 0, RESOURCE)
    ensures read in s.started && s.started[read] == RESOURCE && s.resets[0].at < read < s.consumed[0].at
  {
    s := Start(10);
    s := OpenResource(s);
    s := LoadUsage(s, 1);
    var usage := Reading(4, 4, 0);
    assert s.tasks[0].phase == Loading(Fetching(1, 2)) && s.tasks[0].key == RESOURCE;
    assert s.tasks[1].phase == Returned(Ok(Native(usage)), Times(0, 0, 0));
    var loads := s.loads;
    s := InvalidateStep(s);
    hide Invalidate, Reachable;
    read := s.step;
    s := ChildDelivers(s, 0, 1, 2, usage, Times(0, 0, 0));
    s := AnswerStep(s);
    assert s.loads == loads == map[2 := RESOURCE, 4 := USAGE];
  }

  /** A resource get whose credit read fails leaves usage in the native layer only. */
  lemma IncompleteResource(s: State) returns (r: State)
    requires Reachable(s) && 0 < s.ttl && s.core == EMPTY_CORE && s.tasks == [] && s.info == []
    ensures Reachable(r) && r.now == s.now && r.ttl == s.ttl && |r.tasks| == |r.info| == |r.core.flights| == 2
    ensures r.core.inFlight == map[]
    ensures exists usage :: r.core.entries == map[USAGE := Entry(Native(usage), s.now, s.now + s.ttl)]
    ensures r.tasks[0].key == RESOURCE && r.tasks[0].phase.Returned? && r.tasks[0].phase.outcome.Ok?
    ensures r.tasks[0].phase.outcome.value.Resource? && r.tasks[0].phase.outcome.value.credits.None?
  {
    hide Reachable, Sweep;
    r := OpenResource(s);
    assert r.core.flights == [OPEN_FLIGHT] && |r.info| == 1;
    var usage := Reading(r.step + 1, r.step + 1, r.now);
    r := LoadUsage(r, 1);
    assert r.tasks[0] == Task(RESOURCE, None, s.step + 1, Some(0), Loading(Fetching(1, s.step + 2)));
    assert r.tasks[1].phase == Returned(Ok(Native(usage)), Times(s.now, s.now, s.now));
    r := CloseResource(r, 0, 0, s.step + 2, usage, Times(s.now, s.now, s.now), false);
  }

  /** A complete resource get over usage that is already cached. */
  lemma CompleteResource(s: State, usage: Reading, stored: int) returns (r: State)
    requires Reachable(s) && 0 < s.ttl && stored <= s.now < stored + s.ttl
    requires s.core.entries == map[USAGE := Entry(Native(usage), stored, stored + s.ttl)] && s.core.inFlight == map[]
    requires |s.core.flights| == |s.info|
    ensures Reachable(r) && r.now == s.now && r.ttl == s.ttl && |r.tasks| == |s.tasks| + 2
    ensures r.tasks[..|s.tasks|] == s.tasks
    ensures RESOURCE in r.core.entries && r.core.entries[RESOURCE].expiresAt == s.now + s.ttl
    ensures r.core.entries[RESOURCE].value.Resource? && r.core.entries[RESOURCE].value.supplied.stored == stored
  {
    var t, f := |s.tasks|, |s.core.flights|;
    assert !Bypasses(s, USAGE);
    r := OpenResource(s);
    r := HitStep(r, t + 1);
    assert r.tasks[t].phase == Loading(Fetching(t + 1, s.step + 2));
    r := CloseResource(r, t, f, s.step + 2, usage, Times(stored, s.now, s.now), true);
  }

  /** A resource hit can serve usage of any age below twice the TTL less one: a resource
      get with incomplete credits leaves its usage in the native layer, a complete one
      takes it over after a while and is cached, and is hit after another. */
  lemma HitServesUsageOlderThanTtl(ttl: int, first: int, second: int) returns (s: State)
    requires 0 <= first < ttl && 0 <= second < ttl
    ensures Reachable(s) && s.ttl == ttl && Lookup(s.core, RESOURCE, s.now).1.Hit?
    ensures s.tasks != [] && s.tasks[0].key == RESOURCE && s.tasks[0].phase.Returned? && s.tasks[0].phase.outcome.Ok?
    ensures s.tasks[0].phase.outcome.value.Resource? && s.tasks[0].phase.outcome.value.credits.None?
    ensures Lookup(s.core, RESOURCE, s.now).1.entry.value.Resource?
    ensures s.now - Lookup(s.core, RESOURCE, s.now).1.entry.value.supplied.stored == first + second
  {
    s := Start(ttl);
    s := IncompleteResource(s);
    var earlier := s.tasks;
    var usage :| s.core.entries == map[USAGE := Entry(Native(usage), 0, 0 + ttl)];
    s := Clock(s, first);
    s := CompleteResource(s, usage, 0);
    assert s.tasks[0] == earlier[0];
    s := Clock(s, first + second);
  }

  /** A resource get whose child joins the running native load of another get. */
  lemma JoinRunningUsage(s: State) returns (r: State)
    requires Reachable(s) && 0 < s.ttl && s.core == Core(map[], map[USAGE := 0], [OPEN_FLIGHT])
    requires |s.info| == |s.tasks| == 1
    ensures Reachable(r)
    ensures && r.core == Core(map[], map[USAGE := 0, RESOURCE := 1], [OPEN_FLIGHT, OPEN_FLIGHT])
            && |r.info| == 2 && |r.tasks| == 3 && r.now == s.now && r.ttl == s.ttl
            && r.tasks[0] == s.tasks[0] && r.info[0] == s.info[0]
            && r.tasks[1] == Task(RESOURCE, None, s.step + 1, Some(1), Loading(Fetching(2, s.step + 2)))
            && r.tasks[2].key == USAGE && r.tasks[2].flight == Some(0) && r.tasks[2].phase.Waiting?
  {
    r := OpenResource(s);
    r := JoinStep(r, 2);
  }

  /** The joined load closes now, its waiter sleeps until later. */
  lemma CloseAndSleep(s: State, usage: Reading, later: int) returns (r: State)
    requires Reachable(s) && 0 < s.ttl && s.now <= later
    requires s.core == Core(map[], map[USAGE := 0, RESOURCE := 1], [OPEN_FLIGHT, OPEN_FLIGHT])
    requires |s.info| == 2 && |s.tasks| == 3
    requires s.tasks[0].key == USAGE && s.tasks[0].flight == Some(0)
    requires s.tasks[0].phase == Loading(Done(Load(Ok(Native(usage)), true)))
    requires s.tasks[2].phase.Waiting?
    ensures Reachable(r) && r.now == later && r.ttl == s.ttl && |r.info| == 2 && |r.tasks| == 3
    ensures r.core == Core(map[USAGE := Entry(Native(usage), s.now, s.now + s.ttl)], map[RESOURCE := 1],
                           [FlightState(true, Ok(Native(usage))), OPEN_FLIGHT])
    ensures r.info[0].closedAt == s.now && r.tasks[1..] == s.tasks[1..]
  {
    r := Close(s, 0, 0, Load(Ok(Native(usage)), true));
    assert r.tasks[1..] == s.tasks[1..];
    assert map[USAGE := 0, RESOURCE := 1] - {USAGE} == map[RESOURCE := 1];
    r := Clock(r, later);
  }

  /** The sleeper wakes, its parent reads credits and stores the value. */
  lemma WakeAndStore(s: State, load: nat, usage: Reading) returns (r: State)
    requires Reachable(s) && 0 < s.ttl && |s.info| == 2 && |s.tasks| == 3
    requires |s.core.entries| < MAX_ENTRIES && s.core.entries.Keys == {USAGE} && s.core.inFlight == map[RESOURCE := 1]
    requires s.core.flights == [FlightState(true, Ok(Native(usage))), OPEN_FLIGHT]
    requires s.tasks[1].key == RESOURCE && s.tasks[1].flight == Some(1) && s.tasks[1].phase == Loading(Fetching(2, load))
    requires s.tasks[2].flight == Some(0) && s.tasks[2].phase.Waiting?
    ensures Reachable(r) && r.now == s.now && r.ttl == s.ttl
    ensures RESOURCE in r.core.entries && r.core.entries[RESOURCE].expiresAt == s.now + s.ttl
    ensures r.core.entries[RESOURCE].value.Resource? && r.core.entries[RESOURCE].insertedAt == s.now
    ensures r.core.entries[RESOURCE].value.supplied == Times(s.info[0].closedAt, s.info[0].closedAt, s.now)
  {
    r := WakeStep(s, 2, 0);
    r := CloseResource(r, 1, 1, load, usage, Times(s.info[0].closedAt, s.info[0].closedAt, s.now), true);
  }

  /** A get that joined a flight closed long ago may return only now, so usage can be
      served at any age, whatever the TTL: here it was recorded at 0, and the native get
      of the resource load returned it, and the resource layer serves it, at later. */
  lemma LateWakerDefeatsReturnTimeBound(ttl: int, later: int) returns (mid: State, s: State)
    requires 0 < ttl && 0 <= later
    ensures Reachable(mid) && |mid.tasks| == 3 && mid.tasks[2].phase.Waiting? && mid.tasks[1].phase.Loading?
    ensures mid.tasks[1].phase.progress.Fetching? && mid.tasks[1].phase.progress.child == 2
    ensures Reachable(s) && s.ttl == mid.ttl == ttl && s.now == mid.now == later
    ensures Lookup(s.core, RESOURCE, s.now).1.Hit?
    ensures var entry := Lookup(s.core, RESOURCE, s.now).1.entry;
            entry.value.Resource? && entry.value.supplied.stored == 0 && entry.value.supplied.returned == entry.insertedAt == later
  {
    s := Start(ttl);
    s := NewGet(s, USAGE);
    s := ReadUsage(s, 0);
    s := JoinRunningUsage(s);
    var load := s.tasks[1].phase.progress.loadBegan;
    var usage := Reading(2, 2, 0);
    mid := CloseAndSleep(s, usage, later);
    assert mid.tasks[1] == s.tasks[1..][0] && mid.tasks[2] == s.tasks[1..][1];
    s := WakeAndStore(mid, load, usage);
  }
}
