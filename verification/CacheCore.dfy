/** The locked sections of the quota read cache, as functions on its state.
    The classes in QuotaCache implement them; CacheSystem interleaves them. */
module CacheCore {
  import opened Text
  import opened CacheKey

  const MAX_ENTRIES: nat := 256

  /** One successful upstream read: the steps at which the load that made it and the
      read itself began, and the clock when its answer arrived. Response contents play
      no part in the cache. */
  datatype Reading = Reading(load: nat, began: nat, landed: int)

  /** Clocks of a get that has an outcome: when the value was recorded, when the outcome
      was decided, and when the get returned it. */
  datatype Times = Times(stored: int, settled: int, returned: int)

  /** A cached value. A resource value combines the usage it got through a native get,
      whose clocks are supplied, with a credit read of its own; credits is None when the
      credit details are incomplete. */
  datatype Value =
    | Native(usage: Reading)
    | Resource(usage: Reading, supplied: Times, credits: Option<Reading>)
    | Query(quota: Reading)
  {
    /** Every upstream read in the value began after the given step. */
    predicate BeganAfter(step: nat) {
      match this
      case Native(u) => step < u.began
      case Resource(u, _, c) => step < u.began && (c.Some? ==> step < c.value.began)
      case Query(q) => step < q.began
    }

    /** Every load that made one of its reads began after the given step. */
    predicate LoadedAfter(step: nat) {
      match this
      case Native(u) => step < u.load
      case Resource(u, _, c) => step < u.load && (c.Some? ==> step < c.value.load)
      case Query(q) => step < q.load
    }
  }

  datatype Error = Cancelled | LoadFailed

  datatype Outcome = Ok(value: Value) | Err(error: Error)

  /** What a load returns: its outcome, and whether it may be cached. */
  datatype Load = Load(outcome: Outcome, cacheable: bool) {
    predicate Storable() {
      outcome.Ok? && cacheable
    }
  }

  /** insertedAt dates the store; the cache itself only ever looks at expiresAt. */
  datatype Entry = Entry(value: Value, insertedAt: int, expiresAt: int)

  /** A single-flight slot; outcome is meaningful once done. */
  datatype FlightState = FlightState(done: bool, outcome: Outcome)

  const OPEN_FLIGHT := FlightState(false, Err(LoadFailed))

  /** The cache, with flights named by their position in creation order. */
  datatype Core = Core(entries: map<Key, Entry>, inFlight: map<Key, nat>, flights: seq<FlightState>)

  const EMPTY_CORE := Core(map[], map[], [])

  datatype Found = Hit(entry: Entry) | Join(flight: nat) | Lead(flight: nat)

  /** First locked section of get: hit, or join the flight, or start one. */
  function Lookup(c: Core, key: Key, now: int): (Core, Found) {
    if key in c.entries && now < c.entries[key].expiresAt then
      (c, Hit(c.entries[key]))
    else
      var c := c.(entries := c.entries - {key});
      if key in c.inFlight then
        (c, Join(c.inFlight[key]))
      else
        (c.(inFlight := c.inFlight[key := |c.flights|], flights := c.flights + [OPEN_FLIGHT]),
         Lead(|c.flights|))
  }

  predicate Bound(c: Core, key: Key, flight: nat) {
    key in c.inFlight && c.inFlight[key] == flight
  }

  function Sweep(entries: map<Key, Entry>, now: int): map<Key, Entry> {
    map k | k in entries && now < entries[k].expiresAt :: entries[k]
  }

  /** Who makes room: nobody below the limit, else an entry that expires no
      later than any other. Map order decides between equals. */
  predicate ValidVictim(entries: map<Key, Entry>, victim: Option<Key>) {
    if |entries| >= MAX_ENTRIES then
      && victim.Some?
      && victim.value in entries
      && (forall k | k in entries :: entries[victim.value].expiresAt <= entries[k].expiresAt)
    else
      victim.None?
  }

  function Evict(entries: map<Key, Entry>, victim: Option<Key>): map<Key, Entry> {
    if victim.Some? then entries - {victim.value} else entries
  }

  /** Second locked section of get: record the outcome; if the flight is still
      the bound one, unbind it and store a storable value. */
  function Finish(c: Core, key: Key, flight: nat, load: Load, now: int, ttl: int, victim: Option<Key>): Core
    requires flight < |c.flights|
  {
    var c' := c.(flights := c.flights[flight := FlightState(true, load.outcome)]);
    if !Bound(c, key, flight) then
      c'
    else if !load.Storable() then
      c'.(inFlight := c.inFlight - {key})
    else
      c'.(inFlight := c.inFlight - {key},
          entries := Evict(Sweep(c.entries, now), victim)[key := Entry(load.outcome.value, now, now + ttl)])
  }

  /** The victim a finish needs: only a store evicts. */
  predicate FinishVictim(c: Core, key: Key, flight: nat, load: Load, now: int, victim: Option<Key>) {
    if Bound(c, key, flight) && load.Storable() then ValidVictim(Sweep(c.entries, now), victim)
    else victim.None?
  }

  function Invalidate(c: Core, target: Target): Core {
    c.(entries := map k | k in c.entries && !Matches(target, k) :: c.entries[k],
       inFlight := map k | k in c.inFlight && !Matches(target, k) :: c.inFlight[k])
  }

  // ---------------------------------------------------------------- invariant

  /** No key is both cached and in flight, the cache is bounded, and bound
      flights are distinct and still open. */
  ghost predicate Consistent(c: Core) {
    && c.entries.Keys !! c.inFlight.Keys
    && |c.entries| <= MAX_ENTRIES
    && (forall k | k in c.inFlight :: c.inFlight[k] < |c.flights| && !c.flights[c.inFlight[k]].done)
    && (forall k, l | k in c.inFlight && l in c.inFlight && c.inFlight[k] == c.inFlight[l] :: k == l)
  }

  lemma SubmapSize(small: map<Key, Entry>, large: map<Key, Entry>)
    requires small.Keys <= large.Keys
    ensures |small| <= |large|
  {
    SubsetSize(small.Keys, large.Keys);
  }

  lemma {:induction false} SubsetSize<T>(small: set<T>, large: set<T>)
    requires small <= large
    ensures |small| <= |large|
  {
    if small != {} {
      var x :| x in small;
      SubsetSize(small - {x}, large - {x});
    }
  }

  lemma DropConsistent(c: Core, key: Key)
    requires Consistent(c)
    ensures Consistent(c.(entries := c.entries - {key}))
  {
    SubmapSize(c.entries - {key}, c.entries);
    assert forall k | k in c.entries - {key} :: k in c.entries;
  }

  lemma LeadConsistent(c: Core, key: Key)
    requires Consistent(c) && key !in c.entries && key !in c.inFlight
    ensures Consistent(Core(c.entries, c.inFlight[key := |c.flights|], c.flights + [OPEN_FLIGHT]))
  {
    var inFlight, flights := c.inFlight[key := |c.flights|], c.flights + [OPEN_FLIGHT];
    assert flights[|c.flights|] == OPEN_FLIGHT;
    assert forall k | k in inFlight && k != key :: k in c.inFlight && inFlight[k] == c.inFlight[k] < |c.flights|;
    assert forall f | 0 <= f < |c.flights| :: flights[f] == c.flights[f];
  }

  lemma LookupConsistent(c: Core, key: Key, now: int)
    requires Consistent(c)
    ensures Consistent(Lookup(c, key, now).0)
  {
    DropConsistent(c, key);
    var dropped := c.(entries := c.entries - {key});
    assert key !in dropped.entries;
    hide Consistent;
    if key !in dropped.inFlight {
      LeadConsistent(dropped, key);
    }
  }

  lemma InvalidateConsistent(c: Core, target: Target)
    requires Consistent(c)
    ensures Consistent(Invalidate(c, target))
  {
    SubmapSize(Invalidate(c, target).entries, c.entries);
  }

  lemma StoreFrame(entries: map<Key, Entry>, now: int, victim: Option<Key>, key: Key, entry: Entry)
    ensures var after := Evict(Sweep(entries, now), victim)[key := entry];
            forall k | k in after :: (k in entries && after[k] == entries[k]) || (k == key && after[k] == entry)
  {
  }

  /** What a finish does to a cache: it closes its flight and unbinds at most that one. It
      leaves the entries alone unless the flight was bound and the load may be stored; then
      it may drop some, and adds the loaded value under its own key. */
  lemma FinishFrame(c: Core, key: Key, flight: nat, load: Load, now: int, ttl: int, victim: Option<Key>)
    requires Consistent(c) && flight < |c.flights|
    requires FinishVictim(c, key, flight, load, now, victim)
    ensures var after := Finish(c, key, flight, load, now, ttl, victim);
            && after.flights == c.flights[flight := FlightState(true, load.outcome)]
            && (forall k | k in after.inFlight :: Bound(c, k, after.inFlight[k]))
            && (forall k | k in c.inFlight && c.inFlight[k] != flight :: Bound(after, k, c.inFlight[k]))
            && (forall k | k in after.entries ::
                  || (k in c.entries && after.entries[k] == c.entries[k])
                  || (k == key && Bound(c, k, flight) && load.Storable()
                      && after.entries[k] == Entry(load.outcome.value, now, now + ttl)))
            && (key !in c.inFlight || c.inFlight[key] != flight || load.outcome.Err? || !load.cacheable ==>
                  after.entries == c.entries)
  {
    hide Evict, Sweep, ValidVictim, FinishVictim, Consistent;
    if load.Storable() {
      StoreFrame(c.entries, now, victim, key, Entry(load.outcome.value, now, now + ttl));
    }
  }

  lemma DropOne(entries: map<Key, Entry>, k: Key)
    requires k in entries
    ensures |entries - {k}| == |entries| - 1
  {
    assert (entries - {k}).Keys == entries.Keys - {k};
  }

  lemma AddOne(entries: map<Key, Entry>, k: Key, entry: Entry)
    ensures |entries[k := entry]| == |entries| + (if k in entries then 0 else 1)
  {
    assert entries[k := entry].Keys == entries.Keys + {k};
  }

  lemma EvictedSize(entries: map<Key, Entry>, victim: Option<Key>)
    requires victim.Some? ==> victim.value in entries
    ensures |Evict(entries, victim)| == |entries| - (if victim.Some? then 1 else 0)
  {
    if victim.Some? {
      DropOne(entries, victim.value);
    }
  }

  /** What is left after the sweep and the eviction has room for one more. */
  lemma StoreFits(entries: map<Key, Entry>, now: int, victim: Option<Key>, key: Key, entry: Entry)
    requires |entries| <= MAX_ENTRIES && ValidVictim(Sweep(entries, now), victim)
    ensures |Evict(Sweep(entries, now), victim)[key := entry]| <= MAX_ENTRIES
  {
    var swept := Sweep(entries, now);
    SubmapSize(swept, entries);
    hide Sweep, Evict;
    EvictedSize(swept, victim);
    AddOne(Evict(swept, victim), key, entry);
  }

  lemma FinishConsistent(c: Core, key: Key, flight: nat, load: Load, now: int, ttl: int, victim: Option<Key>)
    requires Consistent(c) && flight < |c.flights|
    requires FinishVictim(c, key, flight, load, now, victim)
    requires forall k | k in c.inFlight && c.inFlight[k] == flight :: k == key
    ensures Consistent(Finish(c, key, flight, load, now, ttl, victim))
  {
    var after := Finish(c, key, flight, load, now, ttl, victim);
    FinishFrame(c, key, flight, load, now, ttl, victim);
    FinishedSize(c, key, flight, load, now, ttl, victim);
    assert Bound(c, key, flight) ==> key !in after.inFlight;
    hide Finish, FinishVictim, Consistent;
    FrameConsistent(c, after, key, flight);
  }

  lemma FrameConsistent(c: Core, after: Core, key: Key, flight: nat)
    requires Consistent(c) && flight < |c.flights| == |after.flights| && |after.entries| <= MAX_ENTRIES
    requires forall f | 0 <= f < |c.flights| && f != flight :: after.flights[f] == c.flights[f]
    requires forall k | k in after.inFlight :: Bound(c, k, after.inFlight[k])
    requires forall k | k in c.inFlight && c.inFlight[k] == flight :: k == key
    requires Bound(c, key, flight) ==> key !in after.inFlight
    requires forall k | k in after.entries :: k in c.entries || (k == key && Bound(c, key, flight))
    ensures Consistent(after)
  {
    assert forall k | k in after.inFlight :: after.inFlight[k] != flight;
  }

  lemma FinishedSize(c: Core, key: Key, flight: nat, load: Load, now: int, ttl: int, victim: Option<Key>)
    requires |c.entries| <= MAX_ENTRIES && flight < |c.flights|
    requires FinishVictim(c, key, flight, load, now, victim)
    ensures |Finish(c, key, flight, load, now, ttl, victim).entries| <= MAX_ENTRIES
  {
    hide Sweep, Evict, ValidVictim;
    if Bound(c, key, flight) && load.Storable() {
      StoreFits(c.entries, now, victim, key, Entry(load.outcome.value, now, now + ttl));
    }
  }

  // ----------------------------------------------------------------- eviction

  /** A victim always exists. */
  lemma {:induction false} VictimExists(entries: map<Key, Entry>) returns (victim: Option<Key>)
    ensures ValidVictim(entries, victim)
  {
    if |entries| < MAX_ENTRIES {
      return None;
    }
    var k := EarliestExpiry(entries, entries.Keys);
    victim := Some(k);
  }

  lemma {:induction false} EarliestExpiry(entries: map<Key, Entry>, keys: set<Key>) returns (k: Key)
    requires keys <= entries.Keys && keys != {}
    ensures k in keys && forall l | l in keys :: entries[k].expiresAt <= entries[l].expiresAt
    decreases keys
  {
    k :| k in keys;
    var rest := keys - {k};
    assert forall l | l in keys :: l == k || l in rest;
    if rest != {} {
      var l := EarliestExpiry(entries, rest);
      if entries[l].expiresAt < entries[k].expiresAt {
        k := l;
      }
    }
  }

  /** A store leaves exactly the unexpired entries, minus one of minimal expiry
      when those fill the cache, plus the new one. */
  lemma StoreContents(c: Core, key: Key, flight: nat, load: Load, now: int, ttl: int, victim: Option<Key>, k: Key)
    requires Consistent(c) && Bound(c, key, flight) && load.Storable()
    requires FinishVictim(c, key, flight, load, now, victim)
    ensures var after := Finish(c, key, flight, load, now, ttl, victim).entries;
            && (k in after <==> k == key || (k in c.entries && now < c.entries[k].expiresAt && victim != Some(k)))
            && (k in after ==> after[k] == if k == key then Entry(load.outcome.value, now, now + ttl) else c.entries[k])
            && |after| == |Sweep(c.entries, now)| + (if victim.Some? then 0 else 1)
  {
    var swept := Sweep(c.entries, now);
    assert victim.Some? ==> victim.value in swept;
    assert key !in swept;
    assert Finish(c, key, flight, load, now, ttl, victim).entries == Evict(swept, victim)[key := Entry(load.outcome.value, now, now + ttl)];
    StoreSize(swept, victim, key, Entry(load.outcome.value, now, now + ttl));
    hide Consistent, FinishVictim, Finish;
  }

  lemma StoreSize(swept: map<Key, Entry>, victim: Option<Key>, key: Key, entry: Entry)
    requires key !in swept && (victim.Some? ==> victim.value in swept)
    ensures |Evict(swept, victim)[key := entry]| == |swept| + (if victim.Some? then 0 else 1)
  {
    EvictedSize(swept, victim);
    AddOne(Evict(swept, victim), key, entry);
  }

  /** Invalidating drops exactly the target's entries and bindings, twice is
      once, and a blank authIndex covers every credential of the provider. */
  lemma InvalidateExact(c: Core, target: Target)
    ensures var after := Invalidate(c, target);
            && (forall k :: k in after.entries <==> k in c.entries && !Matches(target, k))
            && (forall k :: k in after.inFlight <==> k in c.inFlight && !Matches(target, k))
            && Invalidate(after, target) == after
            && Invalidate(Invalidate(c, Target(target.provider, "")), target) == Invalidate(c, Target(target.provider, ""))
  {
    var after, all := Invalidate(c, target), Invalidate(c, Target(target.provider, ""));
    assert Invalidate(after, target).entries == after.entries;
    assert Invalidate(after, target).inFlight == after.inFlight;
    assert Invalidate(all, target).entries == all.entries;
    assert Invalidate(all, target).inFlight == all.inFlight;
  }
}
