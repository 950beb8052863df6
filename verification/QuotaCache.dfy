/** The quota read cache itself: mutable maps and flight objects, with its three
    locked sections as methods that implement the functions of CacheCore. */
module QuotaCache {
  import opened Text
  import opened CacheKey
  import C = CacheCore

  /** One single-flight slot; done stands for its closed channel. */
  class Flight {
    ghost const id: nat
    var done: bool
    var outcome: C.Outcome

    constructor (ghost id: nat)
      ensures this.id == id && !done && outcome == C.OPEN_FLIGHT.outcome
    {
      this.id := id;
      done := false;
      outcome := C.Err(C.LoadFailed);
    }
  }

  datatype Found = Hit(value: C.Value) | Join(flight: Flight) | Lead(flight: Flight)

  ghost function Ids(bindings: map<Key, Flight>): map<Key, nat> {
    map k | k in bindings :: bindings[k].id
  }

  lemma IdsOfFiltered(before: map<Key, Flight>, after: map<Key, Flight>, target: Target)
    requires after == map k | k in before && !Matches(target, k) :: before[k]
    ensures Ids(after) == map k | k in Ids(before) && !Matches(target, k) :: Ids(before)[k]
  {
  }

  ghost function States(flights: seq<Flight>): (states: seq<C.FlightState>)
    reads flights
    ensures |states| == |flights|
    ensures forall i | 0 <= i < |flights| :: states[i] == C.FlightState(flights[i].done, flights[i].outcome)
  {
    seq(|flights|, i requires 0 <= i < |flights| reads flights => C.FlightState(flights[i].done, flights[i].outcome))
  }

  /** The key belongs to the credential that an invalidation names, or to any of the
      provider when it names none. */
  predicate IsMeant(provider: string, authIndex: string, k: Key) {
    k.provider == ToLower(TrimSpace(provider)) && (TrimSpace(authIndex) == "" || k.authIndex == TrimSpace(authIndex))
  }

  class QuotaReadCache {
    var entries: map<Key, C.Entry>
    var inFlight: map<Key, Flight>
    ghost var flights: seq<Flight>  // every flight ever started, in order

    ghost predicate Valid()
      reads this, flights
    {
      && (forall i | 0 <= i < |flights| :: flights[i].id == i)
      && (forall k | k in inFlight :: inFlight[k] in flights)
      && (forall k | k in entries :: 0 < entries[k].expiresAt)
    }

    ghost function View(): C.Core
      reads this, flights
    {
      C.Core(entries, Ids(inFlight), States(flights))
    }

    predicate IsBound(key: Key, flight: Flight)
      reads this
    {
      key in inFlight && inFlight[key] == flight
    }

    constructor ()
      ensures Valid() && fresh(this) && View() == C.EMPTY_CORE
    {
      entries := map[];
      inFlight := map[];
      flights := [];
    }

    /** get, up to the start of the load. */
    method BeginGet(key: Key, now: int) returns (found: Found)
      requires Valid()
      modifies this
      ensures Valid()
      ensures flights == old(flights) || (|flights| == |old(flights)| + 1 && fresh(flights[|flights| - 1]) && flights[..|flights| - 1] == old(flights))
      ensures View() == C.Lookup(old(View()), key, now).0
      ensures match C.Lookup(old(View()), key, now).1
              case Hit(entry) => found == Hit(entry.value)
              case Join(f) => f < |flights| && found == Join(flights[f])
              case Lead(f) => f < |flights| && found == Lead(flights[f]) && fresh(flights[f])
    {
      ghost var before := View();
      if key in entries {
        if now < entries[key].expiresAt {
          return Hit(entries[key].value);
        }
        entries := entries - {key};
      }
      assert before.entries - {key} == entries;
      assert States(flights) == before.flights;
      if key in inFlight {
        return Join(inFlight[key]);
      }
      var flight := StartFlight(key);
      return Lead(flight);
    }

    method StartFlight(key: Key) returns (flight: Flight)
      requires Valid()
      modifies this`inFlight, this`flights
      ensures Valid() && fresh(flight) && flight.id == |old(flights)|
      ensures inFlight == old(inFlight)[key := flight] && flights == old(flights) + [flight]
      ensures Ids(inFlight) == old(Ids(inFlight))[key := |old(flights)|]
      ensures States(flights) == old(States(flights)) + [C.OPEN_FLIGHT]
    {
      flight := new Flight(|flights|);
      inFlight := inFlight[key := flight];
      flights := flights + [flight];
    }

    /** get, from the end of the load. */
    method FinishGet(key: Key, flight: Flight, load: C.Load, now: int, ttl: int) returns (ghost victim: Option<Key>)
      requires Valid() && flight in flights
      requires 0 < now && 0 < ttl
      modifies this, flight
      ensures Valid() && flights == old(flights)
      ensures C.FinishVictim(old(View()), key, flight.id, load, now, victim)
      ensures View() == C.Finish(old(View()), key, flight.id, load, now, ttl, victim)
      ensures key !in old(inFlight) || old(inFlight)[key] != flight || load.outcome.Err? || !load.cacheable ==>
                entries == old(entries)
    {
      hide C.Sweep, C.Evict, C.ValidVictim, Ids, States;
      ghost var before := View();
      BindingsAgree(key, flight);
      assert flight.id < |before.flights|;
      hide Valid;
      RecordOutcome(flight, load.outcome);
      victim := Settle(key, flight, load, now, ttl);
      MarkDone(flight);
      assert View().flights == before.flights[flight.id := C.FlightState(true, load.outcome)];
    }

    lemma BindingsAgree(key: Key, flight: Flight)
      requires Valid() && flight in flights
      ensures C.Bound(View(), key, flight.id) <==> IsBound(key, flight)
      ensures Ids(inFlight - {key}) == Ids(inFlight) - {key}
    {
    }

    method RecordOutcome(flight: Flight, outcome: C.Outcome)
      requires Valid() && flight in flights
      modifies flight`outcome
      ensures Valid() && flight.outcome == outcome
      ensures States(flights) == old(States(flights))[flight.id := C.FlightState(flight.done, outcome)]
    {
      flight.outcome := outcome;
      assert flights[flight.id] == flight;
    }

    /** Wakes the waiters. */
    method MarkDone(flight: Flight)
      requires Valid() && flight in flights
      modifies flight`done
      ensures Valid()
      ensures States(flights) == old(States(flights))[flight.id := C.FlightState(true, flight.outcome)]
    {
      flight.done := true;
      assert flights[flight.id] == flight;
    }

    /** Unbinds the flight if it is still the bound one, and then stores. */
    method Settle(key: Key, flight: Flight, load: C.Load, now: int, ttl: int) returns (ghost victim: Option<Key>)
      requires Valid() && 0 < now && 0 < ttl
      modifies this`entries, this`inFlight
      ensures Valid()
      ensures inFlight == if old(IsBound(key, flight)) then old(inFlight) - {key} else old(inFlight)
      ensures if old(IsBound(key, flight)) && load.Storable()
              then C.ValidVictim(C.Sweep(old(entries), now), victim)
              else victim.None?
      ensures entries == if old(IsBound(key, flight)) && load.Storable()
                         then C.Evict(C.Sweep(old(entries), now), victim)[key := C.Entry(load.outcome.value, now, now + ttl)]
                         else old(entries)
    {
      victim := None;
      if IsBound(key, flight) {
        inFlight := inFlight - {key};
        if load.outcome.Ok? && load.cacheable {
          SweepExpired(now);
          victim := EvictIfFull();
          entries := entries[key := C.Entry(load.outcome.value, now, now + ttl)];
        }
      }
    }

    method SweepExpired(now: int)
      requires Valid()
      modifies this`entries
      ensures Valid() && entries == C.Sweep(old(entries), now)
    {
      var remaining := entries.Keys;
      while remaining != {}
        invariant remaining <= old(entries).Keys
        invariant entries == map k | k in old(entries) && (k in remaining || now < old(entries)[k].expiresAt) :: old(entries)[k]
        decreases remaining
      {
        var staleKey :| staleKey in remaining;
        if now >= entries[staleKey].expiresAt {
          entries := entries - {staleKey};
        }
        remaining := remaining - {staleKey};
      }
    }

    method EvictIfFull() returns (ghost victim: Option<Key>)
      requires Valid()
      modifies this`entries
      ensures Valid() && C.ValidVictim(old(entries), victim)
      ensures entries == C.Evict(old(entries), victim)
    {
      if |entries| < C.MAX_ENTRIES {
        return None;
      }
      // 0 is the zero time: no candidate has been looked at yet.
      var oldestKey, oldestTime := Key(CodexNative, "", "", [], []), 0;
      var remaining := entries.Keys;
      while remaining != {}
        invariant remaining <= entries.Keys
        invariant oldestTime == 0 <==> remaining == entries.Keys
        invariant oldestTime != 0 ==> oldestKey in entries && entries[oldestKey].expiresAt == oldestTime
        invariant forall k | k in entries.Keys - remaining :: oldestTime <= entries[k].expiresAt
        decreases remaining
      {
        var existingKey :| existingKey in remaining;
        if oldestTime == 0 || entries[existingKey].expiresAt < oldestTime {
          oldestKey, oldestTime := existingKey, entries[existingKey].expiresAt;
        }
        remaining := remaining - {existingKey};
      }
      assert entries.Keys != {};
      assert forall k | k in entries :: k in entries.Keys - remaining;
      victim := Some(oldestKey);
      entries := entries - {oldestKey};
    }

    method Invalidate(provider: string, authIndex: string)
      requires Valid()
      modifies this`entries, this`inFlight
      ensures Valid() && flights == old(flights)
      ensures View() == C.Invalidate(old(View()), NewTarget(provider, authIndex))
      ensures forall k :: k in entries <==> k in old(entries) && !IsMeant(provider, authIndex, k)
      ensures forall k :: k in inFlight <==> k in old(inFlight) && !IsMeant(provider, authIndex, k)
      ensures forall k | k in entries :: entries[k] == old(entries)[k]
      ensures forall k | k in inFlight :: inFlight[k] == old(inFlight)[k]
    {
      hide ToLower, TrimSpace;
      InvalidateTarget(NewTarget(provider, authIndex));
    }

    method InvalidateTarget(target: Target)
      requires Valid()
      modifies this`entries, this`inFlight
      ensures Valid() && flights == old(flights)
      ensures View() == C.Invalidate(old(View()), target)
      ensures entries == map k | k in old(entries) && !Matches(target, k) :: old(entries)[k]
      ensures inFlight == map k | k in old(inFlight) && !Matches(target, k) :: old(inFlight)[k]
    {
      DropEntries(target);
      DropBindings(target);
      IdsOfFiltered(old(inFlight), inFlight, target);
    }

    method DropEntries(target: Target)
      requires Valid()
      modifies this`entries
      ensures Valid() && entries == map k | k in old(entries) && !Matches(target, k) :: old(entries)[k]
    {
      var remaining := entries.Keys;
      while remaining != {}
        invariant remaining <= old(entries).Keys
        invariant entries == map k | k in old(entries) && (k in remaining || !Matches(target, k)) :: old(entries)[k]
        decreases remaining
      {
        var key :| key in remaining;
        if key.provider == target.provider && (target.authIndex == "" || key.authIndex == target.authIndex) {
          entries := entries - {key};
        }
        remaining := remaining - {key};
      }
    }

    method DropBindings(target: Target)
      requires Valid()
      modifies this`inFlight
      ensures Valid() && inFlight == map k | k in old(inFlight) && !Matches(target, k) :: old(inFlight)[k]
    {
      var remaining := inFlight.Keys;
      while remaining != {}
        invariant remaining <= old(inFlight).Keys
        invariant inFlight == map k | k in old(inFlight) && (k in remaining || !Matches(target, k)) :: old(inFlight)[k]
        decreases remaining
      {
        var key :| key in remaining;
        if key.provider == target.provider && (target.authIndex == "" || key.authIndex == target.authIndex) {
          inFlight := inFlight - {key};
        }
        remaining := remaining - {key};
      }
    }
  }
}
