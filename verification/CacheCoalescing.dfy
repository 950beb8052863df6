/** Coalescing: how many loads of one key can run at once. */
module CacheCoalescing {
  import opened Text
  import opened CacheKey
  import opened CacheCore
  import opened CacheSystem
  import opened CacheInvariant

  /** A matching invalidation fell strictly between two steps. */
  ghost predicate Invalidated(s: State, key: Key, after: nat, before: nat) {
    exists n :: 0 <= n < |s.resets| && Matches(s.resets[n].target, key) && after < s.resets[n].at < before
  }

  predicate Open(s: State, f: nat)
    requires f < |s.core.flights|
  {
    !s.core.flights[f].done
  }

  /** An open flight is bound, or was detached by an invalidation since it began. */
  ghost predicate Accounted(s: State, f: nat)
    requires f < |s.info| == |s.core.flights|
  {
    Open(s, f) ==> Bound(s.core, s.info[f].key, f) || Invalidated(s, s.info[f].key, s.info[f].began, s.step)
  }

  /** Between the starts of two open flights for one key lies an invalidation. */
  ghost predicate Separated(s: State, f: nat, g: nat)
    requires f < g < |s.info| == |s.core.flights|
  {
    Open(s, f) && Open(s, g) && s.info[f].key == s.info[g].key ==>
      Invalidated(s, s.info[f].key, s.info[f].began, s.info[g].began)
  }

  ghost predicate Coalesced(s: State)
    requires |s.info| == |s.core.flights|
  {
    && (forall f | 0 <= f < |s.info| :: Accounted(s, f))
    && (forall f, g | 0 <= f < g < |s.info| :: Separated(s, f, g))
  }

  lemma InvalidatedPersists(s: State, s': State, key: Key, after: nat, before: nat, later: nat)
    requires Extends(s, s') && before <= later && Invalidated(s, key, after, before)
    ensures Invalidated(s', key, after, later)
  {
    var n :| 0 <= n < |s.resets| && Matches(s.resets[n].target, key) && after < s.resets[n].at < before;
    assert s'.resets[n] == s.resets[n];
  }

  /** Steps that open no flight and keep open ones accounted for. */
  lemma KeepsCoalesced(s: State, s': State, t: nat)
    requires WellFormed(s) && Coalesced(s) && Grows(s, s', t) && Extends(s, s')
    requires |s'.info| == |s.info|
    requires forall f | 0 <= f < |s.info| && Open(s', f) && Bound(s.core, s.info[f].key, f) ::
               Bound(s'.core, s.info[f].key, f) || Invalidated(s', s.info[f].key, s.info[f].began, s'.step)
    ensures Coalesced(s')
  {
    forall f | 0 <= f < |s'.info|
      ensures Accounted(s', f)
    {
      assert FlightGrows(s, s', t, f) && Accounted(s, f);
      if Open(s', f) && !Bound(s.core, s.info[f].key, f) {
        InvalidatedPersists(s, s', s.info[f].key, s.info[f].began, s.step, s'.step);
      }
    }
    forall f, g | 0 <= f < g < |s'.info|
      ensures Separated(s', f, g)
    {
      assert FlightGrows(s, s', t, f) && FlightGrows(s, s', t, g) && Separated(s, f, g);
      if Open(s', f) && Open(s', g) && s.info[f].key == s.info[g].key {
        InvalidatedPersists(s, s', s.info[f].key, s.info[f].began, s.info[g].began, s.info[g].began);
      }
    }
  }

  /** A lookup opens a flight only when none is bound, so any open one has been
      detached before. */
  lemma LeadKeepsCoalesced(s: State, s': State, t: nat, f: nat)
    requires WellFormed(s) && Coalesced(s) && t < |s.tasks| && LeadShape(s, s', t, f)
    requires s.tasks[t].key !in s.core.inFlight
    requires Grows(s, s', t) && Extends(s, s')
    ensures Coalesced(s')
  {
    forall g | 0 <= g < |s'.info|
      ensures Accounted(s', g)
    {
      if g < f {
        assert FlightGrows(s, s', t, g) && Accounted(s, g);
        if Open(s', g) && !Bound(s.core, s.info[g].key, g) {
          InvalidatedPersists(s, s', s.info[g].key, s.info[g].began, s.step, s'.step);
        }
      }
    }
    forall g, h | 0 <= g < h < |s'.info|
      ensures Separated(s', g, h)
    {
      assert FlightGrows(s, s', t, g) && Accounted(s, g);
      if Open(s', g) && Open(s', h) && s'.info[g].key == s'.info[h].key {
        if h < f {
          assert FlightGrows(s, s', t, h) && Separated(s, g, h);
          InvalidatedPersists(s, s', s.info[g].key, s.info[g].began, s.info[h].began, s.info[h].began);
        } else {
          InvalidatedPersists(s, s', s.info[g].key, s.info[g].began, s.step, s.step);
        }
      }
    }
  }

  lemma InvalidateKeepsCoalesced(s: State, target: Target)
    requires WellFormed(s) && Coalesced(s)
    ensures WellFormed(Next(s, ResetInvalidates(target))) && Coalesced(Next(s, ResetInvalidates(target)))
  {
    var s' := Next(s, ResetInvalidates(target));
    StepKeepsWellFormed(s, ResetInvalidates(target));
    forall f | 0 <= f < |s.info| && Bound(s.core, s.info[f].key, f) && Matches(target, s.info[f].key)
      ensures Invalidated(s', s.info[f].key, s.info[f].began, s'.step)
    {
      assert FlightOk(s, f);
      assert s'.resets[|s.resets|] == Invalidation(target, s.step);
    }
    KeepsCoalesced(s, s', |s.tasks|);
  }

  lemma StepKeepsCoalesced(s: State, e: Event)
    requires WellFormed(s) && Coalesced(s) && Enabled(s, e)
    ensures WellFormed(Next(s, e)) && Coalesced(Next(s, e))
  {
    var s' := Next(s, e);
    StepKeepsWellFormed(s, e);
    match e
    case ResetInvalidates(target) => InvalidateKeepsCoalesced(s, target);
    case Begin(t) =>
      var key := s.tasks[t].key;
      if Bypasses(s, key) || Lookup(s.core, key, s.now).1.Hit? {
        KeepsCoalesced(s, s', t);
      } else {
        BeginShape(s, s', t);
        if key in s.core.inFlight {
          KeepsCoalesced(s, s', t);
        } else {
          LeadKeepsCoalesced(s, s', t, |s.core.flights|);
        }
      }
    case FinishLoad(t, victim) =>
      if s.tasks[t].flight.Some? {
        FinishShape(s, s', t, victim);
      }
      KeepsCoalesced(s, s', t);
    case _ => KeepsCoalesced(s, s', Mover(s, e));
  }

  lemma {:induction false} RunKeepsCoalesced(s: State, events: seq<Event>)
    requires WellFormed(s) && Coalesced(s) && ValidFrom(s, events)
    ensures WellFormed(Run(s, events)) && Coalesced(Run(s, events))
    decreases |events|
  {
    if events != [] {
      StepKeepsCoalesced(s, events[0]);
      RunKeepsCoalesced(Next(s, events[0]), events[1..]);
    }
  }

  lemma ReachableCoalesced(s: State)
    requires Reachable(s)
    ensures WellFormed(s) && Coalesced(s)
  {
    var ttl, now, events :| ValidFrom(Init(ttl, now), events) && Run(Init(ttl, now), events) == s;
    InitWellFormed(ttl, now);
    RunKeepsCoalesced(Init(ttl, now), events);
  }

  // ----------------------------------------------------------------- theorems

  /** The loads of a key that are running for flights. */
  ghost function OpenFlights(s: State, key: Key): set<nat>
    requires |s.info| == |s.core.flights|
  {
    set f | 0 <= f < |s.info| && Open(s, f) && s.info[f].key == key
  }

  ghost function InvalidationsBetween(s: State, key: Key, after: nat, before: nat): set<nat> {
    set n | 0 <= n < |s.resets| && Matches(s.resets[n].target, key) && after < s.resets[n].at < before
  }

  /** Flights in order, with an invalidation of the key between any two. */
  ghost predicate Spread(s: State, key: Key, flights: set<nat>) {
    && (forall f | f in flights :: f < |s.info|)
    && (forall f, g | f in flights && g in flights && f < g ::
          Invalidated(s, key, s.info[f].began, s.info[g].began))
  }

  lemma {:induction false} SpreadOfFlights(s: State, key: Key, flights: set<nat>, first: nat, last: nat)
    requires Spread(s, key, flights) && first in flights && last in flights
    requires forall f | f in flights :: first <= f <= last
    ensures |flights| <= 1 + |InvalidationsBetween(s, key, s.info[first].began, s.info[last].began)|
    decreases flights
  {
    if first == last {
      assert flights == {first};
    } else {
      var rest := flights - {last};
      assert first in rest;
      var prior := Greatest(rest);
      SpreadOfFlights(s, key, rest, first, prior);
      assert first < prior ==> Invalidated(s, key, s.info[first].began, s.info[prior].began);
      NextInvalidation(s, key, s.info[first].began, s.info[prior].began, s.info[last].began);
    }
  }

  lemma NextInvalidation(s: State, key: Key, first: nat, prior: nat, last: nat)
    requires first <= prior && Invalidated(s, key, prior, last)
    ensures |InvalidationsBetween(s, key, first, prior)| < |InvalidationsBetween(s, key, first, last)|
  {
    var n :| 0 <= n < |s.resets| && Matches(s.resets[n].target, key) && prior < s.resets[n].at < last;
    var early := InvalidationsBetween(s, key, first, prior);
    var all := InvalidationsBetween(s, key, first, last);
    assert early + {n} <= all && n !in early;
    SubsetSize(early + {n}, all);
  }

  lemma {:induction false} Greatest(flights: set<nat>) returns (g: nat)
    requires flights != {}
    ensures g in flights && forall f | f in flights :: f <= g
    decreases flights
  {
    g :| g in flights;
    if flights != {g} {
      var h := Greatest(flights - {g});
      assert forall f | f in flights :: f == g || f in flights - {g};
      if g < h {
        g := h;
      }
    }
  }

  /** At every moment, the running loads of a key number at most one plus the
      matching invalidations since the oldest of them began. */
  lemma ConcurrentLoadsAreBounded(s: State, key: Key, first: nat)
    requires Reachable(s) && |s.info| == |s.core.flights|
    requires first in OpenFlights(s, key) && forall f | f in OpenFlights(s, key) :: first <= f
    ensures |OpenFlights(s, key)| <= 1 + |InvalidationsBetween(s, key, s.info[first].began, s.step)|
  {
    ReachableCoalesced(s);
    OpenFlightsSpread(s, key);
    hide Reachable, WellFormed, Coalesced, Spread;
    var last := Greatest(OpenFlights(s, key));
    BeganBeforeNow(s, last);
    hide OpenFlights;
    SpreadOfFlights(s, key, OpenFlights(s, key), first, last);
    FewerBetween(s, key, s.info[first].began, s.info[last].began, s.step);
  }

  lemma OpenFlightsSpread(s: State, key: Key)
    requires WellFormed(s) && Coalesced(s)
    ensures Spread(s, key, OpenFlights(s, key))
  {
    hide Consistent, Accounted, FlightOk, TaskOk;
    assert forall f, g | f in OpenFlights(s, key) && g in OpenFlights(s, key) && f < g :: Separated(s, f, g);
  }

  lemma BeganBeforeNow(s: State, f: nat)
    requires WellFormed(s) && f < |s.info|
    ensures s.info[f].began < s.step
  {
    assert FlightOk(s, f);
  }

  lemma FewerBetween(s: State, key: Key, after: nat, before: nat, later: nat)
    requires before <= later
    ensures |InvalidationsBetween(s, key, after, before)| <= |InvalidationsBetween(s, key, after, later)|
  {
    SubsetSize(InvalidationsBetween(s, key, after, before), InvalidationsBetween(s, key, after, later));
  }

  /** While no matching invalidation has come since a flight began, every caller
      that looks its key up joins that flight. */
  lemma CallersShareTheFlight(s: State, f: nat)
    requires Reachable(s) && f < |s.info| == |s.core.flights| && Open(s, f)
    requires InvalidationsBetween(s, s.info[f].key, s.info[f].began, s.step) == {}
    ensures Lookup(s.core, s.info[f].key, s.now).1 == Join(f)
  {
    ReachableCoalesced(s);
    assert Accounted(s, f);
    NoneBetween(s, s.info[f].key, s.info[f].began, s.step);
  }

  lemma NoneBetween(s: State, key: Key, after: nat, before: nat)
    ensures Invalidated(s, key, after, before) <==> InvalidationsBetween(s, key, after, before) != {}
  {
    if Invalidated(s, key, after, before) {
      var n :| 0 <= n < |s.resets| && Matches(s.resets[n].target, key) && after < s.resets[n].at < before;
      assert n in InvalidationsBetween(s, key, after, before);
    }
  }
}
