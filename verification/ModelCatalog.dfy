/** The upstream model catalogue: what a fetch yields, and the short-lived
    snapshot that Exists consults. */
module ModelCatalog {
  import opened Text

  /** The name a model is listed under: a trailing parenthesised group is dropped. */
  function LookupName(model: string): string {
    var model := TrimSpace(model);
    var opening := LastIndex(model, '(');
    if opening.Some? && model[|model| - 1] == ')' then TrimSpace(model[..opening.value]) else model
  }

  predicate Grouped(model: string) {
    '(' in model && model[|model| - 1] == ')'
  }

  lemma LookupKeepsUngrouped(model: string)
    ensures LookupName(model) == TrimSpace(model) <==> !Grouped(TrimSpace(model))
  {
    hide TrimSpace;
    var m := TrimSpace(model);
    var opening := LastIndex(m, '(');
    if opening.Some? {
      assert m[opening.value] in m;
      TrimmedIsNoLonger(m[..opening.value]);
    }
  }

  /** A trailing group comes off, with the space before it. */
  lemma GroupComesOff(model: string, base: string, inner: string)
    requires TrimSpace(model) == model == base + "(" + inner + ")" && '(' !in inner
    ensures LookupName(model) == TrimSpace(base)
  {
    hide TrimSpace;
    var n := |base|;
    assert model[n] == '(' && model[|model| - 1] == ')';
    assert model[..n] == base;
    assert forall j | n < j < |model| :: model[j] == (inner + ")")[j - n - 1];
    LastIndexAt(model, '(', n);
  }

  lemma TrimmedIsNoLonger(s: string)
    ensures |TrimSpace(s)| <= |s|
  {
  }

  /** The identifiers a reply lists, trimmed, blanks left out. */
  function Listing(ids: seq<string>): set<string> {
    set i | 0 <= i < |ids| && TrimSpace(ids[i]) != "" :: TrimSpace(ids[i])
  }

  method Collect(ids: seq<string>) returns (models: set<string>)
    ensures models == Listing(ids)
    ensures forall m :: m in models <==> m != "" && exists i :: 0 <= i < |ids| && TrimSpace(ids[i]) == m
  {
    hide TrimSpace;
    models := {};
    for n := 0 to |ids|
      invariant models == Listing(ids[..n])
    {
      assert forall i | 0 <= i < n :: ids[..n + 1][i] == ids[..n][i];
      var id := TrimSpace(ids[n]);
      if id != "" {
        assert ids[..n + 1][n] == ids[n];
        models := models + {id};
      }
    }
    assert ids[..|ids|] == ids;
  }

  /** One snapshot call: for which key, when it looks at the clock, what the
      upstream would answer to a fetch, and when that answer is in. The lock is held
      throughout, so calls do not overlap. */
  datatype Call = Call(key: string, asked: int, reply: Option<seq<string>>, done: int)

  datatype Cached = Cached(models: set<string>, expiresAt: int)

  predicate Hit(c: Cached, ttl: int, now: int) {
    c.models != {} && ttl > 0 && now < c.expiresAt
  }

  /** The cached state and the answer after one call. */
  function Serve(c: Cached, ttl: int, call: Call): (Cached, Option<set<string>>) {
    if Hit(c, ttl, call.asked) then (c, Some(c.models))
    else if call.reply.None? then (c, None)
    else (Cached(Listing(call.reply.value), call.done + ttl), Some(Listing(call.reply.value)))
  }

  class Catalog {
    const ttl: int
    var models: set<string>
    var expiresAt: int

    constructor (ttl: int)
      ensures this.ttl == ttl && View() == Cached({}, 0)
    {
      this.ttl := ttl;
      models := {};
      expiresAt := 0;
    }

    ghost function View(): Cached
      reads this
    {
      Cached(models, expiresAt)
    }

    method Snapshot(call: Call) returns (r: Option<set<string>>)
      modifies this
      ensures (View(), r) == Serve(old(View()), ttl, call)
    {
      if models != {} && ttl > 0 && call.asked < expiresAt {
        return Some(models);
      }
      if call.reply.None? {
        return None;
      }
      var fetched := Collect(call.reply.value);
      models := fetched;
      expiresAt := call.done + ttl;
      return Some(fetched);
    }

    /** None when the lookup itself fails. */
    method Exists(call: Call, model: string) returns (r: Option<bool>)
      modifies this
      ensures View() == Serve(old(View()), ttl, call).0
      ensures r == Listed(Serve(old(View()), ttl, call).1, model)
    {
      var snapshot := Snapshot(call);
      if snapshot.None? {
        return None;
      }
      return Some(LookupName(model) in snapshot.value);
    }
  }

  function Listed(snapshot: Option<set<string>>, model: string): Option<bool> {
    if snapshot.None? then None else Some(LookupName(model) in snapshot.value)
  }

  // ---------------------------------------------------------------- histories

  function After(ttl: int, calls: seq<Call>): Cached
    decreases |calls|
  {
    if calls == [] then Cached({}, 0) else
    Serve(After(ttl, calls[..|calls| - 1]), ttl, calls[|calls| - 1]).0
  }

  /** The answer to the last call. */
  function Answer(ttl: int, calls: seq<Call>): Option<set<string>>
    requires calls != []
  {
    Serve(After(ttl, calls[..|calls| - 1]), ttl, calls[|calls| - 1]).1
  }

  /** Call j went upstream and got a listing. */
  predicate Refreshes(ttl: int, calls: seq<Call>, j: nat)
    requires j < |calls|
  {
    !Hit(After(ttl, calls[..j]), ttl, calls[j].asked) && calls[j].reply.Some?
  }

  predicate LastRefresh(ttl: int, calls: seq<Call>, j: nat) {
    && j < |calls|
    && Refreshes(ttl, calls, j)
    && forall k: nat | j < k < |calls| :: !Refreshes(ttl, calls, k)
  }

  lemma EarlierCallsRefreshAlike(ttl: int, calls: seq<Call>, n: nat)
    requires n <= |calls|
    ensures forall k: nat | k < n :: Refreshes(ttl, calls[..n], k) == Refreshes(ttl, calls, k)
  {
    forall k: nat | k < n
      ensures Refreshes(ttl, calls[..n], k) == Refreshes(ttl, calls, k)
    {
      assert calls[..n][..k] == calls[..k] && calls[..n][k] == calls[k];
    }
  }

  predicate LeftBy(ttl: int, calls: seq<Call>, j: nat) {
    && LastRefresh(ttl, calls, j)
    && After(ttl, calls) == Cached(Listing(calls[j].reply.value), calls[j].done + ttl)
  }

  predicate NeverRefreshed(ttl: int, calls: seq<Call>) {
    After(ttl, calls) == Cached({}, 0) && forall k: nat | k < |calls| :: !Refreshes(ttl, calls, k)
  }

  /** Either nothing was fetched yet, or the state is what the last refresh left. */
  lemma {:induction false} StateIsLastRefresh(ttl: int, calls: seq<Call>)
    ensures NeverRefreshed(ttl, calls) || exists j: nat :: LeftBy(ttl, calls, j)
    decreases |calls|
  {
    if calls != [] {
      var n := |calls| - 1;
      StateIsLastRefresh(ttl, calls[..n]);
      EarlierCallsRefreshAlike(ttl, calls, n);
      if Refreshes(ttl, calls, n) {
        assert LeftBy(ttl, calls, n);
      } else if j: nat :| LeftBy(ttl, calls[..n], j) {
        StillLeftBy(ttl, calls, j);
      }
    }
  }

  lemma StillLeftBy(ttl: int, calls: seq<Call>, j: nat)
    requires calls != [] && LeftBy(ttl, calls[..|calls| - 1], j) && !Refreshes(ttl, calls, |calls| - 1)
    ensures LeftBy(ttl, calls, j)
  {
    hide Listing;
    var n := |calls| - 1;
    EarlierCallsRefreshAlike(ttl, calls, n);
    assert After(ttl, calls) == After(ttl, calls[..n]);
    hide After, Refreshes;
    assert LastRefresh(ttl, calls, j);
  }

  predicate ServedFrom(ttl: int, calls: seq<Call>, j: nat)
    requires calls != []
  {
    && LastRefresh(ttl, calls, j)
    && Answer(ttl, calls) == Some(Listing(calls[j].reply.value))
    && (j == |calls| - 1 || calls[|calls| - 1].asked < calls[j].done + ttl)
  }

  /** A snapshot that is served is the listing of the most recent fetch that succeeded,
      made by this call itself or finished less than one TTL before it asked. */
  lemma AnswerIsTheLastRefresh(ttl: int, calls: seq<Call>)
    requires calls != [] && Answer(ttl, calls).Some?
    ensures exists j: nat :: ServedFrom(ttl, calls, j)
  {
    hide Listing;
    var n := |calls| - 1;
    if Refreshes(ttl, calls, n) {
      assert ServedFrom(ttl, calls, n);
    } else {
      StateIsLastRefresh(ttl, calls[..n]);
      var j: nat :| LeftBy(ttl, calls[..n], j);
      StillLeftBy(ttl, calls, j);
      assert ServedFrom(ttl, calls, j);
    }
  }

  /** A call is served without going upstream. */
  predicate ServedFromCache(ttl: int, calls: seq<Call>, j: nat)
    requires calls != []
  {
    var n := |calls| - 1;
    && LastRefresh(ttl, calls[..n], j) && Listing(calls[j].reply.value) != {}
    && 0 < ttl && calls[n].asked < calls[j].done + ttl
  }

  /** A call goes without a fetch of its own exactly when the last refresh listed something
      and is less than one TTL old; otherwise its answer is that of its fetch. */
  lemma AnswersExactly(ttl: int, calls: seq<Call>)
    requires calls != []
    ensures var n := |calls| - 1;
            if exists j: nat :: ServedFromCache(ttl, calls, j) then
              && !Refreshes(ttl, calls, n)
              && forall j: nat | ServedFromCache(ttl, calls, j) :: Answer(ttl, calls) == Some(Listing(calls[j].reply.value))
            else if calls[n].reply.None? then Answer(ttl, calls) == None
            else Refreshes(ttl, calls, n) && Answer(ttl, calls) == Some(Listing(calls[n].reply.value))
  {
    hide Listing;
    var n := |calls| - 1;
    var prior := calls[..n];
    StateIsLastRefresh(ttl, prior);
    forall j: nat | LastRefresh(ttl, prior, j)
      ensures LeftBy(ttl, prior, j)
    {
      var i: nat :| LeftBy(ttl, prior, i);
      assert i == j;
    }
    assert forall j: nat | j < n :: prior[j] == calls[j];
    assert Refreshes(ttl, calls, n) <==> !Hit(After(ttl, prior), ttl, calls[n].asked) && calls[n].reply.Some?;
    if j: nat :| LeftBy(ttl, prior, j) {
      assert Hit(After(ttl, prior), ttl, calls[n].asked) <==> ServedFromCache(ttl, calls, j);
    }
    hide LastRefresh, After, Refreshes;
  }

  /** The key plays no part: a caller within the TTL gets the listing that was fetched
      with another key, whatever its own would hold. */
  lemma KeysShareOneSnapshot(ttl: int, first: Call, second: Call)
    requires first.reply.Some? && Listing(first.reply.value) != {}
    requires ttl > 0 && second.asked < first.done + ttl
    ensures Answer(ttl, [first, second]) == Some(Listing(first.reply.value))
  {
    assert [first, second][..1] == [first] && [first][..0] == [];
    assert After(ttl, []) == Cached({}, 0);
    assert After(ttl, [first]) == Cached(Listing(first.reply.value), first.done + ttl);
  }

  /** While the upstream lists the same models to everybody, so does every snapshot. */
  lemma SteadyUpstream(ttl: int, calls: seq<Call>, models: set<string>)
    requires calls != [] && Answer(ttl, calls).Some?
    requires forall c | c in calls && c.reply.Some? :: Listing(c.reply.value) == models
    ensures Answer(ttl, calls) == Some(models)
  {
    AnswerIsTheLastRefresh(ttl, calls);
    var j: nat :| ServedFrom(ttl, calls, j);
    assert calls[j] in calls;
  }
}
