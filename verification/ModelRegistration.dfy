/** Registration of the aliases, and the requests that are then resolved with them. */
module ModelRegistration {
  import opened Text
  import opened Prefixes
  import opened PrefixOrder
  import opened ModelCatalog
  import opened ModelAliases
  import opened ModelListing

  /** What the upstream answers to a fetch with each key; None when the fetch fails. */
  type Upstream = string -> Option<seq<string>>

  /** The aliases a listing gives rise to. */
  function AliasesIn(listing: set<string>, prefixes: seq<string>): set<string> {
    set m | m in listing && StripModelPrefix(m, prefixes).Some? && StripModelPrefix(m, prefixes).value != ""
      :: StripModelPrefix(m, prefixes).value
  }

  /** The aliases that the listings of some keys give rise to. */
  ghost function Aliases(c: Config, upstream: Upstream, keys: set<string>): set<string> {
    set key, b | key in keys && b in AliasesOf(c, upstream, key) :: b
  }

  ghost function AliasesOf(c: Config, upstream: Upstream, key: string): set<string> {
    if upstream(key).Some? then AliasesIn(Listing(upstream(key).value), Ordered(PrefixNames(c))) else {}
  }

  /** The keys whose listings a registration looks at. */
  function RegisteredKeys(c: Config): set<string> {
    if c.registers then MappedKeys(c) else {}
  }

  /** A catalogue fetch, and whether model lists were being filtered meanwhile. */
  datatype Fetch = Fetch(key: string, filtering: bool)

  ghost predicate EachKeyOnceUnfiltered(fetches: seq<Fetch>, keys: set<string>) {
    && (forall i, j | 0 <= i < j < |fetches| :: fetches[i].key != fetches[j].key)
    && (forall i | 0 <= i < |fetches| :: fetches[i].key in keys && !fetches[i].filtering)
    && (forall k | k in keys :: Fetch(k, false) in fetches)
  }

  /** A response on its way out. own says that it answers a fetch of our own. */
  datatype Response = Response(status: int, stream: bool, model: string, requested: string, own: bool, body: Body)

  predicate IsPublicModelList(r: Response) {
    r.status == 200 && !r.stream && r.model == "" && r.requested == "" && !r.own
  }

  class Runtime {
    const config: Config
    const catalog: Catalog
    var loaded: bool
    ghost var fetches: seq<Fetch>

    constructor (config: Config, ttl: int)
      ensures this.config == config && catalog.ttl == ttl && catalog.View() == Cached({}, 0)
      ensures fresh(catalog) && !loaded && fetches == []
    {
      this.config := config;
      catalog := new Catalog(ttl);
      loaded := false;
      fetches := [];
    }

    method FetchModels(key: string, upstream: Upstream) returns (r: Option<set<string>>)
      modifies this`fetches
      ensures fetches == old(fetches) + [Fetch(key, loaded)]
      ensures r == if upstream(key).Some? then Some(Listing(upstream(key).value)) else None
    {
      fetches := fetches + [Fetch(key, loaded)];
      if upstream(key).None? {
        return None;
      }
      var models := Collect(upstream(key).value);
      return Some(models);
    }

    /** Every mapped key is fetched once, while no list is filtered; exactly the aliases
        are published; filtering is on afterwards exactly when there is one. */
    method RegisterModels(upstream: Upstream) returns (models: set<string>)
      modifies this`loaded, this`fetches
      ensures models == Aliases(config, upstream, RegisteredKeys(config))
      ensures loaded <==> models != {}
      ensures old(fetches) <= fetches
      ensures EachKeyOnceUnfiltered(fetches[|old(fetches)|..], RegisteredKeys(config))
      ensures forall k :: Fetch(k, false) in fetches[|old(fetches)|..] <==>
                config.registers && k in config.prefixMap && k != "default" && config.prefixMap[k] != ""
    {
      hide TrimSpace, StripModelPrefix, Aliases, AliasesIn, PrefixNames, Listing, EachKeyOnceUnfiltered, Ordered,
        Sorted, Before, FirstIndex;
      NothingYet(config, upstream);
      models := {};
      loaded := false;
      assert fetches[|old(fetches)|..] == [];
      FetchesCover([], {});
      if !config.registers {
        return;
      }
      var prefixes := DeduplicationPrefixes(config);
      if prefixes == [] {
        NoPrefixNoKey(config);
        return;
      }
      var keys := MappedKeys(config);
      ghost var done: set<string>, made: seq<Fetch> := {}, [];
      while keys != {}
        invariant done + keys == MappedKeys(config) && done !! keys
        invariant !loaded
        invariant fetches == old(fetches) + made && EachKeyOnceUnfiltered(made, done)
        invariant models == Aliases(config, upstream, done)
      {
        var key :| key in keys;
        var listing := FetchModels(key, upstream);
        OneMoreFetch(made, done, key);
        OneMoreKey(config, upstream, done, key);
        if listing.Some? {
          models := AddAliases(listing.value, prefixes, models);
        }
        keys, done, made := keys - {key}, done + {key}, made + [Fetch(key, false)];
      }
      assert fetches[|old(fetches)|..] == made;
      FetchesCover(made, MappedKeys(config));
      loaded := models != {};
    }

    /** Only a public model list is rewritten, only while filtering is on, and only when
        an entry goes. */
    method InterceptResponse(req: Response) returns (r: Option<Body>)
      ensures r.Some? <==>
              && config.registers && config.hides && loaded
              && req.status == 200 && !req.stream && req.model == "" && req.requested == "" && !req.own
              && Filtered(req.body, Ordered(PrefixNames(config))) != req.body
      ensures r.Some? ==> r.value == Filtered(req.body, Ordered(PrefixNames(config)))
    {
      if !config.registers || !config.hides || !loaded || !IsPublicModelList(req) {
        return None;
      }
      var prefixes := DeduplicationPrefixes(config);
      var body, changed := RemovePrefixedModelEntries(req.body, prefixes);
      ChangedExactlyWhenDropped(req.body, prefixes);
      return if changed then Some(body) else None;
    }

    /** The catalogue is consulted only when the two prefixed names differ. */
    method ResolveModel(requested: string, allowed: Option<set<string>>, credential: string, call: Call)
      returns (d: Decision)
      modifies catalog
      ensures d == Resolve(config, requested, allowed, credential, Serve(old(catalog.View()), catalog.ttl, call).1)
      ensures catalog.View() ==
              if Precheck(config, requested, allowed, credential).None? && AsksCatalog(config, requested, credential)
              then Serve(old(catalog.View()), catalog.ttl, call).0 else old(catalog.View())
    {
      hide ApplyPrefix, TrimSpace, Serve;
      var refusal := Precheck(config, requested, allowed, credential);
      if refusal.Some? {
        return Refused(refusal.value);
      }
      var model := TrimSpace(requested);
      var fallback := ApplyPrefix(DefaultPrefix(config), model);
      if credential !in config.prefixMap {
        return Routed(model, fallback, true, false);
      }
      var primary := ApplyPrefix(config.prefixMap[credential], model);
      if primary == fallback {
        return Routed(model, primary, false, true);
      }
      var found := catalog.Exists(call, primary);
      if found.None? {
        return Refused(LookupFailed);
      }
      return if found.value then Routed(model, primary, false, true) else Routed(model, fallback, true, true);
    }
  }

  method AddAliases(listing: set<string>, prefixes: seq<string>, models: set<string>) returns (r: set<string>)
    ensures r == models + AliasesIn(listing, prefixes)
  {
    hide StripModelPrefix;
    r := models;
    var rest := listing;
    while rest != {}
      invariant rest <= listing
      invariant r == models + AliasesIn(listing - rest, prefixes)
    {
      var m :| m in rest;
      assert listing - (rest - {m}) == (listing - rest) + {m};
      var base := StripModelPrefix(m, prefixes);
      if base.Some? && base.value != "" {
        r := r + {base.value};
      }
      rest := rest - {m};
    }
    assert listing - rest == listing;
  }

  lemma NoPrefixNoKey(c: Config)
    ensures Ordered(PrefixNames(c)) == [] ==> MappedKeys(c) == {}
  {
    if k :| k in MappedKeys(c) {
      assert c.prefixMap[k] in PrefixNames(c);
      assert c.prefixMap[k] in Ordered(PrefixNames(c));
    }
  }

  lemma NothingYet(c: Config, upstream: Upstream)
    ensures Aliases(c, upstream, {}) == {} && EachKeyOnceUnfiltered([], {})
  {
  }

  lemma OneMoreKey(c: Config, upstream: Upstream, keys: set<string>, key: string)
    ensures Aliases(c, upstream, keys + {key}) == Aliases(c, upstream, keys) + AliasesOf(c, upstream, key)
  {
    hide AliasesOf;
  }

  lemma OneMoreFetch(fetches: seq<Fetch>, keys: set<string>, key: string)
    requires EachKeyOnceUnfiltered(fetches, keys) && key !in keys
    ensures EachKeyOnceUnfiltered(fetches + [Fetch(key, false)], keys + {key})
  {
    forall k | k in keys + {key}
      ensures Fetch(k, false) in fetches + [Fetch(key, false)]
    {
      if k == key {
        assert (fetches + [Fetch(key, false)])[|fetches|] == Fetch(key, false);
      }
    }
  }

  lemma FetchesCover(fetches: seq<Fetch>, keys: set<string>)
    requires EachKeyOnceUnfiltered(fetches, keys)
    ensures forall k :: Fetch(k, false) in fetches <==> k in keys
  {
  }

  // ---------------------------------------------------------------- round trip

  /** A key lists the model q + b, and q is the longest configured prefix it carries. */
  ghost predicate Lists(c: Config, upstream: Upstream, key: string, q: string, b: string) {
    && key in RegisteredKeys(c) && upstream(key).Some?
    && q + b in Listing(upstream(key).value)
    && ChosenPrefix(q + b, Ordered(PrefixNames(c))) == Some(q)
  }

  lemma AliasIsPublished(c: Config, upstream: Upstream, key: string, q: string, b: string)
    requires Lists(c, upstream, key, q, b) && b != ""
    ensures b in Aliases(c, upstream, RegisteredKeys(c))
  {
    ListedIsTrimmed(upstream(key).value, q + b);
    hide TrimSpace, Listing, PrefixNames;
    var prefixes := Ordered(PrefixNames(c));
    StrippedIsTheRest(q + b, prefixes, b);
    assert b in AliasesOf(c, upstream, key);
  }

  lemma ListedIsTrimmed(ids: seq<string>, model: string)
    requires model in Listing(ids)
    ensures model != "" && Trimmed(model, IsSpace) && TrimSpace(model) == model
  {
    TrimFixpoint(model, IsSpace);
  }

  lemma ConfiguredIsNotEmpty(c: Config, q: string)
    requires q in Ordered(PrefixNames(c))
    ensures q != ""
  {
  }

  /** The round trip. While every fetch lists the same models, the alias of a listed
      model is published and asking for it with the key whose prefix was stripped
      reaches that model, provided the stripped prefix is stable, the alias is trimmed
      and does not repeat the prefix, and the model has no trailing group. */
  lemma AliasRoundTrip(c: Config, upstream: Upstream, key: string, q: string, b: string,
                       ttl: int, calls: seq<Call>, allowed: Option<set<string>>)
    requires Lists(c, upstream, key, q, b) && b != ""
    requires c.prefixMap[key] == q && NormalizePrefix(q) == q
    requires Trimmed(b, IsSpace) && !HasPrefix(b, q) && !Grouped(q + b)
    requires Precheck(c, b, allowed, key).None?
    requires calls != [] && Answer(ttl, calls).Some?
    requires forall call | call in calls && call.reply.Some? ::
               Listing(call.reply.value) == Listing(upstream(key).value)
    ensures b in Aliases(c, upstream, RegisteredKeys(c))
    ensures RoutesTo(Resolve(c, b, allowed, key, Answer(ttl, calls)), q + b)
  {
    AliasIsPublished(c, upstream, key, q, b);
    ListedIsTrimmed(upstream(key).value, q + b);
    hide TrimSpace, Listing, NormalizePrefix, Resolve, Precheck, LookupName, Answer;
    var models := Listing(upstream(key).value);
    SteadyUpstream(ttl, calls, models);
    LookupKeepsUngrouped(q + b);
    ConfiguredIsNotEmpty(c, q);
    AliasResolves(c, q, b, allowed, key, Some(models));
  }

  /** Every published alias is some listed model without its longest prefix. */
  lemma AliasHasASource(c: Config, upstream: Upstream, alias: string)
    requires alias in Aliases(c, upstream, RegisteredKeys(c))
    ensures alias != "" && exists key, q :: Lists(c, upstream, key, q, alias)
  {
    var key :| key in RegisteredKeys(c) && alias in AliasesOf(c, upstream, key);
    var prefixes := Ordered(PrefixNames(c));
    var m :| m in Listing(upstream(key).value) && StripModelPrefix(m, prefixes) == Some(alias);
    ListedIsTrimmed(upstream(key).value, m);
    hide TrimSpace, Listing, PrefixNames, StripModelPrefix;
    StrippedIsTheRest(m, prefixes, alias);
    hide ChosenPrefix;
    assert Lists(c, upstream, key, ChosenPrefix(m, prefixes).value, alias);
  }
}
