/** Unprefixed aliases: which configured prefix a model carries, and what a request
    for the alias resolves to. */
module ModelAliases {
  import opened Text
  import opened Prefixes
  import opened PrefixOrder
  import opened ModelCatalog

  datatype Config = Config(
    prefixMap: map<string, string>,
    includeDefault: bool,
    registers: bool,
    hides: bool,
    strict: bool)

  function DefaultPrefix(c: Config): string {
    if "default" in c.prefixMap then c.prefixMap["default"] else ""
  }

  /** The keys whose models get aliases. */
  function MappedKeys(c: Config): set<string> {
    set k | k in c.prefixMap && k != "default" && c.prefixMap[k] != ""
  }

  /** The prefixes that are stripped and hidden. */
  function PrefixNames(c: Config): set<string> {
    (set k | k in MappedKeys(c) :: c.prefixMap[k])
    + (if c.includeDefault && DefaultPrefix(c) != "" then {DefaultPrefix(c)} else {})
  }

  /** A set of names in the order in which they are tried. */
  ghost function Ordered(names: set<string>): (r: seq<string>)
    ensures Sorted(r) && forall x :: x in r <==> x in names
  {
    if names == {} then [] else
    var x :| x in names;
    var rest := Ordered(names - {x});
    var r := Insert(rest, x);
    assert forall y :: y in multiset(r) <==> y in multiset(rest) || y == x;
    assert forall y :: y in r <==> y in multiset(r);
    assert forall y :: y in rest <==> y in multiset(rest);
    r
  }

  method SortPrefixes(names: seq<string>) returns (r: seq<string>)
    requires Distinct(names)
    ensures Sorted(r) && forall x :: x in r <==> x in names
  {
    r := [];
    for n := 0 to |names|
      invariant Sorted(r)
      invariant forall x :: x in r <==> x in names[..n]
    {
      assert names[n] !in names[..n];
      assert names[..n + 1] == names[..n] + [names[n]];
      ghost var before := r;
      r := Insert(r, names[n]);
      assert forall y :: y in multiset(r) <==> y in multiset(before) || y == names[n];
      assert forall y :: y in r <==> y in multiset(r);
      assert forall y :: y in before <==> y in multiset(before);
    }
    assert names[..|names|] == names;
  }

  /** What is stripped and hidden: the prefixes of mapped keys, and the default one only when
      it is included; no blank ones. */
  predicate IsStripped(c: Config, p: string) {
    && p != ""
    && (|| (exists k :: k in c.prefixMap && k != "default" && c.prefixMap[k] == p)
        || (c.includeDefault && "default" in c.prefixMap && c.prefixMap["default"] == p))
  }

  lemma PrefixNamesExactly(c: Config, p: string)
    ensures p in PrefixNames(c) <==> IsStripped(c, p)
  {
    if k :| k in c.prefixMap && k != "default" && c.prefixMap[k] == p && p != "" {
      assert k in MappedKeys(c);
    }
  }

  method DeduplicationPrefixes(c: Config) returns (r: seq<string>)
    ensures r == Ordered(PrefixNames(c))
    ensures forall p :: p in r <==> IsStripped(c, p)
  {
    forall p
      ensures p in PrefixNames(c) <==> IsStripped(c, p)
    {
      PrefixNamesExactly(c, p);
    }
    var seen: set<string>, names: seq<string> := {}, [];
    var keys := c.prefixMap.Keys;
    ghost var done: set<string> := {};
    while keys != {}
      invariant done + keys == c.prefixMap.Keys && done !! keys
      invariant seen == set k | k in done * MappedKeys(c) :: c.prefixMap[k]
      invariant forall x :: x in names <==> x in seen
      invariant Distinct(names)
    {
      var k :| k in keys;
      keys, done := keys - {k}, done + {k};
      if k != "default" && c.prefixMap[k] != "" {
        assert k in done * MappedKeys(c);
        if c.prefixMap[k] !in seen {
          seen := seen + {c.prefixMap[k]};
          names := names + [c.prefixMap[k]];
        }
      } else {
        assert done * MappedKeys(c) == (done - {k}) * MappedKeys(c);
      }
    }
    assert done * MappedKeys(c) == MappedKeys(c);
    if c.includeDefault && DefaultPrefix(c) != "" && DefaultPrefix(c) !in seen {
      names := names + [DefaultPrefix(c)];
    }
    r := SortPrefixes(names);
    SortedIsUnique(r, Ordered(PrefixNames(c)));
  }

  /** The configured prefix that is stripped from a model. */
  function ChosenPrefix(model: string, prefixes: seq<string>): Option<string> {
    var i := FirstIndex(prefixes, p => HasPrefix(TrimSpace(model), p));
    if i.None? then None else Some(prefixes[i.value])
  }

  function StripModelPrefix(model: string, prefixes: seq<string>): Option<string> {
    var p := ChosenPrefix(model, prefixes);
    if p.None? then None else Some(TrimPrefix(TrimSpace(model), p.value))
  }

  /** The first match is the longest: q is stripped exactly when it is configured, the
      model carries it, and every other prefix the model carries is shorter. */
  lemma ChosenIsLongest(model: string, prefixes: seq<string>, q: string)
    requires Sorted(prefixes)
    ensures ChosenPrefix(model, prefixes) == Some(q) <==>
            && q in prefixes && HasPrefix(TrimSpace(model), q)
            && forall p | p in prefixes && HasPrefix(TrimSpace(model), p) && p != q :: |p| < |q|
  {
    var m := TrimSpace(model);
    hide TrimSpace;
    var i := FirstIndex(prefixes, p => HasPrefix(m, p));
    assert ChosenPrefix(model, prefixes) == if i.None? then None else Some(prefixes[i.value]);
    if i.Some? {
      var first := prefixes[i.value];
      forall p | p in prefixes && HasPrefix(m, p) && p != first
        ensures |p| < |first|
      {
        var j :| 0 <= j < |prefixes| && prefixes[j] == p;
        assert Before(first, p);
        assert p == m[..|p|] && first == m[..|first|];
      }
    } else {
      assert forall p | p in prefixes :: !HasPrefix(m, p);
    }
  }

  lemma SomePrefixIsChosen(model: string, prefixes: seq<string>)
    ensures ChosenPrefix(model, prefixes).Some? <==> exists p | p in prefixes :: HasPrefix(TrimSpace(model), p)
    ensures ChosenPrefix(model, prefixes).Some? ==> ChosenPrefix(model, prefixes).value in prefixes
  {
    hide TrimSpace;
    var m := TrimSpace(model);
    var i := FirstIndex(prefixes, p => HasPrefix(m, p));
    assert ChosenPrefix(model, prefixes) == if i.None? then None else Some(prefixes[i.value]);
    hide ChosenPrefix;
    assert i.None? ==> forall p | p in prefixes :: !HasPrefix(m, p);
  }

  lemma StrippedIsTheRest(model: string, prefixes: seq<string>, base: string)
    requires TrimSpace(model) == model
    ensures StripModelPrefix(model, prefixes) == Some(base) <==>
            ChosenPrefix(model, prefixes).Some? && model == ChosenPrefix(model, prefixes).value + base
  {
    hide TrimSpace;
  }

  // ---------------------------------------------------------------- requests

  datatype Refusal = EmptyModel | NoConfig | UnmappedKey | NoCredential | LookupFailed

  datatype Decision =
    | Routed(requested: string, final: string, usedDefault: bool, hadSpecific: bool)
    | Refused(why: Refusal)

  predicate KeysAllowed(c: Config, allowed: set<string>) {
    forall k | k in c.prefixMap && k != "default" :: k in allowed
  }

  /** What is settled before any prefix is applied. allowed are the client keys of the
      configuration file, credential the one the request carries, or "". */
  function Precheck(c: Config, requested: string, allowed: Option<set<string>>, credential: string): Option<Refusal> {
    if TrimSpace(requested) == "" then Some(EmptyModel)
    else if allowed.None? then Some(NoConfig)
    else if c.strict && !KeysAllowed(c, allowed.value) then Some(UnmappedKey)
    else if credential == "" then Some(NoCredential)
    else None
  }

  /** Whether the catalogue has to be asked. */
  predicate AsksCatalog(c: Config, requested: string, credential: string) {
    && credential in c.prefixMap
    && ApplyPrefix(c.prefixMap[credential], TrimSpace(requested)) != ApplyPrefix(DefaultPrefix(c), TrimSpace(requested))
  }

  /** catalog is the snapshot the catalogue serves, if it is asked. */
  function Resolve(c: Config, requested: string, allowed: Option<set<string>>, credential: string,
                   catalog: Option<set<string>>): Decision
  {
    var refusal := Precheck(c, requested, allowed, credential);
    var model := TrimSpace(requested);
    var fallback := ApplyPrefix(DefaultPrefix(c), model);
    if refusal.Some? then Refused(refusal.value)
    else if credential !in c.prefixMap then Routed(model, fallback, true, false)
    else
      var primary := ApplyPrefix(c.prefixMap[credential], model);
      if primary == fallback then Routed(model, primary, false, true)
      else
        var listed := Listed(catalog, primary);
        if listed.None? then Refused(LookupFailed)
        else if listed.value then Routed(model, primary, false, true)
        else Routed(model, fallback, true, true)
  }

  predicate RoutesTo(d: Decision, model: string) {
    d.Routed? && d.final == model && !d.usedDefault
  }

  /** A model q + b is reached by asking for b, with the key's own prefix, exactly when
      that prefix normalises to q, b is trimmed and does not itself start with q, and
      either the default prefix is q too or the catalogue lists the model. */
  lemma AliasResolves(c: Config, q: string, b: string, allowed: Option<set<string>>, key: string,
                      catalog: Option<set<string>>)
    requires q != "" && b != "" && !IsSpace(b[|b| - 1])
    requires key in c.prefixMap && Precheck(c, b, allowed, key).None?
    ensures RoutesTo(Resolve(c, b, allowed, key, catalog), q + b) <==>
            && NormalizePrefix(c.prefixMap[key]) == q
            && Trimmed(b, IsSpace)
            && !HasPrefix(b, q)
            && (NormalizePrefix(DefaultPrefix(c)) == q || Listed(catalog, q + b) == Some(true))
  {
    hide ApplyPrefix, NormalizePrefix, TrimSpace, Listed, KeysAllowed;
    var t := TrimSpace(b);
    TrimKeepsEnd(b);
    TrimmedOnce(b);
    AppliedTrims(c.prefixMap[key], b);
    AppliedTrims(DefaultPrefix(c), b);
    AppliedIs(c.prefixMap[key], q, b);
    AppliedIs(DefaultPrefix(c), q, b);
  }

  lemma TrimmedOnce(b: string)
    ensures TrimSpace(TrimSpace(b)) == TrimSpace(b)
  {
    TrimFixpoint(TrimSpace(b), IsSpace);
  }

  lemma AppliedTrims(prefix: string, b: string)
    ensures ApplyPrefix(prefix, TrimSpace(b)) == ApplyPrefix(prefix, b)
  {
    hide TrimSpace, NormalizePrefix;
    TrimmedOnce(b);
  }

  /** Some most recent refresh, within the TTL or made by the last call, listed the model. */
  ghost predicate ListedByLastRefresh(ttl: int, calls: seq<Call>, model: string)
    requires calls != []
  {
    exists j: nat :: ServedFrom(ttl, calls, j) && LookupName(model) in Listing(calls[j].reply.value)
  }

  /** The prefix of a key, as normalised names are put before models: blank for a key that
      is not mapped. */
  function PrefixOf(c: Config, key: string): string {
    if key in c.prefixMap then c.prefixMap[key] else ""
  }

  /** When a request is refused before any prefix comes into play: it names no model, the
      configuration file cannot be read, a mapped key is not a client key although that is
      asked for, or the request carries no client key. */
  lemma PrecheckExactly(c: Config, requested: string, allowed: Option<set<string>>, credential: string)
    ensures Precheck(c, requested, allowed, credential).None? <==>
            && TrimSpace(requested) != "" && allowed.Some? && credential != ""
            && (c.strict ==> forall k | k in c.prefixMap && k != "default" :: k in allowed.value)
    ensures TrimSpace(requested) == "" <==> Precheck(c, requested, allowed, credential) == Some(EmptyModel)
    ensures TrimSpace(requested) != "" ==> (allowed.None? <==> Precheck(c, requested, allowed, credential) == Some(NoConfig))
    ensures TrimSpace(requested) != "" && allowed.Some? ==>
              ((c.strict && exists k :: k in c.prefixMap && k != "default" && k !in allowed.value) <==>
               Precheck(c, requested, allowed, credential) == Some(UnmappedKey))
  {
    hide TrimSpace;
  }

  /** Where every request goes, over any history of catalogue calls. An accepted request gets
      the default prefix exactly when its key is not mapped, or when the two prefixes make
      different models of it and the last refresh does not list the key's own; else it gets
      the key's own. It is refused only as the check before says, or because the catalogue
      has to be asked and cannot answer. */
  lemma RoutesExactly(c: Config, requested: string, allowed: Option<set<string>>, key: string, ttl: int, calls: seq<Call>)
    requires calls != []
    ensures var d := Resolve(c, requested, allowed, key, Answer(ttl, calls));
            var own, fallback := ApplyPrefix(PrefixOf(c, key), requested), ApplyPrefix(PrefixOf(c, "default"), requested);
            if Precheck(c, requested, allowed, key).Some? then d == Refused(Precheck(c, requested, allowed, key).value)
            else if key in c.prefixMap && own != fallback && Answer(ttl, calls).None? then d == Refused(LookupFailed)
            else
              && d.Routed? && d.requested == TrimSpace(requested)
              && (d.hadSpecific <==> key in c.prefixMap)
              && (d.usedDefault <==> key !in c.prefixMap || (own != fallback && !ListedByLastRefresh(ttl, calls, own)))
              && d.final == if d.usedDefault then fallback else own
  {
    hide ApplyPrefix, TrimSpace, LookupName, Precheck, Listing, Answer, ServedFrom, ListedByLastRefresh;
    AppliedTrims(PrefixOf(c, key), requested);
    AppliedTrims(PrefixOf(c, "default"), requested);
    if Answer(ttl, calls).Some? {
      ListedExactly(ttl, calls, ApplyPrefix(PrefixOf(c, key), requested));
    }
  }

  lemma ListedExactly(ttl: int, calls: seq<Call>, model: string)
    requires calls != [] && Answer(ttl, calls).Some?
    ensures Listed(Answer(ttl, calls), model) == Some(ListedByLastRefresh(ttl, calls, model))
  {
    hide Answer, LookupName, Listing;
    AnswerIsTheLastRefresh(ttl, calls);
    var j: nat :| ServedFrom(ttl, calls, j);
    assert Answer(ttl, calls) == Some(Listing(calls[j].reply.value));
  }

  /** What a prefix makes of a model: nothing when it is blank once normalised or already
      there, else it goes in front. */
  lemma AppliesExactly(prefix: string, model: string)
    ensures var p, m := NormalizePrefix(prefix), TrimSpace(model);
            && (ApplyPrefix(prefix, model) == m <==> p == "" || p <= m)
            && (ApplyPrefix(prefix, model) != m ==> ApplyPrefix(prefix, model) == p + m)
  {
    hide NormalizePrefix, TrimSpace;
    var p, m := NormalizePrefix(prefix), TrimSpace(model);
    assert |p + m| == |p| + |m|;
  }

  /** For any history of snapshot calls, whatever their keys: asking for b reaches q + b
      exactly when the key's own prefix is q, b is trimmed and does not itself start with
      q, and either the default prefix is q too or the last refresh listed the model. */
  lemma AliasResolvesByLastRefresh(c: Config, q: string, b: string, allowed: Option<set<string>>, key: string,
                                   ttl: int, calls: seq<Call>)
    requires q != "" && b != "" && !IsSpace(b[|b| - 1])
    requires key in c.prefixMap && Precheck(c, b, allowed, key).None? && calls != []
    ensures RoutesTo(Resolve(c, b, allowed, key, Answer(ttl, calls)), q + b) <==>
            && NormalizePrefix(c.prefixMap[key]) == q
            && Trimmed(b, IsSpace)
            && !HasPrefix(b, q)
            && (NormalizePrefix(DefaultPrefix(c)) == q || ListedByLastRefresh(ttl, calls, q + b))
  {
    hide ApplyPrefix, NormalizePrefix, Trimmed, LookupName, Resolve, Precheck, IsSpace, Listing, HasPrefix;
    AliasResolves(c, q, b, allowed, key, Answer(ttl, calls));
    hide Answer;
    if Answer(ttl, calls).Some? {
      AnswerIsTheLastRefresh(ttl, calls);
      var j: nat :| ServedFrom(ttl, calls, j);
      assert Answer(ttl, calls) == Some(Listing(calls[j].reply.value));
    }
  }
}
