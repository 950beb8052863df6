/** Registration and hiding together: which models a client still sees. */
module ModelHiding {
  import opened Text
  import opened PrefixOrder
  import opened Prefixes
  import opened ModelCatalog
  import opened ModelAliases
  import opened ModelListing
  import opened ModelRegistration

  ghost predicate Hidden(c: Config, id: string) {
    Carries(id, Ordered(PrefixNames(c)))
  }

  /** The name that is compared with the configured prefixes. */
  function Unqualified(id: string): string {
    TrimPrefix(TrimSpace(id), "models/")
  }

  lemma HiddenExactly(c: Config, id: string)
    ensures Hidden(c, id) <==> exists p | p in PrefixNames(c) :: HasPrefix(Unqualified(id), p)
  {
    var prefixes := Ordered(PrefixNames(c));
    assert forall p | p in prefixes :: p != "";
    hide TrimSpace, PrefixNames;
  }

  /** A name that does not start with "models/" is hidden exactly when it has a prefix to
      strip. */
  lemma HiddenIsStrippable(c: Config, id: string)
    requires !HasPrefix(TrimSpace(id), "models/")
    ensures Hidden(c, id) <==> ChosenPrefix(id, Ordered(PrefixNames(c))).Some?
  {
    hide TrimSpace, PrefixNames, ChosenPrefix, Hidden;
    HiddenExactly(c, id);
    SomePrefixIsChosen(id, Ordered(PrefixNames(c)));
    assert Unqualified(id) == TrimSpace(id);
  }

  /** Hidden is what the filter goes by: an entry that is named by its id is shown exactly
      when it is listed and its id is not hidden. */
  lemma ShownUnlessHidden(c: Config, entries: seq<Entry>, id: string, rest: nat)
    ensures Model(Some(id), Some(id), rest) in Shown(entries, Ordered(PrefixNames(c))) <==>
            Model(Some(id), Some(id), rest) in entries && !Hidden(c, id)
  {
    hide Carries, PrefixNames;
  }

  /** Registration and hiding cohere: the alias of a listed model is published, the model is
      hidden unless it starts with "models/" and what follows has no configured prefix, and
      the alias is hidden exactly when it could be stripped once more, or starts with
      "models/" and what follows has a configured prefix. */
  lemma AliasReplacesItsSource(c: Config, upstream: Upstream, key: string, q: string, b: string)
    requires Lists(c, upstream, key, q, b) && b != ""
    ensures b in Aliases(c, upstream, RegisteredKeys(c))
    ensures Hidden(c, q + b) <==>
            (HasPrefix(q + b, "models/") ==> exists p | p in PrefixNames(c) :: HasPrefix(Unqualified(q + b), p))
    ensures Hidden(c, b) <==>
            if HasPrefix(TrimSpace(b), "models/") then exists p | p in PrefixNames(c) :: HasPrefix(Unqualified(b), p)
            else StripModelPrefix(b, Ordered(PrefixNames(c))).Some?
  {
    ListedIsTrimmed(upstream(key).value, q + b);
    hide TrimSpace, ChosenPrefix, Hidden, PrefixNames, Listing;
    HiddenExactly(c, q + b);
    HiddenExactly(c, b);
    if !HasPrefix(q + b, "models/") {
      HiddenIsStrippable(c, q + b);
    }
    if !HasPrefix(TrimSpace(b), "models/") {
      HiddenIsStrippable(c, b);
    }
    AliasIsPublished(c, upstream, key, q, b);
  }

  lemma NoBlankAlias(c: Config, upstream: Upstream, keys: set<string>)
    ensures "" !in Aliases(c, upstream, keys)
  {
    hide StripModelPrefix;
  }

  /** A model that consists of a prefix alone is hidden without an alias. */
  lemma BarePrefixIsLost(c: Config, upstream: Upstream, key: string, q: string)
    requires Lists(c, upstream, key, q, "") && !HasPrefix(q, "models/")
    ensures Hidden(c, q)
    ensures StripModelPrefix(q, Ordered(PrefixNames(c))) == Some("")
    ensures "" !in Aliases(c, upstream, RegisteredKeys(c))
  {
    assert q + "" == q;
    ListedIsTrimmed(upstream(key).value, q);
    NoBlankAlias(c, upstream, RegisteredKeys(c));
    hide *;
    StrippedIsTheRest(q, Ordered(PrefixNames(c)), "");
    HiddenIsStrippable(c, q);
  }

  /** Two layers: when the only model carries p and what follows carries q, both
      configured, its one alias is hidden as well, and nothing is left. */
  lemma LayeredAliasIsHidden(c: Config, upstream: Upstream, p: string, q: string, m: string, b: string)
    requires c.registers && q in PrefixNames(c)
    requires m == p + b && HasPrefix(b, q) && TrimSpace(m) == m && TrimSpace(b) == b
    requires MappedKeys(c) != {} && forall key | key in MappedKeys(c) :: upstream(key) == Some([m])
    requires ChosenPrefix(m, Ordered(PrefixNames(c))) == Some(p)
    requires !HasPrefix(m, "models/") && !HasPrefix(b, "models/")
    ensures Aliases(c, upstream, RegisteredKeys(c)) == {b}
    ensures Hidden(c, m) && Hidden(c, b)
  {
    var prefixes := Ordered(PrefixNames(c));
    assert q in prefixes && q != "";
    hide PrefixNames, TrimSpace, MappedKeys, ChosenPrefix;
    HiddenIsStrippable(c, m);
    HiddenIsStrippable(c, b);
    SomePrefixIsChosen(b, prefixes);
    hide Hidden;
    StrippedIsTheRest(m, prefixes, b);
    hide HasPrefix;
    OnlyModel(m);
    OnlyAlias(m, prefixes, b);
    AliasesOfOneModel(c, upstream, m, b);
  }

  lemma AliasesOfOneModel(c: Config, upstream: Upstream, m: string, b: string)
    requires c.registers && MappedKeys(c) != {} && forall key | key in MappedKeys(c) :: upstream(key) == Some([m])
    requires Listing([m]) == {m} && AliasesIn({m}, Ordered(PrefixNames(c))) == {b}
    ensures Aliases(c, upstream, RegisteredKeys(c)) == {b}
  {
    hide Listing, AliasesIn, PrefixNames, MappedKeys;
    var key :| key in MappedKeys(c);
    assert b in AliasesOf(c, upstream, key);
  }

  lemma OnlyAlias(m: string, prefixes: seq<string>, b: string)
    requires StripModelPrefix(m, prefixes) == Some(b) && b != ""
    ensures AliasesIn({m}, prefixes) == {b}
  {
    hide StripModelPrefix;
  }

  lemma OnlyModel(m: string)
    requires m != "" && TrimSpace(m) == m
    ensures Listing([m]) == {m}
  {
    hide TrimSpace;
    assert [m][0] == m;
  }

  /** An instance: "a/b/x" with "a/" and "b/" configured. */
  lemma LayeredExample(c: Config, upstream: Upstream)
    requires c.registers && !c.includeDefault && c.prefixMap == map["k" := "a/", "l" := "b/"]
    requires forall key :: upstream(key) == Some(["a/b/x"])
    ensures Aliases(c, upstream, RegisteredKeys(c)) == {"b/x"}
    ensures Hidden(c, "a/b/x") && Hidden(c, "b/x")
  {
    hide *;
    TwoPrefixes(c);
    LayeredNames();
    OtherPrefixDiffers(Ordered(PrefixNames(c)), "a/", "b/", "a/b/x");
    LayeredAliasIsHidden(c, upstream, "a/", "b/", "a/b/x", "b/x");
  }

  lemma LayeredNames()
    ensures TrimSpace("a/b/x") == "a/b/x" == "a/" + "b/x" && TrimSpace("b/x") == "b/x"
    ensures HasPrefix("a/b/x", "a/") && HasPrefix("b/x", "b/")
    ensures !HasPrefix("a/b/x", "models/") && !HasPrefix("b/x", "models/")
  {
    hide TrimSpace;
    Unpadded("a/b/x");
    Unpadded("b/x");
  }

  lemma TwoPrefixes(c: Config)
    requires c.prefixMap == map["k" := "a/", "l" := "b/"] && !c.includeDefault
    ensures MappedKeys(c) != {} && PrefixNames(c) == {"a/", "b/"}
  {
    assert "k" in MappedKeys(c) && "l" in MappedKeys(c);
  }

  lemma Unpadded(s: string)
    requires s != "" && 'a' <= s[0] <= 'z' && 'a' <= s[|s| - 1] <= 'z'
    ensures TrimSpace(s) == s
  {
    assert !IsSpace(s[0]) && !IsSpace(s[|s| - 1]);
    assert Trimmed(s, IsSpace);
    hide IsSpace, Trim, Trimmed;
    TrimFixpoint(s, IsSpace);
  }

  /** Of two prefixes that start differently a model carries at most one. */
  lemma OtherPrefixDiffers(prefixes: seq<string>, p: string, q: string, m: string)
    requires Sorted(prefixes) && forall x :: x in prefixes <==> x == p || x == q
    requires p != "" && q != "" && p[0] != q[0]
    requires HasPrefix(m, p) && TrimSpace(m) == m
    ensures ChosenPrefix(m, prefixes) == Some(p)
  {
    ChosenIsLongest(m, prefixes, p);
    hide TrimSpace, ChosenPrefix, Sorted;
  }

  /** One layer, from registration to request: "a/x" with "a/" configured is hidden, its
      alias "x" is published and seen, and asking for "x" reaches it. */
  lemma OneLayerExample(c: Config, upstream: Upstream, ttl: int, call: Call)
    requires c.registers && !c.strict && !c.includeDefault && c.prefixMap == map["k" := "a/"]
    requires upstream("k") == Some(["a/x"]) && call.reply == Some(["a/x"])
    ensures "x" in Aliases(c, upstream, RegisteredKeys(c)) && Hidden(c, "a/x") && !Hidden(c, "x")
    ensures RoutesTo(Resolve(c, "x", Some({"k"}), "k", Answer(ttl, [call])), "a/x")
  {
    hide *;
    OnePrefix(c);
    OneLayerNames();
    OnlyPrefixIsChosen(Ordered(PrefixNames(c)), "a/", "a/x");
    NothingIsChosen(Ordered(PrefixNames(c)), "a/", "x");
    OnlyModel("a/x");
    FirstAnswer(ttl, call);
    OneLayerIsListed(c, upstream);
    AliasIsPublished(c, upstream, "k", "a/", "x");
    HiddenIsStrippable(c, "a/x");
    HiddenIsStrippable(c, "x");
    RequestIsFit(c);
    AliasRoundTrip(c, upstream, "k", "a/", "x", ttl, [call], Some({"k"}));
  }

  lemma OnePrefix(c: Config)
    requires c.prefixMap == map["k" := "a/"] && !c.includeDefault && c.registers
    ensures "k" in RegisteredKeys(c) && PrefixNames(c) == {"a/"}
  {
    assert "k" in MappedKeys(c);
  }

  lemma OneLayerNames()
    ensures TrimSpace("a/x") == "a/x" == "a/" + "x" && TrimSpace("x") == "x" && Trimmed("x", IsSpace)
    ensures HasPrefix("a/x", "a/") && !HasPrefix("x", "a/")
    ensures !HasPrefix("a/x", "models/") && !HasPrefix("x", "models/") && !Grouped("a/x")
    ensures NormalizePrefix("a/") == "a/"
  {
    hide TrimSpace, NormalizePrefix;
    Unpadded("a/x");
    Unpadded("x");
    assert Trimmed("a", IsSlash) && Trimmed("x", IsSpace);
    UnspacedPrefixIsStable("a", "a/");
  }

  lemma OnlyPrefixIsChosen(prefixes: seq<string>, p: string, m: string)
    requires Sorted(prefixes) && forall x :: x in prefixes <==> x == p
    requires HasPrefix(m, p) && TrimSpace(m) == m
    ensures ChosenPrefix(m, prefixes) == Some(p)
  {
    ChosenIsLongest(m, prefixes, p);
    hide TrimSpace, ChosenPrefix, Sorted;
  }

  lemma NothingIsChosen(prefixes: seq<string>, p: string, m: string)
    requires forall x :: x in prefixes <==> x == p
    requires !HasPrefix(m, p) && TrimSpace(m) == m
    ensures ChosenPrefix(m, prefixes).None?
  {
    SomePrefixIsChosen(m, prefixes);
    hide TrimSpace, ChosenPrefix;
  }

  lemma FirstAnswer(ttl: int, call: Call)
    requires call.reply.Some?
    ensures Answer(ttl, [call]) == Some(Listing(call.reply.value))
  {
    assert [call][..0] == [] && After(ttl, []) == Cached({}, 0);
  }

  lemma OneLayerIsListed(c: Config, upstream: Upstream)
    requires "k" in RegisteredKeys(c) && upstream("k") == Some(["a/x"]) && Listing(["a/x"]) == {"a/x"}
    requires "a/" + "x" == "a/x" && ChosenPrefix("a/x", Ordered(PrefixNames(c))) == Some("a/")
    ensures Lists(c, upstream, "k", "a/", "x")
  {
    hide Listing, ChosenPrefix, PrefixNames, RegisteredKeys;
  }

  lemma RequestIsFit(c: Config)
    requires !c.strict && TrimSpace("x") == "x"
    ensures Precheck(c, "x", Some({"k"}), "k").None?
  {
    hide TrimSpace;
  }
}
