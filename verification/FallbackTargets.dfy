/** Quota fallback configuration and the target list it yields for a model. */
module FallbackTargets {
  import opened Text
  import opened Prefixes

  type PrefixTable = map<string, seq<string>>

  datatype FallbackConfig = FallbackConfig(enabled: bool, fallbackOnOtherErrors: bool, prefixes: PrefixTable)

  // ------------------------------------------------------------- configuration

  function NormalizeAll(rawNames: seq<string>): (names: seq<string>)
    ensures |names| == |rawNames| && forall i | 0 <= i < |names| :: names[i] == NormalizePrefixName(rawNames[i])
  {
    seq(|rawNames|, i requires 0 <= i < |rawNames| => NormalizePrefixName(rawNames[i]))
  }

  /** A target list without the source itself and without repeats, in order. */
  function Clean(source: string, names: seq<string>): (r: seq<string>)
    ensures Distinct(r)
    ensures forall t :: t in r <==> t != source && t in names
  {
    if names == [] then [] else
    var n := |names| - 1;
    var earlier := Clean(source, names[..n]);
    if names[n] == source || names[n] in earlier then earlier else earlier + [names[n]]
  }

  function CleanTargets(source: string, rawTargets: seq<string>): seq<string> {
    Clean(source, NormalizeAll(rawTargets))
  }

  function Append(table: PrefixTable, source: string, targets: seq<string>): PrefixTable {
    if targets == [] then table
    else table[source := (if source in table then table[source] else []) + targets]
  }

  /** What one raw key of the input adds. */
  datatype Chunk = Chunk(source: string, targets: seq<string>)

  function Gather(chunks: seq<Chunk>): PrefixTable {
    if chunks == [] then map[] else
    var last := chunks[|chunks| - 1];
    Append(Gather(chunks[..|chunks| - 1]), last.source, last.targets)
  }

  function ChunkOf(input: PrefixTable, raw: string): Chunk
    requires raw in input
  {
    Chunk(NormalizePrefixName(raw), CleanTargets(NormalizePrefixName(raw), input[raw]))
  }

  function Chunks(input: PrefixTable, order: seq<string>): (chunks: seq<Chunk>)
    requires forall k | k in order :: k in input
    ensures |chunks| == |order| && forall i | 0 <= i < |order| :: chunks[i] == ChunkOf(input, order[i])
  {
    seq(|order|, i requires 0 <= i < |order| => ChunkOf(input, order[i]))
  }

  /** The table after reading these raw keys of the input, in this order. */
  function Collect(input: PrefixTable, order: seq<string>): PrefixTable
    requires forall k | k in order :: k in input
  {
    Gather(Chunks(input, order))
  }

  /** Map iteration picks the order of the raw keys; an empty source or target
      anywhere rejects the whole configuration. */
  method NormalizeQuotaFallback(input: FallbackConfig) returns (out: Option<FallbackConfig>, ghost order: seq<string>)
    ensures out.None? <==>
              exists k :: k in input.prefixes &&
                (NormalizePrefixName(k) == "" ||
                 exists i :: 0 <= i < |input.prefixes[k]| && NormalizePrefixName(input.prefixes[k][i]) == "")
    ensures out.Some? ==> Distinct(order) && forall k :: k in order <==> k in input.prefixes
    ensures out.Some? ==> out.value == FallbackConfig(input.enabled, input.fallbackOnOtherErrors, Collect(input.prefixes, order))
  {
    hide NormalizePrefixName, CleanTargets;
    var prefixes: PrefixTable := map[];
    var remaining := input.prefixes.Keys;
    order := [];
    while remaining != {}
      invariant remaining <= input.prefixes.Keys
      invariant Distinct(order) && forall k :: k in order <==> k in input.prefixes.Keys - remaining
      invariant prefixes == Collect(input.prefixes, order)
      invariant forall k | k in order :: NormalizePrefixName(k) != ""
                                      && forall i | 0 <= i < |input.prefixes[k]| :: NormalizePrefixName(input.prefixes[k][i]) != ""
      decreases remaining
    {
      var rawSource :| rawSource in remaining;
      var source := NormalizePrefixName(rawSource);
      if source == "" {
        return None, order;
      }
      var targets, ok := ReadTargets(source, input.prefixes[rawSource]);
      if !ok {
        return None, order;
      }
      prefixes := Append(prefixes, source, targets);
      assert Chunks(input.prefixes, order + [rawSource])[..|order|] == Chunks(input.prefixes, order);
      order := order + [rawSource];
      remaining := remaining - {rawSource};
    }
    out := Some(FallbackConfig(input.enabled, input.fallbackOnOtherErrors, prefixes));
  }

  method ReadTargets(source: string, rawTargets: seq<string>) returns (targets: seq<string>, ok: bool)
    ensures ok <==> forall i | 0 <= i < |rawTargets| :: NormalizePrefixName(rawTargets[i]) != ""
    ensures ok ==> targets == CleanTargets(source, rawTargets)
  {
    hide NormalizePrefixName;
    targets, ok := [], true;
    ghost var names := NormalizeAll(rawTargets);
    var seen: set<string> := {};
    for i := 0 to |rawTargets|
      invariant targets == Clean(source, names[..i])
      invariant forall t :: t in seen <==> t in targets
      invariant forall j | 0 <= j < i :: NormalizePrefixName(rawTargets[j]) != ""
    {
      assert names[..i + 1][..i] == names[..i];
      var target := NormalizePrefixName(rawTargets[i]);
      if target == "" {
        return targets, false;
      }
      if target == source || target in seen {
        continue;
      }
      seen := seen + {target};
      targets := targets + [target];
    }
    assert names[..|names|] == names;
  }

  predicate FirstOf(names: seq<string>, at: nat) {
    at < |names| && names[at] !in names[..at]
  }

  predicate CleanedFrom(source: string, names: seq<string>, r: seq<string>, i: int, at: nat) {
    0 <= i < |r| && FirstOf(names, at) && names[at] == r[i] && r[i] != source
  }

  /** The configured order is kept: each target stands where its first occurrence puts it. */
  lemma {:induction false} CleaningKeepsOrder(source: string, names: seq<string>, i: nat, j: nat, p: nat, q: nat)
    requires CleanedFrom(source, names, Clean(source, names), i, p)
    requires CleanedFrom(source, names, Clean(source, names), j, q)
    ensures i < j <==> p < q
  {
    var n := |names| - 1;
    var r, earlier := Clean(source, names), Clean(source, names[..n]);
    assert names == names[..n] + [names[n]];
    assert forall at: nat | at < n :: names[..n][at] == names[at] && names[..n][..at] == names[..at];
    assert forall x | x in earlier :: x in names[..n];
    if i < |earlier| && j < |earlier| {
      assert r[i] == earlier[i] && r[j] == earlier[j];
      assert r[i] in names[..n] && r[j] in names[..n];
      assert p < n && q < n;
      CleaningKeepsOrder(source, names[..n], i, j, p, q);
    } else if i < |earlier| {
      assert r[i] == earlier[i] && r[i] in names[..n];
      assert p < n && q == n;
    } else if j < |earlier| {
      assert r[j] == earlier[j] && r[j] in names[..n];
      assert q < n && p == n;
    }
  }

  lemma AppendsToOwn(table: PrefixTable, chunk: Chunk, source: string)
    ensures ListOf(Append(table, chunk.source, chunk.targets), source)
         == ListOf(table, source) + if chunk.source == source then chunk.targets else []
  {
  }

  lemma LastIsAppended(chunks: seq<Chunk>, source: string)
    ensures ListOf(Gather([]), source) == []
    ensures chunks != [] ==>
              var n := |chunks| - 1;
              ListOf(Gather(chunks), source)
              == ListOf(Gather(chunks[..n]), source) + if chunks[n].source == source then chunks[n].targets else []
  {
    if chunks != [] {
      var n := |chunks| - 1;
      AppendsToOwn(Gather(chunks[..n]), chunks[n], source);
      hide Append, ListOf;
    }
  }

  /** Raw keys that mean one source contribute to its list in the order in which they are
      read, one behind the other. */
  lemma {:induction false} GatheredInOrder(a: seq<Chunk>, b: seq<Chunk>, chunk: Chunk, source: string)
    ensures ListOf(Gather(a + b), source) == ListOf(Gather(a), source) + ListOf(Gather(b), source)
    ensures ListOf(Gather([chunk]), source) == if chunk.source == source then chunk.targets else []
  {
    hide *;
    LastIsAppended([chunk], source);
    assert [chunk][..0] == [];
    LastIsAppended(b, source);
    if b == [] {
      assert a + b == a;
    } else {
      var n := |b| - 1;
      GatheredInOrder(a, b[..n], chunk, source);
      LastIsAppended(a + b, source);
      assert (a + b)[..|a + b| - 1] == a + b[..n] && (a + b)[|a + b| - 1] == b[n];
    }
  }

  predicate SourcesDistinct(chunks: seq<Chunk>) {
    forall i, j | 0 <= i < j < |chunks| :: chunks[i].source != chunks[j].source
  }

  /** When different raw keys mean different sources, every source has exactly its
      own cleaned list, free of repeats, whatever order the keys were read in. */
  lemma {:induction false} DistinctSourcesKeepTheirLists(chunks: seq<Chunk>, i: nat)
    requires SourcesDistinct(chunks) && i < |chunks|
    ensures chunks[i].source in Gather(chunks) <==> chunks[i].targets != []
    ensures chunks[i].targets != [] ==> Gather(chunks)[chunks[i].source] == chunks[i].targets
  {
    var n := |chunks| - 1;
    if i < n {
      DistinctSourcesKeepTheirLists(chunks[..n], i);
    } else {
      OnlyItsOwnSources(chunks[..n], chunks[n].source);
      assert [] + chunks[n].targets == chunks[n].targets;
    }
  }

  lemma {:induction false} OnlyItsOwnSources(chunks: seq<Chunk>, source: string)
    requires forall i | 0 <= i < |chunks| :: chunks[i].source != source
    ensures source !in Gather(chunks)
  {
    if chunks != [] {
      OnlyItsOwnSources(chunks[..|chunks| - 1], source);
    }
  }

  /** Chunk i belongs to this source and contributes this target to it. */
  predicate Gives(chunks: seq<Chunk>, source: string, i: nat, t: string) {
    i < |chunks| && chunks[i].source == source && t in chunks[i].targets
  }

  ghost predicate GivenTwice(chunks: seq<Chunk>, source: string, t: string) {
    exists i: nat, j: nat :: i < j && Gives(chunks, source, i, t) && Gives(chunks, source, j, t)
  }

  function ListOf(table: PrefixTable, source: string): seq<string> {
    if source in table then table[source] else []
  }

  /** A source's list has a target exactly when some chunk gives it, and more than once
      exactly when two do. */
  lemma {:induction false} GatheredTargets(chunks: seq<Chunk>, source: string, t: string)
    requires forall i | 0 <= i < |chunks| :: Distinct(chunks[i].targets)
    ensures t in ListOf(Gather(chunks), source) <==> exists i: nat :: Gives(chunks, source, i, t)
    ensures multiset(ListOf(Gather(chunks), source))[t] > 1 <==> GivenTwice(chunks, source, t)
  {
    if chunks != [] {
      var n := |chunks| - 1;
      var prior, last := chunks[..n], chunks[n];
      GatheredTargets(prior, source, t);
      var earlier := ListOf(Gather(prior), source);
      assert ListOf(Gather(chunks), source) == if last.source == source then earlier + last.targets else earlier;
      DistinctMeansOnce(last.targets);
      hide Gather, Distinct, ListOf;
      assert t in earlier <==> multiset(earlier)[t] > 0;
      assert t in last.targets <==> multiset(last.targets)[t] > 0;
      OneMoreGives(chunks, source, t);
      hide Gives, GivenTwice;
    }
  }

  lemma OneMoreGives(chunks: seq<Chunk>, source: string, t: string)
    requires chunks != []
    ensures var prior, last := chunks[..|chunks| - 1], chunks[|chunks| - 1];
            var more := last.source == source && t in last.targets;
            && ((exists i: nat :: Gives(chunks, source, i, t)) <==> (exists i: nat :: Gives(prior, source, i, t)) || more)
            && (GivenTwice(chunks, source, t) <==>
                  GivenTwice(prior, source, t) || (more && exists i: nat :: Gives(prior, source, i, t)))
  {
    var n := |chunks| - 1;
    var prior, last := chunks[..n], chunks[n];
    forall i: nat
      ensures Gives(chunks, source, i, t) <==> Gives(prior, source, i, t) || (i == n && last.source == source && t in last.targets)
      ensures Gives(prior, source, i, t) ==> i < n
    {
    }
    if last.source == source && t in last.targets {
      assert Gives(chunks, source, n, t);
    }
    hide Gives;
  }

  lemma {:induction false} DistinctMeansOnce(names: seq<string>)
    ensures Distinct(names) <==> forall t :: multiset(names)[t] <= 1
  {
    if names != [] {
      var n := |names| - 1;
      var last := names[n];
      DistinctMeansOnce(names[..n]);
      assert names == names[..n] + [last];
      assert last in names[..n] <==> multiset(names[..n])[last] > 0;
      assert multiset(names)[last] == multiset(names[..n])[last] + 1;
      assert forall t | t != last :: multiset(names)[t] == multiset(names[..n])[t];
    }
  }

  /** In general a source's list is free of repeats exactly when no two raw keys that
      mean this source share a target. */
  lemma ListsRepeatExactlyOnOverlap(chunks: seq<Chunk>, source: string)
    requires forall i | 0 <= i < |chunks| :: Distinct(chunks[i].targets)
    ensures !Distinct(ListOf(Gather(chunks), source)) <==> exists t :: GivenTwice(chunks, source, t)
  {
    forall t
      ensures multiset(ListOf(Gather(chunks), source))[t] > 1 <==> GivenTwice(chunks, source, t)
    {
      GatheredTargets(chunks, source, t);
    }
    hide Gather, GivenTwice, Distinct;
    DistinctMeansOnce(ListOf(Gather(chunks), source));
  }

  /** Each raw key on its own contributes no repeats, so the lemmas above apply. */
  lemma CleanedListsAreDistinct(input: PrefixTable, raw: string)
    requires raw in input
    ensures Distinct(ChunkOf(input, raw).targets) && ChunkOf(input, raw).source !in ChunkOf(input, raw).targets
  {
    hide NormalizePrefixName;
  }

  // ------------------------------------------------------------------- targets

  /** A configured source that the model carries in front of a slash. */
  predicate Carried(prefixes: PrefixTable, model: string, k: string) {
    k != "" && k in prefixes && HasPrefix(TrimSpace(model), k + "/")
  }

  /** The source that applies to the model is the longest it carries, with the rest of the
      model as base; both are blank exactly when it carries none. */
  predicate IsSource(prefixes: PrefixTable, model: string, source: string, base: string) {
    if source == "" then
      base == "" && forall k | k in prefixes :: !Carried(prefixes, model, k)
    else
      && Carried(prefixes, model, source) && TrimSpace(model) == source + "/" + base
      && forall k | k in prefixes && Carried(prefixes, model, k) :: |k| <= |source|
  }

  /** Map order is free. */
  method QuotaFallbackSource(prefixes: PrefixTable, model: string) returns (source: string, base: string)
    ensures IsSource(prefixes, model, source, base)
  {
    hide TrimSpace;
    var trimmed := TrimSpace(model);
    source, base := "", "";
    var remaining := prefixes.Keys;
    while remaining != {}
      invariant remaining <= prefixes.Keys
      invariant source != "" ==> Carried(prefixes, model, source)
      invariant forall k | k in prefixes.Keys - remaining && Carried(prefixes, model, k) :: |k| <= |source|
      decreases remaining
    {
      var sourcePrefix :| sourcePrefix in remaining;
      if HasPrefix(trimmed, sourcePrefix + "/") && |sourcePrefix| > |source| {
        source := sourcePrefix;
      }
      remaining := remaining - {sourcePrefix};
    }
    if source != "" {
      base := TrimPrefix(trimmed, source + "/");
    }
  }

  /** There is one source for a model, so map order cannot matter. */
  lemma SourceIsUnique(prefixes: PrefixTable, model: string, source: string, base: string, source': string, base': string)
    requires IsSource(prefixes, model, source, base) && IsSource(prefixes, model, source', base')
    ensures source == source' && base == base'
  {
    hide TrimSpace;
    if source != "" && source' != "" {
      LongestSourceIsUnique(TrimSpace(model), source, source');
      assert base == TrimSpace(model)[|source| + 1..] && base' == TrimSpace(model)[|source'| + 1..];
    }
  }

  lemma LongestSourceIsUnique(model: string, a: string, b: string)
    requires HasPrefix(model, a + "/") && HasPrefix(model, b + "/") && |a| == |b|
    ensures a == b
  {
    assert a == (a + "/")[..|a|] && b == (b + "/")[..|b|];
    assert (a + "/")[..|a|] == model[..|a|] && (b + "/")[..|b|] == model[..|b|];
  }

  /** Substitutes each target prefix before the base, leaving out the primary. */
  function Substitutes(primary: string, targetPrefixes: seq<string>, base: string): seq<string> {
    if targetPrefixes == [] then [] else
    var n := |targetPrefixes| - 1;
    var target := targetPrefixes[n] + "/" + base;
    Substitutes(primary, targetPrefixes[..n], base) + if target != primary then [target] else []
  }

  /** The models to try: the primary alone when fallback is off or the model has no base
      behind a configured source, else with every substitute after it. */
  function TargetList(config: FallbackConfig, primary: string, source: string, base: string): seq<string> {
    [primary] + if config.enabled && source in config.prefixes && base != "" then
                  Substitutes(primary, config.prefixes[source], base) else []
  }

  method QuotaFallbackTargets(config: FallbackConfig, primary: string) returns (targets: seq<string>)
    ensures forall source, base | IsSource(config.prefixes, primary, source, base) ::
              targets == TargetList(config, primary, source, base)
  {
    hide IsSource;
    targets := [primary];
    if !config.enabled {
      return;
    }
    var sourcePrefix, baseModel := QuotaFallbackSource(config.prefixes, primary);
    forall source, base | IsSource(config.prefixes, primary, source, base)
      ensures source == sourcePrefix && base == baseModel
    {
      SourceIsUnique(config.prefixes, primary, source, base, sourcePrefix, baseModel);
    }
    BlankSourceHasNoBase(config.prefixes, primary, sourcePrefix, baseModel);
    if sourcePrefix == "" || baseModel == "" {
      return;
    }
    var prefixes := config.prefixes[sourcePrefix];
    for i := 0 to |prefixes|
      invariant targets == [primary] + Substitutes(primary, prefixes[..i], baseModel)
    {
      assert prefixes[..i + 1][..i] == prefixes[..i];
      var target := prefixes[i] + "/" + baseModel;
      if target != primary {
        targets := targets + [target];
      }
    }
    assert prefixes[..|prefixes|] == prefixes;
  }

  /** Every model has its source, so the contract above always says what the list is. */
  lemma SourceExists(prefixes: PrefixTable, model: string) returns (source: string, base: string)
    ensures IsSource(prefixes, model, source, base)
  {
    hide TrimSpace;
    source := LongestCarried(prefixes, model, prefixes.Keys);
    base := "";
    if source != "" {
      base := TrimPrefix(TrimSpace(model), source + "/");
    }
  }

  lemma {:induction false} LongestCarried(prefixes: PrefixTable, model: string, keys: set<string>) returns (source: string)
    requires keys <= prefixes.Keys
    ensures source != "" ==> source in keys && Carried(prefixes, model, source)
    ensures forall k | k in keys && Carried(prefixes, model, k) :: source != "" && |k| <= |source|
    decreases keys
  {
    hide TrimSpace;
    source := "";
    if keys != {} {
      var k :| k in keys;
      source := LongestCarried(prefixes, model, keys - {k});
      if Carried(prefixes, model, k) && |k| > |source| {
        source := k;
      }
      assert forall l | l in keys :: l == k || l in keys - {k};
    }
  }

  lemma BlankSourceHasNoBase(prefixes: PrefixTable, model: string, source: string, base: string)
    requires IsSource(prefixes, model, source, base)
    ensures if source == "" then base == "" else source in prefixes
  {
  }

  /** The substitutes stand in the order of the configured targets. */
  lemma {:induction false} SubstitutesInOrder(primary: string, a: seq<string>, b: seq<string>, t: string, base: string)
    ensures Substitutes(primary, a + b, base) == Substitutes(primary, a, base) + Substitutes(primary, b, base)
    ensures Substitutes(primary, [t], base) == if t + "/" + base == primary then [] else [t + "/" + base]
  {
    assert [t][..0] == [] && Substitutes(primary, [], base) == [];
    if b == [] {
      assert a + b == a;
    } else {
      var n := |b| - 1;
      SubstitutesInOrder(primary, a, b[..n], t, base);
      assert (a + b)[..|a + b| - 1] == a + b[..n];
    }
  }

  /** The primary comes first, and stands alone exactly when fallback is off, no configured
      source with a base behind it applies, or its targets only give the primary back. */
  lemma TriedAloneExactly(config: FallbackConfig, primary: string, source: string, base: string)
    requires IsSource(config.prefixes, primary, source, base)
    ensures var list := TargetList(config, primary, source, base);
            && list != [] && list[0] == primary
            && (|list| > 1 <==>
                  && config.enabled && source != "" && base != ""
                  && exists t :: t in config.prefixes[source] && t + "/" + base != primary)
            && (|list| > 1 ==> list[1..] == Substitutes(primary, config.prefixes[source], base))
  {
    BlankSourceHasNoBase(config.prefixes, primary, source, base);
    hide IsSource;
    if source != "" {
      var targets := config.prefixes[source];
      var subs := Substitutes(primary, targets, base);
      assert ([primary] + subs)[1..] == subs;
      if t :| t in targets && t + "/" + base != primary {
        var i :| 0 <= i < |targets| && targets[i] == t;
        SubstitutesShareTheBase(primary, targets, base, t + "/" + base);
      }
      if subs != [] {
        SubstitutesShareTheBase(primary, targets, base, subs[0]);
        var i :| 0 <= i < |targets| && subs[0] == targets[i] + "/" + base;
        assert targets[i] in targets;
      }
    }
  }

  /** Every substitute has the same base behind a configured prefix and differs
      from the primary. */
  lemma {:induction false} SubstitutesShareTheBase(primary: string, targetPrefixes: seq<string>, base: string, t: string)
    ensures t in Substitutes(primary, targetPrefixes, base) <==>
              t != primary && exists i :: 0 <= i < |targetPrefixes| && t == targetPrefixes[i] + "/" + base
  {
    if targetPrefixes != [] {
      var n := |targetPrefixes| - 1;
      assert forall i | 0 <= i < n :: targetPrefixes[..n][i] == targetPrefixes[i];
      SubstitutesShareTheBase(primary, targetPrefixes[..n], base, t);
      assert t == targetPrefixes[n] + "/" + base ==> exists i :: 0 <= i < |targetPrefixes| && t == targetPrefixes[i] + "/" + base;
    }
  }

  /** Distinct prefixes make the whole list of models to try free of repeats. */
  lemma {:induction false} TargetsAreDistinct(primary: string, targetPrefixes: seq<string>, base: string)
    requires Distinct(targetPrefixes)
    ensures Distinct([primary] + Substitutes(primary, targetPrefixes, base))
  {
    if targetPrefixes != [] {
      var n := |targetPrefixes| - 1;
      var last := targetPrefixes[n] + "/" + base;
      var r := Substitutes(primary, targetPrefixes[..n], base);
      TargetsAreDistinct(primary, targetPrefixes[..n], base);
      SubstitutesShareTheBase(primary, targetPrefixes[..n], base, last);
      forall i | 0 <= i < n
        ensures targetPrefixes[..n][i] + "/" + base != last
      {
        assert targetPrefixes[..n][i] + "/" + base == targetPrefixes[i] + ("/" + base);
        assert last == targetPrefixes[n] + ("/" + base);
        SuffixCancels(targetPrefixes[i], targetPrefixes[n], "/" + base);
      }
      assert last !in r;
      assert [primary] + (r + [last]) == [primary] + r + [last];
      assert r + [] == r;
    }
  }

  lemma SuffixCancels(a: string, b: string, suffix: string)
    ensures a + suffix == b + suffix ==> a == b
  {
    if a + suffix == b + suffix {
      assert |a| == |b|;
      assert a == (a + suffix)[..|a|] && b == (b + suffix)[..|b|];
    }
  }

  // ------------------------------------------------- from the raw configuration

  /** Two raw keys that mean this source and share a target other than it. */
  predicate SharedTarget(input: PrefixTable, source: string, a: string, b: string, t: string) {
    && a != b && a in input && b in input && t != source
    && NormalizePrefixName(a) == NormalizePrefixName(b) == source
    && t in NormalizeAll(input[a]) && t in NormalizeAll(input[b])
  }

  /** The order lists every raw key once, as map iteration does. */
  ghost predicate IterationOrder(input: PrefixTable, order: seq<string>) {
    Distinct(order) && forall k :: k in order <==> k in input
  }

  lemma ChunkGives(input: PrefixTable, order: seq<string>, source: string, i: nat, t: string)
    requires IterationOrder(input, order) && i < |order|
    ensures order[i] in input
    ensures Gives(Chunks(input, order), source, i, t) <==>
              NormalizePrefixName(order[i]) == source && t != source && t in NormalizeAll(input[order[i]])
  {
    hide NormalizePrefixName, NormalizeAll;
    assert order[i] in order;
  }

  lemma GivesInRange(chunks: seq<Chunk>, source: string, i: nat, t: string)
    requires Gives(chunks, source, i, t)
    ensures i < |chunks|
  {
  }

  lemma TwoChunksShare(input: PrefixTable, order: seq<string>, source: string, i: nat, j: nat, t: string)
    requires IterationOrder(input, order) && i < j
    requires Gives(Chunks(input, order), source, i, t) && Gives(Chunks(input, order), source, j, t)
    ensures j < |order| && SharedTarget(input, source, order[i], order[j], t)
  {
    hide NormalizePrefixName, NormalizeAll;
    GivesInRange(Chunks(input, order), source, j, t);
    assert j < |order|;
    hide Gives, Chunks;
    ChunkGives(input, order, source, i, t);
    ChunkGives(input, order, source, j, t);
  }

  lemma SharedIsGivenTwice(input: PrefixTable, order: seq<string>, source: string, a: string, b: string, t: string)
    requires IterationOrder(input, order) && SharedTarget(input, source, a, b, t)
    ensures GivenTwice(Chunks(input, order), source, t)
  {
    hide NormalizePrefixName, NormalizeAll, Gives, Chunks;
    var i: nat :| i < |order| && order[i] == a;
    var j: nat :| j < |order| && order[j] == b;
    ChunkGives(input, order, source, i, t);
    ChunkGives(input, order, source, j, t);
  }

  lemma RawKeysGiveTwice(input: PrefixTable, order: seq<string>, source: string, t: string)
    requires IterationOrder(input, order)
    ensures GivenTwice(Chunks(input, order), source, t) <==> exists a, b :: SharedTarget(input, source, a, b, t)
  {
    var chunks := Chunks(input, order);
    hide Gives, Chunks, SharedTarget, IterationOrder, NormalizePrefixName, NormalizeAll;
    if i: nat, j: nat :| i < j && Gives(chunks, source, i, t) && Gives(chunks, source, j, t) {
      TwoChunksShare(input, order, source, i, j, t);
    }
    if a, b :| SharedTarget(input, source, a, b, t) {
      SharedIsGivenTwice(input, order, source, a, b, t);
    }
  }

  lemma OneMoreCounts(s: seq<string>, y: string, x: string)
    ensures multiset(s + [y])[x] == multiset(s)[x] + if x == y then 1 else 0
  {
  }

  lemma {:induction false} SubstitutesCount(primary: string, targetPrefixes: seq<string>, base: string, t: string)
    requires t + "/" + base != primary
    ensures multiset(Substitutes(primary, targetPrefixes, base))[t + "/" + base] == multiset(targetPrefixes)[t]
  {
    if targetPrefixes != [] {
      var n := |targetPrefixes| - 1;
      var prior, last := targetPrefixes[..n], targetPrefixes[n];
      SubstitutesCount(primary, prior, base, t);
      assert targetPrefixes == prior + [last];
      var x, y := t + "/" + base, last + "/" + base;
      assert Substitutes(primary, targetPrefixes, base) == Substitutes(primary, prior, base) + if y != primary then [y] else [];
      hide *;
      if last != t {
        DifferentModels(last, t, base);
      }
      OneMoreCounts(prior, last, t);
      OneMoreCounts(Substitutes(primary, prior, base), y, x);
      if y == primary {
        assert Substitutes(primary, prior, base) + [] == Substitutes(primary, prior, base);
      }
    }
  }

  lemma ListRepeats(primary: string, targetPrefixes: seq<string>, base: string)
    ensures !Distinct([primary] + Substitutes(primary, targetPrefixes, base)) <==>
            exists t :: multiset(targetPrefixes)[t] > 1 && t + "/" + base != primary
  {
    var subs := Substitutes(primary, targetPrefixes, base);
    DistinctMeansOnce([primary] + subs);
    SubstitutesShareTheBase(primary, targetPrefixes, base, primary);
    forall t | t + "/" + base != primary
      ensures multiset(subs)[t + "/" + base] == multiset(targetPrefixes)[t]
    {
      SubstitutesCount(primary, targetPrefixes, base, t);
    }
    if x :| multiset([primary] + subs)[x] > 1 {
      assert x in subs;
      SubstitutesShareTheBase(primary, targetPrefixes, base, x);
      var i :| 0 <= i < |targetPrefixes| && x == targetPrefixes[i] + "/" + base;
      assert multiset(targetPrefixes)[targetPrefixes[i]] > 1;
    }
    if t :| multiset(targetPrefixes)[t] > 1 && t + "/" + base != primary {
      assert multiset([primary] + subs)[t + "/" + base] > 1;
    }
    hide Distinct, Substitutes;
  }

  /** From the raw configuration to the models that are tried: where substitutes apply, a
      model is listed twice exactly when two raw keys that mean the applicable source share
      a target that does not give the primary back; in particular never when different raw
      keys mean different sources. */
  lemma TargetListRepeatsExactly(input: FallbackConfig, order: seq<string>, primary: string, source: string, base: string)
    requires IterationOrder(input.prefixes, order)
    requires var config := input.(prefixes := Collect(input.prefixes, order));
             config.enabled && IsSource(config.prefixes, primary, source, base) && base != ""
    ensures !Distinct(TargetList(input.(prefixes := Collect(input.prefixes, order)), primary, source, base)) <==>
            exists t, a, b :: SharedTarget(input.prefixes, source, a, b, t) && t + "/" + base != primary
  {
    var chunks := Chunks(input.prefixes, order);
    var table := Collect(input.prefixes, order);
    BlankSourceHasNoBase(table, primary, source, base);
    ChunksAreDistinct(input.prefixes, order);
    hide IsSource, Substitutes, SharedTarget, Gather, Distinct, Gives, Chunks, IterationOrder, GivenTwice;
    ListRepeats(primary, table[source], base);
    forall t
      ensures multiset(table[source])[t] > 1 <==> exists a, b :: SharedTarget(input.prefixes, source, a, b, t)
    {
      GatheredTargets(chunks, source, t);
      RawKeysGiveTwice(input.prefixes, order, source, t);
    }
  }

  predicate OwnsList(input: PrefixTable, raw: string, source: string, targets: seq<string>) {
    raw in input && NormalizePrefixName(raw) == source && targets == CleanTargets(source, input[raw])
  }

  /** When different raw keys mean different sources, nothing is tried twice, and the
      substitutes are the cleaned list of the one raw key that means the source. */
  lemma DistinctSourcesNeverRepeat(input: FallbackConfig, order: seq<string>, primary: string, source: string, base: string)
    requires IterationOrder(input.prefixes, order)
    requires forall a, b | a in input.prefixes && b in input.prefixes && a != b :: NormalizePrefixName(a) != NormalizePrefixName(b)
    requires IsSource(Collect(input.prefixes, order), primary, source, base)
    ensures Distinct(TargetList(input.(prefixes := Collect(input.prefixes, order)), primary, source, base))
    ensures source != "" ==> source in Collect(input.prefixes, order)
    ensures source != "" ==> exists raw :: OwnsList(input.prefixes, raw, source, Collect(input.prefixes, order)[source])
  {
    var table := Collect(input.prefixes, order);
    BlankSourceHasNoBase(table, primary, source, base);
    if input.enabled && base != "" {
      hide NormalizePrefixName;
      TargetListRepeatsExactly(input, order, primary, source, base);
    }
    if source != "" {
      hide NormalizePrefixName, CleanTargets, IsSource, TargetList;
      OwnList(input.prefixes, order, source);
    }
  }

  lemma OwnList(input: PrefixTable, order: seq<string>, source: string)
    requires IterationOrder(input, order) && source in Collect(input, order)
    requires forall a, b | a in input && b in input && a != b :: NormalizePrefixName(a) != NormalizePrefixName(b)
    ensures exists raw :: OwnsList(input, raw, source, Collect(input, order)[source])
  {
    hide NormalizePrefixName, CleanTargets;
    var chunks := Chunks(input, order);
    if forall i | 0 <= i < |chunks| :: chunks[i].source != source {
      OnlyItsOwnSources(chunks, source);
    } else {
      var i: nat :| i < |chunks| && chunks[i].source == source;
      assert forall j | 0 <= j < |order| :: order[j] in order;
      DistinctSourcesKeepTheirLists(chunks, i);
      assert OwnsList(input, order[i], source, Collect(input, order)[source]);
    }
  }

  lemma ChunksAreDistinct(input: PrefixTable, order: seq<string>)
    requires IterationOrder(input, order)
    ensures forall i | 0 <= i < |order| :: Distinct(Chunks(input, order)[i].targets)
  {
    hide NormalizePrefixName;
    forall i | 0 <= i < |order|
      ensures Distinct(Chunks(input, order)[i].targets)
    {
      assert order[i] in order;
    }
  }

  predicate Plain(name: string) {
    name != "" && Trimmed(name, IsSpace) && Trimmed(name, IsSlash)
  }

  lemma PlainNamesNormalize(name: string)
    requires Plain(name)
    ensures NormalizePrefixName(name) == name && NormalizePrefixName("/" + name) == name
  {
    hide DropLeading, DropTrailing, Trim;
    var slashed := "/" + name;
    assert Trimmed(slashed, IsSpace);
    TrimFixpoint(name, IsSpace);
    TrimFixpoint(name, IsSlash);
    TrimFixpoint(slashed, IsSpace);
    assert slashed == "/" + name + "";
    TrimBlock("/", name, "", IsSlash);
  }

  lemma {:induction false} OnlyGivenSources(chunks: seq<Chunk>, source: string)
    requires forall i | 0 <= i < |chunks| :: chunks[i].source == source
    ensures forall k | k in Gather(chunks) :: k == source
  {
    forall k | k in Gather(chunks) && k != source
      ensures false
    {
      OnlyItsOwnSources(chunks, k);
    }
  }

  lemma SourceOf(table: PrefixTable, name: string, x: string)
    requires name != "" && !IsSpace(name[0]) && x != "" && !IsSpace(x[|x| - 1])
    requires name in table && forall k | k in table :: k == name
    ensures IsSource(table, name + "/" + x, name, x)
  {
    TrimFixpoint(name + "/" + x, IsSpace);
  }

  /** The raw configuration lists one target under a source that is written in two ways. */
  predicate WrittenTwice(input: PrefixTable, name: string, slashed: string, t: string) {
    Plain(name) && Plain(t) && name != t && slashed == "/" + name && input == map[name := [t], slashed := [t]]
  }

  lemma WrittenTwiceShares(input: PrefixTable, name: string, slashed: string, t: string)
    requires WrittenTwice(input, name, slashed, t)
    ensures SharedTarget(input, name, name, slashed, t)
    ensures forall k | k in input :: NormalizePrefixName(k) == name
  {
    hide NormalizePrefixName, Plain, NormalizeAll;
    PlainNamesNormalize(name);
    PlainNamesNormalize(t);
    assert NormalizePrefixName(slashed) == name && |slashed| == |name| + 1 && name != t;
    assert name in input && slashed in input && input[name] == [t] == input[slashed];
    assert forall k | k in input :: k == name || k == slashed;
    hide WrittenTwice;
    assert NormalizeAll([t])[0] == t;
    assert t in NormalizeAll([t]);
  }

  lemma PlainStart(name: string)
    requires Plain(name)
    ensures name != "" && !IsSpace(name[0])
  {
  }

  lemma DifferentModels(a: string, b: string, base: string)
    requires a != b
    ensures a + "/" + base != b + "/" + base
  {
    assert a + "/" + base == a + ("/" + base) && b + "/" + base == b + ("/" + base);
    SuffixCancels(a, b, "/" + base);
  }

  lemma OneSource(input: PrefixTable, order: seq<string>, name: string, slashed: string, t: string)
    requires WrittenTwice(input, name, slashed, t) && IterationOrder(input, order)
    ensures name in Collect(input, order) && forall k | k in Collect(input, order) :: k == name
  {
    WrittenTwiceShares(input, name, slashed, t);
    hide NormalizePrefixName, WrittenTwice, CleanTargets;
    var chunks := Chunks(input, order);
    forall i | 0 <= i < |chunks|
      ensures chunks[i].source == name
    {
      assert order[i] in order;
    }
    RawKeysGiveTwice(input, order, name, t);
    ChunksAreDistinct(input, order);
    hide SharedTarget, IterationOrder;
    GatheredTargets(chunks, name, t);
    OnlyGivenSources(chunks, name);
  }

  /** Such a target is tried twice, whatever the order in which the two keys are read. */
  lemma SharedSourceRepeatsTargets(input: FallbackConfig, order: seq<string>, name: string, slashed: string, t: string, x: string)
    requires input.enabled && WrittenTwice(input.prefixes, name, slashed, t) && IterationOrder(input.prefixes, order)
    requires x != "" && !IsSpace(x[|x| - 1])
    ensures IsSource(Collect(input.prefixes, order), name + "/" + x, name, x)
    ensures !Distinct(TargetList(input.(prefixes := Collect(input.prefixes, order)), name + "/" + x, name, x))
  {
    WrittenTwiceShares(input.prefixes, name, slashed, t);
    OneSource(input.prefixes, order, name, slashed, t);
    PlainStart(name);
    hide *;
    SourceOf(Collect(input.prefixes, order), name, x);
    DifferentModels(t, name, x);
    TargetListRepeatsExactly(input, order, name + "/" + x, name, x);
  }
}
