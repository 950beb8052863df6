/** The quota resource from the configured table to its report: when the accounts that are
    reported as nominal are those of the nominal query. */
module NominalReport {
  import opened Text
  import opened Prefixes
  import opened PrefixSelection

  /** Of the candidates, the first alone is queried under the given prefix. */
  predicate FirstAlone(candidates: seq<string>, prefix: string)
    requires candidates != []
  {
    && NormalizePrefix(candidates[0]) == prefix
    && forall j | 0 < j < |candidates| :: NormalizePrefix(candidates[j]) != prefix
  }

  /** The files are listed once; each candidate reads them anew. */
  predicate SameFiles(candidates: seq<string>, views: seq<seq<View>>) {
    |views| == |candidates| && forall i, j | 0 <= i < j < |views| :: |views[i]| == |views[j]|
  }

  /** Whatever the credentials look like, the accounts reported under the prefix are those
      of the first query. */
  ghost predicate ReportsFirstQuery(candidates: seq<string>, prefix: string)
    requires candidates != []
  {
    forall views, results: seq<PrefixResult> | SameFiles(candidates, views) && IsSelection(candidates, views, results) ::
      Merge(results, prefix) == results[0].accounts
  }

  lemma {:induction false} MergeKeeps(results: seq<PrefixResult>, prefix: string, j: nat, account: string)
    requires j < |results| && results[j].prefix == prefix && account in results[j].accounts
    ensures account in Merge(results, prefix)
  {
    var n := |results| - 1;
    if j < n {
      MergeKeeps(results[..n], prefix, j, account);
    }
  }

  lemma {:induction false} MergeOnlyKeeps(results: seq<PrefixResult>, prefix: string, account: string)
    requires account in Merge(results, prefix)
    ensures exists i :: 0 <= i < |results| && results[i].prefix == prefix && account in results[i].accounts
  {
    var n := |results| - 1;
    if !(results[n].prefix == prefix && account in results[n].accounts) {
      MergeOnlyKeeps(results[..n], prefix, account);
      assert forall i | 0 <= i < n :: results[..n][i] == results[i];
    }
  }

  // A run with one credential, which belongs to one candidate and has nothing left.

  const ACCOUNT := "x"
  const SPENT: Groups := [[0.0]]

  function SpentCredential(prefix: string): View {
    Read(prefix, ACCOUNT, Queried(SPENT, false))
  }

  function ResultOf(candidate: string, prefix: string): PrefixResult {
    PrefixResult(NormalizePrefix(candidate), if candidate == prefix then map[ACCOUNT := SPENT] else map[], [])
  }

  function ViewsOf(candidates: seq<string>, prefix: string): (views: seq<seq<View>>)
    ensures SameFiles(candidates, views) && forall i | 0 <= i < |views| :: views[i] == [SpentCredential(prefix)]
  {
    seq(|candidates|, i => [SpentCredential(prefix)])
  }

  function ResultsOf(candidates: seq<string>, prefix: string): (results: seq<PrefixResult>)
    ensures |results| == |candidates| && forall i | 0 <= i < |results| :: results[i] == ResultOf(candidates[i], prefix)
  {
    seq(|candidates|, i requires 0 <= i < |candidates| => ResultOf(candidates[i], prefix))
  }

  lemma SpentQuery(candidate: string, prefix: string)
    ensures QueryPrefix(candidate, [SpentCredential(prefix)]) == ResultOf(candidate, prefix)
    ensures !HasRemaining(ResultOf(candidate, prefix))
  {
    hide NormalizePrefix;
    assert SPENT[0][0] == 0.0 && !Usable(SPENT);
    assert [SpentCredential(prefix)][..0] == [];
    assert QueryPrefix(candidate, []) == PrefixResult(NormalizePrefix(candidate), map[], []);
  }

  lemma SpentRun(candidates: seq<string>, prefix: string)
    ensures IsSelection(candidates, ViewsOf(candidates, prefix), ResultsOf(candidates, prefix))
  {
    hide NormalizePrefix, QueryPrefix, HasRemaining, ResultOf, SpentCredential;
    var views, results := ViewsOf(candidates, prefix), ResultsOf(candidates, prefix);
    forall i | 0 <= i < |results|
      ensures results[i] == QueryPrefix(candidates[i], views[i]) && !HasRemaining(results[i])
    {
      SpentQuery(candidates[i], prefix);
    }
  }

  /** The nominal accounts are the first query's in every run exactly when the first
      candidate, and no other, is queried under the nominal prefix. */
  lemma ReportsFirstQueryExactly(candidates: seq<string>, prefix: string)
    requires candidates != [] && candidates[0] !in candidates[1..]
    ensures ReportsFirstQuery(candidates, prefix) <==> FirstAlone(candidates, prefix)
  {
    hide NormalizePrefix, QueryPrefix, HasRemaining;
    if FirstAlone(candidates, prefix) {
      forall views, results: seq<PrefixResult> | SameFiles(candidates, views) && IsSelection(candidates, views, results)
        ensures Merge(results, prefix) == results[0].accounts
      {
        PrefixesOf(candidates, views, results);
        MergeIsOwnQuery(results, 0);
      }
    } else {
      Counterexample(candidates, prefix);
    }
  }

  lemma PrefixesOf(candidates: seq<string>, views: seq<seq<View>>, results: seq<PrefixResult>)
    requires |views| == |candidates| && IsSelection(candidates, views, results)
    ensures forall i | 0 <= i < |results| :: results[i].prefix == NormalizePrefix(candidates[i])
  {
    hide NormalizePrefix;
    forall i | 0 <= i < |results|
      ensures results[i].prefix == NormalizePrefix(candidates[i])
    {
      QueryPrefixMeaning(candidates[i], views[i], ACCOUNT);
    }
  }

  lemma Counterexample(candidates: seq<string>, prefix: string)
    requires candidates != [] && candidates[0] !in candidates[1..]
    requires !FirstAlone(candidates, prefix)
    ensures !ReportsFirstQuery(candidates, prefix)
  {
    hide NormalizePrefix, IsSelection, SpentCredential;
    if NormalizePrefix(candidates[0]) != prefix {
      var results := ResultsOf(candidates, candidates[0]);
      SpentRun(candidates, candidates[0]);
      if ACCOUNT in Merge(results, prefix) {
        MergeOnlyKeeps(results, prefix, ACCOUNT);
      }
      assert ACCOUNT in results[0].accounts;
      assert Merge(results, prefix) != results[0].accounts;
    } else {
      var j: nat :| 0 < j < |candidates| && NormalizePrefix(candidates[j]) == prefix;
      assert candidates[j] == candidates[1..][j - 1];
      var results := ResultsOf(candidates, candidates[j]);
      SpentRun(candidates, candidates[j]);
      MergeKeeps(results, prefix, j, ACCOUNT);
      assert ACCOUNT !in results[0].accounts;
      assert Merge(results, prefix) != results[0].accounts;
    }
  }

  // ------------------------------------------------------------- over the table

  /** The targets that are queried besides the nominal name. */
  function Targets(enabled: bool, prefixes: map<string, seq<string>>, name: string): seq<string> {
    if enabled && name in prefixes then prefixes[name] else []
  }

  /** The nominal name is stable, and no target for it that normalises to another name comes
      down to it in a second round. */
  predicate TableKeepsApart(enabled: bool, prefixes: map<string, seq<string>>, nominal: string) {
    var name := NormalizePrefixName(nominal);
    && NormalizePrefixName(name) == name
    && forall t | t in Targets(enabled, prefixes, name) && NormalizePrefixName(t) != name ::
         NormalizePrefixName(NormalizePrefixName(t)) != name
  }

  lemma SamePrefix(a: string, b: string)
    ensures NormalizePrefix(a) == NormalizePrefix(b) <==> NormalizePrefixName(a) == NormalizePrefixName(b)
  {
    hide NormalizePrefixName;
    var x, y := NormalizePrefixName(a), NormalizePrefixName(b);
    assert x == (x + "/")[..|x|] && y == (y + "/")[..|y|];
  }

  lemma {:induction false} FirstStaysFirst(names: seq<string>)
    requires names != []
    ensures FirstOccurrences(names) != [] && FirstOccurrences(names)[0] == names[0]
  {
    if |names| > 1 {
      FirstStaysFirst(names[..|names| - 1]);
    }
  }

  /** The candidates in the order of their queries. */
  function Candidates(enabled: bool, prefixes: map<string, seq<string>>, nominal: string): (r: seq<string>)
    ensures r != [] && r[0] == NormalizePrefixName(nominal)
  {
    FirstStaysFirst(CandidateNames(enabled, prefixes, nominal));
    FirstOccurrences(CandidateNames(enabled, prefixes, nominal))
  }

  lemma CandidatesAre(enabled: bool, prefixes: map<string, seq<string>>, nominal: string)
    ensures var name := NormalizePrefixName(nominal);
            var candidates := Candidates(enabled, prefixes, nominal);
            && candidates[0] !in candidates[1..]
            && (forall j | 0 < j < |candidates| ::
                  candidates[j] != name && exists t :: t in Targets(enabled, prefixes, name) && NormalizePrefixName(t) == candidates[j])
            && (forall t | t in Targets(enabled, prefixes, name) && NormalizePrefixName(t) != name ::
                  exists j :: 0 < j < |candidates| && candidates[j] == NormalizePrefixName(t))
  {
    hide NormalizePrefixName;
    var name, names := NormalizePrefixName(nominal), CandidateNames(enabled, prefixes, nominal);
    var candidates, targets := FirstOccurrences(names), Targets(enabled, prefixes, name);
    assert names == [name] + NormalizedNames(targets);
    assert candidates == Candidates(enabled, prefixes, nominal);
    hide FirstOccurrences, Candidates, CandidateNames;
    forall j | 0 < j < |candidates|
      ensures candidates[j] != name && exists t :: t in targets && NormalizePrefixName(t) == candidates[j]
    {
      assert candidates[j] in names;
      var i :| 0 <= i < |names| && names[i] == candidates[j];
      assert targets[i - 1] in targets;
    }
    assert forall n | n in candidates[1..] :: n != candidates[0];
    forall t | t in targets && NormalizePrefixName(t) != name
      ensures exists j :: 0 < j < |candidates| && candidates[j] == NormalizePrefixName(t)
    {
      var i :| 0 <= i < |targets| && targets[i] == t;
      assert names[i + 1] == NormalizePrefixName(t);
      assert NormalizePrefixName(t) in candidates;
    }
  }

  /** From the configured table: the accounts reported as nominal are exactly those of the
      nominal query, whatever the credentials look like, exactly when the nominal name is
      stable and the table keeps the other candidates apart from it. */
  lemma NominalAccountsAreOwnExactly(enabled: bool, prefixes: map<string, seq<string>>, nominal: string)
    ensures ReportsFirstQuery(Candidates(enabled, prefixes, nominal), NormalizePrefix(nominal)) <==>
            TableKeepsApart(enabled, prefixes, nominal)
  {
    var candidates := Candidates(enabled, prefixes, nominal);
    CandidatesAre(enabled, prefixes, nominal);
    ReportsFirstQueryExactly(candidates, NormalizePrefix(nominal));
    hide NormalizePrefixName, NormalizePrefix, Candidates, ReportsFirstQuery, Targets;
    forall c
      ensures NormalizePrefix(c) == NormalizePrefix(nominal) <==> NormalizePrefixName(c) == NormalizePrefixName(nominal)
    {
      SamePrefix(c, nominal);
    }
  }

  lemma RoundsOfPadded(name: string, slashed: string, padded: string)
    requires name != "" && Trimmed(name, IsSpace) && Trimmed(name, IsSlash)
    requires slashed == "/" + (" " + name) && padded == " " + slashed
    ensures NormalizePrefixName(name) == NormalizePrefixName(" " + name) == name
    ensures NormalizePrefixName("/" + padded) == padded && NormalizePrefixName(padded) == " " + name
  {
    hide NormalizePrefixName;
    EndsPlain(name);
    assert padded[|padded| - 1] == name[|name| - 1];
    assert Trimmed(padded, IsSlash);
    SlashComesOff(padded, "/" + padded);
    PlainNameStays(name);
    SpaceComesOff(name, " " + name);
    SpaceAndSlashComeOff(" " + name, slashed, padded);
  }

  /** A target that needs one more round than the nominal name, such as " / a" for "a", which
      is what the table stores for "/ / a", makes the two share a prefix, so accounts of the
      fallback are reported as nominal. */
  lemma PaddedTargetIsMergedIn(prefixes: map<string, seq<string>>, name: string, slashed: string, padded: string)
    requires name != "" && Trimmed(name, IsSpace) && Trimmed(name, IsSlash)
    requires slashed == "/" + (" " + name) && padded == " " + slashed
    requires name in prefixes && padded in prefixes[name]
    ensures NormalizePrefixName("/" + padded) == padded
    ensures !ReportsFirstQuery(Candidates(true, prefixes, name), NormalizePrefix(name))
  {
    RoundsOfPadded(name, slashed, padded);
    assert |" " + name| == |name| + 1;
    assert padded in Targets(true, prefixes, name);
    hide NormalizePrefixName, Trimmed, IsSpace, IsSlash, Targets, Candidates, NormalizePrefix, ReportsFirstQuery;
    assert !TableKeepsApart(true, prefixes, name);
    NominalAccountsAreOwnExactly(true, prefixes, name);
  }
}
