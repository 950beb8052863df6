/** The quota resource: which prefixes are queried, which one is reported as the
    actual one, and what the report contains. */
module PrefixSelection {
  import opened Text
  import opened Prefixes

  // ----------------------------------------------------------------- candidates

  /** The names, each where it first occurs. */
  function FirstOccurrences(names: seq<string>): (r: seq<string>)
    ensures Distinct(r) && forall n :: n in r <==> n in names
  {
    if names == [] then [] else
    var n := |names| - 1;
    var earlier := FirstOccurrences(names[..n]);
    assert names == names[..n] + [names[n]];
    if names[n] in earlier then earlier else earlier + [names[n]]
  }

  lemma OneMoreName(names: seq<string>, i: nat)
    requires i < |names|
    ensures var earlier := FirstOccurrences(names[..i]);
            FirstOccurrences(names[..i + 1]) == if names[i] in earlier then earlier else earlier + [names[i]]
  {
    assert names[..i + 1][..i] == names[..i];
  }

  predicate FirstAt(names: seq<string>, name: string, at: nat) {
    at < |names| && names[at] == name && name !in names[..at]
  }

  /** They keep the order of their first occurrences. */
  lemma {:induction false} OccurrencesKeepOrder(names: seq<string>, i: nat, j: nat, p: nat, q: nat)
    requires i < j < |FirstOccurrences(names)|
    requires FirstAt(names, FirstOccurrences(names)[i], p) && FirstAt(names, FirstOccurrences(names)[j], q)
    ensures p < q
  {
    var n := |names| - 1;
    var r, earlier := FirstOccurrences(names), FirstOccurrences(names[..n]);
    assert names == names[..n] + [names[n]];
    assert r[i] == earlier[i] && earlier[i] in names[..n];
    assert p < n && names[..n][..p] == names[..p];
    if j < |earlier| {
      assert r[j] == earlier[j] && earlier[j] in names[..n];
      assert q < n && names[..n][..q] == names[..q];
      OccurrencesKeepOrder(names[..n], i, j, p, q);
    } else {
      assert r[j] == names[n] && r[j] !in names[..n];
    }
  }

  function NormalizedNames(names: seq<string>): (r: seq<string>)
    ensures |r| == |names| && forall i | 0 <= i < |names| :: r[i] == NormalizePrefixName(names[i])
  {
    seq(|names|, i requires 0 <= i < |names| => NormalizePrefixName(names[i]))
  }

  /** The nominal name, then its configured fallbacks. */
  function CandidateNames(enabled: bool, prefixes: map<string, seq<string>>, nominal: string): seq<string> {
    var first := NormalizePrefixName(nominal);
    [first] + if enabled && first in prefixes then NormalizedNames(prefixes[first]) else []
  }

  /** The prefixes to query: the nominal one, then its configured fallbacks in their order,
      each once. */
  method QuotaFallbackPrefixes(enabled: bool, prefixes: map<string, seq<string>>, nominal: string) returns (result: seq<string>)
    ensures result == FirstOccurrences(CandidateNames(enabled, prefixes, nominal))
    ensures result != [] && result[0] == NormalizePrefixName(nominal)
  {
    hide NormalizePrefixName;
    var first := NormalizePrefixName(nominal);
    var seen := {first};
    result := [first];
    ghost var names := CandidateNames(enabled, prefixes, nominal);
    assert names[..1][..0] == [] && names[..1] == [first];
    assert FirstOccurrences([]) == [] && FirstOccurrences(names[..1]) == [first];
    hide FirstOccurrences;
    if enabled && first in prefixes {
      var targets := prefixes[first];
      for i := 0 to |targets|
        invariant result == FirstOccurrences(names[..i + 1]) && result != [] && result[0] == first
        invariant forall n :: n in seen <==> n in result
      {
        var name := NormalizePrefixName(targets[i]);
        assert names[i + 1] == name;
        OneMoreName(names, i + 1);
        if name !in seen {
          seen := seen + {name};
          result := result + [name];
        }
      }
      assert names[..|targets| + 1] == names;
    } else {
      assert names[..1] == names;
    }
  }

  // ------------------------------------------------------------- one candidate

  /** The remaining fractions of an account's windows, group by group. */
  type Groups = seq<seq<real>>

  datatype Problem = CredentialUnreadable | NoEmail | QueryFailed | CreditsIncomplete

  datatype QuotaView = Failed | Queried(account: Groups, creditsIncomplete: bool)

  /** What one listed credential looked like while one candidate was queried. */
  datatype View =
    | Skipped                                                        // not an available Codex credential
    | Unreadable
    | Read(prefix: string, account: string, quota: QuotaView)

  datatype PrefixResult = PrefixResult(prefix: string, accounts: map<string, Groups>, errors: seq<Problem>)

  function AddView(r: PrefixResult, candidate: string, v: View): PrefixResult {
    match v
    case Skipped => r
    case Unreadable => r.(errors := r.errors + [CredentialUnreadable])
    case Read(prefix, account, quota) =>
      if prefix != candidate then r
      else if account == "" then r.(errors := r.errors + [NoEmail])
      else if quota.Failed? then r.(errors := r.errors + [QueryFailed])
      else r.(accounts := r.accounts[account := quota.account],
              errors := r.errors + if quota.creditsIncomplete then [CreditsIncomplete] else [])
  }

  function QueryPrefix(candidate: string, views: seq<View>): PrefixResult {
    if views == [] then PrefixResult(NormalizePrefix(candidate), map[], [])
    else AddView(QueryPrefix(candidate, views[..|views| - 1]), candidate, views[|views| - 1])
  }

  /** A credential contributes to a candidate: none of its problems, or one. */
  predicate Contributes(candidate: string, v: View) {
    v.Read? && v.prefix == candidate && v.account != "" && v.quota.Queried?
  }

  predicate Troubles(candidate: string, v: View) {
    || v.Unreadable?
    || (v.Read? && v.prefix == candidate && (v.account == "" || v.quota.Failed? || v.quota.creditsIncomplete))
  }

  /** Entry i is the last one that contributes this account. */
  predicate LastFor(candidate: string, views: seq<View>, account: string, i: int) {
    && 0 <= i < |views| && Contributes(candidate, views[i]) && views[i].account == account
    && forall j | i < j < |views| :: !(Contributes(candidate, views[j]) && views[j].account == account)
  }

  /** A candidate's result holds the last queried quota of each of its accounts,
      and has errors exactly when some credential was unreadable, unlabelled,
      failed or incomplete. */
  lemma {:induction false} QueryPrefixMeaning(candidate: string, views: seq<View>, account: string)
    ensures var r := QueryPrefix(candidate, views);
            && r.prefix == NormalizePrefix(candidate)
            && (r.errors != [] <==> exists i :: 0 <= i < |views| && Troubles(candidate, views[i]))
            && (account in r.accounts <==> exists i :: 0 <= i < |views| && Contributes(candidate, views[i]) && views[i].account == account)
            && (account in r.accounts ==> exists i :: LastFor(candidate, views, account, i)
                                                   && r.accounts[account] == views[i].quota.account)
  {
    hide NormalizePrefix;
    if views != [] {
      var n := |views| - 1;
      QueryPrefixMeaning(candidate, views[..n], account);
      assert forall i | 0 <= i < n :: views[..n][i] == views[i];
      var before := QueryPrefix(candidate, views[..n]);
      if Contributes(candidate, views[n]) && views[n].account == account {
        assert LastFor(candidate, views, account, n);
      } else if account in before.accounts {
        var i :| LastFor(candidate, views[..n], account, i) && before.accounts[account] == views[..n][i].quota.account;
        assert LastFor(candidate, views, account, i);
      }
      if before.errors != [] {
        var i :| 0 <= i < n && Troubles(candidate, views[..n][i]);
        assert Troubles(candidate, views[i]);
      }
    }
  }

  /** What one credential is reported for, in the terms of the credential. */
  function ProblemOf(candidate: string, v: View): seq<Problem> {
    if v.Unreadable? then [CredentialUnreadable]
    else if v.Skipped? || v.prefix != candidate then []
    else if v.account == "" then [NoEmail]
    else if v.quota == Failed then [QueryFailed]
    else if v.quota.creditsIncomplete then [CreditsIncomplete]
    else []
  }

  lemma LastErrors(candidate: string, views: seq<View>)
    ensures QueryPrefix(candidate, []).errors == []
    ensures views != [] ==>
              var n := |views| - 1;
              QueryPrefix(candidate, views).errors == QueryPrefix(candidate, views[..n]).errors + ProblemOf(candidate, views[n])
  {
    hide NormalizePrefix;
  }

  /** The errors of a candidate are those of its credentials, in their order. */
  lemma {:induction false} ErrorsInOrder(candidate: string, a: seq<View>, b: seq<View>, v: View)
    ensures QueryPrefix(candidate, a + b).errors == QueryPrefix(candidate, a).errors + QueryPrefix(candidate, b).errors
    ensures QueryPrefix(candidate, [v]).errors == ProblemOf(candidate, v)
  {
    hide *;
    LastErrors(candidate, [v]);
    assert [v][..0] == [];
    LastErrors(candidate, b);
    if b == [] {
      assert a + b == a;
    } else {
      var n := |b| - 1;
      ErrorsInOrder(candidate, a, b[..n], v);
      LastErrors(candidate, a + b);
      assert (a + b)[..|a + b| - 1] == a + b[..n] && (a + b)[|a + b| - 1] == b[n];
    }
  }

  // ----------------------------------------------------------------- remaining

  /** An account with at least one window, all of them with something left. */
  predicate Usable(groups: Groups) {
    && (exists g :: 0 <= g < |groups| && groups[g] != [])
    && (forall g, b | 0 <= g < |groups| && 0 <= b < |groups[g]| :: groups[g][b] > 0.0)
  }

  lemma UsableExactly(groups: Groups)
    ensures Usable(groups) <==>
              && (exists g, b :: 0 <= g < |groups| && 0 <= b < |groups[g]| && groups[g][b] > 0.0)
              && !(exists g, b :: 0 <= g < |groups| && 0 <= b < |groups[g]| && groups[g][b] <= 0.0)
  {
    if g :| 0 <= g < |groups| && groups[g] != [] {
      assert groups[g][0] > 0.0 || groups[g][0] <= 0.0;
    }
  }

  predicate HasRemaining(r: PrefixResult) {
    exists a :: a in r.accounts && Usable(r.accounts[a])
  }

  method AccountUsable(groups: Groups) returns (usable: bool)
    ensures usable <==> Usable(groups)
    ensures usable <==>
              && (exists g, b :: 0 <= g < |groups| && 0 <= b < |groups[g]| && groups[g][b] > 0.0)
              && !(exists g, b :: 0 <= g < |groups| && 0 <= b < |groups[g]| && groups[g][b] <= 0.0)
  {
    UsableExactly(groups);
    var hasWindow, allWindowsHaveRemaining := false, true;
    for g := 0 to |groups|
      invariant allWindowsHaveRemaining
      invariant hasWindow <==> exists h :: 0 <= h < g && groups[h] != []
      invariant forall h, b | 0 <= h < g && 0 <= b < |groups[h]| :: groups[h][b] > 0.0
    {
      for b := 0 to |groups[g]|
        invariant allWindowsHaveRemaining
        invariant hasWindow <==> (exists h :: 0 <= h < g && groups[h] != []) || 0 < b
        invariant forall c | 0 <= c < b :: groups[g][c] > 0.0
      {
        hasWindow := true;
        if groups[g][b] <= 0.0 {
          allWindowsHaveRemaining := false;
          assert !Usable(groups);
          return false;
        }
      }
    }
    usable := hasWindow && allWindowsHaveRemaining;
  }

  method QuotaPrefixHasRemaining(r: PrefixResult) returns (remaining: bool)
    ensures remaining <==> HasRemaining(r)
    ensures remaining <==> exists a :: a in r.accounts && Usable(r.accounts[a])
  {
    var keys := r.accounts.Keys;
    while keys != {}
      invariant keys <= r.accounts.Keys
      invariant forall a | a in r.accounts.Keys - keys :: !Usable(r.accounts[a])
      decreases keys
    {
      var account :| account in keys;
      var usable := AccountUsable(r.accounts[account]);
      if usable {
        return true;
      }
      keys := keys - {account};
    }
    remaining := false;
  }

  // ------------------------------------------------------------- the selection

  /** The results of the candidates up to the first with something left. */
  predicate IsSelection(candidates: seq<string>, views: seq<seq<View>>, results: seq<PrefixResult>)
    requires |views| == |candidates|
  {
    && |results| <= |candidates| && (candidates != [] ==> results != [])
    && (forall i | 0 <= i < |results| :: results[i] == QueryPrefix(candidates[i], views[i]))
    && (forall i | 0 <= i < |results| - 1 :: !HasRemaining(results[i]))
    && (|results| < |candidates| ==> HasRemaining(results[|results| - 1]))
  }

  /** The candidates are queried in order up to the first with something left; that
      one is the actual prefix, the nominal one if there is none. */
  method SelectPrefix(nominalPrefix: string, candidates: seq<string>, views: seq<seq<View>>)
    returns (results: seq<PrefixResult>, actualPrefix: string)
    requires |views| == |candidates|
    ensures IsSelection(candidates, views, results)
    ensures actualPrefix == if results != [] && HasRemaining(results[|results| - 1])
                            then results[|results| - 1].prefix else nominalPrefix
  {
    hide QueryPrefix, HasRemaining;
    results, actualPrefix := [], nominalPrefix;
    for i := 0 to |candidates|
      invariant |results| == i && actualPrefix == nominalPrefix
      invariant forall j | 0 <= j < i :: results[j] == QueryPrefix(candidates[j], views[j]) && !HasRemaining(results[j])
    {
      var prefixResult := QueryCandidate(candidates[i], views[i]);
      var selected := QuotaPrefixHasRemaining(prefixResult);
      if selected {
        actualPrefix := prefixResult.prefix;
      }
      results := results + [prefixResult];
      if selected {
        break;
      }
    }
  }

  method QueryCandidate(candidate: string, views: seq<View>) returns (r: PrefixResult)
    ensures r == QueryPrefix(candidate, views)
  {
    hide NormalizePrefix;
    r := PrefixResult(NormalizePrefix(candidate), map[], []);
    for i := 0 to |views|
      invariant r == QueryPrefix(candidate, views[..i])
    {
      assert views[..i + 1][..i] == views[..i];
      var v := views[i];
      if v.Skipped? {
        continue;
      }
      if v.Unreadable? {
        r := r.(errors := r.errors + [CredentialUnreadable]);
        continue;
      }
      if v.prefix != candidate {
        continue;
      }
      if v.account == "" {
        r := r.(errors := r.errors + [NoEmail]);
        continue;
      }
      if v.quota.Failed? {
        r := r.(errors := r.errors + [QueryFailed]);
        continue;
      }
      if v.quota.creditsIncomplete {
        r := r.(errors := r.errors + [CreditsIncomplete]);
      }
      r := r.(accounts := r.accounts[v.account := v.quota.account]);
    }
    assert views[..|views|] == views;
  }

  // ---------------------------------------------------------------- the report

  datatype Report = Report(nominalPrefix: string, actualPrefix: string,
                           nominalAccounts: map<string, Groups>, actualAccounts: Option<map<string, Groups>>,
                           errors: seq<Problem>, partial: bool, matched: bool)

  predicate Reported(r: PrefixResult, nominalPrefix: string, actualPrefix: string) {
    r.prefix == nominalPrefix || r.prefix == actualPrefix
  }

  /** Accounts of the results with this prefix; later ones win. */
  function Merge(results: seq<PrefixResult>, prefix: string): map<string, Groups> {
    if results == [] then map[] else
    var last := results[|results| - 1];
    Merge(results[..|results| - 1], prefix) + if last.prefix == prefix then last.accounts else map[]
  }

  lemma LastIsMerged(results: seq<PrefixResult>, prefix: string)
    ensures Merge([], prefix) == map[]
    ensures results != [] ==>
              var n := |results| - 1;
              Merge(results, prefix) == Merge(results[..n], prefix) + if results[n].prefix == prefix then results[n].accounts else map[]
  {
  }

  /** Accounts come together in the order of the queries; of two for one account the later
      stays. */
  lemma {:induction false} MergesInOrder(a: seq<PrefixResult>, b: seq<PrefixResult>, r: PrefixResult, prefix: string)
    ensures Merge(a + b, prefix) == Merge(a, prefix) + Merge(b, prefix)
    ensures Merge([r], prefix) == if r.prefix == prefix then r.accounts else map[]
  {
    hide *;
    LastIsMerged([r], prefix);
    assert [r][..0] == [];
    LastIsMerged(b, prefix);
    if b == [] {
      assert a + b == a;
    } else {
      var n := |b| - 1;
      MergesInOrder(a, b[..n], r, prefix);
      LastIsMerged(a + b, prefix);
      assert (a + b)[..|a + b| - 1] == a + b[..n] && (a + b)[|a + b| - 1] == b[n];
      AddingAssociates(Merge(a, prefix), Merge(b[..n], prefix), if b[n].prefix == prefix then b[n].accounts else map[]);
    }
  }

  lemma AddingAssociates(a: map<string, Groups>, b: map<string, Groups>, c: map<string, Groups>)
    ensures (a + b) + c == a + (b + c)
  {
  }

  /** The errors of the queries that are reported. */
  function ReportedErrors(results: seq<PrefixResult>, nominalPrefix: string, actualPrefix: string): seq<Problem> {
    if results == [] then [] else
    var last := results[|results| - 1];
    ReportedErrors(results[..|results| - 1], nominalPrefix, actualPrefix)
    + if Reported(last, nominalPrefix, actualPrefix) then last.errors else []
  }

  lemma ReportedOneMore(results: seq<PrefixResult>, i: nat, nominalPrefix: string, actualPrefix: string)
    requires i < |results|
    ensures ReportedErrors(results[..i + 1], nominalPrefix, actualPrefix)
         == ReportedErrors(results[..i], nominalPrefix, actualPrefix)
            + if Reported(results[i], nominalPrefix, actualPrefix) then results[i].errors else []
  {
    assert results[..i + 1][..i] == results[..i];
  }

  /** They are those of the queries under either prefix, in their order. */
  lemma {:induction false} ErrorsOfReportedQueries(a: seq<PrefixResult>, b: seq<PrefixResult>, r: PrefixResult, nominalPrefix: string, actualPrefix: string)
    ensures ReportedErrors(a + b, nominalPrefix, actualPrefix)
         == ReportedErrors(a, nominalPrefix, actualPrefix) + ReportedErrors(b, nominalPrefix, actualPrefix)
    ensures ReportedErrors([r], nominalPrefix, actualPrefix)
         == if r.prefix == nominalPrefix || r.prefix == actualPrefix then r.errors else []
  {
    assert [r][..0] == [] && ReportedErrors([], nominalPrefix, actualPrefix) == [];
    if b == [] {
      assert a + b == a;
    } else {
      var n := |b| - 1;
      ErrorsOfReportedQueries(a, b[..n], r, nominalPrefix, actualPrefix);
      assert (a + b)[..|a + b| - 1] == a + b[..n];
    }
  }

  lemma {:induction false} ErrorsMeanPartial(results: seq<PrefixResult>, nominalPrefix: string, actualPrefix: string)
    ensures ReportedErrors(results, nominalPrefix, actualPrefix) != [] <==>
              exists i :: 0 <= i < |results| && Reported(results[i], nominalPrefix, actualPrefix) && results[i].errors != []
  {
    if results != [] {
      var n := |results| - 1;
      ErrorsMeanPartial(results[..n], nominalPrefix, actualPrefix);
      assert forall i | 0 <= i < n :: results[..n][i] == results[i];
    }
  }

  predicate SomeMatched(results: seq<PrefixResult>, nominalPrefix: string, actualPrefix: string) {
    exists i :: 0 <= i < |results| && Reported(results[i], nominalPrefix, actualPrefix) && |results[i].accounts| > 0
  }

  lemma SomeMatchedMeans(results: seq<PrefixResult>, nominalPrefix: string, actualPrefix: string)
    ensures SomeMatched(results, nominalPrefix, actualPrefix) <==>
              exists i :: 0 <= i < |results| && (results[i].prefix == nominalPrefix || results[i].prefix == actualPrefix) && |results[i].accounts| > 0
  {
  }

  lemma MatchedOneMore(results: seq<PrefixResult>, i: nat, nominalPrefix: string, actualPrefix: string)
    requires i < |results|
    ensures SomeMatched(results[..i + 1], nominalPrefix, actualPrefix)
       <==> SomeMatched(results[..i], nominalPrefix, actualPrefix)
            || (Reported(results[i], nominalPrefix, actualPrefix) && |results[i].accounts| > 0)
  {
    assert results[..i + 1] == results[..i] + [results[i]];
    assert forall j | 0 <= j < i :: results[..i + 1][j] == results[..i][j];
    assert results[..i + 1][i] == results[i];
  }

  lemma MergeNone(prefix: string)
    ensures Merge([], prefix) == map[]
  {
  }

  lemma MergeOneMore(results: seq<PrefixResult>, i: nat, prefix: string)
    requires i < |results|
    ensures Merge(results[..i + 1], prefix)
         == if results[i].prefix == prefix then Merge(results[..i], prefix) + results[i].accounts else Merge(results[..i], prefix)
  {
    assert results[..i + 1][..i] == results[..i];
  }

  method BuildReport(nominalPrefix: string, actualPrefix: string, results: seq<PrefixResult>) returns (report: Report)
    ensures report.nominalPrefix == nominalPrefix && report.actualPrefix == actualPrefix
    ensures report.nominalAccounts == Merge(results, nominalPrefix)
    ensures report.actualAccounts == if actualPrefix != nominalPrefix then Some(Merge(results, actualPrefix)) else None
    ensures report.errors == ReportedErrors(results, nominalPrefix, actualPrefix)
    ensures report.partial <==>
              exists i :: 0 <= i < |results| && (results[i].prefix == nominalPrefix || results[i].prefix == actualPrefix) && results[i].errors != []
    ensures report.partial <==> report.errors != []
    ensures report.matched <==>
              exists i :: 0 <= i < |results| && (results[i].prefix == nominalPrefix || results[i].prefix == actualPrefix) && |results[i].accounts| > 0
  {
    MergeNone(nominalPrefix);
    MergeNone(actualPrefix);
    assert ReportedErrors([], nominalPrefix, actualPrefix) == [];
    assert !SomeMatched([], nominalPrefix, actualPrefix);
    ErrorsMeanPartial(results, nominalPrefix, actualPrefix);
    SomeMatchedMeans(results, nominalPrefix, actualPrefix);
    hide Merge, ReportedErrors, SomeMatched;
    assert results[..0] == [];
    var nominalAccounts, actualAccounts: map<string, Groups> := map[], map[];
    var errors, partial, matched := [], false, false;
    for i := 0 to |results|
      invariant nominalAccounts == Merge(results[..i], nominalPrefix)
      invariant actualPrefix != nominalPrefix ==> actualAccounts == Merge(results[..i], actualPrefix)
      invariant errors == ReportedErrors(results[..i], nominalPrefix, actualPrefix)
      invariant partial <==> errors != []
      invariant matched <==> SomeMatched(results[..i], nominalPrefix, actualPrefix)
    {
      var prefix := results[i];
      ReportedOneMore(results, i, nominalPrefix, actualPrefix);
      MatchedOneMore(results, i, nominalPrefix, actualPrefix);
      MergeOneMore(results, i, nominalPrefix);
      MergeOneMore(results, i, actualPrefix);
      if !Reported(prefix, nominalPrefix, actualPrefix) {
        continue;
      }
      if |prefix.errors| > 0 {
        partial := true;
        errors := errors + prefix.errors;
      }
      if |prefix.accounts| > 0 {
        matched := true;
      }
      if prefix.prefix == nominalPrefix {
        nominalAccounts := nominalAccounts + prefix.accounts;
      }
      if actualPrefix != nominalPrefix && prefix.prefix == actualPrefix {
        actualAccounts := actualAccounts + prefix.accounts;
      }
    }
    assert results[..|results|] == results;
    report := Report(nominalPrefix, actualPrefix, nominalAccounts,
                     if actualPrefix != nominalPrefix then Some(actualAccounts) else None, errors, partial, matched);
  }

  /** A prefix that only one query had has the accounts of that query. */
  lemma {:induction false} MergeIsOwnQuery(results: seq<PrefixResult>, k: nat)
    requires k < |results| && forall i | 0 <= i < |results| && i != k :: results[i].prefix != results[k].prefix
    ensures Merge(results, results[k].prefix) == results[k].accounts
  {
    var n := |results| - 1;
    if k < n {
      MergeIsOwnQuery(results[..n], k);
    } else {
      NothingToMerge(results[..n], results[n].prefix);
    }
  }

  lemma {:induction false} NothingToMerge(results: seq<PrefixResult>, prefix: string)
    requires forall i | 0 <= i < |results| :: results[i].prefix != prefix
    ensures Merge(results, prefix) == map[]
  {
    if results != [] {
      NothingToMerge(results[..|results| - 1], prefix);
    }
  }

  /** Distinct names that are stable under normalisation stay distinct as prefixes. */
  lemma StableNamesGiveDistinctPrefixes(candidates: seq<string>)
    requires Distinct(candidates) && forall c | c in candidates :: NormalizePrefixName(c) == c
    ensures forall i, j | 0 <= i < j < |candidates| :: NormalizePrefix(candidates[i]) != NormalizePrefix(candidates[j])
  {
    forall i, j | 0 <= i < j < |candidates|
      ensures NormalizePrefix(candidates[i]) != NormalizePrefix(candidates[j])
    {
      hide NormalizePrefixName;
      var a, b := candidates[i], candidates[j];
      assert a in candidates && b in candidates && a != b;
      assert a == (a + "/")[..|a|] && b == (b + "/")[..|b|];
    }
  }

  // The nominal prefix goes through three normalisations before it is compared: the value
  // in the configuration is stored normalised, the handler takes its name, and so does the
  // list of candidates.

  function NominalName(configured: string): string {
    NormalizePrefixName(NormalizePrefix(configured))
  }

  function NominalCandidate(configured: string): string {
    NormalizePrefixName(NominalName(configured))
  }

  /** The first query's result is found under the nominal prefix exactly when the name left
      after the three rounds neither starts nor ends with a space. */
  lemma NominalIsReportedExactly(configured: string)
    ensures NormalizePrefix(NominalCandidate(configured)) == NormalizePrefix(NominalName(configured)) <==>
            Trimmed(NominalCandidate(configured), IsSpace)
  {
    NameStable(NominalName(configured));
    hide NormalizePrefixName, Trimmed;
    var first := NominalCandidate(configured);
    var second := NormalizePrefixName(first);
    assert first == (first + "/")[..|first|] && second == (second + "/")[..|second|];
  }

  /** One round of normalisation takes off one slash, or one space and one slash. */
  lemma SlashComesOff(name: string, slashed: string)
    requires name != "" && Trimmed(name, IsSlash) && !IsSpace(name[|name| - 1]) && slashed == "/" + name
    ensures NormalizePrefixName(slashed) == name
  {
    hide DropLeading, DropTrailing, Trim;
    assert Trimmed(slashed, IsSpace);
    TrimFixpoint(slashed, IsSpace);
    assert slashed == "/" + name + "";
    TrimBlock("/", name, "", IsSlash);
  }

  lemma SpaceAndSlashComeOff(name: string, slashed: string, padded: string)
    requires name != "" && Trimmed(name, IsSlash) && !IsSpace(name[|name| - 1])
    requires slashed == "/" + name && padded == " " + slashed
    ensures NormalizePrefixName(padded) == name
  {
    hide DropLeading, DropTrailing, Trim;
    assert padded == " " + slashed + "" && Trimmed(slashed, IsSpace);
    TrimBlock(" ", slashed, "", IsSpace);
    SlashComesOff(name, slashed);
    TrimFixpoint(slashed, IsSpace);
  }

  /** The same when a slash was put behind the name in between. */
  lemma SlashedAgain(name: string, slashed: string, padded: string)
    requires name != "" && Trimmed(name, IsSlash) && !IsSpace(name[|name| - 1])
    requires slashed == "/" + name && padded == " " + slashed
    ensures NormalizePrefixName(padded + "/") == name
  {
    hide DropLeading, DropTrailing, Trim;
    assert padded + "/" == " " + (slashed + "/") + "" && Trimmed(slashed + "/", IsSpace);
    TrimBlock(" ", slashed + "/", "", IsSpace);
    assert slashed + "/" == "/" + name + "/";
    TrimBlock("/", name, "/", IsSlash);
  }

  lemma Padded(tail: string, slashed: string, padded: string)
    requires tail != "" && !IsSlash(tail[|tail| - 1]) && !IsSpace(tail[|tail| - 1])
    requires slashed == "/" + tail && padded == " " + slashed
    ensures padded != "" && Trimmed(padded, IsSlash)
    ensures padded[|padded| - 1] == tail[|tail| - 1]
  {
  }

  lemma SpaceComesOff(a: string, padded: string)
    requires a != "" && Trimmed(a, IsSpace) && Trimmed(a, IsSlash) && padded == " " + a
    ensures NormalizePrefixName(padded) == a
    ensures Trimmed(padded, IsSlash) && padded != "" && padded[|padded| - 1] == a[|a| - 1]
  {
    hide DropLeading, DropTrailing, Trim;
    assert padded == " " + a + "";
    TrimBlock(" ", a, "", IsSpace);
    TrimFixpoint(a, IsSlash);
  }

  /** A configured value with three slashes in front, spaced apart, such as "/ / / a" for
      a == "a": the nominal prefix is " a/", and the first query runs under "a/". */
  lemma ThreeSlashesAreNotReported(a: string, configured: string)
    requires a != "" && Trimmed(a, IsSpace) && Trimmed(a, IsSlash) && configured == "/" + (" " + ("/" + (" " + ("/" + (" " + a)))))
    ensures NormalizePrefix(NominalName(configured)) == " " + a + "/"
    ensures NormalizePrefix(NominalCandidate(configured)) == a + "/"
  {
    EndsPlain(a);
    hide NormalizePrefixName, Trimmed, IsSpace, IsSlash;
    var one := " " + a;
    var two := " " + ("/" + one);
    var three := " " + ("/" + two);
    SpaceComesOff(a, one);
    Padded(one, "/" + one, two);
    Padded(two, "/" + two, three);
    SlashComesOff(three, configured);
    SlashedAgain(two, "/" + two, three);
    SpaceAndSlashComeOff(one, "/" + one, two);
  }

  lemma ThreeSlashesExample()
    ensures NormalizePrefix(NominalName("/ / / a")) == " a/" && NormalizePrefix(NominalCandidate("/ / / a")) == "a/"
  {
    hide *;
    ExampleNames();
    ThreeSlashesAreNotReported("a", "/ / / a");
  }

  lemma ExampleNames()
    ensures Trimmed("a", IsSpace) && Trimmed("a", IsSlash) && " " + "a" + "/" == " a/" && "a" + "/" == "a/"
    ensures "/ / / a" == "/" + (" " + ("/" + (" " + ("/" + (" " + "a")))))
  {
  }

  lemma EndsPlain(a: string)
    requires a != "" && Trimmed(a, IsSpace) && Trimmed(a, IsSlash)
    ensures !IsSpace(a[|a| - 1]) && !IsSlash(a[|a| - 1])
  {
  }

  /** Two are still reported: "/ a /" is stored as " a /", and both the nominal prefix and
      the first query's are "a/". */
  lemma TwoSlashesAreReported(a: string, spaced: string, configured: string)
    requires a != "" && Trimmed(a, IsSpace) && Trimmed(a, IsSlash)
    requires spaced == " " + a + " " && configured == "/" + spaced + "/"
    ensures NormalizePrefix(configured) == spaced + "/"
    ensures NormalizePrefix(NominalCandidate(configured)) == NormalizePrefix(NominalName(configured)) == a + "/"
  {
    NormalisingTwiceDiffers(a, spaced, configured);
    StoredSpacesComeOff(a, a + " ", spaced);
    PlainNameStays(a);
    hide NormalizePrefixName;
  }

  lemma PlainNameStays(a: string)
    requires a != "" && Trimmed(a, IsSpace) && Trimmed(a, IsSlash)
    ensures NormalizePrefixName(a) == a
  {
    TrimFixpoint(a, IsSpace);
    TrimFixpoint(a, IsSlash);
  }

  lemma StoredSpacesComeOff(a: string, behind: string, spaced: string)
    requires a != "" && Trimmed(a, IsSpace) && Trimmed(a, IsSlash) && behind == a + " " && spaced == " " + a + " "
    ensures NormalizePrefixName(spaced + "/") == behind && NormalizePrefixName(behind) == a
  {
    hide NormalizePrefixName, Trimmed;
    SpaceBehindComesOff(a, behind);
    assert spaced == " " + behind;
    SpacedNameComesOff(a, behind, spaced);
  }

  lemma SpaceBehindComesOff(a: string, behind: string)
    requires a != "" && Trimmed(a, IsSpace) && Trimmed(a, IsSlash) && behind == a + " "
    ensures NormalizePrefixName(behind) == a
  {
    hide DropLeading, DropTrailing, Trim;
    assert behind == "" + a + " ";
    TrimBlock("", a, " ", IsSpace);
    TrimFixpoint(a, IsSlash);
  }

  lemma SpacedNameComesOff(a: string, behind: string, spaced: string)
    requires a != "" && Trimmed(a, IsSpace) && Trimmed(a, IsSlash) && behind == a + " " && spaced == " " + behind
    ensures NormalizePrefixName(spaced + "/") == behind
  {
    hide DropLeading, DropTrailing, Trim;
    var slashed := behind + "/";
    assert spaced + "/" == " " + slashed + "";
    assert Trimmed(slashed, IsSpace) && Trimmed(behind, IsSlash);
    TrimBlock(" ", slashed, "", IsSpace);
    assert slashed == "" + behind + "/";
    TrimBlock("", behind, "/", IsSlash);
  }
}
