/** The public reset resource: one reset for every listed Codex credential under
    the caller's nominal prefix, and the report on all of them. */
module ResetHandler {
  import opened Text
  import opened Prefixes
  import opened ResetCredits
  import opened CacheKey
  import opened ResetProtocol

  datatype Material = Material(prefix: string, email: string)

  /** A listed auth file; material is None when its contents cannot be read. */
  datatype Credential = Credential(disabled: bool, unavailable: bool, provider: string, authIndex: string, email: string,
                                   material: Option<Material>, upstream: Upstream)

  predicate Eligible(c: Credential) {
    !c.disabled && !c.unavailable && IsCodex(c.provider)
  }

  predicate Readable(c: Credential): (r: bool)
    ensures r ==> c.material.Some?
  {
    TrimSpace(c.authIndex) != "" && c.material.Some?
  }

  predicate Matched(nominal: string, c: Credential) {
    Eligible(c) && Readable(c) && NormalizePrefixName(c.material.value.prefix) == NormalizePrefixName(nominal)
  }

  function Account(c: Credential): string
    requires Readable(c)
  {
    if TrimSpace(c.email) != "" then TrimSpace(c.email) else TrimSpace(c.material.value.email)
  }

  function Request(c: Credential): ResetRequest {
    ResetRequest(CODEX_PROVIDER, c.authIndex, c.upstream)
  }

  predicate Succeeds(enabled: bool, c: Credential) {
    ChosenCredit(enabled, Request(c)).Some? && Confirmed(c.upstream.consume)
  }

  /** What a handler run makes of one entry. Ignored covers entries that are not
      eligible and entries under other prefixes. */
  datatype Verdict =
    | Ignored
    | Uninspectable
    | Unlabelled
    | Reset(account: string, success: bool, effects: seq<Effect>)

  function EffectsOf(v: Verdict): seq<Effect> {
    if v.Reset? then v.effects else []
  }

  function Judge(enabled: bool, nominal: string, c: Credential, entry: nat): Verdict {
    if !Eligible(c) then Ignored
    else if !Readable(c) then Uninspectable
    else if !Matched(nominal, c) then Ignored
    else if Account(c) == "" then Unlabelled
    else Reset(Account(c), Succeeds(enabled, c), ResetTrace(enabled, Request(c), entry))
  }

  function Judgements(enabled: bool, nominal: string, files: seq<Credential>): (vs: seq<Verdict>)
    ensures |vs| == |files| && forall i | 0 <= i < |files| :: vs[i] == Judge(enabled, nominal, files[i], i)
  {
    seq(|files|, i requires 0 <= i < |files| => Judge(enabled, nominal, files[i], i))
  }

  /** The running totals of a handler run. */
  datatype Tally = Tally(matched: nat, succeeded: nat, failed: nat, unresolved: nat,
                         accounts: map<string, bool>, trace: seq<Effect>)

  /** Reports are keyed by account; a taken key gets the match number appended. */
  function AccountKey(accounts: map<string, bool>, account: string, matched: nat): string {
    if account in accounts then account + "#" + Itoa(matched) else account
  }

  function AddVerdict(t: Tally, v: Verdict): Tally {
    match v
    case Ignored => t
    case Uninspectable => t.(unresolved := t.unresolved + 1)
    case Unlabelled => t.(matched := t.matched + 1, failed := t.failed + 1)
    case Reset(account, ok, effects) =>
      Tally(t.matched + 1, t.succeeded + (if ok then 1 else 0), t.failed + (if ok then 0 else 1), t.unresolved,
            t.accounts[AccountKey(t.accounts, account, t.matched + 1) := ok], t.trace + effects)
  }

  function Total(vs: seq<Verdict>): Tally {
    if vs == [] then Tally(0, 0, 0, 0, map[], []) else AddVerdict(Total(vs[..|vs| - 1]), vs[|vs| - 1])
  }

  datatype Response =
    | Unresolvable   // nothing matched, but some credential could not be inspected
    | NoMatch
    | Report(accounts: map<string, bool>, success: bool, partial: bool)

  predicate ReportsSuccess(t: Tally) {
    t.failed == 0 && t.unresolved == 0 && |t.accounts| == t.matched
  }

  predicate ReportsPartial(t: Tally) {
    t.succeeded > 0 && (t.failed > 0 || t.unresolved > 0)
  }

  method HandleReset(recorder: Recorder, enabled: bool, nominal: string, files: seq<Credential>) returns (response: Response)
    modifies recorder
    ensures var t := Total(Judgements(enabled, nominal, files));
            && recorder.trace == old(recorder.trace) + t.trace
            && response == if 0 < t.matched then Report(t.accounts, ReportsSuccess(t), ReportsPartial(t))
                           else if 0 < t.unresolved then Unresolvable
                           else NoMatch
  {
    hide Eligible, Readable, Account, IsCodex, Succeeds, ResetTrace, NormalizePrefixName, AccountKey, Request;
    ghost var vs := Judgements(enabled, nominal, files);
    var accounts: map<string, bool> := map[];
    var matched, succeeded, failed, unresolved := 0, 0, 0, 0;
    ghost var trace := [];
    for i := 0 to |files|
      invariant Total(vs[..i]) == Tally(matched, succeeded, failed, unresolved, accounts, trace)
      invariant recorder.trace == old(recorder.trace) + trace
    {
      var entry := files[i];
      assert vs[..i + 1][..i] == vs[..i];
      if !Eligible(entry) {
        continue;
      }
      if !Readable(entry) {
        unresolved := unresolved + 1;
        continue;
      }
      if NormalizePrefixName(entry.material.value.prefix) != NormalizePrefixName(nominal) {
        continue;
      }
      matched := matched + 1;
      var account := Account(entry);
      if account == "" {
        failed := failed + 1;
        continue;
      }
      var accountKey := AccountKey(accounts, account, matched);
      var reset := ResetEntry(recorder, enabled, entry, i);
      trace := trace + ResetTrace(enabled, Request(entry), i);
      accounts := accounts[accountKey := reset];
      if reset {
        succeeded := succeeded + 1;
      } else {
        failed := failed + 1;
      }
    }
    assert vs[..|files|] == vs;
    if matched == 0 {
      return if unresolved > 0 then Unresolvable else NoMatch;
    }
    response := Report(accounts, failed == 0 && unresolved == 0 && |accounts| == matched,
                       succeeded > 0 && (failed > 0 || unresolved > 0));
  }

  method ResetEntry(recorder: Recorder, enabled: bool, c: Credential, entry: nat) returns (success: bool)
    modifies recorder
    ensures recorder.trace == old(recorder.trace) + ResetTrace(enabled, Request(c), entry)
    ensures success == Succeeds(enabled, c)
  {
    hide ResetTrace, ChosenCredit, Confirmed;
    var resp := recorder.ResetQuota(enabled, Request(c), entry);
    success := resp.success;
  }

  // ----------------------------------------------------------------- theorems

  /** What the run makes of every listed file, in the terms of the file. */
  lemma VerdictExactly(enabled: bool, nominal: string, c: Credential, entry: nat)
    ensures var v := Judge(enabled, nominal, c, entry);
            var available := !c.disabled && !c.unavailable && ToLower(TrimSpace(c.provider)) == "codex";
            if !available then v == Ignored
            else if TrimSpace(c.authIndex) == "" || c.material.None? then v == Uninspectable
            else if NormalizePrefixName(c.material.value.prefix) != NormalizePrefixName(nominal) then v == Ignored
            else if TrimSpace(c.email) == "" && TrimSpace(c.material.value.email) == "" then v == Unlabelled
            else
              && v.Reset?
              && v.account == TrimSpace(if TrimSpace(c.email) == "" then c.material.value.email else c.email)
              && (v.success <==> HasCredit(enabled, ResetRequest("codex", c.authIndex, c.upstream)) && Confirms(c.upstream.consume))
              && v.effects == ResetTrace(enabled, ResetRequest("codex", c.authIndex, c.upstream), entry)
  {
    hide TrimSpace, NormalizePrefixName, IsCodex, ChosenCredit, HasCredit, Confirmed, Confirms, ResetTrace, ToLower;
    CodexFolds(c.provider);
    ChoosesExactly(enabled, Request(c));
    ConfirmsExactly(c.upstream.consume);
  }

  /** A credential that this run resets: readable, under the nominal prefix, with
      an account to report under and a credit to choose. */
  predicate Consumes(enabled: bool, nominal: string, c: Credential) {
    Matched(nominal, c) && Account(c) != "" && ChosenCredit(enabled, Request(c)).Some?
  }

  lemma EffectsOfOneEntry(enabled: bool, nominal: string, c: Credential, entry: nat, i: nat)
    ensures CountConsumes(EffectsOf(Judge(enabled, nominal, c, entry)), i)
         == if i == entry && Consumes(enabled, nominal, c) then 1 else 0
  {
    hide IsCodex, ChosenCredit, Account, NormalizePrefixName, Succeeds, Request, TrimSpace, ResetTrace;
    ConsumesOnceAfterReading(enabled, Request(c), entry);
    if i != entry {
      OtherEntriesUntouched(enabled, Request(c), entry, i);
    }
  }

  lemma OtherEntriesUntouched(enabled: bool, req: ResetRequest, entry: nat, other: nat)
    requires other != entry
    ensures CountConsumes(ResetTrace(enabled, req, entry), other) == 0
  {
    hide IsCodex, RetryQueries, NewTarget, ChosenCredit, CountConsumes, Repeat;
    CountNone(ResetTrace(enabled, req, entry), other);
  }

  lemma TraceGrows(vs: seq<Verdict>)
    requires vs != []
    ensures Total(vs).trace == Total(vs[..|vs| - 1]).trace + EffectsOf(vs[|vs| - 1])
  {
    hide AccountKey;
  }

  lemma {:induction false} ConsumesAddUp(vs: seq<Verdict>, i: nat, expected: nat -> nat)
    requires forall k | 0 <= k < |vs| :: CountConsumes(EffectsOf(vs[k]), i) == if k == i then expected(k) else 0
    ensures CountConsumes(Total(vs).trace, i) == if i < |vs| then expected(i) else 0
  {
    hide AccountKey, EffectsOf, CountConsumes;
    if vs == [] {
      CountNone([], i);
    } else {
      var n := |vs| - 1;
      ConsumesAddUp(vs[..n], i, expected);
      TraceGrows(vs);
      hide Total;
      CountConcat(Total(vs[..n]).trace, EffectsOf(vs[n]), i);
    }
  }

  /** A file under the nominal prefix that can be reset and reported, in its own terms. */
  predicate IsToBeReset(nominal: string, c: Credential) {
    && !c.disabled && !c.unavailable && ToLower(TrimSpace(c.provider)) == "codex"
    && TrimSpace(c.authIndex) != "" && c.material.Some?
    && NormalizePrefixName(c.material.value.prefix) == NormalizePrefixName(nominal)
    && (TrimSpace(c.email) != "" || TrimSpace(c.material.value.email) != "")
  }

  lemma ConsumesWhenToBeReset(enabled: bool, nominal: string, c: Credential)
    ensures Consumes(enabled, nominal, c) <==>
            IsToBeReset(nominal, c) && HasCredit(enabled, ResetRequest("codex", c.authIndex, c.upstream))
  {
    hide TrimSpace, NormalizePrefixName, IsCodex, ChosenCredit, HasCredit, ToLower;
    CodexFolds(c.provider);
    ChoosesExactly(enabled, Request(c));
  }

  /** Over a whole run, each listed credential causes exactly one consume request
      if it is to be reset and none otherwise: none for credentials of other
      prefixes, for unreadable ones, or for entries that are not listed. */
  lemma EachCredentialConsumesAtMostOnce(enabled: bool, nominal: string, files: seq<Credential>, i: nat)
    ensures CountConsumes(Total(Judgements(enabled, nominal, files)).trace, i)
         == if i < |files| && Consumes(enabled, nominal, files[i]) then 1 else 0
    ensures CountConsumes(Total(Judgements(enabled, nominal, files)).trace, i) == 1 <==>
            i < |files| && IsToBeReset(nominal, files[i]) && HasCredit(enabled, ResetRequest("codex", files[i].authIndex, files[i].upstream))
  {
    if i < |files| {
      ConsumesWhenToBeReset(enabled, nominal, files[i]);
    }
    hide Consumes, Judge, Total, IsToBeReset, HasCredit;
    var expected := (k: nat) => if k < |files| && Consumes(enabled, nominal, files[k]) then 1 as nat else 0;
    forall k | 0 <= k < |files| {
      EffectsOfOneEntry(enabled, nominal, files[k], k, i);
    }
    ConsumesAddUp(Judgements(enabled, nominal, files), i, expected);
  }

  /** Every matched credential either succeeded or failed. */
  lemma {:induction false} MatchedIsSucceededPlusFailed(vs: seq<Verdict>)
    ensures Total(vs).succeeded + Total(vs).failed == Total(vs).matched && |Total(vs).accounts| <= Total(vs).matched
  {
    hide AccountKey;
    if vs != [] {
      MatchedIsSucceededPlusFailed(vs[..|vs| - 1]);
    }
  }

  predicate IsMatch(v: Verdict) { v.Reset? || v.Unlabelled? }

  predicate IsSuccess(v: Verdict) { v.Reset? && v.success }

  predicate IsUninspectable(v: Verdict) { v.Uninspectable? }

  /** The counts of a run are the numbers of its verdicts. */
  lemma {:induction false} CountsExactly(vs: seq<Verdict>)
    ensures Total(vs).matched == |Select(vs, IsMatch)|
    ensures Total(vs).succeeded == |Select(vs, IsSuccess)|
    ensures Total(vs).unresolved == |Select(vs, IsUninspectable)|
  {
    hide AccountKey;
    if vs != [] {
      CountsExactly(vs[..|vs| - 1]);
    }
  }

  /** Each reset is reported under its account, or under the account with the number of the
      match behind it when that is taken; nothing else is. */
  lemma OneMoreIsReported(vs: seq<Verdict>, v: Verdict)
    ensures var prior, after := Total(vs).accounts, Total(vs + [v]);
            after.accounts == if !v.Reset? then prior
                              else if v.account in prior then prior[v.account + "#" + Itoa(after.matched) := v.success]
                              else prior[v.account := v.success]
  {
    hide Itoa;
    assert (vs + [v])[..|vs|] == vs;
  }

  predicate IsTrouble(v: Verdict) { v.Unlabelled? || v.Uninspectable? || (v.Reset? && !v.success) }

  lemma {:induction false} TroubleExactly(vs: seq<Verdict>)
    ensures Total(vs).failed + Total(vs).unresolved == |Select(vs, IsTrouble)|
  {
    hide AccountKey;
    if vs != [] {
      TroubleExactly(vs[..|vs| - 1]);
    }
  }

  lemma SelectedExist(vs: seq<Verdict>, test: Verdict -> bool)
    ensures |Select(vs, test)| > 0 <==> exists v :: v in vs && test(v)
  {
    var r := Select(vs, test);
    assert r != [] ==> r[0] in r;
  }

  /** A run is partial exactly when something was reset and something was not, be it that its
      reset failed, that it had no account, or that it could not be inspected. */
  lemma PartialExactly(vs: seq<Verdict>)
    ensures ReportsPartial(Total(vs)) <==>
              && (exists v :: v in vs && v.Reset? && v.success)
              && (exists v :: v in vs && (v.Unlabelled? || v.Uninspectable? || (v.Reset? && !v.success)))
  {
    CountsExactly(vs);
    TroubleExactly(vs);
    SelectedExist(vs, IsSuccess);
    SelectedExist(vs, IsTrouble);
    hide Total, Select;
  }

  /** The key that entry i is reported under is already in the report. */
  predicate Collides(vs: seq<Verdict>, i: nat)
    requires i < |vs| && vs[i].Reset?
  {
    var t := Total(vs[..i]);
    AccountKey(t.accounts, vs[i].account, t.matched + 1) in t.accounts
  }

  /** Entry i leaves nothing to object to. */
  predicate Fine(vs: seq<Verdict>, i: nat)
    requires i < |vs|
  {
    vs[i].Ignored? || (vs[i].Reset? && vs[i].success && !Collides(vs, i))
  }

  /** Success is reported exactly when every eligible credential was readable,
      every matched one had an account and was reset, and no report overwrote
      another. */
  lemma {:induction false} SuccessMeansAllFine(vs: seq<Verdict>)
    ensures ReportsSuccess(Total(vs)) <==> forall i | 0 <= i < |vs| :: Fine(vs, i)
  {
    hide AccountKey;
    if vs != [] {
      var n := |vs| - 1;
      var prior := vs[..n];
      SuccessMeansAllFine(prior);
      MatchedIsSucceededPlusFailed(prior);
      forall i | 0 <= i < n
        ensures Fine(vs, i) <==> Fine(prior, i)
      {
        assert vs[..i] == prior[..i];
      }
      assert (forall i | 0 <= i < |vs| :: Fine(vs, i)) <==> (forall i | 0 <= i < n :: Fine(prior, i)) && Fine(vs, n);
    }
  }

  /** In terms of the listed credentials. */
  lemma SuccessOfARun(enabled: bool, nominal: string, files: seq<Credential>)
    ensures var vs := Judgements(enabled, nominal, files);
            ReportsSuccess(Total(vs)) <==>
              forall i | 0 <= i < |files| && Eligible(files[i]) ::
                && Readable(files[i])
                && (Matched(nominal, files[i]) ==>
                      Account(files[i]) != "" && Succeeds(enabled, files[i]) && !Collides(vs, i))
  {
    hide Readable, Account, Succeeds, IsCodex, Collides, Total, ReportsSuccess, ResetTrace, NormalizePrefixName;
    var vs := Judgements(enabled, nominal, files);
    SuccessMeansAllFine(vs);
    forall i | 0 <= i < |files|
      ensures Fine(vs, i) <==>
              (Eligible(files[i]) ==>
                 && Readable(files[i])
                 && (Matched(nominal, files[i]) ==>
                       Account(files[i]) != "" && Succeeds(enabled, files[i]) && !Collides(vs, i)))
    {
    }
  }

  /** A partial report is never a success. A report that is neither, though
      credentials matched, had no success at all or lost one to a collision. */
  lemma PartialExcludesSuccess(vs: seq<Verdict>)
    ensures !(ReportsSuccess(Total(vs)) && ReportsPartial(Total(vs)))
    ensures ReportsSuccess(Total(vs)) ==> Total(vs).succeeded == Total(vs).matched
    ensures !ReportsSuccess(Total(vs)) && !ReportsPartial(Total(vs)) ==>
              Total(vs).succeeded == 0 || |Total(vs).accounts| < Total(vs).matched
  {
    MatchedIsSucceededPlusFailed(vs);
  }

  lemma VerdictsCollide(x: string, e0: seq<Effect>, e1: seq<Effect>, e2: seq<Effect>)
    ensures var t := Total([Reset(x + "#" + Itoa(3), true, e0), Reset(x, true, e1), Reset(x, true, e2)]);
            t.matched == t.succeeded == 3 && t.failed == t.unresolved == 0 && !ReportsSuccess(t)
  {
    hide Itoa;
    var numbered := x + "#" + Itoa(3);
    assert |numbered| > |x|;
    var v0, v1, v2 := Reset(numbered, true, e0), Reset(x, true, e1), Reset(x, true, e2);
    assert [v0, v1, v2][..2] == [v0, v1] && [v0, v1][..1] == [v0] && [v0][..0] == [];
    assert Total([v0]) == Tally(1, 1, 0, 0, map[numbered := true], [] + e0);
    assert Total([v0, v1]) == Tally(2, 2, 0, 0, map[numbered := true, x := true], [] + e0 + e1);
    assert Total([v0, v1, v2]).accounts == map[numbered := true, x := true];
  }

  /** A credential that is reset and confirmed. */
  predicate Resets(enabled: bool, nominal: string, c: Credential) {
    Matched(nominal, c) && Account(c) != "" && Succeeds(enabled, c)
  }

  /** A collision is reachable: when the credentials of the accounts x#3, x and x are all
      reset and confirmed, the report still says that it was not a success. */
  lemma KeyCollisionDefeatsSuccess(enabled: bool, nominal: string, x: string, c0: Credential, c1: Credential, c2: Credential)
    requires Resets(enabled, nominal, c0) && Resets(enabled, nominal, c1) && Resets(enabled, nominal, c2)
    requires Account(c0) == x + "#" + Itoa(3) && Account(c1) == Account(c2) == x
    ensures var t := Total(Judgements(enabled, nominal, [c0, c1, c2]));
            t.matched == t.succeeded == 3 && t.failed == t.unresolved == 0 && !ReportsSuccess(t)
  {
    hide IsCodex, Readable, NormalizePrefixName, Account, Succeeds, ResetTrace, Total, ReportsSuccess, Itoa;
    var vs := Judgements(enabled, nominal, [c0, c1, c2]);
    assert vs == [Reset(x + "#" + Itoa(3), true, vs[0].effects), Reset(x, true, vs[1].effects), Reset(x, true, vs[2].effects)];
    VerdictsCollide(x, vs[0].effects, vs[1].effects, vs[2].effects);
  }

  // Credentials that meet this: files under the nominal prefix, the email of one of them with
  // "#3" appended, each with one available credit and an upstream that confirms.

  const CREDIT := Credit("c", "codex_rate_limits", "available", Null)
  const ONE_CREDIT := Payload(Some(1), Some([CREDIT]))
  const CONFIRMING := Upstream(true, true, true, (k: nat) => Answered(ONE_CREDIT), Status(200, Some(ConsumeBody("reset", 1))))

  function FileOf(nominal: string, email: string): Credential {
    Credential(false, false, CODEX_PROVIDER, "1", email, Some(Material(nominal, email)), CONFIRMING)
  }

  lemma Unspaced(s: string)
    requires s != "" && !IsSpace(s[0]) && !IsSpace(s[|s| - 1])
    ensures TrimSpace(s) == s
  {
    TrimFixpoint(s, IsSpace);
  }

  lemma CreditIsSelectable()
    ensures IsSelectable(CREDIT) && TrimSpace(CREDIT.id) == "c"
  {
    hide DropLeading, DropTrailing, Trim, ToLower;
    TrimFixpoint("c", IsSpace);
    TrimFixpoint("codex_rate_limits", IsSpace);
    TrimFixpoint("available", IsSpace);
  }

  lemma OneCreditIsSelected()
    ensures FirstAvailableCreditId(ONE_CREDIT) == "c"
  {
    CreditIsSelectable();
    FirstIdBelongsToFirstRow(ONE_CREDIT);
    hide TrimSpace, IsSelectable, FirstAvailableCreditId;
    assert ONE_CREDIT.Rows() == [CREDIT];
    assert IsFirstSelectable(ONE_CREDIT.Rows(), 0);
  }

  lemma ConfirmingAnswers()
    ensures RetryResult(CONFIRMING.creditReads) == Some(ONE_CREDIT)
  {
  }

  lemma FileIsReset(nominal: string, email: string)
    requires email != "" && TrimSpace(email) == email
    ensures Resets(true, nominal, FileOf(nominal, email)) && Account(FileOf(nominal, email)) == email
  {
    hide NormalizePrefixName, FirstAvailableCreditId, RetryResult, DropLeading, DropTrailing, Trim, ToLower;
    TrimFixpoint(CODEX_PROVIDER, IsSpace);
    TrimFixpoint("1", IsSpace);
    assert TrimSpace(CODEX_PROVIDER) == CODEX_PROVIDER && TrimSpace("1") == "1";
    hide TrimSpace, Trimmed;
    OneCreditIsSelected();
    ConfirmingAnswers();
    var file := FileOf(nominal, email);
    assert IsCodex(CODEX_PROVIDER) && Readable(file);
    assert ChosenCredit(true, Request(file)) == Some("c");
    assert Confirmed(CONFIRMING.consume);
  }

  lemma ItoaIsUnspaced(n: nat)
    ensures Itoa(n) != "" && !IsSpace(Itoa(n)[|Itoa(n)| - 1])
  {
    var digit := (n % 10) as char + '0';
    assert '0' <= digit <= '9';
    assert Itoa(n)[|Itoa(n)| - 1] == digit;
  }

  lemma NumberedIsUnspaced(email: string, number: string, numbered: string)
    requires email != "" && TrimSpace(email) == email
    requires number != "" && !IsSpace(number[|number| - 1]) && numbered == email + "#" + number
    ensures numbered != "" && TrimSpace(numbered) == numbered
  {
    TrimFixpoint(email, IsSpace);
    assert numbered[0] == email[0] && numbered[|numbered| - 1] == number[|number| - 1];
    hide Trim, TrimSpace, DropLeading, DropTrailing;
    Unspaced(numbered);
  }

  /** For every nominal prefix and every email, files of email#3, email and email are all
      reset, and the report is not a success. */
  lemma CollisionExample(nominal: string, email: string, numbered: string)
    requires email != "" && TrimSpace(email) == email && numbered == email + "#" + Itoa(3)
    ensures var files := [FileOf(nominal, numbered), FileOf(nominal, email), FileOf(nominal, email)];
            var t := Total(Judgements(true, nominal, files));
            t.matched == t.succeeded == 3 && t.failed == t.unresolved == 0 && !ReportsSuccess(t)
  {
    hide *;
    ItoaIsUnspaced(3);
    NumberedIsUnspaced(email, Itoa(3), numbered);
    FileIsReset(nominal, numbered);
    FileIsReset(nominal, email);
    KeyCollisionDefeatsSuccess(true, nominal, email, FileOf(nominal, numbered), FileOf(nominal, email), FileOf(nominal, email));
  }
}
