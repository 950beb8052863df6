/** Resets and the cache together: the invalidation that a reset issues is aimed at the keys
    of its own credential, in both cache layers. */
module ResetFreshness {
  import opened Text
  import opened CacheKey
  import opened CacheCore
  import opened CacheSystem
  import opened CacheFreshness
  import opened ResetProtocol

  /** Which keys the invalidation of a reset matches: all of the provider codex when the
      reset names no auth index, else those with its index, whatever their kind and contents. */
  lemma ResetTargetsExactly(enabled: bool, req: ResetRequest, entry: nat, target: Target,
                            kind: Kind, provider: string, authIndex: string, rawAuth: Bytes, extra: Bytes)
    requires InvalidateCache(entry, target) in ResetTrace(enabled, req, entry)
    ensures Matches(target, NewKey(kind, provider, authIndex, rawAuth, extra)) <==>
            && ToLower(TrimSpace(provider)) == "codex"
            && (TrimSpace(req.authIndex) == "" || TrimSpace(req.authIndex) == TrimSpace(authIndex))
  {
    OneTarget(enabled, req, entry, target);
    CodexIsNormal();
    hide TrimSpace, ToLower, ResetTrace;
    MatchesExactly("codex", req.authIndex, kind, provider, authIndex, rawAuth, extra);
  }

  lemma OneTarget(enabled: bool, req: ResetRequest, entry: nat, target: Target)
    requires InvalidateCache(entry, target) in ResetTrace(enabled, req, entry)
    ensures target == NewTarget("codex", req.authIndex)
  {
    hide ChosenCredit, NewTarget, ReadsCredits;
  }

  lemma CodexIsNormal()
    ensures ToLower(TrimSpace("codex")) == "codex"
  {
    hide ToLower, DropLeading, DropTrailing, Trim;
    TrimFixpoint("codex", IsSpace);
    LowerStays("codex");
  }

  /** A reset that consumes has issued such an invalidation before. */
  lemma ConsumingResetInvalidates(enabled: bool, req: ResetRequest, entry: nat)
    requires HasCredit(enabled, req)
    ensures var trace := ResetTrace(enabled, req, entry);
            exists p, q, target, id :: 0 <= p < q < |trace| && trace[p] == InvalidateCache(entry, target) && trace[q] == Consume(entry, id)
  {
    ChoosesExactly(enabled, req);
    hide HasCredit, ChosenCredit, ReadTrace, NewTarget;
    var trace, readings := ResetTrace(enabled, req, entry), ReadTrace(enabled, req, entry);
    var n := |readings|;
    assert trace[n] == InvalidateCache(entry, NewTarget(CODEX_PROVIDER, req.authIndex));
    assert trace[n + 1] == Consume(entry, ChosenCredit(enabled, req).value);
  }

  /** What a user gets out of it: after a reset of a credential, with nothing of it loaded in
      the window, a get for a resource or native key of that credential returns only what was
      loaded and read after the consume was answered. */
  lemma GetIsFreshAfterOwnReset(s: State, i: nat, c: nat, enabled: bool, req: ResetRequest, entry: nat,
                                kind: Kind, provider: string, authIndex: string, rawAuth: Bytes, extra: Bytes)
    requires Reachable(s) && i < |s.tasks| && c < |s.consumed| && s.consumed[c].reset < |s.resets|
    requires InvalidateCache(entry, s.resets[s.consumed[c].reset].target) in ResetTrace(enabled, req, entry)
    requires s.tasks[i].key == NewKey(kind, provider, authIndex, rawAuth, extra)
    requires ToLower(TrimSpace(provider)) == "codex" && TrimSpace(authIndex) == TrimSpace(req.authIndex)
    requires s.tasks[i].phase.Returned? && s.tasks[i].phase.outcome.Ok?
    requires s.consumed[c].at < s.tasks[i].lookedUp && QuietWindow(s, c, s.tasks[i].key)
    ensures s.tasks[i].phase.outcome.value.LoadedAfter(s.consumed[c].at)
    ensures s.tasks[i].phase.outcome.value.BeganAfter(s.consumed[c].at)
  {
    hide Reachable, ResetTrace, NewKey, Matches, QuietWindow, ToLower, TrimSpace;
    ResetTargetsExactly(enabled, req, entry, s.resets[s.consumed[c].reset].target, kind, provider, authIndex, rawAuth, extra);
    GetIsFreshAfterReset(s, i, c);
  }
}
