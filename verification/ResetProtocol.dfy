/** Resetting quota: one credential's read, select, invalidate, consume-once
    sequence, and the run of it over every credential under a nominal prefix. */
module ResetProtocol {
  import opened Text
  import opened ResetCredits
  import opened CacheKey

  // ---------------------------------------------------------- one credential

  /** What the consume request brings back; an undecodable body has no content. */
  datatype ConsumeReply = TransportError | Status(code: int, body: Option<ConsumeBody>)
  datatype ConsumeBody = ConsumeBody(code: string, windowsReset: int)

  /** Everything outside this module that one reset depends on: which inputs are
      usable, and how the upstream answers. */
  datatype Upstream = Upstream(credentialsUsable: bool, baseUrlValid: bool, requestIdCreated: bool,
                               creditReads: nat -> Attempt<Payload>, consume: ConsumeReply)

  datatype ResetRequest = ResetRequest(provider: string, authIndex: string, upstream: Upstream)

  datatype ResetMessage =
    | ProviderDisabled | UnsupportedProvider | CredentialsUnavailable | InvalidBaseUrl | CreditsUnreadable
    | NoCredits | NoSelectableCredit | NoRequestId | ConsumptionUncertain | NotConfirmed | CreditConsumed

  datatype ResetResponse = ResetResponse(success: bool, message: ResetMessage)

  /** What a reset does to the outside, in order. entry tells the calls of one
      handler run apart. */
  datatype Effect =
    | ReadCredits(entry: nat)
    | InvalidateCache(entry: nat, target: Target)
    | Consume(entry: nat, creditId: string)

  predicate IsCodex(provider: string) {
    EqualFold(TrimSpace(provider), CODEX_PROVIDER)
  }

  predicate Confirmed(reply: ConsumeReply) {
    && reply.Status? && 200 <= reply.code < 300 && reply.body.Some?
    && (reply.body.value.code == "reset" || reply.body.value.windowsReset >= 1)
  }

  /** The consume request was answered with a status from 200 to 299. */
  predicate Arrived(reply: ConsumeReply) {
    reply.Status? && 200 <= reply.code <= 299
  }

  /** ... with a body that says "reset", or that at least one window was reset. */
  predicate Confirms(reply: ConsumeReply) {
    Arrived(reply) && reply.body.Some? && (reply.body.value.windowsReset > 0 || reply.body.value.code == "reset")
  }

  lemma ConfirmsExactly(reply: ConsumeReply)
    ensures Confirmed(reply) <==> Confirms(reply)
  {
  }

  /** Reading credits comes to something only for usable requests. */
  predicate ReadsCredits(enabled: bool, req: ResetRequest) {
    enabled && IsCodex(req.provider) && req.upstream.credentialsUsable && req.upstream.baseUrlValid
  }

  /** A row that can be consumed, in the terms of the response. */
  predicate IsConsumable(row: Credit) {
    && ToLower(TrimSpace(row.resetType)) == "codex_rate_limits"
    && ToLower(TrimSpace(row.status)) == "available"
    && TrimSpace(row.id) != ""
  }

  /** The response does not count less than one credit and lists one that can be consumed. */
  predicate OffersCredit(payload: Payload) {
    && (payload.availableCount.Some? ==> 1 <= payload.availableCount.value)
    && payload.credits.Some?
    && exists i | 0 <= i < |payload.credits.value| :: IsConsumable(payload.credits.value[i])
  }

  /** Everything that a reset needs before it consumes. */
  ghost predicate HasCredit(enabled: bool, req: ResetRequest) {
    && enabled && ToLower(TrimSpace(req.provider)) == "codex"
    && req.upstream.credentialsUsable && req.upstream.baseUrlValid && req.upstream.requestIdCreated
    && exists k: nat :: AnsweredAt(req.upstream.creditReads, k) && OffersCredit(req.upstream.creditReads(k).value)
  }

  /** The credit that this reset will consume: the first selectable one of the
      answered read, if that read counts at least one credit. */
  function ChosenCredit(enabled: bool, req: ResetRequest): Option<string> {
    var answer := RetryResult(req.upstream.creditReads);
    if ReadsCredits(enabled, req) && answer.Some? && CreditCount(answer.value, None) >= 1
       && FirstAvailableCreditId(answer.value) != "" && req.upstream.requestIdCreated
    then Some(FirstAvailableCreditId(answer.value)) else None
  }

  function Repeat(e: Effect, n: nat): (r: seq<Effect>)
    ensures |r| == n && forall i | 0 <= i < n :: r[i] == e
  {
    seq(n, i => e)
  }

  function ReadTrace(enabled: bool, req: ResetRequest, entry: nat): seq<Effect> {
    if ReadsCredits(enabled, req) then Repeat(ReadCredits(entry), RetryQueries(req.upstream.creditReads)) else []
  }

  /** The effects of one reset: its credit reads and, when it has chosen a credit,
      the invalidation followed by the one consume request. */
  function ResetTrace(enabled: bool, req: ResetRequest, entry: nat): seq<Effect> {
    match ChosenCredit(enabled, req)
    case None => ReadTrace(enabled, req, entry)
    case Some(id) => ReadTrace(enabled, req, entry) + ConsumeTrace(req, entry, id)
  }

  function ConsumeTrace(req: ResetRequest, entry: nat, id: string): seq<Effect> {
    [InvalidateCache(entry, NewTarget(CODEX_PROVIDER, req.authIndex)), Consume(entry, id)]
  }

  /** The outside world of a run: it records effects. */
  /** Why a reset goes no further; only the reply to the consume request is left out. */
  ghost function Obstacle(enabled: bool, req: ResetRequest): Option<ResetMessage> {
    var answer := RetryResult(req.upstream.creditReads);
    if !enabled then Some(ProviderDisabled)
    else if ToLower(TrimSpace(req.provider)) != "codex" then Some(UnsupportedProvider)
    else if !req.upstream.credentialsUsable then Some(CredentialsUnavailable)
    else if !req.upstream.baseUrlValid then Some(InvalidBaseUrl)
    else if answer.None? then Some(CreditsUnreadable)
    else if CreditCount(answer.value, None) < 1 then Some(NoCredits)
    else if forall i | 0 <= i < |answer.value.Rows()| :: !IsConsumable(answer.value.Rows()[i]) then Some(NoSelectableCredit)
    else if !req.upstream.requestIdCreated then Some(NoRequestId)
    else None
  }

  lemma SelectableIsConsumable(row: Credit)
    ensures IsSelectable(row) <==> IsConsumable(row)
    ensures IsAvailable(row) <==> ToLower(TrimSpace(row.resetType)) == "codex_rate_limits" && ToLower(TrimSpace(row.status)) == "available"
  {
    hide TrimSpace, ToLower;
    LowerStays("codex_rate_limits");
    LowerStays("available");
  }

  lemma CodexFolds(provider: string)
    ensures IsCodex(provider) <==> ToLower(TrimSpace(provider)) == "codex"
  {
    hide TrimSpace, ToLower;
    LowerStays("codex");
  }

  lemma IdIsConsumable(payload: Payload)
    ensures FirstAvailableCreditId(payload) != "" <==>
            exists i :: 0 <= i < |payload.Rows()| && IsConsumable(payload.Rows()[i])
  {
    hide IsSelectable, FirstAvailableCreditId, IsConsumable;
    FirstIdBelongsToFirstRow(payload);
    forall i | 0 <= i < |payload.Rows()|
      ensures IsSelectable(payload.Rows()[i]) <==> IsConsumable(payload.Rows()[i])
    {
      SelectableIsConsumable(payload.Rows()[i]);
    }
  }

  /** A consumable row counts, when the response gives no count of its own. */
  lemma ConsumableCounts(payload: Payload, i: nat)
    requires i < |payload.Rows()| && IsConsumable(payload.Rows()[i])
    ensures payload.availableCount.None? ==> CreditCount(payload, None) >= 1
  {
    SelectableIsConsumable(payload.Rows()[i]);
    hide IsConsumable, TrimSpace, EqualFold, IsAvailable;
    assert payload.Rows()[i] in AvailableRows(payload);
  }

  /** A reset chooses a credit exactly when there is nothing in its way. */
  lemma ChoosesExactly(enabled: bool, req: ResetRequest)
    ensures ChosenCredit(enabled, req).Some? <==> HasCredit(enabled, req)
    ensures ChosenCredit(enabled, req).Some? <==> Obstacle(enabled, req).None?
  {
    hide IsCodex, IsConsumable, FirstAvailableCreditId, RetryResult, RetryQueries, CreditCount, TrimSpace, ToLower;
    CodexFolds(req.provider);
    QueriesExactly(req.upstream.creditReads, 0);
    var answer := RetryResult(req.upstream.creditReads);
    if answer.Some? {
      IdIsConsumable(answer.value);
      if i: nat :| i < |answer.value.Rows()| && IsConsumable(answer.value.Rows()[i]) {
        ConsumableCounts(answer.value, i);
      }
      CountIsGiven(answer.value);
    }
  }

  lemma CountIsGiven(payload: Payload)
    ensures payload.availableCount.Some? ==> CreditCount(payload, None) == payload.availableCount.value
  {
  }

  /** When a reset consumes: the plugin and the provider are fit for it, one of the four
      credit reads is answered after only failures, the answer counts at least one credit
      and lists one that is available and has an ID, and a request ID could be made. */
  lemma ConsumesExactly(enabled: bool, req: ResetRequest, entry: nat)
    ensures CountConsumes(ResetTrace(enabled, req, entry), entry) == if HasCredit(enabled, req) then 1 else 0
  {
    hide CountConsumes, ResetTrace, HasCredit, ChosenCredit, RetryQueries;
    ConsumesOnceAfterReading(enabled, req, entry);
    ChoosesExactly(enabled, req);
  }

  class Recorder {
    var trace: seq<Effect>

    constructor ()
      ensures trace == []
    {
      trace := [];
    }

    /** ResetQuota, split where it starts to change things. */
    method ResetQuota(enabled: bool, req: ResetRequest, entry: nat) returns (resp: ResetResponse)
      modifies this
      ensures trace == old(trace) + ResetTrace(enabled, req, entry)
      ensures resp.success <==> ChosenCredit(enabled, req).Some? && Confirmed(req.upstream.consume)
      ensures resp.success <==> HasCredit(enabled, req) && Confirms(req.upstream.consume)
      ensures resp.message == match Obstacle(enabled, req)
                              case Some(m) => m
                              case None => if resp.success then CreditConsumed
                                           else if Arrived(req.upstream.consume) then NotConfirmed else ConsumptionUncertain
    {
      hide ReadTrace, ConsumeTrace, ChosenCredit, Confirmed, HasCredit, Obstacle, Confirms, Arrived;
      ChoosesExactly(enabled, req);
      ConfirmsExactly(req.upstream.consume);
      var chosen, message := SelectCredit(enabled, req, entry);
      if chosen.None? {
        return ResetResponse(false, message);
      }
      resp := ConsumeCredit(req, entry, chosen.value);
    }

    /** Everything before the mutation. */
    method SelectCredit(enabled: bool, req: ResetRequest, entry: nat) returns (chosen: Option<string>, message: ResetMessage)
      modifies this
      ensures trace == old(trace) + ReadTrace(enabled, req, entry)
      ensures chosen == ChosenCredit(enabled, req)
      ensures Obstacle(enabled, req).Some? ==> message == Obstacle(enabled, req).value
    {
      hide IsCodex, FirstAvailableCreditId, AvailableRows, CreditCount, RetryQueries, RetryResult, Repeat, IsConsumable;
      hide TrimSpace, ToLower;
      CodexFolds(req.provider);
      chosen := None;
      if !enabled {
        return None, ProviderDisabled;
      }
      if !IsCodex(req.provider) {
        return None, UnsupportedProvider;
      }
      if !req.upstream.credentialsUsable {
        return None, CredentialsUnavailable;
      }
      if !req.upstream.baseUrlValid {
        return None, InvalidBaseUrl;
      }
      var answer, queries := RetryQuotaRead(req.upstream.creditReads);
      trace := trace + Repeat(ReadCredits(entry), queries);
      if answer.None? {
        return None, CreditsUnreadable;
      }
      var credits := ParseResetCredits(answer.value, None);
      if credits.availableCount < 1 {
        return None, NoCredits;
      }
      var creditId := FirstAvailableCreditId(answer.value);
      IdIsConsumable(answer.value);
      if creditId == "" {
        return None, NoSelectableCredit;
      }
      if !req.upstream.requestIdCreated {
        return None, NoRequestId;
      }
      return Some(creditId), NotConfirmed;
    }

    /** The invalidation and the one mutating request, never repeated. */
    method ConsumeCredit(req: ResetRequest, entry: nat, creditId: string) returns (resp: ResetResponse)
      modifies this
      ensures trace == old(trace) + ConsumeTrace(req, entry, creditId)
      ensures resp.success <==> Confirmed(req.upstream.consume)
      ensures resp.message == if resp.success then CreditConsumed
                              else if Arrived(req.upstream.consume) then NotConfirmed else ConsumptionUncertain
    {
      hide NewTarget;
      trace := trace + [InvalidateCache(entry, NewTarget(CODEX_PROVIDER, req.authIndex))];
      trace := trace + [Consume(entry, creditId)];
      var reply := req.upstream.consume;
      if reply.TransportError? || reply.code < 200 || reply.code >= 300 {
        return ResetResponse(false, ConsumptionUncertain);
      }
      if reply.body.None? || (reply.body.value.code != "reset" && reply.body.value.windowsReset < 1) {
        return ResetResponse(false, NotConfirmed);
      }
      resp := ResetResponse(true, CreditConsumed);
    }
  }

  function CountConsumes(trace: seq<Effect>, entry: nat): nat {
    if trace == [] then 0 else
    CountConsumes(trace[..|trace| - 1], entry) + if trace[|trace| - 1].Consume? && trace[|trace| - 1].entry == entry then 1 else 0
  }

  lemma {:induction false} CountConcat(a: seq<Effect>, b: seq<Effect>, entry: nat)
    ensures CountConsumes(a + b, entry) == CountConsumes(a, entry) + CountConsumes(b, entry)
  {
    if b == [] {
      assert a + b == a;
    } else {
      assert (a + b)[..|a + b| - 1] == a + b[..|b| - 1];
      CountConcat(a, b[..|b| - 1], entry);
    }
  }

  lemma {:induction false} CountNone(trace: seq<Effect>, entry: nat)
    requires forall i | 0 <= i < |trace| :: !(trace[i].Consume? && trace[i].entry == entry)
    ensures CountConsumes(trace, entry) == 0
  {
    if trace != [] {
      CountNone(trace[..|trace| - 1], entry);
    }
  }

  /** What every reset does, whatever comes of it: its credit reads, as many as the read of
      the credits sends if the request is fit for one, and after them nothing, or the
      invalidation and the consume request. */
  lemma ReadsExactly(enabled: bool, req: ResetRequest, entry: nat, n: nat)
    requires n == if enabled && ToLower(TrimSpace(req.provider)) == "codex" && req.upstream.credentialsUsable && req.upstream.baseUrlValid
                  then RetryQueries(req.upstream.creditReads) else 0
    ensures var trace := ResetTrace(enabled, req, entry);
            && |trace| == n + (if HasCredit(enabled, req) then 2 else 0)
            && (forall i | 0 <= i < n :: trace[i] == ReadCredits(entry))
            && (forall i | n <= i < |trace| :: !trace[i].ReadCredits?)
  {
    CodexFolds(req.provider);
    ChoosesExactly(enabled, req);
    hide HasCredit, IsCodex, NewTarget, RetryQueries, RetryResult, CreditCount, FirstAvailableCreditId, TrimSpace, ToLower;
  }

  /** A reset consumes at most once. If it does: between one and four credit reads
      come first, the last of them answered with a count of at least one; the
      matching invalidation comes next; and the consumed credit is the first
      selectable row of that very answer. */
  lemma ConsumesOnceAfterReading(enabled: bool, req: ResetRequest, entry: nat)
    ensures var trace := ResetTrace(enabled, req, entry);
            var n := RetryQueries(req.upstream.creditReads);
            && CountConsumes(trace, entry) == (if ChosenCredit(enabled, req).Some? then 1 else 0)
            && (ChosenCredit(enabled, req).Some? ==>
                  && 1 <= n <= RETRY_COUNT + 1 && |trace| == n + 2
                  && (forall i | 0 <= i < n :: trace[i] == ReadCredits(entry))
                  && trace[n] == InvalidateCache(entry, NewTarget(CODEX_PROVIDER, req.authIndex))
                  && req.upstream.creditReads(n - 1).Answered?
                  && (var payload := req.upstream.creditReads(n - 1).value;
                      && CreditCount(payload, None) >= 1
                      && FirstIndex(payload.Rows(), IsSelectable).Some?
                      && trace[n + 1] == Consume(entry, TrimSpace(payload.Rows()[FirstIndex(payload.Rows(), IsSelectable).value].id))))
  {
    hide IsCodex, AvailableRows, NewTarget, IsSelectable, CreditCount, TrimSpace, FirstIndex;
    var n := RetryQueries(req.upstream.creditReads);
    CountNone(Repeat(ReadCredits(entry), n), entry);
    match ChosenCredit(enabled, req)
    case None =>
    case Some(id) =>
      var tail := [InvalidateCache(entry, NewTarget(CODEX_PROVIDER, req.authIndex)), Consume(entry, id)];
      CountConcat(Repeat(ReadCredits(entry), n), tail, entry);
      assert tail[..1] == [InvalidateCache(entry, NewTarget(CODEX_PROVIDER, req.authIndex))];
      CountNone(tail[..1], entry);
  }
}
