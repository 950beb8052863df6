/** Executing a request over the target list: one-shot execution and streaming,
    which may change models only before anything was forwarded downstream. */
module FallbackExecution {
  import opened Text
  import opened FallbackTargets

  /** An error: its text, the HTTP status if it carries one, and the error code
      that its text holds as JSON, "" if none. */
  datatype Error = Error(message: string, status: Option<int>, code: string)

  predicate IsCodexQuotaExhausted(e: Error) {
    Contains(ToLower(e.message), "usage_limit_reached")
  }

  predicate IsModelCooldown(e: Error) {
    (e.status.Some? ==> e.status.value == 429) && e.code == "model_cooldown"
  }

  predicate ShouldRetry(config: FallbackConfig, e: Error) {
    IsCodexQuotaExhausted(e) || IsModelCooldown(e) || config.fallbackOnOtherErrors
  }

  // ----------------------------------------------------------- one-shot execution

  datatype Result = Ok(body: string) | Err(error: Error)

  /** What trying one model comes to before its status is looked at. */
  datatype Reply = CallError(error: Error) | Response(status: int, body: string, bodyCode: string)

  function ModelResult(reply: Reply): Result {
    match reply
    case CallError(e) => Err(e)
    case Response(status, body, code) =>
      if status >= 400 then Err(Error(StatusMessage(status, TrimSpace(body)), Some(status), code)) else Ok(body)
  }

  function StatusMessage(status: nat, message: string): string {
    if message != "" then message else "request failed with status " + Itoa(status)
  }

  /** An attempt that hands over to the next model: it failed, retryably. */
  predicate HandsOver(config: FallbackConfig, reply: Reply) {
    ModelResult(reply).Err? && ShouldRetry(config, ModelResult(reply).error)
  }

  /** An error after which another model is tried: the text says that the usage limit is
      reached, or its code that the model cools down and no other status than 429 came with
      it, or the configuration asks for it after any error. */
  predicate InvitesFallback(config: FallbackConfig, e: Error) {
    || config.fallbackOnOtherErrors
    || Contains(ToLower(e.message), "usage_limit_reached")
    || (e.code == "model_cooldown" && (e.status == None || e.status == Some(429)))
  }

  lemma RetriesExactlyInvited(config: FallbackConfig, e: Error)
    ensures ShouldRetry(config, e) <==> InvitesFallback(config, e)
  {
    hide Contains, ToLower;
  }

  /** What the reply of one model comes to: success is a response with a status below 400. */
  predicate IsResult(reply: Reply, result: Result) {
    match reply
    case CallError(e) => result == Err(e)
    case Response(status, body, code) =>
      if status < 400 then result == Ok(body)
      else
        && result.Err? && result.error.status == Some(status) && result.error.code == code
        && (if TrimSpace(body) == "" then result.error.message == "request failed with status " + Itoa(status)
            else result.error.message == TrimSpace(body))
  }

  lemma ResultIs(reply: Reply)
    ensures IsResult(reply, ModelResult(reply))
  {
    hide TrimSpace, Itoa;
  }

  /** The attempt is not the end: it failed, and its error invites another. */
  ghost predicate LeadsOn(config: FallbackConfig, reply: Reply) {
    exists e :: IsResult(reply, Err(e)) && InvitesFallback(config, e)
  }

  lemma HandsOverExactly(config: FallbackConfig, reply: Reply)
    ensures HandsOver(config, reply) <==> LeadsOn(config, reply)
  {
    ResultIs(reply);
    var r := ModelResult(reply);
    if r.Err? {
      RetriesExactlyInvited(config, r.error);
    }
    ResultsAgree(reply, r);
    hide IsResult, InvitesFallback, ModelResult, ShouldRetry;
  }

  lemma ResultsAgree(reply: Reply, result: Result)
    requires IsResult(reply, result)
    ensures forall other | IsResult(reply, other) :: other == result
  {
    hide TrimSpace, Itoa;
  }

  /** Execute: the models tried are a prefix of the list; every one but the last
      failed retryably; the last one's result is the result; and the loop stops
      early only on success or on an error that is not retryable. Running off the
      end of the list does not happen. */
  method Execute(config: FallbackConfig, targets: seq<string>, replies: seq<Reply>) returns (result: Result, tried: nat)
    requires targets != [] && |replies| == |targets|
    ensures 1 <= tried <= |targets|
    ensures forall i | 0 <= i < tried - 1 :: HandsOver(config, replies[i])
    ensures result == ModelResult(replies[tried - 1])
    ensures tried < |targets| ==> !HandsOver(config, replies[tried - 1])
    ensures forall i | 0 <= i < tried - 1 :: LeadsOn(config, replies[i])
    ensures tried < |targets| ==> !LeadsOn(config, replies[tried - 1])
    ensures IsResult(replies[tried - 1], result)
  {
    forall reply
      ensures HandsOver(config, reply) <==> LeadsOn(config, reply)
      ensures IsResult(reply, ModelResult(reply))
    {
      HandsOverExactly(config, reply);
      ResultIs(reply);
    }
    hide ModelResult, ShouldRetry, LeadsOn, IsResult;
    var index := 0;
    while true
      invariant index < |targets|
      invariant forall i | 0 <= i < index :: HandsOver(config, replies[i])
      decreases |targets| - index
    {
      var response := ModelResult(replies[index]);
      if response.Ok? {
        return response, index + 1;
      }
      if index + 1 < |targets| && ShouldRetry(config, response.error) {
        index := index + 1;
        continue;
      }
      return response, index + 1;
    }
  }

  /** These clauses determine how many models are tried. */
  lemma TriedIsDetermined(config: FallbackConfig, replies: seq<Reply>, a: nat, b: nat)
    requires 1 <= a <= |replies| && 1 <= b <= |replies|
    requires forall i | 0 <= i < a - 1 :: HandsOver(config, replies[i])
    requires forall i | 0 <= i < b - 1 :: HandsOver(config, replies[i])
    requires a < |replies| ==> !HandsOver(config, replies[a - 1])
    requires b < |replies| ==> !HandsOver(config, replies[b - 1])
    ensures a == b
  {
    hide HandsOver;
    var x, y := HandsOver(config, replies[a - 1]), HandsOver(config, replies[b - 1]);
  }

  // ------------------------------------------------------------------ streaming

  type Payload = seq<bv8>

  /** One read of a host stream; emitError is what forwarding its payload meets. */
  datatype Chunk =
    | ReadFails(error: Error)
    | Undecodable(error: Error)
    | Data(failure: Option<Error>, payload: Payload, done: bool, emitError: Option<Error>)

  /** How a model's stream opens, and what its reads then bring. The reads may be
      cut off anywhere: a run is then observed while it is still going on. */
  datatype Opening =
    | NotSent(error: Error)       // the request body could not be rewritten
    | CallFailed(error: Error)    // the call that opens the stream failed
    | NotDecoded(error: Error)    // its reply could not be decoded
    | BlankStream(error: Error)   // its reply names no stream
    | Stream(chunks: seq<Chunk>)

  datatype Event =
    | Opened(attempt: nat)
    | Read(attempt: nat)
    | Emit(attempt: nat, payload: Payload, ok: bool)
    | Closed(attempt: nat)

  datatype Outcome = Finished | Failed(error: Error, retry: bool) | Running

  /** The events of one turn of the read loop, and how it ends the loop if it does. */
  function Turn(config: FallbackConfig, attempt: nat, chunk: Chunk, emitted: bool): (seq<Event>, Option<Outcome>) {
    match chunk
    case ReadFails(e) => ([Read(attempt)], Some(Failed(e, !emitted && ShouldRetry(config, e))))
    case Undecodable(e) => ([Read(attempt)], Some(Failed(e, false)))
    case Data(failure, payload, done, emitError) =>
      if failure.Some? then ([Read(attempt)], Some(Failed(failure.value, !emitted && ShouldRetry(config, failure.value))))
      else if payload == [] then ([Read(attempt)], if done then Some(Finished) else None)
      else if emitError.Some? then ([Read(attempt), Emit(attempt, payload, false)], Some(Failed(emitError.value, false)))
      else ([Read(attempt), Emit(attempt, payload, true)], if done then Some(Finished) else None)
  }

  predicate HasPayload(chunk: Chunk) {
    chunk.Data? && chunk.payload != []
  }

  /** The whole read loop over the chunks there are. */
  function Loop(config: FallbackConfig, attempt: nat, chunks: seq<Chunk>, emitted: bool): (seq<Event>, Outcome)
    decreases |chunks|
  {
    if chunks == [] then ([], Running)
    else
      var (here, end) := Turn(config, attempt, chunks[0], emitted);
      if end.Some? then (here, end.value)
      else
        var (rest, outcome) := Loop(config, attempt, chunks[1..], emitted || HasPayload(chunks[0]));
        (here + rest, outcome)
  }

  lemma OneTurn(config: FallbackConfig, attempt: nat, chunks: seq<Chunk>, i: nat, emitted: bool)
    requires i < |chunks|
    ensures var here, end := Turn(config, attempt, chunks[i], emitted).0, Turn(config, attempt, chunks[i], emitted).1;
            var rest := Loop(config, attempt, chunks[i + 1..], emitted || HasPayload(chunks[i]));
            Loop(config, attempt, chunks[i..], emitted) == if end.Some? then (here, end.value) else (here + rest.0, rest.1)
  {
    hide Turn;
    assert chunks[i..][0] == chunks[i] && chunks[i..][1..] == chunks[i + 1..];
  }

  /** All events of one attempt: the stream is closed unless it is still read. */
  function AttemptEvents(config: FallbackConfig, attempt: nat, opening: Opening): seq<Event> {
    match opening
    case Stream(chunks) =>
      var (events, outcome) := Loop(config, attempt, chunks, false);
      [Opened(attempt)] + events + if outcome.Running? then [] else [Closed(attempt)]
    case _ => []
  }

  function AttemptOutcome(config: FallbackConfig, attempt: nat, opening: Opening): Outcome {
    match opening
    case CallFailed(e) => Failed(e, ShouldRetry(config, e))
    case NotSent(e) => Failed(e, false)
    case NotDecoded(e) => Failed(e, false)
    case BlankStream(e) => Failed(e, false)
    case Stream(chunks) => Loop(config, attempt, chunks, false).1
  }

  function RunEvents(config: FallbackConfig, openings: seq<Opening>): seq<Event> {
    if openings == [] then [] else
    var n := |openings| - 1;
    RunEvents(config, openings[..n]) + AttemptEvents(config, n, openings[n])
  }

  class Host {
    var trace: seq<Event>

    constructor ()
      ensures trace == []
    {
      trace := [];
    }

    /** streamModel. */
    method StreamModel(config: FallbackConfig, attempt: nat, opening: Opening) returns (outcome: Outcome)
      modifies this
      ensures trace == old(trace) + AttemptEvents(config, attempt, opening)
      ensures outcome == AttemptOutcome(config, attempt, opening)
    {
      hide ShouldRetry, Loop;
      match opening {
        case NotSent(e) => return Failed(e, false);
        case CallFailed(e) => return Failed(e, ShouldRetry(config, e));
        case NotDecoded(e) => return Failed(e, false);
        case BlankStream(e) => return Failed(e, false);
        case Stream(chunks) =>
          trace := trace + [Opened(attempt)];
          outcome := ReadLoop(config, attempt, chunks);
          if !outcome.Running? {
            trace := trace + [Closed(attempt)];
          }
      }
    }

    method ReadLoop(config: FallbackConfig, attempt: nat, chunks: seq<Chunk>) returns (outcome: Outcome)
      modifies this
      ensures trace == old(trace) + Loop(config, attempt, chunks, false).0
      ensures outcome == Loop(config, attempt, chunks, false).1
    {
      hide Turn;
      var emitted, i := false, 0;
      ghost var past := [];
      assert chunks[0..] == chunks;
      assert Loop(config, attempt, [], true) == Loop(config, attempt, [], false) == ([], Running);
      hide Loop;
      while i < |chunks|
        invariant i <= |chunks| && trace == old(trace) + past
        invariant Loop(config, attempt, chunks, false).0 == past + Loop(config, attempt, chunks[i..], emitted).0
        invariant Loop(config, attempt, chunks, false).1 == Loop(config, attempt, chunks[i..], emitted).1
      {
        OneTurn(config, attempt, chunks, i, emitted);
        var end := ReadOnce(config, attempt, chunks[i], emitted);
        past := past + Turn(config, attempt, chunks[i], emitted).0;
        if end.Some? {
          return end.value;
        }
        emitted := emitted || HasPayload(chunks[i]);
        i := i + 1;
      }
      assert chunks[i..] == [] && past + [] == past;
      outcome := Running;
    }

    method ReadOnce(config: FallbackConfig, attempt: nat, chunk: Chunk, emitted: bool) returns (end: Option<Outcome>)
      modifies this
      ensures trace == old(trace) + Turn(config, attempt, chunk, emitted).0
      ensures end == Turn(config, attempt, chunk, emitted).1
    {
      hide ShouldRetry;
      trace := trace + [Read(attempt)];
      if chunk.ReadFails? {
        return Some(Failed(chunk.error, !emitted && ShouldRetry(config, chunk.error)));
      }
      if chunk.Undecodable? {
        return Some(Failed(chunk.error, false));
      }
      if chunk.failure.Some? {
        return Some(Failed(chunk.failure.value, !emitted && ShouldRetry(config, chunk.failure.value)));
      }
      if chunk.payload != [] {
        trace := trace + [Emit(attempt, chunk.payload, chunk.emitError.None?)];
        if chunk.emitError.Some? {
          return Some(Failed(chunk.emitError.value, false));
        }
      }
      end := if chunk.done then Some(Finished) else None;
    }

    /** RunStream: attempts in order, each but the last ended by a retryable
      failure. Running off the end of the list does not happen. */
    method RunStream(config: FallbackConfig, targets: seq<string>, openings: seq<Opening>) returns (outcome: Outcome, tried: nat)
      requires targets != [] && |openings| == |targets|
      modifies this
      ensures 1 <= tried <= |targets|
      ensures trace == old(trace) + RunEvents(config, openings[..tried])
      ensures forall i | 0 <= i < tried - 1 :: Retries(AttemptOutcome(config, i, openings[i]))
      ensures outcome == AttemptOutcome(config, tried - 1, openings[tried - 1])
      ensures tried < |targets| ==> !Retries(outcome)
      ensures forall i | 0 <= i < tried - 1 :: StreamLeadsOn(config, openings[i])
      ensures tried < |targets| ==> !StreamLeadsOn(config, openings[tried - 1])
      ensures EndsWith(config, openings[tried - 1], outcome)
    {
      hide AttemptEvents, AttemptOutcome, StreamLeadsOn, EndsWith;
      forall i: nat, opening
        ensures Retries(AttemptOutcome(config, i, opening)) <==> StreamLeadsOn(config, opening)
        ensures EndsWith(config, opening, AttemptOutcome(config, i, opening))
      {
        AttemptHandsOverExactly(config, i, opening);
        AttemptEndsExactly(config, i, opening);
      }
      var index := 0;
      while true
        invariant index < |targets|
        invariant trace == old(trace) + RunEvents(config, openings[..index])
        invariant forall i | 0 <= i < index :: Retries(AttemptOutcome(config, i, openings[i]))
        decreases |targets| - index
      {
        assert openings[..index + 1][..index] == openings[..index];
        outcome := StreamModel(config, index, openings[index]);
        if outcome.Failed? && outcome.retry && index + 1 < |targets| {
          index := index + 1;
          continue;
        }
        return outcome, index + 1;
      }
    }
  }

  predicate Retries(outcome: Outcome) {
    outcome.Failed? && outcome.retry
  }

  // ----------------------------------------------------------------- theorems

  /** What reached the client, in order. */
  function Delivered(events: seq<Event>): seq<Payload> {
    if events == [] then [] else
    (if events[0].Emit? && events[0].ok then [events[0].payload] else []) + Delivered(events[1..])
  }

  lemma {:induction false} DeliveredConcat(a: seq<Event>, b: seq<Event>)
    ensures Delivered(a + b) == Delivered(a) + Delivered(b)
  {
    if a == [] {
      assert a + b == b;
    } else {
      assert (a + b)[1..] == a[1..] + b;
      DeliveredConcat(a[1..], b);
    }
  }

  /** The payloads of a stream, empty ones left out, up to and including Done. */
  function Payloads(chunks: seq<Chunk>): seq<Payload> {
    if chunks == [] then [] else
    (if HasPayload(chunks[0]) then [chunks[0].payload] else []) +
    (if chunks[0].Data? && chunks[0].done then [] else Payloads(chunks[1..]))
  }

  /** A read loop delivers a prefix of its stream's payloads in order, and all of
      them up to Done when it finishes. If it may be retried, it has made no emit
      call, and nothing had been emitted before. */
  lemma {:induction false} LoopDelivers(config: FallbackConfig, attempt: nat, chunks: seq<Chunk>, emitted: bool)
    ensures var (events, outcome) := Loop(config, attempt, chunks, emitted);
            && Delivered(events) <= Payloads(chunks)
            && (outcome.Finished? ==> Delivered(events) == Payloads(chunks))
            && (Retries(outcome) ==> !emitted && forall i | 0 <= i < |events| :: !events[i].Emit?)
            && (forall i | 0 <= i < |events| :: events[i].attempt == attempt && (events[i].Read? || events[i].Emit?))
    decreases |chunks|
  {
    hide ShouldRetry;
    if chunks != [] {
      var (here, end) := Turn(config, attempt, chunks[0], emitted);
      TurnDelivers(config, attempt, chunks[0], emitted);
      if end.None? {
        var (rest, outcome) := Loop(config, attempt, chunks[1..], emitted || HasPayload(chunks[0]));
        LoopDelivers(config, attempt, chunks[1..], emitted || HasPayload(chunks[0]));
        DeliveredConcat(here, rest);
      }
    }
  }

  lemma TurnDelivers(config: FallbackConfig, attempt: nat, chunk: Chunk, emitted: bool)
    ensures var (here, end) := Turn(config, attempt, chunk, emitted);
            && Delivered(here) <= (if HasPayload(chunk) then [chunk.payload] else [])
            && (end.None? || end.value.Finished? ==> Delivered(here) == if HasPayload(chunk) then [chunk.payload] else [])
            && (end.Some? && Retries(end.value) ==> !emitted && forall i | 0 <= i < |here| :: !here[i].Emit?)
            && (end.None? && !HasPayload(chunk) ==> forall i | 0 <= i < |here| :: !here[i].Emit?)
            && (forall i | 0 <= i < |here| :: here[i].attempt == attempt && (here[i].Read? || here[i].Emit?))
            && (end.None? ==> chunk.Data? && !chunk.done)
            && (end.Some? && end.value.Finished? ==> chunk.Data? && chunk.done)
            && (end.Some? ==> !end.value.Running?)
  {
    hide ShouldRetry;
    var (here, _) := Turn(config, attempt, chunk, emitted);
    assert Delivered([]) == [];
    if |here| == 2 {
      assert here[1..] == [here[1]] && [here[1]][1..] == [];
    }
  }

  /** A read that brings nothing and leaves the stream going. */
  predicate Quiet(chunk: Chunk) {
    chunk.Data? && chunk.failure.None? && chunk.payload == [] && !chunk.done
  }

  predicate FailsRetryably(config: FallbackConfig, chunk: Chunk) {
    || (chunk.ReadFails? && ShouldRetry(config, chunk.error))
    || (chunk.Data? && chunk.failure.Some? && ShouldRetry(config, chunk.failure.value))
  }

  predicate RetriesAt(config: FallbackConfig, chunks: seq<Chunk>, k: nat) {
    k < |chunks| && FailsRetryably(config, chunks[k]) && forall i | 0 <= i < k :: Quiet(chunks[i])
  }

  lemma {:induction false} NoRetryAfterEmit(config: FallbackConfig, attempt: nat, chunks: seq<Chunk>)
    ensures !Retries(Loop(config, attempt, chunks, true).1)
    decreases |chunks|
  {
    hide ShouldRetry;
    if chunks != [] {
      NoRetryAfterEmit(config, attempt, chunks[1..]);
    }
  }

  /** A read loop hands over to the next model exactly when the first read that brings
      anything at all is an error that may be retried. */
  lemma {:induction false} LoopRetriesExactly(config: FallbackConfig, attempt: nat, chunks: seq<Chunk>)
    ensures Retries(Loop(config, attempt, chunks, false).1) <==> exists k: nat :: RetriesAt(config, chunks, k)
    decreases |chunks|
  {
    hide ShouldRetry;
    if chunks != [] {
      var rest := chunks[1..];
      LoopRetriesExactly(config, attempt, rest);
      NoRetryAfterEmit(config, attempt, rest);
      assert FailsRetryably(config, chunks[0]) <==> RetriesAt(config, chunks, 0);
      if k: nat :| RetriesAt(config, chunks, k) && k > 0 {
        assert Quiet(chunks[0]) && RetriesAt(config, rest, k - 1);
      }
      if k: nat :| RetriesAt(config, rest, k) && Quiet(chunks[0]) {
        assert RetriesAt(config, chunks, k + 1);
      }
    }
  }

  /** The error that ended an attempt before it had brought anything at all. */
  ghost predicate EndsSilently(opening: Opening, e: Error) {
    || opening == CallFailed(e)
    || (opening.Stream? && exists k: nat :: FirstBrings(opening.chunks, k, e))
  }

  predicate FirstBrings(chunks: seq<Chunk>, k: nat, e: Error) {
    && k < |chunks| && (forall i | 0 <= i < k :: Quiet(chunks[i]))
    && (chunks[k] == ReadFails(e) || (chunks[k].Data? && chunks[k].failure == Some(e)))
  }

  /** The stream hands over to the next model. */
  ghost predicate StreamLeadsOn(config: FallbackConfig, opening: Opening) {
    exists e :: EndsSilently(opening, e) && InvitesFallback(config, e)
  }

  /** A whole attempt hands over exactly when the call that opens its stream, or the first
      read that brings anything at all, fails with an error that invites another attempt. */
  lemma AttemptHandsOverExactly(config: FallbackConfig, attempt: nat, opening: Opening)
    ensures Retries(AttemptOutcome(config, attempt, opening)) <==> StreamLeadsOn(config, opening)
  {
    hide Loop, ShouldRetry, InvitesFallback;
    forall e
      ensures ShouldRetry(config, e) <==> InvitesFallback(config, e)
    {
      RetriesExactlyInvited(config, e);
    }
    if opening.CallFailed? {
      assert EndsSilently(opening, opening.error);
    }
    if opening.Stream? {
      LoopRetriesExactly(config, attempt, opening.chunks);
      if k: nat :| RetriesAt(config, opening.chunks, k) {
        var chunk := opening.chunks[k];
        assert FirstBrings(opening.chunks, k, if chunk.ReadFails? then chunk.error else chunk.failure.value);
      }
      if e, k: nat :| FirstBrings(opening.chunks, k, e) && InvitesFallback(config, e) {
        assert RetriesAt(config, opening.chunks, k);
      }
    }
  }

  /** A read that ends its stream, for better or worse. */
  predicate Ends(chunk: Chunk) {
    !chunk.Data? || chunk.failure.Some? || chunk.done || (chunk.payload != [] && chunk.emitError.Some?)
  }

  predicate FirstEnd(chunks: seq<Chunk>, k: nat) {
    k < |chunks| && Ends(chunks[k]) && forall i | 0 <= i < k :: !Ends(chunks[i])
  }

  /** What the read that ends a stream makes of it; silent says that nothing was forwarded. */
  predicate EndOf(config: FallbackConfig, chunk: Chunk, silent: bool, outcome: Outcome) {
    match chunk
    case ReadFails(e) => outcome == Failed(e, silent && InvitesFallback(config, e))
    case Undecodable(e) => outcome == Failed(e, false)
    case Data(failure, payload, _, emitError) =>
      if failure.Some? then outcome == Failed(failure.value, silent && InvitesFallback(config, failure.value))
      else if payload != [] && emitError.Some? then outcome == Failed(emitError.value, false)
      else outcome == Finished
  }

  predicate IsSilent(chunks: seq<Chunk>) {
    forall i | 0 <= i < |chunks| :: !HasPayload(chunks[i])
  }

  ghost predicate LoopEnd(config: FallbackConfig, chunks: seq<Chunk>, emitted: bool, outcome: Outcome) {
    if forall i | 0 <= i < |chunks| :: !Ends(chunks[i]) then outcome == Running
    else exists k: nat :: FirstEnd(chunks, k) && EndOf(config, chunks[k], !emitted && IsSilent(chunks[..k]), outcome)
  }

  /** The loop ends at the first read that ends the stream, with what that read says, and is
      still running when there is none. */
  lemma {:induction false} LoopEndsExactly(config: FallbackConfig, attempt: nat, chunks: seq<Chunk>, emitted: bool)
    ensures LoopEnd(config, chunks, emitted, Loop(config, attempt, chunks, emitted).1)
    decreases |chunks|
  {
    hide ShouldRetry, InvitesFallback;
    forall e
      ensures ShouldRetry(config, e) <==> InvitesFallback(config, e)
    {
      RetriesExactlyInvited(config, e);
    }
    if chunks != [] {
      var outcome := Loop(config, attempt, chunks, emitted).1;
      if Ends(chunks[0]) {
        assert chunks[..0] == [];
        assert FirstEnd(chunks, 0) && EndOf(config, chunks[0], !emitted && IsSilent(chunks[..0]), outcome);
      } else {
        var emitted' := emitted || HasPayload(chunks[0]);
        LoopEndsExactly(config, attempt, chunks[1..], emitted');
        assert outcome == Loop(config, attempt, chunks[1..], emitted').1;
        hide Loop, EndOf, HasPayload, Ends;
        OneEarlier(config, chunks, emitted, outcome);
      }
    }
  }

  lemma OneEarlier(config: FallbackConfig, chunks: seq<Chunk>, emitted: bool, outcome: Outcome)
    requires chunks != [] && !Ends(chunks[0])
    requires LoopEnd(config, chunks[1..], emitted || HasPayload(chunks[0]), outcome)
    ensures LoopEnd(config, chunks, emitted, outcome)
  {
    hide EndOf, HasPayload, Ends;
    var rest, emitted' := chunks[1..], emitted || HasPayload(chunks[0]);
    assert forall i | 0 <= i < |rest| :: rest[i] == chunks[i + 1];
    assert forall i | 0 < i < |chunks| :: chunks[i] == rest[i - 1];
    if exists i :: 0 <= i < |rest| && Ends(rest[i]) {
      var k: nat :| FirstEnd(rest, k) && EndOf(config, rest[k], !emitted' && IsSilent(rest[..k]), outcome);
      assert FirstEnd(chunks, k + 1) && Ends(chunks[k + 1]);
      hide IsSilent, FirstEnd;
      SilentFromTheStart(chunks, k);
      assert rest[k] == chunks[k + 1];
      assert (!emitted' && IsSilent(rest[..k])) == (!emitted && IsSilent(chunks[..k + 1]));
      assert EndOf(config, chunks[k + 1], !emitted && IsSilent(chunks[..k + 1]), outcome);
    } else {
      assert forall i | 0 <= i < |chunks| :: !Ends(chunks[i]);
    }
  }

  lemma SilentFromTheStart(chunks: seq<Chunk>, k: nat)
    requires k + 1 <= |chunks|
    ensures IsSilent(chunks[..k + 1]) <==> !HasPayload(chunks[0]) && IsSilent(chunks[1..][..k])
  {
    hide HasPayload;
    var some, rest := chunks[..k + 1], chunks[1..][..k];
    assert some[0] == chunks[0];
    assert forall i | 0 <= i < k :: rest[i] == some[i + 1];
    assert forall i | 0 < i < k + 1 :: some[i] == rest[i - 1];
  }

  /** How a whole attempt ends, in terms of what the host did. */
  ghost predicate EndsWith(config: FallbackConfig, opening: Opening, outcome: Outcome) {
    match opening
    case CallFailed(e) => outcome == Failed(e, InvitesFallback(config, e))
    case Stream(chunks) => LoopEnd(config, chunks, false, outcome)
    case _ => outcome == Failed(opening.error, false)
  }

  lemma AttemptEndsExactly(config: FallbackConfig, attempt: nat, opening: Opening)
    ensures EndsWith(config, opening, AttemptOutcome(config, attempt, opening))
  {
    hide Loop, LoopEnd, ShouldRetry, InvitesFallback;
    match opening
    case CallFailed(e) => RetriesExactlyInvited(config, e);
    case Stream(chunks) => LoopEndsExactly(config, attempt, chunks, false);
    case _ =>
  }

  /** One read, and what of it is forwarded. */
  function ReadAndForward(attempt: nat, chunk: Chunk): seq<Event> {
    [Read(attempt)] + if chunk.Data? && chunk.failure == None && chunk.payload != []
                      then [Emit(attempt, chunk.payload, chunk.emitError == None)] else []
  }

  /** The reads up to the first that ends the stream, with what is forwarded of each. */
  function ReadsAndForwards(attempt: nat, chunks: seq<Chunk>): seq<Event> {
    if chunks == [] then [] else
    ReadAndForward(attempt, chunks[0]) + if Ends(chunks[0]) then [] else ReadsAndForwards(attempt, chunks[1..])
  }

  /** The loop reads and forwards exactly that. */
  lemma {:induction false} LoopForwardsExactly(config: FallbackConfig, attempt: nat, chunks: seq<Chunk>, emitted: bool)
    ensures Loop(config, attempt, chunks, emitted).0 == ReadsAndForwards(attempt, chunks)
    decreases |chunks|
  {
    hide ShouldRetry;
    if chunks != [] && !Ends(chunks[0]) {
      LoopForwardsExactly(config, attempt, chunks[1..], emitted || HasPayload(chunks[0]));
    }
  }

  /** A stream that was opened is closed exactly once, at the end of its attempt
      and so before anything else is opened, unless it is still being read. */
  lemma AttemptClosesItsStream(config: FallbackConfig, attempt: nat, opening: Opening)
    ensures var events := AttemptEvents(config, attempt, opening);
            if !opening.Stream? then events == []
            else
              && events[0] == Opened(attempt)
              && (forall i | 1 <= i < |events| :: !events[i].Opened? && events[i].attempt == attempt)
              && (if AttemptOutcome(config, attempt, opening).Running? then forall i | 0 <= i < |events| :: !events[i].Closed?
                  else 1 < |events| && events[|events| - 1] == Closed(attempt)
                       && forall i | 0 <= i < |events| - 1 :: !events[i].Closed?)
  {
    hide Turn;
    if opening.Stream? {
      LoopDelivers(config, attempt, opening.chunks, false);
    }
  }

  predicate ClosesStream(config: FallbackConfig, attempt: nat, opening: Opening) {
    opening.Stream? && !AttemptOutcome(config, attempt, opening).Running?
  }

  /** One attempt, counted: one close if it opened a stream and is not reading it any more. */
  lemma AttemptClosesOnce(config: FallbackConfig, attempt: nat, opening: Opening, n: nat)
    ensures multiset(AttemptEvents(config, attempt, opening))[Closed(n)]
         == if n == attempt && ClosesStream(config, attempt, opening) then 1 else 0
    ensures forall e | e in AttemptEvents(config, attempt, opening) :: e.attempt == attempt
  {
    AttemptClosesItsStream(config, attempt, opening);
    var events := AttemptEvents(config, attempt, opening);
    hide AttemptEvents, AttemptOutcome;
    if events != [] {
      var rest := events[..|events| - 1];
      assert events == rest + [events[|events| - 1]];
      assert Closed(n) in rest <==> multiset(rest)[Closed(n)] > 0;
    }
  }

  /** Nothing of a later attempt comes before a close. */
  predicate ClosedBeforeLater(events: seq<Event>, n: nat) {
    forall p, q | 0 <= p < |events| && 0 <= q < |events| && events[p] == Closed(n) && n < events[q].attempt :: p < q
  }

  /** Over a whole run: every attempt that opened a stream, and is not reading it any more,
      closes it exactly once, before anything of a later attempt and so before another
      stream is opened; nothing else is closed. */
  lemma {:induction false} RunClosesItsStreams(config: FallbackConfig, openings: seq<Opening>, n: nat)
    ensures multiset(RunEvents(config, openings))[Closed(n)]
         == if n < |openings| && ClosesStream(config, n, openings[n]) then 1 else 0
    ensures ClosedBeforeLater(RunEvents(config, openings), n)
    ensures forall e | e in RunEvents(config, openings) :: e.attempt < |openings|
  {
    hide AttemptEvents, ClosesStream;
    if openings != [] {
      var last := |openings| - 1;
      RunClosesItsStreams(config, openings[..last], n);
      AttemptClosesOnce(config, last, openings[last], n);
      LastComesLater(RunEvents(config, openings[..last]), AttemptEvents(config, last, openings[last]), last, n);
    }
  }

  lemma LastComesLater(prior: seq<Event>, events: seq<Event>, last: nat, n: nat)
    requires ClosedBeforeLater(prior, n) && forall e | e in prior :: e.attempt < last
    requires forall e | e in events :: e.attempt == last
    ensures ClosedBeforeLater(prior + events, n)
    ensures forall e | e in prior + events :: e.attempt <= last
  {
    var all := prior + events;
    assert forall p | 0 <= p < |prior| :: all[p] == prior[p] && prior[p] in prior;
    assert forall p | |prior| <= p < |all| :: all[p] == events[p - |prior|] && events[p - |prior|] in events;
  }

  /** What one attempt delivers. */
  lemma AttemptDelivers(config: FallbackConfig, attempt: nat, opening: Opening)
    ensures var events := AttemptEvents(config, attempt, opening);
            var outcome := AttemptOutcome(config, attempt, opening);
            && (if opening.Stream? then Delivered(events) <= Payloads(opening.chunks) else Delivered(events) == [])
            && (outcome.Finished? ==> opening.Stream? && Delivered(events) == Payloads(opening.chunks))
            && (Retries(outcome) ==> forall i | 0 <= i < |events| :: !events[i].Emit?)
            && (forall i | 0 <= i < |events| :: events[i].attempt == attempt)
  {
    hide Turn, Loop, Payloads, ShouldRetry, HasPayload;
    assert Delivered([]) == [];
    if opening.Stream? {
      var (events, outcome) := Loop(config, attempt, opening.chunks, false);
      LoopDelivers(config, attempt, opening.chunks, false);
      Bracketed(attempt, events, if outcome.Running? then [] else [Closed(attempt)]);
      hide Delivered;
    }
  }

  /** Opening and closing deliver nothing. */
  lemma Bracketed(attempt: nat, events: seq<Event>, tail: seq<Event>)
    requires tail == [] || tail == [Closed(attempt)]
    ensures Delivered([Opened(attempt)] + events + tail) == Delivered(events)
    ensures (forall e | e in events :: e.attempt == attempt) ==>
              forall e | e in [Opened(attempt)] + events + tail :: e.attempt == attempt
    ensures (forall e | e in events :: !e.Emit?) ==> forall e | e in [Opened(attempt)] + events + tail :: !e.Emit?
  {
    var first := [Opened(attempt)];
    assert first[1..] == [] && Delivered(first) == [];
    assert tail != [] ==> tail[1..] == [];
    assert Delivered(tail) == [];
    hide Delivered;
    DeliveredConcat(first + events, tail);
    DeliveredConcat(first, events);
  }

  lemma {:induction false} NoEmitNothingDelivered(events: seq<Event>)
    requires forall i | 0 <= i < |events| :: !events[i].Emit?
    ensures Delivered(events) == []
  {
    if events != [] {
      NoEmitNothingDelivered(events[1..]);
    }
  }

  lemma {:induction false} RetriedAttemptsAreSilent(config: FallbackConfig, openings: seq<Opening>)
    requires forall i | 0 <= i < |openings| :: Retries(AttemptOutcome(config, i, openings[i]))
    ensures forall i | 0 <= i < |RunEvents(config, openings)| :: !RunEvents(config, openings)[i].Emit?
  {
    hide AttemptEvents, AttemptOutcome;
    if openings != [] {
      var n := |openings| - 1;
      RetriedAttemptsAreSilent(config, openings[..n]);
      AttemptDelivers(config, n, openings[n]);
    }
  }

  /** Over a whole run, whatever the host does: only the last attempt makes emit
      calls; what the client got is, in order, a prefix of that attempt's payloads,
      and all of them up to Done when the run ended without error. */
  lemma OnlyTheLastAttemptEmits(config: FallbackConfig, openings: seq<Opening>)
    requires openings != []
    requires forall i | 0 <= i < |openings| - 1 :: Retries(AttemptOutcome(config, i, openings[i]))
    ensures var events := RunEvents(config, openings);
            var last := openings[|openings| - 1];
            && (forall i | 0 <= i < |events| && events[i].Emit? :: events[i].attempt == |openings| - 1)
            && (if last.Stream? then Delivered(events) <= Payloads(last.chunks) else Delivered(events) == [])
            && (AttemptOutcome(config, |openings| - 1, last).Finished? ==>
                  last.Stream? && Delivered(events) == Payloads(last.chunks))
  {
    hide AttemptEvents, AttemptOutcome;
    var n := |openings| - 1;
    RetriedAttemptsAreSilent(config, openings[..n]);
    NoEmitNothingDelivered(RunEvents(config, openings[..n]));
    AttemptDelivers(config, n, openings[n]);
    DeliveredConcat(RunEvents(config, openings[..n]), AttemptEvents(config, n, openings[n]));
  }
}
