/** Reading reset credits: bounded retries, and what a response says about the
    credits that can be consumed. */
module ResetCredits {
  import opened Text

  const RETRY_COUNT: nat := 3

  /** The fate of one query attempt; Cancelled means it was never made, because
      the context was done before it or in the pause leading to it. */
  datatype Attempt<+T> = Cancelled | Failed | Answered(value: T)

  /** The first attempt that ends the retries, or one past the last. */
  function Decisive<T>(script: nat -> Attempt<T>, k: nat): (d: nat)
    requires k <= RETRY_COUNT + 1
    ensures k <= d <= RETRY_COUNT + 1
    ensures forall j | k <= j < d :: script(j).Failed?
    ensures d <= RETRY_COUNT ==> !script(d).Failed?
    decreases RETRY_COUNT + 1 - k
  {
    if k > RETRY_COUNT || !script(k).Failed? then k else Decisive(script, k + 1)
  }

  function RetryResult<T>(script: nat -> Attempt<T>): Option<T> {
    var d := Decisive(script, 0);
    if d <= RETRY_COUNT && script(d).Answered? then Some(script(d).value) else None
  }

  /** How many queries were really sent. */
  function RetryQueries<T>(script: nat -> Attempt<T>): (n: nat)
    ensures n <= RETRY_COUNT + 1
    ensures RetryResult(script).Some? ==> 1 <= n && script(n - 1) == Answered(RetryResult(script).value)
  {
    var d := Decisive(script, 0);
    if d <= RETRY_COUNT && script(d).Answered? then d + 1 else d
  }

  method RetryQuotaRead<T>(script: nat -> Attempt<T>) returns (result: Option<T>, queries: nat)
    ensures result == RetryResult(script) && queries == RetryQueries(script)
  {
    queries := 0;
    var attempt := 0;
    while attempt <= RETRY_COUNT
      invariant attempt == queries <= RETRY_COUNT + 1
      invariant Decisive(script, 0) == Decisive(script, attempt)
    {
      match script(attempt) {
        case Cancelled => return None, queries;
        case Answered(value) => return Some(value), queries + 1;
        case Failed => queries := queries + 1;
      }
      attempt := attempt + 1;
    }
    result := None;
  }

  /** A read is answered exactly when one of the first four attempts is, and all
      attempts before it failed. */
  lemma AnsweredWithinFour<T>(script: nat -> Attempt<T>)
    ensures RetryResult(script).Some? <==>
              exists k: nat :: k <= RETRY_COUNT && script(k).Answered? && forall j | 0 <= j < k :: script(j).Failed?
  {
    var d := Decisive(script, 0);
    if k: nat :| k <= RETRY_COUNT && script(k).Answered? && forall j | 0 <= j < k :: script(j).Failed? {
      assert d == k;
    }
  }

  /** The first attempt that did not fail is k, among the four, and it was answered. */
  predicate AnsweredAt<T(!new)>(script: nat -> Attempt<T>, k: nat) {
    k <= 3 && script(k).Answered? && forall j | 0 <= j < k :: script(j).Failed?
  }

  /** How many queries a read sends: up to the one that is answered, or as many as fail
      before the read is cancelled or four have failed. */
  lemma QueriesExactly<T(!new)>(script: nat -> Attempt<T>, n: nat)
    ensures n == RetryQueries(script) <==>
            || (1 <= n && AnsweredAt(script, n - 1))
            || (n <= 4 && (n < 4 ==> script(n).Cancelled?) && forall j | 0 <= j < n :: script(j).Failed?)
    ensures forall k: nat | AnsweredAt(script, k) :: RetryResult(script) == Some(script(k).value)
    ensures RetryResult(script).Some? ==> exists k: nat :: AnsweredAt(script, k)
  {
    var d := Decisive(script, 0);
    if d <= RETRY_COUNT && script(d).Answered? {
      assert AnsweredAt(script, d);
    }
    hide Decisive;
  }

  // ------------------------------------------------------------------ credits

  /** The expires_at field: absent, null, or a value that normalises or not. */
  datatype Expiry = Missing | Null | Given(normalized: Option<string>)

  datatype Credit = Credit(id: string, resetType: string, status: string, expiresAt: Expiry)

  predicate IsAvailable(c: Credit) {
    && EqualFold(TrimSpace(c.resetType), "codex_rate_limits")
    && EqualFold(TrimSpace(c.status), "available")
  }

  predicate IsSelectable(c: Credit) {
    IsAvailable(c) && TrimSpace(c.id) != ""
  }

  /** A decoded credit response; credits is None when the field is missing. */
  datatype Payload = Payload(availableCount: Option<int>, credits: Option<seq<Credit>>) {
    function Rows(): seq<Credit> {
      if credits.Some? then credits.value else []
    }
  }

  datatype CreditInfo = CreditInfo(availableCount: int, expiresAt: seq<string>, withoutExpiry: nat,
                                   expiryDetailsAvailable: bool, expiryDetailsComplete: bool)

  function AvailableRows(payload: Payload): seq<Credit> {
    Select(payload.Rows(), IsAvailable)
  }

  /** The expiry texts of the rows that have one, in order. */
  function Dated(rows: seq<Credit>): seq<string> {
    if rows == [] then [] else
    var last := rows[|rows| - 1].expiresAt;
    Dated(rows[..|rows| - 1]) + if last.Given? && last.normalized.Some? then [last.normalized.value] else []
  }

  function CountNull(rows: seq<Credit>): nat {
    if rows == [] then 0 else
    CountNull(rows[..|rows| - 1]) + if rows[|rows| - 1].expiresAt.Null? then 1 else 0
  }

  predicate Undetermined(row: Credit) {
    row.expiresAt.Missing? || (row.expiresAt.Given? && row.expiresAt.normalized.None?)
  }

  function CountUndetermined(rows: seq<Credit>): nat {
    if rows == [] then 0 else
    CountUndetermined(rows[..|rows| - 1]) + if Undetermined(rows[|rows| - 1]) then 1 else 0
  }

  /** The count: the response's, else the caller's, else the available rows. */
  function CreditCount(payload: Payload, fallback: Option<int>): int {
    if payload.availableCount.Some? then payload.availableCount.value
    else if fallback.Some? then fallback.value
    else |AvailableRows(payload)|
  }

  method ParseResetCredits(payload: Payload, fallback: Option<int>) returns (info: CreditInfo)
    ensures info.availableCount == CreditCount(payload, fallback)
    ensures payload.availableCount.Some? ==> info.availableCount == payload.availableCount.value
    ensures payload.availableCount.None? && fallback.Some? ==> info.availableCount == fallback.value
    ensures payload.availableCount.None? && fallback.None? ==> info.availableCount == |AvailableRows(payload)|
    ensures info.expiresAt == Dated(AvailableRows(payload))
    ensures info.withoutExpiry == CountNull(AvailableRows(payload))
    ensures info.expiryDetailsAvailable == payload.credits.Some?
    ensures info.expiryDetailsComplete <==>
              && payload.credits.Some?
              && CountUndetermined(AvailableRows(payload)) == 0
              && |AvailableRows(payload)| >= info.availableCount
  {
    var expiresAt, withoutExpiry, availableRows, allAvailableRowsHaveExpiry := TallyRows(payload.Rows(), IsAvailable);
    var availableCount := if payload.availableCount.Some? then payload.availableCount.value
                          else if fallback.Some? then fallback.value
                          else availableRows;
    info := CreditInfo(availableCount, expiresAt, withoutExpiry, payload.credits.Some?,
                       payload.credits.Some? && allAvailableRowsHaveExpiry && availableRows >= availableCount);
  }

  predicate Tallied(seen: seq<Credit>, expiresAt: seq<string>, withoutExpiry: nat, availableRows: nat, complete: bool) {
    && expiresAt == Dated(seen) && withoutExpiry == CountNull(seen) && availableRows == |seen|
    && (complete <==> CountUndetermined(seen) == 0)
  }

  lemma TallyOneMore(seen: seq<Credit>, credit: Credit, expiresAt: seq<string>, withoutExpiry: nat, availableRows: nat, complete: bool)
    requires Tallied(seen, expiresAt, withoutExpiry, availableRows, complete)
    ensures Tallied(seen + [credit],
                    if credit.expiresAt.Given? && credit.expiresAt.normalized.Some? then expiresAt + [credit.expiresAt.normalized.value]
                    else expiresAt,
                    if credit.expiresAt.Null? then withoutExpiry + 1 else withoutExpiry,
                    availableRows + 1, complete && !Undetermined(credit))
  {
    assert (seen + [credit])[..|seen|] == seen;
  }

  lemma SelectOneMore(rows: seq<Credit>, i: nat, available: Credit -> bool)
    requires i < |rows|
    ensures Select(rows[..i + 1], available)
         == if available(rows[i]) then Select(rows[..i], available) + [rows[i]] else Select(rows[..i], available)
  {
    assert rows[..i + 1][..i] == rows[..i];
  }

  /** The loop over the rows of a response. */
  method TallyRows(rows: seq<Credit>, available: Credit -> bool)
    returns (expiresAt: seq<string>, withoutExpiry: nat, availableRows: nat, allAvailableRowsHaveExpiry: bool)
    ensures expiresAt == Dated(Select(rows, available))
    ensures withoutExpiry == CountNull(Select(rows, available))
    ensures availableRows == |Select(rows, available)|
    ensures allAvailableRowsHaveExpiry <==> CountUndetermined(Select(rows, available)) == 0
  {
    expiresAt, withoutExpiry := [], 0;
    availableRows, allAvailableRowsHaveExpiry := 0, true;
    ghost var seen: seq<Credit> := [];
    assert Tallied(seen, expiresAt, withoutExpiry, availableRows, allAvailableRowsHaveExpiry);
    assert rows[..0] == [];
    hide Dated, CountNull, CountUndetermined;
    for i := 0 to |rows|
      invariant seen == Select(rows[..i], available)
      invariant Tallied(seen, expiresAt, withoutExpiry, availableRows, allAvailableRowsHaveExpiry)
    {
      hide Tallied;
      var credit := rows[i];
      SelectOneMore(rows, i, available);
      if !available(credit) {
        continue;
      }
      TallyOneMore(seen, credit, expiresAt, withoutExpiry, availableRows, allAvailableRowsHaveExpiry);
      seen := seen + [credit];
      availableRows := availableRows + 1;
      match credit.expiresAt {
        case Missing => allAvailableRowsHaveExpiry := false;
        case Null => withoutExpiry := withoutExpiry + 1;
        case Given(normalized) =>
          if normalized.Some? {
            expiresAt := expiresAt + [normalized.value];
          } else {
            allAvailableRowsHaveExpiry := false;
          }
      }
    }
    assert rows[..|rows|] == rows;
  }

  /** The expiry texts and counts of a list are those of its rows, in their order. */
  lemma {:induction false} RowsAddUp(a: seq<Credit>, b: seq<Credit>, row: Credit)
    ensures Dated(a + b) == Dated(a) + Dated(b)
    ensures CountNull(a + b) == CountNull(a) + CountNull(b)
    ensures CountUndetermined(a + b) == CountUndetermined(a) + CountUndetermined(b)
    ensures Dated([row]) == match row.expiresAt case Given(Some(text)) => [text] case _ => []
    ensures CountNull([row]) == if row.expiresAt == Null then 1 else 0
    ensures CountUndetermined([row]) == if row.expiresAt == Missing || row.expiresAt == Given(None) then 1 else 0
  {
    assert [row][..0] == [];
    if b == [] {
      assert a + b == a;
    } else {
      var n := |b| - 1;
      RowsAddUp(a, b[..n], row);
      assert (a + b)[..|a + b| - 1] == a + b[..n];
    }
  }

  /** Every available row is dated, without expiry, or undetermined. */
  lemma {:induction false} RowsAreAccountedFor(rows: seq<Credit>)
    ensures |rows| == |Dated(rows)| + CountNull(rows) + CountUndetermined(rows)
  {
    if rows != [] {
      RowsAreAccountedFor(rows[..|rows| - 1]);
    }
  }

  /** Complete expiry details leave nothing undetermined and account for at least
      as many credits as the count says, whichever source the count came from. */
  lemma CompleteDetailsCoverTheCount(payload: Payload, fallback: Option<int>)
    requires payload.credits.Some?
    requires CountUndetermined(AvailableRows(payload)) == 0
    requires |AvailableRows(payload)| >= CreditCount(payload, fallback)
    ensures |Dated(AvailableRows(payload))| + CountNull(AvailableRows(payload)) >= CreditCount(payload, fallback)
  {
    RowsAreAccountedFor(AvailableRows(payload));
  }

  /** The trimmed ID of the first selectable row, "" when there is none. */
  function FirstAvailableCreditId(payload: Payload): (id: string)
    ensures id == "" <==> FirstIndex(payload.Rows(), IsSelectable).None?
  {
    match FirstIndex(payload.Rows(), IsSelectable)
    case Some(i) => TrimSpace(payload.Rows()[i].id)
    case None => ""
  }

  predicate IsFirstSelectable(rows: seq<Credit>, i: nat) {
    i < |rows| && IsSelectable(rows[i]) && forall j | 0 <= j < i :: !IsSelectable(rows[j])
  }

  /** It is blank exactly when no row is selectable, and else belongs to the first one. */
  lemma FirstIdBelongsToFirstRow(payload: Payload)
    ensures var rows, id := payload.Rows(), FirstAvailableCreditId(payload);
            && (id == "" <==> forall i: nat | i < |rows| :: !IsSelectable(rows[i]))
            && (id != "" ==> exists i: nat :: IsFirstSelectable(rows, i) && id == TrimSpace(rows[i].id))
  {
    hide IsSelectable, TrimSpace;
    var rows := payload.Rows();
    var first := FirstIndex(rows, IsSelectable);
    assert first.Some? ==> IsFirstSelectable(rows, first.value);
  }
}
