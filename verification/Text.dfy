/** The string operations of Go's `strings` package that the router relies on,
    over sequences of characters, with what the proofs need to know of them. */
module Text {

  datatype Option<+T> = None | Some(value: T)

  /** unicode.IsSpace. */
  predicate IsSpace(c: char) {
    var n := c as int;
    || 9 <= n <= 13 || n == 0x20 || n == 0x85 || n == 0xA0 || n == 0x1680
    || 0x2000 <= n <= 0x200A || n == 0x2028 || n == 0x2029 || n == 0x202F
    || n == 0x205F || n == 0x3000
  }

  predicate IsSlash(c: char) {
    c == '/'
  }

  predicate HasPrefix(s: string, prefix: string) {
    prefix <= s
  }

  /** strings.TrimPrefix: at most one leading occurrence is removed. */
  function TrimPrefix(s: string, prefix: string): (r: string)
    ensures if HasPrefix(s, prefix) then s == prefix + r else r == s
  {
    if HasPrefix(s, prefix) then s[|prefix|..] else s
  }

  function DropLeading(s: string, cut: char -> bool): (r: string)
    ensures |r| <= |s| && r == s[|s| - |r|..]
    ensures r == "" || !cut(r[0])
    ensures forall k | 0 <= k < |s| - |r| :: cut(s[k])
  {
    if s != "" && cut(s[0]) then DropLeading(s[1..], cut) else s
  }

  function DropTrailing(s: string, cut: char -> bool): (r: string)
    ensures r <= s
    ensures r == "" || !cut(r[|r| - 1])
    ensures forall k | |r| <= k < |s| :: cut(s[k])
  {
    if s != "" && cut(s[|s| - 1]) then DropTrailing(s[..|s| - 1], cut) else s
  }

  /** strings.TrimFunc. */
  function Trim(s: string, cut: char -> bool): (r: string)
    ensures |r| <= |s|
    ensures Trimmed(r, cut)
  {
    DropTrailing(DropLeading(s, cut), cut)
  }

  predicate Trimmed(s: string, cut: char -> bool) {
    s == "" || (!cut(s[0]) && !cut(s[|s| - 1]))
  }

  function TrimSpace(s: string): string {
    Trim(s, IsSpace)
  }

  /** Trimming changes nothing exactly on trimmed strings. */
  lemma TrimFixpoint(s: string, cut: char -> bool)
    ensures Trim(s, cut) == s <==> Trimmed(s, cut)
  {
    if Trimmed(s, cut) && s != "" {
      var first, last := s[0], s[|s| - 1];
      assert DropLeading(s, cut) == s;
      assert DropTrailing(s, cut) == s;
    }
  }

  lemma TrimLength(s: string, cut: char -> bool)
    ensures |Trim(s, cut)| == |s| <==> Trim(s, cut) == s
  {
  }

  lemma {:induction false} LeadingComesOff(left: string, rest: string, cut: char -> bool)
    requires rest != "" && !cut(rest[0])
    requires forall k | 0 <= k < |left| :: cut(left[k])
    ensures DropLeading(left + rest, cut) == rest
  {
    if left == "" {
      assert left + rest == rest;
    } else {
      assert (left + rest)[1..] == left[1..] + rest;
      LeadingComesOff(left[1..], rest, cut);
    }
  }

  lemma {:induction false} TrailingComesOff(rest: string, right: string, cut: char -> bool)
    requires rest != "" && !cut(rest[|rest| - 1])
    requires forall k | 0 <= k < |right| :: cut(right[k])
    ensures DropTrailing(rest + right, cut) == rest
  {
    if right == "" {
      assert rest + right == rest;
    } else {
      var n := |right| - 1;
      assert (rest + right)[..|rest + right| - 1] == rest + right[..n];
      TrailingComesOff(rest, right[..n], cut);
    }
  }

  /** Trimming keeps a block whose ends are not cut characters. */
  lemma TrimBlock(left: string, core: string, right: string, cut: char -> bool)
    requires core != "" && Trimmed(core, cut)
    requires forall k | 0 <= k < |left| :: cut(left[k])
    requires forall k | 0 <= k < |right| :: cut(right[k])
    ensures Trim(left + core + right, cut) == core
  {
    hide DropLeading, DropTrailing;
    assert left + core + right == left + (core + right);
    LeadingComesOff(left, core + right, cut);
    TrailingComesOff(core, right, cut);
  }

  /** strings.ToLower on ASCII letters. */
  function LowerChar(c: char): char {
    if 'A' <= c <= 'Z' then c - 'A' + 'a' else c
  }

  function ToLower(s: string): (r: string)
    ensures |r| == |s|
    ensures forall k | 0 <= k < |s| :: r[k] == LowerChar(s[k])
  {
    if s == "" then "" else [LowerChar(s[0])] + ToLower(s[1..])
  }

  /** Text without capital letters stays. */
  lemma LowerStays(s: string)
    requires forall k | 0 <= k < |s| :: !('A' <= s[k] <= 'Z')
    ensures ToLower(s) == s
  {
  }

  predicate EqualFold(a: string, b: string) {
    ToLower(a) == ToLower(b)
  }

  /** strings.LastIndexByte, with None for -1. */
  function LastIndex(s: string, c: char): (r: Option<nat>)
    ensures r.None? ==> c !in s
    ensures r.Some? ==> r.value < |s| && s[r.value] == c && c !in s[r.value + 1..]
  {
    if s == "" then None
    else if s[|s| - 1] == c then Some(|s| - 1)
    else
      var rest := LastIndex(s[..|s| - 1], c);
      assert s == s[..|s| - 1] + [s[|s| - 1]];
      assert rest.Some? ==> s[rest.value + 1..] == s[..|s| - 1][rest.value + 1..] + [s[|s| - 1]];
      rest
  }

  lemma {:induction false} LastIndexAt(s: string, c: char, n: nat)
    requires n < |s| && s[n] == c && forall j | n < j < |s| :: s[j] != c
    ensures LastIndex(s, c) == Some(n)
  {
    if n < |s| - 1 {
      LastIndexAt(s[..|s| - 1], c, n);
    }
  }

  predicate Contains(s: string, part: string) {
    exists k | 0 <= k <= |s| :: HasPrefix(s[k..], part)
  }

  /** strconv.Itoa on natural numbers. */
  function Itoa(n: nat): (r: string)
    ensures r != ""
  {
    var digit := [(n % 10) as char + '0'];
    if n < 10 then digit else Itoa(n / 10) + digit
  }

  /** The number that decimal digits stand for. */
  function Number(s: string): nat
    requires forall k | 0 <= k < |s| :: '0' <= s[k] <= '9'
  {
    if s == "" then 0 else 10 * Number(s[..|s| - 1]) + (s[|s| - 1] - '0') as int
  }

  lemma {:induction false} ItoaReadsBack(n: nat)
    ensures (forall k | 0 <= k < |Itoa(n)| :: '0' <= Itoa(n)[k] <= '9') && Number(Itoa(n)) == n
  {
    var digit := (n % 10) as char + '0';
    if n < 10 {
      assert Itoa(n) == [digit] && [digit][..0] == "";
    } else {
      ItoaReadsBack(n / 10);
      assert Itoa(n) == Itoa(n / 10) + [digit];
      assert Itoa(n)[..|Itoa(n)| - 1] == Itoa(n / 10);
    }
  }

  // ---------------------------------------------------------------- sequences

  predicate Distinct(names: seq<string>) {
    forall i, j | 0 <= i < j < |names| :: names[i] != names[j]
  }

  /** The elements that pass a test, in order. */
  function Select<T(!new)>(rows: seq<T>, keep: T -> bool): (r: seq<T>)
    ensures |r| <= |rows|
    ensures forall x :: x in r <==> x in rows && keep(x)
  {
    if rows == [] then [] else
    Select(rows[..|rows| - 1], keep) + if keep(rows[|rows| - 1]) then [rows[|rows| - 1]] else []
  }

  /** It goes through the list piece by piece and element by element, and keeps its order. */
  lemma {:induction false} SelectsPiecewise<T(!new)>(a: seq<T>, b: seq<T>, x: T, keep: T -> bool)
    ensures Select(a + b, keep) == Select(a, keep) + Select(b, keep)
    ensures Select([x], keep) == if keep(x) then [x] else []
  {
    assert [x][..0] == [] && Select([], keep) == [];
    if b == [] {
      assert a + b == a;
    } else {
      var n := |b| - 1;
      SelectsPiecewise(a, b[..n], x, keep);
      assert (a + b)[..|a + b| - 1] == a + b[..n];
    }
  }

  /** Where the first element that passes a test stands. */
  function FirstIndex<T>(rows: seq<T>, test: T -> bool): (r: Option<nat>)
    ensures r.None? <==> forall i | 0 <= i < |rows| :: !test(rows[i])
    ensures r.Some? ==> r.value < |rows| && test(rows[r.value]) && forall i | 0 <= i < r.value :: !test(rows[i])
  {
    if rows == [] then None else
    var earlier := FirstIndex(rows[..|rows| - 1], test);
    if earlier.Some? then earlier else if test(rows[|rows| - 1]) then Some(|rows| - 1) else None
  }
}
