/** The order in which configured prefixes are tried: longest first, equal lengths
    alphabetically. */
module PrefixOrder {
  /** Go's string comparison. */
  predicate Less(a: string, b: string) {
    b != "" && (a == "" || a[0] < b[0] || (a[0] == b[0] && Less(a[1..], b[1..])))
  }

  predicate Before(a: string, b: string) {
    |a| > |b| || (|a| == |b| && Less(a, b))
  }

  predicate Sorted(s: seq<string>) {
    forall i, j | 0 <= i < j < |s| :: Before(s[i], s[j])
  }

  lemma {:induction false} LessIsStrictOrder(a: string, b: string, c: string)
    ensures !Less(a, a)
    ensures a != b ==> Less(a, b) || Less(b, a)
    ensures Less(a, b) && Less(b, c) ==> Less(a, c)
  {
    if a != "" && b != "" && c != "" {
      LessIsStrictOrder(a[1..], b[1..], c[1..]);
      assert a[0] == b[0] && a[1..] == b[1..] ==> a == [a[0]] + a[1..] == b;
    } else if a != "" && b != "" {
      LessIsStrictOrder(a[1..], b[1..], "");
      assert a[0] == b[0] && a[1..] == b[1..] ==> a == [a[0]] + a[1..] == b;
    } else if a != "" {
      LessIsStrictOrder(a[1..], "", "");
    }
  }

  lemma BeforeIsStrictOrder(a: string, b: string, c: string)
    ensures !Before(a, a)
    ensures a != b ==> Before(a, b) || Before(b, a)
    ensures Before(a, b) && Before(b, c) ==> Before(a, c)
  {
    LessIsStrictOrder(a, b, c);
  }

  /** Puts x where it belongs. */
  function Insert(s: seq<string>, x: string): (r: seq<string>)
    requires Sorted(s) && x !in s
    ensures Sorted(r) && multiset(r) == multiset(s) + multiset{x}
  {
    if s == [] then [x]
    else
      var n := |s| - 1;
      BeforeIsStrictOrder(s[n], x, x);
      if Before(s[n], x) then
        AppendKeepsSorted(s, x);
        s + [x]
      else
        var r := Insert(s[..n], x);
        LastComesLast(s, r, x);
        assert s == s[..n] + [s[n]];
        r + [s[n]]
  }

  lemma AppendKeepsSorted(s: seq<string>, x: string)
    requires Sorted(s) && (s == [] || Before(s[|s| - 1], x))
    ensures Sorted(s + [x])
  {
    forall i | 0 <= i < |s|
      ensures Before(s[i], x)
    {
      BeforeIsStrictOrder(s[i], s[|s| - 1], x);
    }
  }

  lemma LastComesLast(s: seq<string>, r: seq<string>, x: string)
    requires s != [] && Sorted(s) && Sorted(r) && Before(x, s[|s| - 1])
    requires multiset(r) == multiset(s[..|s| - 1]) + multiset{x}
    ensures Sorted(r + [s[|s| - 1]])
  {
    var last := s[|s| - 1];
    forall i | 0 <= i < |r|
      ensures Before(r[i], last)
    {
      assert r[i] in multiset(r);
    }
  }

  /** Sorting is unique: two sorted lists of the same names are the same list. */
  lemma {:induction false} SortedIsUnique(a: seq<string>, b: seq<string>)
    requires Sorted(a) && Sorted(b) && forall x :: x in a <==> x in b
    ensures a == b
  {
    assert a != [] ==> a[0] in b;
    assert b != [] ==> b[0] in a;
    if a == [] {
    } else {
      FirstIsLeast(a, b[0]);
      FirstIsLeast(b, a[0]);
      BeforeIsStrictOrder(a[0], b[0], a[0]);
      assert a[0] == b[0];
      forall x
        ensures x in a[1..] <==> x in b[1..]
      {
        TailIsRest(a, x);
        TailIsRest(b, x);
      }
      SortedIsUnique(a[1..], b[1..]);
    }
  }

  lemma FirstIsLeast(s: seq<string>, x: string)
    requires Sorted(s) && x in s
    ensures x == s[0] || Before(s[0], x)
  {
  }

  lemma TailIsRest(s: seq<string>, x: string)
    requires s != [] && Sorted(s)
    ensures x in s[1..] <==> x in s && x != s[0]
  {
    BeforeIsStrictOrder(s[0], s[0], s[0]);
    if x in s && x != s[0] {
      var i :| 0 <= i < |s| && s[i] == x;
      assert s[1..][i - 1] == x;
    }
    if x in s[1..] {
      var i :| 0 <= i < |s[1..]| && s[1..][i] == x;
      assert s[i + 1] == x && Before(s[0], s[i + 1]);
    }
  }
}
