/**
 * Python's ordering of `str` values (lexicographic by code point, a proper
 * prefix before any extension of it) and the strictly sorted, duplicate-free
 * listing of a collection of names that `sorted(set(...))` produces.
 */
module StringOrder {

  /** `a < b` on Python strings. */
  predicate Less(a: string, b: string)
    decreases |a|
  {
    if |a| == 0 then |b| > 0
    else |b| > 0 && (a[0] < b[0] || (a[0] == b[0] && Less(a[1..], b[1..])))
  }

  lemma {:induction false} LessIrreflexive(a: string)
    ensures !Less(a, a)
  {
    if |a| > 0 {
      LessIrreflexive(a[1..]);
    }
  }

  lemma {:induction false} LessTransitive(a: string, b: string, c: string)
    requires Less(a, b) && Less(b, c)
    ensures Less(a, c)
  {
    if |a| > 0 && a[0] == b[0] && b[0] == c[0] {
      LessTransitive(a[1..], b[1..], c[1..]);
    }
  }

  lemma {:induction false} LessTotal(a: string, b: string)
    ensures a == b || Less(a, b) || Less(b, a)
  {
    if |a| > 0 && |b| > 0 && a[0] == b[0] {
      LessTotal(a[1..], b[1..]);
      if a[1..] == b[1..] {
        assert a == [a[0]] + a[1..] && b == [b[0]] + b[1..];
      }
    }
  }

  lemma LessAsymmetric(a: string, b: string)
    requires Less(a, b)
    ensures !Less(b, a)
  {
    if Less(b, a) {
      LessTransitive(a, b, a);
      LessIrreflexive(a);
    }
  }

  lemma LessNotBoth(a: string, b: string)
    ensures !(Less(a, b) && Less(b, a))
  {
    if Less(a, b) {
      LessAsymmetric(a, b);
    }
  }

  predicate StrictlySorted(s: seq<string>) {
    forall i, j :: 0 <= i < j < |s| ==> Less(s[i], s[j])
  }

  /** A strictly sorted list names nothing twice. */
  lemma SortedHasNoDuplicates(s: seq<string>)
    requires StrictlySorted(s)
    ensures forall i, j :: 0 <= i < j < |s| ==> s[i] != s[j]
  {
    forall i, j | 0 <= i < j < |s| ensures s[i] != s[j] {
      LessIrreflexive(s[i]);
    }
  }

  /** The head of a strictly sorted list is below every other element. */
  lemma SortedStartsWithLeast(s: seq<string>, y: string)
    requires StrictlySorted(s) && y in s
    ensures y == s[0] || Less(s[0], y)
  {
    var k :| 0 <= k < |s| && s[k] == y;
  }

  lemma ConsSorted(x: string, s: seq<string>)
    requires StrictlySorted(s)
    requires |s| > 0 ==> Less(x, s[0])
    ensures StrictlySorted([x] + s)
  {
    forall j | 0 < j < |s| ensures Less(x, s[j]) {
      LessTransitive(x, s[0], s[j]);
    }
  }

  /** Adds `x` to a strictly sorted list unless it is already there. */
  function Insert(s: seq<string>, x: string): (r: seq<string>)
    requires StrictlySorted(s)
    ensures StrictlySorted(r)
    ensures forall y :: y in r <==> y in s || y == x
  {
    if s == [] then [x]
    else if x == s[0] then s
    else if Less(x, s[0]) then
      ConsSorted(x, s);
      [x] + s
    else
      LessTotal(x, s[0]);
      var rest := Insert(s[1..], x);
      assert Less(s[0], rest[0]) by {
        assert rest[0] in rest;
        if rest[0] != x {
          var k :| 0 <= k < |s[1..]| && s[1..][k] == rest[0];
          assert s[k + 1] == rest[0];
        }
      }
      ConsSorted(s[0], rest);
      [s[0]] + rest
  }

  /** `sorted(set(names))`. */
  function SortedUnique(names: seq<string>): (r: seq<string>)
    ensures StrictlySorted(r)
    ensures forall y :: y in r <==> y in names
  {
    if names == [] then []
    else Insert(SortedUnique(names[1..]), names[0])
  }

  /** There is only one strictly sorted listing of a given set of names. */
  lemma {:induction false} SortedListingIsUnique(r: seq<string>, s: seq<string>)
    requires StrictlySorted(r) && StrictlySorted(s)
    requires forall y :: y in r <==> y in s
    ensures r == s
  {
    if r == [] {
      assert forall i :: 0 <= i < |s| ==> s[i] in r;
    } else {
      assert r[0] in r && s != [] && s[0] in s;
      assert r[0] == s[0] by {
        SortedStartsWithLeast(s, r[0]);
        SortedStartsWithLeast(r, s[0]);
        LessNotBoth(r[0], s[0]);
      }
      forall y ensures y in r[1..] <==> y in s[1..] {
        if y in r[1..] {
          var k :| 1 <= k < |r| && r[k] == y;
          LessIrreflexive(y);
          assert y in s && y != s[0];
        }
        if y in s[1..] {
          var k :| 1 <= k < |s| && s[k] == y;
          LessIrreflexive(y);
          assert y in r && y != r[0];
        }
      }
      SortedListingIsUnique(r[1..], s[1..]);
      assert r == [r[0]] + r[1..] && s == [s[0]] + s[1..];
    }
  }
}
