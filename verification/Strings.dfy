/** Go's order on strings, byte by byte, and sorting by it. */
module Strings {
  predicate Less(a: string, b: string) {
    b != [] && (a == [] || a[0] < b[0] || (a[0] == b[0] && Less(a[1..], b[1..])))
  }

  lemma {:induction false} LessIrreflexive(a: string)
    ensures !Less(a, a)
  {
    if a != [] { LessIrreflexive(a[1..]); }
  }

  lemma {:induction false} LessTransitive(a: string, b: string, c: string)
    requires Less(a, b) && Less(b, c)
    ensures Less(a, c)
  {
    if a != [] && a[0] == b[0] == c[0] { LessTransitive(a[1..], b[1..], c[1..]); }
  }

  lemma {:induction false} LessTotal(a: string, b: string)
    ensures a == b || Less(a, b) || Less(b, a)
  {
    if a != [] && b != [] && a[0] == b[0] {
      LessTotal(a[1..], b[1..]);
      if a[1..] == b[1..] { assert a == [a[0]] + a[1..] == [b[0]] + b[1..] == b; }
    }
  }

  /** Strings whose heads have one length compare by the heads, then by the tails. */
  lemma {:induction false} LessConcat(a: string, x: string, b: string, y: string)
    requires |a| == |b|
    ensures Less(a + x, b + y) <==> Less(a, b) || (a == b && Less(x, y))
  {
    if a == [] {
      assert a + x == x && b + y == y;
    } else {
      LessConcat(a[1..], x, b[1..], y);
      assert (a + x)[1..] == a[1..] + x && (b + y)[1..] == b[1..] + y;
      assert a[0] == b[0] && a[1..] == b[1..] ==> a == [a[0]] + a[1..] == [b[0]] + b[1..] == b;
    }
  }

  predicate Sorted(s: seq<string>) {
    forall i, j :: 0 <= i < j < |s| ==> !Less(s[j], s[i])
  }

  predicate Distinct<T(==)>(s: seq<T>) {
    forall i, j :: 0 <= i < j < |s| ==> s[i] != s[j]
  }

  function Insert(x: string, s: seq<string>): (r: seq<string>) {
    if s == [] || !Less(s[0], x) then [x] + s else [s[0]] + Insert(x, s[1..])
  }

  function Sort(s: seq<string>): (r: seq<string>) {
    if s == [] then [] else Insert(s[0], Sort(s[1..]))
  }

  lemma {:induction false} InsertSorts(x: string, s: seq<string>)
    requires Sorted(s)
    ensures Sorted(Insert(x, s)) && multiset(Insert(x, s)) == multiset(s) + multiset{x}
  {
    if s == [] {
    } else if !Less(s[0], x) {
      forall i | 0 <= i < |s| ensures !Less(s[i], x) {
        if Less(s[i], x) {
          LessTotal(s[0], s[i]);
          if Less(s[0], s[i]) { LessTransitive(s[0], s[i], x); }
        }
      }
    } else {
      InsertSorts(x, s[1..]);
      assert s == [s[0]] + s[1..];
      var r := Insert(x, s[1..]);
      forall i | 0 <= i < |r| ensures !Less(r[i], s[0]) {
        assert r[i] in multiset(r);
        if r[i] == x {
          if Less(x, s[0]) { LessTransitive(s[0], x, s[0]); LessIrreflexive(s[0]); }
        } else {
          assert r[i] in s[1..];
        }
      }
    }
  }

  lemma {:induction false} SortSorts(s: seq<string>)
    ensures Sorted(Sort(s)) && multiset(Sort(s)) == multiset(s) && |Sort(s)| == |s|
  {
    if s != [] {
      SortSorts(s[1..]);
      InsertSorts(s[0], Sort(s[1..]));
      assert s == [s[0]] + s[1..];
    }
    assert |Sort(s)| == |multiset(Sort(s))| == |multiset(s)| == |s|;
  }

  /** Distinct strings, sorted, are strictly ascending. */
  lemma SortStrict(s: seq<string>, i: nat, j: nat)
    requires Distinct(s) && i < j < |s|
    ensures |Sort(s)| == |s| && Less(Sort(s)[i], Sort(s)[j])
  {
    SortSorts(s);
    SortDistinct(s);
    LessTotal(Sort(s)[i], Sort(s)[j]);
  }

  lemma SortDistinct(s: seq<string>)
    requires Distinct(s)
    ensures Distinct(Sort(s))
  {
    SortSorts(s);
    MultiplicityOne(s);
    OneMultiplicity(Sort(s));
  }

  lemma {:induction false} MultiplicityOne(s: seq<string>)
    requires Distinct(s)
    ensures forall x :: multiset(s)[x] <= 1
  {
    if s != [] {
      MultiplicityOne(s[1..]);
      assert s == [s[0]] + s[1..];
      assert s[0] !in s[1..];
      assert s[0] !in multiset(s[1..]);
    }
  }

  lemma OneMultiplicity(s: seq<string>)
    requires forall x :: multiset(s)[x] <= 1
    ensures Distinct(s)
  {
    forall i, j | 0 <= i < j < |s| ensures s[i] != s[j] {
      assert s == s[..j] + [s[j]] + s[j + 1..];
      assert multiset(s) == multiset(s[..j]) + multiset{s[j]} + multiset(s[j + 1..]);
      assert multiset(s)[s[j]] <= 1;
      assert s[i] in s[..j];
    }
  }

  predicate Ascending(s: seq<string>) {
    forall i, j :: 0 <= i < j < |s| ==> Less(s[i], s[j])
  }

  lemma SortAscends(s: seq<string>)
    requires Distinct(s)
    ensures Ascending(Sort(s))
  {
    SortSorts(s);
    forall i: nat, j: nat | i < j < |s| ensures Less(Sort(s)[i], Sort(s)[j]) {
      SortStrict(s, i, j);
    }
  }

  lemma SortMembers(s: seq<string>, x: string)
    ensures x in Sort(s) <==> x in s
  {
    SortSorts(s);
    assert x in Sort(s) <==> x in multiset(Sort(s));
    assert x in s <==> x in multiset(s);
  }
}
