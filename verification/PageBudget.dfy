/** How a page of a directory spends its byte budget: costs added in a uint32,
    what that makes of the page, and exactly when the page outgrows the budget. */
module PageBudget {
  import opened Wrappers

  datatype DirEntry = DirEntry(fileId: nat, name: string, cookie: nat)

  /** uint32 addition. */
  function Add32(a: nat, b: nat): (r: nat)
    ensures r < TWO_32 && (a + b < TWO_32 ==> r == a + b)
  {
    (a + b) % TWO_32
  }

  /** What entries are charged against the client's byte budget. */
  function Cost(perEntry: nat, es: seq<DirEntry>): nat {
    if es == [] then 0 else Cost(perEntry, es[..|es| - 1]) + perEntry + |es[|es| - 1].name|
  }

  lemma {:induction false} CostConcat(perEntry: nat, a: seq<DirEntry>, b: seq<DirEntry>)
    ensures Cost(perEntry, a + b) == Cost(perEntry, a) + Cost(perEntry, b)
  {
    if b == [] {
      assert a + b == a;
    } else {
      var n := |b| - 1;
      assert (a + b)[..|a + b| - 1] == a + b[..n];
      CostConcat(perEntry, a, b[..n]);
    }
  }

  lemma CostPrefix(perEntry: nat, es: seq<DirEntry>, j: nat, k: nat)
    requires j <= k <= |es|
    ensures Cost(perEntry, es[..j]) <= Cost(perEntry, es[..k])
  {
    assert es[..k] == es[..j] + es[j..k];
    CostConcat(perEntry, es[..j], es[j..k]);
  }

  lemma CostNext(perEntry: nat, es: seq<DirEntry>, k: nat)
    requires k < |es|
    ensures Cost(perEntry, es[..k + 1]) == Cost(perEntry, es[..k]) + perEntry + |es[k].name|
  {
    assert es[..k + 1][..k] == es[..k];
  }

  lemma {:induction false} CostAtLeast(perEntry: nat, es: seq<DirEntry>)
    ensures |es| * perEntry <= Cost(perEntry, es)
  {
    if es != [] {
      CostAtLeast(perEntry, es[..|es| - 1]);
      assert |es| * perEntry == (|es| - 1) * perEntry + perEntry;
    }
  }

  // The page.

  /** The first k live entries are within the budget, as the code adds them up. */
  predicate Fits(live: seq<DirEntry>, perEntry: nat, budget: nat, k: nat)
    requires k <= |live|
  {
    Cost(perEntry, live[..k]) % TWO_32 <= budget
  }

  /** A page is the first n of the live entries: the first whatever it costs, the
      others as long as each sum fits, and then no more. There is one such n. */
  ghost predicate IsPageLength(live: seq<DirEntry>, perEntry: nat, budget: nat, n: nat) {
    && n <= |live| && (live != [] ==> n > 0)
    && (forall k :: 2 <= k <= n ==> Fits(live, perEntry, budget, k))
    && (0 < n < |live| ==> !Fits(live, perEntry, budget, n + 1))
  }

  lemma PageLengthUnique(live: seq<DirEntry>, perEntry: nat, budget: nat, m: nat, n: nat)
    requires IsPageLength(live, perEntry, budget, m) && IsPageLength(live, perEntry, budget, n)
    ensures m == n
  {
  }

  /** The first sum of two or more that is past the budget wraps to within it. */
  ghost predicate WrapsAt(live: seq<DirEntry>, perEntry: nat, budget: nat, k: nat) {
    && 2 <= k <= |live|
    && Cost(perEntry, live[..k]) > budget && Fits(live, perEntry, budget, k)
    && (k == 2 || Cost(perEntry, live[..k - 1]) <= budget)
  }

  ghost predicate Wraps(live: seq<DirEntry>, perEntry: nat, budget: nat) {
    exists k :: WrapsAt(live, perEntry, budget, k)
  }

  lemma {:induction false} FirstPast(live: seq<DirEntry>, perEntry: nat, budget: nat, n: nat) returns (k: nat)
    requires 2 <= n <= |live| && Cost(perEntry, live[..n]) > budget
    ensures 2 <= k <= n && Cost(perEntry, live[..k]) > budget
    ensures k == 2 || Cost(perEntry, live[..k - 1]) <= budget
  {
    if n == 2 || Cost(perEntry, live[..n - 1]) <= budget {
      k := n;
    } else {
      k := FirstPast(live, perEntry, budget, n - 1);
    }
  }

  /** A page of more than one entry costs more than its budget if and only if, of
      what there is to list, the first sum past the budget wraps to within it. */
  lemma OutgrowsExactly(live: seq<DirEntry>, perEntry: nat, budget: nat, n: nat)
    requires IsPageLength(live, perEntry, budget, n)
    ensures n >= 2 && Cost(perEntry, live[..n]) > budget <==> Wraps(live, perEntry, budget)
  {
    if n >= 2 && Cost(perEntry, live[..n]) > budget {
      var k := FirstPast(live, perEntry, budget, n);
      assert WrapsAt(live, perEntry, budget, k);
    }
    if Wraps(live, perEntry, budget) {
      var k :| WrapsAt(live, perEntry, budget, k);
      ReachesTheWrap(live, perEntry, budget, n, k);
      CostPrefix(perEntry, live, k, n);
    }
  }

  lemma ReachesTheWrap(live: seq<DirEntry>, perEntry: nat, budget: nat, n: nat, k: nat)
    requires IsPageLength(live, perEntry, budget, n) && WrapsAt(live, perEntry, budget, k)
    ensures k <= n
  {
    if n + 1 < k { CostPrefix(perEntry, live, n + 1, k - 1); }
  }

  /** The next live entry would not have fitted, wrapped or not. */
  lemma NextDoesNotFit(live: seq<DirEntry>, perEntry: nat, budget: nat, n: nat)
    requires IsPageLength(live, perEntry, budget, n) && n < |live|
    ensures Cost(perEntry, live[..n + 1]) > budget
  {
  }

  // Where it cannot happen, and where it does.

  /** Whatever costs less than 2^32 in all does not wrap. */
  lemma ShortNeverWraps(live: seq<DirEntry>, perEntry: nat, budget: nat)
    requires Cost(perEntry, live) < TWO_32
    ensures !Wraps(live, perEntry, budget)
  {
    forall k | 2 <= k <= |live| ensures !WrapsAt(live, perEntry, budget, k) {
      CostPrefix(perEntry, live, k, |live|);
      assert live[..|live|] == live;
    }
  }

  /** Nor does anything with a budget far enough below 2^32 for the entries. */
  lemma RoomNeverWraps(live: seq<DirEntry>, perEntry: nat, budget: nat, longest: nat)
    requires forall e :: e in live ==> |e.name| <= longest
    requires budget + 2 * (perEntry + longest) < TWO_32
    ensures !Wraps(live, perEntry, budget)
  {
    forall k | 2 <= k <= |live| ensures !WrapsAt(live, perEntry, budget, k) {
      assert live[k - 1] in live && live[k - 2] in live;
      CostNext(perEntry, live, k - 1);
      if k == 2 {
        CostNext(perEntry, live, 0);
        assert live[..0] == [];
      }
    }
  }

  /** With the greatest budget the page is everything, so it outgrows it exactly
      when everything costs 2^32 or more. */
  lemma GreatestBudget(live: seq<DirEntry>, perEntry: nat, n: nat)
    requires IsPageLength(live, perEntry, TWO_32 - 1, n)
    ensures n == |live|
    ensures Wraps(live, perEntry, TWO_32 - 1) <==> |live| >= 2 && Cost(perEntry, live) >= TWO_32
  {
    assert n < |live| && n > 0 ==> !Fits(live, perEntry, TWO_32 - 1, n + 1);
    assert live[..|live|] == live;
    OutgrowsExactly(live, perEntry, TWO_32 - 1, n);
  }

  // The loop's bookkeeping.

  /** used is what the page has cost so far, as a uint32, and each sum fitted. */
  ghost predicate Tallied(perEntry: nat, budget: nat, used: nat, out: seq<DirEntry>) {
    && used == Cost(perEntry, out) % TWO_32
    && forall k :: 2 <= k <= |out| ==> Fits(out, perEntry, budget, k)
  }

  lemma SumWraps(a: nat, b: nat, c: nat)
    ensures Add32(a % TWO_32, Add32(b, c)) == (a + b + c) % TWO_32
  {
  }

  lemma TallyOne(perEntry: nat, budget: nat, used: nat, out: seq<DirEntry>, de: DirEntry)
    requires Tallied(perEntry, budget, used, out)
    ensures var spend, more := Add32(used, Add32(perEntry, |de.name|)), out + [de];
            && spend == Cost(perEntry, more) % TWO_32
            && (spend <= budget || out == [] ==> Tallied(perEntry, budget, spend, more))
  {
    var spend, more := Add32(used, Add32(perEntry, |de.name|)), out + [de];
    assert more[..|out|] == out;
    SumWraps(Cost(perEntry, out), perEntry, |de.name|);
    assert more[..|more|] == more;
    forall k | 2 <= k <= |more| && (spend <= budget || out == []) ensures Fits(more, perEntry, budget, k) {
      if k <= |out| {
        assert Fits(out, perEntry, budget, k);
        assert more[..k] == out[..k];
      }
    }
  }

  /** A page that stopped where the next entry did not fit, or at the end. */
  lemma TalliedIsPage(perEntry: nat, budget: nat, used: nat, out: seq<DirEntry>, rest: seq<DirEntry>)
    requires Tallied(perEntry, budget, used, out) && (out == [] ==> rest == [])
    requires rest != [] ==> Cost(perEntry, out + [rest[0]]) % TWO_32 > budget
    ensures IsPageLength(out + rest, perEntry, budget, |out|) && (out + rest)[..|out|] == out
  {
    var live := out + rest;
    forall k | 2 <= k <= |out| ensures Fits(live, perEntry, budget, k) {
      assert Fits(out, perEntry, budget, k);
      assert live[..k] == out[..k];
    }
    if rest != [] { assert live[..|out| + 1] == out + [rest[0]]; }
  }
}
