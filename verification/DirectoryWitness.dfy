/** A directory whose listing outgrows its page: a well-formed namespace, with
    names the filesystem takes, on which a budget near 2^32 is overrun. */
module DirectoryWitness {
  import opened Wrappers
  import opened Strings
  import opened SnapshotKeys
  import opened NamespaceTree
  import opened Namespace
  import opened PageBudget
  import opened Directory

  const WIDTH := 9

  function NameOf(k: nat): (n: string)
    ensures |n| == WIDTH
  {
    Decimal(k, WIDTH)
  }

  lemma NamesDiffer(j: nat, k: nat)
    requires j < 1_000_000_000 && k < 1_000_000_000
    ensures Less(NameOf(j), NameOf(k)) <==> j < k
    ensures NameOf(j) == NameOf(k) <==> j == k
  {
    assert Pow(10, WIDTH) == 1_000_000_000 by {
      assert Pow(10, 4) == 1_0000;
      assert Pow(10, 8) == 10000_0000;
    }
    DecimalOrder(j, k, WIDTH);
  }

  lemma {:induction false} DecimalDigits(k: nat, width: nat)
    ensures forall c :: c in Decimal(k, width) ==> '0' <= c <= '9'
  {
    if width > 0 { DecimalDigits(k / 10, width - 1); }
  }

  lemma NameIsValid(k: nat)
    ensures ValidName(NameOf(k)) == OK
  {
    DecimalDigits(k, WIDTH);
  }

  function Names(n: nat): (s: seq<string>)
    ensures |s| == n && forall k :: 0 <= k < n ==> s[k] == NameOf(k)
  {
    seq(n, (k: nat) => NameOf(k))
  }

  ghost predicate Entered(entries: map<string, nat>, n: nat) {
    && (forall k: nat :: k < n ==> NameOf(k) in entries && entries[NameOf(k)] == k + 2)
    && (forall s :: s in entries ==> exists k: nat :: k < n && NameOf(k) == s)
  }

  lemma {:induction false} EntriesExist(n: nat) returns (entries: map<string, nat>)
    requires n <= 1_000_000_000
    ensures Entered(entries, n)
  {
    entries := map[];
    if n > 0 {
      var rest := EntriesExist(n - 1);
      entries := rest[NameOf(n - 1) := n + 1];
      forall k: nat | k < n ensures NameOf(k) in entries && entries[NameOf(k)] == k + 2 {
        NamesDiffer(k, n - 1);
      }
      forall s | s in entries ensures exists k: nat :: k < n && NameOf(k) == s {
        if s in rest {
          var k: nat :| k < n - 1 && NameOf(k) == s;
          assert k < n && NameOf(k) == s;
        } else {
          var k: nat := n - 1;
          assert k < n && NameOf(k) == s;
        }
      }
    }
  }

  function Flat(n: nat, entries: map<string, nat>): Table {
    map i: nat | 1 <= i < n + 2 ::
      if i == ROOT then Inode(ROOT, 0, Dir, 2, entries, 0) else Inode(i, 0, Reg, 1, map[], ROOT)
  }

  /** n files in the root make a tree. */
  lemma FlatIsTree(n: nat, entries: map<string, nat>)
    requires n <= 1_000_000_000 && Entered(entries, n)
    ensures Tree(Flat(n, entries))
  {
    var t := Flat(n, entries);
    forall s | s in entries ensures EntryInv(t, ROOT, s) && !t[entries[s]].kind.Dir? {
      FlatEntry(n, entries, s);
    }
    assert Subdirs(t, ROOT) == {};
    forall i | i in t ensures InodeInv(t, i) {}
    forall d, s | d in t && s in t[d].entries ensures EntryInv(t, d, s) {}
    forall i | i in t && i != ROOT ensures Named(t, i) {
      var k: nat := i - 2;
      assert entries[NameOf(k)] == i;
    }
    assert Ranked(t, map i | i in t :: if i == ROOT then 0 else 1);
  }

  lemma FlatEntry(n: nat, entries: map<string, nat>, s: string)
    requires n <= 1_000_000_000 && Entered(entries, n) && s in entries
    ensures var t := Flat(n, entries);
            ROOT in t && EntryInv(t, ROOT, s) && entries[s] in t && !t[entries[s]].kind.Dir?
  {
    var k: nat :| k < n && NameOf(k) == s;
    forall s' | s' in entries && entries[s'] == entries[s] ensures s' == s {
      var j: nat :| j < n && NameOf(j) == s';
      assert j == k;
    }
  }

  lemma FlatListing(n: nat, entries: map<string, nat>)
    requires n <= 1_000_000_000 && Entered(entries, n)
    ensures IsListing(entries, Names(n))
  {
    forall i, j | 0 <= i < j < n ensures Less(Names(n)[i], Names(n)[j]) {
      NamesDiffer(i, j);
    }
    forall s ensures s in Names(n) <==> s in entries {
      if s in entries {
        var k: nat :| k < n && NameOf(k) == s;
        assert Names(n)[k] == s;
      }
    }
  }

  const LONG := 0x800_0000  // at 32 bytes an entry and more, past 2^32

  /** On a directory of this many entries, the page the greatest budget gets costs
      more than that budget. */
  lemma LongPageOutgrows(t: Table, d: nat, names: seq<string>, cur: nat, verf: nat,
                         st: Status, out: seq<DirEntry>, eof: bool, newVerf: nat)
    requires Tree(t) && d in t && IsListing(t[d].entries, names) && |names| >= LONG
    requires Reads(t, d, names, cur, 0, verf, TWO_32 - 1, false, st, out, eof, newVerf)
    ensures |out| >= 2 && Cost(PerEntry(false), out) > Budget(TWO_32 - 1, false)
  {
    WholeIsEverything(t, d, names);
    var live := Live(t, All(t, d, names), 0);
    CostAtLeast(32, live);
    GreatestBudget(live, 32, |out|);
  }

  /** And there is one, as the filesystem makes them. */
  lemma LongDirectoryExists() returns (t: Table, names: seq<string>)
    ensures Tree(t) && IsListing(t[ROOT].entries, names) && |names| == LONG
    ensures forall s :: s in names ==> ValidName(s) == OK
  {
    var entries := EntriesExist(LONG);
    t, names := Flat(LONG, entries), Names(LONG);
    FlatIsTree(LONG, entries);
    FlatListing(LONG, entries);
    forall s | s in names ensures ValidName(s) == OK {
      var k :| 0 <= k < LONG && names[k] == s;
      NameIsValid(k);
    }
  }
}
