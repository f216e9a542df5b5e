/** Reading a directory page by page, and that the pages make the whole. */
module Directory {
  import opened Wrappers
  import opened Strings
  import opened NamespaceTree
  import opened Namespace
  import opened PageBudget

  // The listing the cookies index.

  /** The names of a directory, in order: the map's own order does not matter. */
  method SortedNames(entries: map<string, nat>) returns (names: seq<string>)
    ensures IsListing(entries, names)
  {
    var todo := entries.Keys;
    names := [];
    while todo != {}
      invariant todo <= entries.Keys && Distinct(names)
      invariant forall n :: n in names <==> n in entries && n !in todo
      decreases todo
    {
      var n :| n in todo;
      todo := todo - {n};
      names := names + [n];
    }
    SortAscends(names);
    forall n ensures n in Sort(names) <==> n in entries {
      SortMembers(names, n);
    }
    names := Sort(names);
  }

  ghost predicate IsListing(entries: map<string, nat>, names: seq<string>) {
    Ascending(names) && forall n :: n in names <==> n in entries
  }

  /** There is one listing, whatever order the names were found in. */
  lemma {:induction false} ListingUnique(a: seq<string>, b: seq<string>)
    requires Ascending(a) && Ascending(b) && forall n :: n in a <==> n in b
    ensures a == b
  {
    assert a != [] ==> a[0] in b;
    assert b != [] ==> b[0] in a;
    if a != [] {
      var i :| 0 <= i < |b| && b[i] == a[0];
      var j :| 0 <= j < |a| && a[j] == b[0];
      if i > 0 && j > 0 { LessTransitive(a[0], b[0], a[0]); }
      LessIrreflexive(a[0]);
      LessIrreflexive(b[0]);
      assert a[0] == b[0];
      forall n ensures n in a[1..] <==> n in b[1..] {
        assert n in a <==> n == a[0] || n in a[1..];
        assert n in b <==> n == b[0] || n in b[1..];
        if n == a[0] {
          assert n !in a[1..];
          assert n !in b[1..];
        }
      }
      ListingUnique(a[1..], b[1..]);
      assert a == [a[0]] + a[1..] && b == [b[0]] + b[1..];
    }
  }

  datatype Pending = Pending(name: string, id: nat)

  /** "." and "..", then the entries in order; a cookie is an index into it. */
  function All(t: Table, d: nat, names: seq<string>): seq<Pending>
    requires d in t && forall n :: n in names ==> n in t[d].entries
  {
    [Pending(".", d), Pending("..", if t[d].parent == 0 then ROOT else t[d].parent)] +
    seq(|names|, (k: nat) requires k < |names| => assert names[k] in names; Pending(names[k], t[d].entries[names[k]]))
  }

  /** The entries from index i on whose inode the table has. */
  function Live(t: Table, all: seq<Pending>, i: nat): seq<DirEntry>
    decreases |all| - i
  {
    if i >= |all| then []
    else (if all[i].id in t then [DirEntry(all[i].id, all[i].name, i + 1)] else []) + Live(t, all, i + 1)
  }

  /** out is a page of the listing from cookie on: live entries in order, with
      nothing skipped but what is not live, and at least one unless none is left. */
  ghost predicate IsPage(t: Table, all: seq<Pending>, cookie: nat, out: seq<DirEntry>, eof: bool) {
    if out == [] then eof && Live(t, all, cookie) == []
    else
      var next := out[|out| - 1].cookie;
      && cookie < next <= |all|
      && Live(t, all, cookie) == out + Live(t, all, next)
      && (eof <==> Live(t, all, next) == [])
  }

  /** How a page spends the budget: it is as many of the live entries as the code's
      sums allow. One more would not have fitted; and it outgrows the budget if
      and only if the first sum past the budget wraps to within it. */
  ghost predicate Spends(live: seq<DirEntry>, perEntry: nat, budget: nat, out: seq<DirEntry>) {
    && out <= live && IsPageLength(live, perEntry, budget, |out|)
    && (|out| < |live| ==> Cost(perEntry, live[..|out| + 1]) > budget)
    && (|out| >= 2 && Cost(perEntry, out) > budget <==> Wraps(live, perEntry, budget))
  }

  /** What the loop has made of the entries up to index i: a start of the live
      ones, whose last takes a reader to i, each sum of them tallied. */
  ghost predicate Filling(t: Table, all: seq<Pending>, cookie: nat, perEntry: nat, budget: nat,
                          i: nat, used: nat, out: seq<DirEntry>) {
    && cookie <= i <= |all| && Live(t, all, cookie) == out + Live(t, all, i)
    && (out != [] ==> LeadsTo(t, all, cookie, out[|out| - 1].cookie, i))
    && Tallied(perEntry, budget, used, out)
  }

  /** Reading from index j is reading from index i: nothing live lies between. */
  ghost predicate LeadsTo(t: Table, all: seq<Pending>, cookie: nat, j: nat, i: nat) {
    cookie < j <= i && Live(t, all, j) == Live(t, all, i)
  }

  lemma SkipOne(t: Table, all: seq<Pending>, cookie: nat, perEntry: nat, budget: nat,
                i: nat, used: nat, out: seq<DirEntry>)
    requires Filling(t, all, cookie, perEntry, budget, i, used, out) && i < |all| && all[i].id !in t
    ensures Filling(t, all, cookie, perEntry, budget, i + 1, used, out)
  {
    assert Live(t, all, i) == [] + Live(t, all, i + 1) == Live(t, all, i + 1);
  }

  lemma TakeOne(t: Table, all: seq<Pending>, cookie: nat, perEntry: nat, budget: nat,
                i: nat, used: nat, out: seq<DirEntry>)
    requires Filling(t, all, cookie, perEntry, budget, i, used, out) && i < |all| && all[i].id in t
    requires Add32(used, Add32(perEntry, |all[i].name|)) <= budget || out == []
    ensures var de, spend := EntryAt(all, i), Add32(used, Add32(perEntry, |all[i].name|));
            Filling(t, all, cookie, perEntry, budget, i + 1, spend, out + [de])
  {
    var de := EntryAt(all, i);
    TallyOne(perEntry, budget, used, out, de);
    Assoc(out, [de], Live(t, all, i + 1));
    assert Live(t, all, i) == [de] + Live(t, all, i + 1);
    assert LeadsTo(t, all, cookie, de.cookie, i + 1);
  }

  function EntryAt(all: seq<Pending>, i: nat): DirEntry
    requires i < |all|
  {
    DirEntry(all[i].id, all[i].name, i + 1)
  }

  lemma Filled(t: Table, all: seq<Pending>, cookie: nat, perEntry: nat, budget: nat,
               i: nat, used: nat, out: seq<DirEntry>)
    requires Filling(t, all, cookie, perEntry, budget, i, used, out)
    requires i < |all| ==>
               all[i].id in t && out != [] && Add32(used, Add32(perEntry, |all[i].name|)) > budget
    ensures IsPage(t, all, cookie, out, i >= |all|) && Spends(Live(t, all, cookie), perEntry, budget, out)
  {
    var rest := Live(t, all, i);
    if i < |all| {
      TallyOne(perEntry, budget, used, out, EntryAt(all, i));
      assert rest == [EntryAt(all, i)] + Live(t, all, i + 1);
    }
    PageSpends(Live(t, all, cookie), perEntry, budget, used, out, rest);
  }

  lemma PageSpends(live: seq<DirEntry>, perEntry: nat, budget: nat, used: nat, out: seq<DirEntry>, rest: seq<DirEntry>)
    requires Tallied(perEntry, budget, used, out) && live == out + rest && (out == [] ==> rest == [])
    requires rest != [] ==> Cost(perEntry, out + [rest[0]]) % TWO_32 > budget
    ensures Spends(live, perEntry, budget, out)
  {
    TalliedIsPage(perEntry, budget, used, out, rest);
    if rest != [] { NextDoesNotFit(live, perEntry, budget, |out|); }
    OutgrowsExactly(live, perEntry, budget, |out|);
  }

  /** ReadDir's loop: fills the byte budget, but always takes one entry. */
  method Page(t: Table, all: seq<Pending>, cookie: nat, perEntry: nat, budget: nat)
    returns (out: seq<DirEntry>, eof: bool)
    requires cookie <= |all|
    ensures IsPage(t, all, cookie, out, eof) && Spends(Live(t, all, cookie), perEntry, budget, out)
  {
    out := [];
    var used: nat, i: nat := 0, cookie;
    while i < |all|
      invariant Filling(t, all, cookie, perEntry, budget, i, used, out)
      decreases |all| - i
    {
      if all[i].id in t {
        var spend := Add32(used, Add32(perEntry, |all[i].name|));
        if spend > budget && |out| > 0 {
          break;
        }
        TakeOne(t, all, cookie, perEntry, budget, i, used, out);
        out := out + [EntryAt(all, i)];
        used := spend;
      } else {
        SkipOne(t, all, cookie, perEntry, budget, i, used, out);
      }
      i := i + 1;
    }
    eof := i >= |all|;
    Filled(t, all, cookie, perEntry, budget, i, used, out);
  }

  predicate StaleVerifier(cookie: nat, verf: nat, cur: nat) {
    cookie != 0 && verf != 0 && verf != cur
  }

  /** What ReadDir answers where the listing is names. */
  ghost predicate Reads(t: Table, d: nat, names: seq<string>, cur: nat, cookie: nat, verf: nat, max: nat, plus: bool,
                        st: Status, out: seq<DirEntry>, eof: bool, newVerf: nat)
    requires d in t && IsListing(t[d].entries, names)
  {
    var all := All(t, d, names);
    if StaleVerifier(cookie, verf, cur) then st == ErrBadCookie && out == [] && newVerf == 0
    else
      && newVerf == cur
      && if cookie > |all| then st == ErrBadCookie && out == []
         else
           && st == OK && IsPage(t, all, cookie, out, eof)
           && Spends(Live(t, all, cookie), if plus then 160 else 32, Budget(max, plus), out)
  }

  function PerEntry(plus: bool): nat {
    if plus then 160 else 32
  }

  /** What the client asks for, but never less than two entries. */
  function Budget(max: nat, plus: bool): (b: nat)
    ensures var least := if plus then 320 else 64; max <= b && least <= b && (b == max || b == least)
  {
    if max < PerEntry(plus) * 2 then PerEntry(plus) * 2 else max
  }

  /** What an entry of a listing says, told by its cookie: "." and "..", then each
      name with the inode it names. */
  ghost predicate Tells(t: Table, d: nat, names: seq<string>, e: DirEntry)
    requires d in t
  {
    && 1 <= e.cookie <= |names| + 2
    && (e.cookie == 1 ==> e.name == "." && e.fileId == d)
    && (e.cookie == 2 ==> e.name == ".." && e.fileId == if t[d].parent == 0 then ROOT else t[d].parent)
    && (e.cookie >= 3 ==>
          && e.name == names[e.cookie - 3] && e.name in t[d].entries && e.fileId == t[d].entries[e.name])
  }

  lemma {:induction false} LiveTells(t: Table, d: nat, names: seq<string>, i: nat)
    requires d in t && forall n :: n in names ==> n in t[d].entries
    ensures var all := All(t, d, names);
            forall e :: e in Live(t, all, i) ==> Tells(t, d, names, e) && e.fileId in t && i < e.cookie
    decreases |names| + 2 - i
  {
    var all := All(t, d, names);
    if i < |all| {
      LiveTells(t, d, names, i + 1);
      assert i >= 2 ==> names[i - 2] in names;
    }
  }

  /** And every entry whose inode is there is listed. */
  lemma {:induction false} LiveHasAll(t: Table, d: nat, names: seq<string>, i: nat, e: DirEntry)
    requires d in t && forall n :: n in names ==> n in t[d].entries
    requires Tells(t, d, names, e) && e.fileId in t && i < e.cookie
    ensures e in Live(t, All(t, d, names), i)
    decreases |names| + 2 - i
  {
    var all := All(t, d, names);
    if e.cookie > i + 1 {
      LiveHasAll(t, d, names, i + 1, e);
    } else {
      assert all[i].name == e.name && all[i].id == e.fileId;
    }
  }

  /** ReadDir on the directory d, already resolved and permitted. hash is the
      hash of a listing; 0 stands for the zero verifier. */
  method ReadDir(t: Table, d: nat, hash: seq<string> -> nat, cookie: nat, verf: nat, max: nat, plus: bool)
    returns (st: Status, out: seq<DirEntry>, eof: bool, newVerf: nat)
    requires d in t && max < TWO_32
    ensures forall names :: IsListing(t[d].entries, names) ==>
              Reads(t, d, names, hash(names), cookie, verf, max, plus, st, out, eof, newVerf)
    ensures forall names :: IsListing(t[d].entries, names) ==>
              var stale := cookie != 0 && verf != 0 && verf != hash(names);
              && (st == ErrBadCookie <==> stale || cookie > |names| + 2)
              && (st == OK || st == ErrBadCookie) && newVerf == (if stale then 0 else hash(names))
              && (forall e :: e in out ==> Tells(t, d, names, e) && e.fileId in t && cookie < e.cookie)
  {
    var names := SortedNames(t[d].entries);
    forall other | IsListing(t[d].entries, other) ensures other == names {
      ListingUnique(other, names);
    }
    var cur := hash(names);
    out, eof := [], false;
    if cookie != 0 && verf != 0 && verf != cur {
      st, newVerf := ErrBadCookie, 0;
      return;
    }
    var all := All(t, d, names);
    newVerf := cur;
    if cookie > |all| {
      st := ErrBadCookie;
      return;
    }
    st := OK;
    LiveTells(t, d, names, cookie);
    out, eof := Page(t, all, cookie, PerEntry(plus), Budget(max, plus));
  }

  lemma {:induction false} LiveNames(t: Table, all: seq<Pending>, i: nat, longest: nat)
    requires forall p :: p in all ==> |p.name| <= longest
    ensures forall e :: e in Live(t, all, i) ==> |e.name| <= longest
    decreases |all| - i
  {
    if i < |all| {
      LiveNames(t, all, i + 1, longest);
      assert all[i] in all;
    }
  }

  const MAX_READ := 0x10_0000  // the most the NFS server asks for

  /** The server's own calls always get a page within the budget: it clamps max,
      and no name it lets in is longer than MAX_NAME. */
  lemma ServerPagesFit(t: Table, d: nat, names: seq<string>, cur: nat, cookie: nat, verf: nat, max: nat, plus: bool,
                       st: Status, out: seq<DirEntry>, eof: bool, newVerf: nat)
    requires d in t && IsListing(t[d].entries, names) && forall n :: n in names ==> |n| <= MAX_NAME
    requires Reads(t, d, names, cur, cookie, verf, max, plus, st, out, eof, newVerf) && max <= MAX_READ
    ensures |out| <= 1 || Cost(PerEntry(plus), out) <= Budget(max, plus)
  {
    var all := All(t, d, names);
    if st == OK {
      forall p | p in all ensures |p.name| <= MAX_NAME {
        var i :| 0 <= i < |all| && all[i] == p;
        assert i >= 2 ==> names[i - 2] in names;
      }
      LiveNames(t, all, cookie, MAX_NAME);
      RoomNeverWraps(Live(t, all, cookie), PerEntry(plus), Budget(max, plus), MAX_NAME);
    }
  }

  lemma PagesJoin(t: Table, all: seq<Pending>, got: seq<DirEntry>, cookie: nat, page: seq<DirEntry>, eof: bool)
    requires cookie <= |all| && Live(t, all, 0) == got + Live(t, all, cookie) && IsPage(t, all, cookie, page, eof)
    ensures var next := if page == [] then cookie else page[|page| - 1].cookie;
            && next <= |all|
            && Live(t, all, 0) == (got + page) + Live(t, all, next)
            && (eof ==> Live(t, all, 0) == got + page)
            && (!eof ==> cookie < next)
  {
    if page == [] {
      assert got + page == got;
    } else {
      var next := page[|page| - 1].cookie;
      assert got + (page + Live(t, all, next)) == (got + page) + Live(t, all, next);
    }
  }

  /** A client reading page after page from the last cookie and verifier, with
      any byte budget each time, until told it has reached the end. */
  method ReadWhole(t: Table, d: nat, hash: seq<string> -> nat) returns (entries: seq<DirEntry>)
    requires d in t
    ensures forall names :: IsListing(t[d].entries, names) ==> entries == Live(t, All(t, d, names), 0)
    ensures forall names, e :: IsListing(t[d].entries, names) ==>
              (e in entries <==> Tells(t, d, names, e) && e.fileId in t)
    ensures Tree(t) ==> forall names :: IsListing(t[d].entries, names) ==> IsWhole(t, d, names, entries)
  {
    var names := SortedNames(t[d].entries);
    entries := [];
    ghost var all := All(t, d, names);
    var cookie: nat, verf, eof := 0, 0, false;
    while !eof
      invariant cookie <= |all| && (verf == 0 || verf == hash(names))
      invariant Live(t, all, 0) == entries + Live(t, all, cookie)
      invariant eof ==> Live(t, all, 0) == entries
      decreases !eof, |all| - cookie
    {
      var max, plus := AnyBudget();
      var st, page;
      st, page, eof, verf := ReadDir(t, d, hash, cookie, verf, max, plus);
      PagesJoin(t, all, entries, cookie, page, eof);
      entries := entries + page;
      if page != [] {
        cookie := page[|page| - 1].cookie;
      }
    }
    forall other | IsListing(t[d].entries, other) ensures other == names {
      ListingUnique(other, names);
    }
    LiveTells(t, d, names, 0);
    forall e | Tells(t, d, names, e) && e.fileId in t ensures e in entries {
      LiveHasAll(t, d, names, 0, e);
    }
    if Tree(t) { WholeIsEverything(t, d, names); }
  }

  /** The whole of a directory: ".", ".." and every name once, in order, each with
      the inode it names, and the cookies 1, 2, 3 and on. */
  ghost predicate IsWhole(t: Table, d: nat, names: seq<string>, entries: seq<DirEntry>)
    requires d in t && IsListing(t[d].entries, names)
  {
    && |entries| == |names| + 2
    && entries[0] == DirEntry(d, ".", 1)
    && entries[1] == DirEntry(if d == ROOT then ROOT else t[d].parent, "..", 2)
    && forall k :: 0 <= k < |names| ==>
         names[k] in t[d].entries && entries[k + 2] == DirEntry(t[d].entries[names[k]], names[k], k + 3)
  }

  lemma {:induction false} ListingSize(entries: map<string, nat>, names: seq<string>)
    requires IsListing(entries, names)
    ensures |names| == |entries|
  {
    if names == [] {
      assert entries == map[] by { assert forall n :: n !in entries; }
    } else {
      var rest := names[1..];
      LessIrreflexive(names[0]);
      assert names == [names[0]] + rest;
      assert names[0] !in rest;
      ListingSize(entries - {names[0]}, rest);
      assert |entries - {names[0]}| == |entries| - 1 by {
        assert (entries - {names[0]}).Keys == entries.Keys - {names[0]};
      }
    }
  }

  method AnyBudget() returns (max: nat, plus: bool)
    ensures max < TWO_32
  {
    max, plus := *, *;
    max := max % TWO_32;
  }

  /** In a tree every entry is live, so the whole of a directory is listed: as many
      entries as it has, and two. */
  lemma WholeIsEverything(t: Table, d: nat, names: seq<string>)
    requires Tree(t) && d in t && IsListing(t[d].entries, names)
    ensures var live := Live(t, All(t, d, names), 0);
            IsWhole(t, d, names, live) && |live| == |t[d].entries| + 2
  {
    var all := All(t, d, names);
    ListingSize(t[d].entries, names);
    forall k | 0 <= k < |all| ensures all[k].id in t {
      if k >= 2 {
        assert names[k - 2] in names;
        assert EntryInv(t, d, names[k - 2]);
      } else if d != ROOT {
        assert Named(t, d);
      }
    }
    LiveIsSuffix(t, all, 0);
    assert d != ROOT ==> Named(t, d) && InodeInv(t, t[d].parent);
    forall k | 0 <= k < |names|
      ensures names[k] in t[d].entries &&
              Live(t, all, 0)[k + 2] == DirEntry(t[d].entries[names[k]], names[k], k + 3)
    {
      assert names[k] in names && all[k + 2] == Pending(names[k], t[d].entries[names[k]]);
    }
  }

  lemma {:induction false} LiveIsSuffix(t: Table, all: seq<Pending>, i: nat)
    requires i <= |all| && forall k :: 0 <= k < |all| ==> all[k].id in t
    ensures |Live(t, all, i)| == |all| - i
    ensures forall k :: 0 <= k < |all| - i ==> Live(t, all, i)[k] == DirEntry(all[i + k].id, all[i + k].name, i + k + 1)
    decreases |all| - i
  {
    if i < |all| {
      LiveIsSuffix(t, all, i + 1);
      var rest := Live(t, all, i + 1);
      assert Live(t, all, i) == [DirEntry(all[i].id, all[i].name, i + 1)] + rest;
      forall k | 0 < k < |all| - i ensures Live(t, all, i)[k] == DirEntry(all[i + k].id, all[i + k].name, i + k + 1) {
        assert Live(t, all, i)[k] == rest[k - 1];
      }
    }
  }
}
