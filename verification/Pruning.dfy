/** Which superseded snapshots a prune pass deletes. */
module Pruning {
  import opened Strings
  import opened SnapshotKeys
  import opened CommitProtocol

  function Below(keys: seq<string>, current: string): (r: seq<string>) {
    if keys == [] then []
    else
      var rest := Below(keys[..|keys| - 1], current);
      if Less(keys[|keys| - 1], current) then rest + [keys[|keys| - 1]] else rest
  }

  /** The keys below current and above k: those a pass for current prefers to k. */
  function Newer(keys: seq<string>, current: string, k: string): set<string> {
    set j | j in keys && Less(j, current) && Less(k, j)
  }

  lemma {:induction false} BelowIsBelow(keys: seq<string>, current: string)
    ensures forall k :: k in Below(keys, current) <==> k in keys && Less(k, current)
    ensures Distinct(keys) ==> Distinct(Below(keys, current))
  {
    if keys != [] {
      var front := keys[..|keys| - 1];
      BelowIsBelow(front, current);
      assert keys == front + [keys[|keys| - 1]];
      assert Distinct(keys) ==> Distinct(front) && keys[|keys| - 1] !in front;
    }
  }

  function Elements(s: seq<string>): set<string> {
    set x | x in s
  }

  function Above(s: seq<string>, k: string): set<string> {
    set x | x in s && Less(k, x)
  }

  lemma {:induction false} AscendingSize(s: seq<string>)
    requires Ascending(s)
    ensures |Elements(s)| == |s|
  {
    if s != [] {
      var rest := s[1..];
      AscendingSize(rest);
      LessIrreflexive(s[0]);
      assert s[0] !in rest;
      assert Elements(s) == Elements(rest) + {s[0]};
    }
  }

  /** In an ascending list, what is above an entry is what comes after it. */
  lemma AboveIsAfter(s: seq<string>, p: nat)
    requires Ascending(s) && p < |s|
    ensures |Above(s, s[p])| == |s| - 1 - p
  {
    var after := s[p + 1..];
    forall x | x in s && Less(s[p], x) ensures x in after {
      var i :| 0 <= i < |s| && s[i] == x;
      LessIrreflexive(x);
      if i < p { LessTransitive(x, s[p], x); }
      assert x == after[i - p - 1];
    }
    AscendingSize(after);
    assert Above(s, s[p]) == Elements(after);
  }

  /** Cutting all but the last kept entries cuts exactly those with kept above them. */
  lemma CutIsExact(s: seq<string>, kept: nat, cut: nat, k: string)
    requires Ascending(s) && cut == (if |s| <= kept then 0 else |s| - kept) && k in s
    ensures k in s[..cut] <==> kept <= |Above(s, k)|
  {
    var p: nat :| p < |s| && s[p] == k;
    AboveIsAfter(s, p);
    LessIrreflexive(k);
    assert p < cut ==> s[..cut][p] == k;
  }

  /** How many of n keys a pass that keeps `keep` dooms. */
  function Surplus(n: nat, keep: int): nat {
    var kept := if keep < 0 then 0 else keep;
    if n <= kept then 0 else n - kept
  }

  /** prunable: ascending, exactly the keys below current that have at least
      keep newer ones below current. */
  method Prunable(keys: seq<string>, current: string, keep: int) returns (doomed: seq<string>)
    ensures Sorted(doomed)
    ensures |doomed| == Surplus(|Below(keys, current)|, keep) && (Distinct(keys) ==> Distinct(doomed))
    ensures forall k :: k in doomed ==> k in keys && Less(k, current)
    ensures Distinct(keys) ==>
              forall k :: k in doomed <==> k in keys && Less(k, current) && keep <= |Newer(keys, current, k)|
  {
    var kept := if keep < 0 then 0 else keep;
    var below: seq<string> := [];
    for i := 0 to |keys|
      invariant below == Below(keys[..i], current)
    {
      assert keys[..i + 1][..i] == keys[..i];
      if Less(keys[i], current) {
        below := below + [keys[i]];
      }
    }
    assert keys[..|keys|] == keys;
    SortSorts(below);
    var sorted := Sort(below);
    var cut := if |below| <= kept then 0 else |below| - kept;
    doomed := sorted[..cut];
    if Distinct(keys) {
      BelowIsBelow(keys, current);
      SortDistinct(below);
    }
    DoomedExactly(keys, current, keep, cut);
  }

  lemma DoomedExactly(keys: seq<string>, current: string, keep: int, cut: nat)
    requires var n, kept := |Below(keys, current)|, if keep < 0 then 0 else keep;
             cut == if n <= kept then 0 else n - kept
    ensures var sorted := Sort(Below(keys, current));
            && cut <= |sorted|
            && (forall k :: k in sorted[..cut] ==> k in keys && Less(k, current))
            && (Distinct(keys) ==> forall k ::
                  k in sorted[..cut] <==> k in keys && Less(k, current) && keep <= |Newer(keys, current, k)|)
  {
    var below := Below(keys, current);
    var sorted := Sort(below);
    SortSorts(below);
    BelowIsBelow(keys, current);
    forall k ensures k in sorted <==> k in keys && Less(k, current) {
      SortMembers(below, k);
    }
    if Distinct(keys) {
      SortAscends(below);
      forall k | k in sorted ensures k in sorted[..cut] <==> keep <= |Newer(keys, current, k)| {
        CutIsExact(sorted, if keep < 0 then 0 else keep, cut, k);
        assert Newer(keys, current, k) == Above(sorted, k);
      }
    }
  }

  // A whole pass, over the keys the strings spell.

  /** A listing of the bucket: each stored snapshot's key, spelled, once. */
  ghost predicate Lists(listing: seq<string>, stored: set<Key>) {
    && (forall k :: k in stored ==> Spellable(k))
    && Distinct(listing) && Elements(listing) == Spelled(stored)
  }

  ghost function Spelled(stored: set<Key>): set<string> {
    set k | k in stored :: Spell(k)
  }

  function BelowKeys(stored: set<Key>, current: Key): set<Key> {
    set k | k in stored && KeyLess(k, current)
  }

  function NewerKeys(stored: set<Key>, current: Key, k: Key): set<Key> {
    set j | j in stored && KeyLess(j, current) && KeyLess(k, j)
  }

  lemma {:induction false} SpelledSize(stored: set<Key>)
    requires forall k :: k in stored ==> Spellable(k)
    ensures |Spelled(stored)| == |stored|
  {
    if stored != {} {
      var k :| k in stored;
      var rest := stored - {k};
      SpelledSize(rest);
      forall j | j in rest ensures Spell(j) != Spell(k) {
        SpellOrder(j, k);
      }
      assert Spelled(stored) == Spelled(rest) + {Spell(k)};
    }
  }

  lemma {:induction false} DistinctSize(s: seq<string>)
    requires Distinct(s)
    ensures |Elements(s)| == |s|
  {
    if s != [] {
      var rest := s[1..];
      DistinctSize(rest);
      assert s[0] !in rest;
      assert Elements(s) == Elements(rest) + {s[0]};
    }
  }

  /** Comparing the spellings is comparing the keys, so a pass over the listing
      sees as many newer keys as there are. */
  lemma NewerSpelled(listing: seq<string>, stored: set<Key>, current: Key, k: Key)
    requires Lists(listing, stored) && Spellable(current) && k in stored
    ensures |Newer(listing, Spell(current), Spell(k))| == |NewerKeys(stored, current, k)|
    ensures Less(Spell(k), Spell(current)) <==> KeyLess(k, current)
  {
    SpellOrder(k, current);
    var newer := NewerKeys(stored, current, k);
    forall j | j in stored
      ensures j in newer <==> Less(Spell(j), Spell(current)) && Less(Spell(k), Spell(j))
    {
      SpellOrder(j, current);
      SpellOrder(k, j);
    }
    assert forall s :: s in listing <==> s in Elements(listing);
    assert Newer(listing, Spell(current), Spell(k)) == Spelled(newer);
    SpelledSize(newer);
  }

  lemma BelowSpelled(listing: seq<string>, stored: set<Key>, current: Key)
    requires Lists(listing, stored) && Spellable(current)
    ensures |Below(listing, Spell(current))| == |BelowKeys(stored, current)|
  {
    var below := BelowKeys(stored, current);
    forall j | j in stored ensures j in below <==> Less(Spell(j), Spell(current)) {
      SpellOrder(j, current);
    }
    BelowIsBelow(listing, Spell(current));
    assert forall s :: s in listing <==> s in Elements(listing);
    assert Elements(Below(listing, Spell(current))) == Spelled(below);
    DistinctSize(Below(listing, Spell(current)));
    SpelledSize(below);
  }

  /** The keys some strings of a listing spell, in the same order. */
  lemma {:induction false} KeysOf(names: seq<string>, stored: set<Key>) returns (ks: seq<Key>)
    requires forall s :: s in names ==> s in Spelled(stored)
    ensures |ks| == |names| && forall i :: 0 <= i < |ks| ==> ks[i] in stored && Spell(ks[i]) == names[i]
  {
    ks := [];
    if names != [] {
      assert names[0] in names;
      var k :| k in stored && Spell(k) == names[0];
      var rest := KeysOf(names[1..], stored);
      ks := [k] + rest;
    }
  }

  ghost predicate Same(ks: seq<Key>, names: seq<string>) {
    |ks| == |names| && forall i :: 0 <= i < |ks| ==> Spell(ks[i]) == names[i]
  }

  lemma SameMember(ks: seq<Key>, names: seq<string>, stored: set<Key>, k: Key)
    requires Same(ks, names) && k in stored && Spellable(k)
    requires forall j :: j in ks ==> Spellable(j)
    ensures k in ks <==> Spell(k) in names
  {
    if Spell(k) in names {
      var i :| 0 <= i < |names| && names[i] == Spell(k);
      assert ks[i] in ks;
      SpellOrder(ks[i], k);
    }
    if k in ks {
      var i :| 0 <= i < |ks| && ks[i] == k;
      assert names[i] in names;
    }
  }

  function KeySet(ks: seq<Key>): set<Key> {
    set k | k in ks
  }

  lemma KeySetSize(ks: seq<Key>, names: seq<string>)
    requires Same(ks, names) && Distinct(names) && forall k :: k in ks ==> Spellable(k)
    ensures |KeySet(ks)| == |ks|
  {
    DistinctSize(names);
    SpelledSize(KeySet(ks));
    forall s ensures s in Elements(names) <==> s in Spelled(KeySet(ks)) {
      if s in names {
        var i :| 0 <= i < |names| && names[i] == s;
        assert ks[i] in KeySet(ks);
      }
      if s in Spelled(KeySet(ks)) {
        var k :| k in ks && Spell(k) == s;
        var i :| 0 <= i < |ks| && ks[i] == k;
        assert names[i] in names;
      }
    }
    assert Elements(names) == Spelled(KeySet(ks));
  }

  /** The stored keys some names spell. */
  ghost function Gone(stored: set<Key>, names: seq<string>): set<Key> {
    set k | k in stored && Spell(k) in names
  }

  /** pruneSnapshots, but for its deletes: the names it selects spell stored keys
      that the protocol lets a pass doom, and once they are gone exactly the
      newest keep of the keys below current are left. */
  method Pass(listing: seq<string>, current: Key, keep: int, ghost stored: set<Key>) returns (doomed: seq<string>)
    requires Lists(listing, stored) && Spellable(current)
    ensures forall s :: s in doomed ==> s in Spelled(stored)
    ensures forall w: World, m: MountId, ks: seq<Key> ::
              m in w.mounts && w.mounts[m].prune == Listing(current) && Same(ks, doomed) && KeySet(ks) <= stored ==>
              Enabled(w, PruneList(m, ks))
    ensures forall k :: k in BelowKeys(stored, current) ==>
              (k in BelowKeys(stored - Gone(stored, doomed), current) <==> |NewerKeys(stored, current, k)| < keep)
    ensures var n := |BelowKeys(stored, current)|;
            |BelowKeys(stored - Gone(stored, doomed), current)| == n - Surplus(n, keep)
  {
    doomed := Prunable(listing, Spell(current), keep);
    forall s | s in doomed ensures s in Spelled(stored) {
      assert s in Elements(listing);
    }
    ghost var ks := KeysOf(doomed, stored);
    PassExact(listing, current, keep, stored, doomed, ks);
    forall k ensures k in Gone(stored, doomed) <==> k in KeySet(ks) {
      if k in stored { SameMember(ks, doomed, stored, k); }
    }
    assert Gone(stored, doomed) == KeySet(ks);
    forall other: seq<Key>, k: Key | Same(other, doomed) && KeySet(other) <= stored && k in other
      ensures KeyLess(k, current)
    {
      assert k in KeySet(other);
      SameMember(other, doomed, stored, k);
      SpellOrder(k, current);
    }
  }

  lemma PassExact(listing: seq<string>, current: Key, keep: int, stored: set<Key>, doomed: seq<string>, ks: seq<Key>)
    requires Lists(listing, stored) && Spellable(current) && Same(ks, doomed) && forall k :: k in ks ==> k in stored
    requires Distinct(doomed) && |doomed| == Surplus(|Below(listing, Spell(current))|, keep)
    requires var cur := Spell(current);
             forall s :: s in doomed <==> s in listing && Less(s, cur) && keep <= |Newer(listing, cur, s)|
    ensures forall k :: k in ks ==> KeyLess(k, current)
    ensures forall k :: k in BelowKeys(stored, current) ==>
              (k in BelowKeys(stored - KeySet(ks), current) <==> |NewerKeys(stored, current, k)| < keep)
    ensures var n := |BelowKeys(stored, current)|;
            |BelowKeys(stored - KeySet(ks), current)| == n - Surplus(n, keep)
  {
    forall k | k in stored
      ensures k in ks <==> KeyLess(k, current) && keep <= |NewerKeys(stored, current, k)|
    {
      SameMember(ks, doomed, stored, k);
      NewerSpelled(listing, stored, current, k);
      assert Spell(k) in Elements(listing);
    }
    var below := BelowKeys(stored, current);
    assert BelowKeys(stored - KeySet(ks), current) == below - KeySet(ks);
    assert KeySet(ks) <= below;
    KeySetSize(ks, doomed);
    BelowSpelled(listing, stored, current);
  }
}
