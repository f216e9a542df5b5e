/** The namespace as a table of inodes, what makes it a tree, and that removing
    and moving an entry keep it one. */
module NamespaceTree {
  import opened Wrappers

  datatype Kind = Reg | Dir | Lnk

  datatype Inode = Inode(id: nat, gen: nat, kind: Kind, nlink: int, entries: map<string, nat>, parent: nat)

  type Table = map<nat, Inode>

  const ROOT: nat := 1

  // Ancestors.

  /** The k-th ancestor of i: 0 past the root, or past an inode the table lacks. */
  function Above(t: Table, i: nat, k: nat): nat
    decreases k
  {
    if k == 0 then i
    else if i in t && i != ROOT then Above(t, t[i].parent, k - 1)
    else 0
  }

  /** a is at or above i. */
  ghost predicate Under(t: Table, a: nat, i: nat) {
    exists k: nat :: Above(t, i, k) == a
  }

  lemma UnderParent(t: Table, a: nat, i: nat)
    requires i in t && i != ROOT && i != a
    ensures Under(t, a, i) <==> Under(t, a, t[i].parent)
  {
    if Under(t, a, i) {
      var k: nat :| Above(t, i, k) == a;
      assert Above(t, t[i].parent, k - 1) == a;
    }
    if Under(t, a, t[i].parent) {
      var k: nat :| Above(t, t[i].parent, k) == a;
      assert Above(t, i, k + 1) == a;
    }
  }

  lemma UnderSelf(t: Table, a: nat)
    ensures Under(t, a, a)
  {
    assert Above(t, a, 0) == a;
  }

  // The tree.

  function Subdirs(t: Table, d: nat): set<string>
    requires d in t
  {
    set n | n in t[d].entries && t[d].entries[n] in t && t[t[d].entries[n]].kind.Dir?
  }

  /** An entry names an inode, never the root, whose parent is its directory;
      and no other entry of the directory names it. */
  predicate EntryInv(t: Table, d: nat, n: string)
    requires d in t && n in t[d].entries
  {
    var i := t[d].entries[n];
    && i in t && i != ROOT && t[i].parent == d
    && forall n' :: n' in t[d].entries && t[d].entries[n'] == i ==> n' == n
  }

  /** Every inode but the root is named by an entry of its parent. */
  ghost predicate Named(t: Table, i: nat)
    requires i in t
  {
    t[i].parent in t && exists n :: n in t[t[i].parent].entries && t[t[i].parent].entries[n] == i
  }

  predicate InodeInv(t: Table, i: nat)
    requires i in t
  {
    && t[i].id == i && 0 < i
    && (!t[i].kind.Dir? ==> t[i].entries == map[] && t[i].nlink == 1)
    && (t[i].kind.Dir? ==> t[i].nlink == 2 + |Subdirs(t, i)|)
  }

  /** No cycle: some rank falls from every inode to its parent. */
  ghost predicate Ranked(t: Table, rank: map<nat, nat>) {
    forall i :: i in t ==>
      i in rank && (i != ROOT ==> t[i].parent in rank && rank[t[i].parent] < rank[i])
  }

  ghost predicate Tree(t: Table) {
    && ROOT in t && t[ROOT].kind.Dir? && t[ROOT].parent == 0
    && (forall i {:trigger InodeInv(t, i)} :: i in t ==> InodeInv(t, i))
    && (forall d, n {:trigger EntryInv(t, d, n)} :: d in t && n in t[d].entries ==> EntryInv(t, d, n))
    && (forall i {:trigger Named(t, i)} :: i in t && i != ROOT ==> Named(t, i))
    && exists rank :: Ranked(t, rank)
  }

  /** Every inode is named by exactly one entry of one directory. */
  lemma NamedOnce(t: Table, d: nat, n: string, d': nat, n': string)
    requires Tree(t) && d in t && n in t[d].entries && d' in t && n' in t[d'].entries
    requires t[d].entries[n] == t[d'].entries[n']
    ensures d == d' && n == n'
  {
    assert EntryInv(t, d, n) && EntryInv(t, d', n');
  }

  /** The root is above everything: the tree is connected and has no cycle. */
  lemma {:induction false} RootAboveAll(t: Table, rank: map<nat, nat>, i: nat)
    requires Tree(t) && Ranked(t, rank) && i in t
    ensures Under(t, ROOT, i)
    decreases rank[i]
  {
    UnderSelf(t, ROOT);
    if i != ROOT {
      assert Named(t, i);
      RootAboveAll(t, rank, t[i].parent);
      UnderParent(t, ROOT, i);
    }
  }

  // Removing an entry.

  /** The table with entry n of d gone, and what it named gone with it. */
  function Unlinked(t: Table, d: nat, n: string): Table
    requires d in t && n in t[d].entries && t[d].entries[n] in t
  {
    var i := t[d].entries[n];
    var dir := t[d].(entries := t[d].entries - {n}, nlink := t[d].nlink - if t[i].kind.Dir? then 1 else 0);
    t[d := dir] - {i}
  }

  /** What may be removed: a name whose inode names nothing itself. */
  predicate Removable(t: Table, d: nat, n: string) {
    d in t && n in t[d].entries && t[d].entries[n] in t && t[t[d].entries[n]].entries == map[]
  }

  lemma NotOwnParent(t: Table, i: nat)
    requires Tree(t) && i in t && i != ROOT
    ensures t[i].parent != i
  {
    var rank :| Ranked(t, rank);
    assert Named(t, i);
  }

  lemma UnlinkedSubdirs(t: Table, d: nat, n: string, j: nat)
    requires Tree(t) && Removable(t, d, n) && j in Unlinked(t, d, n)
    ensures Subdirs(Unlinked(t, d, n), j) == Subdirs(t, j) - if j == d then {n} else {}
  {
    var t' := Unlinked(t, d, n);
    assert EntryInv(t, d, n);
    forall m | m in t'[j].entries ensures t[j].entries[m] == t'[j].entries[m] && t'[j].entries[m] != t[d].entries[n] {
      assert EntryInv(t, j, m);
    }
  }

  lemma UnlinkedInodes(t: Table, d: nat, n: string, j: nat)
    requires Tree(t) && Removable(t, d, n) && j in Unlinked(t, d, n)
    ensures InodeInv(Unlinked(t, d, n), j)
  {
    assert InodeInv(t, j) && EntryInv(t, d, n);
    UnlinkedSubdirs(t, d, n, j);
    var i := t[d].entries[n];
    if j == d && t[i].kind.Dir? {
      assert n in Subdirs(t, d);
    } else if j == d {
      assert n !in Subdirs(t, d);
      assert Subdirs(t, d) - {n} == Subdirs(t, d);
    }
  }

  lemma UnlinkedEntries(t: Table, d: nat, n: string, j: nat, m: string)
    requires Tree(t) && Removable(t, d, n) && j in Unlinked(t, d, n) && m in Unlinked(t, d, n)[j].entries
    ensures EntryInv(Unlinked(t, d, n), j, m)
  {
    assert EntryInv(t, d, n) && EntryInv(t, j, m);
  }

  lemma UnlinkedNamed(t: Table, d: nat, n: string, j: nat)
    requires Tree(t) && Removable(t, d, n) && j in Unlinked(t, d, n) && j != ROOT
    ensures Named(Unlinked(t, d, n), j)
  {
    var t' := Unlinked(t, d, n);
    var i := t[d].entries[n];
    assert EntryInv(t, d, n) && Named(t, j);
    var p := t[j].parent;
    var m :| m in t[p].entries && t[p].entries[m] == j;
    assert p != i && m in t'[p].entries;
  }

  /** Removing a name that names nothing itself keeps the tree. */
  lemma UnlinkKeepsTree(t: Table, d: nat, n: string)
    requires Tree(t) && Removable(t, d, n)
    ensures Tree(Unlinked(t, d, n))
  {
    var t' := Unlinked(t, d, n);
    assert EntryInv(t, d, n);
    NotOwnParent(t, t[d].entries[n]);
    forall j | j in t' ensures InodeInv(t', j) { UnlinkedInodes(t, d, n, j); }
    forall j, m | j in t' && m in t'[j].entries ensures EntryInv(t', j, m) { UnlinkedEntries(t, d, n, j, m); }
    forall j | j in t' && j != ROOT ensures Named(t', j) { UnlinkedNamed(t, d, n, j); }
    var rank :| Ranked(t, rank);
    assert Ranked(t', rank);
  }

  // Adding an entry.

  function Created(t: Table, d: nat, n: string, id: nat, gen: nat, kind: Kind): Table
    requires d in t
  {
    var dir := t[d].(entries := t[d].entries[n := id], nlink := t[d].nlink + if kind.Dir? then 1 else 0);
    t[d := dir][id := Inode(id, gen, kind, if kind.Dir? then 2 else 1, map[], d)]
  }

  predicate Creatable(t: Table, d: nat, n: string, id: nat) {
    d in t && t[d].kind.Dir? && n !in t[d].entries && id !in t && 0 < id
  }

  lemma CreatedSubdirs(t: Table, d: nat, n: string, id: nat, gen: nat, kind: Kind, j: nat)
    requires Tree(t) && Creatable(t, d, n, id) && j in t
    ensures var t' := Created(t, d, n, id, gen, kind);
            j in t' && Subdirs(t', j) == Subdirs(t, j) + if j == d && kind.Dir? then {n} else {}
  {
    var t' := Created(t, d, n, id, gen, kind);
    forall m | m in t[j].entries ensures t[j].entries[m] in t && t'[t[j].entries[m]].kind == t[t[j].entries[m]].kind {
      assert EntryInv(t, j, m);
    }
  }

  lemma CreatedInodes(t: Table, d: nat, n: string, id: nat, gen: nat, kind: Kind, j: nat)
    requires Tree(t) && Creatable(t, d, n, id) && j in Created(t, d, n, id, gen, kind)
    ensures InodeInv(Created(t, d, n, id, gen, kind), j)
  {
    if j == id {
      assert Subdirs(Created(t, d, n, id, gen, kind), id) == {};
    } else {
      assert InodeInv(t, j);
      CreatedSubdirs(t, d, n, id, gen, kind, j);
      assert j == d ==> n !in Subdirs(t, d);
    }
  }

  lemma CreatedEntries(t: Table, d: nat, n: string, id: nat, gen: nat, kind: Kind, j: nat, m: string)
    requires Tree(t) && Creatable(t, d, n, id)
    requires j in Created(t, d, n, id, gen, kind) && m in Created(t, d, n, id, gen, kind)[j].entries
    ensures EntryInv(Created(t, d, n, id, gen, kind), j, m)
  {
    forall m' | j in t && m' in t[j].entries ensures EntryInv(t, j, m') {}
  }

  lemma CreatedNamed(t: Table, d: nat, n: string, id: nat, gen: nat, kind: Kind, j: nat)
    requires Tree(t) && Creatable(t, d, n, id) && j in Created(t, d, n, id, gen, kind) && j != ROOT
    ensures Named(Created(t, d, n, id, gen, kind), j)
  {
    var t' := Created(t, d, n, id, gen, kind);
    if j == id {
      assert t'[d].entries[n] == id;
    } else {
      assert Named(t, j);
      var p := t[j].parent;
      var m :| m in t[p].entries && t[p].entries[m] == j;
      assert t'[p].entries[m] == j;
    }
  }

  lemma CreatedRanked(t: Table, d: nat, n: string, id: nat, gen: nat, kind: Kind)
    requires Tree(t) && Creatable(t, d, n, id)
    ensures exists rank :: Ranked(Created(t, d, n, id, gen, kind), rank)
  {
    var t' := Created(t, d, n, id, gen, kind);
    var rank :| Ranked(t, rank);
    var rank' := rank[id := rank[d] + 1];
    forall i | i in t' ensures i in rank' && (i != ROOT ==> t'[i].parent in rank' && rank'[t'[i].parent] < rank'[i]) {
      if i in t && i != ROOT { assert Named(t, i); }
    }
    assert Ranked(t', rank');
  }

  /** Adding a new inode under a free name keeps the tree. */
  lemma CreateKeepsTree(t: Table, d: nat, n: string, id: nat, gen: nat, kind: Kind)
    requires Tree(t) && Creatable(t, d, n, id)
    ensures Tree(Created(t, d, n, id, gen, kind))
  {
    var t' := Created(t, d, n, id, gen, kind);
    forall j | j in t' ensures InodeInv(t', j) { CreatedInodes(t, d, n, id, gen, kind, j); }
    forall j, m | j in t' && m in t'[j].entries ensures EntryInv(t', j, m) {
      CreatedEntries(t, d, n, id, gen, kind, j, m);
    }
    forall j | j in t' && j != ROOT ensures Named(t', j) { CreatedNamed(t, d, n, id, gen, kind, j); }
    CreatedRanked(t, d, n, id, gen, kind);
  }

  // Moving an entry.

  function Moved(t: Table, src: nat, fn: string, dst: nat, tn: string): Table
    requires src in t && dst in t && fn in t[src].entries && t[src].entries[fn] in t
  {
    var id := t[src].entries[fn];
    var t1 := t[src := t[src].(entries := t[src].entries - {fn})];
    var t2 := t1[dst := t1[dst].(entries := t1[dst].entries[tn := id])];
    var t3 := if t[id].kind.Dir? && src != dst
              then t2[src := t2[src].(nlink := t2[src].nlink - 1)][dst := t2[dst].(nlink := t2[dst].nlink + 1)]
              else t2;
    t3[id := t3[id].(parent := dst)]
  }

  /** A move to a free name, of something that is not above where it goes. */
  ghost predicate Movable(t: Table, src: nat, fn: string, dst: nat, tn: string) {
    && src in t && dst in t && t[dst].kind.Dir? && fn in t[src].entries && tn !in t[dst].entries
    && !Under(t, t[src].entries[fn], dst)
  }

  lemma MovedParts(t: Table, src: nat, fn: string, dst: nat, tn: string)
    requires Tree(t) && Movable(t, src, fn, dst, tn)
    ensures var id := t[src].entries[fn];
            && id in t && id != ROOT && id != src && id != dst && t[id].parent == src
            && var t' := Moved(t, src, fn, dst, tn);
            && t'.Keys == t.Keys
            && t'[id] == t[id].(parent := dst)
            && (forall j :: j in t && j != id && j != src && j != dst ==> t'[j] == t[j])
            && (src != dst ==> t'[src].entries == t[src].entries - {fn} && t'[dst].entries == t[dst].entries[tn := id])
            && (src == dst ==> t'[src].entries == (t[src].entries - {fn})[tn := id])
  {
    var id := t[src].entries[fn];
    assert EntryInv(t, src, fn);
    UnderSelf(t, id);
    NotOwnParent(t, id);
  }

  lemma MovedSubdirs(t: Table, src: nat, fn: string, dst: nat, tn: string, j: nat)
    requires Tree(t) && Movable(t, src, fn, dst, tn) && j in t
    ensures var id := t[src].entries[fn];
            && id in t
            && var t' := Moved(t, src, fn, dst, tn);
            && j in t'
            && var moved := t[id].kind.Dir?;
            Subdirs(t', j) == Subdirs(t, j) - (if j == src then {fn} else {}) + if j == dst && moved then {tn} else {}
  {
    MovedParts(t, src, fn, dst, tn);
    var t' := Moved(t, src, fn, dst, tn);
    forall m | m in t[j].entries ensures t[j].entries[m] in t && t'[t[j].entries[m]].kind == t[t[j].entries[m]].kind {
      assert EntryInv(t, j, m);
    }
  }

  lemma MovedInodes(t: Table, src: nat, fn: string, dst: nat, tn: string, j: nat)
    requires Tree(t) && Movable(t, src, fn, dst, tn) && j in t
    ensures t[src].entries[fn] in t && j in Moved(t, src, fn, dst, tn) && InodeInv(Moved(t, src, fn, dst, tn), j)
  {
    MovedParts(t, src, fn, dst, tn);
    MovedSubdirs(t, src, fn, dst, tn, j);
    var id := t[src].entries[fn];
    assert InodeInv(t, j);
    assert j == dst ==> tn !in Subdirs(t, j);
    assert j == src ==> (fn in Subdirs(t, j) <==> t[id].kind.Dir?);
    if j == src && !t[id].kind.Dir? { assert Subdirs(t, j) - {fn} == Subdirs(t, j); }
  }

  lemma MovedEntries(t: Table, src: nat, fn: string, dst: nat, tn: string, j: nat, m: string)
    requires Tree(t) && Movable(t, src, fn, dst, tn) && t[src].entries[fn] in t
    requires j in Moved(t, src, fn, dst, tn) && m in Moved(t, src, fn, dst, tn)[j].entries
    ensures EntryInv(Moved(t, src, fn, dst, tn), j, m)
  {
    MovedParts(t, src, fn, dst, tn);
    assert EntryInv(t, src, fn);
    forall m' | m' in t[j].entries ensures EntryInv(t, j, m') {}
    if !(j == dst && m == tn) { assert EntryInv(t, j, m); }
  }

  lemma MovedNamed(t: Table, src: nat, fn: string, dst: nat, tn: string, j: nat)
    requires Tree(t) && Movable(t, src, fn, dst, tn) && j in t && j != ROOT
    ensures t[src].entries[fn] in t && j in Moved(t, src, fn, dst, tn) && Named(Moved(t, src, fn, dst, tn), j)
  {
    MovedParts(t, src, fn, dst, tn);
    var t' := Moved(t, src, fn, dst, tn);
    var id := t[src].entries[fn];
    if j == id {
      assert t'[dst].entries[tn] == id;
    } else {
      assert Named(t, j);
      var p := t[j].parent;
      var m :| m in t[p].entries && t[p].entries[m] == j;
      assert p == id ==> t'[p].entries == t[p].entries;
      assert m in t'[p].entries && t'[p].entries[m] == j;
    }
  }

  /** Everything under what moved is lifted above its new parent's rank. */
  lemma MovedRanked(t: Table, src: nat, fn: string, dst: nat, tn: string)
    requires Tree(t) && Movable(t, src, fn, dst, tn) && t[src].entries[fn] in t
    ensures exists rank :: Ranked(Moved(t, src, fn, dst, tn), rank)
  {
    MovedParts(t, src, fn, dst, tn);
    var t' := Moved(t, src, fn, dst, tn);
    var id := t[src].entries[fn];
    var rank :| Ranked(t, rank);
    var rank' := map i | i in t :: if Under(t, id, i) then rank[i] + rank[dst] + 1 else rank[i];
    forall i | i in t' ensures i in rank' && (i != ROOT ==> t'[i].parent in rank' && rank'[t'[i].parent] < rank'[i]) {
      if i == id {
        UnderSelf(t, id);
      } else if i != ROOT {
        assert Named(t, i);
        UnderParent(t, id, i);
        assert t'[i].parent == t[i].parent;
      }
    }
    assert Ranked(t', rank');
  }

  /** Moving a name to a free one outside what moves keeps the tree. */
  lemma MoveKeepsTree(t: Table, src: nat, fn: string, dst: nat, tn: string)
    requires Tree(t) && Movable(t, src, fn, dst, tn)
    ensures t[src].entries[fn] in t && Tree(Moved(t, src, fn, dst, tn))
  {
    MovedParts(t, src, fn, dst, tn);
    var t' := Moved(t, src, fn, dst, tn);
    forall j | j in t' ensures InodeInv(t', j) { MovedInodes(t, src, fn, dst, tn, j); }
    forall j, m | j in t' && m in t'[j].entries ensures EntryInv(t', j, m) { MovedEntries(t, src, fn, dst, tn, j, m); }
    forall j | j in t' && j != ROOT ensures Named(t', j) { MovedNamed(t, src, fn, dst, tn, j); }
    MovedRanked(t, src, fn, dst, tn);
  }

  // Replacing an entry: what was there goes, then the move.

  lemma {:induction false} AboveUnlinked(t: Table, d: nat, n: string, i: nat, k: nat)
    requires Tree(t) && Removable(t, d, n) && (i in t ==> i != t[d].entries[n])
    ensures Above(Unlinked(t, d, n), i, k) == Above(t, i, k)
    decreases k
  {
    assert EntryInv(t, d, n);
    if k > 0 && i in t && i != ROOT {
      assert Named(t, i);
      AboveUnlinked(t, d, n, t[i].parent, k - 1);
    }
  }

  /** Taking away what a rename replaces does not change who is above its target. */
  lemma UnderUnlinked(t: Table, d: nat, n: string, a: nat)
    requires Tree(t) && Removable(t, d, n) && !Under(t, a, d)
    ensures !Under(Unlinked(t, d, n), a, d)
  {
    assert EntryInv(t, d, n);
    NotOwnParent(t, t[d].entries[n]);
    forall k: nat ensures Above(Unlinked(t, d, n), d, k) != a {
      AboveUnlinked(t, d, n, d, k);
    }
  }

  function Replaced(t: Table, src: nat, fn: string, dst: nat, tn: string): Table
    requires src in t && dst in t && fn in t[src].entries && t[src].entries[fn] in t
    requires tn in t[dst].entries ==>
               && t[dst].entries[tn] in t && t[dst].entries[tn] != t[src].entries[fn]
               && t[dst].entries[tn] != src && t[dst].entries[tn] != dst
               && (src == dst ==> fn != tn)
  {
    if tn in t[dst].entries then Moved(Unlinked(t, dst, tn), src, fn, dst, tn) else Moved(t, src, fn, dst, tn)
  }

  lemma ReplaceKeepsTree(t: Table, src: nat, fn: string, dst: nat, tn: string)
    requires Tree(t) && src in t && dst in t && t[dst].kind.Dir? && fn in t[src].entries
    requires !Under(t, t[src].entries[fn], dst)
    requires tn in t[dst].entries ==> Removable(t, dst, tn) && t[dst].entries[tn] != t[src].entries[fn]
    ensures t[src].entries[fn] in t
    ensures tn in t[dst].entries ==>
               t[dst].entries[tn] != src && t[dst].entries[tn] != dst && (src == dst ==> fn != tn)
    ensures Tree(Replaced(t, src, fn, dst, tn))
  {
    assert EntryInv(t, src, fn);
    if tn in t[dst].entries {
      assert EntryInv(t, dst, tn);
      NotOwnParent(t, t[dst].entries[tn]);
      var t' := Unlinked(t, dst, tn);
      UnlinkKeepsTree(t, dst, tn);
      UnderUnlinked(t, dst, tn, t[src].entries[fn]);
      MoveKeepsTree(t', src, fn, dst, tn);
    } else {
      MoveKeepsTree(t, src, fn, dst, tn);
    }
  }

  // What a reader of the table sees of each change.

  function Lookup(t: Table, d: nat, n: string): Option<nat> {
    if d in t && n in t[d].entries then Some(t[d].entries[n]) else None
  }

  /** The inode is the same file: its links and entries may have changed. */
  predicate SameFile(a: Inode, b: Inode) {
    a.id == b.id && a.gen == b.gen && a.kind == b.kind
  }

  /** After a create the new name finds the new inode, empty and as asked for; every
      other name finds what it found, and every other inode is the same file. */
  lemma CreateSeen(t: Table, d: nat, n: string, id: nat, gen: nat, kind: Kind)
    requires Tree(t) && Creatable(t, d, n, id)
    ensures var t' := Created(t, d, n, id, gen, kind);
            && t'.Keys == t.Keys + {id} && Lookup(t', d, n) == Some(id)
            && t'[id].gen == gen && t'[id].kind == kind && t'[id].parent == d && t'[id].entries == map[]
            && (forall d': nat, n': string :: (d', n') != (d, n) ==> Lookup(t', d', n') == Lookup(t, d', n'))
            && (forall i :: i in t ==> SameFile(t'[i], t[i]) && t'[i].parent == t[i].parent)
  {
    assert InodeInv(t, d);
  }

  /** After a removal the name finds nothing and its inode is gone; all else is as it was. */
  lemma UnlinkSeen(t: Table, d: nat, n: string)
    requires Tree(t) && Removable(t, d, n)
    ensures var t', i := Unlinked(t, d, n), t[d].entries[n];
            && t'.Keys == t.Keys - {i} && Lookup(t', d, n) == None
            && (forall d': nat, n': string :: (d', n') != (d, n) ==> Lookup(t', d', n') == Lookup(t, d', n'))
            && (forall j :: j in t' ==> SameFile(t'[j], t[j]) && t'[j].parent == t[j].parent)
  {
    assert EntryInv(t, d, n);
    NotOwnParent(t, t[d].entries[n]);
  }

  /** After a move the new name finds what the old one found, which finds nothing;
      all else is as it was, but for the parent of what moved. */
  lemma MoveSeen(t: Table, src: nat, fn: string, dst: nat, tn: string)
    requires Tree(t) && Movable(t, src, fn, dst, tn)
    ensures var id := t[src].entries[fn];
            && id in t
            && var t' := Moved(t, src, fn, dst, tn);
            && t'.Keys == t.Keys && Lookup(t', dst, tn) == Some(id) && Lookup(t', src, fn) == None
            && (forall d: nat, n: string :: (d, n) != (src, fn) && (d, n) != (dst, tn) ==>
                  Lookup(t', d, n) == Lookup(t, d, n))
            && (forall i :: i in t ==> SameFile(t'[i], t[i]) && t'[i].parent == if i == id then dst else t[i].parent)
  {
    MovedParts(t, src, fn, dst, tn);
    assert InodeInv(t, src) && InodeInv(t, dst);
  }

  /** A rename is a move, once what it replaces has been removed. */
  lemma ReplaceSeen(t: Table, src: nat, fn: string, dst: nat, tn: string)
    requires Tree(t) && src in t && dst in t && t[dst].kind.Dir? && fn in t[src].entries
    requires !Under(t, t[src].entries[fn], dst)
    requires tn in t[dst].entries ==> Removable(t, dst, tn) && t[dst].entries[tn] != t[src].entries[fn]
    ensures t[src].entries[fn] in t
    ensures tn in t[dst].entries ==>
              t[dst].entries[tn] != src && t[dst].entries[tn] != dst && (src == dst ==> fn != tn)
    ensures var id, gone := t[src].entries[fn], if tn in t[dst].entries then {t[dst].entries[tn]} else {};
            var t' := Replaced(t, src, fn, dst, tn);
            && t'.Keys == t.Keys - gone && Lookup(t', dst, tn) == Some(id) && Lookup(t', src, fn) == None
            && (forall d: nat, n: string :: (d, n) != (src, fn) && (d, n) != (dst, tn) ==>
                  Lookup(t', d, n) == Lookup(t, d, n))
            && (forall i :: i in t' ==> SameFile(t'[i], t[i]) && t'[i].parent == if i == id then dst else t[i].parent)
  {
    ReplaceKeepsTree(t, src, fn, dst, tn);
    if tn in t[dst].entries {
      UnlinkKeepsTree(t, dst, tn);
      UnlinkSeen(t, dst, tn);
      UnderUnlinked(t, dst, tn, t[src].entries[fn]);
      MoveSeen(Unlinked(t, dst, tn), src, fn, dst, tn);
    } else {
      MoveSeen(t, src, fn, dst, tn);
    }
  }
}
