/** The namespace operations in their own form: methods that change the inode
    table in place, from any well-formed namespace. */
module Namespace {
  import opened Wrappers
  import opened Machines
  import opened NamespaceTree

  datatype Status =
    | OK | ErrNoEnt | ErrExist | ErrNotDir | ErrIsDir | ErrInval | ErrFBig | ErrROFS
    | ErrNameTooLong | ErrNotEmpty | ErrStale | ErrBadHandle | ErrAcces | ErrBadCookie

  /** A file handle, or bytes that are none. */
  datatype Handle = Bad | Handle(id: nat, gen: nat)

  const MAX_NAME := 255

  /** A name an entry may have. */
  predicate GoodName(name: string) {
    && name != "" && name != "." && name != ".." && |name| <= 255
    && forall i :: 0 <= i < |name| ==> name[i] != '/' && name[i] != '\0'
  }

  function ValidName(name: string): (st: Status)
    ensures st == OK <==> GoodName(name)
    ensures st == ErrNameTooLong <==> |name| > 255
    ensures st == OK || st == ErrNameTooLong || st == ErrInval
  {
    if name == "" || name == "." || name == ".." then ErrInval
    else if |name| > MAX_NAME then ErrNameTooLong
    else if '/' in name || '\0' in name then ErrInval
    else OK
  }

  function Mutable(mode: Mode): Status {
    match mode
    case Writable => OK
    case ReadOnly => ErrROFS
    case Diverged => ErrStale
  }

  /** resolve: the status of a handle in a table. */
  function Resolve(t: Table, h: Handle): Status {
    if h.Bad? then ErrBadHandle
    else if h.id !in t || t[h.id].gen != h.gen then ErrStale
    else OK
  }

  /** The checks every change of a directory makes before it looks at entries:
      permits is what the policy answers once it has seen a directory. */
  function DirStatus(t: Table, h: Handle, permits: bool): Status {
    if Resolve(t, h) != OK then Resolve(t, h)
    else if !t[h.id].kind.Dir? then ErrNotDir
    else if !permits then ErrAcces
    else OK
  }

  /** A handle of an inode that is there, of the same generation. */
  predicate IsLive(t: Table, h: Handle) {
    h.Handle? && h.id in t && t[h.id].gen == h.gen
  }

  predicate IsLiveDir(t: Table, h: Handle) {
    IsLive(t, h) && t[h.id].kind.Dir?
  }

  /** What a change of the directory h is answered before its entries are looked at:
      the mount's mode, then the names, then the handle, then the policy. */
  predicate Screened(mode: Mode, names: bool, t: Table, h: Handle, permits: bool, st: Status) {
    && (mode == ReadOnly ==> st == ErrROFS)
    && (mode == Diverged ==> st == ErrStale)
    && (mode == Writable && !names ==> st == ErrInval || st == ErrNameTooLong)
    && (mode == Writable && names && h.Bad? ==> st == ErrBadHandle)
    && (mode == Writable && names && h.Handle? && !IsLive(t, h) ==> st == ErrStale)
    && (mode == Writable && names && IsLive(t, h) && !t[h.id].kind.Dir? ==> st == ErrNotDir)
    && (mode == Writable && names && IsLiveDir(t, h) ==> (st == ErrAcces <==> !permits))
  }

  /** The same for a change of two directories: the handles in turn, then their
      kinds, then the policy. */
  predicate ScreenedBoth(mode: Mode, names: bool, t: Table, from: Handle, to: Handle, permits: bool, st: Status) {
    && (mode == ReadOnly ==> st == ErrROFS)
    && (mode == Diverged ==> st == ErrStale)
    && (mode == Writable && !names ==> st == ErrInval || st == ErrNameTooLong)
    && (mode == Writable && names ==>
          if !IsLive(t, from) then st == if from.Bad? then ErrBadHandle else ErrStale
          else if !IsLive(t, to) then st == if to.Bad? then ErrBadHandle else ErrStale
          else if !IsLiveDir(t, from) || !IsLiveDir(t, to) then st == ErrNotDir
          else (st == ErrAcces <==> !permits))
  }

  /** The change gets as far as the entries. */
  predicate Passes(mode: Mode, names: bool, t: Table, h: Handle, permits: bool) {
    mode == Writable && names && IsLiveDir(t, h) && permits
  }

  class FS {
    var inodes: Table
    var nextIno: nat
    var open: set<nat>          // inodes with an openFile; one may outlive its inode, if a write raced the unlink
    var dirty: bool
    var changes: nat
    ghost var issued: set<nat>  // every inode number ever given out

    ghost predicate Valid()
      reads this
    {
      && Tree(inodes) && inodes.Keys <= issued && open <= issued
      && 0 < nextIno && forall i :: i in issued ==> i < nextIno
    }

    twostate predicate Untouched()
      reads this
    {
      && inodes == old(inodes) && nextIno == old(nextIno) && open == old(open) && issued == old(issued)
      && dirty == old(dirty) && changes == old(changes)
    }

    /** A change made, and marked. */
    twostate predicate Marked()
      reads this
    {
      dirty && changes > old(changes)
    }

    constructor (gen: nat)
      ensures Valid() && inodes == map[ROOT := Inode(ROOT, gen, Dir, 2, map[], 0)] && nextIno == 2
    {
      inodes, nextIno, open := map[ROOT := Inode(ROOT, gen, Dir, 2, map[], 0)], 2, {};
      dirty, changes, issued := false, 0, {ROOT};
      new;
      EmptyIsTree(gen);
    }

    /** createEntry: the shared body of CREATE, MKDIR and SYMLINK. */
    method CreateEntry(mode: Mode, dir: Handle, name: string, kind: Kind, gen: nat, excl: bool, tooBig: bool,
                       permits: bool)
      returns (st: Status, id: nat)
      requires Valid()
      modifies this
      ensures Valid()
      ensures st != OK ==> Untouched()
      ensures mode == Writable && GoodName(name) && kind.Reg? && tooBig ==> st == ErrFBig
      ensures !(mode == Writable && GoodName(name) && kind.Reg? && tooBig) ==>
                Screened(mode, GoodName(name), old(inodes), dir, permits, st)
      ensures st == OK <==>
                && Passes(mode, GoodName(name), old(inodes), dir, permits) && !(kind.Reg? && tooBig)
                && (name in old(inodes)[dir.id].entries ==> Opens(old(inodes), dir.id, name, kind, excl))
      ensures st == ErrExist <==>
                && Passes(mode, GoodName(name), old(inodes), dir, permits) && !(kind.Reg? && tooBig)
                && name in old(inodes)[dir.id].entries && !Opens(old(inodes), dir.id, name, kind, excl)
      ensures Passes(mode, GoodName(name), old(inodes), dir, permits) && !(kind.Reg? && tooBig) &&
              name in old(inodes)[dir.id].entries ==>
                (st == OK <==> kind.Reg? && !excl && !IsDirAt(old(inodes), old(inodes)[dir.id].entries[name]))
      ensures st == OK && name in old(inodes)[dir.id].entries ==>
                Untouched() && id == old(inodes)[dir.id].entries[name]
      ensures st == OK && name !in old(inodes)[dir.id].entries ==>
                && id == old(nextIno) && id !in old(issued) && nextIno == old(nextIno) + 1
                && inodes == Created(old(inodes), dir.id, name, id, gen, kind)
                && open == old(open) && issued == old(issued) + {id} && Marked()
    {
      id := 0;
      st := Mutable(mode);
      if st != OK { return; }
      st := ValidName(name);
      if st != OK { return; }
      if kind.Reg? && tooBig {
        st := ErrFBig;
        return;
      }
      st := DirStatus(inodes, dir, permits);
      if st != OK { return; }
      if name in inodes[dir.id].entries {
        assert EntryInv(inodes, dir.id, name);
        st := ErrExist;
        if kind.Reg? && !excl {
          id := inodes[dir.id].entries[name];
          if id !in inodes {
            st := ErrNoEnt;
          } else if !inodes[id].kind.Dir? {
            st := OK;
          }
        }
        return;
      }
      id := AddEntry(dir.id, name, kind, gen);
    }

    /** allocInode, and the entry that names the new inode. */
    method AddEntry(dir: nat, name: string, kind: Kind, gen: nat) returns (id: nat)
      requires Valid() && dir in inodes && inodes[dir].kind.Dir? && name !in inodes[dir].entries
      modifies this
      ensures Valid() && id == old(nextIno) && id !in old(issued) && nextIno == old(nextIno) + 1
      ensures inodes == Created(old(inodes), dir, name, id, gen, kind)
      ensures open == old(open) && issued == old(issued) + {id} && Marked()
    {
      CreateKeepsTree(inodes, dir, name, nextIno, gen, kind);
      id := nextIno;
      nextIno := nextIno + 1;
      inodes := inodes[id := Inode(id, gen, kind, if kind.Dir? then 2 else 1, map[], dir)];
      dirty, changes := true, changes + 1;
      issued := issued + {id};
      var d := inodes[dir];
      d := d.(entries := d.entries[name := id]);
      if kind.Dir? {
        d := d.(nlink := d.nlink + 1);
      }
      inodes := inodes[dir := d];
      changes := changes + 1;
      assert inodes == Created(old(inodes), dir, name, id, gen, kind);
    }

    /** relink as a name leaves directory from: whether its inode leaves with it. */
    method RelinkOut(i: nat, from: nat) returns (gone: bool)
      requires i in inodes && from in inodes && i != from
      modifies this`inodes
      ensures inodes == if old(inodes)[i].kind.Dir?
                        then old(inodes)[from := old(inodes)[from].(nlink := old(inodes)[from].nlink - 1)]
                                        [i := old(inodes)[i].(nlink := 0)]
                        else old(inodes)[i := old(inodes)[i].(nlink := OneFewer(old(inodes)[i].nlink))]
      ensures gone == (old(inodes)[i].kind.Dir? || inodes[i].nlink == 0)
    {
      var n := inodes[i];
      if n.kind.Dir? {
        inodes := inodes[from := inodes[from].(nlink := inodes[from].nlink - 1)];
        inodes := inodes[i := n.(nlink := 0)];
        return true;
      }
      if n.nlink > 0 {
        n := n.(nlink := n.nlink - 1);
      }
      inodes := inodes[i := n];
      return n.nlink == 0;
    }

    /** unlink: removes a name, requiring its inode to be a directory or not to be one. */
    method Unlink(mode: Mode, dir: Handle, name: string, wantDir: bool, permits: bool) returns (st: Status)
      requires Valid()
      modifies this
      ensures Valid()
      ensures st != OK ==> Untouched()
      ensures Screened(mode, GoodName(name), old(inodes), dir, permits, st)
      ensures st == OK <==>
                && Passes(mode, GoodName(name), old(inodes), dir, permits) && Removable(old(inodes), dir.id, name)
                && old(inodes)[old(inodes)[dir.id].entries[name]].kind.Dir? == wantDir
      ensures st == ErrNotEmpty <==>
                && Passes(mode, GoodName(name), old(inodes), dir, permits) && wantDir
                && name in old(inodes)[dir.id].entries && old(inodes)[dir.id].entries[name] in old(inodes)
                && old(inodes)[old(inodes)[dir.id].entries[name]].entries != map[]
      ensures st == ErrNoEnt <==>
                Passes(mode, GoodName(name), old(inodes), dir, permits) && name !in old(inodes)[dir.id].entries
      ensures Passes(mode, GoodName(name), old(inodes), dir, permits) && name in old(inodes)[dir.id].entries ==>
                var isDir := IsDirAt(old(inodes), old(inodes)[dir.id].entries[name]);
                && (st == ErrNotDir <==> wantDir && !isDir) && (st == ErrIsDir <==> !wantDir && isDir)
      ensures st == OK ==>
                && inodes == Unlinked(old(inodes), dir.id, name)
                && open == old(open) - {old(inodes)[dir.id].entries[name]}
                && nextIno == old(nextIno) && issued == old(issued) && Marked()
    {
      st := Mutable(mode);
      if st != OK { return; }
      st := ValidName(name);
      if st != OK { return; }
      st := DirStatus(inodes, dir, permits);
      if st != OK { return; }
      if name !in inodes[dir.id].entries {
        st := ErrNoEnt;
        return;
      }
      assert EntryInv(inodes, dir.id, name);
      var id := inodes[dir.id].entries[name];
      if id !in inodes {
        st := ErrNoEnt;
        return;
      }
      assert InodeInv(inodes, id);
      var n := inodes[id];
      if wantDir != n.kind.Dir? {
        st := if wantDir then ErrNotDir else ErrIsDir;
        return;
      }
      if wantDir && n.entries != map[] {
        st := ErrNotEmpty;
        return;
      }
      RemoveEntry(dir.id, name);
    }

    method RemoveEntry(dir: nat, name: string)
      requires Valid() && Removable(inodes, dir, name)
      modifies this
      ensures Valid() && inodes == Unlinked(old(inodes), dir, name)
      ensures open == old(open) - {old(inodes)[dir].entries[name]}
      ensures nextIno == old(nextIno) && issued == old(issued) && Marked()
    {
      var id := inodes[dir].entries[name];
      assert EntryInv(inodes, dir, name) && InodeInv(inodes, id);
      NotOwnParent(inodes, id);
      UnlinkKeepsTree(inodes, dir, name);
      inodes := inodes[dir := inodes[dir].(entries := inodes[dir].entries - {name})];
      var gone := RelinkOut(id, dir);
      if gone {
        inodes := inodes - {id};
        open := open - {id};
      }
      dirty, changes := true, changes + 1;
      assert inodes == Unlinked(old(inodes), dir, name);
    }

    /** isAncestor: exactly whether ancestor is at or above node. Its guard
        against a cycle never ends the walk. */
    method IsAncestor(ancestor: nat, node: nat) returns (r: bool)
      requires Tree(inodes) && ancestor != 0 && node in inodes
      ensures r == Under(inodes, ancestor, node)
    {
      ghost var rank :| Ranked(inodes, rank);
      ghost var visited: set<nat> := {};
      var id, seen := node, 0;
      while id != 0 && seen <= |inodes| + 1
        invariant id in inodes && visited <= inodes.Keys && |visited| == seen
        invariant forall v :: v in visited ==> v in rank && rank[id] < rank[v]
        invariant Under(inodes, ancestor, node) <==> Under(inodes, ancestor, id)
        decreases rank[id]
      {
        if id == ancestor {
          UnderSelf(inodes, id);
          return true;
        }
        if id == ROOT {
          RootOnlyUnderItself(inodes, ancestor);
          return false;
        }
        assert Named(inodes, id);
        UnderParent(inodes, ancestor, id);
        SubsetSize(visited + {id}, inodes.Keys);
        visited := visited + {id};
        id := inodes[id].parent;
        seen := seen + 1;
      }
      assert InodeInv(inodes, id);
      SubsetSize(visited, inodes.Keys);
      return false;
    }
  
    /** What a rename does to the name it replaces: nothing, or a refusal. */
    method VictimStatus(id: nat, victim: nat) returns (st: Status)
      requires id in inodes
      ensures victim !in inodes ==> st == OK
      ensures victim in inodes ==>
                (st == OK <==> inodes[victim].kind.Dir? == inodes[id].kind.Dir? &&
                               (inodes[victim].kind.Dir? ==> inodes[victim].entries == map[]))
      ensures st == OK || st == ErrIsDir || st == ErrNotDir || st == ErrNotEmpty
      ensures victim in inodes ==>
                && (st == ErrIsDir <==> inodes[victim].kind.Dir? && !inodes[id].kind.Dir?)
                && (st == ErrNotDir <==> !inodes[victim].kind.Dir? && inodes[id].kind.Dir?)
    {
      if victim !in inodes {
        return OK;
      }
      var v, moving := inodes[victim], inodes[id];
      if v.kind.Dir? && !moving.kind.Dir? {
        return ErrIsDir;
      } else if !v.kind.Dir? && moving.kind.Dir? {
        return ErrNotDir;
      } else if v.kind.Dir? && v.entries != map[] {
        return ErrNotEmpty;
      }
      return OK;
    }

    /** Rename. A name moved onto itself changes nothing. */
    method Rename(mode: Mode, from: Handle, fn: string, to: Handle, tn: string, permits: bool) returns (st: Status)
      requires Valid()
      modifies this
      ensures Valid()
      ensures st != OK ==> Untouched()
      ensures ScreenedBoth(mode, GoodName(fn) && GoodName(tn), old(inodes), from, to, permits, st)
      ensures st == OK <==>
                && Passes(mode, GoodName(fn) && GoodName(tn), old(inodes), from, permits) && IsLiveDir(old(inodes), to)
                && MayRename(old(inodes), from.id, fn, to.id, tn)
      ensures Passes(mode, GoodName(fn) && GoodName(tn), old(inodes), from, permits) && IsLiveDir(old(inodes), to) ==>
                RenameStatus(old(inodes), from.id, fn, to.id, tn, st)
      ensures st == OK ==>
                var t := old(inodes);
                   if tn in t[to.id].entries && t[to.id].entries[tn] == t[from.id].entries[fn] then Untouched()
                   else
                     && Replaceable(t, from.id, fn, to.id, tn)
                     && inodes == Replaced(t, from.id, fn, to.id, tn) && Marked()
                     && open == old(open) - Victims(t, to.id, tn)
                     && nextIno == old(nextIno) && issued == old(issued)
    {
      st := Mutable(mode);
      if st != OK { return; }
      st := ValidName(fn);
      if st != OK { return; }
      st := ValidName(tn);
      if st != OK { return; }
      st := Resolve(inodes, from);
      if st != OK { return; }
      st := Resolve(inodes, to);
      if st != OK { return; }
      if !inodes[from.id].kind.Dir? || !inodes[to.id].kind.Dir? {
        st := ErrNotDir;
        return;
      }
      if !permits {
        st := ErrAcces;
        return;
      }
      st := RenameEntry(from.id, fn, to.id, tn);
    }

    method RenameEntry(src: nat, fn: string, dst: nat, tn: string) returns (st: Status)
      requires Valid() && src in inodes && dst in inodes && inodes[src].kind.Dir? && inodes[dst].kind.Dir?
      modifies this
      ensures Valid()
      ensures st != OK ==> Untouched()
      ensures st == OK <==> MayRename(old(inodes), src, fn, dst, tn)
      ensures RenameStatus(old(inodes), src, fn, dst, tn, st) && st != ErrAcces
      ensures st == OK ==>
                var t := old(inodes);
                   if tn in t[dst].entries && t[dst].entries[tn] == t[src].entries[fn] then Untouched()
                   else
                     && Replaceable(t, src, fn, dst, tn)
                     && inodes == Replaced(t, src, fn, dst, tn) && Marked()
                     && open == old(open) - Victims(t, dst, tn)
                     && nextIno == old(nextIno) && issued == old(issued)
    {
      if fn !in inodes[src].entries || inodes[src].entries[fn] !in inodes {
        assert fn in inodes[src].entries ==> EntryInv(inodes, src, fn);
        return ErrNoEnt;
      }
      var id := inodes[src].entries[fn];
      assert InodeInv(inodes, id);
      if inodes[id].kind.Dir? {
        var inside := IsAncestor(id, dst);
        if inside {
          return ErrInval;
        }
      } else {
        FileAboveNothing(inodes, id, dst);
      }
      if tn in inodes[dst].entries {
        if inodes[dst].entries[tn] == id {
          return OK;
        }
        assert EntryInv(inodes, dst, tn);
        st := VictimStatus(id, inodes[dst].entries[tn]);
        if st != OK { return; }
      }
      MoveEntry(src, fn, dst, tn);
      return OK;
    }

    /** The rename itself: the name it replaces goes first. */
    method MoveEntry(src: nat, fn: string, dst: nat, tn: string)
      requires Valid() && src in inodes && dst in inodes && inodes[dst].kind.Dir? && fn in inodes[src].entries
      requires !Under(inodes, inodes[src].entries[fn], dst)
      requires tn in inodes[dst].entries ==>
                 var v := inodes[dst].entries[tn];
                 v != inodes[src].entries[fn] && (v in inodes && inodes[v].kind.Dir? ==> inodes[v].entries == map[])
      modifies this
      ensures Valid()
      ensures Replaceable(old(inodes), src, fn, dst, tn)
      ensures inodes == Replaced(old(inodes), src, fn, dst, tn) && Marked()
      ensures open == old(open) - Victims(old(inodes), dst, tn)
      ensures nextIno == old(nextIno) && issued == old(issued)
    {
      VictimIsRemovable(inodes, src, fn, dst, tn);
      ReplaceKeepsTree(inodes, src, fn, dst, tn);
      ClearName(dst, tn);
      Shift(src, fn, dst, tn);
      dirty, changes := true, changes + 1;
    }

    /** Removes what has the name, if anything has. */
    method ClearName(d: nat, name: string)
      requires Valid() && d in inodes && (name in inodes[d].entries ==> Removable(inodes, d, name))
      modifies this
      ensures Valid() && changes >= old(changes) && nextIno == old(nextIno) && issued == old(issued)
      ensures inodes == if name in old(inodes)[d].entries then Unlinked(old(inodes), d, name) else old(inodes)
      ensures open == old(open) - Victims(old(inodes), d, name)
    {
      if name in inodes[d].entries {
        RemoveEntry(d, name);
      }
    }

    method Shift(src: nat, fn: string, dst: nat, tn: string)
      requires src in inodes && dst in inodes && fn in inodes[src].entries && inodes[src].entries[fn] in inodes
      modifies this`inodes
      ensures inodes == Moved(old(inodes), src, fn, dst, tn)
    {
      var id := inodes[src].entries[fn];
      inodes := inodes[src := inodes[src].(entries := inodes[src].entries - {fn})];
      inodes := inodes[dst := inodes[dst].(entries := inodes[dst].entries[tn := id])];
      if inodes[id].kind.Dir? && src != dst {
        inodes := inodes[src := inodes[src].(nlink := inodes[src].nlink - 1)];
        inodes := inodes[dst := inodes[dst].(nlink := inodes[dst].nlink + 1)];
      }
      inodes := inodes[id := inodes[id].(parent := dst)];
    }
  }

  /** A link count as a name goes: it does not go below zero. */
  function OneFewer(nlink: int): int {
    if nlink > 0 then nlink - 1 else nlink
  }

  /** A create that finds its name opens the file there: only a plain create
      does, and only of what is no directory. */
  predicate Opens(t: Table, d: nat, name: string, kind: Kind, excl: bool)
    requires d in t && name in t[d].entries
  {
    kind.Reg? && !excl && t[d].entries[name] in t && !t[t[d].entries[name]].kind.Dir?
  }

  /** The inode a rename to this name removes, if there is one. */
  function Victims(t: Table, d: nat, name: string): set<nat>
    requires d in t
  {
    if name in t[d].entries then {t[d].entries[name]} else {}
  }

  predicate IsDirAt(t: Table, i: nat) {
    i in t && t[i].kind.Dir?
  }

  /** How a rename between two directories is answered: a name that is not there, a
      directory into its own subtree, and a name taken by the other kind or by a
      directory with entries are refused, each in its own way. */
  ghost predicate RenameStatus(t: Table, src: nat, fn: string, dst: nat, tn: string, st: Status)
    requires src in t && dst in t
  {
    if fn !in t[src].entries then st == ErrNoEnt
    else
      var id := t[src].entries[fn];
      if IsDirAt(t, id) && Under(t, id, dst) then st == ErrInval
      else if tn !in t[dst].entries || t[dst].entries[tn] == id then st == OK
      else
        var v := t[dst].entries[tn];
        if IsDirAt(t, v) && !IsDirAt(t, id) then st == ErrIsDir
        else if !IsDirAt(t, v) && IsDirAt(t, id) then st == ErrNotDir
        else if v in t && IsDirAt(t, v) && t[v].entries != map[] then st == ErrNotEmpty
        else st == OK
  }

  /** The renames that are not refused: not into what moves, and not onto
      something of another kind or with entries of its own. */
  ghost predicate MayRename(t: Table, src: nat, fn: string, dst: nat, tn: string) {
    && src in t && dst in t && fn in t[src].entries && t[src].entries[fn] in t
    && var id := t[src].entries[fn];
    && (t[id].kind.Dir? ==> !Under(t, id, dst))
    && (tn in t[dst].entries ==>
          var v := t[dst].entries[tn];
          || v == id || v !in t
          || (t[v].kind.Dir? == t[id].kind.Dir? && (t[v].kind.Dir? ==> t[v].entries == map[])))
  }

  /** What a rename to an existing name needs of what it replaces. */
  predicate Replaceable(t: Table, src: nat, fn: string, dst: nat, tn: string) {
    && src in t && dst in t && fn in t[src].entries && t[src].entries[fn] in t
    && (tn in t[dst].entries ==>
          && Removable(t, dst, tn) && t[dst].entries[tn] != t[src].entries[fn]
          && t[dst].entries[tn] != src && t[dst].entries[tn] != dst && (src == dst ==> fn != tn))
  }

  lemma VictimIsRemovable(t: Table, src: nat, fn: string, dst: nat, tn: string)
    requires Tree(t) && src in t && dst in t && fn in t[src].entries
    requires tn in t[dst].entries ==>
               var v := t[dst].entries[tn];
               v != t[src].entries[fn] && (v in t && t[v].kind.Dir? ==> t[v].entries == map[])
    ensures tn in t[dst].entries ==> Removable(t, dst, tn)
  {
    if tn in t[dst].entries {
      assert EntryInv(t, dst, tn);
      assert InodeInv(t, t[dst].entries[tn]);
    }
  }

  /** Nothing is under a file but the file. */
  lemma FileAboveNothing(t: Table, f: nat, d: nat)
    requires Tree(t) && f in t && !t[f].kind.Dir? && d in t && t[d].kind.Dir?
    ensures !Under(t, f, d)
  {
    forall k: nat ensures Above(t, d, k) != f {
      DirsAboveDirs(t, d, k);
    }
  }

  lemma {:induction false} DirsAboveDirs(t: Table, d: nat, k: nat)
    requires Tree(t) && d in t && t[d].kind.Dir?
    ensures Above(t, d, k) in t ==> t[Above(t, d, k)].kind.Dir?
    decreases k
  {
    if k > 0 && d != ROOT {
      assert Named(t, d);
      assert InodeInv(t, t[d].parent);
      DirsAboveDirs(t, t[d].parent, k - 1);
    } else if k > 0 {
      assert 0 in t ==> InodeInv(t, 0);
    }
  }

  lemma EmptyIsTree(gen: nat)
    ensures Tree(map[ROOT := Inode(ROOT, gen, Dir, 2, map[], 0)])
  {
    var t: Table := map[ROOT := Inode(ROOT, gen, Dir, 2, map[], 0)];
    assert Subdirs(t, ROOT) == {};
    assert Ranked(t, map[ROOT := 0]);
  }

  lemma RootOnlyUnderItself(t: Table, a: nat)
    requires a != ROOT && a != 0
    ensures !Under(t, a, ROOT)
  {
    forall k: nat ensures Above(t, ROOT, k) != a {
      assert Above(t, ROOT, k) == if k == 0 then ROOT else 0;
    }
  }
}
