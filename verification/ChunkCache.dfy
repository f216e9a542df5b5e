/** The chunk cache: a list of chunk contents, most recently used first, held to
    a number of bytes; and the object that implements it with a list and a map. */
module ChunkCache {
  import opened Wrappers
  import opened FileState

  datatype Entry = Entry(hash: Hash, data: seq<Byte>)

  function Bytes(es: seq<Entry>): nat {
    if es == [] then 0 else Bytes(es[..|es| - 1]) + |es[|es| - 1].data|
  }

  ghost predicate Unique(es: seq<Entry>) {
    forall i, j :: 0 <= i < j < |es| ==> es[i].hash != es[j].hash
  }

  /** Where a hash is listed, or the length of the list. */
  function Find(es: seq<Entry>, h: Hash): (i: nat)
    ensures i <= |es| && (i < |es| ==> es[i].hash == h)
    ensures forall j :: 0 <= j < i ==> es[j].hash != h
  {
    if es == [] || es[0].hash == h then 0 else 1 + Find(es[1..], h)
  }

  function Front(es: seq<Entry>, i: nat): seq<Entry>
    requires i < |es|
  {
    [es[i]] + es[..i] + es[i + 1..]
  }

  /** The longest prefix within the limit: what is left when the least recently
      used go first, and no more of them than must. */
  function Fit(es: seq<Entry>, max: nat): seq<Entry> {
    if Bytes(es) <= max then es else Fit(es[..|es| - 1], max)
  }

  // The list a get and a put leave.

  function Get(es: seq<Entry>, h: Hash): seq<Entry> {
    var i := Find(es, h);
    if i < |es| then Front(es, i) else es
  }

  function Put(es: seq<Entry>, h: Hash, data: seq<Byte>, max: nat): seq<Entry> {
    if |data| > max then es
    else if Find(es, h) < |es| then Front(es, Find(es, h))
    else Fit([Entry(h, data)] + es, max)
  }

  ghost predicate Inv(es: seq<Entry>, max: nat) {
    Unique(es) && Bytes(es) <= max
  }

  lemma {:induction false} BytesConcat(a: seq<Entry>, b: seq<Entry>)
    ensures Bytes(a + b) == Bytes(a) + Bytes(b)
  {
    if b == [] {
      assert a + b == a;
    } else {
      var n := |b| - 1;
      assert (a + b)[..|a + b| - 1] == a + b[..n];
      BytesConcat(a, b[..n]);
    }
  }

  lemma BytesOne(e: Entry)
    ensures Bytes([e]) == |e.data|
  {
    assert [e][..0] == [];
  }

  lemma FrontAt(es: seq<Entry>, i: nat)
    requires i < |es|
    ensures |Front(es, i)| == |es|
    ensures forall p :: 0 <= p < |es| ==> Front(es, i)[p] == es[if p == 0 then i else if p <= i then p - 1 else p]
  {
  }

  lemma BytesSwap(es: seq<Entry>, f: seq<Entry>, a: seq<Entry>, x: seq<Entry>, b: seq<Entry>)
    requires es == a + x + b && f == x + a + b
    ensures Bytes(f) == Bytes(es) && multiset(f) == multiset(es)
  {
    BytesConcat(a + x, b);
    BytesConcat(a, x);
    BytesConcat(x + a, b);
    BytesConcat(x, a);
  }

  lemma Cut(es: seq<Entry>, i: nat)
    requires i < |es|
    ensures es == es[..i] + [es[i]] + es[i + 1..]
  {
  }

  /** Moving an entry to the front changes neither what is held nor its size. */
  lemma FrontKeeps(es: seq<Entry>, i: nat)
    requires i < |es| && Unique(es)
    ensures Unique(Front(es, i)) && Bytes(Front(es, i)) == Bytes(es)
    ensures multiset(Front(es, i)) == multiset(es)
  {
    FrontAt(es, i);
    var f := Front(es, i);
    Cut(es, i);
    BytesSwap(es, f, es[..i], [es[i]], es[i + 1..]);
    forall p, q | 0 <= p < q < |f| ensures f[p].hash != f[q].hash {
      var p', q' := if p == 0 then i else if p <= i then p - 1 else p, if q <= i then q - 1 else q;
      assert f[p] == es[p'] && f[q] == es[q'] && p' != q';
    }
  }

  /** Eviction removes exactly the shortest suffix that must go, and never the
      first entry if that alone is within the limit. */
  lemma {:induction false} FitExact(es: seq<Entry>, max: nat)
    ensures var f := Fit(es, max);
            && |f| <= |es| && f == es[..|f|] && Bytes(f) <= max
            && (forall n :: |f| < n <= |es| ==> Bytes(es[..n]) > max)
            && (es != [] && |es[0].data| <= max ==> f != [])
  {
    if Bytes(es) <= max {
      assert es[..|es|] == es;
    } else {
      var p := es[..|es| - 1];
      FitExact(p, max);
      var f := Fit(es, max);
      forall n | |f| < n <= |es| ensures Bytes(es[..n]) > max {
        if n == |es| { assert es[..n] == es; } else { assert es[..n] == p[..n]; }
      }
      assert f == es[..|f|];
      if |es| == 1 { BytesOne(es[0]); assert es == [es[0]]; }
    }
  }

  /** What the cache gives for a hash. */
  function Cached(es: seq<Entry>, h: Hash): Option<seq<Byte>> {
    if Find(es, h) < |es| then Some(es[Find(es, h)].data) else None
  }

  /** A get keeps the list and reports what it holds; a hit makes it the newest. */
  lemma GetKeeps(es: seq<Entry>, h: Hash, max: nat)
    requires Inv(es, max)
    ensures Inv(Get(es, h), max) && multiset(Get(es, h)) == multiset(es)
    ensures Cached(es, h).Some? ==> Get(es, h)[0] == Entry(h, Cached(es, h).value)
  {
    if Find(es, h) < |es| { FrontKeeps(es, Find(es, h)); }
  }

  /** A put within the limit leaves its hash newest; a chunk already held keeps
      its bytes; what goes is the shortest least recently used suffix. */
  lemma PutKeeps(es: seq<Entry>, h: Hash, data: seq<Byte>, max: nat)
    requires Inv(es, max)
    ensures var p := Put(es, h, data, max);
            && Inv(p, max)
            && (|data| > max ==> p == es)
            && (|data| <= max ==>
                  p != [] && p[0] == Entry(h, if Cached(es, h).Some? then Cached(es, h).value else data))
            && (|data| <= max && Cached(es, h).None? ==>
                  var full := [Entry(h, data)] + es;
                  |p| <= |full| && p == full[..|p|] && forall n :: |p| < n <= |full| ==> Bytes(full[..n]) > max)
            && (|data| <= max && Cached(es, h).Some? ==> multiset(p) == multiset(es))
  {
    var i := Find(es, h);
    if |data| <= max {
      if i < |es| {
        FrontKeeps(es, i);
      } else {
        var full := [Entry(h, data)] + es;
        FitExact(full, max);
        assert Unique(full);
      }
    }
  }

  // The cache in front of the store.

  /** Content addressing: every entry's key is the hash of its bytes. */
  ghost predicate Addressed(es: seq<Entry>) {
    forall i :: 0 <= i < |es| ==> es[i].hash == Sha256(es[i].data)
  }

  datatype Loaded = Loaded(data: Option<seq<Byte>>, cache: seq<Entry>)

  /** loadChunk of a stored chunk: a hit, or a fetch whose bytes hash to what was
      asked for and are then cached. */
  function Load(es: seq<Entry>, h: Hash, max: nat, fetched: Option<seq<Byte>>): Loaded {
    if Cached(es, h).Some? then Loaded(Cached(es, h), Get(es, h))
    else if fetched.None? || Sha256(fetched.value) != h then Loaded(None, Get(es, h))
    else Loaded(fetched, Put(Get(es, h), h, fetched.value, max))
  }

  lemma AddressedKept(es: seq<Entry>, h: Hash, data: seq<Byte>, max: nat)
    requires Inv(es, max) && Addressed(es)
    ensures Addressed(Get(es, h)) && (h == Sha256(data) ==> Addressed(Put(es, h, data, max)))
  {
    var i := Find(es, h);
    if i < |es| {
      FrontAt(es, i);
    } else {
      FitExact([Entry(h, data)] + es, max);
    }
  }

  /** The cache is transparent: whatever it holds, and whatever the store answers,
      bytes returned are the one content with that hash; and an honest store's
      answer is returned with the cache or without it. */
  lemma CacheTransparent(es: seq<Entry>, h: Hash, max: nat, fetched: Option<seq<Byte>>)
    requires Inv(es, max) && Addressed(es)
    ensures var l := Load(es, h, max, fetched);
            && Inv(l.cache, max) && Addressed(l.cache)
            && (l.data.Some? ==> l.data.value == h.preimage)
            && (fetched == Some(h.preimage) ==> l.data == Some(h.preimage))
            && (l.data.None? <==> Cached(es, h).None? && fetched != Some(h.preimage))
            && (l.data.Some? && |h.preimage| <= max ==> l.cache != [] && l.cache[0] == Entry(h, h.preimage))
  {
    GetKeeps(es, h, max);
    AddressedKept(es, h, h.preimage, max);
    if Cached(es, h).None? { PutKeeps(es, h, h.preimage, max); }
  }

  // The order.

  /** A use of the cache: a get, or a put. */
  datatype Use = GetUse(hash: Hash) | PutUse(hash: Hash, data: seq<Byte>)

  function Used(es: seq<Entry>, u: Use, max: nat): seq<Entry> {
    match u
    case GetUse(h) => Get(es, h)
    case PutUse(h, data) => Put(es, h, data, max)
  }

  /** The use counts as one of its hash: a hit, or a put that fits. */
  predicate Touches(es: seq<Entry>, u: Use, max: nat) {
    match u
    case GetUse(h) => Cached(es, h).Some?
    case PutUse(_, data) => |data| <= max
  }

  ghost predicate Uses(ess: seq<seq<Entry>>, us: seq<Use>, max: nat) {
    && |ess| == |us| + 1 && ess[0] == []
    && forall i :: 0 <= i < |us| ==> UsedAt(ess, us, max, i)
  }

  ghost predicate UsedAt(ess: seq<seq<Entry>>, us: seq<Use>, max: nat, i: nat)
    requires i < |us| < |ess|
  {
    ess[i + 1] == Used(ess[i], us[i], max)
  }

  /** When the hash was last used before time i; -1 for never. */
  function LastUse(ess: seq<seq<Entry>>, us: seq<Use>, i: nat, h: Hash, max: nat): int
    requires i <= |us| < |ess|
  {
    if i == 0 then -1
    else if us[i - 1].hash == h && Touches(ess[i - 1], us[i - 1], max) then i - 1
    else LastUse(ess, us, i - 1, h, max)
  }

  lemma UsedKeeps(es: seq<Entry>, u: Use, max: nat)
    requires Inv(es, max)
    ensures Inv(Used(es, u, max), max)
  {
    match u
    case GetUse(h) => GetKeeps(es, h, max);
    case PutUse(h, data) => PutKeeps(es, h, data, max);
  }

  /** The entries at p and q of f were in that order in es. */
  ghost predicate InOrder(es: seq<Entry>, f: seq<Entry>, p: nat, q: nat)
    requires p < |f| && q < |f|
  {
    exists i, j :: 0 <= i < j < |es| && es[i].hash == f[p].hash && es[j].hash == f[q].hash
  }

  lemma FrontOrder(es: seq<Entry>, k: nat, p: nat, q: nat)
    requires k < |es| && p < q < |es|
    ensures |Front(es, k)| == |es| && Front(es, k)[q].hash in Hashes(es)
    ensures p == 0 ==> Front(es, k)[0] == es[k]
    ensures p > 0 ==> InOrder(es, Front(es, k), p, q)
  {
    FrontAt(es, k);
    var i, j := if p == 0 then k else if p <= k then p - 1 else p, if q <= k then q - 1 else q;
    assert es[i].hash == Front(es, k)[p].hash && es[j].hash == Front(es, k)[q].hash;
  }

  lemma FitOrder(es: seq<Entry>, e: Entry, max: nat, p: nat, q: nat)
    requires p < q < |Fit([e] + es, max)|
    ensures var f := Fit([e] + es, max);
            f[0] == e && f[q].hash in Hashes(es) && (p > 0 ==> InOrder(es, f, p, q))
  {
    FitExact([e] + es, max);
    var f := Fit([e] + es, max);
    assert p > 0 ==> es[p - 1].hash == f[p].hash;
    assert es[q - 1].hash == f[q].hash;
  }

  /** A use moves its hash to the front, if it touches it, and leaves the others in
      the order they had. */
  lemma UsedOrder(es: seq<Entry>, u: Use, max: nat, p: nat, q: nat)
    requires Inv(es, max) && p < q < |Used(es, u, max)|
    ensures var f := Used(es, u, max);
            && f[q].hash in Hashes(es)
            && (Touches(es, u, max) && p == 0 ==> f[0].hash == u.hash)
            && (!Touches(es, u, max) || p > 0 ==> InOrder(es, f, p, q))
  {
    var k := Find(es, u.hash);
    if k < |es| && Touches(es, u, max) {
      FrontAt(es, k);
      FrontOrder(es, k, p, q);
    } else if Touches(es, u, max) {
      FitOrder(es, Entry(u.hash, u.data), max, p, q);
    } else {
      assert es[p].hash == Used(es, u, max)[p].hash && es[q].hash == Used(es, u, max)[q].hash;
    }
  }

  function Hashes(es: seq<Entry>): set<Hash> {
    set i | 0 <= i < |es| :: es[i].hash
  }

  lemma {:induction false} LastUseBefore(ess: seq<seq<Entry>>, us: seq<Use>, n: nat, h: Hash, max: nat)
    requires n <= |us| < |ess|
    ensures LastUse(ess, us, n, h, max) < n
  {
    if n > 0 { LastUseBefore(ess, us, n - 1, h, max); }
  }

  /** The entries at p and q were last used in that order, the later first. */
  predicate Later(ess: seq<seq<Entry>>, us: seq<Use>, max: nat, n: nat, p: nat, q: nat)
    requires n <= |us| < |ess| && p < |ess[n]| && q < |ess[n]|
  {
    LastUse(ess, us, n, ess[n][p].hash, max) > LastUse(ess, us, n, ess[n][q].hash, max)
  }

  ghost predicate Ordered(ess: seq<seq<Entry>>, us: seq<Use>, max: nat, n: nat)
    requires n <= |us| < |ess|
  {
    Inv(ess[n], max) && forall p: nat, q: nat :: p < q < |ess[n]| ==> Later(ess, us, max, n, p, q)
  }

  lemma FirstOrdered(ess: seq<seq<Entry>>, us: seq<Use>, max: nat)
    requires |us| < |ess| && ess[0] == []
    ensures Ordered(ess, us, max, 0)
  {
  }

  lemma NextOrdered(ess: seq<seq<Entry>>, us: seq<Use>, max: nat, k: nat)
    requires k < |us| < |ess| && Ordered(ess, us, max, k) && UsedAt(ess, us, max, k)
    ensures Ordered(ess, us, max, k + 1)
  {
    UsedKeeps(ess[k], us[k], max);
    var n := k + 1;
    forall p: nat, q: nat | p < q < |ess[n]| ensures Later(ess, us, max, n, p, q) {
      OrderKept(ess, us, max, k, p, q);
    }
  }

  /** The list is in order of last use, the most recent first: so what eviction
      takes from the back is always the least recently used. */
  lemma {:induction false} RecencyOrder(ess: seq<seq<Entry>>, us: seq<Use>, max: nat, n: nat)
    requires Uses(ess, us, max) && n <= |us|
    ensures Ordered(ess, us, max, n)
  {
    if n == 0 {
      FirstOrdered(ess, us, max);
    } else {
      RecencyOrder(ess, us, max, n - 1);
      NextOrdered(ess, us, max, n - 1);
    }
  }

  lemma OrderKept(ess: seq<seq<Entry>>, us: seq<Use>, max: nat, k: nat, p: nat, q: nat)
    requires k < |us| < |ess| && ess[k + 1] == Used(ess[k], us[k], max) && Inv(ess[k], max)
    requires p < q < |ess[k + 1]| && Unique(ess[k + 1])
    requires Ordered(ess, us, max, k)
    ensures Later(ess, us, max, k + 1, p, q)
  {
    var es, u, f := ess[k], us[k], ess[k + 1];
    UsedOrder(es, u, max, p, q);
    if Touches(es, u, max) { UsedOrder(es, u, max, 0, q); }
    LastUseBefore(ess, us, k, f[q].hash, max);
    if !Touches(es, u, max) || p > 0 {
      var i, j :| 0 <= i < j < |es| && es[i].hash == f[p].hash && es[j].hash == f[q].hash;
      assert Later(ess, us, max, k, i, j);
    }
  }

  // The object.

  /** The map finds exactly what the list holds. */
  ghost predicate Agree(es: seq<Entry>, items: map<Hash, seq<Byte>>) {
    forall h :: Cached(es, h) == if h in items then Some(items[h]) else None
  }

  class Cache {
    const maxBytes: nat
    var curBytes: int
    var list: seq<Entry>             // ll, front first
    var items: map<Hash, seq<Byte>>  // each listed hash, with its element's bytes
    var hits: nat
    var misses: nat

    ghost predicate Valid()
      reads this
    {
      && Inv(list, maxBytes) && curBytes == Bytes(list)
      && Agree(list, items)
    }

    constructor (max: int)
      ensures Valid() && list == [] && maxBytes == if max <= 0 then 0x1000_0000 else max
    {
      maxBytes := if max <= 0 then 0x1000_0000 else max;
      curBytes, list, items, hits, misses := 0, [], map[], 0, 0;
    }

    method MoveToFront(h: Hash)
      requires Valid() && h in items
      modifies this`list
      ensures Valid() && list == Front(old(list), Find(old(list), h)) && list == Get(old(list), h)
    {
      var i := Find(list, h);
      FrontKeeps(list, i);
      list := [list[i]] + list[..i] + list[i + 1..];
      assert list == Front(old(list), i);
      SameFinds(old(list), list);
    }

    method GetChunk(h: Hash) returns (data: seq<Byte>, ok: bool)
      requires Valid()
      modifies this
      ensures Valid() && list == Get(old(list), h)
      ensures (if ok then Some(data) else None) == Cached(old(list), h)
      ensures hits == old(hits) + (if ok then 1 else 0) && misses == old(misses) + (if ok then 0 else 1)
    {
      if h !in items {
        misses := misses + 1;
        return [], false;
      }
      hits := hits + 1;
      data, ok := items[h], true;
      MoveToFront(h);
    }

    method PutChunk(h: Hash, data: seq<Byte>)
      requires Valid()
      modifies this
      ensures Valid() && list == Put(old(list), h, data, maxBytes)
    {
      if |data| > maxBytes { return; }
      if h in items {
        MoveToFront(h);
        return;
      }
      ghost var full := [Entry(h, data)] + list;
      FirstComes(list, Entry(h, data));
      list := [Entry(h, data)] + list;
      items := items[h := data];
      curBytes := curBytes + |data|;
      EvictBack(full);
    }

    /** Removes from the back until the bytes held are within the limit. */
    method EvictBack(ghost full: seq<Entry>)
      requires list == full && Unique(list) && curBytes == Bytes(list) && Agree(list, items)
      modifies this`list, this`items, this`curBytes
      ensures Valid() && list == Fit(full, maxBytes)
    {
      while curBytes > maxBytes && list != []
        invariant curBytes == Bytes(list) && Unique(list)
        invariant Fit(list, maxBytes) == Fit(full, maxBytes)
        invariant Agree(list, items)
        decreases |list|
      {
        ghost var was := list;
        var last := list[|list| - 1];
        list := list[..|list| - 1];
        items := items - {last.hash};
        curBytes := curBytes - |last.data|;
        LastGoes(was);
      }
    }
  }

  /** Lists of the same entries find the same bytes. */
  lemma SameFinds(a: seq<Entry>, b: seq<Entry>)
    requires Unique(a) && Unique(b) && multiset(a) == multiset(b)
    ensures forall h :: Cached(a, h) == Cached(b, h)
  {
    forall h ensures Cached(a, h) == Cached(b, h) {
      SameFind(a, b, h);
      SameFind(b, a, h);
    }
  }

  lemma SameFind(a: seq<Entry>, b: seq<Entry>, h: Hash)
    requires Unique(b) && multiset(a) == multiset(b)
    ensures Cached(a, h).Some? ==> Cached(b, h) == Cached(a, h)
  {
    var i := Find(a, h);
    if i < |a| {
      assert a[i] in multiset(b);
      assert a[i] in b;
      var j :| 0 <= j < |b| && b[j] == a[i];
      assert Find(b, h) == j;
    }
  }

  lemma FirstComes(was: seq<Entry>, e: Entry)
    requires Unique(was) && Cached(was, e.hash).None?
    ensures var now := [e] + was;
            && Unique(now) && Bytes(now) == Bytes(was) + |e.data|
            && forall g :: Cached(now, g) == if g == e.hash then Some(e.data) else Cached(was, g)
  {
    var now := [e] + was;
    BytesConcat([e], was);
    BytesOne(e);
    assert now[1..] == was;
  }

  lemma LastGoes(was: seq<Entry>)
    requires was != [] && Unique(was)
    ensures var now, last := was[..|was| - 1], was[|was| - 1];
            && Unique(now)
            && forall g :: Cached(now, g) == if g == last.hash then None else Cached(was, g)
  {
    var now, last := was[..|was| - 1], was[|was| - 1];
    forall g ensures Cached(now, g) == if g == last.hash then None else Cached(was, g) {
      var i, j := Find(was, g), Find(now, g);
      assert j < |now| ==> was[j].hash == g;
    }
  }
}
