/** The duplicate request cache: the replies of calls that may not run twice,
    the markers of those still running, and the queue replies age out of. */
module ReplyCache {
  import opened Wrappers

  datatype Key = Key(conn: nat, xid: nat, prog: nat, vers: nat, proc: nat)

  type Reply = seq<Byte>

  datatype DoneRef = DoneRef(key: Key, at: int)

  /** entries: each key's stored reply, or None while its call is in flight.
      done: the finished entries, oldest first. */
  datatype Cache = Cache(entries: map<Key, Option<Reply>>, done: seq<DoneRef>)

  datatype Answer = Miss | InFlight | Hit(reply: Reply)

  const EMPTY := Cache(map[], [])

  /** The two bounds of a cache. */
  datatype Bounds = Bounds(maxEntries: int, maxAge: int)

  predicate Expired(b: Bounds, d: DoneRef, now: int) {
    now - d.at > b.maxAge
  }

  function Pop(c: Cache): Cache
    requires c.done != []
  {
    Cache(c.entries - {c.done[0].key}, c.done[1..])
  }

  function Purge(b: Bounds, c: Cache, now: int): Cache
    decreases |c.done|
  {
    if c.done != [] && Expired(b, c.done[0], now) then Purge(b, Pop(c), now) else c
  }

  function Evict(b: Bounds, c: Cache): Cache
    decreases |c.done|
  {
    if |c.entries| >= b.maxEntries && c.done != [] then Evict(b, Pop(c)) else c
  }

  function Look(c: Cache, k: Key): Answer {
    if k !in c.entries then Miss else if c.entries[k].None? then InFlight else Hit(c.entries[k].value)
  }

  /** Room for a marker if there can be any, and the marker. */
  function Reserve(b: Bounds, c: Cache, k: Key): Cache {
    var e := Evict(b, c);
    if |e.entries| < b.maxEntries then e.(entries := e.entries[k := None]) else e
  }

  function Begin(b: Bounds, c: Cache, k: Key, now: int): Cache {
    var p := Purge(b, c, now);
    if k in p.entries then p else Reserve(b, p, k)
  }

  function Abandon(c: Cache, k: Key): Cache {
    if k in c.entries && c.entries[k].None? then c.(entries := c.entries - {k}) else c
  }

  function Finish(c: Cache, k: Key, reply: Reply, now: int): Cache {
    if reply == [] then Abandon(c, k)
    else if k in c.entries && c.entries[k].None? then Cache(c.entries[k := Some(reply)], c.done + [DoneRef(k, now)])
    else c
  }

  // What every call keeps.

  ghost predicate Queued(done: seq<DoneRef>, k: Key) {
    exists i :: 0 <= i < |done| && done[i].key == k
  }

  /** The queue is exactly the finished keys, once each, in time order. */
  ghost predicate Inv(c: Cache) {
    && (forall i, j :: 0 <= i < j < |c.done| ==> c.done[i].key != c.done[j].key && c.done[i].at <= c.done[j].at)
    && (forall i :: 0 <= i < |c.done| ==> c.done[i].key in c.entries && c.entries[c.done[i].key].Some?)
    && (forall k :: k in c.entries && c.entries[k].Some? ==> c.entries[k].value != [] && Queued(c.done, k))
  }

  /** k's call is in flight. */
  predicate Marked(c: Cache, k: Key) {
    k in c.entries && c.entries[k].None?
  }

  predicate Bounded(b: Bounds, c: Cache) {
    |c.entries| <= b.maxEntries || c.entries == map[]
  }

  /** No stamp is ahead of the clock. */
  predicate Past(c: Cache, clock: int) {
    forall d :: d in c.done ==> d.at <= clock
  }

  lemma PopKeeps(c: Cache)
    requires Inv(c) && c.done != []
    ensures Inv(Pop(c)) && c.done[0].key in c.entries && |Pop(c).entries| == |c.entries| - 1
    ensures forall k :: k in Pop(c).entries <==> k in c.entries && k != c.done[0].key
  {
    var p := Pop(c);
    assert p.entries.Keys == c.entries.Keys - {c.done[0].key};
    forall k | k in p.entries && p.entries[k].Some? ensures Queued(p.done, k) {
      var i :| 0 <= i < |c.done| && c.done[i].key == k;
      assert p.done[i - 1].key == k;
    }
  }

  /** The later cache holds a suffix of the earlier's queue, and every marker. */
  ghost predicate Drops(c: Cache, p: Cache) {
    && |p.done| <= |c.done| && p.done == c.done[|c.done| - |p.done|..]
    && (forall k :: k in p.entries ==> k in c.entries && p.entries[k] == c.entries[k])
    && (forall k :: k in c.entries && c.entries[k].None? ==> k in p.entries)
    && |p.entries| <= |c.entries|
  }

  lemma DropsAll(c: Cache)
    ensures Drops(c, c)
  {
    assert c.done[0..] == c.done;
  }

  lemma PopDrops(c: Cache, p: Cache)
    requires Inv(c) && c.done != [] && Drops(Pop(c), p)
    ensures Drops(c, p)
  {
    PopKeeps(c);
    assert c.done[1..][|c.done| - |p.done| - 1..] == c.done[|c.done| - |p.done|..];
  }

  lemma {:induction false} PurgeDrops(b: Bounds, c: Cache, now: int)
    requires Inv(c)
    ensures var p := Purge(b, c, now); Inv(p) && Drops(c, p)
    decreases |c.done|
  {
    DropsAll(c);
    if c.done != [] && Expired(b, c.done[0], now) {
      PopKeeps(c);
      PurgeDrops(b, Pop(c), now);
      PopDrops(c, Purge(b, c, now));
    }
  }

  lemma {:induction false} PurgeUnexpired(b: Bounds, c: Cache, now: int)
    requires Inv(c)
    ensures forall d :: d in Purge(b, c, now).done <==> d in c.done && now - d.at <= b.maxAge
    decreases |c.done|
  {
    if c.done != [] {
      if Expired(b, c.done[0], now) {
        PopKeeps(c);
        PurgeUnexpired(b, Pop(c), now);
        assert c.done == [c.done[0]] + c.done[1..];
      } else {
        OldestDecides(b, c, now);
      }
    }
  }

  /** A purge drops exactly the expired entries, wherever they stand. */
  lemma PurgeExact(b: Bounds, c: Cache, now: int)
    requires Inv(c)
    ensures var p := Purge(b, c, now); Inv(p) && Drops(c, p)
    ensures forall d :: d in Purge(b, c, now).done <==> d in c.done && now - d.at <= b.maxAge
  {
    PurgeDrops(b, c, now);
    PurgeUnexpired(b, c, now);
  }

  /** If the oldest has not expired, nothing has. */
  lemma OldestDecides(b: Bounds, c: Cache, now: int)
    requires Inv(c) && c.done != [] && !Expired(b, c.done[0], now)
    ensures forall d :: d in c.done ==> !Expired(b, d, now)
  {
    forall d | d in c.done ensures !Expired(b, d, now) {
      var i :| 0 <= i < |c.done| && c.done[i] == d;
      assert i > 0 ==> c.done[0].at <= c.done[i].at;
    }
  }

  /** Within the bound, making room costs at most the one oldest reply. */
  lemma EvictExact(b: Bounds, c: Cache)
    requires Inv(c) && Bounded(b, c)
    ensures var e := Evict(b, c);
            && Inv(e) && Drops(c, e) && Bounded(b, e)
            && e == (if |c.entries| >= b.maxEntries && c.done != [] then Pop(c) else c)
            && (c.done != [] ==> |e.entries| < b.maxEntries)
  {
    DropsAll(c);
    if |c.entries| >= b.maxEntries && c.done != [] {
      PopKeeps(c);
      DropsAll(Pop(c));
      PopDrops(c, Pop(c));
      assert c.entries != map[];
      assert Evict(b, Pop(c)) == Pop(c);
    } else if c.done != [] {
      assert c.done[0].key in c.entries;
    }
  }

  lemma MarkKeeps(b: Bounds, e: Cache, k: Key)
    requires Inv(e) && k !in e.entries && |e.entries| < b.maxEntries
    ensures var r := e.(entries := e.entries[k := None]); Inv(r) && Bounded(b, r)
  {
    var r := e.(entries := e.entries[k := None]);
    assert r.entries.Keys == e.entries.Keys + {k};
    forall j | j in r.entries && r.entries[j].Some? ensures Queued(r.done, j) {
      assert Queued(e.done, j);
    }
  }

  lemma ReserveKeeps(b: Bounds, c: Cache, k: Key)
    requires Inv(c) && Bounded(b, c) && k !in c.entries
    ensures var r := Reserve(b, c, k); Inv(r) && Bounded(b, r)
  {
    EvictExact(b, c);
    var e := Evict(b, c);
    if |e.entries| < b.maxEntries { MarkKeeps(b, e, k); }
  }

  /** What begin makes of the purged cache p. */
  lemma BeginIs(b: Bounds, c: Cache, k: Key, now: int)
    requires Inv(c) && Bounded(b, c)
    ensures var p := Purge(b, c, now);
            var e := if k !in p.entries && |p.entries| >= b.maxEntries && p.done != [] then Pop(p) else p;
            && Inv(p) && Bounded(b, p) && Drops(c, p) && Drops(p, e)
            && Begin(b, c, k, now) ==
                 if k !in p.entries && |e.entries| < b.maxEntries then e.(entries := e.entries[k := None]) else e
  {
    PurgeExact(b, c, now);
    var p := Purge(b, c, now);
    DropsAll(p);
    if c.entries == map[] { assert p.entries == map[]; }
    EvictExact(b, p);
  }

  lemma BeginKeeps(b: Bounds, c: Cache, k: Key, now: int)
    requires Inv(c) && Bounded(b, c)
    ensures Inv(Begin(b, c, k, now)) && Bounded(b, Begin(b, c, k, now))
    ensures forall d :: d in Begin(b, c, k, now).done ==> d in c.done
  {
    PurgeExact(b, c, now);
    var p := Purge(b, c, now);
    if c.entries == map[] { assert p.entries == map[]; }
    if k !in p.entries {
      ReserveKeeps(b, p, k);
      EvictExact(b, p);
    }
  }

  lemma AbandonKeeps(b: Bounds, c: Cache, k: Key)
    requires Inv(c) && Bounded(b, c)
    ensures Inv(Abandon(c, k)) && Bounded(b, Abandon(c, k))
  {
    var a := Abandon(c, k);
    if k in c.entries && c.entries[k].None? {
      assert a.entries.Keys == c.entries.Keys - {k};
    }
  }

  lemma FinishKeeps(b: Bounds, c: Cache, k: Key, reply: Reply, now: int)
    requires Inv(c) && Bounded(b, c) && Past(c, now)
    ensures var f := Finish(c, k, reply, now); Inv(f) && Bounded(b, f) && Past(f, now)
  {
    AbandonKeeps(b, c, k);
    if reply != [] && k in c.entries && c.entries[k].None? {
      StoreKeeps(c, k, reply, now);
      assert Finish(c, k, reply, now).entries.Keys == c.entries.Keys;
    }
  }

  lemma StoreKeeps(c: Cache, k: Key, reply: Reply, now: int)
    requires Inv(c) && Past(c, now) && reply != [] && k in c.entries && c.entries[k].None?
    ensures Inv(Cache(c.entries[k := Some(reply)], c.done + [DoneRef(k, now)]))
  {
    var f := Cache(c.entries[k := Some(reply)], c.done + [DoneRef(k, now)]);
    forall i | 0 <= i < |c.done| ensures c.done[i].key != k && c.done[i].at <= now {
      assert c.done[i] in c.done;
    }
    forall j | j in f.entries && f.entries[j].Some? ensures Queued(f.done, j) {
      QueuedOn(c.done, DoneRef(k, now), j);
    }
  }

  lemma QueuedOn(done: seq<DoneRef>, d: DoneRef, k: Key)
    ensures Queued(done, k) || d.key == k ==> Queued(done + [d], k)
  {
    if d.key == k {
      assert (done + [d])[|done|].key == k;
    } else if Queued(done, k) {
      var i :| 0 <= i < |done| && done[i].key == k;
      assert (done + [d])[i].key == k;
    }
  }

  // What a reply survives.

  predicate Stored(c: Cache, k: Key, r: Reply, at: int) {
    k in c.entries && c.entries[k] == Some(r) && DoneRef(k, at) in c.done
  }

  /** A begin of j at `now` ends k's stored reply: it has expired, or it is the
      oldest left and j, unknown to a full cache, needs its place. */
  predicate Ends(b: Bounds, c: Cache, j: Key, now: int, k: Key, at: int) {
    || Expired(b, DoneRef(k, at), now)
    || (var p := Purge(b, c, now);
        j !in p.entries && |p.entries| >= b.maxEntries && p.done != [] && p.done[0].key == k)
  }

  lemma StoredOnce(c: Cache, k: Key, r: Reply, at: int)
    requires Inv(c) && Stored(c, k, r, at)
    ensures forall d :: d in c.done && d.key == k ==> d.at == at
  {
    var j :| 0 <= j < |c.done| && c.done[j] == DoneRef(k, at);
    forall d | d in c.done && d.key == k ensures d.at == at {
      var i :| 0 <= i < |c.done| && c.done[i] == d;
      assert i == j;
    }
  }

  /** A stored reply outlives a begin exactly when the begin does not end it. */
  lemma StoredUntil(b: Bounds, c: Cache, j: Key, now: int, k: Key, r: Reply, at: int)
    requires Inv(c) && Bounded(b, c) && Stored(c, k, r, at)
    ensures Stored(Begin(b, c, j, now), k, r, at) <==> !Ends(b, c, j, now, k, at)
  {
    var p := Purge(b, c, now);
    BeginIs(b, c, j, now);
    StoredPurged(b, c, now, k, r, at);
    if DoneRef(k, at) in p.done { FirstGoes(p, k, r, at); }
    var e := if j !in p.entries && |p.entries| >= b.maxEntries && p.done != [] then Pop(p) else p;
    MarkerApart(e, j, k, r, at);
    assert DoneRef(k, at) in e.done ==> DoneRef(k, at) in p.done;
    assert Stored(e, k, r, at) <==> !Ends(b, c, j, now, k, at);
  }

  lemma MarkerApart(e: Cache, j: Key, k: Key, r: Reply, at: int)
    ensures j !in e.entries ==> (Stored(e.(entries := e.entries[j := None]), k, r, at) <==> Stored(e, k, r, at))
  {
  }

  lemma StoredPurged(b: Bounds, c: Cache, now: int, k: Key, r: Reply, at: int)
    requires Inv(c) && Stored(c, k, r, at)
    ensures DoneRef(k, at) in Purge(b, c, now).done <==> !Expired(b, DoneRef(k, at), now)
    ensures DoneRef(k, at) in Purge(b, c, now).done ==> Stored(Purge(b, c, now), k, r, at)
  {
    PurgeExact(b, c, now);
  }

  lemma FirstGoes(p: Cache, k: Key, r: Reply, at: int)
    requires Inv(p) && Stored(p, k, r, at)
    ensures p.done != [] && (Stored(Pop(p), k, r, at) <==> p.done[0].key != k)
  {
    assert p.done == [p.done[0]] + p.done[1..];
  }

  /** And a begin of k itself then answers it. */
  lemma HitExactly(b: Bounds, c: Cache, now: int, k: Key, r: Reply, at: int)
    requires Inv(c) && Bounded(b, c) && Stored(c, k, r, at)
    ensures Look(Purge(b, c, now), k) == if now - at > b.maxAge then Miss else Hit(r)
  {
    StoredPurged(b, c, now, k, r, at);
    StoredOnce(c, k, r, at);
    PurgeExact(b, c, now);
    var p := Purge(b, c, now);
    forall i | 0 <= i < |p.done| && Expired(b, DoneRef(k, at), now) ensures p.done[i].key != k {
      assert p.done[i] in p.done;
    }
  }

  // Runs over every sequence of calls.

  datatype Call =
    | BeginCall(key: Key, now: int)
    | FinishCall(key: Key, reply: Reply, now: int)
    | AbandonCall(key: Key)

  function Do(b: Bounds, c: Cache, call: Call): Cache {
    match call
    case BeginCall(k, now) => Begin(b, c, k, now)
    case FinishCall(k, reply, now) => Finish(c, k, reply, now)
    case AbandonCall(k) => Abandon(c, k)
  }

  /** clocks: the time after each call, which never runs back. */
  ghost predicate Run(b: Bounds, cs: seq<Cache>, calls: seq<Call>, clocks: seq<int>) {
    && |cs| == |clocks| == |calls| + 1 && cs[0] == EMPTY
    && (forall i :: 0 <= i < |calls| ==> cs[i + 1] == Do(b, cs[i], calls[i]) && clocks[i] <= clocks[i + 1])
    && (forall i :: 0 <= i < |calls| && !calls[i].AbandonCall? ==> calls[i].now == clocks[i + 1])
  }

  /** The bound and the queue hold over every sequence of begins, finishes and abandons. */
  lemma {:induction false} CacheInvariant(b: Bounds, cs: seq<Cache>, calls: seq<Call>, clocks: seq<int>, i: nat)
    requires Run(b, cs, calls, clocks) && i < |cs|
    ensures Inv(cs[i]) && Bounded(b, cs[i]) && Past(cs[i], clocks[i])
  {
    if i > 0 {
      CacheInvariant(b, cs, calls, clocks, i - 1);
      var c := cs[i - 1];
      match calls[i - 1]
      case BeginCall(k, now) => BeginKeeps(b, c, k, now);
      case FinishCall(k, reply, now) => FinishKeeps(b, c, k, reply, now);
      case AbandonCall(k) => AbandonKeeps(b, c, k);
    }
  }

  /** No call but its own finish or abandon removes an in-flight marker, and a
      begin of its key is told of it. */
  lemma MarkerStays(b: Bounds, c: Cache, call: Call, k: Key)
    requires Inv(c) && Bounded(b, c) && Marked(c, k) && (call.BeginCall? || call.key != k)
    ensures Marked(Do(b, c, call), k)
    ensures call.BeginCall? ==> Look(Purge(b, c, call.now), k) == InFlight
  {
    if call.BeginCall? { BeginIs(b, c, call.key, call.now); }
  }

  lemma FinishStores(c: Cache, k: Key, r: Reply, now: int)
    requires Inv(c) && k in c.entries && c.entries[k].None? && r != []
    ensures Stored(Finish(c, k, r, now), k, r, now)
  {
    assert Finish(c, k, r, now).done[|c.done|] == DoneRef(k, now);
  }

  /** Exactly-once replay: once a call in flight finishes with r at time `at`, r
      is what k has, until a begin finds it expired or takes its place. */
  lemma {:induction false} Replayed(b: Bounds, cs: seq<Cache>, calls: seq<Call>, clocks: seq<int>,
                                    i: nat, j: nat, k: Key, r: Reply, at: int)
    requires Run(b, cs, calls, clocks) && i < j < |cs|
    requires calls[i] == FinishCall(k, r, at) && r != [] && k in cs[i].entries && cs[i].entries[k].None?
    requires forall m :: i < m < j && calls[m].BeginCall? ==> !Ends(b, cs[m], calls[m].key, calls[m].now, k, at)
    ensures Stored(cs[j], k, r, at)
    ensures forall now :: Look(Purge(b, cs[j], now), k) == if now - at > b.maxAge then Miss else Hit(r)
    decreases j
  {
    CacheInvariant(b, cs, calls, clocks, j - 1);
    if j == i + 1 {
      FinishStores(cs[i], k, r, at);
    } else {
      Replayed(b, cs, calls, clocks, i, j - 1, k, r, at);
      OthersKeep(b, cs[j - 1], calls[j - 1], k, r, at);
    }
    CacheInvariant(b, cs, calls, clocks, j);
    HitsExactly(b, cs[j], k, r, at);
  }

  lemma HitsExactly(b: Bounds, c: Cache, k: Key, r: Reply, at: int)
    requires Inv(c) && Bounded(b, c) && Stored(c, k, r, at)
    ensures forall now :: Look(Purge(b, c, now), k) == if now - at > b.maxAge then Miss else Hit(r)
  {
    forall now ensures Look(Purge(b, c, now), k) == if now - at > b.maxAge then Miss else Hit(r) {
      HitExactly(b, c, now, k, r, at);
    }
  }

  lemma OthersKeep(b: Bounds, c: Cache, call: Call, k: Key, r: Reply, at: int)
    requires Inv(c) && Bounded(b, c) && Stored(c, k, r, at)
    requires call.BeginCall? ==> !Ends(b, c, call.key, call.now, k, at)
    ensures Stored(Do(b, c, call), k, r, at)
  {
    if call.BeginCall? { StoredUntil(b, c, call.key, call.now, k, r, at); }
  }

  // The bracket in dispatch: calls run between a begin and a finish or abandon.

  /** running: the keys of the calls executing, with repeats. */
  datatype Server = Server(cache: Cache, running: multiset<Key>)

  datatype Event = Arrive(key: Key, now: int) | End(key: Key, reply: Reply, now: int)

  function Dispatch(b: Bounds, s: Server, e: Event): Server {
    match e
    case Arrive(k, now) =>
      Server(Begin(b, s.cache, k, now),
             if Look(Purge(b, s.cache, now), k) == Miss then s.running + multiset{k} else s.running)
    case End(k, reply, now) =>
      Server(if reply == [] then Abandon(s.cache, k) else Finish(s.cache, k, reply, now), s.running - multiset{k})
  }

  /** A key is in flight only while a call of it is executing. */
  ghost predicate MarkersRun(s: Server) {
    forall k :: Marked(s.cache, k) ==> k in s.running
  }

  ghost predicate Serving(b: Bounds, ss: seq<Server>, es: seq<Event>) {
    && |ss| == |es| + 1 && ss[0] == Server(EMPTY, multiset{})
    && (forall i :: 0 <= i < |es| ==> ss[i + 1] == Dispatch(b, ss[i], es[i]))
    && (forall i :: 0 <= i < |es| && es[i].End? ==> es[i].key in ss[i].running)
    && (forall i, j :: 0 <= i < j < |es| ==> es[i].now <= es[j].now)
  }

  /** The only marker a begin puts up is that of the key it misses. */
  lemma BeginMarks(b: Bounds, c: Cache, k: Key, now: int, j: Key)
    requires Inv(c) && Bounded(b, c) && Marked(Begin(b, c, k, now), j)
    ensures Marked(c, j) || (j == k && Look(Purge(b, c, now), k) == Miss)
  {
    BeginIs(b, c, k, now);
    var p := Purge(b, c, now);
    assert j != k || k in p.entries ==> j in p.entries;
  }

  lemma DispatchKeeps(b: Bounds, s: Server, e: Event)
    requires Inv(s.cache) && Bounded(b, s.cache) && Past(s.cache, e.now) && MarkersRun(s)
    ensures var t := Dispatch(b, s, e); Inv(t.cache) && Bounded(b, t.cache) && Past(t.cache, e.now) && MarkersRun(t)
  {
    var t := Dispatch(b, s, e);
    match e
    case Arrive(k, now) =>
      BeginKeeps(b, s.cache, k, now);
      forall j | Marked(t.cache, j) ensures j in t.running {
        BeginMarks(b, s.cache, k, now, j);
      }
    case End(k, reply, now) =>
      AbandonKeeps(b, s.cache, k);
      FinishKeeps(b, s.cache, k, reply, now);
      forall j | Marked(t.cache, j) ensures j in t.running {
        assert Marked(s.cache, j) && j != k;
      }
  }

  /** No key is left in flight by a call that has stopped executing, however the
      calls overlap and however many ran uncached. */
  lemma {:induction false} NoStuckMarker(b: Bounds, ss: seq<Server>, es: seq<Event>, i: nat)
    requires Serving(b, ss, es) && i < |ss|
    ensures Inv(ss[i].cache) && Bounded(b, ss[i].cache) && MarkersRun(ss[i])
    ensures i > 0 ==> Past(ss[i].cache, es[i - 1].now)
  {
    if i > 0 {
      NoStuckMarker(b, ss, es, i - 1);
      assert i > 1 ==> es[i - 2].now <= es[i - 1].now;
      DispatchKeeps(b, ss[i - 1], es[i - 1]);
    }
  }

  // What the bracket answers.

  /** A call in flight that ends with a reply is answered to whoever sends it again
      in time: the retransmission is told the reply, and nothing executes. */
  lemma EndIsReplayed(b: Bounds, s: Server, k: Key, r: Reply, at: int, now: int)
    requires Inv(s.cache) && Bounded(b, s.cache) && Past(s.cache, at) && Marked(s.cache, k) && r != []
    requires now - at <= b.maxAge
    ensures var t := Dispatch(b, s, End(k, r, at));
            && t.running == s.running - multiset{k}
            && Look(Purge(b, t.cache, now), k) == Hit(r)
            && Dispatch(b, t, Arrive(k, now)).running == t.running
  {
    FinishKeeps(b, s.cache, k, r, at);
    FinishStores(s.cache, k, r, at);
    HitExactly(b, Finish(s.cache, k, r, at), now, k, r, at);
  }

  /** One that ends with none is forgotten, and its retransmission executes. */
  lemma EndOfNothing(b: Bounds, s: Server, k: Key, at: int, now: int)
    requires Inv(s.cache) && Bounded(b, s.cache) && Marked(s.cache, k)
    ensures var t := Dispatch(b, s, End(k, [], at));
            && k !in t.cache.entries && t.running == s.running - multiset{k}
            && Dispatch(b, t, Arrive(k, now)).running == t.running + multiset{k}
  {
    AbandonKeeps(b, s.cache, k);
    PurgeExact(b, Abandon(s.cache, k), now);
  }

  // How often a call executes.

  /** A begin of k would find nothing of it and no place for it: calls in flight
      fill the cache, and no finished one is left to make room. */
  predicate Crowded(b: Bounds, c: Cache, k: Key, now: int) {
    var p := Purge(b, c, now);
    k !in p.entries && |p.entries| >= b.maxEntries && p.done == []
  }

  /** A call runs uncached exactly when it arrives at a crowded cache. */
  lemma UncachedExactly(b: Bounds, c: Cache, k: Key, now: int)
    requires Inv(c) && Bounded(b, c)
    ensures k !in Begin(b, c, k, now).entries <==> Crowded(b, c, k, now)
  {
    BeginIs(b, c, k, now);
    EvictExact(b, Purge(b, c, now));
  }

  /** And then nothing stops its retransmission from executing beside it. */
  lemma CrowdedRunsTwice(b: Bounds, s: Server, k: Key, now: int)
    requires Inv(s.cache) && Bounded(b, s.cache) && Crowded(b, s.cache, k, now)
    ensures Dispatch(b, Dispatch(b, s, Arrive(k, now)), Arrive(k, now)).running[k] == s.running[k] + 2
  {
    UncachedExactly(b, s.cache, k, now);
    assert Begin(b, s.cache, k, now) == Purge(b, s.cache, now);
  }

  /** At most one call of k is executing, and it has its marker. */
  predicate Once(s: Server, k: Key) {
    s.running[k] <= 1 && (k in s.running ==> Marked(s.cache, k))
  }

  lemma MissMarks(b: Bounds, c: Cache, k: Key, now: int)
    requires Inv(c) && Bounded(b, c) && Look(Purge(b, c, now), k) == Miss
    ensures k in Begin(b, c, k, now).entries ==> Marked(Begin(b, c, k, now), k)
  {
    BeginIs(b, c, k, now);
  }

  lemma OnceArrived(b: Bounds, s: Server, j: Key, now: int, k: Key)
    requires Inv(s.cache) && Bounded(b, s.cache) && Once(s, k)
    requires j == k ==> k in Begin(b, s.cache, k, now).entries
    ensures Once(Dispatch(b, s, Arrive(j, now)), k)
  {
    if k in s.running {
      MarkerStays(b, s.cache, BeginCall(j, now), k);
    } else if j == k && Look(Purge(b, s.cache, now), k) == Miss {
      MissMarks(b, s.cache, k, now);
    }
  }

  lemma OnceKept(b: Bounds, s: Server, e: Event, k: Key)
    requires Inv(s.cache) && Bounded(b, s.cache) && Once(s, k)
    requires e == Arrive(k, e.now) ==> !Crowded(b, s.cache, k, e.now)
    ensures Once(Dispatch(b, s, e), k)
  {
    if e.Arrive? {
      if e.key == k { UncachedExactly(b, s.cache, k, e.now); }
      OnceArrived(b, s, e.key, e.now, k);
    }
  }

  /** A call that never arrives at a crowded cache executes at most once at a
      time, with its marker up, however often it is retransmitted. */
  lemma {:induction false} AtMostOnce(b: Bounds, ss: seq<Server>, es: seq<Event>, i: nat, k: Key)
    requires Serving(b, ss, es) && i < |ss|
    requires forall j :: 0 <= j < i && es[j].Arrive? && es[j].key == k ==> !Crowded(b, ss[j].cache, k, es[j].now)
    ensures Once(ss[i], k)
  {
    if i > 0 {
      AtMostOnce(b, ss, es, i - 1, k);
      NoStuckMarker(b, ss, es, i - 1);
      OnceKept(b, ss[i - 1], es[i - 1], k);
    }
  }

  const SMALL := Bounds(1, 10)

  /** Otherwise it may not: with room for one, a call arriving while another is
      in flight runs uncached; once that other has finished, a retransmission
      gets a marker and executes beside it, and the first to end completes the
      marker of the second. */
  lemma UncachedRunsTwice(a: Key, k: Key, r: Reply) returns (ss: seq<Server>, es: seq<Event>)
    requires a != k && r != []
    ensures es == [Arrive(a, 0), Arrive(k, 0), End(a, r, 0), Arrive(k, 0), End(k, r, 0)]
    ensures Serving(SMALL, ss, es) && ss[4].running[k] == 2
    ensures ss[5].running[k] == 1 && Look(ss[5].cache, k) == Hit(r)
  {
    es := [Arrive(a, 0), Arrive(k, 0), End(a, r, 0), Arrive(k, 0), End(k, r, 0)];
    var s1, s2, s3 := RunsUncached(a, k, r);
    var s4, s5 := RunsBeside(a, k, r);
    ss := [Server(EMPTY, multiset{}), s1, s2, s3, s4, s5];
    FiveServed(SMALL, ss, es);
  }

  lemma FiveServed(b: Bounds, ss: seq<Server>, es: seq<Event>)
    requires |ss| == 6 && |es| == 5 && ss[0] == Server(EMPTY, multiset{})
    requires forall i :: 0 <= i < 5 ==> es[i].now == 0 && (es[i].End? ==> es[i].key in ss[i].running)
    requires ss[1] == Dispatch(b, ss[0], es[0]) && ss[2] == Dispatch(b, ss[1], es[1])
    requires ss[3] == Dispatch(b, ss[2], es[2]) && ss[4] == Dispatch(b, ss[3], es[3])
    requires ss[5] == Dispatch(b, ss[4], es[4])
    ensures Serving(b, ss, es)
  {
  }

  lemma RunsUncached(a: Key, k: Key, r: Reply) returns (s1: Server, s2: Server, s3: Server)
    requires a != k && r != []
    ensures s1 == Dispatch(SMALL, Server(EMPTY, multiset{}), Arrive(a, 0)) && a in s1.running
    ensures s2 == Dispatch(SMALL, s1, Arrive(k, 0)) && a in s2.running && k !in s2.cache.entries
    ensures s3 == Dispatch(SMALL, s2, End(a, r, 0))
    ensures s3 == Server(Cache(map[a := Some(r)], [DoneRef(a, 0)]), multiset{k})
  {
    s1 := Server(Cache(map[a := None], []), multiset{a});
    s2 := Server(Cache(map[a := None], []), multiset{a, k});
    s3 := Server(Cache(map[a := Some(r)], [DoneRef(a, 0)]), multiset{k});
  }

  lemma RunsBeside(a: Key, k: Key, r: Reply) returns (s4: Server, s5: Server)
    requires a != k && r != []
    ensures var s3 := Server(Cache(map[a := Some(r)], [DoneRef(a, 0)]), multiset{k});
            s4 == Dispatch(SMALL, s3, Arrive(k, 0)) && s4.running[k] == 2
    ensures s5 == Dispatch(SMALL, s4, End(k, r, 0)) && s5.running[k] == 1 && Look(s5.cache, k) == Hit(r)
  {
    var c := Cache(map[a := Some(r)], [DoneRef(a, 0)]);
    assert Pop(c) == EMPTY && Evict(SMALL, c) == EMPTY;
    s4 := Server(Cache(map[k := None], []), multiset{k, k});
    s5 := Server(Cache(map[k := Some(r)], [DoneRef(k, 0)]), multiset{k});
  }
}
