/** The duplicate request cache as the object the code updates: within its bound,
    its queue exactly the finished keys in time order, whatever is called. */
module ReplyTable {
  import opened Wrappers
  import R = ReplyCache

  class Table {
    const bounds: R.Bounds
    var entries: map<R.Key, Option<R.Reply>>
    var done: seq<R.DoneRef>

    function View(): R.Cache
      reads this
    {
      R.Cache(entries, done)
    }

    ghost var clock: int  // no reading of the clock is behind the last

    ghost predicate Valid()
      reads this
    {
      R.Inv(View()) && R.Bounded(bounds, View()) && R.Past(View(), clock)
    }

    constructor (maxEntries: int, maxAge: int, ghost now: int)
      ensures Valid() && View() == R.EMPTY && bounds == R.Bounds(maxEntries, maxAge) && clock == now
    {
      bounds, entries, done := R.Bounds(maxEntries, maxAge), map[], [];
      clock := now;
    }

    method PopDone()
      requires done != []
      modifies this`entries, this`done
      ensures View() == R.Pop(old(View()))
    {
      entries := entries - {done[0].key};
      done := done[1..];
    }

    /** Purges before it classifies, so that no expired reply is replayed; then
        evicts only if the key is unknown and wants a marker. */
    method Begin(k: R.Key, now: int) returns (a: R.Answer)
      requires Valid() && clock <= now
      modifies this
      ensures Valid() && clock == now
      ensures a == R.Miss && !R.Crowded(bounds, old(View()), k, now) ==> R.Marked(View(), k)
      ensures a == R.Look(R.Purge(bounds, old(View()), now), k)
      ensures View() == R.Begin(bounds, old(View()), k, now)
    {
      R.BeginKeeps(bounds, View(), k, now);
      R.UncachedExactly(bounds, View(), k, now);
      clock := now;
      while |done| > 0 && now - done[0].at > bounds.maxAge
        invariant R.Purge(bounds, View(), now) == R.Purge(bounds, old(View()), now) && clock == now
        decreases |done|
      {
        PopDone();
      }
      ghost var p := View();
      if k in entries {
        return if entries[k].Some? then R.Hit(entries[k].value) else R.InFlight;
      }
      while |entries| >= bounds.maxEntries && |done| > 0
        invariant R.Evict(bounds, View()) == R.Evict(bounds, p) && clock == now
        decreases |done|
      {
        PopDone();
      }
      if |entries| < bounds.maxEntries {
        entries := entries[k := None];
      }
      a := R.Miss;
    }

    method Abandon(k: R.Key)
      requires Valid()
      modifies this
      ensures Valid() && clock == old(clock) && !R.Marked(View(), k)
      ensures View() == R.Abandon(old(View()), k)
    {
      R.AbandonKeeps(bounds, View(), k);
      if k in entries && entries[k].None? {
        entries := entries - {k};
      }
    }

    method Finish(k: R.Key, reply: R.Reply, now: int)
      requires Valid() && clock <= now
      modifies this
      ensures Valid() && clock == now && !R.Marked(View(), k)
      ensures reply != [] && R.Marked(old(View()), k) ==> R.Stored(View(), k, reply, now)
      ensures View() == R.Finish(old(View()), k, reply, now)
    {
      R.FinishKeeps(bounds, View(), k, reply, now);
      if R.Marked(View(), k) && reply != [] { R.FinishStores(View(), k, reply, now); }
      clock := now;
      if |reply| == 0 {
        Abandon(k);
      } else if k in entries && entries[k].None? {
        entries := entries[k := Some(reply)];
        done := done + [R.DoneRef(k, now)];
      }
    }
  }
}
