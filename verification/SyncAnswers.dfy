/** What Sync must answer: nil when its commit has been applied, and, on a store
    that lets it, a path from pending writes to that nil. */
module SyncAnswers {
  import opened Wrappers
  import M = Machines
  import opened CommitProtocol
  import opened CommitInvariant
  import opened CommitSteps
  import opened CommitTheorems
  import opened CommitAnswers
  import opened SyncDurability

  // Over every run.

  /** A Sync whose commit is applied returns nil, with the key it committed, and
      lets go of the lock. */
  lemma ApplyReturnsNil(ss: seq<State>, es: seq<Event>, m: MountId, writer: Option<MountId>, i: nat, t: CallId)
    requires SyncRun(ss, es, m, writer) && i < |es| && es[i] == Fly(t, Apply(m))
    ensures m in ss[i].w.mounts && Mine(ss[i], m).flight.Applying?
    ensures var key := Mine(ss[i], m).flight.s.key;
            && t in ss[i + 1].calls && ss[i + 1].calls[t].pc == Returned(true, Some(key))
            && ss[i + 1].commitMu.None? && key in ss[i + 1].w.acked
  {
  }

  /** A Sync that meets a root in doubt goes on if the read shows it its own attempt
      or the root it stands on, ETag and all, and otherwise returns an error. */
  lemma DoubtDecides(ss: seq<State>, es: seq<Event>, m: MountId, writer: Option<MountId>, i: nat, t: CallId, read: Read)
    requires SyncRun(ss, es, m, writer) && i < |es| && es[i] == Settle(t, read)
    ensures m in ss[i].w.mounts && t in ss[i + 1].calls
    ensures var x, root := Mine(ss[i], m), ss[i].w.bucket.root;
            if Settles(x, root, read)
            then ss[i + 1].calls[t].pc == Holding && m in ss[i + 1].w.mounts && Mine(ss[i + 1], m).knowledge == M.Known
            else ss[i + 1].calls[t].pc == Returned(false, None) && ss[i + 1].commitMu.None?
  {
    SyncInvHolds(ss, es, m, writer, i);
    DoubtStep(ss[i], m, t, read);
  }

  predicate Settles(x: Mount, root: Option<RootPointer>, read: Read) {
    || (read.NotFound? && x.rootSnapshot.None?)
    || (root.Some? && Shows(read, root.value) && read.etag.Some? &&
        (Some(root.value.snapshot) == x.doubtKey || Some(root.value.snapshot) == x.rootSnapshot))
  }

  lemma DoubtStep(s: State, m: MountId, t: CallId, read: Read)
    requires m in s.w.mounts && Can(s, m, Settle(t, read)) && MountInv(s.w.bucket, s.w.hist, m, Mine(s, m))
    ensures var s' := Next(s, m, Settle(t, read));
            && t in s'.calls && m in s'.w.mounts
            && if Settles(Mine(s, m), s.w.bucket.root, read)
               then s'.calls[t].pc == Holding && Mine(s', m).knowledge == M.Known
               else s'.calls[t].pc == Returned(false, None) && s'.commitMu.None?
  {
    VerdictForced(Mine(s, m), s.w.bucket.root, read);
  }

  /** A flush of f that succeeds, or its removal. */
  predicate Clears(e: Event, f: FileId) {
    (e.FlushFile? && e.f == f) || (e.PassFlush? && e.f == f && e.ok) || (e.RemoveFile? && e.f == f)
  }

  lemma MarkStep(s: State, m: MountId, e: Event, f: FileId)
    requires m in s.w.mounts && Can(s, m, e)
    ensures e.CutFile? && e.f == f && e.cuts ==> f in Next(s, m, e).unsettled
    ensures f in s.unsettled && !Clears(e, f) ==> f in Next(s, m, e).unsettled
  {
  }

  lemma EventMarks(ss: seq<State>, es: seq<Event>, m: MountId, writer: Option<MountId>, i: nat, f: FileId)
    requires SyncRun(ss, es, m, writer) && i < |es|
    ensures es[i].CutFile? && es[i].f == f && es[i].cuts ==> f in ss[i + 1].unsettled
    ensures f in ss[i].unsettled && !Clears(es[i], f) ==> f in ss[i + 1].unsettled
  {
    MarkStep(ss[i], m, es[i], f);
  }

  lemma {:induction false} MarkedOn(ss: seq<State>, i: nat, j: nat, f: FileId)
    requires i <= j < |ss| && f in ss[i].unsettled
    requires forall k :: i <= k < j && f in ss[k].unsettled ==> f in ss[k + 1].unsettled
    ensures f in ss[j].unsettled
    decreases j
  {
    if i < j { MarkedOn(ss, i, j - 1, f); }
  }

  lemma MarkStays(ss: seq<State>, es: seq<Event>, m: MountId, writer: Option<MountId>, i: nat, j: nat, f: FileId)
    requires SyncRun(ss, es, m, writer) && i < j < |ss| && es[i].CutFile? && es[i].f == f && es[i].cuts
    requires forall k :: i < k < j ==> !Clears(es[k], f)
    ensures f in ss[j].unsettled
  {
    EventMarks(ss, es, m, writer, i, f);
    forall k | i + 1 <= k < j && f in ss[k].unsettled ensures f in ss[k + 1].unsettled {
      EventMarks(ss, es, m, writer, k, f);
    }
    MarkedOn(ss, i + 1, j, f);
  }

  /** No commit catches a truncate half done: between a cut into a stored chunk and
      the next seal its file has been flushed, or is gone. */
  lemma CutIsFlushedBeforeTheSeal(ss: seq<State>, es: seq<Event>, m: MountId, writer: Option<MountId>,
                                  i: nat, j: nat, f: FileId)
    requires SyncRun(ss, es, m, writer) && i < j < |es| && es[j].SealNow?
    requires es[i].CutFile? && es[i].f == f && es[i].cuts
    ensures exists k :: i < k < j && Clears(es[k], f)
  {
    SealNeverRefused(ss, es, m, writer, j);
    if forall k :: i < k < j ==> !Clears(es[k], f) {
      MarkStays(ss, es, m, writer, i, j, f);
    }
  }

  // What was written.

  /** The changes an event makes on this mount. */
  function MadeBy(e: Event): set<Change> {
    match e
    case ChangeNames(c, _) => {c}
    case WriteFile(_, data, size) => {data, size}
    case CutFile(_, c, _, _) => {c}
    case RemoveFile(_, c) => {c}
    case _ => {}
  }

  lemma ChangeMakes(s: State, m: MountId, e: Event, c: Change)
    requires m in s.w.mounts && Can(s, m, e) && IsChange(e)
    ensures m in Next(s, m, e).w.mounts
    ensures Made(s, m, c) || c in MadeBy(e) ==> Made(Next(s, m, e), m, c)
  {
    var s' := Next(s, m, e);
    assert Mine(s, m).ns.log <= Mine(s', m).ns.log;
    if e.WriteFile? { assert c == e.data ==> c in s'.buffered[e.f]; }
    if g :| g in s.buffered && c in s.buffered[g] {
      assert c in Mine(s', m).ns.log || (g in s'.buffered && c in s'.buffered[g]);
    }
  }

  lemma FlushMakes(s: State, m: MountId, f: FileId, stores: bool, refs: set<Chunk>, c: Change)
    requires m in s.w.mounts && CanFlush(s, m, f, stores, refs) && Made(s, m, c)
    ensures m in Flushed(s, m, f, stores, refs).w.mounts && Made(Flushed(s, m, f, stores, refs), m, c)
  {
    var s' := Flushed(s, m, f, stores, refs);
    if g :| g in s.buffered && c in s.buffered[g] {
      assert c in Mine(s', m).ns.log || (g in s'.buffered && c in s'.buffered[g]);
    }
  }

  /** Any other event leaves the namespace and the buffers alone. */
  lemma QuietLeaves(s: State, m: MountId, e: Event)
    requires LocalInv(s, m) && Can(s, m, e) && !IsChange(e) && !e.PassFlush?
    ensures m in Next(s, m, e).w.mounts
    ensures Next(s, m, e).buffered == s.buffered && Mine(Next(s, m, e), m).ns == Mine(s, m).ns
  {
    if e.Elsewhere? { ForeignLeavesMine(s.w, e.step, m); }
    if e.Fly? { FlightShape(s.w, e.step); }
  }

  lemma EventMakes(ss: seq<State>, es: seq<Event>, m: MountId, writer: Option<MountId>, i: nat, c: Change)
    requires SyncRun(ss, es, m, writer) && i < |es|
    ensures Made(ss[i], m, c) || c in MadeBy(es[i]) ==> Made(ss[i + 1], m, c)
  {
    SyncInvHolds(ss, es, m, writer, i);
    var s, e := ss[i], es[i];
    if IsChange(e) {
      ChangeMakes(s, m, e, c);
    } else if !e.PassFlush? {
      QuietLeaves(s, m, e);
    } else if e.ok && Made(s, m, c) {
      FlushMakes(s, m, e.f, e.stores, e.refs, c);
    }
  }

  lemma {:induction false} MadeOn(ss: seq<State>, m: MountId, i: nat, j: nat, c: Change)
    requires i <= j < |ss| && (forall k :: 0 <= k < |ss| ==> m in ss[k].w.mounts) && Made(ss[i], m, c)
    requires forall k :: i <= k < j && Made(ss[k], m, c) ==> Made(ss[k + 1], m, c)
    ensures Made(ss[j], m, c)
    decreases j
  {
    if i < j { MadeOn(ss, m, i, j - 1, c); }
  }

  /** Nothing written is dropped: what an event made is in the namespace or in some
      file's buffers ever after. */
  lemma NothingDropped(ss: seq<State>, es: seq<Event>, m: MountId, writer: Option<MountId>, i: nat, j: nat, c: Change)
    requires SyncRun(ss, es, m, writer) && i < j < |ss| && c in MadeBy(es[i])
    ensures Made(ss[j], m, c)
  {
    EventMakes(ss, es, m, writer, i, c);
    forall k | i + 1 <= k < j && Made(ss[k], m, c) ensures Made(ss[k + 1], m, c) {
      EventMakes(ss, es, m, writer, k, c);
    }
    MadeOn(ss, m, i + 1, j, c);
  }

  /** Write, then Sync: once a Sync called after a change was made has returned nil,
      the root names a stored snapshot that has it. */
  lemma SyncedWriteIsDurable(ss: seq<State>, es: seq<Event>, m: MountId, writer: Option<MountId>,
                             a: nat, b: nat, i: nat, t: CallId, c: Change)
    requires SyncRun(ss, es, m, writer) && a < b < i < |ss| && c in MadeBy(es[a]) && es[b] == Begin(t)
    requires forall j :: b < j < i ==> es[j] != Begin(t)
    requires t in ss[i].calls && ss[i].calls[t].pc.Returned? && ss[i].calls[t].pc.nil
    ensures var bucket := ss[i].w.bucket;
            && bucket.root.Some? && bucket.root.value.snapshot in bucket.snapshots
            && c in bucket.snapshots[bucket.root.value.snapshot].ns.log
  {
    NothingDropped(ss, es, m, writer, a, b, c);
    SyncNilMeansDurable(ss, es, m, writer, b, i, t, c);
  }

  /** A file's buffers are what was written to it and is neither stored nor dropped
      with it: a write adds to them, a flush or a removal leaves nothing. */
  lemma BuffersFollow(s: State, m: MountId, e: Event, f: FileId)
    requires m in s.w.mounts && Can(s, m, e)
    ensures e.WriteFile? && e.f == f ==> Pending(Next(s, m, e).buffered, f) == Pending(s.buffered, f) + [e.data]
    ensures Clears(e, f) ==> Pending(Next(s, m, e).buffered, f) == []
    ensures !Clears(e, f) && !((e.WriteFile? || e.CutFile?) && e.f == f) ==>
              Pending(Next(s, m, e).buffered, f) == Pending(s.buffered, f)
  {
  }

  // A path to nil.

  /** s' is s after flushes: buffers have gone to the namespace, and nothing else. */
  predicate Flushes(s: State, s': State, m: MountId) {
    && m in s.w.mounts && m in s'.w.mounts && s'.commitMu == s.commitMu && s'.gate == s.gate
    && s'.w == s.w.(mounts := s'.w.mounts) && s'.unsettled <= s.unsettled
    && var x, y := Mine(s, m), Mine(s', m);
    y == x.(ns := y.ns, dirty := y.dirty, changes := y.changes) && (x.dirty ==> y.dirty)
  }

  predicate Writes(x: Mount) {
    x.mode == M.Writable && !x.flight.Loading? && !x.opening
  }

  function WithTodo(pc: Pc, todo: set<FileId>): Pc
    requires pc.Flushing? || pc.Settling?
  {
    if pc.Flushing? then Flushing(todo) else Settling(todo)
  }

  predicate InPass(s: State, t: CallId) {
    t in s.calls && (s.calls[t].pc.Flushing? || s.calls[t].pc.Settling?)
  }

  /** s' is s with the pass of t past its files fs. */
  ghost predicate Past(s: State, s': State, m: MountId, t: CallId, fs: set<FileId>)
    requires InPass(s, t)
  {
    var pc := s.calls[t].pc;
    && Flushes(s, s', m) && s'.unsettled == s.unsettled - fs
    && s'.calls == s.calls[t := s.calls[t].(pc := WithTodo(pc, pc.todo - fs))]
    && (forall g :: g !in fs ==> Pending(s'.buffered, g) == Pending(s.buffered, g))
    && ((exists f :: f in fs && Pending(s.buffered, f) != []) ==> Mine(s', m).dirty)
  }

  lemma FlushOne(s: State, m: MountId, t: CallId, f: FileId) returns (e: Event, s': State)
    requires m in s.w.mounts && Writes(Mine(s, m)) && InPass(s, t) && f in s.calls[t].pc.todo
    ensures !e.Elsewhere? && Can(s, m, e) && s' == Next(s, m, e) && Past(s, s', m, t, {f})
  {
    e := PassFlush(t, f, true, Pending(s.buffered, f) != [], Mine(s, m).ns.refs);
    s' := Next(s, m, e);
  }

  lemma PastBoth(s: State, s1: State, s2: State, m: MountId, t: CallId, fs: set<FileId>, gs: set<FileId>)
    requires InPass(s, t) && Past(s, s1, m, t, fs) && InPass(s1, t) && Past(s1, s2, m, t, gs)
    ensures Past(s, s2, m, t, fs + gs)
  {
    var pc := s.calls[t].pc;
    assert pc.todo - fs - gs == pc.todo - (fs + gs);
    if exists f :: f in fs + gs && Pending(s.buffered, f) != [] {
      var f :| f in fs + gs && Pending(s.buffered, f) != [];
      if f !in fs { assert f in gs && Pending(s1.buffered, f) != []; }
    }
  }

  lemma PastNone(s: State, m: MountId, t: CallId)
    requires m in s.w.mounts && InPass(s, t)
    ensures Past(s, s, m, t, {})
  {
    var pc := s.calls[t].pc;
    assert pc.todo - {} == pc.todo && s.calls[t].(pc := WithTodo(pc, pc.todo)) == s.calls[t];
    assert s.calls == s.calls[t := s.calls[t].(pc := WithTodo(pc, pc.todo - {}))];
  }

  /** A pass on which every flush succeeds comes to its end. */
  lemma {:induction false} PassGoesThrough(s: State, m: MountId, t: CallId) returns (ss: seq<State>, es: seq<Event>)
    requires m in s.w.mounts && Writes(Mine(s, m)) && InPass(s, t)
    ensures Path(ss, es, m) && ss[0] == s && Past(s, ss[|es|], m, t, s.calls[t].pc.todo)
    decreases |s.calls[t].pc.todo|
  {
    var todo := s.calls[t].pc.todo;
    if todo == {} {
      ss, es := [s], [];
      PastNone(s, m, t);
    } else {
      var f :| f in todo;
      var e, s1 := FlushOne(s, m, t, f);
      var rest, more := PassGoesThrough(s1, m, t);
      PathAfter(s, e, rest, more, m);
      ss, es := [s] + rest, [e] + more;
      PastBoth(s, s1, rest[|more|], m, t, {f}, todo - {f});
      assert {f} + (todo - {f}) == todo;
    }
  }

  lemma PathJoin(ss: seq<State>, es: seq<Event>, ss': seq<State>, es': seq<Event>, m: MountId)
    requires Path(ss, es, m) && Path(ss', es', m) && ss[|es|] == ss'[0]
    ensures Path(ss + ss'[1..], es + es', m)
    ensures (ss + ss'[1..])[0] == ss[0] && (ss + ss'[1..])[|es + es'|] == ss'[|es'|]
  {
    var all, both := ss + ss'[1..], es + es';
    forall i | 0 <= i < |both|
      ensures m in all[i].w.mounts && Can(all[i], m, both[i]) && !both[i].Elsewhere?
      ensures all[i + 1] == Next(all[i], m, both[i])
    {
      if i >= |es| {
        assert all[i] == ss'[i - |es|] && all[i + 1] == ss'[i - |es| + 1] && both[i] == es'[i - |es|];
      }
    }
  }

  /** A call that holds the lock of a mount with something to commit, no doubt, and
      the root where it stands. */
  predicate Ready(s: State, m: MountId, t: CallId, nonce: nat) {
    && m in s.w.mounts && CanCommit(s.w, m, nonce) && s.w.bucket.root == Mine(s, m).rootETag
    && t in s.calls && s.commitMu == Some(t)
  }

  /** The call has returned nil, with the key the root now names, in a snapshot of
      the namespace ns; the lock and the gate are free, and nothing is dirty. */
  predicate ReturnedNil(s: State, m: MountId, t: CallId, ns: Namespace) {
    && t in s.calls && s.calls[t].pc.Returned? && s.calls[t].pc.nil && s.commitMu.None? && !s.gate
    && m in s.w.mounts && !Mine(s, m).dirty && s.w.bucket.root.Some?
    && var k := s.w.bucket.root.value.snapshot;
    s.calls[t].pc.key == Some(k) && k in s.w.acked && k in s.w.bucket.snapshots && s.w.bucket.snapshots[k].ns == ns
  }

  lemma SealOne(s: State, m: MountId, t: CallId, nonce: nat) returns (s': State)
    requires Ready(s, m, t, nonce) && s.calls[t].pc == Settling({}) && s.unsettled == {}
    ensures Can(s, m, SealNow(t, nonce)) && s' == Next(s, m, SealNow(t, nonce))
    ensures Enabled(s.w, Seal(m, nonce)) && s' == With(s.(w := Do(s.w, Seal(m, nonce))), t, Flying).(gate := false)
  {
    s' := Next(s, m, SealNow(t, nonce));
  }

  /** A step of the flight that does not end it. */
  lemma FlyOne(s: State, m: MountId, t: CallId, step: Step, w: World) returns (ss: seq<State>, es: seq<Event>)
    requires m in s.w.mounts && t in s.calls && s.calls[t].pc.Flying? && step.m == m && OfFlight(step) && !step.Apply?
    requires Enabled(s.w, step) && w == Do(s.w, step) && m in w.mounts && !w.mounts[m].flight.Idle?
    ensures Path(ss, es, m) && ss == [s, s.(w := w)] && es == [Fly(t, step)]
  {
    ss, es := [s, Next(s, m, Fly(t, step))], [Fly(t, step)];
  }

  /** The one that does. */
  lemma FlyLast(s: State, m: MountId, t: CallId, x: Mount, nonce: nat) returns (ss: seq<State>, es: seq<Event>)
    requires m in s.w.mounts && t in s.calls && s.calls[t].pc.Flying? && !s.gate
    requires TookEffect(s.w, m, x, SealedFrom(m, x, nonce))
    ensures Path(ss, es, m) && |es| == 1 && ss[0] == s && ReturnedNil(ss[1], m, t, x.ns)
  {
    var ws, steps := ApplyCommits(s.w, m, x, nonce);
    ss, es := [s, Next(s, m, Fly(t, Apply(m)))], [Fly(t, Apply(m))];
  }

  /** The seal and the flight, on a store that answers. */
  lemma FlightGoesThrough(s: State, m: MountId, t: CallId, nonce: nat) returns (ss: seq<State>, es: seq<Event>)
    requires Ready(s, m, t, nonce) && s.calls[t].pc == Settling({}) && s.unsettled == {}
    ensures Path(ss, es, m) && ss[0] == s && ReturnedNil(ss[|es|], m, t, Mine(s, m).ns)
  {
    var x := Mine(s, m);
    var ws, steps := SealsAndStores(s.w, m, nonce);
    var s1 := SealOne(s, m, t, nonce);
    assert s1 == With(s.(w := ws[1]), t, Flying).(gate := false);
    ss, es := PutAndSwap(s1, m, t, x, nonce, ws[2]);
    PathAfter(s, SealNow(t, nonce), ss, es, m);
    ss, es := [s] + ss, [SealNow(t, nonce)] + es;
  }

  lemma PutAndSwap(s: State, m: MountId, t: CallId, x: Mount, nonce: nat, w: World)
    returns (ss: seq<State>, es: seq<Event>)
    requires m in s.w.mounts && t in s.calls && s.calls[t].pc.Flying? && !s.gate
    requires Enabled(s.w, PutSnapshot(m, true, true)) && w == Do(s.w, PutSnapshot(m, true, true))
    requires Attempting(w, m, x, SealedFrom(m, x, nonce)) && w.bucket.root == x.rootETag
    requires x.knowledge == M.Known && x.doubtKey.None?
    ensures Path(ss, es, m) && ss[0] == s && ReturnedNil(ss[|es|], m, t, x.ns)
  {
    var ss1, es1 := FlyOne(s, m, t, PutSnapshot(m, true, true), w);
    var s2 := s.(w := w);
    var ws, steps := SwapLands(w, m, x, SealedFrom(m, x, nonce));
    var ss2, es2 := FlyOne(s2, m, t, Swap(m, true, GotETag), ws[1]);
    var ss3, es3 := FlyLast(s2.(w := ws[1]), m, t, x, nonce);
    PathJoin(ss1, es1, ss2, es2, m);
    PathJoin(ss1 + ss2[1..], es1 + es2, ss3, es3, m);
    ss, es := ss1 + ss2[1..] + ss3[1..], es1 + es2 + es3;
  }

  /** From the lock: the gate, the settle pass, the seal and the flight. */
  lemma LockedGoesThrough(s: State, m: MountId, t: CallId, nonce: nat)
    returns (ss: seq<State>, es: seq<Event>, ns: Namespace)
    requires Ready(s, m, t, nonce) && s.calls[t].pc == Holding && !s.gate
    ensures Path(ss, es, m) && ss[0] == s && ReturnedNil(ss[|es|], m, t, ns)
  {
    var s1 := Next(s, m, TakeGate(t));
    var ss2, es2 := PassGoesThrough(s1, m, t);
    var s2 := ss2[|es2|];
    assert s2.unsettled == {};
    FlushedReady(s1, s2, m, t, nonce);
    ns := Mine(s2, m).ns;
    var ss3, es3 := FlightGoesThrough(s2, m, t, nonce);
    PathAfter(s, TakeGate(t), ss2, es2, m);
    PathJoin([s] + ss2, [TakeGate(t)] + es2, ss3, es3, m);
    ss, es := [s] + ss2 + ss3[1..], [TakeGate(t)] + es2 + es3;
  }

  /** A doubt settled at the lock leaves the call where it can go through. */
  lemma SettledIsReady(s: State, m: MountId, t: CallId, read: Read, nonce: nat)
    requires m in s.w.mounts && MountInv(s.w.bucket, s.w.hist, m, Mine(s, m)) && s.commitMu == Some(t)
    requires Can(s, m, Settle(t, read)) && Settles(Mine(s, m), s.w.bucket.root, read) && !s.gate
    requires var x := Mine(s, m);
             var stands := if s.w.bucket.root.None? || Some(s.w.bucket.root.value.snapshot) != x.doubtKey then x.epoch
                           else s.w.bucket.root.value.epoch;
             Drawable(s.w, Key(stands + 1, nonce))
    ensures var s' := Next(s, m, Settle(t, read)); Ready(s', m, t, nonce) && s'.calls[t].pc == Holding && !s'.gate
  {
    VerdictForced(Mine(s, m), s.w.bucket.root, read);
  }

  lemma FlushedReady(s: State, s': State, m: MountId, t: CallId, nonce: nat)
    requires Ready(s, m, t, nonce) && Flushes(s, s', m) && t in s'.calls
    ensures Ready(s', m, t, nonce)
  {
  }

  /** A Sync of a mount with writes pending or changes uncommitted, on which every
      flush and every store call succeeds, returns nil, and the root names what it
      committed. */
  lemma DirtySyncReturnsNil(s: State, m: MountId, t: CallId, nonce: nat)
    returns (ss: seq<State>, es: seq<Event>, ns: Namespace)
    requires m in s.w.mounts && s.commitMu.None? && !s.gate && (t in s.calls ==> s.calls[t].pc.Returned?)
    requires Mine(s, m).dirty || exists f :: f in s.buffered && s.buffered[f] != []
    requires CanCommit(s.w.(mounts := s.w.mounts[m := Mine(s, m).(dirty := true)]), m, nonce)
    requires s.w.bucket.root == Mine(s, m).rootETag
    ensures Path(ss, es, m) && es != [] && ss[0] == s && es[0] == Begin(t) && ReturnedNil(ss[|es|], m, t, ns)
  {
    var ss1, es1 := ComesToTheLock(s, m, t, nonce);
    var ss2, es2;
    ss2, es2, ns := LockedGoesThrough(ss1[|es1|], m, t, nonce);
    PathJoin(ss1, es1, ss2, es2, m);
    ss, es := ss1 + ss2[1..], es1 + es2;
  }

  lemma ComesToTheLock(s: State, m: MountId, t: CallId, nonce: nat) returns (ss: seq<State>, es: seq<Event>)
    requires m in s.w.mounts && s.commitMu.None? && !s.gate && (t in s.calls ==> s.calls[t].pc.Returned?)
    requires Mine(s, m).dirty || exists f :: f in s.buffered && s.buffered[f] != []
    requires CanCommit(s.w.(mounts := s.w.mounts[m := Mine(s, m).(dirty := true)]), m, nonce)
    requires s.w.bucket.root == Mine(s, m).rootETag
    ensures Path(ss, es, m) && es != [] && ss[0] == s && es[0] == Begin(t)
    ensures var s' := ss[|es|]; Ready(s', m, t, nonce) && s'.calls[t].pc == Holding && !s'.gate
  {
    var s1 := Next(s, m, Begin(t));
    var ss2, es2 := PassGoesThrough(s1, m, t);
    var s2 := ss2[|es2|];
    PendingDirties(s, s1, s2, m, t);
    var ss3, es3 := EntersDirty(s2, m, t);
    PathAfter(s, Begin(t), ss2, es2, m);
    PathJoin([s] + ss2, [Begin(t)] + es2, ss3, es3, m);
    ss, es := [s] + ss2 + ss3[1..], [Begin(t)] + es2 + es3;
  }

  lemma EntersDirty(s: State, m: MountId, t: CallId) returns (ss: seq<State>, es: seq<Event>)
    requires m in s.w.mounts && Mine(s, m).dirty && Mine(s, m).mode != M.Diverged && s.commitMu.None?
    requires t in s.calls && s.calls[t].pc == Flushing({})
    ensures Path(ss, es, m) && |es| == 2 && ss[0] == s && ss[2] == With(s, t, Holding).(commitMu := Some(t))
  {
    var s1 := Next(s, m, PassDone(t));
    ss, es := [s, s1, Next(s1, m, Enter(t))], [PassDone(t), Enter(t)];
    assert With(s1, t, Holding).(commitMu := Some(t)) == With(s, t, Holding).(commitMu := Some(t));
  }

  lemma PendingDirties(s: State, s1: State, s2: State, m: MountId, t: CallId)
    requires m in s.w.mounts && s1 == s.(calls := s1.calls) && Flushes(s1, s2, m)
    requires t in s1.calls && s1.calls[t].pc == Flushing(s.buffered.Keys)
    requires Past(s1, s2, m, t, s1.calls[t].pc.todo)
    requires Mine(s, m).dirty || exists f :: f in s.buffered && s.buffered[f] != []
    ensures Mine(s2, m).dirty
  {
    if !Mine(s, m).dirty {
      var f :| f in s.buffered && s.buffered[f] != [];
      assert f in s1.calls[t].pc.todo && Pending(s1.buffered, f) != [];
    }
  }
}
