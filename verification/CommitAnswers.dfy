/** What the commit protocol must answer: the verdict a read of the root forces,
    and that commits, loads, refusals and prune passes go through as they should
    when the store lets them. */
module CommitAnswers {
  import opened Wrappers
  import opened Machines
  import opened CommitProtocol
  import opened CommitInvariant
  import opened CommitSteps
  import opened CommitTheorems

  // The verdict.

  /** A read that shows the root as it is, in a form this build understands. */
  predicate Shows(r: Read, rp: RootPointer) {
    r.Answer? && r.body == Pointer(1, rp.epoch, Some(rp.snapshot), rp.writer)
  }

  /** A mount in doubt after a read that showed it the root rp, with its ETag if
      `tagged`: it adopts its own attempt, goes on from the root it stands on, and
      diverges at any other; the first two need the ETag for the next swap. */
  predicate Settled(x: Mount, y: Mount, v: Verdict, rp: RootPointer, tagged: bool) {
    if Some(rp.snapshot) == x.doubtKey then
      if tagged then
        && v == Ours
        && y == x.(knowledge := Known, epoch := rp.epoch, rootETag := Some(rp), rootSnapshot := Some(rp.snapshot),
                   doubtKey := None)
      else v == Undecided && y == x
    else if Some(rp.snapshot) == x.rootSnapshot then
      if tagged then v == Unchanged && y == x.(knowledge := Known, rootETag := Some(rp), doubtKey := None)
      else v == Undecided && y == x
    else v == Theirs && y == x.(mode := Diverged)
  }

  /** The same for a read that found no root: an attempt to create one did not
      happen, and any other mount has lost the root it stood on. */
  predicate SettledByNone(x: Mount, y: Mount, v: Verdict) {
    if x.rootSnapshot.None? then v == Unchanged && y == x.(knowledge := Known, rootETag := None, doubtKey := None)
    else v == Theirs && y == x.(mode := Diverged)
  }

  /** A body that shows no root of this format. */
  predicate Unreadable(r: Read) {
    r.Answer? && (r.body.NotJson? || r.body.version != 1 || r.body.snapshot.None?)
  }

  /** What a read r of the root, as it is, makes of a mount in doubt. */
  predicate Forced(x: Mount, y: Mount, v: Verdict, root: Option<RootPointer>, r: Read) {
    && (root.Some? && Shows(r, root.value) ==> Settled(x, y, v, root.value, r.etag.Some?))
    && (r.NotFound? ==> SettledByNone(x, y, v))
    && (r.Failed? || Unreadable(r) ==> v == Undecided && y == x)
  }

  lemma VerdictForced(x: Mount, root: Option<RootPointer>, r: Read)
    requires x.knowledge == InDoubt && x.doubtKey.Some? && x.mode == Writable && Honest(r, root)
    ensures Forced(x, ResolveRoot(x, r).0, ResolveRoot(x, r).1, root, r)
  {
  }

  /** Over every supported run, a probe of a mount in doubt leaves it as the root
      it read demands: with its success path due, failed and Known again, failed
      and Diverged, or failed and still in doubt. A New that fails takes the mount
      with it. */
  lemma ProbeDecides(ws: seq<World>, steps: seq<Step>, i: nat) returns (y: Mount, v: Verdict)
    requires Run(ws, steps) && Supported(steps) && i < |steps| && (steps[i].Probe? || steps[i].TopProbe?)
    ensures steps[i].m in ws[i].mounts
    ensures Forced(ws[i].mounts[steps[i].m], y, v, ws[i].bucket.root, steps[i].read)
    ensures Probed(ws[i + 1], steps[i].m, ws[i].mounts[steps[i].m], y, v, steps[i].TopProbe?)
  {
    InvHolds(ws, steps, i);
    assert MountInv(ws[i].bucket, ws[i].hist, steps[i].m, ws[i].mounts[steps[i].m]);
    y, v := ProbeStep(ws[i], steps[i]);
  }

  lemma ProbeStep(w: World, step: Step) returns (y: Mount, v: Verdict)
    requires (step.Probe? || step.TopProbe?) && Enabled(w, step)
    requires MountInv(w.bucket, w.hist, step.m, w.mounts[step.m])
    ensures Forced(w.mounts[step.m], y, v, w.bucket.root, step.read)
    ensures Probed(Do(w, step), step.m, w.mounts[step.m], y, v, step.TopProbe?)
  {
    var x := w.mounts[step.m];
    VerdictForced(x, w.bucket.root, step.read);
    y, v := ResolveRoot(x, step.read).0, ResolveRoot(x, step.read).1;
  }

  /** Where the probe's verdict v leaves mount m, x before it and y in its fields. */
  predicate Probed(w: World, m: MountId, x: Mount, y: Mount, v: Verdict, top: bool) {
    if top then m in w.mounts && w.mounts[m] == y
    else if v == Ours then
      m in w.mounts && x.flight.Probing? && w.mounts[m] == y.(flight := Applying(x.flight.s, y.rootETag))
    else if x.opening then m !in w.mounts
    else m in w.mounts && w.mounts[m] == y.(flight := Idle)
  }

  // Commits that go through.

  ghost predicate Moves(ws: seq<World>, steps: seq<Step>) {
    && |ws| == |steps| + 1
    && forall i :: 0 <= i < |steps| ==> Enabled(ws[i], steps[i]) && ws[i + 1] == Do(ws[i], steps[i])
  }

  lemma One(w: World, step: Step) returns (ws: seq<World>, steps: seq<Step>)
    requires Enabled(w, step)
    ensures Moves(ws, steps) && ws == [w, Do(w, step)] && steps == [step]
  {
    ws, steps := [w, Do(w, step)], [step];
  }

  /** One path after another. */
  lemma Join(ws: seq<World>, steps: seq<Step>, ws': seq<World>, steps': seq<Step>)
    requires Moves(ws, steps) && Moves(ws', steps') && ws[|steps|] == ws'[0]
    ensures Moves(ws + ws'[1..], steps + steps')
    ensures (ws + ws'[1..])[0] == ws[0] && (ws + ws'[1..])[|steps + steps'|] == ws'[|steps'|]
  {
    var all, both := ws + ws'[1..], steps + steps';
    forall i | 0 <= i < |both| ensures Enabled(all[i], both[i]) && all[i + 1] == Do(all[i], both[i]) {
      if i >= |steps| {
        assert all[i] == ws'[i - |steps|] && all[i + 1] == ws'[i - |steps| + 1] && both[i] == steps'[i - |steps|];
      }
    }
  }

  /** Mount m has something to commit, and no doubt. */
  predicate CanCommit(w: World, m: MountId, nonce: nat) {
    && m in w.mounts
    && var x := w.mounts[m];
    && x.flight.Idle? && x.dirty && x.mode == Writable && x.knowledge == Known && x.doubtKey.None? && !x.opening
    && Drawable(w, Key(x.epoch + 1, nonce))
  }

  /** What a seal of x fixes. */
  function SealedFrom(m: MountId, x: Mount, nonce: nat): Sealed {
    var key := Key(x.epoch + 1, nonce);
    Sealed(x.epoch + 1, key, Snapshot(x.epoch + 1, x.ns), RootPointer(x.epoch + 1, key, m), x.rootETag, x.changes)
  }

  predicate Stores(b: Bucket, s: Sealed) {
    s.key in b.snapshots && b.snapshots[s.key] == s.snap
  }

  /** m stands at what it committed from x, and nothing is left to commit. */
  predicate Committed(w: World, m: MountId, x: Mount, nonce: nat) {
    var s := SealedFrom(m, x, nonce);
    && m in w.mounts && w.bucket.root == Some(s.rp) && Stores(w.bucket, s) && s.key in w.acked
    && var y := w.mounts[m];
    && y.flight.Idle? && !y.dirty && y.knowledge == Known && y.mode == x.mode && !y.opening && y.ns == x.ns
    && y.epoch == x.epoch + 1 && y.rootETag == Some(s.rp) && y.rootSnapshot == Some(s.key) && y.doubtKey.None?
    && (x.prune == NoPass ==> y.prune == if x.retention == 0 then NoPass else Listing(s.key))
  }

  /** The attempt sealed from x is stored, and its swap is due. */
  predicate Attempting(w: World, m: MountId, x: Mount, s: Sealed) {
    m in w.mounts && w.mounts[m] == x.(flight := Swapping(s)) && Stores(w.bucket, s)
  }

  /** Its write of the root has taken effect, and its apply is due. */
  predicate TookEffect(w: World, m: MountId, x: Mount, s: Sealed) {
    && m in w.mounts && w.bucket.root == Some(s.rp) && Stores(w.bucket, s)
    && var y := w.mounts[m];
    && y.flight == Applying(s, Some(s.rp)) && y.knowledge == Known && y.doubtKey.None? && y.mode == x.mode
    && y.ns == x.ns && y.changes == x.changes && y.prune == x.prune && y.retention == x.retention
  }

  /** The seal and the snapshot's Put: the root has not moved. */
  lemma SealsAndStores(w: World, m: MountId, nonce: nat) returns (ws: seq<World>, steps: seq<Step>)
    requires CanCommit(w, m, nonce)
    ensures Moves(ws, steps) && steps == [Seal(m, nonce), PutSnapshot(m, true, true)] && ws[0] == w
    ensures var x, w' := w.mounts[m], ws[2];
            var s := SealedFrom(m, x, nonce);
            && Attempting(w', m, x, s) && w'.bucket == w.bucket.(snapshots := w.bucket.snapshots[s.key := s.snap])
            && w'.acked == w.acked
  {
    var w1 := Do(w, Seal(m, nonce));
    ws, steps := [w, w1, Do(w1, PutSnapshot(m, true, true))], [Seal(m, nonce), PutSnapshot(m, true, true)];
  }

  lemma SwapLands(w: World, m: MountId, x: Mount, s: Sealed) returns (ws: seq<World>, steps: seq<Step>)
    requires Attempting(w, m, x, s) && w.bucket.root == s.rootETag && x.knowledge == Known && x.doubtKey.None?
    ensures Moves(ws, steps) && steps == [Swap(m, true, GotETag)] && ws[0] == w && TookEffect(ws[1], m, x, s)
  {
    ws, steps := One(w, Swap(m, true, GotETag));
  }

  lemma ApplyCommits(w: World, m: MountId, x: Mount, nonce: nat) returns (ws: seq<World>, steps: seq<Step>)
    requires TookEffect(w, m, x, SealedFrom(m, x, nonce))
    ensures Moves(ws, steps) && steps == [Apply(m)] && ws[0] == w && Committed(ws[1], m, x, nonce)
  {
    ws, steps := One(w, Apply(m));
  }

  /** A commit whose swap is answered goes through. */
  lemma CommitGoesThrough(w: World, m: MountId, nonce: nat) returns (ws: seq<World>, steps: seq<Step>)
    requires CanCommit(w, m, nonce) && w.bucket.root == w.mounts[m].rootETag
    ensures steps == [Seal(m, nonce), PutSnapshot(m, true, true)] + [Swap(m, true, GotETag)] + [Apply(m)]
    ensures Moves(ws, steps) && ws[0] == w && Committed(ws[4], m, w.mounts[m], nonce)
  {
    var x := w.mounts[m];
    var ws1, steps1 := SealsAndStores(w, m, nonce);
    var ws2, steps2 := SwapLands(ws1[2], m, x, SealedFrom(m, x, nonce));
    var ws3, steps3 := ApplyCommits(ws2[1], m, x, nonce);
    Join(ws1, steps1, ws2, steps2);
    Join(ws1 + ws2[1..], steps1 + steps2, ws3, steps3);
    ws, steps := ws1 + ws2[1..] + ws3[1..], steps1 + steps2 + steps3;
  }

  /** The swap takes effect, and its reply does not say so: in doubt about its own
      attempt, the mount reads the root, and adopts it. */
  lemma LostReplyLands(w: World, m: MountId, x: Mount, s: Sealed, reply: SwapReply)
    returns (ws: seq<World>, steps: seq<Step>, read: Read)
    requires Attempting(w, m, x, s) && w.bucket.root == s.rootETag && x.knowledge == Known && x.mode == Writable
    requires s == SealedFrom(m, x, s.key.nonce) && (reply == NoETag || reply == Precondition || reply == Transport)
    ensures Moves(ws, steps) && steps == [Swap(m, true, reply), Probe(m, read)] && ws[0] == w
    ensures TookEffect(ws[2], m, x, s)
  {
    var w1 := Do(w, Swap(m, true, reply));
    assert w1.mounts[m] == x.(doubtKey := Some(s.key), knowledge := InDoubt, flight := Probing(s));
    read := Answer(Pointer(1, s.rp.epoch, Some(s.key), m), Some(s.rp));
    VerdictForced(w1.mounts[m], w1.bucket.root, read);
    var w2 := Do(w1, Probe(m, read));
    ws, steps := [w, w1, w2], [Swap(m, true, reply), Probe(m, read)];
  }

  lemma LostReplyIsAdopted(w: World, m: MountId, nonce: nat, reply: SwapReply)
    returns (ws: seq<World>, steps: seq<Step>, read: Read)
    requires CanCommit(w, m, nonce) && w.bucket.root == w.mounts[m].rootETag
    requires reply == NoETag || reply == Precondition || reply == Transport
    ensures steps == [Seal(m, nonce), PutSnapshot(m, true, true)] + [Swap(m, true, reply), Probe(m, read)] + [Apply(m)]
    ensures Moves(ws, steps) && ws[0] == w && Committed(ws[5], m, w.mounts[m], nonce)
  {
    var x := w.mounts[m];
    var ws1, steps1 := SealsAndStores(w, m, nonce);
    var ws2, steps2;
    ws2, steps2, read := LostReplyLands(ws1[2], m, x, SealedFrom(m, x, nonce), reply);
    var ws3, steps3 := ApplyCommits(ws2[2], m, x, nonce);
    Join(ws1, steps1, ws2, steps2);
    Join(ws1 + ws2[1..], steps1 + steps2, ws3, steps3);
    ws, steps := ws1 + ws2[1..] + ws3[1..], steps1 + steps2 + steps3;
  }

  /** With the fallback allowed, a store without conditional writes is written to
      unconditionally. */
  lemma FallbackLands(w: World, m: MountId, x: Mount, s: Sealed) returns (ws: seq<World>, steps: seq<Step>)
    requires Attempting(w, m, x, s) && x.knowledge == Known && x.doubtKey.None? && x.fallback
    ensures steps == [Swap(m, false, Unsupported), FallbackPut(m, true, true), FallbackHead(m, true)]
    ensures Moves(ws, steps) && ws[0] == w && TookEffect(ws[3], m, x, s)
  {
    var w1 := Do(w, Swap(m, false, Unsupported));
    assert w1 == w.(mounts := w.mounts[m := x.(flight := FallbackPutting(s))]);
    var w2 := Do(w1, FallbackPut(m, true, true));
    assert w2.bucket == w.bucket.(root := Some(s.rp));
    assert m in w2.mounts && w2.mounts[m] == x.(flight := FallbackHeading(s));
    ws := [w, w1, w2, Do(w2, FallbackHead(m, true))];
    steps := [Swap(m, false, Unsupported), FallbackPut(m, true, true), FallbackHead(m, true)];
  }

  lemma FallbackGoesThrough(w: World, m: MountId, nonce: nat) returns (ws: seq<World>, steps: seq<Step>)
    requires CanCommit(w, m, nonce) && w.mounts[m].fallback
    ensures steps == [Seal(m, nonce), PutSnapshot(m, true, true)] +
                     [Swap(m, false, Unsupported), FallbackPut(m, true, true), FallbackHead(m, true)] + [Apply(m)]
    ensures Moves(ws, steps) && ws[0] == w && Committed(ws[6], m, w.mounts[m], nonce)
  {
    var x := w.mounts[m];
    var ws1, steps1 := SealsAndStores(w, m, nonce);
    var ws2, steps2 := FallbackLands(ws1[2], m, x, SealedFrom(m, x, nonce));
    var ws3, steps3 := ApplyCommits(ws2[3], m, x, nonce);
    Join(ws1, steps1, ws2, steps2);
    Join(ws1 + ws2[1..], steps1 + steps2, ws3, steps3);
    ws, steps := ws1 + ws2[1..] + ws3[1..], steps1 + steps2 + steps3;
  }

  /** Without it the commit fails: once a read shows another root than the attempt,
      or none, the snapshot is taken back and the mount is where it stood. */
  lemma RefusalReclaims(w: World, m: MountId, x: Mount, s: Sealed, read: Read)
    returns (ws: seq<World>, steps: seq<Step>)
    requires Attempting(w, m, x, s) && !x.fallback && x.flight.Idle? && !x.opening
    requires if w.bucket.root.None? then read.NotFound? else Shows(read, w.bucket.root.value) && read.etag.None?
    requires w.bucket.root.Some? ==> w.bucket.root.value.snapshot != s.key
    ensures Moves(ws, steps) && ws[0] == w
    ensures steps == [Swap(m, false, Unsupported), ReclaimRead(m, read), ReclaimDelete(m, true)]
    ensures ws[3] == w.(mounts := w.mounts[m := x],
                        bucket := w.bucket.(snapshots := w.bucket.snapshots - {s.key}))
  {
    var w1 := Do(w, Swap(m, false, Unsupported));
    assert w1 == w.(mounts := w.mounts[m := x.(flight := Reclaiming(s))]);
    var w2 := Do(w1, ReclaimRead(m, read));
    assert w2 == w.(mounts := w.mounts[m := x.(flight := Deleting(s))]);
    ws := [w, w1, w2, Do(w2, ReclaimDelete(m, true))];
    steps := [Swap(m, false, Unsupported), ReclaimRead(m, read), ReclaimDelete(m, true)];
  }

  // Loads.

  /** A mount of nothing yet: epoch 0, no root, an empty namespace. */
  function Fresh(load: Step): Mount
    requires load.LoadRoot?
  {
    Mount(if load.readOnly then ReadOnly else Writable, Known, 0, None, None, None, Namespace([], {}), false, 0, {},
          load.retention, load.fallback, false, Idle, NoPass)
  }

  /** A mount just made. */
  predicate NewlyMade(x: Mount, load: Step)
    requires load.LoadRoot?
  {
    && x.mode == (if load.readOnly then ReadOnly else Writable) && x.knowledge == Known && x.doubtKey.None?
    && !x.dirty && x.flight.Idle? && !x.opening && x.retention == load.retention && x.fallback == load.fallback
  }

  /** In any world a supported run can reach, a load that is shown the root and its
      ETag gives a mount that stands there, with the namespace the root names. */
  lemma LoadGivesTheRoot(w: World, load: Step) returns (w2: World)
    requires Inv(w) && load.LoadRoot? && load.m !in w.mounts && w.bucket.root.Some?
    requires Shows(load.read, w.bucket.root.value) && load.read.etag == w.bucket.root
    ensures Enabled(w, load) && Enabled(Do(w, load), LoadSnapshot(load.m))
    ensures w2 == Do(Do(w, load), LoadSnapshot(load.m)) && w2.bucket == w.bucket && load.m in w2.mounts
    ensures var x, rp := w2.mounts[load.m], w.bucket.root.value;
            && NewlyMade(x, load) && rp.snapshot in w.bucket.snapshots
            && x.ns == w.bucket.snapshots[rp.snapshot].ns && x.epoch == rp.epoch
            && x.rootETag == Some(rp) && x.rootSnapshot == Some(rp.snapshot)
  {
    assert RecordInv(w.hist.sealed, w.bucket.root.value.snapshot);
    w2 := Do(Do(w, load), LoadSnapshot(load.m));
  }

  /** A load shown an empty bucket makes the filesystem, unless it may not write;
      one shown anything else, or no ETag, makes nothing. */
  lemma LoadOfNothing(w: World, load: Step)
    requires load.LoadRoot? && Enabled(w, load)
    ensures load.read.Failed? || Unreadable(load.read) || (load.read.Answer? && load.read.etag.None?) ==>
              Do(w, load) == w
    ensures load.read.NotFound? && load.readOnly ==> Do(w, load) == w
    ensures load.read.NotFound? && !load.readOnly ==>
              var w1 := Do(w, load);
              && load.m in w1.mounts && w1.mounts[load.m].opening && w1.bucket == w.bucket
              && w1.mounts[load.m].flight == Putting(SealedFrom(load.m, Fresh(load), load.nonce))
  {
  }

  lemma InitStores(w: World, load: Step) returns (w2: World)
    requires load.LoadRoot? && load.read.NotFound? && !load.readOnly && Enabled(w, load)
    ensures var put, s := PutSnapshot(load.m, true, true), SealedFrom(load.m, Fresh(load), load.nonce);
            && Moves([w, Do(w, load), w2], [load, put])
            && Attempting(w2, load.m, Fresh(load).(opening := true), s) && w2.bucket.root == s.rootETag
  {
    LoadOfNothing(w, load);
    w2 := Do(Do(w, load), PutSnapshot(load.m, true, true));
  }

  /** And the first commit it makes goes through: a root at epoch 1, an empty
      namespace, and a mount on it. */
  lemma InitGoesThrough(w: World, load: Step) returns (ws: seq<World>, steps: seq<Step>)
    requires load.LoadRoot? && load.read.NotFound? && !load.readOnly && Enabled(w, load)
    ensures steps == [load, PutSnapshot(load.m, true, true)] + [Swap(load.m, true, GotETag)] + [Apply(load.m)]
    ensures Moves(ws, steps) && ws[0] == w && Committed(ws[4], load.m, Fresh(load), load.nonce)
  {
    var m, x := load.m, Fresh(load);
    var s := SealedFrom(m, x, load.nonce);
    var w2 := InitStores(w, load);
    var ws1, steps1 := [w, Do(w, load), w2], [load, PutSnapshot(m, true, true)];
    var ws2, steps2 := SwapLands(w2, m, x.(opening := true), s);
    var ws3, steps3 := ApplyCommits(ws2[1], m, x, load.nonce);
    Join(ws1, steps1, ws2, steps2);
    Join(ws1 + ws2[1..], steps1 + steps2, ws3, steps3);
    ws, steps := ws1 + ws2[1..] + ws3[1..], steps1 + steps2 + steps3;
  }

  /** A chunk stored is one the namespace may name: the flush that uploaded it can
      repoint a file to it, and the change counts. */
  lemma StoredChunkCanBeNamed(w: World, m: MountId, chunk: Chunk, made: seq<Change>) returns (w2: World)
    requires m in w.mounts && w.mounts[m].mode == Writable && !w.mounts[m].flight.Loading? && !w.mounts[m].opening
    ensures var put, name := PutChunk(m, chunk, true, true), Mutate(m, made, w.mounts[m].ns.refs + {chunk});
            && Enabled(w, put) && Enabled(Do(w, put), name) && w2 == Do(Do(w, put), name)
    ensures chunk in w2.bucket.chunks && m in w2.mounts
    ensures var x, y := w.mounts[m], w2.mounts[m];
            && y.ns == Namespace(x.ns.log + made, x.ns.refs + {chunk}) && y.dirty && y.changes == x.changes + 1
  {
    w2 := Do(Do(w, PutChunk(m, chunk, true, true)), Mutate(m, made, w.mounts[m].ns.refs + {chunk}));
  }

  // Prune passes.

  function Elements(ks: seq<Key>): set<Key> {
    set k | k in ks
  }

  /** A pass whose deletes take effect takes exactly what it doomed, and ends. */
  lemma {:induction false} PassDeletes(w: World, m: MountId) returns (ws: seq<World>, steps: seq<Step>)
    requires m in w.mounts && w.mounts[m].prune.Pruning?
    ensures Moves(ws, steps) && ws[0] == w
    ensures var w', doomed := ws[|steps|], w.mounts[m].prune.doomed;
            && m in w'.mounts && w'.mounts[m] == w.mounts[m].(prune := NoPass)
            && w'.bucket.root == w.bucket.root && w'.bucket.chunks == w.bucket.chunks
            && w'.bucket.snapshots == w.bucket.snapshots - Elements(doomed)
    decreases |w.mounts[m].prune.doomed|
  {
    var x := w.mounts[m];
    var doomed := x.prune.doomed;
    if doomed == [] {
      ws, steps := [w, Do(w, PruneEnd(m))], [PruneEnd(m)];
      assert w.bucket.snapshots - Elements(doomed) == w.bucket.snapshots;
    } else {
      var w1 := Do(w, PruneDelete(m, true));
      var rest, more := PassDeletes(w1, m);
      ws, steps := [w] + rest, [PruneDelete(m, true)] + more;
      assert Elements(doomed) == {doomed[0]} + Elements(doomed[1..]);
      assert w.bucket.snapshots - {doomed[0]} - Elements(doomed[1..]) == w.bucket.snapshots - Elements(doomed);
    }
  }

  /** So a pass that has listed what to delete goes through. */
  lemma ListedPassDeletes(w: World, m: MountId, doomed: seq<Key>) returns (ws: seq<World>, steps: seq<Step>)
    requires m in w.mounts && w.mounts[m].prune.Listing?
    requires forall k :: k in doomed ==> KeyLess(k, w.mounts[m].prune.current)
    ensures Moves(ws, steps) && ws[0] == w && steps != [] && steps[0] == PruneList(m, doomed)
    ensures var w' := ws[|steps|];
            && m in w'.mounts && w'.mounts[m] == w.mounts[m].(prune := NoPass)
            && w'.bucket == w.bucket.(snapshots := w.bucket.snapshots - Elements(doomed))
  {
    var ws1, steps1 := One(w, PruneList(m, doomed));
    var ws2, steps2 := PassDeletes(ws1[1], m);
    Join(ws1, steps1, ws2, steps2);
    ws, steps := ws1 + ws2[1..], steps1 + steps2;
  }

  /** No run refuses the doubt; if one did, the commit would end as it did before
      there were doubts: in its error, or applied without an ETag. */
  lemma RefusedDoubtEnds(w: World, m: MountId, x: Mount, s: Sealed, oldErr: bool)
    requires x.knowledge == InDoubt && !x.opening
    ensures var w' := RaiseDoubt(w, m, x, s, oldErr);
            && m in w'.mounts && w'.bucket == w.bucket && w'.mounts[m].flight.Idle? && w'.mounts[m].doubtKey.None?
            && (oldErr ==> w'.acked == w.acked && w'.mounts[m] == x.(doubtKey := None, flight := Idle))
            && (!oldErr ==>
                  && s.key in w'.acked && w'.mounts[m].rootETag.None? && w'.mounts[m].rootSnapshot == Some(s.key)
                  && w'.mounts[m].epoch == s.epoch && w'.mounts[m].knowledge == InDoubt)
  {
  }
}
