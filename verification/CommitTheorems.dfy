/** What the commit protocol promises, over whole runs from an empty bucket. */
module CommitTheorems {
  import opened Wrappers
  import opened Machines
  import opened CommitProtocol
  import opened CommitInvariant
  import opened CommitSteps

  // One writer.

  /** The only mount that may write is m; the root is where m believes it to be,
      or where the one attempt m is in doubt about would have moved it. */
  predicate AloneInv(b: Bucket, x: Mount) {
    && x.mode != Diverged
    && match x.flight
       case Loading(rp) => b.root == Some(rp)
       case Idle =>
         || b.root == x.rootETag
         || (x.knowledge == InDoubt && b.root.Some? && Some(b.root.value.snapshot) == x.doubtKey)
       case Putting(_) => b.root == x.rootETag
       case Swapping(_) => b.root == x.rootETag
       case Reclaiming(s) => b.root == x.rootETag || b.root == Some(s.rp)
       case Deleting(s) => b.root == x.rootETag
       case FallbackPutting(s) => b.root == x.rootETag || b.root == Some(s.rp)
       case FallbackHeading(s) => b.root == Some(s.rp)
       case Probing(s) => b.root == x.rootETag || b.root == Some(s.rp)
       case Applying(s, _) => b.root == Some(s.rp)
  }

  predicate Lone(w: World, m: MountId) {
    && (forall n :: n in w.mounts && n != m ==> w.mounts[n].mode == ReadOnly)
    && (m in w.mounts ==> AloneInv(w.bucket, w.mounts[m]))
  }

  /** Only m is opened for writing. */
  predicate OneWriter(step: Step, m: MountId) {
    step.LoadRoot? && !step.readOnly ==> step.m == m
  }

  lemma LoneIsAlone(w: World, step: Step, m: MountId)
    requires Inv(w) && Lone(w, m) && Enabled(w, step)
    ensures step.m in w.mounts ==> Alone(w.bucket, w.mounts[step.m])
  {
    if step.m in w.mounts {
      assert MountInv(w.bucket, w.hist, step.m, w.mounts[step.m]);
    }
  }

  /** A lone writer's honest read of the root never shows another writer. */
  lemma LoneNeverTheirs(b: Bucket, h: History, m: MountId, x: Mount, read: Read)
    requires BucketInv(b, h) && MountInv(b, h, m, x) && AloneInv(b, x) && Honest(read, b.root)
    requires x.knowledge == InDoubt
    ensures !ClassifyRoot(read, x.rootSnapshot, x.doubtKey).Theirs?
    ensures ResolveRoot(x, read).0.mode == x.mode
    ensures ClassifyRoot(read, x.rootSnapshot, x.doubtKey).Ours? ==> b.root == ResolveRoot(x, read).0.rootETag
    ensures ClassifyRoot(read, x.rootSnapshot, x.doubtKey).Unchanged? ==> b.root == ResolveRoot(x, read).0.rootETag
  {
    assert RecordInv(h.sealed, x.doubtKey.value);
    assert x.rootSnapshot.Some? ==> RecordInv(h.sealed, x.rootSnapshot.value);
  }

  /** A read-only mount, by any step, leaves the root alone. */
  lemma ReaderWritesNothing(w: World, step: Step)
    requires Inv(w) && Enabled(w, step)
    requires if step.LoadRoot? then step.readOnly else w.mounts[step.m].mode == ReadOnly
    ensures Do(w, step).bucket == w.bucket && Do(w, step).hist == w.hist
    ensures step.m in Do(w, step).mounts ==> Do(w, step).mounts[step.m].mode == ReadOnly
  {
    if !step.LoadRoot? {
      assert MountInv(w.bucket, w.hist, step.m, w.mounts[step.m]);
    }
  }

  predicate WritesRoot(step: Step) {
    step.Swap? || step.ReclaimRead? || step.FallbackPut? || step.FallbackHead?
  }

  /** The writer is about to write the root, or has: its attempt is not the
      root it stands on. */
  predicate AtAttempt(x: Mount, s: Sealed) {
    && x.knowledge == Known && s.rootETag == x.rootETag && s.rp.snapshot == s.key
    && (x.rootETag.Some? ==> x.rootETag.value.snapshot != s.key)
  }

  lemma DoubterStaysAlone(w: World, m: MountId, x: Mount, s: Sealed, oldErr: bool)
    requires AtAttempt(x, s) && x.mode != Diverged
    requires w.bucket.root == x.rootETag || w.bucket.root == Some(s.rp)
    ensures var w' := RaiseDoubt(w, m, x, s, oldErr);
            m in w'.mounts ==> AloneInv(w'.bucket, w'.mounts[m])
  {
  }

  lemma SwapStaysAlone(w: World, m: MountId, effect: bool, reply: SwapReply)
    requires Enabled(w, Swap(m, effect, reply)) && AloneInv(w.bucket, w.mounts[m])
    requires AtAttempt(w.mounts[m], w.mounts[m].flight.s)
    ensures var w' := Do(w, Swap(m, effect, reply));
            m in w'.mounts ==> AloneInv(w'.bucket, w'.mounts[m])
  {
    var x := w.mounts[m];
    var s := x.flight.s;
    var w1 := if effect then WriteRoot(w, s) else w;
    DoubterStaysAlone(w1, m, x, s, false);
    DoubterStaysAlone(w1, m, x, s, true);
  }

  lemma RootWriterStaysAlone(w: World, step: Step)
    requires Enabled(w, step) && WritesRoot(step) && AloneInv(w.bucket, w.mounts[step.m])
    requires AtAttempt(w.mounts[step.m], w.mounts[step.m].flight.s)
    ensures var w' := Do(w, step);
            step.m in w'.mounts ==> AloneInv(w'.bucket, w'.mounts[step.m])
  {
    var m := step.m;
    var x := w.mounts[m];
    var s := x.flight.s;
    match step
    case Swap(_, effect, reply) => SwapStaysAlone(w, m, effect, reply);
    case ReclaimRead(_, _) => DoubterStaysAlone(w, m, x, s, true);
    case FallbackPut(_, effect, _) =>
      DoubterStaysAlone(w, m, x, s, true);
      DoubterStaysAlone(WriteRoot(w, s), m, x, s, true);
    case FallbackHead(_, _) => DoubterStaysAlone(w, m, x, s, false);
  }

  lemma ProberStaysAlone(w: World, step: Step)
    requires Enabled(w, step) && (step.Probe? || step.TopProbe?)
    requires BucketInv(w.bucket, w.hist) && MountInv(w.bucket, w.hist, step.m, w.mounts[step.m])
    requires AloneInv(w.bucket, w.mounts[step.m])
    ensures var w' := Do(w, step);
            step.m in w'.mounts ==> AloneInv(w'.bucket, w'.mounts[step.m])
  {
    var x := w.mounts[step.m];
    LoneNeverTheirs(w.bucket, w.hist, step.m, x, step.read);
    assert step.Probe? ==> RecordInv(w.hist.sealed, x.flight.s.key);
    SettledStaysAlone(w.bucket, x, step.read);
  }

  lemma SettledStaysAlone(b: Bucket, x: Mount, read: Read)
    requires AloneInv(b, x) && x.knowledge == InDoubt && (x.flight.Idle? || x.flight.Probing?)
    requires x.flight.Probing? ==> x.flight.s.rp.snapshot == x.flight.s.key && x.doubtKey == Some(x.flight.s.key)
    requires var v := ClassifyRoot(read, x.rootSnapshot, x.doubtKey);
             !v.Theirs? && (v.Ours? || v.Unchanged? ==> b.root == ResolveRoot(x, read).0.rootETag)
    requires ClassifyRoot(read, x.rootSnapshot, x.doubtKey).Ours? && x.flight.Probing? ==> b.root == Some(x.flight.s.rp)
    ensures var (y, v) := ResolveRoot(x, read);
            && AloneInv(b, y.(flight := Idle))
            && (v.Ours? && x.flight.Probing? ==> AloneInv(b, y.(flight := Applying(x.flight.s, y.rootETag))))
  {
  }

  lemma QuietStepStaysAlone(w: World, step: Step)
    requires Enabled(w, step) && step.m in w.mounts && !WritesRoot(step) && !step.Probe? && !step.TopProbe?
    requires AloneInv(w.bucket, w.mounts[step.m]) && FlightInv(w.bucket, w.hist, step.m, w.mounts[step.m])
    requires CleanInv(w.hist, w.mounts[step.m])
    ensures var w' := Do(w, step);
            step.m in w'.mounts ==> AloneInv(w'.bucket, w'.mounts[step.m])
  {
  }

  /** What the lone writer's own step does. */
  lemma WriterStaysAlone(w: World, step: Step)
    requires Inv(w) && Enabled(w, step) && step.m in w.mounts && AloneInv(w.bucket, w.mounts[step.m])
    ensures var w' := Do(w, step);
            step.m in w'.mounts ==> AloneInv(w'.bucket, w'.mounts[step.m])
  {
    var x := w.mounts[step.m];
    assert MountInv(w.bucket, w.hist, step.m, x);
    if step.Probe? || step.TopProbe? {
      ProberStaysAlone(w, step);
    } else if WritesRoot(step) {
      AttemptIsNew(w.bucket, w.hist, step.m, x);
      RootWriterStaysAlone(w, step);
    } else {
      QuietStepStaysAlone(w, step);
    }
  }

  lemma AttemptIsNew(b: Bucket, h: History, m: MountId, x: Mount)
    requires RecordsInv(h.sealed) && MountInv(b, h, m, x)
    requires x.flight.Swapping? || x.flight.Reclaiming? || x.flight.FallbackPutting? || x.flight.FallbackHeading?
    ensures AtAttempt(x, x.flight.s)
  {
    assert RecordInv(h.sealed, x.flight.s.key);
    assert x.rootSnapshot.Some? ==> RecordInv(h.sealed, x.rootSnapshot.value);
  }

  lemma LoneKeeps(w: World, step: Step, m: MountId)
    requires Inv(w) && Lone(w, m) && Enabled(w, step) && OneWriter(step, m)
    ensures Lone(Do(w, step), m)
  {
    OtherMountsUntouched(w, step);
    if step.m != m {
      ReaderWritesNothing(w, step);
      StaysLone(w, Do(w, step), step.m, m);
    } else {
      if step.LoadRoot? { LoaderIsAlone(w, step); } else { WriterStaysAlone(w, step); }
      StaysLone(w, Do(w, step), m, m);
    }
  }

  lemma StaysLone(w: World, w': World, actor: MountId, m: MountId)
    requires Lone(w, m) && Untouched(w.mounts, w'.mounts, actor)
    requires actor == m && m in w'.mounts ==> AloneInv(w'.bucket, w'.mounts[m])
    requires actor != m ==> w'.bucket == w.bucket
    requires actor != m && actor in w'.mounts ==> w'.mounts[actor].mode == ReadOnly
    ensures Lone(w', m)
  {
  }

  lemma LoaderIsAlone(w: World, step: Step)
    requires step.LoadRoot? && Enabled(w, step)
    ensures var w' := Do(w, step);
            step.m in w'.mounts ==> AloneInv(w'.bucket, w'.mounts[step.m])
  {
  }

  ghost predicate Untouched(ms: map<MountId, Mount>, ms': map<MountId, Mount>, m: MountId) {
    forall n :: n != m ==> (n in ms' <==> n in ms) && (n in ms ==> ms'[n] == ms[n])
  }

  lemma DoubtTouchesItsOwn(w: World, m: MountId, x: Mount, s: Sealed, oldErr: bool)
    ensures Untouched(w.mounts, RaiseDoubt(w, m, x, s, oldErr).mounts, m)
  {
  }

  lemma SwapTouchesItsOwn(w: World, m: MountId, x: Mount, effect: bool, reply: SwapReply)
    requires x.flight.Swapping?
    ensures Untouched(w.mounts, DoSwap(w, m, x, effect, reply).mounts, m)
  {
    var w1 := if effect then WriteRoot(w, x.flight.s) else w;
    DoubtTouchesItsOwn(w1, m, x, x.flight.s, reply != NoETag);
  }

  lemma FlightTouchesItsOwn(w: World, step: Step)
    requires !step.LoadRoot? && Enabled(w, step) && OfFlight(step)
    ensures Untouched(w.mounts, Do(w, step).mounts, step.m)
  {
    var m := step.m;
    var x := w.mounts[m];
    match step
    case Swap(_, effect, reply) => SwapTouchesItsOwn(w, m, x, effect, reply);
    case FallbackPut(_, effect, _) =>
      var s := x.flight.s;
      DoubtTouchesItsOwn(if effect && w.bucket.root != Some(s.rp) then WriteRoot(w, s) else w, m, x, s, true);
    case ReclaimRead(_, _) => DoubtTouchesItsOwn(w, m, x, x.flight.s, true);
    case FallbackHead(_, _) => DoubtTouchesItsOwn(w, m, x, x.flight.s, false);
    case _ =>
  }

  lemma OtherMountsUntouched(w: World, step: Step)
    requires Enabled(w, step)
    ensures Untouched(w.mounts, Do(w, step).mounts, step.m)
  {
    if !step.LoadRoot? && OfFlight(step) { FlightTouchesItsOwn(w, step); }
  }

  // Many writers, with the unconditional fallback off.

  predicate NoFallback(step: Step) {
    step.LoadRoot? ==> !step.fallback
  }

  predicate FallbackOff(w: World) {
    forall m :: m in w.mounts ==> NoFallbackIn(w.mounts[m])
  }

  predicate NoFallbackIn(x: Mount) {
    !x.fallback && !x.flight.FallbackPutting? && !x.flight.FallbackHeading?
  }

  lemma SwapTakesNoFallback(w: World, step: Step)
    requires Enabled(w, step) && (step.Swap? || step.ReclaimRead? || step.Probe? || step.TopProbe?)
    requires NoFallbackIn(w.mounts[step.m])
    ensures step.m in Do(w, step).mounts ==> NoFallbackIn(Do(w, step).mounts[step.m])
  {
  }

  lemma FallbackStaysOff(w: World, step: Step)
    requires Enabled(w, step) && FallbackOff(w) && NoFallback(step)
    ensures FallbackOff(Do(w, step))
  {
    OtherMountsUntouched(w, step);
    assert step.m in w.mounts ==> NoFallbackIn(w.mounts[step.m]);
    if step.Swap? || step.ReclaimRead? || step.Probe? || step.TopProbe? {
      SwapTakesNoFallback(w, step);
    }
    assert step.m in Do(w, step).mounts ==> NoFallbackIn(Do(w, step).mounts[step.m]);
  }

  // Runs.

  ghost predicate Run(ws: seq<World>, steps: seq<Step>) {
    && |ws| == |steps| + 1 && ws[0] == INIT
    && forall i :: 0 <= i < |steps| ==> Enabled(ws[i], steps[i]) && ws[i + 1] == Do(ws[i], steps[i])
  }

  ghost predicate SingleWriter(steps: seq<Step>, m: MountId) {
    forall i :: 0 <= i < |steps| ==> OneWriter(steps[i], m)
  }

  /** The runs the protocol is meant for: any number of writers with the
      fallback off, or one writer with it on or off. */
  ghost predicate Supported(steps: seq<Step>) {
    || (forall i :: 0 <= i < |steps| ==> NoFallback(steps[i]))
    || (exists m :: SingleWriter(steps, m))
  }

  /** The invariant holds in every state of every supported run. */
  lemma {:induction false} InvHolds(ws: seq<World>, steps: seq<Step>, i: nat)
    requires Run(ws, steps) && Supported(steps) && i < |ws|
    ensures Inv(ws[i])
    ensures (forall j :: 0 <= j < |steps| ==> NoFallback(steps[j])) ==> FallbackOff(ws[i])
    ensures forall m :: SingleWriter(steps, m) ==> Lone(ws[i], m)
  {
    if i > 0 {
      var w, step := ws[i - 1], steps[i - 1];
      InvHolds(ws, steps, i - 1);
      if forall j :: 0 <= j < |steps| ==> NoFallback(steps[j]) {
        FallbackStaysOff(w, step);
        StepKeeps(w, step);
      }
      forall m | SingleWriter(steps, m)
        ensures Inv(ws[i]) && Lone(ws[i], m)
      {
        assert OneWriter(steps[i - 1], m);
        LoneIsAlone(w, step, m);
        StepKeeps(w, step);
        LoneKeeps(w, step, m);
      }
    }
  }

  /** Nothing of the history is lost, and the root moves at most once. */
  predicate Advances(w: World, w': World) {
    && Extends(w.hist, w'.hist) && w.acked <= w'.acked
    && |w'.hist.chain| <= |w.hist.chain| + 1
    && (w'.bucket.root != w.bucket.root ==> |w'.hist.chain| == |w.hist.chain| + 1)
  }

  lemma DoubtAdvances(w: World, w1: World, m: MountId, x: Mount, s: Sealed, oldErr: bool)
    requires Advances(w, w1)
    ensures Advances(w, RaiseDoubt(w1, m, x, s, oldErr))
  {
  }

  lemma SwapAdvances(w: World, m: MountId, x: Mount, effect: bool, reply: SwapReply)
    requires x.flight.Swapping?
    ensures Advances(w, DoSwap(w, m, x, effect, reply))
  {
    var w1 := if effect then WriteRoot(w, x.flight.s) else w;
    DoubtAdvances(w, w1, m, x, x.flight.s, reply != NoETag);
  }

  lemma FallbackAdvances(w: World, m: MountId, x: Mount, effect: bool, ok: bool)
    requires x.flight.FallbackPutting?
    ensures Advances(w, DoFallbackPut(w, m, x, effect, ok))
  {
    var s := x.flight.s;
    DoubtAdvances(w, if effect && w.bucket.root != Some(s.rp) then WriteRoot(w, s) else w, m, x, s, true);
  }

  lemma FlightAdvances(w: World, step: Step)
    requires !step.LoadRoot? && Enabled(w, step) && OfFlight(step)
    ensures Advances(w, Do(w, step))
  {
    var m := step.m;
    var x := w.mounts[m];
    match step
    case Swap(_, effect, reply) => SwapAdvances(w, m, x, effect, reply);
    case FallbackPut(_, effect, ok) => FallbackAdvances(w, m, x, effect, ok);
    case ReclaimRead(_, _) => DoubtAdvances(w, w, m, x, x.flight.s, true);
    case FallbackHead(_, _) => DoubtAdvances(w, w, m, x, x.flight.s, false);
    case _ =>
  }

  lemma StepExtends(w: World, step: Step)
    requires Enabled(w, step)
    ensures Advances(w, Do(w, step))
  {
    if OfFlight(step) { FlightAdvances(w, step); }
  }

  ghost predicate Grew(w: World, w': World) {
    Extends(w.hist, w'.hist) && w.acked <= w'.acked
  }

  lemma StepGrew(ws: seq<World>, steps: seq<Step>, i: nat)
    requires Run(ws, steps) && i < |steps|
    ensures Grew(ws[i], ws[i + 1])
  {
    StepExtends(ws[i], steps[i]);
  }

  lemma {:induction false} AllGrew(ws: seq<World>, i: nat, j: nat)
    requires i <= j < |ws| && forall k :: i <= k < j ==> Grew(ws[k], ws[k + 1])
    ensures Grew(ws[i], ws[j])
    decreases j
  {
    if i < j { AllGrew(ws, i, j - 1); }
  }

  lemma HistoryGrows(ws: seq<World>, steps: seq<Step>, i: nat, j: nat)
    requires Run(ws, steps) && i <= j < |ws|
    ensures Extends(ws[i].hist, ws[j].hist) && ws[i].acked <= ws[j].acked
  {
    forall k | i <= k < j ensures Grew(ws[k], ws[k + 1]) {
      StepGrew(ws, steps, k);
    }
    AllGrew(ws, i, j);
  }

  // The promises.

  /** after is the root that follows before: one epoch on, and sealed from a
      namespace descending from it. */
  predicate Follows(before: Option<RootPointer>, after: Option<RootPointer>, sealed: Seals) {
    && after.Some? && after.value.snapshot in sealed
    && var record := sealed[after.value.snapshot];
    match before
    case None => after.value.epoch == 1 && record.parent.None?
    case Some(rp) =>
      && after.value.epoch == rp.epoch + 1
      && record.parent == Some(rp.snapshot) && rp.snapshot in sealed
      && LogOf(sealed, rp.snapshot) <= record.snap.ns.log
  }

  lemma NextRootFollows(b: Bucket, h: History, b': Bucket, h': History)
    requires BucketInv(b, h) && BucketInv(b', h') && Extends(h, h') && |h'.chain| == |h.chain| + 1
    ensures Follows(b.root, b'.root, h'.sealed)
  {
    var n := |h.chain|;
    assert RecordInv(h'.sealed, h'.chain[n]);
    if n > 0 {
      assert Link(h', n);
      assert RecordInv(h'.sealed, h'.chain[n - 1]);
    }
  }

  /** Root epochs rise by exactly one per write that takes effect, and each
      root was sealed from a namespace descending from the root before it. */
  lemma RootMovesToItsChild(ws: seq<World>, steps: seq<Step>, i: nat)
    requires Run(ws, steps) && Supported(steps) && i < |steps|
    requires ws[i + 1].bucket.root != ws[i].bucket.root
    ensures Follows(ws[i].bucket.root, ws[i + 1].bucket.root, ws[i + 1].hist.sealed)
  {
    InvHolds(ws, steps, i);
    InvHolds(ws, steps, i + 1);
    StepExtends(ws[i], steps[i]);
    NextRootFollows(ws[i].bucket, ws[i].hist, ws[i + 1].bucket, ws[i + 1].hist);
  }

  /** No acknowledged commit is lost: a commit that returned nil stays on the
      chain of roots for ever, and what the root names later holds every change
      it held. */
  lemma NoAcknowledgedCommitLost(ws: seq<World>, steps: seq<Step>, i: nat, j: nat, k: Key)
    requires Run(ws, steps) && Supported(steps) && i <= j < |ws| && k in ws[i].acked
    ensures OnChain(ws[j].hist, k) && k in ws[i].hist.sealed
    ensures ws[j].bucket.root.Some? && ws[j].bucket.root.value.snapshot in ws[j].bucket.snapshots
    ensures LogOf(ws[i].hist.sealed, k) <= ws[j].bucket.snapshots[ws[j].bucket.root.value.snapshot].ns.log
  {
    InvHolds(ws, steps, i);
    InvHolds(ws, steps, j);
    HistoryGrows(ws, steps, i, j);
    var h := ws[j].hist;
    assert OnChain(ws[i].hist, k);
    assert LogOf(h.sealed, h.chain[k.epoch - 1]) <= LogOf(h.sealed, h.chain[|h.chain| - 1]);
  }

  /** Whatever crashed, was pruned or was reclaimed, the root can be loaded: the
      snapshot it names is stored, and so is every chunk that names. */
  lemma RootAlwaysLoadable(ws: seq<World>, steps: seq<Step>, i: nat)
    requires Run(ws, steps) && Supported(steps) && i < |ws| && ws[i].bucket.root.Some?
    ensures var b := ws[i].bucket;
            && b.root.value.snapshot in b.snapshots
            && b.snapshots[b.root.value.snapshot].ns.refs <= b.chunks
            && b.snapshots[b.root.value.snapshot].epoch == b.root.value.epoch
  {
    InvHolds(ws, steps, i);
    var h := ws[i].hist;
    assert RecordInv(h.sealed, ws[i].bucket.root.value.snapshot);
  }

  /** A prune pass is safe for ever: what it has doomed sorts below the key the
      root names, then and at every later time. */
  lemma PruneSafeForEver(ws: seq<World>, steps: seq<Step>, i: nat, j: nat, m: MountId, k: Key)
    requires Run(ws, steps) && Supported(steps) && i <= j < |ws|
    requires m in ws[i].mounts && ws[i].mounts[m].prune.Pruning? && k in ws[i].mounts[m].prune.doomed
    ensures ws[j].bucket.root.Some? && KeyLess(k, ws[j].bucket.root.value.snapshot)
  {
    InvHolds(ws, steps, i);
    InvHolds(ws, steps, j);
    HistoryGrows(ws, steps, i, j);
    DoomedBelowRoot(ws[j].bucket, ws[j].hist, ws[i].mounts[m].prune.current, k);
  }

  /** Where the root can be while the mount has no doubt about it: where the
      mount stands, but for a write of its own that has moved it, or may have,
      and that it has not applied yet. */
  predicate RootIsWhereKnown(root: Option<RootPointer>, x: Mount) {
    match x.flight
    case Loading(rp) => root == Some(rp)
    case Reclaiming(s) => root == x.rootETag || root == Some(s.rp)
    case FallbackPutting(s) => root == x.rootETag || root == Some(s.rp)
    case FallbackHeading(s) => root == Some(s.rp)
    case Applying(s, _) => root == Some(s.rp)
    case _ => root == x.rootETag
  }

  /** A lone writer never diverges, whatever the fallback, the replies and the
      crashes: while Known the root is the one it stands on or the one its
      unapplied attempt wrote, and while in doubt the root names the one it
      stands on or the attempt in doubt. */
  lemma LoneWriterNeverDiverges(ws: seq<World>, steps: seq<Step>, i: nat, m: MountId)
    requires Run(ws, steps) && SingleWriter(steps, m) && i < |ws| && m in ws[i].mounts
    ensures var b, x := ws[i].bucket, ws[i].mounts[m];
            && x.mode != Diverged
            && (x.knowledge == Known ==> RootIsWhereKnown(b.root, x))
            && (x.rootETag.Some? ==> Some(x.rootETag.value.snapshot) == x.rootSnapshot)
            && (x.knowledge == InDoubt ==>
                  if b.root.None? then x.rootSnapshot.None?
                  else Some(b.root.value.snapshot) == x.rootSnapshot || Some(b.root.value.snapshot) == x.doubtKey)
            && (x.knowledge == InDoubt ==>
                  forall r :: Honest(r, b.root) ==> !ClassifyRoot(r, x.rootSnapshot, x.doubtKey).Theirs?)
  {
    InvHolds(ws, steps, i);
    var b, h, x := ws[i].bucket, ws[i].hist, ws[i].mounts[m];
    assert MountInv(b, h, m, x);
    assert x.rootSnapshot.Some? ==> RecordInv(h.sealed, x.rootSnapshot.value);
    if x.knowledge == InDoubt {
      assert RecordInv(h.sealed, x.doubtKey.value);
      forall r | Honest(r, b.root) ensures !ClassifyRoot(r, x.rootSnapshot, x.doubtKey).Theirs? {
        LoneNeverTheirs(b, h, m, x, r);
      }
    }
  }

  /** The Fires a step makes, if its branch makes any, all have an edge. */
  predicate FiresLegal(x: Mount, step: Step) {
    match step
    case Swap(_, _, reply) =>
      if reply.GotETag? then RootNext(x.knowledge, SwapOK).Some?
      else RootNext(x.knowledge, SwapUnknown).Some?
    case ReclaimRead(_, _) => RootNext(x.knowledge, SwapUnknown).Some?
    case FallbackPut(_, _, _) => RootNext(x.knowledge, SwapUnknown).Some?
    case FallbackHead(_, gotETag) =>
      RootNext(x.knowledge, if gotETag then SwapOK else SwapUnknown).Some?
    case Probe(_, read) => VerdictLegal(x, read)
    case TopProbe(_, read) => VerdictLegal(x, read)
    case _ => true
  }

  predicate VerdictLegal(x: Mount, read: Read) {
    match ClassifyRoot(read, x.rootSnapshot, x.doubtKey)
    case Ours => RootNext(x.knowledge, SawOurs).Some?
    case Unchanged => RootNext(x.knowledge, SawUnchanged).Some?
    case Theirs => ModeNext(x.mode).Some?
    case Undecided => true
  }

  /** No state machine ever refuses a Fire, with one writer or many. */
  lemma NoFireRefused(ws: seq<World>, steps: seq<Step>, i: nat)
    requires Run(ws, steps) && Supported(steps) && i < |steps| && !steps[i].LoadRoot?
    ensures FiresLegal(ws[i].mounts[steps[i].m], steps[i])
  {
    InvHolds(ws, steps, i);
    var w, step := ws[i], steps[i];
    assert MountInv(w.bucket, w.hist, step.m, w.mounts[step.m]);
    FiresAreLegal(w, step);
  }

  lemma FiresAreLegal(w: World, step: Step)
    requires Enabled(w, step) && step.m in w.mounts
    requires DoubtInv(w.hist, step.m, w.mounts[step.m]) && ModeInv(w.mounts[step.m])
    ensures FiresLegal(w.mounts[step.m], step)
  {
  }

  /** A clean mount has committed everything: its namespace is, change for
      change, a snapshot the root has named. */
  lemma CleanMeansCommitted(ws: seq<World>, steps: seq<Step>, i: nat, m: MountId)
    requires Run(ws, steps) && Supported(steps) && i < |ws| && m in ws[i].mounts
    requires !ws[i].mounts[m].dirty && ws[i].mounts[m].flight.Idle?
    ensures var h, x := ws[i].hist, ws[i].mounts[m];
            && x.rootSnapshot.Some? && OnChain(h, x.rootSnapshot.value)
            && x.rootSnapshot.value in h.sealed && h.sealed[x.rootSnapshot.value].snap.ns == x.ns
  {
    InvHolds(ws, steps, i);
    assert MountInv(ws[i].bucket, ws[i].hist, m, ws[i].mounts[m]);
  }
}
