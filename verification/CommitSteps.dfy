/** Every step of the commit protocol keeps the invariant. The unconditional
    fallback keeps it where the mount is the only writer, which is what Alone
    says of the two moments that matter. */
module CommitSteps {
  import opened Wrappers
  import opened Machines
  import opened CommitProtocol
  import opened CommitInvariant

  /** The root is where m last saw it or where m's own attempt moved it. */
  predicate Alone(b: Bucket, x: Mount) {
    match x.flight
    case FallbackPutting(s) => b.root == s.rootETag || b.root == Some(s.rp)
    case FallbackHeading(s) => b.root == Some(s.rp)
    case _ => true
  }

  /** Recording a seal keeps the history. */
  lemma RecordExtends(h: History, k: Key, r: Record)
    requires HistoryInv(h) && k !in h.sealed
    requires RecordInv(h.sealed[k := r], k)
    ensures var h' := h.(sealed := h.sealed[k := r]); HistoryInv(h') && Extends(h, h')
  {
    var h' := h.(sealed := h.sealed[k := r]);
    forall j | j in h'.sealed ensures RecordInv(h'.sealed, j) {
      if j != k { assert RecordInv(h.sealed, j); }
    }
    forall i | 0 < i < |h'.chain| ensures Link(h', i) {
      assert Link(h, i);
    }
  }

  lemma SealRecorded(h: History, m: MountId, x: Mount, nonce: nat)
    requires HistoryInv(h) && Positioned(h, x)
    requires x.epoch + 1 < MAX_EPOCH && nonce < MAX_NONCE && Key(x.epoch + 1, nonce) !in h.sealed
    ensures var s := SealOf(m, x, nonce);
            var h' := h.(sealed := h.sealed[s.key := Record(s.snap, s.rp, x.rootSnapshot)]);
            HistoryInv(h') && Extends(h, h') && Ready(h', m, x, s)
  {
    var s := SealOf(m, x, nonce);
    var r := Record(s.snap, s.rp, x.rootSnapshot);
    assert RecordInv(h.sealed[s.key := r], s.key);
    RecordExtends(h, s.key, r);
  }

  lemma SealStored(b: Bucket, h: History, h': History)
    requires StoredInv(b, h) && RootInv(b.root, h) && Extends(h, h') && h'.chain == h.chain
    requires forall k :: k in h'.sealed && k !in h.sealed ==> h'.sealed[k].snap.ns.refs <= b.chunks
    ensures StoredInv(b, h') && RootInv(b.root, h')
  {
  }

  lemma SealKeeps(w: World, m: MountId, x: Mount, nonce: nat)
    requires Inv(w) && Drawable(w, Key(x.epoch + 1, nonce))
    requires x.knowledge == Known && x.doubtKey.None? && x.mode == Writable
    requires x.dirty || x.opening
    requires Positioned(w.hist, x) && PruneInv(w.hist, x.prune)
    requires x.known <= w.bucket.chunks && x.ns.refs <= w.bucket.chunks
    ensures Inv(DoSeal(w, m, x, nonce))
  {
    SealRecorded(w.hist, m, x, nonce);
    var w' := DoSeal(w, m, x, nonce);
    SealStored(w.bucket, w.hist, w'.hist);
    assert MountInv(w'.bucket, w'.hist, m, w'.mounts[m]);
    OthersKeep(w, w', m);
  }

  lemma SealStepKeeps(w: World, m: MountId, nonce: nat)
    requires Inv(w) && Enabled(w, Seal(m, nonce))
    ensures Inv(Do(w, Seal(m, nonce)))
  {
    SealKeeps(w, m, w.mounts[m], nonce);
  }

  lemma LoadRootKeeps(w: World, step: Step)
    requires Inv(w) && step.LoadRoot? && Enabled(w, step)
    ensures Inv(Do(w, step))
  {
    var w' := Do(w, step);
    var x := NewMount(step);
    match step.read
    case NotFound =>
      if !step.readOnly {
        SealKeeps(w, step.m, x.(opening := true), step.nonce);
      }
    case Failed =>
    case Answer(b, etag) =>
      if Understood(b) && etag.Some? {
        assert MountInv(w'.bucket, w'.hist, step.m, w'.mounts[step.m]);
        OthersKeep(w, w', step.m);
      }
  }

  /** A mount that has read its snapshot stands where the root it read stood. */
  lemma LoadedIsWell(b: Bucket, h: History, m: MountId, x: Mount)
    requires BucketInv(b, h) && MountInv(b, h, m, x)
    requires x.flight.Loading? && x.flight.root.snapshot in b.snapshots
    ensures var rp, snap := x.flight.root, b.snapshots[x.flight.root.snapshot];
            MountInv(b, h, m, x.(ns := snap.ns, epoch := snap.epoch, rootETag := Some(rp),
                                 rootSnapshot := Some(rp.snapshot), flight := Idle))
  {
    assert RecordInv(h.sealed, x.flight.root.snapshot);
  }

  lemma LoadSnapshotKeeps(w: World, m: MountId)
    requires Inv(w) && Enabled(w, LoadSnapshot(m))
    ensures Inv(Do(w, LoadSnapshot(m)))
  {
    var w' := Do(w, LoadSnapshot(m));
    if m in w'.mounts {
      LoadedIsWell(w.bucket, w.hist, m, w.mounts[m]);
    }
    OthersKeep(w, w', m);
  }

  lemma MutatedIsWell(b: Bucket, h: History, m: MountId, x: Mount, ns: Namespace)
    requires MountInv(b, h, m, x) && x.mode != ReadOnly && !x.flight.Loading? && !x.opening
    requires x.ns.log <= ns.log && ns.refs <= b.chunks
    ensures MountInv(b, h, m, x.(ns := ns, dirty := true, changes := x.changes + 1))
  {
  }

  lemma MutateKeeps(w: World, m: MountId, made: seq<Change>, refs: set<Chunk>)
    requires Inv(w) && Enabled(w, Mutate(m, made, refs))
    ensures Inv(Do(w, Mutate(m, made, refs)))
  {
    var w' := Do(w, Mutate(m, made, refs));
    MutatedIsWell(w.bucket, w.hist, m, w.mounts[m], w'.mounts[m].ns);
    OthersKeep(w, w', m);
  }

  /** More chunks in the bucket, and some of them known, harm nobody. */
  lemma ChunksGrow(b: Bucket, h: History, chunks: set<Chunk>)
    requires BucketInv(b, h) && b.chunks <= chunks
    ensures BucketInv(b.(chunks := chunks), h)
  {
  }

  lemma KnowerIsWell(b: Bucket, h: History, m: MountId, x: Mount, chunks: set<Chunk>, known: set<Chunk>)
    requires MountInv(b, h, m, x) && b.chunks <= chunks && known <= chunks
    ensures MountInv(b.(chunks := chunks), h, m, x.(known := known))
  {
  }

  lemma PutChunkKeeps(w: World, m: MountId, chunk: Chunk, effect: bool, ok: bool)
    requires Inv(w) && Enabled(w, PutChunk(m, chunk, effect, ok))
    ensures Inv(Do(w, PutChunk(m, chunk, effect, ok)))
  {
    var x := w.mounts[m];
    var chunks := if effect then w.bucket.chunks + {chunk} else w.bucket.chunks;
    var w1 := w.(bucket := w.bucket.(chunks := chunks));
    ChunksGrow(w.bucket, w.hist, chunks);
    OthersKeep(w, w1, m);
    var y := if ok then x.(known := x.known + {chunk}) else x;
    KnowerIsWell(w.bucket, w.hist, m, x, chunks, y.known);
    PutKeeps(w1, m, y);
  }

  lemma PutSnapshotKeeps(w: World, m: MountId, effect: bool, ok: bool)
    requires Inv(w) && m in w.mounts && w.mounts[m].flight.Putting? && (ok ==> effect)
    ensures Inv(DoPutSnapshot(w, m, w.mounts[m], effect, ok))
  {
    var x := w.mounts[m];
    var s := x.flight.s;
    var w1 := if effect then w.(bucket := w.bucket.(snapshots := w.bucket.snapshots[s.key := s.snap])) else w;
    assert MountInv(w.bucket, w.hist, m, x);
    SnapshotStored(w, w1, m, s);
    PutterIsWell(w.bucket, w.hist, w1.bucket, m, x);
    if ok { PutKeeps(w1, m, x.(flight := Swapping(s))); } else { FailKeeps(w1, m, x); }
  }

  lemma SnapshotStored(w: World, w1: World, m: MountId, s: Sealed)
    requires InvBut(w, m) && s.key in w.hist.sealed && w.hist.sealed[s.key].snap == s.snap
    requires w1 == w || w1 == w.(bucket := w.bucket.(snapshots := w.bucket.snapshots[s.key := s.snap]))
    ensures InvBut(w1, m)
  {
    OthersKeep(w, w1, m);
  }

  lemma PutterIsWell(b: Bucket, h: History, b': Bucket, m: MountId, x: Mount)
    requires MountInv(b, h, m, x) && x.flight.Putting? && b'.chunks == b.chunks
    ensures x.flight.s.key in b'.snapshots ==> MountInv(b', h, m, x.(flight := Swapping(x.flight.s)))
    ensures !x.opening ==> MountInv(b', h, m, x.(flight := Idle))
  {
  }

  /** The next key of the chain: sealed from the last one, it keeps the chain. */
  lemma ChainGrows(h: History, k: Key)
    requires HistoryInv(h) && k in h.sealed && k.epoch == |h.chain| + 1
    requires h.sealed[k].parent == if h.chain == [] then None else Some(h.chain[|h.chain| - 1])
    ensures var h' := h.(chain := h.chain + [k]); HistoryInv(h') && Extends(h, h') && OnChain(h', k)
  {
    var h' := h.(chain := h.chain + [k]);
    assert RecordInv(h.sealed, k);
    forall i | 0 < i < |h'.chain| ensures Link(h', i) {
      if i < |h.chain| { assert Link(h, i); }
    }
    forall i, j | 0 <= i <= j < |h'.chain|
      ensures LogOf(h'.sealed, h'.chain[i]) <= LogOf(h'.sealed, h'.chain[j])
    {
      if i < j == |h.chain| {
        assert LogOf(h.sealed, h.chain[i]) <= LogOf(h.sealed, h.chain[j - 1]) <= LogOf(h.sealed, k);
      }
    }
  }

  /** The heart of the protocol: a write of the root that takes effect on the
      root the attempt descends from puts the attempt next on the chain. */
  lemma WriteRootKeeps(w: World, m: MountId, x: Mount, s: Sealed)
    requires BucketInv(w.bucket, w.hist) && Positioned(w.hist, x)
    requires Ready(w.hist, m, x, s) && Swappable(w.bucket, w.hist, s)
    requires w.bucket.root == s.rootETag
    ensures var w' := WriteRoot(w, s);
            && BucketInv(w'.bucket, w'.hist)
            && Grows(w.bucket, w.hist, w'.bucket, w'.hist, m)
            && OnChain(w'.hist, s.key)
    ensures s.key.epoch == |w.hist.chain| + 1
  {
    assert RecordInv(w.hist.sealed, s.key);
    assert x.rootSnapshot.Some? ==> RecordInv(w.hist.sealed, x.rootSnapshot.value);
    ChainGrows(w.hist, s.key);
  }

  /** After a write of the root, whatever it did, m is as well as before. */
  lemma WriterIsWell(b: Bucket, h: History, b': Bucket, h': History, m: MountId, x: Mount)
    requires MountInv(b, h, m, x) && (x.flight.Swapping? || x.flight.FallbackPutting?)
    requires Extends(h, h') && b'.chunks == b.chunks && b'.snapshots == b.snapshots
    ensures MountInv(b', h', m, x.(flight := Reclaiming(x.flight.s)))
    ensures MountInv(b', h', m, x.(flight := FallbackPutting(x.flight.s)))
  {
  }

  lemma WrittenIsWell(b: Bucket, h: History, b': Bucket, h': History, m: MountId, x: Mount)
    requires MountInv(b, h, m, x) && (x.flight.Swapping? || x.flight.FallbackPutting?)
    requires Extends(h, h') && b'.chunks == b.chunks && OnChain(h', x.flight.s.key)
    ensures MountInv(b', h', m, x.(flight := Applying(x.flight.s, Some(x.flight.s.rp))))
    ensures MountInv(b', h', m, x.(flight := FallbackHeading(x.flight.s)))
  {
  }

  lemma FailKeeps(w: World, m: MountId, x: Mount)
    requires InvBut(w, m)
    requires !x.opening ==> MountInv(w.bucket, w.hist, m, x.(flight := Idle))
    ensures Inv(Fail(w, m, x))
  {
  }

  lemma PutKeeps(w: World, m: MountId, x: Mount)
    requires InvBut(w, m) && MountInv(w.bucket, w.hist, m, x)
    ensures Inv(Put(w, m, x))
  {
  }

  lemma DoubterIsWell(b: Bucket, h: History, m: MountId, x: Mount, s: Sealed)
    requires MountInv(b, h, m, x.(flight := Reclaiming(s)))
    ensures x.knowledge == Known
    ensures MountInv(b, h, m, x.(doubtKey := Some(s.key), knowledge := InDoubt, flight := Probing(s)))
  {
  }

  lemma RaiseDoubtKeeps(w: World, m: MountId, x: Mount, s: Sealed, oldErr: bool)
    requires InvBut(w, m) && MountInv(w.bucket, w.hist, m, x.(flight := Reclaiming(s)))
    ensures Inv(RaiseDoubt(w, m, x, s, oldErr))
  {
    DoubterIsWell(w.bucket, w.hist, m, x, s);
    PutKeeps(w, m, x.(doubtKey := Some(s.key), knowledge := InDoubt, flight := Probing(s)));
  }

  /** The swap's write, if it took effect, leaves every mount well. */
  lemma SwapWritten(w: World, m: MountId, effect: bool)
    requires Inv(w) && m in w.mounts && w.mounts[m].flight.Swapping?
    requires effect ==> w.bucket.root == w.mounts[m].flight.s.rootETag
    ensures var x := w.mounts[m];
            var s := x.flight.s;
            var w1 := if effect then WriteRoot(w, s) else w;
            && InvBut(w1, m)
            && MountInv(w1.bucket, w1.hist, m, x.(flight := Reclaiming(s)))
            && MountInv(w1.bucket, w1.hist, m, x.(flight := FallbackPutting(s)))
            && (effect ==> MountInv(w1.bucket, w1.hist, m, x.(flight := Applying(s, Some(s.rp)))))
  {
    var x := w.mounts[m];
    var s := x.flight.s;
    if effect {
      WriteRootKeeps(w, m, x, s);
      OthersKeep(w, WriteRoot(w, s), m);
      WriterIsWell(w.bucket, w.hist, WriteRoot(w, s).bucket, WriteRoot(w, s).hist, m, x);
      WrittenIsWell(w.bucket, w.hist, WriteRoot(w, s).bucket, WriteRoot(w, s).hist, m, x);
    } else {
      WriterIsWell(w.bucket, w.hist, w.bucket, w.hist, m, x);
    }
  }

  lemma SwapKeeps(w: World, m: MountId, effect: bool, reply: SwapReply)
    requires Inv(w) && m in w.mounts && w.mounts[m].flight.Swapping? && (reply.GotETag? ==> effect)
    requires effect ==> w.bucket.root == w.mounts[m].flight.s.rootETag
    ensures Inv(DoSwap(w, m, w.mounts[m], effect, reply))
  {
    SwapWritten(w, m, effect);
    var x := w.mounts[m];
    AnsweredKeeps(if effect then WriteRoot(w, x.flight.s) else w, m, x, x.flight.s, reply);
  }

  lemma AnsweredKeeps(w: World, m: MountId, x: Mount, s: Sealed, reply: SwapReply)
    requires InvBut(w, m)
    requires MountInv(w.bucket, w.hist, m, x.(flight := Reclaiming(s)))
    requires MountInv(w.bucket, w.hist, m, x.(flight := FallbackPutting(s)))
    requires reply.GotETag? ==> MountInv(w.bucket, w.hist, m, x.(flight := Applying(s, Some(s.rp))))
    ensures Inv(SwapAnswered(w, m, x, s, reply))
  {
    match reply
    case GotETag => PutKeeps(w, m, x.(flight := Applying(s, Some(s.rp))));
    case NoETag => RaiseDoubtKeeps(w, m, x, s, false);
    case Precondition => RaiseDoubtKeeps(w, m, x, s, true);
    case Unsupported => PutKeeps(w, m, x.(flight := if x.fallback then FallbackPutting(s) else Reclaiming(s)));
    case Transport => RaiseDoubtKeeps(w, m, x, s, true);
  }

  lemma ReclaimerIsWell(b: Bucket, h: History, m: MountId, x: Mount)
    requires MountInv(b, h, m, x) && x.flight.Reclaiming? && b.root != Some(x.flight.s.rp)
    ensures MountInv(b, h, m, x.(flight := Deleting(x.flight.s)))
  {
  }

  lemma ReclaimReadKeeps(w: World, m: MountId, read: Read)
    requires Inv(w) && m in w.mounts && w.mounts[m].flight.Reclaiming? && Honest(read, w.bucket.root)
    ensures Inv(DoReclaimRead(w, m, w.mounts[m], read))
  {
    var x := w.mounts[m];
    var s := x.flight.s;
    if read.NotFound? || (read.Answer? && Understood(read.body) && read.body.snapshot != Some(s.key)) {
      assert RecordInv(w.hist.sealed, s.key);
      ReclaimerIsWell(w.bucket, w.hist, m, x);
      PutKeeps(w, m, x.(flight := Deleting(s)));
    } else {
      RaiseDoubtKeeps(w, m, x, s, true);
    }
  }

  /** Deleting a snapshot the root does not name keeps the bucket. */
  lemma DeleteKeeps(w: World, w': World, m: MountId, k: Key)
    requires InvBut(w, m)
    requires w'.bucket == w.bucket.(snapshots := w.bucket.snapshots - {k}) && w'.hist == w.hist && w'.acked == w.acked
    requires forall n :: n in w'.mounts && n != m ==> n in w.mounts && w'.mounts[n] == w.mounts[n]
    requires k in w.hist.sealed ==> k.epoch <= |w.hist.chain| || w.hist.sealed[k].rp.writer == m
    requires w.bucket.root.Some? ==> w.bucket.root.value.snapshot != k
    ensures InvBut(w', m)
  {
    assert forall j :: j in w.bucket.snapshots ==> j in w.hist.sealed;
    OthersKeep(w, w', m);
  }

  lemma ReclaimDeleteKeeps(w: World, m: MountId, effect: bool)
    requires Inv(w) && m in w.mounts && w.mounts[m].flight.Deleting?
    ensures Inv(DoReclaimDelete(w, m, w.mounts[m], effect))
  {
    var x := w.mounts[m];
    var s := x.flight.s;
    var w1 := if effect then w.(bucket := w.bucket.(snapshots := w.bucket.snapshots - {s.key})) else w;
    if effect {
      DeleteKeeps(w, w1, m, s.key);
    }
    FailKeeps(w1, m, x);
  }

  lemma FallbackPutKeeps(w: World, m: MountId, effect: bool, ok: bool)
    requires Inv(w) && m in w.mounts && w.mounts[m].flight.FallbackPutting? && Alone(w.bucket, w.mounts[m])
    requires ok ==> effect
    ensures Inv(DoFallbackPut(w, m, w.mounts[m], effect, ok))
  {
    var x := w.mounts[m];
    var s := x.flight.s;
    var w1 := if effect && w.bucket.root != Some(s.rp) then WriteRoot(w, s) else w;
    FallbackWritten(w, m, effect);
    if ok {
      PutKeeps(w1, m, x.(flight := FallbackHeading(s)));
    } else {
      RaiseDoubtKeeps(w1, m, x, s, true);
    }
  }

  /** Alone, an unconditional write of the root does what the conditional one does. */
  lemma FallbackWritten(w: World, m: MountId, effect: bool)
    requires Inv(w) && m in w.mounts && w.mounts[m].flight.FallbackPutting? && Alone(w.bucket, w.mounts[m])
    ensures var x := w.mounts[m];
            var s := x.flight.s;
            var w1 := if effect && w.bucket.root != Some(s.rp) then WriteRoot(w, s) else w;
            && InvBut(w1, m)
            && MountInv(w1.bucket, w1.hist, m, x.(flight := Reclaiming(s)))
            && (effect ==> MountInv(w1.bucket, w1.hist, m, x.(flight := FallbackHeading(s))))
  {
    var x := w.mounts[m];
    var s := x.flight.s;
    if effect && w.bucket.root != Some(s.rp) {
      FallbackMoves(w, m, x, s);
    } else {
      WriterIsWell(w.bucket, w.hist, w.bucket, w.hist, m, x);
      if effect {
        assert RecordInv(w.hist.sealed, s.key);
        WrittenIsWell(w.bucket, w.hist, w.bucket, w.hist, m, x);
      }
    }
  }

  lemma FallbackMoves(w: World, m: MountId, x: Mount, s: Sealed)
    requires InvBut(w, m) && MountInv(w.bucket, w.hist, m, x) && x.flight == FallbackPutting(s)
    requires w.bucket.root == s.rootETag
    ensures var w1 := WriteRoot(w, s);
            && InvBut(w1, m)
            && MountInv(w1.bucket, w1.hist, m, x.(flight := Reclaiming(s)))
            && MountInv(w1.bucket, w1.hist, m, x.(flight := FallbackHeading(s)))
  {
    var w1 := WriteRoot(w, s);
    WriteRootKeeps(w, m, x, s);
    OthersKeep(w, w1, m);
    WriterIsWell(w.bucket, w.hist, w1.bucket, w1.hist, m, x);
    WrittenIsWell(w.bucket, w.hist, w1.bucket, w1.hist, m, x);
  }

  lemma FallbackHeadKeeps(w: World, m: MountId, gotETag: bool)
    requires Inv(w) && m in w.mounts && w.mounts[m].flight.FallbackHeading? && Alone(w.bucket, w.mounts[m])
    ensures Inv(DoFallbackHead(w, m, w.mounts[m], gotETag))
  {
    var x := w.mounts[m];
    var s := x.flight.s;
    if gotETag {
      PutKeeps(w, m, x.(flight := Applying(s, w.bucket.root)));
    } else {
      RaiseDoubtKeeps(w, m, x, s, false);
    }
  }

  /** A mount in doubt whose read shows its own attempt stands at that attempt,
      which is on the chain. */
  lemma OursIsWell(b: Bucket, h: History, m: MountId, x: Mount, read: Read)
    requires RecordsInv(h.sealed) && RootInv(b.root, h) && Positioned(h, x)
    requires x.knowledge == InDoubt && Honest(read, b.root)
    requires x.doubtKey.Some? && Attempt(h, m, x, x.doubtKey.value)
    requires ClassifyRoot(read, x.rootSnapshot, x.doubtKey).Ours?
    ensures var y := ResolveRoot(x, read).0;
            && Positioned(h, y) && y.rootSnapshot == x.doubtKey
            && y == x.(knowledge := Known, epoch := y.epoch, rootETag := y.rootETag,
                       rootSnapshot := y.rootSnapshot, doubtKey := None)
  {
    assert RecordInv(h.sealed, x.doubtKey.value);
  }

  /** A read that shows the root unchanged gives the ETag the mount should hold. */
  lemma UnchangedIsWell(b: Bucket, h: History, x: Mount, read: Read)
    requires RecordsInv(h.sealed) && RootInv(b.root, h) && Positioned(h, x)
    requires x.knowledge == InDoubt && Honest(read, b.root)
    requires ClassifyRoot(read, x.rootSnapshot, x.doubtKey).Unchanged?
    ensures ResolveRoot(x, read).0 == x.(knowledge := Known, doubtKey := None)
  {
    if read.Answer? {
      assert RecordInv(h.sealed, x.rootSnapshot.value);
    }
  }

  lemma AdoptedIsWell(b: Bucket, h: History, m: MountId, x: Mount, y: Mount)
    requires MountInv(b, h, m, x) && x.flight.Probing? && Positioned(h, y) && y.rootSnapshot == x.doubtKey
    requires y == x.(knowledge := Known, epoch := y.epoch, rootETag := y.rootETag,
                     rootSnapshot := y.rootSnapshot, doubtKey := None)
    ensures MountInv(b, h, m, y.(flight := Applying(x.flight.s, y.rootETag)))
  {
  }

  lemma FailedIsWell(b: Bucket, h: History, m: MountId, x: Mount, y: Mount)
    requires MountInv(b, h, m, x) && x.flight.Probing? && !x.opening
    requires y == x || y == x.(mode := Diverged) || y == x.(knowledge := Known, doubtKey := None)
    ensures MountInv(b, h, m, y.(flight := Idle))
  {
  }

  /** What the probe leaves, whatever its verdict, is a mount that is well once
      its commit has failed, or one whose success path is due. */
  lemma ProbedIsWell(b: Bucket, h: History, m: MountId, x: Mount, read: Read)
    requires RecordsInv(h.sealed) && RootInv(b.root, h) && MountInv(b, h, m, x)
    requires x.flight.Probing? && Honest(read, b.root)
    ensures var (y, v) := ResolveRoot(x, read);
            && (v.Ours? ==> MountInv(b, h, m, y.(flight := Applying(x.flight.s, y.rootETag))))
            && (!v.Ours? && !y.opening ==> MountInv(b, h, m, y.(flight := Idle)))
  {
    var y := ResolveRoot(x, read).0;
    match ClassifyRoot(read, x.rootSnapshot, x.doubtKey)
    case Ours =>
      OursIsWell(b, h, m, x, read);
      AdoptedIsWell(b, h, m, x, y);
    case _ =>
      NotOurs(b, h, x, read);
      if !x.opening { FailedIsWell(b, h, m, x, y); }
  }

  lemma NotOurs(b: Bucket, h: History, x: Mount, read: Read)
    requires RecordsInv(h.sealed) && RootInv(b.root, h) && Positioned(h, x) && Honest(read, b.root)
    requires x.knowledge == InDoubt && !ClassifyRoot(read, x.rootSnapshot, x.doubtKey).Ours?
    ensures var (y, v) := ResolveRoot(x, read);
            !v.Ours? && (y == x || y == x.(mode := Diverged) || y == x.(knowledge := Known, doubtKey := None))
  {
    if ClassifyRoot(read, x.rootSnapshot, x.doubtKey).Unchanged? { UnchangedIsWell(b, h, x, read); }
  }

  lemma ProbeKeeps(w: World, m: MountId, read: Read)
    requires Inv(w) && m in w.mounts && w.mounts[m].flight.Probing? && Honest(read, w.bucket.root)
    ensures Inv(DoProbe(w, m, w.mounts[m], read))
  {
    var x := w.mounts[m];
    ProbedIsWell(w.bucket, w.hist, m, x, read);
    var (y, v) := ResolveRoot(x, read);
    if v.Ours? {
      PutKeeps(w, m, y.(flight := Applying(x.flight.s, y.rootETag)));
    } else {
      FailKeeps(w, m, y);
    }
  }

  lemma TopProbedIsWell(b: Bucket, h: History, m: MountId, x: Mount, read: Read)
    requires RecordsInv(h.sealed) && RootInv(b.root, h) && MountInv(b, h, m, x) && Honest(read, b.root)
    requires x.flight.Idle? && x.dirty && x.mode == Writable && x.knowledge == InDoubt
    ensures MountInv(b, h, m, ResolveRoot(x, read).0)
  {
    match ClassifyRoot(read, x.rootSnapshot, x.doubtKey)
    case Ours => OursIsWell(b, h, m, x, read);
    case Unchanged => UnchangedIsWell(b, h, x, read);
    case Theirs =>
    case Undecided =>
  }

  lemma TopProbeKeeps(w: World, m: MountId, read: Read)
    requires Inv(w) && Enabled(w, TopProbe(m, read))
    ensures Inv(Do(w, TopProbe(m, read)))
  {
    TopProbedIsWell(w.bucket, w.hist, m, w.mounts[m], read);
    PutKeeps(w, m, ResolveRoot(w.mounts[m], read).0);
  }

  lemma AppliedIsWell(b: Bucket, h: History, m: MountId, x: Mount)
    requires RecordsInv(h.sealed) && MountInv(b, h, m, x) && x.flight.Applying?
    ensures MountInv(b, h, m, ApplyLocked(x, x.flight.s, x.flight.etag))
  {
    assert RecordInv(h.sealed, x.flight.s.key);
  }

  lemma ApplyKeeps(w: World, m: MountId)
    requires Inv(w) && m in w.mounts && w.mounts[m].flight.Applying?
    ensures Inv(Succeed(w, m, w.mounts[m], w.mounts[m].flight.s, w.mounts[m].flight.etag))
  {
    var x := w.mounts[m];
    AppliedIsWell(w.bucket, w.hist, m, x);
    PutKeeps(w.(acked := w.acked + {x.flight.s.key}), m, ApplyLocked(x, x.flight.s, x.flight.etag));
  }

  /** Every key a pass for `current` has doomed sorts below the key the root
      names, since the chain's epochs only rise. */
  lemma DoomedBelowRoot(b: Bucket, h: History, current: Key, k: Key)
    requires BucketInv(b, h) && OnChain(h, current) && KeyLess(k, current)
    ensures b.root.Some? && KeyLess(k, b.root.value.snapshot)
  {
    assert RecordInv(h.sealed, current);
  }

  /** The state of a pass does not matter to the rest of its mount. */
  lemma PasserIsWell(b: Bucket, h: History, b': Bucket, m: MountId, x: Mount, prune: Prune)
    requires MountInv(b, h, m, x) && x.prune != NoPass && PruneInv(h, prune)
    requires b'.root == b.root && b'.chunks == b.chunks
    requires forall k :: k in b.snapshots && k !in b'.snapshots ==> k.epoch <= |h.chain|
    ensures MountInv(b', h, m, x.(prune := prune))
  {
  }

  lemma PruneDeleteKeeps(w: World, m: MountId, effect: bool)
    requires Inv(w) && m in w.mounts && w.mounts[m].prune.Pruning? && w.mounts[m].prune.doomed != []
    ensures Inv(DoPruneDelete(w, m, w.mounts[m], effect))
  {
    var x := w.mounts[m];
    var k := x.prune.doomed[0];
    var b := w.bucket.(snapshots := w.bucket.snapshots - {k});
    assert MountInv(w.bucket, w.hist, m, x);
    var prune := Pruning(x.prune.current, x.prune.doomed[1..]);
    if effect {
      DoomedDeleted(w, w.(bucket := b), m, x.prune.current, k);
      PasserIsWell(w.bucket, w.hist, b, m, x, prune);
      PutKeeps(w.(bucket := b), m, x.(prune := prune));
    } else {
      PasserIsWell(w.bucket, w.hist, w.bucket, m, x, prune);
      PutKeeps(w, m, x.(prune := prune));
    }
  }

  lemma DoomedDeleted(w: World, w': World, m: MountId, current: Key, k: Key)
    requires InvBut(w, m) && OnChain(w.hist, current) && KeyLess(k, current)
    requires w' == w.(bucket := w.bucket.(snapshots := w.bucket.snapshots - {k}))
    ensures InvBut(w', m) && k.epoch <= |w.hist.chain|
  {
    DoomedBelowRoot(w.bucket, w.hist, current, k);
    DeleteKeeps(w, w', m, k);
  }

  lemma PruneTurnKeeps(w: World, step: Step)
    requires Inv(w) && (step.PruneList? || step.PruneEnd?) && Enabled(w, step)
    ensures Inv(Do(w, step))
  {
    var x := w.mounts[step.m];
    assert MountInv(w.bucket, w.hist, step.m, x);
    var prune := if step.PruneList? then Pruning(x.prune.current, step.doomed) else NoPass;
    PasserIsWell(w.bucket, w.hist, w.bucket, step.m, x, prune);
    PutKeeps(w, step.m, x.(prune := prune));
  }

  lemma CrashKeeps(w: World, m: MountId)
    requires Inv(w) && m in w.mounts
    ensures Inv(Do(w, Crash(m)))
  {
  }

  predicate OfFlight(step: Step) {
    || step.PutSnapshot? || step.Swap? || step.ReclaimRead? || step.ReclaimDelete?
    || step.FallbackPut? || step.FallbackHead? || step.Probe? || step.Apply?
  }

  lemma FlightStepKeeps(w: World, step: Step)
    requires Inv(w) && Enabled(w, step) && OfFlight(step) && Alone(w.bucket, w.mounts[step.m])
    ensures Inv(Do(w, step))
  {
    match step
    case PutSnapshot(m, effect, ok) => PutSnapshotKeeps(w, m, effect, ok);
    case Swap(m, effect, reply) => SwapKeeps(w, m, effect, reply);
    case ReclaimRead(m, read) => ReclaimReadKeeps(w, m, read);
    case ReclaimDelete(m, effect) => ReclaimDeleteKeeps(w, m, effect);
    case FallbackPut(m, effect, ok) => FallbackPutKeeps(w, m, effect, ok);
    case FallbackHead(m, gotETag) => FallbackHeadKeeps(w, m, gotETag);
    case Probe(m, read) => ProbeKeeps(w, m, read);
    case Apply(m) => ApplyKeeps(w, m);
  }

  /** Every step keeps the invariant, given that a fallback is taken alone. */
  lemma StepKeeps(w: World, step: Step)
    requires Inv(w) && Enabled(w, step)
    requires step.m in w.mounts ==> Alone(w.bucket, w.mounts[step.m])
    ensures Inv(Do(w, step))
  {
    if OfFlight(step) {
      FlightStepKeeps(w, step);
    } else {
      match step
      case LoadRoot(_, _, _, _, _, _) => LoadRootKeeps(w, step);
      case LoadSnapshot(m) => LoadSnapshotKeeps(w, m);
      case Mutate(m, made, refs) => MutateKeeps(w, m, made, refs);
      case PutChunk(m, chunk, effect, ok) => PutChunkKeeps(w, m, chunk, effect, ok);
      case Seal(m, nonce) => SealStepKeeps(w, m, nonce);
      case TopProbe(m, read) => TopProbeKeeps(w, m, read);
      case PruneList(_, _) => PruneTurnKeeps(w, step);
      case PruneDelete(m, effect) => PruneDeleteKeeps(w, m, effect);
      case PruneEnd(_) => PruneTurnKeeps(w, step);
      case Crash(m) => CrashKeeps(w, m);
    }
  }
}
