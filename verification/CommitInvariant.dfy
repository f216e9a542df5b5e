/** What every step of the commit protocol keeps, over any number of mounts. */
module CommitInvariant {
  import opened Wrappers
  import opened Machines
  import opened CommitProtocol

  // The history.

  /** k is one of the keys the root has named. Root epochs start at 1 and rise
      by exactly one, so the key's epoch is its place. */
  predicate OnChain(h: History, k: Key) {
    1 <= k.epoch <= |h.chain| && h.chain[k.epoch - 1] == k
  }

  type Seals = map<Key, Record>

  function LogOf(sealed: Seals, k: Key): seq<Change>
    requires k in sealed
  {
    sealed[k].snap.ns.log
  }

  /** What was sealed under k: its epoch, the body that names it, and that its
      namespace descends from the snapshot the root named before. */
  predicate RecordInv(sealed: Seals, k: Key)
    requires k in sealed
  {
    var r := sealed[k];
    && r.snap.epoch == k.epoch < MAX_EPOCH && k.nonce < MAX_NONCE
    && r.rp == RootPointer(k.epoch, k, r.rp.writer)
    && match r.parent
       case None => k.epoch == 1
       case Some(p) => p in sealed && k.epoch == p.epoch + 1 && 1 <= p.epoch && LogOf(sealed, p) <= LogOf(sealed, k)
  }

  predicate RecordsInv(sealed: Seals) {
    forall k {:trigger RecordInv(sealed, k)} :: k in sealed ==> RecordInv(sealed, k)
  }

  /** The i-th key the root named was sealed from the one before it. */
  predicate Link(h: History, i: nat)
    requires 0 < i < |h.chain| && h.chain[i] in h.sealed
  {
    h.sealed[h.chain[i]].parent == Some(h.chain[i - 1])
  }

  /** The chain: each key the root named was sealed from the one before it,
      and its log extends every earlier one. */
  predicate ChainInv(h: History) {
    && (forall i :: 0 <= i < |h.chain| ==> h.chain[i].epoch == i + 1 && h.chain[i] in h.sealed)
    && (forall i {:trigger Link(h, i)} :: 0 < i < |h.chain| ==> Link(h, i))
    && (forall i, j :: 0 <= i <= j < |h.chain| ==> LogOf(h.sealed, h.chain[i]) <= LogOf(h.sealed, h.chain[j]))
  }

  predicate HistoryInv(h: History) {
    RecordsInv(h.sealed) && ChainInv(h)
  }

  // The bucket.

  /** The root names the last key of the chain. */
  predicate RootInv(root: Option<RootPointer>, h: History) {
    match root
    case None => h.chain == []
    case Some(rp) =>
      && OnChain(h, rp.snapshot) && rp.snapshot.epoch == |h.chain|
      && rp.snapshot in h.sealed && h.sealed[rp.snapshot].rp == rp
  }

  /** The snapshot the root names is stored. */
  predicate RootStored(b: Bucket) {
    b.root.Some? ==> b.root.value.snapshot in b.snapshots
  }

  predicate StoredInv(b: Bucket, h: History) {
    && (forall k :: k in b.snapshots ==> k in h.sealed && b.snapshots[k] == h.sealed[k].snap)
    && (forall k :: k in h.sealed ==> h.sealed[k].snap.ns.refs <= b.chunks)
  }

  // A mount.

  /** The mount's epoch, ETag and namespace descend from the root pointer that
      named rootSnapshot. */
  predicate Positioned(h: History, x: Mount) {
    match x.rootSnapshot
    case None => x.rootETag.None? && x.epoch == 0
    case Some(k) =>
      && OnChain(h, k) && k in h.sealed
      && x.rootETag == Some(h.sealed[k].rp) && x.epoch == k.epoch
      && LogOf(h.sealed, k) <= x.ns.log
  }

  /** k was sealed by m from the namespace x had, at its present position. */
  predicate Attempt(h: History, m: MountId, x: Mount, k: Key) {
    && k in h.sealed && k.epoch == x.epoch + 1
    && h.sealed[k].parent == x.rootSnapshot
    && h.sealed[k].rp.writer == m
    && LogOf(h.sealed, k) <= x.ns.log
  }

  /** s is what was sealed, and nothing changed since if the counts agree. */
  predicate SealInv(h: History, m: MountId, x: Mount, s: Sealed) {
    && s.key in h.sealed && s.epoch == s.key.epoch
    && h.sealed[s.key].snap == s.snap && h.sealed[s.key].rp == s.rp && s.rp.writer == m
    && LogOf(h.sealed, s.key) <= x.ns.log
    && s.changes <= x.changes
    && (s.changes == x.changes ==> s.snap.ns == x.ns)
  }

  predicate Ready(h: History, m: MountId, x: Mount, s: Sealed) {
    SealInv(h, m, x, s) && Attempt(h, m, x, s.key) && s.rootETag == x.rootETag
  }

  /** The attempt's snapshot is stored, unless the root is already past it. */
  predicate Swappable(b: Bucket, h: History, s: Sealed) {
    s.key in b.snapshots || s.key.epoch <= |h.chain|
  }

  predicate FlightInv(b: Bucket, h: History, m: MountId, x: Mount) {
    match x.flight
    case Idle => !x.opening
    case Loading(rp) =>
      && !x.opening && !x.dirty && x.rootSnapshot.None? && x.ns == Namespace([], {})
      && OnChain(h, rp.snapshot) && rp.snapshot in h.sealed && h.sealed[rp.snapshot].rp == rp
    case Putting(s) => Ready(h, m, x, s)
    case Swapping(s) => Ready(h, m, x, s) && Swappable(b, h, s)
    case Reclaiming(s) => Ready(h, m, x, s)
    case Deleting(s) => Ready(h, m, x, s) && b.root != Some(s.rp)
    case FallbackPutting(s) => Ready(h, m, x, s) && Swappable(b, h, s)
    case FallbackHeading(s) => Ready(h, m, x, s) && OnChain(h, s.key)
    case Probing(s) => Ready(h, m, x, s) && x.doubtKey == Some(s.key)
    case Applying(s, etag) => SealInv(h, m, x, s) && OnChain(h, s.key) && etag == Some(s.rp)
  }

  /** In doubt, doubtKey names an attempt from the present position; only a
      probe is in flight, or nothing is. */
  predicate DoubtInv(h: History, m: MountId, x: Mount) {
    match x.knowledge
    case Known => x.doubtKey.None? && !x.flight.Probing?
    case InDoubt =>
      && x.doubtKey.Some? && Attempt(h, m, x, x.doubtKey.value)
      && (x.flight.Idle? || x.flight.Probing?)
  }

  /** A clean mount holds exactly what the root named: nothing changed since
      the seal of the snapshot it descends from. */
  predicate CleanInv(h: History, x: Mount) {
    && (x.dirty || x.opening || x.flight.Loading? || x.flight.Idle?)
    && (!x.dirty && !x.opening && x.flight.Idle? ==>
          && x.knowledge == Known
          && x.rootSnapshot.Some? && x.rootSnapshot.value in h.sealed
          && h.sealed[x.rootSnapshot.value].snap.ns == x.ns)
  }

  predicate PruneInv(h: History, p: Prune) {
    match p
    case NoPass => true
    case Listing(c) => OnChain(h, c)
    case Pruning(c, doomed) => OnChain(h, c) && forall k :: k in doomed ==> KeyLess(k, c)
  }

  predicate ModeInv(x: Mount) {
    && (x.mode == ReadOnly ==> !x.dirty && !x.opening && x.prune.NoPass? && (x.flight.Idle? || x.flight.Loading?))
    && (x.mode == Diverged ==> x.knowledge == InDoubt && x.flight.Idle?)
  }

  predicate MountInv(b: Bucket, h: History, m: MountId, x: Mount) {
    && Positioned(h, x)
    && FlightInv(b, h, m, x)
    && DoubtInv(h, m, x)
    && CleanInv(h, x)
    && PruneInv(h, x.prune)
    && ModeInv(x)
    && x.known <= b.chunks && x.ns.refs <= b.chunks
  }

  predicate BucketInv(b: Bucket, h: History) {
    HistoryInv(h) && RootInv(b.root, h) && RootStored(b) && StoredInv(b, h)
  }

  predicate AckedInv(acked: set<Key>, h: History) {
    forall k :: k in acked ==> OnChain(h, k)
  }

  predicate InvBut(w: World, m: MountId) {
    && BucketInv(w.bucket, w.hist)
    && AckedInv(w.acked, w.hist)
    && forall n :: n in w.mounts && n != m ==> MountInv(w.bucket, w.hist, n, w.mounts[n])
  }

  predicate Inv(w: World) {
    && BucketInv(w.bucket, w.hist)
    && AckedInv(w.acked, w.hist)
    && forall m :: m in w.mounts ==> MountInv(w.bucket, w.hist, m, w.mounts[m])
  }

  // What a step may do to the mounts that do not take it.

  predicate Extends(h: History, h': History) {
    && (forall k :: k in h.sealed ==> k in h'.sealed && h'.sealed[k] == h.sealed[k])
    && h.chain <= h'.chain
  }

  /** History and chunks only grow; a stored snapshot goes only when the root
      is already at or past its epoch, or with the mount that sealed it; and the
      root moves only to an attempt of that mount. */
  predicate Grows(b: Bucket, h: History, b': Bucket, h': History, actor: MountId) {
    && Extends(h, h')
    && b.chunks <= b'.chunks
    && (forall k :: k in b.snapshots && k !in b'.snapshots ==>
          k.epoch <= |h'.chain| || (k in h.sealed && h.sealed[k].rp.writer == actor))
    && (b'.root == b.root || (b'.root.Some? && b'.root.value.writer == actor))
  }

  lemma FlightStable(b: Bucket, h: History, b': Bucket, h': History, actor: MountId, m: MountId, x: Mount)
    requires FlightInv(b, h, m, x) && Grows(b, h, b', h', actor) && m != actor
    ensures FlightInv(b', h', m, x)
  {
  }

  lemma OtherMountKeeps(b: Bucket, h: History, b': Bucket, h': History, actor: MountId, m: MountId, x: Mount)
    requires MountInv(b, h, m, x) && Grows(b, h, b', h', actor) && m != actor
    ensures MountInv(b', h', m, x)
  {
    FlightStable(b, h, b', h', actor, m, x);
  }

  /** What a step of m does to the bucket keeps every other mount. */
  lemma OthersKeep(w: World, w': World, m: MountId)
    requires InvBut(w, m) && Grows(w.bucket, w.hist, w'.bucket, w'.hist, m)
    requires BucketInv(w'.bucket, w'.hist) && AckedInv(w'.acked, w'.hist)
    requires forall n :: n in w'.mounts && n != m ==> n in w.mounts && w'.mounts[n] == w.mounts[n]
    ensures InvBut(w', m)
  {
    forall n | n in w'.mounts && n != m
      ensures MountInv(w'.bucket, w'.hist, n, w'.mounts[n])
    {
      OtherMountKeeps(w.bucket, w.hist, w'.bucket, w'.hist, m, n, w.mounts[n]);
    }
  }
}
