/** The commit protocol as a step system over one bucket and any number of
    mounts. Every store call and every hold of a mount's namespace lock is one
    step; what the bucket does with a write, and the reply it gives, are
    parameters of the step, so a run ranges over every lost, refused and
    misreported reply. */
module CommitProtocol {
  import opened Wrappers
  import opened Machines

  type MountId = nat
  type Change = nat  // one change to a namespace
  type Chunk = nat   // one stored chunk, by its hash

  /** A snapshot key: its epoch and its random part. */
  datatype Key = Key(epoch: nat, nonce: nat)

  predicate KeyLess(a: Key, b: Key) {
    a.epoch < b.epoch || (a.epoch == b.epoch && a.nonce < b.nonce)
  }

  /** A namespace, as the changes that made it and the chunks it names. */
  datatype Namespace = Namespace(log: seq<Change>, refs: set<Chunk>)

  datatype Snapshot = Snapshot(epoch: nat, ns: Namespace)

  /** The root pointer. An ETag identifies the body it was given for, so an
      ETag is the body itself; None is the empty ETag. */
  datatype RootPointer = RootPointer(epoch: nat, snapshot: Key, writer: MountId)

  datatype Bucket = Bucket(root: Option<RootPointer>, snapshots: map<Key, Snapshot>, chunks: set<Chunk>)

  // What the store answers.

  const VERSION := 1

  /** The body of an object read at the root key. An empty snapshot field is None. */
  datatype Body = NotJson | Pointer(version: int, epoch: nat, snapshot: Option<Key>, writer: MountId)

  datatype Read = NotFound | Failed | Answer(body: Body, etag: Option<RootPointer>)

  predicate Understood(b: Body) {
    b.Pointer? && b.version == VERSION && b.snapshot.Some?
  }

  /** A read is honest about a root pointer it shows, and about there being
      none; it may always fail, omit the ETag or give some other document. */
  predicate Honest(r: Read, root: Option<RootPointer>) {
    match r
    case NotFound => root.None?
    case Failed => true
    case Answer(b, etag) =>
      Understood(b) ==>
        && root == Some(RootPointer(b.epoch, b.snapshot.value, b.writer))
        && (etag.None? || etag == root)
  }

  datatype SwapReply = GotETag | NoETag | Precondition | Unsupported | Transport

  // A mount.

  /** One commit attempt as the seal fixed it. */
  datatype Sealed = Sealed(epoch: nat, key: Key, snap: Snapshot, rp: RootPointer,
                           rootETag: Option<RootPointer>, changes: nat)

  /** Where the mount's one load or commit has got to. */
  datatype Flight =
    | Idle
    | Loading(root: RootPointer)                          // root read, its snapshot not yet
    | Putting(s: Sealed)                                  // sealed, snapshot not yet stored
    | Swapping(s: Sealed)                                 // snapshot stored, root not yet written
    | Reclaiming(s: Sealed)                               // swap answered 501, root not yet read
    | Deleting(s: Sealed)                                 // that read showed another root
    | FallbackPutting(s: Sealed)                          // unconditional write not yet made
    | FallbackHeading(s: Sealed)                          // made, its ETag not yet read
    | Probing(s: Sealed)                                  // in doubt, root not yet read
    | Applying(s: Sealed, etag: Option<RootPointer>)      // took effect, not yet applied

  datatype Prune = NoPass | Listing(current: Key) | Pruning(current: Key, doomed: seq<Key>)

  datatype Mount = Mount(
    mode: Mode, knowledge: Knowledge, epoch: nat,
    rootETag: Option<RootPointer>, rootSnapshot: Option<Key>, doubtKey: Option<Key>,
    ns: Namespace, dirty: bool, changes: nat, known: set<Chunk>,
    retention: nat, fallback: bool,
    opening: bool,  // New has not returned yet: a failed commit is a failed New
    flight: Flight, prune: Prune)

  /** What was sealed under a key: the history no pruning erases. */
  datatype Record = Record(snap: Snapshot, rp: RootPointer, parent: Option<Key>)

  /** Every seal there has been, and the keys the root has named, in order. */
  datatype History = History(sealed: map<Key, Record>, chain: seq<Key>)

  /** The bucket, the live mounts, the history, and the commits that returned nil. */
  datatype World = World(bucket: Bucket, mounts: map<MountId, Mount>, hist: History, acked: set<Key>)

  const INIT := World(Bucket(None, map[], {}), map[], History(map[], []), {})

  // The pieces of the code each step is made of.

  datatype Verdict = Ours | Unchanged | Theirs | Undecided

  function ClassifyRoot(r: Read, rootSnapshot: Option<Key>, doubtKey: Option<Key>): (v: Verdict)
  {
    match r
    case NotFound => if rootSnapshot.None? then Unchanged else Theirs
    case Failed => Undecided
    case Answer(b, etag) =>
      if !Understood(b) then Undecided
      else if b.snapshot == doubtKey then (if etag.None? then Undecided else Ours)
      else if b.snapshot == rootSnapshot then (if etag.None? then Undecided else Unchanged)
      else Theirs
  }

  /** seal: fixes the attempt at the next epoch under a new key. */
  function SealOf(m: MountId, x: Mount, nonce: nat): Sealed {
    var key := Key(x.epoch + 1, nonce);
    Sealed(x.epoch + 1, key, Snapshot(x.epoch + 1, x.ns),
           RootPointer(x.epoch + 1, key, m), x.rootETag, x.changes)
  }

  /** applyLocked: the success path of a commit. */
  function ApplyLocked(x: Mount, s: Sealed, etag: Option<RootPointer>): Mount {
    x.(epoch := s.epoch, rootETag := etag, rootSnapshot := Some(s.key),
       dirty := x.changes != s.changes, opening := false, flight := Idle,
       prune := if x.prune == NoPass && x.retention != 0 then Listing(s.key) else x.prune)
  }

  /** resolveRoot's hold: the verdict on one read, applied. A refused Fire
      leaves the mount as it was and counts as undecided. */
  function ResolveRoot(x: Mount, r: Read): (Mount, Verdict) {
    var v := ClassifyRoot(r, x.rootSnapshot, x.doubtKey);
    match v
    case Ours =>
      (match RootNext(x.knowledge, SawOurs)
       case None => (x, Undecided)
       case Some(k) =>
         // the body names a snapshot, or the verdict would be another
         (x.(knowledge := k, epoch := if r.Answer? && r.body.Pointer? then r.body.epoch else x.epoch,
             rootETag := if r.Answer? then r.etag else None,
             rootSnapshot := x.doubtKey, doubtKey := None), Ours))
    case Unchanged =>
      (match RootNext(x.knowledge, SawUnchanged)
       case None => (x, Undecided)
       case Some(k) =>
         (x.(knowledge := k, rootETag := if r.Answer? then r.etag else None, doubtKey := None), Unchanged))
    case Theirs =>
      (match ModeNext(x.mode)
       case None => (x, Theirs)
       case Some(mode) => (x.(mode := mode), Theirs))
    case Undecided => (x, Undecided)
  }

  // The steps.

  datatype Step =
    | LoadRoot(m: MountId, readOnly: bool, fallback: bool, retention: nat, nonce: nat, read: Read)
    | LoadSnapshot(m: MountId)
    | Mutate(m: MountId, made: seq<Change>, refs: set<Chunk>)
    | PutChunk(m: MountId, chunk: Chunk, effect: bool, ok: bool)
    | Seal(m: MountId, nonce: nat)
    | PutSnapshot(m: MountId, effect: bool, ok: bool)
    | Swap(m: MountId, effect: bool, reply: SwapReply)
    | ReclaimRead(m: MountId, read: Read)
    | ReclaimDelete(m: MountId, effect: bool)
    | FallbackPut(m: MountId, effect: bool, ok: bool)
    | FallbackHead(m: MountId, gotETag: bool)
    | Probe(m: MountId, read: Read)
    | TopProbe(m: MountId, read: Read)
    | Apply(m: MountId)
    | PruneList(m: MountId, doomed: seq<Key>)
    | PruneDelete(m: MountId, effect: bool)
    | PruneEnd(m: MountId)
    | Crash(m: MountId)

  const MAX_EPOCH := 0x1_0000_0000_0000_0000  // epochs are uint64
  const MAX_NONCE := 0x1_0000_0000_0000       // a nonce is six bytes

  /** Keys are drawn at random; a run in which one repeats is not considered. */
  predicate Drawable(w: World, k: Key) {
    k.epoch < MAX_EPOCH && k.nonce < MAX_NONCE && k !in w.hist.sealed
  }

  predicate Enabled(w: World, step: Step) {
    if step.LoadRoot? then
      && step.m !in w.mounts
      && Honest(step.read, w.bucket.root)
      && (step.read.NotFound? && !step.readOnly ==> Drawable(w, Key(1, step.nonce)))
    else
      && step.m in w.mounts
      && var x := w.mounts[step.m];
      match step
      case LoadSnapshot(_) => x.flight.Loading?
      case Mutate(_, _, refs) =>
        x.mode != ReadOnly && !x.flight.Loading? && !x.opening && refs <= x.ns.refs + x.known
      case PutChunk(_, _, effect, ok) => x.mode != ReadOnly && !x.flight.Loading? && (ok ==> effect)
      case Seal(_, nonce) =>
        && x.flight.Idle? && x.dirty && x.mode != Diverged && x.knowledge == Known
        && Drawable(w, Key(x.epoch + 1, nonce))
      case PutSnapshot(_, effect, ok) => x.flight.Putting? && (ok ==> effect)
      case Swap(_, effect, reply) =>
        && x.flight.Swapping?
        && (reply.GotETag? ==> effect)
        && (effect ==> w.bucket.root == x.flight.s.rootETag)
      case ReclaimRead(_, read) => x.flight.Reclaiming? && Honest(read, w.bucket.root)
      case ReclaimDelete(_, _) => x.flight.Deleting?
      case FallbackPut(_, effect, ok) => x.flight.FallbackPutting? && (ok ==> effect)
      case FallbackHead(_, gotETag) => x.flight.FallbackHeading? && (gotETag ==> w.bucket.root.Some?)
      case Probe(_, read) => x.flight.Probing? && Honest(read, w.bucket.root)
      case TopProbe(_, read) =>
        && x.flight.Idle? && x.dirty && x.mode != Diverged && x.knowledge == InDoubt
        && Honest(read, w.bucket.root)
      case Apply(_) => x.flight.Applying?
      case PruneList(_, doomed) =>
        x.prune.Listing? && forall k :: k in doomed ==> KeyLess(k, x.prune.current)
      case PruneDelete(_, _) => x.prune.Pruning? && x.prune.doomed != []
      case PruneEnd(_) => x.prune.Listing? || (x.prune.Pruning? && x.prune.doomed == [])
      case Crash(_) => true
  }

  /** A commit of m that returned an error: the mount is idle again, or gone
      with the New that made it. */
  function Fail(w: World, m: MountId, x: Mount): World {
    if x.opening then w.(mounts := w.mounts - {m}) else w.(mounts := w.mounts[m := x.(flight := Idle)])
  }

  function Put(w: World, m: MountId, x: Mount): World {
    w.(mounts := w.mounts[m := x])
  }

  /** The commit takes its success path and returns nil. */
  function Succeed(w: World, m: MountId, x: Mount, s: Sealed, etag: Option<RootPointer>): World {
    w.(mounts := w.mounts[m := ApplyLocked(x, s, etag)], acked := w.acked + {s.key})
  }

  /** A write of the root pointer takes effect. */
  function WriteRoot(w: World, s: Sealed): World {
    w.(bucket := w.bucket.(root := Some(s.rp)), hist := w.hist.(chain := w.hist.chain + [s.key]))
  }

  /** The hold that raises the doubt. A refused Fire answers the outcome as
      before: an error, or, with no old error, the success path with no ETag. */
  function RaiseDoubt(w: World, m: MountId, x: Mount, s: Sealed, oldErr: bool): World {
    match RootNext(x.knowledge, SwapUnknown)
    case Some(k) => Put(w, m, x.(doubtKey := Some(s.key), knowledge := k, flight := Probing(s)))
    case None =>
      var y := x.(doubtKey := None);
      if oldErr then Fail(w, m, y) else Succeed(w, m, y, s, None)
  }

  /** seal, and the record of it. */
  function DoSeal(w: World, m: MountId, x: Mount, nonce: nat): World {
    var s := SealOf(m, x, nonce);
    w.(mounts := w.mounts[m := x.(flight := Putting(s))],
       hist := w.hist.(sealed := w.hist.sealed[s.key := Record(s.snap, s.rp, x.rootSnapshot)]))
  }

  function NewMount(step: Step): Mount
    requires step.LoadRoot?
  {
    Mount(if step.readOnly then ReadOnly else Writable, Known, 0, None, None, None,
          Namespace([], {}), false, 0, {}, step.retention, step.fallback, false, Idle, NoPass)
  }

  function DoLoadRoot(w: World, step: Step): World
    requires step.LoadRoot?
  {
    var x := NewMount(step);
    match step.read
    case NotFound => if step.readOnly then w else DoSeal(w, step.m, x.(opening := true), step.nonce)
    case Failed => w
    case Answer(b, etag) =>
      if !Understood(b) || etag.None? then w
      else Put(w, step.m, x.(flight := Loading(RootPointer(b.epoch, b.snapshot.value, b.writer))))
  }

  function DoLoadSnapshot(w: World, m: MountId, x: Mount): World
    requires x.flight.Loading?
  {
    var rp := x.flight.root;
    if rp.snapshot !in w.bucket.snapshots then w.(mounts := w.mounts - {m})
    else
      var snap := w.bucket.snapshots[rp.snapshot];
      Put(w, m, x.(ns := snap.ns, epoch := snap.epoch, rootETag := Some(rp),
                   rootSnapshot := Some(rp.snapshot), flight := Idle))
  }

  function DoPutSnapshot(w: World, m: MountId, x: Mount, effect: bool, ok: bool): World
    requires x.flight.Putting?
  {
    var s := x.flight.s;
    var w1 := if effect then w.(bucket := w.bucket.(snapshots := w.bucket.snapshots[s.key := s.snap])) else w;
    if ok then Put(w1, m, x.(flight := Swapping(s))) else Fail(w1, m, x)
  }

  function DoSwap(w: World, m: MountId, x: Mount, effect: bool, reply: SwapReply): World
    requires x.flight.Swapping?
  {
    SwapAnswered(if effect then WriteRoot(w, x.flight.s) else w, m, x, x.flight.s, reply)
  }

  /** What the mount makes of the swap's reply, whatever the swap did. */
  function SwapAnswered(w: World, m: MountId, x: Mount, s: Sealed, reply: SwapReply): World {
    match reply
    case GotETag =>
      // a self-loop; the success path follows whether or not the Fire is refused
      Put(w, m, x.(flight := Applying(s, Some(s.rp))))
    case NoETag => RaiseDoubt(w, m, x, s, false)
    case Precondition => RaiseDoubt(w, m, x, s, true)
    case Unsupported =>
      if x.fallback then Put(w, m, x.(flight := FallbackPutting(s)))
      else Put(w, m, x.(flight := Reclaiming(s)))
    case Transport => RaiseDoubt(w, m, x, s, true)
  }

  /** The reclaim's Get: only a read that positively shows another root, or
      none, leads to the Delete; any other leaves the root in doubt. */
  function DoReclaimRead(w: World, m: MountId, x: Mount, read: Read): World
    requires x.flight.Reclaiming?
  {
    var s := x.flight.s;
    if read.NotFound? || (read.Answer? && Understood(read.body) && read.body.snapshot != Some(s.key))
    then Put(w, m, x.(flight := Deleting(s)))
    else RaiseDoubt(w, m, x, s, true)
  }

  function DoReclaimDelete(w: World, m: MountId, x: Mount, effect: bool): World
    requires x.flight.Deleting?
  {
    var s := x.flight.s;
    var w1 := if effect then w.(bucket := w.bucket.(snapshots := w.bucket.snapshots - {s.key})) else w;
    Fail(w1, m, x)
  }

  function DoFallbackPut(w: World, m: MountId, x: Mount, effect: bool, ok: bool): World
    requires x.flight.FallbackPutting?
  {
    var s := x.flight.s;
    // the root may already name the attempt, if the 501 took effect
    var w1 := if effect && w.bucket.root != Some(s.rp) then WriteRoot(w, s) else w;
    if ok then Put(w1, m, x.(flight := FallbackHeading(s))) else RaiseDoubt(w1, m, x, s, true)
  }

  function DoFallbackHead(w: World, m: MountId, x: Mount, gotETag: bool): World
    requires x.flight.FallbackHeading?
  {
    var s := x.flight.s;
    if gotETag then Put(w, m, x.(flight := Applying(s, w.bucket.root))) else RaiseDoubt(w, m, x, s, false)
  }

  function DoProbe(w: World, m: MountId, x: Mount, read: Read): World
    requires x.flight.Probing?
  {
    var s := x.flight.s;
    var (y, v) := ResolveRoot(x, read);
    if v == Ours then Put(w, m, y.(flight := Applying(s, y.rootETag))) else Fail(w, m, y)
  }

  function DoPruneDelete(w: World, m: MountId, x: Mount, effect: bool): World
    requires x.prune.Pruning? && x.prune.doomed != []
  {
    var k := x.prune.doomed[0];
    var w1 := if effect then w.(bucket := w.bucket.(snapshots := w.bucket.snapshots - {k})) else w;
    Put(w1, m, x.(prune := Pruning(x.prune.current, x.prune.doomed[1..])))
  }

  function Do(w: World, step: Step): World
    requires Enabled(w, step)
  {
    if step.LoadRoot? then DoLoadRoot(w, step)
    else
      var m := step.m;
      var x := w.mounts[m];
      match step
      case LoadSnapshot(_) => DoLoadSnapshot(w, m, x)
      case Mutate(_, made, refs) =>
        Put(w, m, x.(ns := Namespace(x.ns.log + made, refs), dirty := true, changes := x.changes + 1))
      case PutChunk(_, chunk, effect, ok) =>
        var w1 := if effect then w.(bucket := w.bucket.(chunks := w.bucket.chunks + {chunk})) else w;
        Put(w1, m, if ok then x.(known := x.known + {chunk}) else x)
      case Seal(_, nonce) => DoSeal(w, m, x, nonce)
      case PutSnapshot(_, effect, ok) => DoPutSnapshot(w, m, x, effect, ok)
      case Swap(_, effect, reply) => DoSwap(w, m, x, effect, reply)
      case ReclaimRead(_, read) => DoReclaimRead(w, m, x, read)
      case ReclaimDelete(_, effect) => DoReclaimDelete(w, m, x, effect)
      case FallbackPut(_, effect, ok) => DoFallbackPut(w, m, x, effect, ok)
      case FallbackHead(_, gotETag) => DoFallbackHead(w, m, x, gotETag)
      case Probe(_, read) => DoProbe(w, m, x, read)
      case TopProbe(_, read) => Put(w, m, ResolveRoot(x, read).0)
      case Apply(_) => Succeed(w, m, x, x.flight.s, x.flight.etag)
      case PruneList(_, doomed) => Put(w, m, x.(prune := Pruning(x.prune.current, doomed)))
      case PruneDelete(_, effect) => DoPruneDelete(w, m, x, effect)
      case PruneEnd(_) => Put(w, m, x.(prune := NoPass))
      case Crash(_) => w.(mounts := w.mounts - {m})
  }
}
