/** Sync, on one mount of the protocol: any number of calls flushing files,
    queueing for the commit lock and committing, while files are written, cut
    and removed and every other mount does what it likes. */
module SyncDurability {
  import opened Wrappers
  import opened Machines
  import opened CommitProtocol
  import opened CommitInvariant
  import opened CommitSteps
  import opened CommitTheorems

  type FileId = nat
  type CallId = nat

  /** Where a call of Sync has got to. */
  datatype Pc =
    | Flushing(todo: set<FileId>)          // its first pass, over the files open when it began
    | Waiting                              // for the commit lock
    | Holding                              // has it; the root may be in doubt
    | Settling(todo: set<FileId>)          // has the gate too; its settle pass
    | Flying                               // sealed; gate released
    | Returned(nil: bool, key: Option<Key>)

  /** asked: the changes whose calls had returned when Sync was called. */
  datatype Call = Call(pc: Pc, asked: set<Change>)

  /** buffered holds, per open file, the writes no flush has stored yet. */
  datatype State = State(w: World, buffered: map<FileId, seq<Change>>, unsettled: set<FileId>,
                         commitMu: Option<CallId>, gate: bool, calls: map<CallId, Call>)

  function Pending(buffered: map<FileId, seq<Change>>, f: FileId): seq<Change> {
    if f in buffered then buffered[f] else []
  }

  function InLog(log: seq<Change>): set<Change> {
    set c | c in log
  }

  function InBuffers(buffered: map<FileId, seq<Change>>, files: set<FileId>): set<Change> {
    set f, c | f in files && f in buffered && c in buffered[f] :: c
  }

  datatype Event =
    | Elsewhere(step: Step)                                        // anything but a commit or a change of this mount
    | ChangeNames(made: Change, refs: set<Chunk>)                  // a namespace change
    | WriteFile(f: FileId, data: Change, size: Change)             // buffers data, changes the size
    | CutFile(f: FileId, made: Change, cuts: bool, kept: seq<Change>)  // truncate; cuts: into a stored chunk
    | RemoveFile(f: FileId, made: Change)                          // drops what is buffered
    | FlushFile(f: FileId, stores: bool, refs: set<Chunk>)         // a flush no Sync makes
    | Begin(t: CallId)
    | PassFlush(t: CallId, f: FileId, ok: bool, stores: bool, refs: set<Chunk>)  // a flush of either pass
    | PassDone(t: CallId)
    | Enter(t: CallId)                                             // takes the lock; the checks at the top
    | Settle(t: CallId, read: Read)                                // the probe at the top
    | TakeGate(t: CallId)
    | SealNow(t: CallId, nonce: nat)
    | Fly(t: CallId, step: Step)                                   // a step of the commit's flight

  function Mine(s: State, m: MountId): Mount
    requires m in s.w.mounts
  {
    s.w.mounts[m]
  }

  /** Steps of the world that are not this mount's changes or commits. */
  predicate Foreign(step: Step, m: MountId) {
    step.m != m || step.PutChunk? || step.PruneList? || step.PruneDelete? || step.PruneEnd?
  }

  /** The writes to f that a truncate drops with their buffers: they landed
      just before it. */
  function Landed(s: State, f: FileId, kept: seq<Change>): seq<Change> {
    Without(Pending(s.buffered, f), kept)
  }

  function Without(cs: seq<Change>, kept: seq<Change>): (r: seq<Change>)
    ensures forall c :: c in cs ==> c in kept || c in r
  {
    if cs == [] then [] else (if cs[0] in kept then [] else [cs[0]]) + Without(cs[1..], kept)
  }

  /** stores: the flush finds a buffer or a trim. It does if a write is buffered;
      a file with neither a write nor the mark has nothing, and is left alone. */
  predicate CanFlush(s: State, m: MountId, f: FileId, stores: bool, refs: set<Chunk>)
    requires m in s.w.mounts
  {
    if stores then
      (Pending(s.buffered, f) != [] || f in s.unsettled) && Enabled(s.w, Mutate(m, Pending(s.buffered, f), refs))
    else Pending(s.buffered, f) == []
  }

  predicate Can(s: State, m: MountId, e: Event)
    requires m in s.w.mounts
  {
    var x := Mine(s, m);
    match e
    case Elsewhere(step) => Foreign(step, m) && Enabled(s.w, step)
    case ChangeNames(c, refs) => Enabled(s.w, Mutate(m, [c], refs))
    case WriteFile(_, _, size) => Enabled(s.w, Mutate(m, [size], x.ns.refs))
    case CutFile(f, c, _, kept) =>
      && !s.gate && InLog(kept) <= InLog(Pending(s.buffered, f))
      && Enabled(s.w, Mutate(m, Landed(s, f, kept) + [c], x.ns.refs))
    case RemoveFile(f, c) => Enabled(s.w, Mutate(m, Pending(s.buffered, f) + [c], x.ns.refs))
    case FlushFile(f, stores, refs) => CanFlush(s, m, f, stores, refs)
    case Begin(t) => t in s.calls ==> s.calls[t].pc.Returned?
    case PassFlush(t, f, ok, stores, refs) =>
      && t in s.calls && (s.calls[t].pc.Flushing? || s.calls[t].pc.Settling?) && f in s.calls[t].pc.todo
      && (ok ==> CanFlush(s, m, f, stores, refs))
    case PassDone(t) => t in s.calls && s.calls[t].pc == Flushing({})
    case Enter(t) => t in s.calls && s.calls[t].pc.Waiting? && s.commitMu.None?
    case Settle(t, read) => t in s.calls && s.calls[t].pc.Holding? && Enabled(s.w, TopProbe(m, read))
    case TakeGate(t) => t in s.calls && s.calls[t].pc.Holding? && x.knowledge == Known && !s.gate
    case SealNow(t, nonce) =>
      && t in s.calls && s.calls[t].pc == Settling({})
      && Drawable(s.w, Key(x.epoch + 1, nonce))
    case Fly(t, step) =>
      t in s.calls && s.calls[t].pc.Flying? && step.m == m && OfFlight(step) && Enabled(s.w, step)
  }

  function With(s: State, t: CallId, pc: Pc): State
    requires t in s.calls
  {
    s.(calls := s.calls[t := s.calls[t].(pc := pc)])
  }

  /** The call returns, letting go of the lock and the gate. */
  function Return(s: State, t: CallId, nil: bool, key: Option<Key>): State
    requires t in s.calls
  {
    With(s, t, Returned(nil, key)).(commitMu := None, gate := false)
  }

  /** flushOpen: with nothing to store it returns early, having cleared the mark
      and marked nothing dirty. */
  function Flushed(s: State, m: MountId, f: FileId, stores: bool, refs: set<Chunk>): State
    requires m in s.w.mounts && CanFlush(s, m, f, stores, refs)
  {
    if stores then
      s.(w := Do(s.w, Mutate(m, Pending(s.buffered, f), refs)),
         buffered := if f in s.buffered then s.buffered[f := []] else s.buffered,
         unsettled := s.unsettled - {f})
    else s.(unsettled := s.unsettled - {f})
  }

  function Next(s: State, m: MountId, e: Event): State
    requires m in s.w.mounts && Can(s, m, e)
  {
    var x := Mine(s, m);
    match e
    case Elsewhere(step) => s.(w := Do(s.w, step))
    case ChangeNames(c, refs) => s.(w := Do(s.w, Mutate(m, [c], refs)))
    case WriteFile(f, data, size) =>
      s.(w := Do(s.w, Mutate(m, [size], x.ns.refs)), buffered := s.buffered[f := Pending(s.buffered, f) + [data]])
    case CutFile(f, c, cuts, kept) =>
      s.(w := Do(s.w, Mutate(m, Landed(s, f, kept) + [c], x.ns.refs)), buffered := s.buffered[f := kept],
         unsettled := if cuts then s.unsettled + {f} else s.unsettled)
    case RemoveFile(f, c) =>
      // what was buffered landed just before the removal
      s.(w := Do(s.w, Mutate(m, Pending(s.buffered, f) + [c], x.ns.refs)),
         buffered := s.buffered - {f}, unsettled := s.unsettled - {f})
    case FlushFile(f, stores, refs) => Flushed(s, m, f, stores, refs)
    case Begin(t) =>
      var files := s.buffered.Keys;
      s.(calls := s.calls[t := Call(Flushing(files), InLog(x.ns.log) + InBuffers(s.buffered, files))])
    case PassFlush(t, f, ok, stores, refs) =>
      var pc := s.calls[t].pc;
      if !ok then (if pc.Flushing? then With(s, t, Returned(false, None)) else Return(s, t, false, None))
      else
        var todo := pc.todo - {f};
        With(Flushed(s, m, f, stores, refs), t, if pc.Flushing? then Flushing(todo) else Settling(todo))
    case PassDone(t) => With(s, t, Waiting)
    case Enter(t) =>
      if !x.dirty then With(s, t, Returned(true, x.rootSnapshot))
      else if x.mode == Diverged then With(s, t, Returned(false, None))
      else With(s, t, Holding).(commitMu := Some(t))
    case Settle(t, read) =>
      var s1 := s.(w := Do(s.w, TopProbe(m, read)));
      var v := ResolveRoot(x, read).1;
      if v.Ours? || v.Unchanged? then s1 else Return(s1, t, false, None)
    case TakeGate(t) => With(s, t, Settling(s.unsettled)).(gate := true)
    case SealNow(t, nonce) =>
      if s.unsettled != {} || !Enabled(s.w, Seal(m, nonce)) then Return(s, t, false, None)
      else With(s.(w := Do(s.w, Seal(m, nonce))), t, Flying).(gate := false)
    case Fly(t, step) => Flown(s.(w := Do(s.w, step)), m, t, if step.Apply? then Some(x.flight.s.key) else None)
  }

  /** After a step of its flight the call returns nil if that was the apply, an
      error if the flight ended without one, and otherwise flies on. */
  function Flown(s: State, m: MountId, t: CallId, applied: Option<Key>): State
    requires t in s.calls
  {
    if applied.Some? then Return(s, t, true, applied)
    else if m in s.w.mounts && s.w.mounts[m].flight.Idle? then Return(s, t, false, None)
    else s
  }

  // The invariant.

  predicate HasSeal(f: Flight) {
    !f.Idle? && !f.Loading?
  }

  predicate Has(asked: set<Change>, h: History, k: Key) {
    OnChain(h, k) && k in h.sealed && asked <= InLog(LogOf(h.sealed, k))
  }

  /** What a call has made of what it was asked to store: still to flush, in the
      namespace, sealed, or in a snapshot the root has named. */
  predicate Carries(x: Mount, h: History, buffered: map<FileId, seq<Change>>, c: Call) {
    match c.pc
    case Flushing(todo) => c.asked <= InLog(x.ns.log) + InBuffers(buffered, todo)
    case Waiting => c.asked <= InLog(x.ns.log)
    case Holding => c.asked <= InLog(x.ns.log)
    case Settling(_) => c.asked <= InLog(x.ns.log)
    case Flying => HasSeal(x.flight) && c.asked <= InLog(x.flight.s.snap.ns.log)
    case Returned(nil, key) => nil ==> key.Some? && Has(c.asked, h, key.value)
  }

  predicate Locked(pc: Pc) {
    pc.Holding? || pc.Settling? || pc.Flying?
  }

  /** The lock is held by the one call past Waiting, the gate while it settles,
      and a commit is in flight only while that call is Flying. */
  predicate LockInv(s: State, x: Mount) {
    && (forall t :: t in s.calls && Locked(s.calls[t].pc) ==> s.commitMu == Some(t))
    && match s.commitMu
       case None => x.flight.Idle? && !s.gate
       case Some(t) =>
         && t in s.calls && Locked(s.calls[t].pc) && x.mode != Diverged
         && s.gate == s.calls[t].pc.Settling?
         && (s.calls[t].pc.Flying? <==> HasSeal(x.flight))
         && (s.calls[t].pc.Settling? ==> x.knowledge == Known && s.unsettled <= s.calls[t].pc.todo)
  }

  /** What the supported runs keep of the world: the fallback off, or one writer. */
  predicate WorldInv(w: World, writer: Option<MountId>) {
    && Inv(w)
    && match writer
       case None => FallbackOff(w)
       case Some(n) => Lone(w, n)
  }

  predicate Allowed(step: Step, writer: Option<MountId>) {
    match writer
    case None => NoFallback(step)
    case Some(n) => OneWriter(step, n)
  }

  predicate LocalInv(s: State, m: MountId) {
    && m in s.w.mounts
    && var x := Mine(s, m);
    && !x.opening && !x.flight.Loading? && (s.commitMu.Some? ==> x.dirty)
    && LockInv(s, x)
    && forall t :: t in s.calls ==> Carries(x, s.w.hist, s.buffered, s.calls[t])
  }

  predicate SyncInv(s: State, m: MountId, writer: Option<MountId>) {
    WorldInv(s.w, writer) && LocalInv(s, m)
  }

  lemma WorldStep(w: World, step: Step, writer: Option<MountId>)
    requires WorldInv(w, writer) && Enabled(w, step) && Allowed(step, writer)
    ensures WorldInv(Do(w, step), writer)
  {
    match writer
    case None =>
      FallbackStaysOff(w, step);
      StepKeeps(w, step);
    case Some(n) =>
      LoneIsAlone(w, step, n);
      StepKeeps(w, step);
      LoneKeeps(w, step, n);
  }

  /** What a call carries stays carried while the log and the history grow and
      what leaves the buffers goes to the log. */
  lemma CarriesOn(x: Mount, h: History, b: map<FileId, seq<Change>>,
                  x': Mount, h': History, b': map<FileId, seq<Change>>, c: Call)
    requires Carries(x, h, b, c) && Extends(h, h')
    requires InLog(x.ns.log) <= InLog(x'.ns.log)
    requires forall f, e :: f in b && e in b[f] ==> e in x'.ns.log || (f in b' && e in b'[f])
    requires c.pc.Flying? ==> HasSeal(x'.flight) && x'.flight.s == x.flight.s
    ensures Carries(x', h', b', c)
  {
  }

  /** A change of this mount, with what it moves out of the buffers. */
  lemma MutateCarries(s: State, m: MountId, made: seq<Change>, refs: set<Chunk>, s': State)
    requires LocalInv(s, m) && Enabled(s.w, Mutate(m, made, refs))
    requires s' == s.(w := Do(s.w, Mutate(m, made, refs)), buffered := s'.buffered, unsettled := s'.unsettled)
    requires forall f, e :: f in s.buffered && e in s.buffered[f] ==>
               e in made || (f in s'.buffered && e in s'.buffered[f])
    requires s'.unsettled <= s.unsettled || !s.gate
    ensures LocalInv(s', m)
  {
    var x, x' := Mine(s, m), Mine(s', m);
    assert InLog(x'.ns.log) == InLog(x.ns.log) + InLog(made);
    forall t | t in s'.calls ensures Carries(x', s'.w.hist, s'.buffered, s'.calls[t]) {
      CarriesOn(x, s.w.hist, s.buffered, x', s'.w.hist, s'.buffered, s.calls[t]);
    }
  }

  lemma ForeignLeavesMine(w: World, step: Step, m: MountId)
    requires Foreign(step, m) && Enabled(w, step) && m in w.mounts
    ensures m in Do(w, step).mounts
    ensures var x, x' := w.mounts[m], Do(w, step).mounts[m];
            x' == x.(known := x'.known, prune := x'.prune)
  {
    OtherMountsUntouched(w, step);
  }

  lemma ElsewhereCarries(s: State, m: MountId, step: Step)
    requires LocalInv(s, m) && Foreign(step, m) && Enabled(s.w, step)
    ensures LocalInv(s.(w := Do(s.w, step)), m)
  {
    var s' := s.(w := Do(s.w, step));
    ForeignLeavesMine(s.w, step, m);
    StepExtends(s.w, step);
    var x, x' := Mine(s, m), Mine(s', m);
    forall t | t in s'.calls ensures Carries(x', s'.w.hist, s'.buffered, s'.calls[t]) {
      CarriesOn(x, s.w.hist, s.buffered, x', s'.w.hist, s'.buffered, s.calls[t]);
    }
  }

  // Each kind of event keeps what the calls carry.

  predicate IsChange(e: Event) {
    e.ChangeNames? || e.WriteFile? || e.CutFile? || e.RemoveFile? || e.FlushFile?
  }

  lemma ChangeCarries(s: State, m: MountId, e: Event)
    requires LocalInv(s, m) && Can(s, m, e) && IsChange(e)
    ensures LocalInv(Next(s, m, e), m)
  {
    var x, s' := Mine(s, m), Next(s, m, e);
    match e
    case ChangeNames(c, refs) => MutateCarries(s, m, [c], refs, s');
    case WriteFile(f, _, size) => MutateCarries(s, m, [size], x.ns.refs, s');
    case CutFile(f, c, _, kept) => MutateCarries(s, m, Landed(s, f, kept) + [c], x.ns.refs, s');
    case RemoveFile(f, c) => MutateCarries(s, m, Pending(s.buffered, f) + [c], x.ns.refs, s');
    case FlushFile(f, stores, refs) => FlushedCarries(s, m, f, stores, refs);
  }

  lemma FlushedCarries(s: State, m: MountId, f: FileId, stores: bool, refs: set<Chunk>)
    requires LocalInv(s, m) && CanFlush(s, m, f, stores, refs)
    ensures LocalInv(Flushed(s, m, f, stores, refs), m)
    ensures InBuffers(Flushed(s, m, f, stores, refs).buffered, {f}) == {}
    ensures f !in Flushed(s, m, f, stores, refs).unsettled
  {
    if stores {
      MutateCarries(s, m, Pending(s.buffered, f), refs, Flushed(s, m, f, stores, refs));
    }
  }

  /** A file the pass has flushed carries nothing, so it leaves the list. */
  lemma PassFlushCarries(s: State, m: MountId, t: CallId, f: FileId, ok: bool, stores: bool, refs: set<Chunk>)
    requires LocalInv(s, m) && Can(s, m, PassFlush(t, f, ok, stores, refs))
    ensures LocalInv(Next(s, m, PassFlush(t, f, ok, stores, refs)), m)
  {
    if ok {
      FlushedCarries(s, m, f, stores, refs);
      LeavesTodo(Flushed(s, m, f, stores, refs), m, t, f);
    }
  }

  lemma LeavesTodo(s: State, m: MountId, t: CallId, f: FileId)
    requires LocalInv(s, m) && t in s.calls && (s.calls[t].pc.Flushing? || s.calls[t].pc.Settling?)
    requires InBuffers(s.buffered, {f}) == {} && f !in s.unsettled
    ensures var pc := s.calls[t].pc;
            LocalInv(With(s, t, if pc.Flushing? then Flushing(pc.todo - {f}) else Settling(pc.todo - {f})), m)
  {
    var todo := s.calls[t].pc.todo;
    assert InBuffers(s.buffered, todo) == InBuffers(s.buffered, todo - {f}) + InBuffers(s.buffered, {f});
  }

  lemma BeginCarries(s: State, m: MountId, t: CallId)
    requires LocalInv(s, m) && Can(s, m, Begin(t))
    ensures LocalInv(Next(s, m, Begin(t)), m)
  {
  }

  /** A clean mount has nothing to commit: what the call asked for is in the
      snapshot the mount descends from. */
  lemma EnterCarries(s: State, m: MountId, t: CallId)
    requires LocalInv(s, m) && Can(s, m, Enter(t)) && MountInv(s.w.bucket, s.w.hist, m, Mine(s, m))
    ensures LocalInv(Next(s, m, Enter(t)), m)
  {
  }

  lemma QueueCarries(s: State, m: MountId, e: Event)
    requires LocalInv(s, m) && Can(s, m, e) && (e.PassDone? || e.TakeGate?)
    ensures LocalInv(Next(s, m, e), m)
  {
  }

  lemma SettleCarries(s: State, m: MountId, t: CallId, read: Read)
    requires LocalInv(s, m) && Can(s, m, Settle(t, read))
    ensures LocalInv(Next(s, m, Settle(t, read)), m)
  {
    var s1 := s.(w := Do(s.w, TopProbe(m, read)));
    var x, x' := Mine(s, m), Mine(s1, m);
    assert x'.ns == x.ns && x'.flight == x.flight && x'.dirty == x.dirty && !x'.opening;
    forall u | u in s.calls ensures Carries(x', s1.w.hist, s.buffered, s.calls[u]) {
      CarriesOn(x, s.w.hist, s.buffered, x', s1.w.hist, s.buffered, s.calls[u]);
    }
  }

  /** The settle pass has left no file marked, so the seal is not refused. */
  lemma SealIsReady(s: State, m: MountId, t: CallId, nonce: nat)
    requires LocalInv(s, m) && Can(s, m, SealNow(t, nonce))
    ensures s.unsettled == {} && Enabled(s.w, Seal(m, nonce))
  {
  }

  lemma SealCarries(s: State, m: MountId, t: CallId, nonce: nat)
    requires LocalInv(s, m) && Can(s, m, SealNow(t, nonce))
    ensures LocalInv(Next(s, m, SealNow(t, nonce)), m)
  {
    SealIsReady(s, m, t, nonce);
    var s1 := s.(w := Do(s.w, Seal(m, nonce)));
    var x, x' := Mine(s, m), Mine(s1, m);
    assert x'.flight.s.snap.ns == x.ns;
    StepExtends(s.w, Seal(m, nonce));
    forall u | u in s.calls && u != t ensures Carries(x', s1.w.hist, s.buffered, s.calls[u]) {
      CarriesOn(x, s.w.hist, s.buffered, x', s1.w.hist, s.buffered, s.calls[u]);
    }
  }

  /** x' is x with its flight ended, or carrying the same seal on. */
  predicate FliesOn(x: Mount, x': Mount)
    requires HasSeal(x.flight)
  {
    && x'.ns == x.ns && !x'.opening
    && (|| x'.flight.Idle?
        || (HasSeal(x'.flight) && x'.flight.s == x.flight.s && x'.dirty == x.dirty && x'.mode == x.mode))
  }

  lemma DoubtFliesOn(w: World, m: MountId, x: Mount, s: Sealed, oldErr: bool)
    requires !x.opening && HasSeal(x.flight) && x.flight.s == s
    ensures var w' := RaiseDoubt(w, m, x, s, oldErr); m in w'.mounts && FliesOn(x, w'.mounts[m])
  {
  }

  lemma SwapShape(w: World, m: MountId, x: Mount, effect: bool, reply: SwapReply)
    requires !x.opening && x.flight.Swapping?
    ensures var w' := DoSwap(w, m, x, effect, reply); m in w'.mounts && FliesOn(x, w'.mounts[m])
  {
    var w1 := if effect then WriteRoot(w, x.flight.s) else w;
    DoubtFliesOn(w1, m, x, x.flight.s, reply != NoETag);
  }

  lemma FallbackShape(w: World, m: MountId, x: Mount, effect: bool, ok: bool)
    requires !x.opening && x.flight.FallbackPutting?
    ensures var w' := DoFallbackPut(w, m, x, effect, ok); m in w'.mounts && FliesOn(x, w'.mounts[m])
  {
    var s := x.flight.s;
    DoubtFliesOn(if effect && w.bucket.root != Some(s.rp) then WriteRoot(w, s) else w, m, x, s, true);
  }

  lemma ProbeShape(w: World, m: MountId, x: Mount, read: Read)
    requires !x.opening && x.flight.Probing?
    ensures var w' := DoProbe(w, m, x, read); m in w'.mounts && FliesOn(x, w'.mounts[m])
  {
  }

  /** A step of the flight leaves the namespace alone; it ends the flight or
      carries the same seal on. */
  lemma FlightShape(w: World, step: Step)
    requires Enabled(w, step) && OfFlight(step) && !w.mounts[step.m].opening
    ensures step.m in Do(w, step).mounts && HasSeal(w.mounts[step.m].flight)
    ensures FliesOn(w.mounts[step.m], Do(w, step).mounts[step.m])
    ensures step.Apply? ==> Do(w, step).mounts[step.m].flight.Idle?
  {
    var m := step.m;
    var x := w.mounts[m];
    var s := x.flight.s;
    match step
    case Swap(_, effect, reply) => SwapShape(w, m, x, effect, reply);
    case ReclaimRead(_, _) => DoubtFliesOn(w, m, x, s, true);
    case FallbackPut(_, effect, ok) => FallbackShape(w, m, x, effect, ok);
    case Probe(_, read) => ProbeShape(w, m, x, read);
    case FallbackHead(_, _) => DoubtFliesOn(w, m, x, s, false);
    case _ =>
  }

  lemma FlownCarries(s: State, s1: State, m: MountId, t: CallId, applied: Option<Key>)
    requires LocalInv(s, m) && t in s.calls && s.calls[t].pc.Flying?
    requires s1 == s.(w := s1.w) && m in s1.w.mounts && Extends(s.w.hist, s1.w.hist)
    requires HasSeal(Mine(s, m).flight) && FliesOn(Mine(s, m), Mine(s1, m))
    requires applied.Some? ==>
               && Mine(s1, m).flight.Idle? && applied == Some(Mine(s, m).flight.s.key)
               && Has(s.calls[t].asked, s1.w.hist, applied.value)
    ensures LocalInv(Flown(s1, m, t, applied), m)
  {
    var x, x' := Mine(s, m), Mine(s1, m);
    forall u | u in s.calls && u != t ensures Carries(x', s1.w.hist, s.buffered, s.calls[u]) {
      CarriesOn(x, s.w.hist, s.buffered, x', s1.w.hist, s.buffered, s.calls[u]);
    }
    assert Carries(x, s.w.hist, s.buffered, s.calls[t]);
  }

  /** What a flight applies is sealed, on the chain, and holds what was asked for. */
  lemma AppliedHas(s: State, m: MountId, t: CallId)
    requires LocalInv(s, m) && t in s.calls && s.calls[t].pc.Flying? && Mine(s, m).flight.Applying?
    requires MountInv(s.w.bucket, s.w.hist, m, Mine(s, m))
    ensures Has(s.calls[t].asked, s.w.hist, Mine(s, m).flight.s.key)
  {
    assert Carries(Mine(s, m), s.w.hist, s.buffered, s.calls[t]);
  }

  lemma FlyCarries(s: State, m: MountId, t: CallId, step: Step)
    requires LocalInv(s, m) && MountInv(s.w.bucket, s.w.hist, m, Mine(s, m))
    requires t in s.calls && s.calls[t].pc.Flying? && step.m == m && OfFlight(step) && Enabled(s.w, step)
    ensures HasSeal(Mine(s, m).flight)
    ensures var applied := if step.Apply? then Some(Mine(s, m).flight.s.key) else None;
            LocalInv(Flown(s.(w := Do(s.w, step)), m, t, applied), m)
  {
    FlightShape(s.w, step);
    FlightAdvances(s.w, step);
    if step.Apply? { AppliedHas(s, m, t); }
    var applied := if step.Apply? then Some(Mine(s, m).flight.s.key) else None;
    FlownCarries(s, s.(w := Do(s.w, step)), m, t, applied);
  }

  // Runs of a mount that has been loaded, in a world any supported run may have left.

  predicate Started(s: State, m: MountId, writer: Option<MountId>) {
    && WorldInv(s.w, writer) && m in s.w.mounts
    && Mine(s, m).flight.Idle? && !Mine(s, m).opening
    && s.buffered == map[] && s.unsettled == {} && s.commitMu.None? && !s.gate && s.calls == map[]
  }

  /** The step of the world an event takes, if it takes one. */
  function WorldStepOf(s: State, m: MountId, e: Event): Option<Step>
    requires m in s.w.mounts && Can(s, m, e)
  {
    var x := Mine(s, m);
    match e
    case Elsewhere(step) => Some(step)
    case ChangeNames(c, refs) => Some(Mutate(m, [c], refs))
    case WriteFile(_, _, size) => Some(Mutate(m, [size], x.ns.refs))
    case CutFile(f, c, _, kept) => Some(Mutate(m, Landed(s, f, kept) + [c], x.ns.refs))
    case RemoveFile(f, c) => Some(Mutate(m, Pending(s.buffered, f) + [c], x.ns.refs))
    case FlushFile(f, stores, refs) => if stores then Some(Mutate(m, Pending(s.buffered, f), refs)) else None
    case PassFlush(_, f, ok, stores, refs) =>
      if ok && stores then Some(Mutate(m, Pending(s.buffered, f), refs)) else None
    case Settle(_, read) => Some(TopProbe(m, read))
    case SealNow(_, nonce) => if s.unsettled == {} && Enabled(s.w, Seal(m, nonce)) then Some(Seal(m, nonce)) else None
    case Fly(_, step) => Some(step)
    case _ => None
  }

  lemma EventIsAStep(s: State, m: MountId, e: Event)
    requires m in s.w.mounts && Can(s, m, e)
    ensures match WorldStepOf(s, m, e)
            case None => Next(s, m, e).w == s.w
            case Some(step) => Enabled(s.w, step) && Next(s, m, e).w == Do(s.w, step)
  {
  }

  lemma EventCarries(s: State, m: MountId, e: Event)
    requires LocalInv(s, m) && Can(s, m, e) && MountInv(s.w.bucket, s.w.hist, m, Mine(s, m))
    ensures LocalInv(Next(s, m, e), m)
  {
    if IsChange(e) {
      ChangeCarries(s, m, e);
      return;
    }
    match e
    case Elsewhere(step) => ElsewhereCarries(s, m, step);
    case Begin(t) => BeginCarries(s, m, t);
    case PassFlush(t, f, ok, stores, refs) => PassFlushCarries(s, m, t, f, ok, stores, refs);
    case PassDone(_) => QueueCarries(s, m, e);
    case Enter(t) => EnterCarries(s, m, t);
    case Settle(t, read) => SettleCarries(s, m, t, read);
    case TakeGate(_) => QueueCarries(s, m, e);
    case SealNow(t, nonce) => SealCarries(s, m, t, nonce);
    case Fly(t, step) => FlyCarries(s, m, t, step);
  }

  lemma EventKeeps(s: State, m: MountId, e: Event, writer: Option<MountId>)
    requires SyncInv(s, m, writer) && Can(s, m, e)
    requires e.Elsewhere? ==> Allowed(e.step, writer)
    ensures SyncInv(Next(s, m, e), m, writer)
  {
    assert MountInv(s.w.bucket, s.w.hist, m, Mine(s, m));
    EventCarries(s, m, e);
    EventIsAStep(s, m, e);
    match WorldStepOf(s, m, e)
    case None =>
    case Some(step) => WorldStep(s.w, step, writer);
  }

  ghost predicate SyncRun(ss: seq<State>, es: seq<Event>, m: MountId, writer: Option<MountId>) {
    && |ss| == |es| + 1 && Started(ss[0], m, writer)
    && (forall i :: 0 <= i < |ss| ==> m in ss[i].w.mounts)
    && forall i :: 0 <= i < |es| ==>
         && Can(ss[i], m, es[i]) && ss[i + 1] == Next(ss[i], m, es[i])
         && (es[i].Elsewhere? ==> Allowed(es[i].step, writer))
  }

  lemma {:induction false} SyncInvHolds(ss: seq<State>, es: seq<Event>, m: MountId, writer: Option<MountId>, i: nat)
    requires SyncRun(ss, es, m, writer) && i < |ss|
    ensures SyncInv(ss[i], m, writer)
  {
    if i > 0 {
      SyncInvHolds(ss, es, m, writer, i - 1);
      EventKeeps(ss[i - 1], m, es[i - 1], writer);
    }
  }

  /** The change was made before now on this mount: it is in the namespace, or
      in some file's buffers. */
  predicate Made(s: State, m: MountId, c: Change)
    requires m in s.w.mounts
  {
    c in Mine(s, m).ns.log || exists f :: f in s.buffered && c in s.buffered[f]
  }

  ghost predicate Asks(s: State, t: CallId, c: Change) {
    t in s.calls && c in s.calls[t].asked
  }

  lemma ChangeLeavesCalls(s: State, m: MountId, e: Event)
    requires m in s.w.mounts && Can(s, m, e) && (IsChange(e) || e.Elsewhere?)
    ensures Next(s, m, e).calls == s.calls
  {
  }

  lemma FlushAsks(s: State, m: MountId, e: Event, t: CallId, c: Change)
    requires m in s.w.mounts && Can(s, m, e) && e.PassFlush? && Asks(s, t, c)
    ensures Asks(Next(s, m, e), t, c)
  {
  }

  /** What a call answers for was fixed when it was called. */
  lemma AskedStays(s: State, m: MountId, e: Event, t: CallId, c: Change)
    requires m in s.w.mounts && Can(s, m, e) && Asks(s, t, c) && e != Begin(t)
    ensures Asks(Next(s, m, e), t, c)
  {
    if IsChange(e) || e.Elsewhere? {
      ChangeLeavesCalls(s, m, e);
    } else if e.PassFlush? {
      FlushAsks(s, m, e, t, c);
    }
  }

  lemma BeginAsks(s: State, m: MountId, t: CallId, c: Change)
    requires m in s.w.mounts && Can(s, m, Begin(t)) && Made(s, m, c)
    ensures Asks(Next(s, m, Begin(t)), t, c)
  {
  }

  lemma EventAsks(ss: seq<State>, es: seq<Event>, m: MountId, writer: Option<MountId>, i: nat, t: CallId, c: Change)
    requires SyncRun(ss, es, m, writer) && i < |es|
    ensures es[i] == Begin(t) && Made(ss[i], m, c) ==> Asks(ss[i + 1], t, c)
    ensures es[i] != Begin(t) && Asks(ss[i], t, c) ==> Asks(ss[i + 1], t, c)
  {
    if es[i] == Begin(t) && Made(ss[i], m, c) { BeginAsks(ss[i], m, t, c); }
    if es[i] != Begin(t) && Asks(ss[i], t, c) { AskedStays(ss[i], m, es[i], t, c); }
  }

  lemma {:induction false} AsksOn(ss: seq<State>, b: nat, i: nat, t: CallId, c: Change)
    requires b <= i < |ss| && Asks(ss[b], t, c)
    requires forall j :: b <= j < i && Asks(ss[j], t, c) ==> Asks(ss[j + 1], t, c)
    ensures Asks(ss[i], t, c)
    decreases i
  {
    if b < i { AsksOn(ss, b, i - 1, t, c); }
  }

  lemma AskedForAll(ss: seq<State>, es: seq<Event>, m: MountId, writer: Option<MountId>,
                    b: nat, i: nat, t: CallId, c: Change)
    requires SyncRun(ss, es, m, writer) && b < i < |ss| && es[b] == Begin(t) && Made(ss[b], m, c)
    requires forall j :: b < j < i ==> es[j] != Begin(t)
    ensures Asks(ss[i], t, c)
  {
    EventAsks(ss, es, m, writer, b, t, c);
    forall j | b < j < i && Asks(ss[j], t, c) ensures Asks(ss[j + 1], t, c) {
      EventAsks(ss, es, m, writer, j, t, c);
    }
    AsksOn(ss, b + 1, i, t, c);
  }

  lemma HadIsStored(b: Bucket, h: History, asked: set<Change>, k: Key, c: Change)
    requires BucketInv(b, h) && Has(asked, h, k) && c in asked
    ensures b.root.Some? && b.root.value.snapshot in b.snapshots
    ensures c in b.snapshots[b.root.value.snapshot].ns.log
  {
    assert LogOf(h.sealed, h.chain[k.epoch - 1]) <= LogOf(h.sealed, h.chain[|h.chain| - 1]);
  }

  lemma ReturnedHas(s: State, m: MountId, t: CallId)
    requires LocalInv(s, m) && t in s.calls && s.calls[t].pc.Returned? && s.calls[t].pc.nil
    ensures s.calls[t].pc.key.Some? && Has(s.calls[t].asked, s.w.hist, s.calls[t].pc.key.value)
  {
    assert Carries(Mine(s, m), s.w.hist, s.buffered, s.calls[t]);
  }

  /** A Sync called at event b that has returned nil made durable every change
      made before it was called: each is in a snapshot the root has named, and in
      the one it names now. */
  lemma SyncNilMeansDurable(ss: seq<State>, es: seq<Event>, m: MountId, writer: Option<MountId>,
                            b: nat, i: nat, t: CallId, c: Change)
    requires SyncRun(ss, es, m, writer) && b < i < |ss| && es[b] == Begin(t) && Made(ss[b], m, c)
    requires forall j :: b < j < i ==> es[j] != Begin(t)
    requires t in ss[i].calls && ss[i].calls[t].pc.Returned? && ss[i].calls[t].pc.nil
    ensures var k, h := ss[i].calls[t].pc.key, ss[i].w.hist;
            k.Some? && OnChain(h, k.value) && k.value in h.sealed && c in LogOf(h.sealed, k.value)
    ensures var bucket := ss[i].w.bucket;
            && bucket.root.Some? && bucket.root.value.snapshot in bucket.snapshots
            && c in bucket.snapshots[bucket.root.value.snapshot].ns.log
  {
    SyncInvHolds(ss, es, m, writer, i);
    AskedForAll(ss, es, m, writer, b, i, t, c);
    var s := ss[i];
    ReturnedHas(s, m, t);
    HadIsStored(s.w.bucket, s.w.hist, s.calls[t].asked, s.calls[t].pc.key.value, c);
  }

  // After the Sync, whatever becomes of the mount that made it.

  /** The world goes on: any steps of any mount, loads and crashes among them. */
  ghost predicate Onward(ws: seq<World>, steps: seq<Step>, writer: Option<MountId>) {
    && |ws| == |steps| + 1
    && forall i :: 0 <= i < |steps| ==>
         Enabled(ws[i], steps[i]) && Allowed(steps[i], writer) && ws[i + 1] == Do(ws[i], steps[i])
  }

  lemma StepHas(w: World, step: Step, writer: Option<MountId>, asked: set<Change>, k: Key)
    requires WorldInv(w, writer) && Enabled(w, step) && Allowed(step, writer) && Has(asked, w.hist, k)
    ensures WorldInv(Do(w, step), writer) && Has(asked, Do(w, step).hist, k)
  {
    StepExtends(w, step);
    HasOn(asked, w.hist, Do(w, step).hist, k);
    WorldStep(w, step, writer);
  }

  lemma HasOn(asked: set<Change>, h: History, h': History, k: Key)
    requires Has(asked, h, k) && Extends(h, h')
    ensures Has(asked, h', k)
  {
  }

  lemma {:induction false} HasForEver(ws: seq<World>, steps: seq<Step>, writer: Option<MountId>, j: nat,
                                      asked: set<Change>, k: Key)
    requires Onward(ws, steps, writer) && j < |ws| && WorldInv(ws[0], writer) && Has(asked, ws[0].hist, k)
    ensures WorldInv(ws[j], writer) && Has(asked, ws[j].hist, k)
  {
    if j > 0 {
      HasForEver(ws, steps, writer, j - 1, asked, k);
      StepHas(ws[j - 1], steps[j - 1], writer, asked, k);
    }
  }

  /** What such a Sync made durable stays so for ever, through the crash of the
      very mount that synced: at every later time it is in the stored snapshot
      the root names, for the next mount to load. */
  lemma DurableForEver(ss: seq<State>, es: seq<Event>, m: MountId, writer: Option<MountId>,
                       b: nat, i: nat, t: CallId, c: Change, ws: seq<World>, steps: seq<Step>, j: nat)
    requires SyncRun(ss, es, m, writer) && b < i < |ss| && es[b] == Begin(t) && Made(ss[b], m, c)
    requires forall k :: b < k < i ==> es[k] != Begin(t)
    requires t in ss[i].calls && ss[i].calls[t].pc.Returned? && ss[i].calls[t].pc.nil
    requires Onward(ws, steps, writer) && ws[0] == ss[i].w && j < |ws|
    ensures var bucket := ws[j].bucket;
            && bucket.root.Some? && bucket.root.value.snapshot in bucket.snapshots
            && c in bucket.snapshots[bucket.root.value.snapshot].ns.log
  {
    SyncInvHolds(ss, es, m, writer, i);
    AskedForAll(ss, es, m, writer, b, i, t, c);
    ReturnedHas(ss[i], m, t);
    var asked, k := ss[i].calls[t].asked, ss[i].calls[t].pc.key.value;
    HasForEver(ws, steps, writer, j, asked, k);
    HadIsStored(ws[j].bucket, ws[j].hist, asked, k, c);
  }

  /** The seal's refusal of a file a truncate left unsettled is never reached,
      so no snapshot holds part of a truncate. */
  lemma SealNeverRefused(ss: seq<State>, es: seq<Event>, m: MountId, writer: Option<MountId>, i: nat)
    requires SyncRun(ss, es, m, writer) && i < |es| && es[i].SealNow?
    ensures ss[i].unsettled == {} && Enabled(ss[i].w, Seal(m, es[i].nonce))
  {
    SyncInvHolds(ss, es, m, writer, i);
    SealIsReady(ss[i], m, es[i].t, es[i].nonce);
  }

  /** Nothing is buffered, no file is marked, and the mount is clean. */
  ghost predicate AtRest(s: State, m: MountId) {
    && m in s.w.mounts && !Mine(s, m).dirty
    && s.unsettled == {} && forall f :: f in s.buffered ==> s.buffered[f] == []
  }

  /** Events of this mount alone, one after the other. */
  ghost predicate Path(ss: seq<State>, es: seq<Event>, m: MountId) {
    && |ss| == |es| + 1
    && (forall i :: 0 <= i < |ss| ==> m in ss[i].w.mounts)
    && (forall i :: 0 <= i < |es| ==>
          Can(ss[i], m, es[i]) && ss[i + 1] == Next(ss[i], m, es[i]) && !es[i].Elsewhere?)
  }

  lemma PathAfter(s: State, e: Event, ss: seq<State>, es: seq<Event>, m: MountId)
    requires Path(ss, es, m) && m in s.w.mounts && Can(s, m, e) && !e.Elsewhere? && ss[0] == Next(s, m, e)
    ensures Path([s] + ss, [e] + es, m)
  {
  }

  lemma PathBefore(ss: seq<State>, es: seq<Event>, e: Event, s: State, m: MountId)
    requires Path(ss, es, m) && m in s.w.mounts && Can(ss[|es|], m, e) && !e.Elsewhere? && s == Next(ss[|es|], m, e)
    ensures Path(ss + [s], es + [e], m)
  {
  }

  /** From rest, a first pass finds nothing to store in any file, dirties nothing,
      and comes to the lock. */
  lemma {:induction false} RestedPass(s: State, m: MountId, t: CallId) returns (ss: seq<State>, es: seq<Event>)
    requires AtRest(s, m) && t in s.calls && s.calls[t].pc.Flushing?
    ensures Path(ss, es, m) && ss[0] == s && ss[|es|] == With(s, t, Waiting)
    decreases |s.calls[t].pc.todo|
  {
    var todo := s.calls[t].pc.todo;
    if todo == {} {
      ss, es := [s, With(s, t, Waiting)], [PassDone(t)];
    } else {
      var f :| f in todo;
      var e := PassFlush(t, f, true, false, {});
      var s1 := With(s, t, Flushing(todo - {f}));
      assert s.unsettled - {f} == s.unsettled;
      assert Can(s, m, e) && Next(s, m, e) == s1;
      var rest, more := RestedPass(s1, m, t);
      PathAfter(s, e, rest, more, m);
      ss, es := [s] + rest, [e] + more;
      assert With(s1, t, Waiting) == With(s, t, Waiting);
    }
  }

  /** So a Sync of a mount at rest is a run of the model that returns nil, having
      changed nothing in the world: the snapshot it answers with is the one the
      mount already stands on. */
  lemma RestedSyncReturnsNil(s: State, m: MountId, t: CallId) returns (ss: seq<State>, es: seq<Event>)
    requires AtRest(s, m) && s.commitMu.None? && (t in s.calls ==> s.calls[t].pc.Returned?)
    ensures Path(ss, es, m) && es != [] && ss[0] == s && es[0] == Begin(t)
    ensures var last := ss[|es|];
            last.w == s.w && t in last.calls && last.calls[t].pc == Returned(true, Mine(s, m).rootSnapshot)
  {
    var s1 := Next(s, m, Begin(t));
    var mid, more := RestedPass(s1, m, t);
    var s2 := mid[|more|];
    var s3 := Next(s2, m, Enter(t));
    PathBefore(mid, more, Enter(t), s3, m);
    PathAfter(s, Begin(t), mid + [s3], more + [Enter(t)], m);
    ss, es := [s] + (mid + [s3]), [Begin(t)] + (more + [Enter(t)]);
  }
}
