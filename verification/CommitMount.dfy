/** A mount's commit state as the object the code updates: each method is one
    hold of the namespace lock. It changes the fields exactly as the step of the
    protocol it belongs to changes the mount, and, whatever the bucket and its
    history, leaves the mount as well with them as it was. */
module CommitMount {
  import opened Wrappers
  import opened Machines
  import P = CommitProtocol
  import opened CommitInvariant
  import S = CommitSteps
  import A = CommitAnswers

  /** The mount takes changes: mounted for writing, and past its load. */
  predicate Changeable(x: P.Mount) {
    x.mode != ReadOnly && !x.flight.Loading? && !x.opening
  }

  /** The mount writes, and is in doubt about an attempt. */
  predicate Doubtful(x: P.Mount) {
    x.knowledge == InDoubt && x.doubtKey.Some? && x.mode == Writable
  }

  predicate NewKey(h: P.History, k: P.Key) {
    k.epoch < P.MAX_EPOCH && k.nonce < P.MAX_NONCE && k !in h.sealed
  }

  function Recorded(h: P.History, s: P.Sealed, parent: Option<P.Key>): P.History {
    h.(sealed := h.sealed[s.key := P.Record(s.snap, s.rp, parent)])
  }

  class LiveMount {
    const id: P.MountId
    const retention: nat
    const fallback: bool
    const knowledge: Machine<Knowledge, RootEvent>
    const mode: Machine<Mode, ModeEvent>
    var epoch: nat
    var rootETag: Option<P.RootPointer>
    var rootSnapshot: Option<P.Key>
    var doubtKey: Option<P.Key>
    var ns: P.Namespace
    var known: set<P.Chunk>
    var dirty: bool
    var changes: nat
    var opening: bool
    var flight: P.Flight
    var prune: P.Prune

    ghost predicate Valid()
      reads this, knowledge, mode
    {
      knowledge.edges == ROOT_EDGES && mode.edges == MODE_EDGES
    }

    /** The mount of the protocol that the fields describe. */
    ghost function View(): P.Mount
      reads this, knowledge, mode
    {
      P.Mount(mode.state, knowledge.state, epoch, rootETag, rootSnapshot, doubtKey, ns, dirty, changes,
              known, retention, fallback, opening, flight, prune)
    }

    constructor (step: P.Step)
      requires step.LoadRoot?
      ensures Valid() && View() == P.NewMount(step) && id == step.m
      ensures fresh(knowledge) && fresh(mode)
    {
      id, retention, fallback := step.m, step.retention, step.fallback;
      knowledge := new Machine(ROOT_EDGES, Known);
      mode := new Machine(MODE_EDGES, if step.readOnly then ReadOnly else Writable);
      epoch, changes, dirty, opening := 0, 0, false, false;
      rootETag, rootSnapshot, doubtKey := None, None, None;
      ns, known, flight, prune := P.Namespace([], {}), {}, P.Idle, P.NoPass;
    }

    /** A change to the namespace: it is dirty, and the count moves. */
    method Mutate(made: seq<P.Change>, refs: set<P.Chunk>)
      requires Valid()
      modifies this
      ensures Valid()
      ensures forall b, h :: MountInv(b, h, id, old(View())) && Changeable(old(View())) && refs <= b.chunks ==>
                MountInv(b, h, id, View())
      ensures View() == old(View()).(ns := P.Namespace(old(ns).log + made, refs), dirty := true,
                                     changes := old(changes) + 1)
    {
      ghost var x, ns' := View(), P.Namespace(ns.log + made, refs);
      forall b, h | MountInv(b, h, id, x) && Changeable(x) && refs <= b.chunks
        ensures MountInv(b, h, id, x.(ns := ns', dirty := true, changes := x.changes + 1))
      {
        S.MutatedIsWell(b, h, id, x, ns');
      }
      ns := P.Namespace(ns.log + made, refs);
      dirty := true;
      changes := changes + 1;
    }

    /** Fixes the attempt: recorded, it descends from where the mount stands. */
    method Seal(nonce: nat) returns (s: P.Sealed)
      requires Valid()
      modifies this
      ensures forall h :: HistoryInv(h) && Positioned(h, old(View())) && NewKey(h, s.key) ==>
                HistoryInv(Recorded(h, s, rootSnapshot)) && Ready(Recorded(h, s, rootSnapshot), id, View(), s)
      ensures Valid() && s == P.SealOf(id, old(View()), nonce)
      ensures View() == old(View()).(flight := P.Putting(s))
    {
      ghost var x := View();
      forall h | HistoryInv(h) && Positioned(h, x) && NewKey(h, P.Key(x.epoch + 1, nonce))
        ensures var s := P.SealOf(id, x, nonce);
                && HistoryInv(Recorded(h, s, x.rootSnapshot))
                && Ready(Recorded(h, s, x.rootSnapshot), id, x.(flight := P.Putting(s)), s)
      {
        S.SealRecorded(h, id, x, nonce);
      }
      var next := epoch + 1;
      var key := P.Key(next, nonce);
      var snap := P.Snapshot(next, ns);
      s := P.Sealed(next, key, snap, P.RootPointer(next, key, id), rootETag, changes);
      flight := P.Putting(s);
    }

    method SchedulePrune(current: P.Key)
      requires Valid()
      modifies this`prune
      ensures Valid()
      ensures prune == if old(prune) == P.NoPass && retention != 0 then P.Listing(current) else old(prune)
    {
      if retention != 0 && prune == P.NoPass {
        prune := P.Listing(current);
      }
    }

    /** The commit returns nil: the mount now stands at what it committed. */
    method Apply(ghost b: P.Bucket, ghost h: P.History)
      requires Valid() && flight.Applying? && RecordsInv(h.sealed) && MountInv(b, h, id, View())
      modifies this
      ensures Valid() && MountInv(b, h, id, View())
      ensures View() == P.ApplyLocked(old(View()), old(flight).s, old(flight).etag)
    {
      S.AppliedIsWell(b, h, id, View());
      ApplyLocked(flight.s, flight.etag);
    }

    /** The success path: dirty is cleared only if nothing changed since the seal. */
    method ApplyLocked(s: P.Sealed, etag: Option<P.RootPointer>)
      requires Valid()
      modifies this
      ensures Valid() && View() == P.ApplyLocked(old(View()), s, etag)
    {
      epoch := s.epoch;
      rootETag := etag;
      rootSnapshot := Some(s.key);
      dirty := changes != s.changes;
      SchedulePrune(s.key);
      opening, flight := false, P.Idle;
    }

    /** The hold that raises the doubt: `raised` says whether the machine moved. */
    method RaiseDoubt(s: P.Sealed, oldErr: bool) returns (raised: bool)
      requires Valid()
      modifies this, knowledge
      ensures Valid()
      ensures raised == RootNext(old(View()).knowledge, SwapUnknown).Some?
      ensures raised ==>
        View() == old(View()).(doubtKey := Some(s.key), flight := P.Probing(s),
                               knowledge := RootNext(old(View()).knowledge, SwapUnknown).value)
      ensures !raised && oldErr ==> View() == old(View()).(doubtKey := None, flight := P.Idle)
      ensures !raised && !oldErr ==> View() == P.ApplyLocked(old(View()).(doubtKey := None), s, None)
    {
      RootNextIsTheTable(knowledge.state, SwapUnknown);
      doubtKey := Some(s.key);
      var _, _, ok := knowledge.Fire(SwapUnknown);
      raised := ok;
      if ok {
        flight := P.Probing(s);
      } else {
        doubtKey := None;
        if oldErr {
          flight := P.Idle;
        } else {
          ApplyLocked(s, None);
        }
      }
    }

    /** The read names the attempt in doubt: it took effect, and is adopted. */
    method Adopt(seen: nat, etag: Option<P.RootPointer>) returns (ok: bool)
      requires Valid()
      modifies this, knowledge
      ensures Valid() && ok == RootNext(old(View()).knowledge, SawOurs).Some?
      ensures View() == if !ok then old(View())
                        else old(View()).(knowledge := RootNext(old(View()).knowledge, SawOurs).value, epoch := seen,
                                          rootETag := etag, rootSnapshot := old(doubtKey), doubtKey := None)
    {
      RootNextIsTheTable(knowledge.state, SawOurs);
      var _, _, fired := knowledge.Fire(SawOurs);
      ok := fired;
      if ok {
        epoch := seen;
        rootETag := etag;
        rootSnapshot := doubtKey;
        doubtKey := None;
      }
    }

    /** The read shows the root the namespace descends from: the attempt did not
        happen, and the next swap conditions on the ETag just read. */
    method TakeUnchanged(etag: Option<P.RootPointer>) returns (ok: bool)
      requires Valid()
      modifies this, knowledge
      ensures Valid() && ok == RootNext(old(View()).knowledge, SawUnchanged).Some?
      ensures View() == if !ok then old(View())
                        else old(View()).(knowledge := RootNext(old(View()).knowledge, SawUnchanged).value,
                                          rootETag := etag, doubtKey := None)
    {
      RootNextIsTheTable(knowledge.state, SawUnchanged);
      var _, _, fired := knowledge.Fire(SawUnchanged);
      ok := fired;
      if ok {
        rootETag := etag;
        doubtKey := None;
      }
    }

    /** The read shows another writer's root. */
    method DivergeMount()
      requires Valid()
      modifies mode
      ensures Valid()
      ensures View() == old(View()).(mode := if ModeNext(old(View()).mode).Some? then ModeNext(old(View()).mode).value
                                             else old(View()).mode)
    {
      ModeNextIsTheTable(mode.state);
      var _, _, _ := mode.Fire(Diverge);
    }

    /** The doubt raised by a mount that was well, and the probe that settles it. */
    method Doubt(s: P.Sealed, oldErr: bool, ghost b: P.Bucket, ghost h: P.History)
      requires Valid() && MountInv(b, h, id, View().(flight := P.Reclaiming(s)))
      modifies this, knowledge
      ensures Valid() && MountInv(b, h, id, View()) && flight == P.Probing(s) && View().knowledge == InDoubt
    {
      S.DoubterIsWell(b, h, id, View(), s);
      var raised := RaiseDoubt(s, oldErr);
    }

    /** The probe: the verdict's new state, with the success path due or the
        commit failed, is well again. */
    method Probe(r: P.Read, ghost b: P.Bucket, ghost h: P.History) returns (v: P.Verdict)
      requires Valid() && flight.Probing? && !opening && P.Honest(r, b.root)
      requires RecordsInv(h.sealed) && RootInv(b.root, h) && MountInv(b, h, id, View())
      modifies this, knowledge, mode
      ensures Valid() && MountInv(b, h, id, View())
      ensures v.Ours? ==> flight == P.Applying(old(flight).s, rootETag) && b.root == Some(old(flight).s.rp)
      ensures !v.Ours? ==> flight.Idle?
      ensures v.Unchanged? ==> rootETag == b.root && View().knowledge == Known
      ensures A.Forced(old(View()), View().(flight := old(flight)), v, b.root, r)
    {
      VerdictMeans(b, h, id, View(), r);
      v := Settle(r);
      flight := if v.Ours? then P.Applying(flight.s, rootETag) else P.Idle;
    }

    /** One read of the root, classified against the fields and applied to them. */
    method ResolveRoot(r: P.Read) returns (v: P.Verdict)
      requires Valid()
      modifies this, knowledge, mode
      ensures Valid() && (View(), v) == P.ResolveRoot(old(View()), r)
      ensures forall root :: P.Honest(r, root) && Doubtful(old(View())) ==> A.Forced(old(View()), View(), v, root, r)
    {
      ghost var x := View();
      forall root | P.Honest(r, root) && Doubtful(x)
        ensures A.Forced(x, P.ResolveRoot(x, r).0, P.ResolveRoot(x, r).1, root, r)
      {
        A.VerdictForced(x, root, r);
      }
      v := Settle(r);
    }

    /** The switch on the verdict. */
    method Settle(r: P.Read) returns (v: P.Verdict)
      requires Valid()
      modifies this, knowledge, mode
      ensures Valid() && (View(), v) == P.ResolveRoot(old(View()), r)
    {
      v := P.ClassifyRoot(r, rootSnapshot, doubtKey);
      var ok := true;
      match v {
        case Ours => ok := Adopt(r.body.epoch, r.etag);
        case Unchanged => ok := TakeUnchanged(if r.Answer? then r.etag else None);
        case Theirs => DivergeMount();
        case Undecided =>
      }
      if !ok { v := P.Undecided; }
    }
  }

  /** Ours: the root is the attempt. Unchanged: it is the ETag the mount takes. And
      whatever the verdict, the mount is well once its flight says so. */
  lemma VerdictMeans(b: P.Bucket, h: P.History, m: P.MountId, x: P.Mount, r: P.Read)
    requires RecordsInv(h.sealed) && RootInv(b.root, h) && MountInv(b, h, m, x) && P.Honest(r, b.root)
    requires x.flight.Probing?
    ensures var (y, v) := P.ResolveRoot(x, r);
            && (v.Ours? ==> b.root == Some(x.flight.s.rp))
            && (v.Unchanged? ==> y.rootETag == b.root && y.knowledge == Known)
            && A.Forced(x, y, v, b.root, r) && y.flight == x.flight && y.opening == x.opening
            && (v.Ours? ==> MountInv(b, h, m, y.(flight := P.Applying(x.flight.s, y.rootETag))))
            && (!v.Ours? && !y.opening ==> MountInv(b, h, m, y.(flight := P.Idle)))
  {
    S.ProbedIsWell(b, h, m, x, r);
    A.VerdictForced(x, b.root, r);
    assert RecordInv(h.sealed, x.flight.s.key);
  }
}
