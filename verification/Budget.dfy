/** The write-backpressure budget as steps taken under its mutex: calls waiting
    for room, the one of them that drains, and what each of them returns. */
module Budget {
  import opened Wrappers

  type CallId = nat

  /** What a drain ended with, when it failed. */
  datatype Failure = Error(code: nat) | Panicked

  datatype Outcome =
    | Admitted
    | Failed(failure: Failure, at: nat)  // a drain's failure, and which drain's
    | Own(failure: Failure)              // this call's own drain failed
    | Canceled                           // its ctx ended
    | Unwound                            // its own drain panicked: await did not return

  datatype Pc = Awake | Asleep | Draining | Done(outcome: Outcome)

  /** start: how many drains had ended when the call began. woken: its ctx has
      ended and the callback that will wake it has not run yet. added: the write
      it admitted has charged what it buffered. */
  datatype Call = Call(pc: Pc, start: nat, canceled: bool, woken: bool, added: bool)

  datatype Monitor = Monitor(limit: int, charge: int, draining: bool, ended: nat,
                             failure: Option<Failure>, failedAt: nat, calls: map<CallId, Call>)

  /** cond.Broadcast: every call asleep goes round its loop again. */
  function Wake(c: Call): Call {
    if c.pc == Asleep then c.(pc := Awake) else c
  }

  function Broadcast(b: Monitor): Monitor {
    b.(calls := map c | c in b.calls :: Wake(b.calls[c]))
  }

  /** settle: ends the drain, records its failure if it has one, and wakes all. */
  function Settle(b: Monitor, failure: Option<Failure>): Monitor {
    var b1 := b.(draining := false, ended := b.ended + 1);
    Broadcast(if failure.Some? then b1.(failure := failure, failedAt := b1.ended) else b1)
  }

  predicate NewFailure(b: Monitor, start: nat) {
    b.failure.Some? && b.failedAt > start
  }

  /** One turn of await's loop, from the lock to the wait, the return or the drain. */
  function Turn(b: Monitor, id: CallId): Monitor
    requires id in b.calls
  {
    var c := b.calls[id];
    if NewFailure(b, c.start) then b.(calls := b.calls[id := c.(pc := Done(Failed(b.failure.value, b.failedAt)))])
    else if b.charge < b.limit then b.(calls := b.calls[id := c.(pc := Done(Admitted))])
    else if c.canceled then b.(calls := b.calls[id := c.(pc := Done(Canceled))])
    else if b.draining then b.(calls := b.calls[id := c.(pc := Asleep)])
    else b.(draining := true, calls := b.calls[id := c.(pc := Draining)])
  }

  datatype Step =
    | Begin(id: CallId, canceled: bool)
    | Again(id: CallId)                              // a woken call's next turn
    | DrainEnds(id: CallId, failure: Option<Failure>)
    | Cancel(id: CallId)                             // its ctx ends
    | Callback(id: CallId)                           // and the callback broadcasts
    | Add(id: CallId, n: nat)                        // an admitted write charges what it buffered
    | Release(n: nat)
    | Forget(id: CallId)                             // its caller has gone on

  predicate Enabled(b: Monitor, s: Step) {
    match s
    case Begin(id, _) => id !in b.calls
    case Again(id) => id in b.calls && b.calls[id].pc == Awake
    case DrainEnds(id, _) => id in b.calls && b.calls[id].pc == Draining
    case Cancel(id) => id in b.calls && !b.calls[id].canceled && !b.calls[id].pc.Done?
    case Callback(id) => id in b.calls && b.calls[id].woken
    case Add(id, _) => id in b.calls && b.calls[id].pc == Done(Admitted) && !b.calls[id].added
    case Release(_) => true
    case Forget(id) => id in b.calls && b.calls[id].pc.Done?
  }

  /** A call begins; its ctx counts only if it would otherwise block. */
  function Enter(b: Monitor, id: CallId, canceled: bool): Monitor {
    var c := Call(Awake, b.ended, canceled, false, false);
    if b.limit <= 0 || b.charge < b.limit then b.(calls := b.calls[id := c.(pc := Done(Admitted))])
    else Turn(b.(calls := b.calls[id := c]), id)
  }

  /** The hold after the drain. A success does not admit its drainer outright: it
      goes round again. An error with the ctx ended is published to nobody. */
  function EndDrain(b: Monitor, id: CallId, failure: Option<Failure>): Monitor
    requires id in b.calls
  {
    var c := b.calls[id];
    match failure
    case None => Turn(Settle(b.(calls := b.calls[id := c.(pc := Awake)]), None), id)
    case Some(Error(code)) =>
      if c.canceled then Settle(b.(calls := b.calls[id := c.(pc := Done(Canceled))]), None)
      else Settle(b.(calls := b.calls[id := c.(pc := Done(Own(Error(code))))]), failure)
    case Some(Panicked) => Settle(b.(calls := b.calls[id := c.(pc := Done(Unwound))]), failure)
  }

  function Do(b: Monitor, s: Step): Monitor
    requires Enabled(b, s)
  {
    match s
    case Begin(id, canceled) => Enter(b, id, canceled)
    case Again(id) => Turn(b, id)
    case DrainEnds(id, failure) => EndDrain(b, id, failure)
    case Cancel(id) => b.(calls := b.calls[id := b.calls[id].(canceled := true, woken := b.calls[id].pc == Asleep)])
    case Callback(id) => Broadcast(b.(calls := b.calls[id := b.calls[id].(woken := false)]))
    case Add(id, n) => b.(charge := b.charge + n, calls := b.calls[id := b.calls[id].(added := true)])
    case Release(n) => Broadcast(b.(charge := b.charge - n))
    case Forget(id) => b.(calls := b.calls - {id})
  }

  // What every step keeps.

  /** No lost wakeup: a call asleep has a drain to wait for, no room, no failure
      it should return, and a live ctx or a callback about to wake it. */
  predicate SleepInv(b: Monitor, c: Call) {
    c.pc == Asleep ==>
      b.draining && b.limit <= b.charge && !NewFailure(b, c.start) && (c.canceled ==> c.woken)
  }

  predicate CallInv(b: Monitor, c: Call) {
    && c.start <= b.ended
    && SleepInv(b, c)
    && (c.pc == Draining ==> b.draining)
    && (c.pc.Done? && c.pc.outcome.Failed? ==> c.start < c.pc.outcome.at <= b.ended)
  }

  /** At most one drain is in progress, and the mark is set exactly while one is. */
  ghost predicate OneDrainer(b: Monitor) {
    && (forall c, d :: c in b.calls && d in b.calls && b.calls[c].pc == Draining && b.calls[d].pc == Draining ==>
          c == d)
    && (b.draining ==> exists c :: c in b.calls && b.calls[c].pc == Draining)
  }

  ghost predicate Inv(b: Monitor) {
    && b.failedAt <= b.ended
    && (forall c {:trigger b.calls[c]} :: c in b.calls ==> CallInv(b, b.calls[c]))
    && OneDrainer(b)
  }

  /** A monitor no call has reached. */
  ghost predicate Initial(b: Monitor) {
    b.charge == 0 && !b.draining && b.ended == 0 && b.failure.None? && b.failedAt == 0 && b.calls == map[]
  }

  lemma BroadcastWakes(b: Monitor)
    ensures var b' := Broadcast(b);
            && b' == b.(calls := b'.calls) && b'.calls.Keys == b.calls.Keys
            && forall c {:trigger b'.calls[c]} :: c in b.calls ==> b'.calls[c] == Wake(b.calls[c])
  {
  }

  /** The call elected to drain finds no other draining. */
  lemma ElectKeeps(b: Monitor, id: CallId)
    requires Inv(b) && id in b.calls && !b.draining
    ensures Inv(b.(draining := true, calls := b.calls[id := b.calls[id].(pc := Draining)]))
  {
    var b' := b.(draining := true, calls := b.calls[id := b.calls[id].(pc := Draining)]);
    forall c | c in b'.calls ensures CallInv(b', b'.calls[c]) && (b'.calls[c].pc == Draining ==> c == id) {
      assert CallInv(b, b.calls[c]);
    }
    assert b'.calls[id].pc == Draining;
  }

  lemma TurnKeeps(b: Monitor, id: CallId)
    requires Inv(b) && id in b.calls && b.calls[id].pc == Awake
    ensures Inv(Turn(b, id))
  {
    var b', c := Turn(b, id), b.calls[id];
    assert CallInv(b, c);
    if !NewFailure(b, c.start) && b.limit <= b.charge && !c.canceled && !b.draining {
      ElectKeeps(b, id);
    } else {
      QuietKeeps(b, b', id);
    }
  }

  /** With no call asleep and no drain, ending a drain is safe whatever it records. */
  lemma SettleKeeps(b: Monitor, id: CallId, call: Call, failure: Option<Failure>)
    requires Inv(b) && id in b.calls && b.calls[id].pc == Draining
    requires call.pc != Draining && call.pc != Asleep && call.start == b.calls[id].start
    requires call.pc.Done? ==> !call.pc.outcome.Failed?
    ensures Inv(Settle(b.(calls := b.calls[id := call]), failure))
    ensures var b' := Settle(b.(calls := b.calls[id := call]), failure); id in b'.calls && b'.calls[id] == call
  {
    var b0 := b.(calls := b.calls[id := call]);
    var b1 := b0.(draining := false, ended := b.ended + 1);
    var b2 := if failure.Some? then b1.(failure := failure, failedAt := b1.ended) else b1;
    BroadcastWakes(b2);
    var b' := Broadcast(b2);
    forall c | c in b'.calls ensures CallInv(b', b'.calls[c]) && b'.calls[c].pc != Draining {
      if c != id { assert CallInv(b, b.calls[c]) && b.calls[c].pc != Draining; }
    }
  }

  lemma DrainEndsKeeps(b: Monitor, id: CallId, failure: Option<Failure>)
    requires Inv(b) && Enabled(b, DrainEnds(id, failure))
    ensures Inv(Do(b, DrainEnds(id, failure)))
  {
    var c := b.calls[id];
    match failure
    case None =>
      SettleKeeps(b, id, c.(pc := Awake), None);
      TurnKeeps(Settle(b.(calls := b.calls[id := c.(pc := Awake)]), None), id);
    case Some(Error(code)) =>
      SettleKeeps(b, id, c.(pc := Done(Canceled)), None);
      SettleKeeps(b, id, c.(pc := Done(Own(Error(code)))), failure);
    case Some(Panicked) =>
      SettleKeeps(b, id, c.(pc := Done(Unwound)), failure);
  }

  lemma StepKeeps(b: Monitor, s: Step)
    requires Inv(b) && Enabled(b, s)
    ensures Inv(Do(b, s))
  {
    match s
    case Begin(id, canceled) =>
      var c := Call(Awake, b.ended, canceled, false, false);
      var b1 := b.(calls := b.calls[id := c]);
      QuietKeeps(b, b1, id);
      if !(b.limit <= 0 || b.charge < b.limit) {
        TurnKeeps(b1, id);
      } else {
        QuietKeeps(b, Do(b, s), id);
      }
    case Again(id) => TurnKeeps(b, id);
    case DrainEnds(id, failure) =>
      DrainEndsKeeps(b, id, failure);
    case Cancel(id) => QuietKeeps(b, Do(b, s), id);
    case Callback(id) =>
      CallbackKeeps(b, id);
    case Add(id, n) => AddKeeps(b, id, n);
    case Release(n) => ReleaseKeeps(b, n);
    case Forget(id) => QuietKeeps(b, Do(b, s), id);
  }

  /** A step that touches one call, and leaves the monitor and its drainer alone. */
  lemma QuietKeeps(b: Monitor, b': Monitor, id: CallId)
    requires Inv(b) && b' == b.(calls := b'.calls)
    requires forall c :: c != id ==> (c in b'.calls <==> c in b.calls) && (c in b.calls ==> b'.calls[c] == b.calls[c])
    requires id in b'.calls ==> CallInv(b', b'.calls[id])
    requires (id in b.calls && b.calls[id].pc == Draining) <==> (id in b'.calls && b'.calls[id].pc == Draining)
    ensures Inv(b')
  {
    forall c | c in b'.calls ensures CallInv(b', b'.calls[c]) {
      if c != id { assert CallInv(b, b.calls[c]); }
    }
    if b.draining {
      var d :| d in b.calls && b.calls[d].pc == Draining;
      assert b'.calls[d].pc == Draining;
    }
  }

  /** Waking every call changes nothing else. */
  lemma WakingKeeps(b: Monitor, b': Monitor)
    requires Inv(b) && b' == Broadcast(b'.(calls := b.calls))
    requires b' == b.(charge := b'.charge, calls := b'.calls)
    ensures Inv(b')
  {
    BroadcastWakes(b'.(calls := b.calls));
    forall c | c in b'.calls ensures CallInv(b', b'.calls[c]) {
      assert CallInv(b, b.calls[c]);
    }
    if b.draining {
      var d :| d in b.calls && b.calls[d].pc == Draining;
      assert b'.calls[d].pc == Draining;
    }
  }

  lemma ReleaseKeeps(b: Monitor, n: nat)
    requires Inv(b)
    ensures Inv(Do(b, Release(n)))
  {
    var b' := Do(b, Release(n));
    assert b'.(calls := b.calls) == b.(charge := b.charge - n);
    WakingKeeps(b, b');
  }

  lemma CallbackKeeps(b: Monitor, id: CallId)
    requires Inv(b) && Enabled(b, Callback(id))
    ensures Inv(Do(b, Callback(id)))
  {
    var b1 := b.(calls := b.calls[id := b.calls[id].(woken := false)]);
    var b' := Do(b, Callback(id));
    BroadcastWakes(b1);
    forall c | c in b'.calls ensures CallInv(b', b'.calls[c]) {
      assert CallInv(b, b.calls[c]);
    }
    if b.draining {
      var d :| d in b.calls && b.calls[d].pc == Draining;
      assert b'.calls[d].pc == Draining;
    }
  }

  lemma AddKeeps(b: Monitor, id: CallId, n: nat)
    requires Inv(b) && Enabled(b, Add(id, n))
    ensures Inv(Do(b, Add(id, n)))
  {
    var b' := Do(b, Add(id, n));
    forall c | c in b'.calls ensures CallInv(b', b'.calls[c]) {
      assert CallInv(b, b.calls[c]);
    }
    if b.draining {
      var d :| d in b.calls && b.calls[d].pc == Draining;
      assert b'.calls[d].pc == Draining;
    }
  }

  // Runs.

  ghost predicate Run(bs: seq<Monitor>, steps: seq<Step>) {
    && |bs| == |steps| + 1 && Initial(bs[0])
    && forall i :: 0 <= i < |steps| ==> Enabled(bs[i], steps[i]) && bs[i + 1] == Do(bs[i], steps[i])
  }

  lemma {:induction false} InvHolds(bs: seq<Monitor>, steps: seq<Step>, i: nat)
    requires Run(bs, steps) && i < |bs|
    ensures Inv(bs[i])
  {
    if i > 0 {
      InvHolds(bs, steps, i - 1);
      StepKeeps(bs[i - 1], steps[i - 1]);
    }
  }

  /** No wakeup is lost, whatever drains fail, panic or are abandoned: in every
      state of every run a call asleep has one drain in progress to wait for, no
      room, no failure newer than itself, and a live ctx or a callback coming. */
  lemma NoLostWakeup(bs: seq<Monitor>, steps: seq<Step>, i: nat, id: CallId)
    requires Run(bs, steps) && i < |bs| && id in bs[i].calls && bs[i].calls[id].pc == Asleep
    ensures var b, c := bs[i], bs[i].calls[id];
            && b.draining && b.limit <= b.charge && !NewFailure(b, c.start) && (c.canceled ==> c.woken)
            && (exists d :: d in b.calls && b.calls[d].pc == Draining &&
                  forall e :: e in b.calls && b.calls[e].pc == Draining ==> e == d)
  {
    InvHolds(bs, steps, i);
    var b := bs[i];
    assert CallInv(b, b.calls[id]);
    var d :| d in b.calls && b.calls[d].pc == Draining;
    assert forall e :: e in b.calls && b.calls[e].pc == Draining ==> e == d;
  }

  /** A call never returns the failure of a drain that ended before it began. */
  lemma NoStaleFailure(bs: seq<Monitor>, steps: seq<Step>, i: nat, id: CallId)
    requires Run(bs, steps) && i < |bs| && id in bs[i].calls
    requires bs[i].calls[id].pc.Done? && bs[i].calls[id].pc.outcome.Failed?
    ensures bs[i].calls[id].start < bs[i].calls[id].pc.outcome.at
  {
    InvHolds(bs, steps, i);
    assert CallInv(bs[i], bs[i].calls[id]);
  }

  /** The failure of drain n, or a later one, is owed to the call: it is about to
      return it, or has. */
  predicate Owed(b: Monitor, id: CallId, n: nat) {
    id in b.calls ==>
      var c := b.calls[id];
      if c.pc == Awake then b.failure.Some? && c.start < n <= b.failedAt
      else c.pc.Done? && c.pc.outcome.Failed? && n <= c.pc.outcome.at
  }

  /** A call still waiting when a drain fails or panics is owed that failure. */
  lemma FailureIsOwed(b: Monitor, d: CallId, failure: Failure, id: CallId)
    requires Inv(b) && Enabled(b, DrainEnds(d, Some(failure))) && (failure.Error? ==> !b.calls[d].canceled)
    requires id in b.calls && (b.calls[id].pc == Asleep || b.calls[id].pc == Awake)
    ensures Owed(Do(b, DrainEnds(d, Some(failure))), id, b.ended + 1)
    ensures id in Do(b, DrainEnds(d, Some(failure))).calls
  {
    assert CallInv(b, b.calls[id]);
  }

  /** What is owed stays owed, even if a later drain succeeds first. */
  lemma OwedStays(b: Monitor, s: Step, id: CallId, n: nat)
    requires Inv(b) && Enabled(b, s) && Owed(b, id, n) && !(s.Begin? && s.id == id)
    ensures Owed(Do(b, s), id, n)
  {
    if id in b.calls {
      assert CallInv(b, b.calls[id]);
      match s
      case Again(_) => OwedTurn(b, s.id, id, n);
      case Begin(_, _) =>
        OwedTurn(b.(calls := b.calls[s.id := Call(Awake, b.ended, s.canceled, false, false)]), s.id, id, n);
      case DrainEnds(_, _) => OwedDrainEnds(b, s.id, s.failure, id, n);
      case _ =>
    }
  }

  lemma OwedTurn(b: Monitor, d: CallId, id: CallId, n: nat)
    requires d in b.calls && Owed(b, id, n) && b.calls[d].pc == Awake
    ensures Owed(Turn(b, d), id, n)
  {
  }

  lemma OwedSettle(b: Monitor, d: CallId, call: Call, failure: Option<Failure>, id: CallId, n: nat)
    requires Inv(b) && d in b.calls && b.calls[d].pc == Draining && Owed(b, id, n) && id in b.calls
    ensures Owed(Settle(b.(calls := b.calls[d := call]), failure), id, n)
  {
    BroadcastWakes(b);
    assert id != d;
  }

  lemma OwedDrainEnds(b: Monitor, d: CallId, failure: Option<Failure>, id: CallId, n: nat)
    requires Inv(b) && Enabled(b, DrainEnds(d, failure)) && Owed(b, id, n) && id in b.calls
    ensures Owed(Do(b, DrainEnds(d, failure)), id, n)
  {
    var c := b.calls[d];
    OwedSettle(b, d, c.(pc := Awake), None, id, n);
    match failure
    case None => OwedTurn(Settle(b.(calls := b.calls[d := c.(pc := Awake)]), None), d, id, n);
    case Some(Error(code)) =>
      OwedSettle(b, d, c.(pc := Done(Canceled)), None, id, n);
      OwedSettle(b, d, c.(pc := Done(Own(Error(code)))), failure, id, n);
    case Some(Panicked) => OwedSettle(b, d, c.(pc := Done(Unwound)), failure, id, n);
  }

  /** Failure delivery: a call waiting when a drain fails returns that failure or
      a later one, at whatever time it returns. */
  lemma {:induction false} FailureDelivered(bs: seq<Monitor>, steps: seq<Step>, i: nat, j: nat, id: CallId)
    requires Run(bs, steps) && i < |steps| && i < j < |bs|
    requires steps[i].DrainEnds? && steps[i].failure.Some?
    requires steps[i].failure.value.Error? ==> !bs[i].calls[steps[i].id].canceled
    requires id in bs[i].calls && (bs[i].calls[id].pc == Asleep || bs[i].calls[id].pc == Awake)
    requires forall k :: i <= k < j ==> !(steps[k].Begin? && steps[k].id == id)
    ensures Owed(bs[j], id, bs[i].ended + 1)
    decreases j
  {
    InvHolds(bs, steps, j - 1);
    if j == i + 1 {
      FailureIsOwed(bs[i], steps[i].id, steps[i].failure.value, id);
    } else {
      FailureDelivered(bs, steps, i, j - 1, id);
      OwedStays(bs[j - 1], steps[j - 1], id, bs[i].ended + 1);
    }
  }

  /** A drain's error is published unless its own call's ctx has ended by then;
      a panic always is. */
  predicate Published(b: Monitor, s: Step) {
    && s.DrainEnds? && s.failure.Some? && s.id in b.calls
    && (s.failure.value.Error? ==> !b.calls[s.id].canceled)
  }

  /** Drain number `at` ended at step j, with this failure, which it published. */
  ghost predicate EndedWith(bs: seq<Monitor>, steps: seq<Step>, j: nat, failure: Failure, at: nat)
    requires Run(bs, steps)
  {
    j < |steps| && Published(bs[j], steps[j]) && steps[j].failure == Some(failure) && bs[j].ended + 1 == at
  }

  /** The call holds no failure it did not hold before, but the one on record. */
  predicate FailureFrom(b: Monitor, b': Monitor, id: CallId) {
    id in b'.calls && b'.calls[id].pc.Done? && b'.calls[id].pc.outcome.Failed? ==>
      || (id in b.calls && b.calls[id].pc == b'.calls[id].pc)
      || (b'.failure == Some(b'.calls[id].pc.outcome.failure) && b'.failedAt == b'.calls[id].pc.outcome.at)
  }

  predicate OnRecord(b: Monitor, b': Monitor, s: Step) {
    b'.failure.Some? && (b'.failure, b'.failedAt) != (b.failure, b.failedAt) ==>
      Published(b, s) && s.failure == b'.failure && b'.failedAt == b.ended + 1
  }

  lemma FailureEndsDrain(b: Monitor, d: CallId, failure: Option<Failure>, id: CallId)
    requires d in b.calls
    ensures FailureFrom(b, EndDrain(b, d, failure), id) && OnRecord(b, EndDrain(b, d, failure), DrainEnds(d, failure))
  {
  }

  lemma FailureMoves(b: Monitor, s: Step, id: CallId)
    requires Enabled(b, s)
    ensures FailureFrom(b, Do(b, s), id) && OnRecord(b, Do(b, s), s)
  {
    if s.DrainEnds? { FailureEndsDrain(b, s.id, s.failure, id); }
  }

  /** Every failure a call returns is the one that very drain ended with. */
  lemma {:induction false} FailureIsThatDrains(bs: seq<Monitor>, steps: seq<Step>, i: nat, id: CallId)
    requires Run(bs, steps) && i < |bs|
    ensures bs[i].failure.Some? ==>
              exists j: nat :: j < i && EndedWith(bs, steps, j, bs[i].failure.value, bs[i].failedAt)
    ensures id in bs[i].calls && bs[i].calls[id].pc.Done? && bs[i].calls[id].pc.outcome.Failed? ==>
              var o := bs[i].calls[id].pc.outcome;
              exists j: nat :: j < i && EndedWith(bs, steps, j, o.failure, o.at)
  {
    if i > 0 {
      FailureIsThatDrains(bs, steps, i - 1, id);
      FailureMoves(bs[i - 1], steps[i - 1], id);
      if bs[i].failure.Some? && (bs[i].failure, bs[i].failedAt) != (bs[i - 1].failure, bs[i - 1].failedAt) {
        assert EndedWith(bs, steps, i - 1, bs[i].failure.value, bs[i].failedAt);
      }
    }
  }

  lemma DrainErrs(b: Monitor, id: CallId, code: nat)
    requires id in b.calls
    ensures var b', c := EndDrain(b, id, Some(Error(code))), b.calls[id];
            id in b'.calls && b'.calls[id].pc == Done(if c.canceled then Canceled else Own(Error(code)))
  {
  }

  /** How a call ended does not change until its caller goes on. */
  lemma DoneStays(b: Monitor, s: Step, id: CallId)
    requires Enabled(b, s) && s != Forget(id) && id in b.calls && b.calls[id].pc.Done?
    ensures id in Do(b, s).calls && Do(b, s).calls[id].pc == b.calls[id].pc
  {
  }

  lemma {:induction false} DoneFor(bs: seq<Monitor>, steps: seq<Step>, i: nat, j: nat, id: CallId)
    requires Run(bs, steps) && i <= j < |bs| && id in bs[i].calls && bs[i].calls[id].pc.Done?
    requires forall k :: i <= k < j ==> steps[k] != Forget(id)
    ensures id in bs[j].calls && bs[j].calls[id].pc == bs[i].calls[id].pc
    decreases j
  {
    if i < j {
      DoneFor(bs, steps, i, j - 1, id);
      DoneStays(bs[j - 1], steps[j - 1], id);
    }
  }

  /** A failed drainer with a live ctx returns its own error, whatever other
      drains do before it looks; one whose ctx has ended returns that. */
  lemma DrainerReturnsItsOwn(bs: seq<Monitor>, steps: seq<Step>, i: nat, j: nat, id: CallId, code: nat)
    requires Run(bs, steps) && i < j < |bs| && steps[i] == DrainEnds(id, Some(Error(code)))
    requires forall k :: i < k < j ==> steps[k] != Forget(id)
    ensures id in bs[i].calls && id in bs[j].calls
    ensures bs[j].calls[id].pc == Done(if bs[i].calls[id].canceled then Canceled else Own(Error(code)))
  {
    DrainErrs(bs[i], id, code);
    assert bs[i + 1] == EndDrain(bs[i], id, Some(Error(code)));
    DoneFor(bs, steps, i + 1, j, id);
  }

  lemma EndedStep(b: Monitor, s: Step)
    requires Enabled(b, s)
    ensures Do(b, s).ended == b.ended + if s.DrainEnds? then 1 else 0
  {
  }

  lemma {:induction false} EndedGrows(bs: seq<Monitor>, steps: seq<Step>, i: nat, j: nat)
    requires Run(bs, steps) && i < j < |bs|
    ensures bs[i].ended + (if steps[i].DrainEnds? then 1 else 0) <= bs[j].ended
    decreases j
  {
    EndedStep(bs[j - 1], steps[j - 1]);
    if i < j - 1 { EndedGrows(bs, steps, i, j - 1); }
  }

  /** An abandoned drain's error reaches no other call: nobody, at any time,
      returns the failure of that drain. */
  lemma AbandonedSaysNothing(bs: seq<Monitor>, steps: seq<Step>, i: nat, j: nat, id: CallId)
    requires Run(bs, steps) && i < |steps| && steps[i].DrainEnds? && !Published(bs[i], steps[i])
    requires j < |bs| && id in bs[j].calls && bs[j].calls[id].pc.Done? && bs[j].calls[id].pc.outcome.Failed?
    ensures bs[j].calls[id].pc.outcome.at != bs[i].ended + 1
  {
    FailureIsThatDrains(bs, steps, j, id);
    var o := bs[j].calls[id].pc.outcome;
    var d: nat :| d < j && EndedWith(bs, steps, d, o.failure, o.at);
    if d < i { EndedGrows(bs, steps, d, i); }
    if i < d { EndedGrows(bs, steps, i, d); }
  }

  predicate IsAdmitted(b: Monitor, id: CallId) {
    id in b.calls && b.calls[id].pc == Done(Admitted)
  }

  predicate HasRoom(b: Monitor) {
    b.limit <= 0 || b.charge < b.limit
  }

  lemma DrainAdmits(b: Monitor, d: CallId, failure: Option<Failure>, id: CallId)
    requires d in b.calls && !IsAdmitted(b, id) && IsAdmitted(EndDrain(b, d, failure), id)
    ensures HasRoom(EndDrain(b, d, failure))
  {
  }

  lemma StepAdmits(b: Monitor, s: Step, id: CallId)
    requires Enabled(b, s) && !IsAdmitted(b, id) && IsAdmitted(Do(b, s), id)
    ensures HasRoom(Do(b, s))
  {
    if s.DrainEnds? { DrainAdmits(b, s.id, s.failure, id); }
  }

  /** A call is admitted only in a hold in which the charge is below the limit,
      or when waiting is disabled. */
  lemma {:induction false} AdmittedOnlyWithRoom(bs: seq<Monitor>, steps: seq<Step>, i: nat, id: CallId)
    requires Run(bs, steps) && i < |bs| && IsAdmitted(bs[i], id)
    ensures exists j :: 0 <= j < i && !IsAdmitted(bs[j], id) && IsAdmitted(bs[j + 1], id) && HasRoom(bs[j + 1])
  {
    if IsAdmitted(bs[i - 1], id) {
      AdmittedOnlyWithRoom(bs, steps, i - 1, id);
    } else {
      StepAdmits(bs[i - 1], steps[i - 1], id);
      var j := i - 1;
      assert !IsAdmitted(bs[j], id) && IsAdmitted(bs[j + 1], id) && HasRoom(bs[j + 1]);
    }
  }

  /** The call takes a turn at this step: it begins, it is woken, or its own drain
      has succeeded. */
  predicate TakesTurn(s: Step, id: CallId) {
    s == Again(id) || s == DrainEnds(id, None) || (s.Begin? && s.id == id)
  }

  lemma TurnAnswers(b: Monitor, id: CallId)
    requires id in b.calls && b.charge < b.limit && !NewFailure(b, b.calls[id].start)
    ensures id in Turn(b, id).calls && Turn(b, id).calls[id].pc == Done(Admitted)
  {
  }

  /** Admission, from the other side: a call that takes its turn when there is room,
      and no failure newer than itself, is admitted; and with waiting disabled
      every call is. */
  lemma RoomAdmits(bs: seq<Monitor>, steps: seq<Step>, i: nat, id: CallId)
    requires Run(bs, steps) && i < |steps| && TakesTurn(steps[i], id)
    requires bs[i].charge < bs[i].limit || (steps[i].Begin? && bs[i].limit <= 0)
    requires !steps[i].Begin? ==> id in bs[i].calls && !NewFailure(bs[i], bs[i].calls[id].start)
    ensures id in bs[i + 1].calls && bs[i + 1].calls[id].pc == Done(Admitted)
  {
    InvHolds(bs, steps, i);
    var b := bs[i];
    match steps[i]
    case Again(_) => TurnAnswers(b, id);
    case DrainEnds(_, _) =>
      TurnAnswers(Settle(b.(calls := b.calls[id := b.calls[id].(pc := Awake)]), None), id);
    case Begin(_, _) =>
  }

  /** A call with no room and no newer failure is refused if its ctx has ended, and
      otherwise sleeps behind the drain in progress, or becomes the drainer. */
  lemma NoRoomWaits(b: Monitor, id: CallId)
    requires id in b.calls && b.charge >= b.limit && !NewFailure(b, b.calls[id].start)
    ensures var b' := Turn(b, id);
            && id in b'.calls && b'.charge == b.charge
            && b'.calls[id].pc ==
                 (if b.calls[id].canceled then Done(Canceled) else if b.draining then Asleep else Draining)
            && b'.draining == (b.draining || !b.calls[id].canceled)
  {
  }

  /** A call asleep does not outlive its ctx: once that ends, the callback wakes it,
      and its next turn ends it. */
  lemma EndOfCtxEndsIt(b: Monitor, id: CallId) returns (b3: Monitor)
    requires Inv(b) && id in b.calls && b.calls[id].pc == Asleep && !b.calls[id].canceled
    ensures Enabled(b, Cancel(id)) && Enabled(Do(b, Cancel(id)), Callback(id))
    ensures Enabled(Do(Do(b, Cancel(id)), Callback(id)), Again(id))
    ensures b3 == Do(Do(Do(b, Cancel(id)), Callback(id)), Again(id))
    ensures id in b3.calls && b3.calls[id].pc == Done(Canceled)
  {
    assert CallInv(b, b.calls[id]);
    b3 := Do(Do(Do(b, Cancel(id)), Callback(id)), Again(id));
  }

  /** A call is answered with its ctx's end only once that has ended. */
  lemma {:induction false} CanceledOnlyIfEnded(bs: seq<Monitor>, steps: seq<Step>, i: nat, id: CallId)
    requires Run(bs, steps) && i < |bs| && id in bs[i].calls && bs[i].calls[id].pc == Done(Canceled)
    ensures bs[i].calls[id].canceled
  {
    if id in bs[i - 1].calls && bs[i - 1].calls[id].pc == Done(Canceled) {
      CanceledOnlyIfEnded(bs, steps, i - 1, id);
    }
    CanceledStep(bs[i - 1], steps[i - 1], id);
  }

  lemma CanceledStep(b: Monitor, s: Step, id: CallId)
    requires Enabled(b, s) && id in Do(b, s).calls && Do(b, s).calls[id].pc == Done(Canceled)
    requires id in b.calls && b.calls[id].pc == Done(Canceled) ==> b.calls[id].canceled
    ensures Do(b, s).calls[id].canceled
  {
    if s.DrainEnds? { CanceledDrain(b, s.id, s.failure, id); }
  }

  lemma CanceledDrain(b: Monitor, d: CallId, failure: Option<Failure>, id: CallId)
    requires d in b.calls && id in EndDrain(b, d, failure).calls
    requires EndDrain(b, d, failure).calls[id].pc == Done(Canceled)
    requires id in b.calls && b.calls[id].pc == Done(Canceled) ==> b.calls[id].canceled
    ensures EndDrain(b, d, failure).calls[id].canceled
  {
    if failure.None? { CanceledTurn(Settle(b.(calls := b.calls[d := b.calls[d].(pc := Awake)]), None), d, id); }
  }

  lemma CanceledTurn(b: Monitor, d: CallId, id: CallId)
    requires d in b.calls && id in Turn(b, d).calls && Turn(b, d).calls[id].pc == Done(Canceled)
    requires id in b.calls && b.calls[id].pc == Done(Canceled) ==> b.calls[id].canceled
    ensures Turn(b, d).calls[id].canceled
  {
  }

  // The charge.

  /** What the steps before i have added, less what they have released. */
  function Net(steps: seq<Step>): int {
    if steps == [] then 0
    else
      Net(steps[..|steps| - 1]) + Change(steps[|steps| - 1])
  }

  function Change(s: Step): int {
    match s
    case Add(_, n) => n
    case Release(n) => 0 - n
    case _ => 0
  }

  lemma ChargeStep(b: Monitor, s: Step)
    requires Enabled(b, s)
    ensures Do(b, s).charge == b.charge + Change(s)
  {
  }

  /** The charge is exactly what has been added less what has been released. */
  lemma {:induction false} ChargeIsNet(bs: seq<Monitor>, steps: seq<Step>, i: nat)
    requires Run(bs, steps) && i < |bs|
    ensures bs[i].charge == Net(steps[..i])
  {
    if i > 0 {
      ChargeIsNet(bs, steps, i - 1);
      ChargeStep(bs[i - 1], steps[i - 1]);
      assert steps[..i][..i - 1] == steps[..i - 1];
    }
  }

  // The bound on the charge.

  /** The writes that have been admitted and have not charged yet. */
  function Pending(b: Monitor): set<CallId> {
    set c | c in b.calls && b.calls[c].pc == Done(Admitted) && !b.calls[c].added
  }

  ghost predicate BoundInv(b: Monitor, k: nat, w: nat) {
    b.charge + |Pending(b)| * w <= b.limit - 1 + k * w
  }

  /** With at most k writes between their admission and their charge, each
      charging at most w, the charge never exceeds limit - 1 + k * w. */
  lemma {:induction false} ChargeBounded(bs: seq<Monitor>, steps: seq<Step>, i: nat, k: nat, w: nat)
    requires Run(bs, steps) && i < |bs| && bs[0].limit > 0
    requires forall j :: 0 <= j < |bs| ==> |Pending(bs[j])| <= k
    requires forall j :: 0 <= j < |steps| && steps[j].Add? ==> steps[j].n <= w
    ensures BoundInv(bs[i], k, w) && bs[i].limit == bs[0].limit
    ensures bs[i].charge <= bs[0].limit - 1 + k * w
  {
    if i == 0 {
      assert Pending(bs[0]) == {};
    } else {
      ChargeBounded(bs, steps, i - 1, k, w);
      assert bs[i] == Do(bs[i - 1], steps[i - 1]) && |Pending(bs[i])| <= k;
      BoundStep(bs[i - 1], steps[i - 1], k, w);
    }
  }

  lemma BoundStep(b: Monitor, s: Step, k: nat, w: nat)
    requires Enabled(b, s) && b.limit > 0 && BoundInv(b, k, w) && |Pending(Do(b, s))| <= k && (s.Add? ==> s.n <= w)
    ensures BoundInv(Do(b, s), k, w) && Do(b, s).limit == b.limit
  {
    var b' := Do(b, s);
    PendingChange(b, s);
    var p, p' := |Pending(b)|, |Pending(b')|;
    if Pending(b') <= Pending(b) && !s.Add? {
      SubsetSize(Pending(b'), Pending(b));
      Times(p', p, w);
    } else if s.Add? {
      assert p == p' + 1;
      assert p * w == p' * w + w;
    } else {
      Times(p', k, w);
    }
  }

  lemma Times(a: nat, b: nat, w: nat)
    requires a <= b
    ensures a * w <= b * w
  {
  }

  /** A write joins the pending only when there was room, and leaves as it adds. */
  lemma PendingChange(b: Monitor, s: Step)
    requires Enabled(b, s) && b.limit > 0
    ensures var b' := Do(b, s);
            && b'.limit == b.limit
            && (s.Add? ==> b'.charge == b.charge + s.n && s.id in Pending(b) && Pending(b') == Pending(b) - {s.id})
            && (!s.Add? ==> b'.charge <= b.charge)
            && (!s.Add? && !(Pending(b') <= Pending(b)) ==> b'.charge < b'.limit)
  {
    match s
    case Begin(id, canceled) =>
      PendingTurn(b.(calls := b.calls[id := Call(Awake, b.ended, canceled, false, false)]), id);
    case Again(id) => PendingTurn(b, id);
    case DrainEnds(id, failure) => PendingDrainEnds(b, id, failure);
    case _ =>
  }

  lemma PendingTurn(b: Monitor, id: CallId)
    requires id in b.calls && b.calls[id].pc == Awake
    ensures var b' := Turn(b, id);
            && b'.limit == b.limit && b'.charge == b.charge
            && (!(Pending(b') <= Pending(b)) ==> b'.charge < b'.limit)
  {
  }

  lemma PendingSettle(b: Monitor, id: CallId, call: Call, failure: Option<Failure>)
    requires id in b.calls && call.pc != Done(Admitted)
    ensures var b' := Settle(b.(calls := b.calls[id := call]), failure);
            b'.limit == b.limit && b'.charge == b.charge && Pending(b') <= Pending(b)
  {
  }

  lemma PendingDrainEnds(b: Monitor, id: CallId, failure: Option<Failure>)
    requires Enabled(b, DrainEnds(id, failure))
    ensures var b' := Do(b, DrainEnds(id, failure));
            && b'.limit == b.limit && b'.charge == b.charge
            && (!(Pending(b') <= Pending(b)) ==> b'.charge < b'.limit)
  {
    var c := b.calls[id];
    match failure
    case None =>
      PendingSettle(b, id, c.(pc := Awake), None);
      PendingTurn(Settle(b.(calls := b.calls[id := c.(pc := Awake)]), None), id);
    case Some(Error(code)) =>
      PendingSettle(b, id, c.(pc := Done(Canceled)), None);
      PendingSettle(b, id, c.(pc := Done(Own(Error(code)))), failure);
    case Some(Panicked) => PendingSettle(b, id, c.(pc := Done(Unwound)), failure);
  }
}
