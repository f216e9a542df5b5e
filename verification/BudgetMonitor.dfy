/** The budget as the object the code updates: each method is one hold of its
    mutex, from the lock to the wait, the return or the drain. It makes exactly
    the step it belongs to, and keeps what every step keeps: one drainer, and
    nobody asleep who should be awake. */
module BudgetMonitor {
  import opened Wrappers
  import B = Budget

  class Monitor {
    const limit: int
    var charge: int
    var draining: bool
    var ended: nat
    var failure: Option<B.Failure>
    var failedAt: nat
    var calls: map<B.CallId, B.Call>  // the calls in await, and those it let go

    function View(): B.Monitor
      reads this
    {
      B.Monitor(limit, charge, draining, ended, failure, failedAt, calls)
    }

    ghost predicate Valid()
      reads this
    {
      B.Inv(View())
    }

    constructor (limit: int)
      ensures Valid() && B.Initial(View()) && this.limit == limit
    {
      this.limit, charge, draining, ended, failure, failedAt, calls := limit, 0, false, 0, None, 0, map[];
    }

    method Broadcast()
      modifies this`calls
      ensures View() == B.Broadcast(old(View()))
    {
      calls := map c | c in calls :: B.Wake(calls[c]);
    }

    method Move(id: B.CallId, pc: B.Pc)
      requires id in calls
      modifies this`calls
      ensures calls == old(calls)[id := old(calls)[id].(pc := pc)]
    {
      calls := calls[id := calls[id].(pc := pc)];
    }

    method Add(id: B.CallId, n: nat)
      requires Valid() && B.Enabled(View(), B.Add(id, n))
      modifies this
      ensures Valid() && View() == B.Do(old(View()), B.Add(id, n))
    {
      B.StepKeeps(View(), B.Add(id, n));
      charge := charge + n;
      calls := calls[id := calls[id].(added := true)];
    }

    method Release(n: nat)
      requires Valid()
      modifies this
      ensures Valid() && View() == B.Do(old(View()), B.Release(n))
    {
      B.StepKeeps(View(), B.Release(n));
      charge := charge - n;
      Broadcast();
    }

    method Settle(f: Option<B.Failure>)
      modifies this
      ensures View() == B.Settle(old(View()), f)
    {
      draining := false;
      ended := ended + 1;
      if f.Some? {
        failure := f;
        failedAt := ended;
      }
      Broadcast();
    }

    /** One turn of the waiting loop. A failure is looked at before room, and
        the ctx only once neither ends the call. */
    method Turn(id: B.CallId)
      requires id in calls
      modifies this
      ensures View() == B.Turn(old(View()), id)
      ensures id in calls
      ensures old(failure.Some? && failedAt > calls[id].start) ==>
                calls[id].pc == B.Done(B.Failed(failure.value, failedAt))
      ensures !old(failure.Some? && failedAt > calls[id].start) && charge < limit ==> calls[id].pc == B.Done(B.Admitted)
    {
      if failure.Some? && failedAt > calls[id].start {
        Move(id, B.Done(B.Failed(failure.value, failedAt)));
      } else if charge < limit {
        Move(id, B.Done(B.Admitted));
      } else if calls[id].canceled {
        Move(id, B.Done(B.Canceled));
      } else if draining {
        Move(id, B.Asleep);
      } else {
        draining := true;
        Move(id, B.Draining);
      }
    }

    method Await(id: B.CallId, canceled: bool)
      requires Valid() && B.Enabled(View(), B.Begin(id, canceled))
      modifies this
      ensures Valid() && View() == B.Do(old(View()), B.Begin(id, canceled))
    {
      B.StepKeeps(View(), B.Begin(id, canceled));
      calls := calls[id := B.Call(B.Awake, ended, canceled, false, false)];
      if limit <= 0 || charge < limit {
        Move(id, B.Done(B.Admitted));
        assert calls == old(calls)[id := B.Call(B.Done(B.Admitted), ended, canceled, false, false)];
      } else {
        Turn(id);
      }
    }

    /** A woken call's next turn. */
    method Again(id: B.CallId)
      requires Valid() && B.Enabled(View(), B.Again(id))
      modifies this
      ensures Valid() && View() == B.Do(old(View()), B.Again(id))
    {
      B.StepKeeps(View(), B.Again(id));
      Turn(id);
    }

    /** The callback a parked call registers on its ctx. */
    method Callback(id: B.CallId)
      requires Valid() && B.Enabled(View(), B.Callback(id))
      modifies this
      ensures Valid() && View() == B.Do(old(View()), B.Callback(id))
    {
      B.StepKeeps(View(), B.Callback(id));
      calls := calls[id := calls[id].(woken := false)];
      Broadcast();
    }

    method AfterDrain(id: B.CallId, f: Option<B.Failure>)
      requires Valid() && B.Enabled(View(), B.DrainEnds(id, f))
      modifies this
      ensures Valid() && View() == B.Do(old(View()), B.DrainEnds(id, f))
    {
      B.StepKeeps(View(), B.DrainEnds(id, f));
      match f {
        case None =>
          Move(id, B.Awake);
          Settle(None);
          Turn(id);
        case Some(Error(code)) =>
          if calls[id].canceled {
            Move(id, B.Done(B.Canceled));
            Settle(None);
          } else {
            Move(id, B.Done(B.Own(B.Error(code))));
            Settle(f);
          }
        case Some(Panicked) =>
          Move(id, B.Done(B.Unwound));
          Settle(f);
      }
    }
  }
}
