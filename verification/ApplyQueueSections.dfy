// The critical sections and channel operations of internal/applyqueue/queue.go
// on real objects. Each one refines the step of the ApplyQueue machine with the
// same name.
module ApplyQueueSections {
  import opened ApplyQueue

  // tenantState: `trigger` is the one-slot channel, true when the slot is full.
  class TenantState {
    var trigger: bool

    constructor ()
      ensures !trigger
    {
      trigger := false;
    }
  }

  class Queue {
    var active: map<Tenant, TenantState>
    ghost var made: seq<TenantState>  // every tenantState ever made, in order

    constructor ()
      ensures Represents(INIT)
    {
      active, made := map[], [];
    }

    ghost predicate Represents(s: State)
      reads this, made
    {
      && |made| == |s.loops|
      && (forall i, j :: 0 <= i < j < |made| ==> made[i] != made[j])
      && (forall i :: 0 <= i < |made| ==> made[i].trigger == s.loops[i].trigger)
      && active.Keys == s.active.Keys
      && (forall t :: t in active ==> s.active[t] < |made| && active[t] == made[s.active[t]])
    }

    // Enqueue, lines 196-203 and 212: look the loop up, or make and publish one.
    method LookupOrMake(t: Tenant, ghost s: State) returns (ts: TenantState, spawned: bool)
      requires Inv(s) && Represents(s)
      modifies this
      ensures Represents(Next(s, Lookup(t)))
      ensures spawned <==> t !in s.active
      ensures spawned ==> fresh(ts) && made == old(made) + [ts]
      ensures !spawned ==> made == old(made) && ts == made[s.active[t]]
    {
      spawned := t !in active;
      if spawned {
        ts := new TenantState();
        active := active[t := ts];
        made := made + [ts];
      } else {
        ts := active[t];
      }
    }

    // Enqueue, lines 215-218: a non-blocking send.
    method TrySend(ts: TenantState, ghost s: State, ghost id: LoopId)
      requires Represents(s) && Enabled(s, Send(id)) && ts == made[id]
      modifies ts
      ensures Represents(Next(s, Send(id))) && made == old(made)
    {
      if !ts.trigger {
        ts.trigger := true;
      }
    }

    // run, line 233: drain the trigger and debounce again.
    method Drain(ts: TenantState, ghost s: State, ghost id: LoopId)
      requires Represents(s) && Enabled(s, Redebounce(id)) && ts == made[id]
      modifies ts
      ensures Represents(Next(s, Redebounce(id))) && made == old(made)
    {
      ts.trigger := false;
    }

    // run, lines 249-259: the exit decision.
    method DecideExit(t: Tenant, ts: TenantState, ghost s: State, ghost id: LoopId) returns (again: bool)
      requires Represents(s) && Enabled(s, Decide(id)) && ts == made[id] && t == s.loops[id].tenant
      modifies this, ts
      ensures Represents(Next(s, Decide(id))) && made == old(made)
      ensures again <==> At(Next(s, Decide(id)), id, Debouncing)
    {
      again := ts.trigger;
      if again {
        ts.trigger := false;
      } else {
        active := active - {t};
      }
    }

    // release, lines 266-272. In a reachable state its guard is always true.
    method ReleaseLoop(t: Tenant, ts: TenantState, ghost s: State, ghost id: LoopId) returns (held: bool)
      requires Inv(s) && Represents(s) && Enabled(s, Release(id)) && ts == made[id] && t == s.loops[id].tenant
      modifies this
      ensures Represents(Next(s, Release(id))) && made == old(made)
      ensures held
    {
      assert LoopOk(s, id);
      held := t in active && active[t] == ts;
      if held {
        active := active - {t};
      }
    }
  }
}
