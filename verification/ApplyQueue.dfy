// The per-tenant apply scheduler of internal/applyqueue/queue.go as a machine of
// atomic steps. A step is one critical section, one channel operation, one
// listener call or one boundary of an Apply; timers, resync ticks, Apply results
// and cancellation are nondeterministic.
module ApplyQueue {
  import opened Wrappers

  type Tenant = string
  type LoopId = nat
  type Ctx = nat

  datatype Phase = Queued | Applying | Applied | Failed

  datatype Outcome = Succeeded | Canceled | Erred

  // Where the goroutine of one tenantState stands. Announcing is the stretch of
  // Enqueue between unlocking and `go q.run`; Exited is after its last unlock.
  datatype Pc = Announcing | Debouncing | Starting | InApply | Deciding | Releasing | Exited

  datatype Loop = Loop(tenant: Tenant, ctx: Option<Ctx>, pc: Pc, trigger: bool)

  datatype State = State(
    active: map<Tenant, LoopId>,
    loops: seq<Loop>,           // every tenantState ever made; a LoopId is its index
    senders: multiset<LoopId>,  // Enqueue calls that looked a loop up and have not sent yet
    lifecycle: Option<Ctx>,     // q.lctx
    started: bool,              // q.stop != nil
    contexts: nat,              // lifecycle contexts made so far
    cancelled: set<Ctx>)

  const INIT := State(map[], [], multiset{}, None, false, 0, {})

  datatype Action =
    | Lookup(tenant: Tenant)             // Enqueue, under the mutex
    | Send(id: LoopId)                   // Enqueue, after unlocking
    | Announce(id: LoopId)               // listener(queued), go run
    | Redebounce(id: LoopId)             // case <-ts.trigger
    | WindowElapsed(id: LoopId)          // case <-timer.C, listener(applying)
    | BeginApply(id: LoopId)
    | EndApply(id: LoopId, outcome: Outcome)  // Apply returns, listener(applied | failed)
    | Decide(id: LoopId)                 // the exit check, under the mutex
    | SeeCancel(id: LoopId)              // case <-ctx.Done()
    | Release(id: LoopId)                // release, under the mutex
    | Start
    | Stop
    | CancelContext(ctx: Ctx)            // the caller's own context is cancelled

  predicate At(s: State, id: LoopId, pc: Pc) { id < |s.loops| && s.loops[id].pc == pc }

  predicate Enabled(s: State, a: Action) {
    match a
    case Lookup(_) => true
    case Send(id) => id in s.senders && id < |s.loops|
    case Announce(id) => At(s, id, Announcing)
    case Redebounce(id) => At(s, id, Debouncing) && s.loops[id].trigger
    case WindowElapsed(id) => At(s, id, Debouncing)
    case BeginApply(id) => At(s, id, Starting)
    case EndApply(id, _) => At(s, id, InApply)
    case Decide(id) => At(s, id, Deciding)
    case SeeCancel(id) => At(s, id, Debouncing) && s.loops[id].ctx.Some? && s.loops[id].ctx.value in s.cancelled
    case Release(id) => At(s, id, Releasing)
    case Start => true
    case Stop => true
    case CancelContext(c) => c < s.contexts
  }

  function Goto(s: State, id: LoopId, pc: Pc): State
    requires id < |s.loops|
  {
    s.(loops := s.loops[id := s.loops[id].(pc := pc)])
  }

  function SetTrigger(s: State, id: LoopId, full: bool): State
    requires id < |s.loops|
  {
    s.(loops := s.loops[id := s.loops[id].(trigger := full)])
  }

  function Next(s: State, a: Action): State
    requires Enabled(s, a)
  {
    match a
    case Lookup(t) =>
      if t in s.active then s.(senders := s.senders + multiset{s.active[t]})
      else s.(active := s.active[t := |s.loops|], loops := s.loops + [Loop(t, s.lifecycle, Announcing, false)])
    case Send(id) => SetTrigger(s.(senders := s.senders - multiset{id}), id, true)
    case Announce(id) => Goto(s, id, Debouncing)
    case Redebounce(id) => SetTrigger(s, id, false)
    case WindowElapsed(id) => Goto(s, id, Starting)
    case BeginApply(id) => Goto(s, id, InApply)
    case EndApply(id, _) => Goto(s, id, Deciding)
    case Decide(id) =>
      if s.loops[id].trigger then Goto(SetTrigger(s, id, false), id, Debouncing)
      else Goto(s, id, Exited).(active := s.active - {s.loops[id].tenant})
    case SeeCancel(id) => Goto(s, id, Releasing)
    case Release(id) =>
      var t := s.loops[id].tenant;
      if t in s.active && s.active[t] == id then Goto(s, id, Exited).(active := s.active - {t})
      else Goto(s, id, Exited)
    case Start =>
      if s.started then s
      else s.(lifecycle := Some(s.contexts), started := true, contexts := s.contexts + 1)
    case Stop =>
      if s.started && s.lifecycle.Some? then s.(started := false, cancelled := s.cancelled + {s.lifecycle.value})
      else s
    case CancelContext(c) => s.(cancelled := s.cancelled + {c})
  }

  // What the listener hears during a step. A cancelled Apply counts as applied.
  function Emits(s: State, a: Action): Option<(Tenant, Phase)>
    requires Enabled(s, a)
  {
    match a
    case Announce(id) => Some((s.loops[id].tenant, Queued))
    case WindowElapsed(id) => Some((s.loops[id].tenant, Applying))
    case EndApply(id, outcome) => Some((s.loops[id].tenant, if outcome.Erred? then Failed else Applied))
    case _ => None
  }

  // ----- Runs

  // A path: states linked by enabled actions, from any state.
  datatype Path = Path(states: seq<State>, actions: seq<Action>) {
    ghost predicate Valid() {
      && |states| == |actions| + 1
      && (forall k :: 0 <= k < |actions| ==> StepAt(k))
    }

    ghost predicate StepAt(k: nat)
      requires k < |actions| < |states|
    {
      Enabled(states[k], actions[k]) && states[k + 1] == Next(states[k], actions[k])
    }
  }

  ghost predicate IsRun(p: Path) { p.Valid() && p.states[0] == INIT }

  // ----- One live loop per tenant

  predicate Live(s: State, id: LoopId) { id < |s.loops| && !s.loops[id].pc.Exited? }

  // The two halves of the invariant, one tenant and one loop at a time.
  predicate IndexOk(s: State, t: Tenant) {
    t in s.active ==> Live(s, s.active[t]) && s.loops[s.active[t]].tenant == t
  }

  predicate LoopOk(s: State, id: LoopId) {
    Live(s, id) ==> s.loops[id].tenant in s.active && s.active[s.loops[id].tenant] == id
  }

  // The active map is exactly the index of the live loops.
  ghost predicate Inv(s: State) {
    && (forall t :: IndexOk(s, t))
    && (forall id: LoopId :: LoopOk(s, id))
    && (forall id: LoopId :: id in s.senders ==> id < |s.loops|)
  }

  lemma IndexStep(s: State, a: Action, t: Tenant)
    requires Inv(s) && Enabled(s, a)
    ensures IndexOk(Next(s, a), t)
  {
    assert IndexOk(s, t);
    if a.Decide? || a.Release? {
      assert LoopOk(s, a.id);
    }
  }

  lemma LoopExits(s: State, a: Action, id: LoopId)
    requires Inv(s) && Enabled(s, a) && (a.Decide? || a.Release?)
    ensures LoopOk(Next(s, a), id)
  {
    assert LoopOk(s, id) && LoopOk(s, a.id);
  }

  lemma LoopStep(s: State, a: Action, id: LoopId)
    requires Inv(s) && Enabled(s, a)
    ensures LoopOk(Next(s, a), id)
  {
    if a.Decide? || a.Release? {
      LoopExits(s, a, id);
    } else {
      assert LoopOk(s, id);
    }
  }

  lemma InvStep(s: State, a: Action)
    requires Inv(s) && Enabled(s, a)
    ensures Inv(Next(s, a))
  {
    var s' := Next(s, a);
    forall t ensures IndexOk(s', t) { IndexStep(s, a, t); }
    forall id: LoopId ensures LoopOk(s', id) { LoopStep(s, a, id); }
    forall id: LoopId | id in s'.senders ensures id < |s'.loops| {
      assert id in s.senders || (a.Lookup? && a.tenant in s.active && IndexOk(s, a.tenant));
    }
  }

  lemma {:induction false} InvAlways(p: Path, k: nat)
    requires p.Valid() && Inv(p.states[0]) && k <= |p.actions|
    ensures Inv(p.states[k])
  {
    if k > 0 {
      InvAlways(p, k - 1);
      assert p.StepAt(k - 1);
      InvStep(p.states[k - 1], p.actions[k - 1]);
    }
  }

  // In every reachable state a tenant has at most one loop that is live or about
  // to start, the active map points at it, its Apply does not overlap another of
  // the same tenant, and the guard in `release` holds.
  lemma OneLoopPerTenant(p: Path, k: nat, x: LoopId, y: LoopId)
    requires IsRun(p) && k <= |p.actions|
    requires Live(p.states[k], x) && Live(p.states[k], y)
    requires p.states[k].loops[x].tenant == p.states[k].loops[y].tenant
    ensures x == y
    ensures p.states[k].loops[x].tenant in p.states[k].active
    ensures p.states[k].active[p.states[k].loops[x].tenant] == x
  {
    InvAlways(p, k);
    assert LoopOk(p.states[k], x) && LoopOk(p.states[k], y);
  }

  // ----- No wakeup is lost before the exit check

  // The loop still owes an Apply.
  predicate Owes(s: State, id: LoopId) {
    && id < |s.loops|
    && match s.loops[id].pc
       case Announcing | Debouncing | Starting => true
       case InApply | Deciding => s.loops[id].trigger
       case Releasing | Exited => false
  }

  lemma OwesStep(s: State, a: Action, id: LoopId)
    requires Owes(s, id) && Enabled(s, a)
    requires a != BeginApply(id) && a != SeeCancel(id)
    ensures Owes(Next(s, a), id)
  {
  }

  lemma {:induction false} OwesUntilServed(p: Path, id: LoopId, n: nat)
    requires p.Valid() && n <= |p.actions| && Owes(p.states[0], id)
    requires BeginApply(id) !in p.actions[..n] && SeeCancel(id) !in p.actions[..n]
    ensures Owes(p.states[n], id)
  {
    if n > 0 {
      assert p.actions[..n][n - 1] == p.actions[n - 1];
      assert p.actions[..n - 1] <= p.actions[..n];
      OwesUntilServed(p, id, n - 1);
      assert p.StepAt(n - 1);
      OwesStep(p.states[n - 1], p.actions[n - 1], id);
    }
  }

  // Whatever happens after `s`, the loop does not exit uncancelled without
  // starting an Apply first.
  ghost predicate WillServe(s: State, id: LoopId) {
    forall p: Path ::
      p.Valid() && p.states[0] == s && At(p.states[|p.actions|], id, Exited) && SeeCancel(id) !in p.actions ==>
        BeginApply(id) in p.actions
  }

  // A trigger is honoured exactly when it lands on a loop that has neither made
  // its exit decision nor seen cancellation. Coalescing does not matter.
  lemma SendServedIffBeforeExit(s: State, id: LoopId)
    requires Inv(s) && Enabled(s, Send(id))
    ensures WillServe(Next(s, Send(id)), id) <==> !At(s, id, Exited) && !At(s, id, Releasing)
  {
    var s' := Next(s, Send(id));
    if At(s, id, Exited) {
      var p := Path([s'], []);
      assert p.Valid() && p.states[0] == s' && At(p.states[|p.actions|], id, Exited);
    } else if At(s, id, Releasing) {
      var p := Path([s', Next(s', Release(id))], [Release(id)]);
      assert p.StepAt(0);
      assert p.Valid() && p.states[0] == s' && At(p.states[|p.actions|], id, Exited);
    } else {
      assert Owes(s', id);
      OwingLoopServes(s', id);
    }
  }

  lemma OwingLoopServes(s: State, id: LoopId)
    requires Owes(s, id)
    ensures WillServe(s, id)
  {
    forall p: Path |
      p.Valid() && p.states[0] == s && At(p.states[|p.actions|], id, Exited) && SeeCancel(id) !in p.actions
      ensures BeginApply(id) in p.actions
    {
      if BeginApply(id) !in p.actions {
        assert p.actions[..|p.actions|] == p.actions;
        OwesUntilServed(p, id, |p.actions|);
      }
    }
  }

  // The Enqueue that spawns a loop is served as well.
  lemma SpawnServed(s: State, t: Tenant)
    requires Inv(s) && t !in s.active
    ensures WillServe(Next(s, Lookup(t)), |s.loops|)
  {
    OwingLoopServes(Next(s, Lookup(t)), |s.loops|);
  }

  // The other interleaving: the second Enqueue looks the loop up during the
  // Apply, the loop exits, and the send lands in a channel nobody reads. Nothing
  // is active, no send is outstanding, and no Apply started after that Enqueue.
  function LostWakeupActions(t: Tenant): seq<Action> {
    [Lookup(t), Announce(0), WindowElapsed(0), BeginApply(0), Lookup(t), EndApply(0, Succeeded), Decide(0), Send(0)]
  }

  lemma ExtendRun(p: Path, a: Action) returns (q: Path)
    requires IsRun(p) && Enabled(p.states[|p.actions|], a)
    ensures IsRun(q) && q.actions == p.actions + [a]
    ensures q.states[|q.actions|] == Next(p.states[|p.actions|], a)
  {
    q := Path(p.states + [Next(p.states[|p.actions|], a)], p.actions + [a]);
    forall k | 0 <= k < |q.actions| ensures q.StepAt(k) {
      assert k < |p.actions| ==> p.StepAt(k);
    }
  }

  // The state of a queue whose only loop ever is `l`.
  function Only(l: Loop, active: map<Tenant, LoopId>, senders: multiset<LoopId>): State {
    State(active, [l], senders, None, false, 0, {})
  }

  lemma FirstApplyRuns(t: Tenant) returns (p: Path)
    ensures IsRun(p) && p.actions == [Lookup(t), Announce(0), WindowElapsed(0), BeginApply(0)]
    ensures p.states[4] == Only(Loop(t, None, InApply, false), map[t := 0], multiset{})
  {
    p := ExtendRun(Path([INIT], []), Lookup(t));
    p := ExtendRun(p, Announce(0));
    p := ExtendRun(p, WindowElapsed(0));
    p := ExtendRun(p, BeginApply(0));
  }

  lemma ExitOverlooksSender(t: Tenant, p: Path) returns (q: Path)
    requires IsRun(p) && p.states[|p.actions|] == Only(Loop(t, None, InApply, false), map[t := 0], multiset{})
    ensures IsRun(q) && q.actions == p.actions + [Lookup(t), EndApply(0, Succeeded), Decide(0)]
    ensures q.states[|q.actions|] == Only(Loop(t, None, Exited, false), map[], multiset{0})
  {
    q := ExtendRun(p, Lookup(t));
    assert q.states[|q.actions|] == Only(Loop(t, None, InApply, false), map[t := 0], multiset{0});
    q := ExtendRun(q, EndApply(0, Succeeded));
    q := ExtendRun(q, Decide(0));
    assert map[t := 0] - {t} == map[];
  }

  lemma LostWakeup(t: Tenant) returns (p: Path)
    ensures IsRun(p) && p.actions == LostWakeupActions(t)
    ensures p.states[|p.actions|] == Only(Loop(t, None, Exited, true), map[], multiset{})
  {
    p := FirstApplyRuns(t);
    p := ExitOverlooksSender(t, p);
    p := ExtendRun(p, Send(0));
  }

  // ----- Sending under the mutex would close the gap

  // Every Enqueue that finds a loop sends to it before anything else happens.
  ghost predicate SendsUnderMutex(p: Path)
    requires p.Valid()
  {
    forall k :: 0 <= k < |p.actions| && p.actions[k].Lookup? && p.actions[k].tenant in p.states[k].active ==>
      k + 1 < |p.actions| && p.actions[k + 1] == Send(p.states[k].active[p.actions[k].tenant])
  }

  function Suffix(p: Path, i: nat): Path
    requires i <= |p.actions| && |p.states| == |p.actions| + 1
  {
    Path(p.states[i..], p.actions[i..])
  }

  lemma SuffixValid(p: Path, i: nat)
    requires p.Valid() && i <= |p.actions|
    ensures Suffix(p, i).Valid() && Suffix(p, i).states[0] == p.states[i]
  {
    var q := Suffix(p, i);
    forall k | 0 <= k < |q.actions| ensures q.StepAt(k) {
      assert p.StepAt(i + k);
    }
  }

  // After the Enqueue at step i of such a run, the loop it talked to cannot be
  // gone at the end unless it saw cancellation or started an Apply meanwhile.
  lemma LockedSendNeverLost(p: Path, i: nat, id: LoopId)
    requires IsRun(p) && SendsUnderMutex(p)
    requires i < |p.actions| && p.actions[i].Lookup?
    requires var t := p.actions[i].tenant; t in p.states[i + 1].active && id == p.states[i + 1].active[t]
    requires At(p.states[|p.actions|], id, Exited) && !At(p.states[i], id, Releasing)
    requires SeeCancel(id) !in p.actions[i..]
    ensures BeginApply(id) in p.actions[i..]
  {
    InvAlways(p, i);
    assert p.StepAt(i);
    var j := if p.actions[i].tenant in p.states[i].active then i + 2 else i + 1;
    if j == i + 2 {
      assert p.StepAt(i + 1);
      assert IndexOk(p.states[i], p.actions[i].tenant);
    }
    assert Owes(p.states[j], id);
    OwingLoopServes(p.states[j], id);
    SuffixValid(p, j);
    var q := Suffix(p, j);
    assert q.states[|q.actions|] == p.states[|p.actions|];
    assert forall a :: a in q.actions ==> a in p.actions[i..];
  }

  // ----- At most one Apply per Enqueue

  function Starts(p: Path, t: Tenant, n: nat): nat
    requires n <= |p.actions| < |p.states|
  {
    if n == 0 then 0
    else
      var s, a := p.states[n - 1], p.actions[n - 1];
      Starts(p, t, n - 1) + if a.BeginApply? && a.id < |s.loops| && s.loops[a.id].tenant == t then 1 else 0
  }

  function Enqueues(p: Path, t: Tenant, n: nat): nat
    requires n <= |p.actions|
  {
    if n == 0 then 0
    else Enqueues(p, t, n - 1) + if p.actions[n - 1] == Lookup(t) then 1 else 0
  }

  // The Applies a tenant's loop can still start without a further Enqueue.
  function Credit(s: State, t: Tenant): nat {
    if t !in s.active || s.active[t] >= |s.loops| then 0
    else
      var l := s.loops[s.active[t]];
      s.senders[s.active[t]] + (if l.trigger then 1 else 0) +
      (if l.pc.Announcing? || l.pc.Debouncing? || l.pc.Starting? then 1 else 0)
  }

  // A step by the loop `a.id` alone.
  predicate LoopAction(a: Action) {
    !(a.Lookup? || a.Send? || a.Start? || a.Stop? || a.CancelContext?)
  }

  lemma CreditLoopStep(s: State, a: Action, t: Tenant)
    requires Inv(s) && Enabled(s, a) && LoopAction(a)
    ensures Credit(Next(s, a), t) + (if a.BeginApply? && s.loops[a.id].tenant == t then 1 else 0) <= Credit(s, t)
  {
    assert IndexOk(s, t) && LoopOk(s, a.id);
  }

  lemma CreditLookup(s: State, u: Tenant, t: Tenant)
    requires Inv(s)
    ensures Credit(Next(s, Lookup(u)), t) <= Credit(s, t) + if u == t then 1 else 0
  {
    assert IndexOk(s, t) && IndexOk(s, u);
    assert |s.loops| !in s.senders;
  }

  lemma CreditSend(s: State, id: LoopId, t: Tenant)
    requires Inv(s) && Enabled(s, Send(id))
    ensures Credit(Next(s, Send(id)), t) <= Credit(s, t)
  {
    assert IndexOk(s, t);
  }

  lemma CreditStep(s: State, a: Action, t: Tenant)
    requires Inv(s) && Enabled(s, a)
    ensures Credit(Next(s, a), t) + (if a.BeginApply? && s.loops[a.id].tenant == t then 1 else 0)
            <= Credit(s, t) + (if a == Lookup(t) then 1 else 0)
  {
    if a.Lookup? {
      CreditLookup(s, a.tenant, t);
    } else if a.Send? {
      CreditSend(s, a.id, t);
    } else if LoopAction(a) {
      CreditLoopStep(s, a, t);
    }
  }

  lemma {:induction false} StartsBoundedByEnqueues(p: Path, t: Tenant, n: nat)
    requires p.Valid() && Inv(p.states[0]) && n <= |p.actions|
    ensures Starts(p, t, n) + Credit(p.states[n], t) <= Credit(p.states[0], t) + Enqueues(p, t, n)
  {
    if n > 0 {
      StartsBoundedByEnqueues(p, t, n - 1);
      InvAlways(p, n - 1);
      assert p.StepAt(n - 1);
      CreditStep(p.states[n - 1], p.actions[n - 1], t);
    }
  }

  // In every run a tenant's Apply starts at most once per Enqueue call.
  lemma AtMostOneApplyPerEnqueue(p: Path, t: Tenant)
    requires IsRun(p)
    ensures Starts(p, t, |p.actions|) <= multiset(p.actions)[Lookup(t)]
  {
    StartsBoundedByEnqueues(p, t, |p.actions|);
    CountingEnqueues(p, t, |p.actions|);
    assert p.actions[..|p.actions|] == p.actions;
  }

  lemma {:induction false} CountingEnqueues(p: Path, t: Tenant, n: nat)
    requires n <= |p.actions|
    ensures Enqueues(p, t, n) == multiset(p.actions[..n])[Lookup(t)]
  {
    if n > 0 {
      CountingEnqueues(p, t, n - 1);
      assert p.actions[..n] == p.actions[..n - 1] + [p.actions[n - 1]];
    }
  }

  // ----- Coalescing: a burst of triggers costs one Apply

  // The Applies the loop can still start without a further send: the one it is
  // waiting to start, and one for a full trigger slot.
  function Pending(s: State, id: LoopId): nat {
    if id >= |s.loops| then 0
    else
      var l := s.loops[id];
      (if l.trigger then 1 else 0) + (if l.pc.Announcing? || l.pc.Debouncing? || l.pc.Starting? then 1 else 0)
  }

  // Applies of the loop that start at steps from..n.
  function Begins(p: Path, id: LoopId, from: nat, n: nat): nat
    requires from <= n <= |p.actions|
  {
    if n == from then 0 else Begins(p, id, from, n - 1) + if p.actions[n - 1] == BeginApply(id) then 1 else 0
  }

  lemma PendingStep(s: State, a: Action, id: LoopId)
    requires Enabled(s, a) && a != Send(id) && id < |s.loops|
    ensures Pending(Next(s, a), id) + (if a == BeginApply(id) then 1 else 0) <= Pending(s, id)
    ensures id < |Next(s, a).loops|
  {
  }

  // After the last send, the loop starts no more Applies than are pending: at
  // most two from a waiting loop, at most one from a loop at work, however many
  // triggers have landed.
  lemma {:induction false} PendingBoundsBegins(p: Path, id: LoopId, from: nat, n: nat)
    requires p.Valid() && from <= n <= |p.actions| && id < |p.states[from].loops|
    requires forall k :: from <= k < n ==> p.actions[k] != Send(id)
    ensures id < |p.states[n].loops|
    ensures Begins(p, id, from, n) + Pending(p.states[n], id) <= Pending(p.states[from], id)
    ensures At(p.states[from], id, InApply) || At(p.states[from], id, Deciding) ==> Begins(p, id, from, n) <= 1
    ensures !p.states[from].loops[id].trigger ==> Begins(p, id, from, n) <= 1
    ensures Begins(p, id, from, n) <= 2
  {
    if n > from {
      PendingBoundsBegins(p, id, from, n - 1);
      assert p.StepAt(n - 1);
      PendingStep(p.states[n - 1], p.actions[n - 1], id);
    }
  }

  // Until its Apply returns, a loop stays in it.
  lemma {:induction false} StaysInApply(p: Path, id: LoopId, n: nat)
    requires p.Valid() && n <= |p.actions| && At(p.states[0], id, InApply)
    requires forall k :: 0 <= k < n ==> !(p.actions[k].EndApply? && p.actions[k].id == id)
    ensures At(p.states[n], id, InApply) && Begins(p, id, 0, n) == 0
  {
    if n > 0 {
      StaysInApply(p, id, n - 1);
      assert p.StepAt(n - 1);
    }
  }

  lemma {:induction false} BeginsSplit(p: Path, id: LoopId, m: nat, n: nat)
    requires m <= n <= |p.actions|
    ensures Begins(p, id, 0, n) == Begins(p, id, 0, m) + Begins(p, id, m, n)
  {
    if m < n {
      BeginsSplit(p, id, m, n - 1);
    }
  }

  // Any number of Enqueues whose sends land while an Apply is running are served
  // by at most one further Apply of that loop.
  lemma BurstCostsOneApply(p: Path, id: LoopId, m: nat)
    requires p.Valid() && m <= |p.actions| && At(p.states[0], id, InApply)
    requires forall k :: 0 <= k < m ==> !(p.actions[k].EndApply? && p.actions[k].id == id)
    requires forall k :: m <= k < |p.actions| ==> p.actions[k] != Send(id)
    ensures multiset(p.actions)[BeginApply(id)] <= 1
  {
    StaysInApply(p, id, m);
    PendingBoundsBegins(p, id, m, |p.actions|);
    BeginsSplit(p, id, m, |p.actions|);
    CountingBegins(p, id, |p.actions|);
    assert p.actions[..|p.actions|] == p.actions;
  }

  lemma {:induction false} CountingBegins(p: Path, id: LoopId, n: nat)
    requires n <= |p.actions|
    ensures Begins(p, id, 0, n) == multiset(p.actions[..n])[BeginApply(id)]
  {
    if n > 0 {
      CountingBegins(p, id, n - 1);
      assert p.actions[..n] == p.actions[..n - 1] + [p.actions[n - 1]];
    }
  }

  // The wakeup of LostWakeup stays lost: whatever follows, without a further
  // Enqueue of the tenant no Apply of it starts.
  lemma LostForGood(t: Tenant, p: Path)
    requires p.Valid() && p.states[0] == Only(Loop(t, None, Exited, true), map[], multiset{})
    requires Lookup(t) !in p.actions
    ensures Starts(p, t, |p.actions|) == 0
  {
    StartsBoundedByEnqueues(p, t, |p.actions|);
    NoEnqueues(p, t, |p.actions|);
  }

  lemma {:induction false} NoEnqueues(p: Path, t: Tenant, n: nat)
    requires n <= |p.actions| && Lookup(t) !in p.actions
    ensures Enqueues(p, t, n) == 0
  {
    if n > 0 {
      NoEnqueues(p, t, n - 1);
      assert p.actions[n - 1] in p.actions;
    }
  }

  // ----- What the listener hears

  function Log(p: Path, t: Tenant, n: nat): seq<Phase>
    requires n <= |p.actions| < |p.states|
    requires forall k :: 0 <= k < n ==> Enabled(p.states[k], p.actions[k])
  {
    if n == 0 then [] else LogAfter(p.states[n - 1], p.actions[n - 1], t, Log(p, t, n - 1))
  }

  // A prefix of (queued (applying (applied | failed))*)*: the log opens with
  // queued, and an entry is a result exactly when the one before it is applying.
  predicate WellPhased(log: seq<Phase>) {
    && (log != [] ==> log[0] == Queued)
    && (forall k :: 1 <= k < |log| ==> (log[k].Applied? || log[k].Failed? <==> log[k - 1].Applying?))
  }

  predicate InCycle(log: seq<Phase>) { log != [] && log[|log| - 1].Applying? }

  // The log agrees with where the tenant's loop stands.
  predicate LogFits(s: State, t: Tenant, log: seq<Phase>) {
    && WellPhased(log)
    && if t !in s.active || s.active[t] >= |s.loops| then !InCycle(log)
       else
         match s.loops[s.active[t]].pc
         case Starting | InApply => InCycle(log)
         case Announcing => !InCycle(log)
         case _ => log != [] && !InCycle(log)
  }

  function LogAfter(s: State, a: Action, t: Tenant, log: seq<Phase>): seq<Phase>
    requires Enabled(s, a)
  {
    match Emits(s, a)
    case Some((u, phase)) => if u == t then log + [phase] else log
    case None => log
  }

  lemma AppendPhase(log: seq<Phase>, phase: Phase)
    requires WellPhased(log) && (phase.Applied? || phase.Failed? <==> InCycle(log))
    requires log == [] ==> phase == Queued
    ensures WellPhased(log + [phase]) && (InCycle(log + [phase]) <==> phase.Applying?)
  {
  }

  lemma LogEmitting(s: State, a: Action, t: Tenant, log: seq<Phase>)
    requires Inv(s) && Enabled(s, a) && LogFits(s, t, log)
    requires a.Announce? || a.WindowElapsed? || a.EndApply?
    ensures LogFits(Next(s, a), t, LogAfter(s, a, t, log))
  {
    assert IndexOk(s, t) && LoopOk(s, a.id);
    if s.loops[a.id].tenant == t {
      AppendPhase(log, Emits(s, a).value.1);
    }
  }

  lemma LogSilent(s: State, a: Action, t: Tenant, log: seq<Phase>)
    requires Inv(s) && Enabled(s, a) && LogFits(s, t, log)
    requires !(a.Announce? || a.WindowElapsed? || a.EndApply?)
    ensures LogFits(Next(s, a), t, LogAfter(s, a, t, log))
  {
    assert IndexOk(s, t);
    if !(a.Lookup? || a.Start? || a.Stop? || a.CancelContext?) {
      assert LoopOk(s, a.id);
    }
  }

  lemma LogStep(s: State, a: Action, t: Tenant, log: seq<Phase>)
    requires Inv(s) && Enabled(s, a) && LogFits(s, t, log)
    ensures LogFits(Next(s, a), t, LogAfter(s, a, t, log))
  {
    if a.Announce? || a.WindowElapsed? || a.EndApply? {
      LogEmitting(s, a, t, log);
    } else {
      LogSilent(s, a, t, log);
    }
  }

  lemma {:induction false} LogWellPhased(p: Path, t: Tenant, n: nat)
    requires IsRun(p) && n <= |p.actions|
    ensures forall k :: 0 <= k < n ==> Enabled(p.states[k], p.actions[k])
    ensures LogFits(p.states[n], t, Log(p, t, n))
  {
    forall k | 0 <= k < n ensures Enabled(p.states[k], p.actions[k]) {
      assert p.StepAt(k);
    }
    if n > 0 {
      LogWellPhased(p, t, n - 1);
      InvAlways(p, n - 1);
      assert p.StepAt(n - 1);
      LogStep(p.states[n - 1], p.actions[n - 1], t, Log(p, t, n - 1));
    }
  }

  // ----- What the listener is told is what happened

  // The results of the tenant's Applies among the first n steps.
  function Ends(p: Path, t: Tenant, n: nat, outcome: Outcome): nat
    requires n <= |p.actions| < |p.states|
  {
    if n == 0 then 0
    else
      var s, a := p.states[n - 1], p.actions[n - 1];
      Ends(p, t, n - 1, outcome)
      + if a.EndApply? && a.outcome == outcome && a.id < |s.loops| && s.loops[a.id].tenant == t then 1 else 0
  }

  // Whether the tenant's loop stands at pc.
  function Standing(s: State, t: Tenant, pc: Pc): nat {
    if t in s.active && At(s, s.active[t], pc) then 1 else 0
  }

  function Told(log: seq<Phase>, phase: Phase): nat { multiset(log)[phase] }

  function BeginsFor(s: State, a: Action, t: Tenant): nat
    requires Enabled(s, a)
  {
    if a.BeginApply? && s.loops[a.id].tenant == t then 1 else 0
  }

  function EndsFor(s: State, a: Action, t: Tenant): nat
    requires Enabled(s, a)
  {
    if a.EndApply? && s.loops[a.id].tenant == t then 1 else 0
  }

  function ElapsesFor(s: State, a: Action, t: Tenant): nat
    requires Enabled(s, a)
  {
    if a.WindowElapsed? && s.loops[a.id].tenant == t then 1 else 0
  }

  lemma StandingLoopStep(s: State, a: Action, t: Tenant)
    requires Inv(s) && Enabled(s, a) && LoopAction(a)
    ensures Standing(Next(s, a), t, InApply) + EndsFor(s, a, t) == Standing(s, t, InApply) + BeginsFor(s, a, t)
    ensures Standing(Next(s, a), t, Starting) + BeginsFor(s, a, t) == Standing(s, t, Starting) + ElapsesFor(s, a, t)
  {
    assert IndexOk(s, t) && LoopOk(s, a.id);
  }

  lemma StandingStep(s: State, a: Action, t: Tenant)
    requires Inv(s) && Enabled(s, a)
    ensures Standing(Next(s, a), t, InApply) + EndsFor(s, a, t) == Standing(s, t, InApply) + BeginsFor(s, a, t)
    ensures Standing(Next(s, a), t, Starting) + BeginsFor(s, a, t) == Standing(s, t, Starting) + ElapsesFor(s, a, t)
  {
    if LoopAction(a) {
      StandingLoopStep(s, a, t);
    } else {
      assert IndexOk(s, t);
    }
  }

  // What one step adds to the log.
  lemma ToldStep(s: State, a: Action, t: Tenant, log: seq<Phase>)
    requires Enabled(s, a)
    ensures Told(LogAfter(s, a, t, log), Applying) == Told(log, Applying) + ElapsesFor(s, a, t)
    ensures Told(LogAfter(s, a, t, log), Failed) == Told(log, Failed)
            + if a.EndApply? && a.outcome == Erred && s.loops[a.id].tenant == t then 1 else 0
    ensures Told(LogAfter(s, a, t, log), Applied) == Told(log, Applied)
            + if a.EndApply? && a.outcome != Erred && s.loops[a.id].tenant == t then 1 else 0
    ensures Told(LogAfter(s, a, t, log), Queued) == Told(log, Queued)
            + if a.Announce? && s.loops[a.id].tenant == t then 1 else 0
  {
  }

  lemma StepsEnabled(p: Path, n: nat)
    requires p.Valid() && n <= |p.actions|
    ensures forall k :: 0 <= k < n ==> Enabled(p.states[k], p.actions[k])
  {
    forall k | 0 <= k < n ensures Enabled(p.states[k], p.actions[k]) {
      assert p.StepAt(k);
    }
  }

  // In every run the listener hears "failed" once per Apply that erred, and
  // "applied" once per Apply that succeeded or was cancelled.
  lemma {:induction false} ListenerHearsOutcomes(p: Path, t: Tenant, n: nat)
    requires IsRun(p) && n <= |p.actions|
    ensures forall k :: 0 <= k < n ==> Enabled(p.states[k], p.actions[k])
    ensures Told(Log(p, t, n), Failed) == Ends(p, t, n, Erred)
    ensures Told(Log(p, t, n), Applied) == Ends(p, t, n, Succeeded) + Ends(p, t, n, Canceled)
  {
    StepsEnabled(p, n);
    if n > 0 {
      ListenerHearsOutcomes(p, t, n - 1);
      assert p.StepAt(n - 1);
      ToldStep(p.states[n - 1], p.actions[n - 1], t, Log(p, t, n - 1));
    }
  }

  // In every run, every Apply that started has ended or is the one now at work.
  lemma {:induction false} StartsEndOrRun(p: Path, t: Tenant, n: nat)
    requires IsRun(p) && n <= |p.actions|
    ensures Starts(p, t, n) == Ends(p, t, n, Succeeded) + Ends(p, t, n, Canceled) + Ends(p, t, n, Erred)
                               + Standing(p.states[n], t, InApply)
  {
    if n > 0 {
      StartsEndOrRun(p, t, n - 1);
      InvAlways(p, n - 1);
      assert p.StepAt(n - 1);
      StandingStep(p.states[n - 1], p.actions[n - 1], t);
    }
  }

  // In every run "applying" is heard once per started Apply, or the Apply is
  // about to start.
  lemma {:induction false} ListenerHearsStarts(p: Path, t: Tenant, n: nat)
    requires IsRun(p) && n <= |p.actions|
    ensures forall k :: 0 <= k < n ==> Enabled(p.states[k], p.actions[k])
    ensures Told(Log(p, t, n), Applying) == Starts(p, t, n) + Standing(p.states[n], t, Starting)
  {
    StepsEnabled(p, n);
    if n > 0 {
      ListenerHearsStarts(p, t, n - 1);
      InvAlways(p, n - 1);
      assert p.StepAt(n - 1);
      StandingStep(p.states[n - 1], p.actions[n - 1], t);
      ToldStep(p.states[n - 1], p.actions[n - 1], t, Log(p, t, n - 1));
    }
  }

  // ----- Start, Stop and cancellation

  // Contexts that loops and the queue hold exist, only existing ones are
  // cancelled, and a started queue has one that Stop can cancel.
  ghost predicate ContextsOk(s: State) {
    && (s.started ==> s.lifecycle.Some?)
    && (s.lifecycle.Some? ==> s.lifecycle.value < s.contexts)
    && (forall c :: c in s.cancelled ==> c < s.contexts)
    && (forall l :: l in s.loops && l.ctx.Some? ==> l.ctx.value < s.contexts)
  }

  lemma {:induction false} ContextsAlways(p: Path, k: nat)
    requires IsRun(p) && k <= |p.actions|
    ensures ContextsOk(p.states[k])
  {
    if k > 0 {
      ContextsAlways(p, k - 1);
      assert p.StepAt(k - 1);
      ContextsStep(p.states[k - 1], p.actions[k - 1]);
    }
  }

  lemma ContextsStep(s: State, a: Action)
    requires ContextsOk(s) && Enabled(s, a)
    ensures ContextsOk(Next(s, a))
  {
    var s' := Next(s, a);
    forall l | l in s'.loops && l.ctx.Some? ensures l.ctx.value < s'.contexts {
      var i :| 0 <= i < |s'.loops| && s'.loops[i] == l;
      assert i < |s.loops| ==> s.loops[i] in s.loops && s.loops[i].ctx == l.ctx;
    }
  }

  // A loop keeps its tenant and the context it was spawned with, and a cancelled
  // context stays cancelled.
  lemma {:induction false} LoopKeepsContext(p: Path, id: LoopId, c: Ctx, n: nat)
    requires p.Valid() && n <= |p.actions|
    ensures id < |p.states[0].loops| ==>
              && id < |p.states[n].loops|
              && p.states[n].loops[id].ctx == p.states[0].loops[id].ctx
              && p.states[n].loops[id].tenant == p.states[0].loops[id].tenant
    ensures c in p.states[0].cancelled ==> c in p.states[n].cancelled
  {
    if n > 0 {
      LoopKeepsContext(p, id, c, n - 1);
      assert p.StepAt(n - 1);
    }
  }

  // Stop reaches every waiting loop that was spawned under the current context; a
  // second Stop does nothing.
  lemma StopReachesLoops(p: Path, k: nat, id: LoopId)
    requires IsRun(p) && k <= |p.actions| && p.states[k].started
    requires At(p.states[k], id, Debouncing) && p.states[k].loops[id].ctx == p.states[k].lifecycle
    ensures var s := Next(p.states[k], Stop);
            && !s.started && Next(s, Stop) == s
            && Enabled(s, SeeCancel(id)) && At(Next(s, SeeCancel(id)), id, Releasing)
  {
    ContextsAlways(p, k);
  }

  // A loop spawned before the first Start has no context, and can never be told
  // to leave.
  lemma DetachedLoopStays(p: Path, k: nat, t: Tenant, more: Path, n: nat)
    requires IsRun(p) && k <= |p.actions| && p.states[k].lifecycle.None? && t !in p.states[k].active
    requires more.Valid() && more.states[0] == Next(p.states[k], Lookup(t)) && n <= |more.actions|
    ensures !Enabled(more.states[n], SeeCancel(|p.states[k].loops|))
  {
    LoopKeepsContext(more, |p.states[k].loops|, 0, n);
  }

  // Starting twice is starting once; starting after Stop gives a context that is
  // not cancelled; but a loop spawned between the two gets the cancelled one.
  lemma Restart(p: Path, k: nat, t: Tenant)
    requires IsRun(p) && k <= |p.actions|
    ensures var s := Next(p.states[k], Start); s.started && Next(s, Start) == s
    ensures !p.states[k].started ==>
              var s := Next(p.states[k], Start); s.lifecycle.Some? && s.lifecycle.value !in s.cancelled
    ensures p.states[k].started && t !in p.states[k].active ==>
              var s := Next(Next(p.states[k], Stop), Lookup(t)); var id := |p.states[k].loops|;
              s.loops[id].ctx.Some? && s.loops[id].ctx.value in s.cancelled
  {
    ContextsAlways(p, k);
  }
}
