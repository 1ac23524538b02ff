// The health-gated rolling upgrade (internal/upgrade/manager.go,
// internal/upgrade/rolling.go) and its place before `tofu apply`
// (internal/reconcile/applier.go). Per-machine results are an arbitrary script.
module RollingUpgrade {
  import opened Wrappers

  // ----- The order: control planes first, otherwise as listed

  datatype Machine = Machine(name: string, role: string, talosVersion: string)

  predicate ControlPlane(m: Machine) { m.role == "controlplane" }

  // `perm` lists the machine indices in upgrade order: a bijection that puts
  // control planes first and keeps the listing order within each class.
  ghost predicate StableOrder(machines: seq<Machine>, perm: seq<int>) {
    && |perm| == |machines|
    && (forall k :: 0 <= k < |perm| ==> 0 <= perm[k] < |machines|)
    && (forall i :: 0 <= i < |machines| ==> i in perm)
    && (forall j, k :: 0 <= j < k < |perm| ==> Before(machines, perm[j], perm[k]))
  }

  predicate Before(machines: seq<Machine>, i: int, j: int) {
    && 0 <= i < |machines| && 0 <= j < |machines|
    && (ControlPlane(machines[i]) == ControlPlane(machines[j]) ==> i < j)
    && (ControlPlane(machines[j]) ==> ControlPlane(machines[i]))
  }

  ghost predicate InUpgradeOrder(machines: seq<Machine>, order: seq<string>) {
    exists perm :: StableOrder(machines, perm) && Names(machines, perm, order)
  }

  ghost predicate Names(machines: seq<Machine>, perm: seq<int>, order: seq<string>) {
    |order| == |perm| && forall k :: 0 <= k < |perm| ==> 0 <= perm[k] < |machines| && order[k] == machines[perm[k]].name
  }

  // In terms of roles: every machine once, every control plane before every other
  // machine, and machines of one kind as they were listed.
  lemma OrderByRoles(machines: seq<Machine>, order: seq<string>) returns (perm: seq<int>)
    requires InUpgradeOrder(machines, order)
    ensures |order| == |perm| == |machines|
    ensures forall k :: 0 <= k < |perm| ==> 0 <= perm[k] < |machines| && order[k] == machines[perm[k]].name
    ensures forall i :: 0 <= i < |machines| ==> i in perm
    ensures forall j, k :: 0 <= j < k < |perm| ==>
              && perm[j] != perm[k]
              && (machines[perm[k]].role == "controlplane" ==> machines[perm[j]].role == "controlplane")
              && ((machines[perm[j]].role == "controlplane" <==> machines[perm[k]].role == "controlplane") ==>
                    perm[j] < perm[k])
  {
    perm :| StableOrder(machines, perm) && Names(machines, perm, order);
    forall j, k | 0 <= j < k < |perm|
      ensures perm[j] != perm[k]
      ensures machines[perm[k]].role == "controlplane" ==> machines[perm[j]].role == "controlplane"
      ensures (machines[perm[j]].role == "controlplane" <==> machines[perm[k]].role == "controlplane") ==>
                perm[j] < perm[k]
    {
      assert Before(machines, perm[j], perm[k]);
    }
  }

  // There is only one such order.
  lemma {:induction false} OrderUnique(machines: seq<Machine>, p: seq<int>, q: seq<int>, n: nat)
    requires StableOrder(machines, p) && StableOrder(machines, q) && n <= |p|
    ensures p[..n] == q[..n]
  {
    if n > 0 {
      var k := n - 1;
      OrderUnique(machines, p, q, k);
      if p[k] != q[k] {
        ComesLater(machines, p, q, k);
        ComesLater(machines, q, p, k);
      }
      assert p[..n] == p[..k] + [p[k]] && q[..n] == q[..k] + [q[k]];
    }
  }

  lemma ComesLater(machines: seq<Machine>, p: seq<int>, q: seq<int>, k: nat)
    requires StableOrder(machines, p) && StableOrder(machines, q) && k < |p| && p[..k] == q[..k] && p[k] != q[k]
    ensures Before(machines, q[k], p[k])
  {
    assert p[k] in q;
    var j :| 0 <= j < |q| && q[j] == p[k];
    assert forall i :: 0 <= i < k ==> q[i] == q[..k][i] == p[..k][i] == p[i] && Before(machines, p[i], p[k]);
    assert Before(machines, q[k], q[j]);
  }

  // One half of the loop: the names of the class seen so far, in order.
  ghost predicate ClassPrefix(machines: seq<Machine>, n: int, cp: bool, idx: seq<int>, names: seq<string>) {
    && 0 <= n <= |machines|
    && Names(machines, idx, names)
    && (forall k :: 0 <= k < |idx| ==> 0 <= idx[k] < n && ControlPlane(machines[idx[k]]) == cp)
    && (forall j, k :: 0 <= j < k < |idx| ==> idx[j] < idx[k])
    && (forall i :: 0 <= i < n && ControlPlane(machines[i]) == cp ==> i in idx)
  }

  lemma ClassStep(machines: seq<Machine>, n: int, cp: bool, idx: seq<int>, names: seq<string>)
    requires n < |machines| && ClassPrefix(machines, n, cp, idx, names)
    ensures if ControlPlane(machines[n]) == cp
            then ClassPrefix(machines, n + 1, cp, idx + [n], names + [machines[n].name])
            else ClassPrefix(machines, n + 1, cp, idx, names)
  {
  }

  lemma ClassesJoin(machines: seq<Machine>, cps: seq<int>, cpNames: seq<string>, ws: seq<int>, wNames: seq<string>)
    requires ClassPrefix(machines, |machines|, true, cps, cpNames)
    requires ClassPrefix(machines, |machines|, false, ws, wNames)
    requires |cps| + |ws| == |machines|
    ensures InUpgradeOrder(machines, cpNames + wNames)
  {
    var perm := cps + ws;
    forall i | 0 <= i < |machines| ensures i in perm {
      assert i in cps || i in ws;
    }
    forall j, k | 0 <= j < k < |perm| ensures Before(machines, perm[j], perm[k]) {
      assert k < |cps| ==> cps[j] < cps[k];
      assert j >= |cps| ==> ws[j - |cps|] < ws[k - |cps|];
    }
    assert StableOrder(machines, perm) && Names(machines, perm, cpNames + wNames);
  }

  method ListMachinesInOrder(machines: seq<Machine>) returns (order: seq<string>)
    ensures InUpgradeOrder(machines, order)
    ensures |order| == |machines|
  {
    var controlPlane, workers := [], [];
    ghost var cps, ws := [], [];
    for n := 0 to |machines|
      invariant ClassPrefix(machines, n, true, cps, controlPlane)
      invariant ClassPrefix(machines, n, false, ws, workers)
      invariant |cps| + |ws| == n
    {
      ClassStep(machines, n, true, cps, controlPlane);
      ClassStep(machines, n, false, ws, workers);
      if ControlPlane(machines[n]) {
        controlPlane, cps := controlPlane + [machines[n].name], cps + [n];
      } else {
        workers, ws := workers + [machines[n].name], ws + [n];
      }
    }
    ClassesJoin(machines, cps, controlPlane, ws, workers);
    return controlPlane + workers;
  }

  // ----- rollUpgrade

  datatype Call =
    | Upgrade(machine: string, version: string)
    | Health(machine: string)
    | Rollback(machine: string, version: string)

  // What happens at the i-th machine: whether the context is cancelled by then,
  // and what each upgrader call would return.
  datatype Outcome = Outcome(cancelled: bool, upgradeOk: bool, healthOk: bool, rollbackOk: bool) {
    predicate Passes() { !cancelled && upgradeOk && healthOk }
  }

  type Script = nat -> Outcome

  predicate AllPass(script: Script, n: nat) { forall i :: 0 <= i < n ==> script(i).Passes() }

  datatype Phase = Complete | Failed | Canceled

  datatype Failure =
    | NoFailure
    | ListingFailed
    | CancelledByOperator
    | UpgradeFailed(machine: string, rollbackFailed: bool)
    | HealthFailed(machine: string)

  datatype Status = Status(phase: Phase, total: nat, completed: nat, current: string, failure: Failure)

  // The calls of machines that were upgraded and found healthy.
  function Passed(order: seq<string>, target: string): seq<Call> {
    if order == [] then []
    else Passed(order[..|order| - 1], target) + [Upgrade(order[|order| - 1], target), Health(order[|order| - 1])]
  }

  // The calls on the one machine the run stopped at.
  function Stopped(m: string, o: Outcome, current: string, target: string): seq<Call> {
    if o.cancelled then []
    else if !o.upgradeOk then [Upgrade(m, target), Rollback(m, current)]
    else [Upgrade(m, target), Health(m), Rollback(m, current)]
  }

  // How a run over `order` ends: a prefix of `status.completed` machines passed,
  // and the next one, if any, is where it stopped.
  predicate RunOver(order: seq<string>, script: Script, current: string, target: string, status: Status,
                    calls: seq<Call>) {
    && status.total == |order|
    && status.completed <= |order|
    && (forall i :: 0 <= i < status.completed ==> script(i).Passes())
    && if status.completed == |order| then
         && calls == Passed(order, target)
         && status.phase == Complete && status.failure == NoFailure && status.current == ""
       else
         var m, o := order[status.completed], script(status.completed);
         && !o.Passes()
         && calls == Passed(order[..status.completed], target) + Stopped(m, o, current, target)
         && status.phase == (if o.cancelled then Canceled else Failed)
         && status.current == (if !o.cancelled then m
                               else if status.completed == 0 then "" else order[status.completed - 1])
         && status.failure == (if o.cancelled then CancelledByOperator
                               else if !o.upgradeOk then UpgradeFailed(m, !o.rollbackOk)
                               else HealthFailed(m))
  }

  method RollUpgrade(current: string, target: string, listed: Option<seq<string>>, script: Script)
    returns (status: Status, calls: seq<Call>)
    ensures current == target ==> status.phase == Complete && status.completed == 0 && calls == []
    ensures current != target && listed.None? ==>
            status.phase == Failed && status.failure == ListingFailed && calls == []
    ensures current != target && listed.Some? ==> RunOver(listed.value, script, current, target, status, calls)
    ensures current != target && status.phase.Complete? ==>
              && listed.Some?
              && (forall i :: 0 <= i < |listed.value| ==>
                    !script(i).cancelled && script(i).upgradeOk && script(i).healthOk)
    ensures current != target && listed.Some? && status.phase.Failed? ==>
              && status.completed < |listed.value| && calls != []
              && calls[|calls| - 1] == Rollback(listed.value[status.completed], current)
  {
    status, calls := Status(Failed, 0, 0, "", NoFailure), [];
    if current == target {
      status := status.(phase := Complete);
      return;
    }
    if listed.None? {
      status := status.(failure := ListingFailed);
      return;
    }
    var machines := listed.value;
    if |machines| == 0 {
      status := status.(phase := Complete);
      return;
    }
    status := status.(total := |machines|);
    for i := 0 to |machines|
      invariant status.total == |machines| && status.completed == i && status.failure == NoFailure
      invariant forall k :: 0 <= k < i ==> script(k).Passes()
      invariant status.current == if i == 0 then "" else machines[i - 1]
      invariant calls == Passed(machines[..i], target)
    {
      var m, o := machines[i], script(i);
      if o.cancelled {
        status := status.(phase := Canceled, failure := CancelledByOperator);
        return;
      }
      status := status.(current := m, completed := i);
      calls := calls + [Upgrade(m, target)];
      if !o.upgradeOk {
        calls := calls + [Rollback(m, current)];
        status := status.(phase := Failed, failure := UpgradeFailed(m, !o.rollbackOk));
        return;
      }
      calls := calls + [Health(m)];
      if !o.healthOk {
        calls := calls + [Rollback(m, current)];
        status := status.(phase := Failed, failure := HealthFailed(m));
        return;
      }
      status := status.(completed := i + 1);
      assert machines[..i + 1][..i] == machines[..i];
    }
    status := status.(phase := Complete, current := "");
    assert machines[..|machines|] == machines;
  }

  // ----- What a finished run guarantees, without naming the loop

  lemma {:induction false} PassedCalls(order: seq<string>, target: string, k: nat)
    requires k < |Passed(order, target)|
    ensures |Passed(order, target)| == 2 * |order|
    ensures Passed(order, target)[k] == if k % 2 == 0 then Upgrade(order[k / 2], target) else Health(order[k / 2])
  {
    var n := |order| - 1;
    PassedLength(order[..n], target);
    if k < 2 * n {
      PassedCalls(order[..n], target, k);
    }
  }

  lemma {:induction false} PassedLength(order: seq<string>, target: string)
    ensures |Passed(order, target)| == 2 * |order|
  {
    if order != [] {
      PassedLength(order[..|order| - 1], target);
    }
  }

  // A run in terms of the machines' outcomes: the completed machines were upgraded
  // and found healthy, one after the other; a run is complete only if all were;
  // it is cancelled only between machines; and a failed upgrade or a failed health
  // check ends it with the rollback of that machine.
  lemma RunByOutcomes(order: seq<string>, script: Script, current: string, target: string, status: Status,
                      calls: seq<Call>, i: nat)
    requires RunOver(order, script, current, target, status, calls)
    ensures status.completed <= |order| && |calls| >= 2 * status.completed
    ensures i < status.completed ==>
              && !script(i).cancelled && script(i).upgradeOk && script(i).healthOk
              && calls[2 * i] == Upgrade(order[i], target) && calls[2 * i + 1] == Health(order[i])
    ensures status.phase.Complete? <==> status.completed == |order|
    ensures status.phase.Complete? ==> |calls| == 2 * |order|
    ensures status.phase.Canceled? ==>
              status.completed < |order| && script(status.completed).cancelled && |calls| == 2 * status.completed
    ensures status.phase.Failed? ==>
              && status.completed < |order|
              && !script(status.completed).cancelled
              && !(script(status.completed).upgradeOk && script(status.completed).healthOk)
              && calls[2 * status.completed..] ==
                 (if script(status.completed).upgradeOk
                  then [Upgrade(order[status.completed], target), Health(order[status.completed]),
                        Rollback(order[status.completed], current)]
                  else [Upgrade(order[status.completed], target), Rollback(order[status.completed], current)])
  {
    var done := order[..status.completed];
    PassedLength(done, target);
    assert order[..|order|] == order;
    if i < status.completed {
      PassedCalls(done, target, 2 * i);
      PassedCalls(done, target, 2 * i + 1);
    }
  }

  // Every Upgrade but the very last call pair was followed at once by a Health
  // check of the same machine, and a Rollback can only be the last call.
  lemma EveryUpgradeGated(order: seq<string>, script: Script, current: string, target: string, status: Status,
                          calls: seq<Call>, k: nat)
    requires RunOver(order, script, current, target, status, calls) && k < |calls|
    ensures calls[k].Rollback? ==> k == |calls| - 1 && calls[k].version == current && status.phase == Failed
    ensures calls[k].Upgrade? && k + 1 < |calls| && !calls[k + 1].Rollback? ==> calls[k + 1] == Health(calls[k].machine)
    ensures calls[k].Upgrade? ==> k + 1 < |calls|
  {
    var done := Passed(order[..status.completed], target);
    PassedLength(order[..status.completed], target);
    assert order[..|order|] == order;
    if k < |done| {
      PassedCalls(order[..status.completed], target, k);
      if k + 1 < |done| {
        PassedCalls(order[..status.completed], target, k + 1);
      }
    }
  }

  // ----- RunUpgrade and the gate in Apply

  method RunUpgrade(current: string, target: string, listed: Option<seq<string>>, script: Script)
    returns (ok: bool, calls: seq<Call>)
    ensures current == target ==> ok && calls == []
    ensures current != target ==>
              (ok <==>
               && listed.Some?
               && forall i :: 0 <= i < |listed.value| ==>
                    !script(i).cancelled && script(i).upgradeOk && script(i).healthOk)
    ensures current != target && listed.None? ==> calls == []
    ensures current != target && listed.Some? ==>
            exists status :: RunOver(listed.value, script, current, target, status, calls)
  {
    var status;
    status, calls := RollUpgrade(current, target, listed, script);
    ok := !(status.phase.Failed? || status.phase.Canceled?);
  }

  // sharedVersion: the version every listed machine reports, or "".
  method SharedVersion(versions: seq<string>) returns (v: string)
    ensures v != "" <==>
            versions != [] && versions[0] != "" && forall k :: 0 <= k < |versions| ==> versions[k] == versions[0]
    ensures v != "" ==> v == versions[0]
  {
    v := "";
    for i := 0 to |versions|
      invariant i == 0 ==> v == ""
      invariant i > 0 ==> v == versions[0] && v != ""
      invariant forall k :: 0 <= k < i ==> versions[k] == v
    {
      var mv := versions[i];
      if mv == "" {
        return "";
      }
      if i == 0 {
        v := mv;
      } else if mv != v {
        return "";
      }
    }
  }

  // Every listed machine reports the same version, and it is not the spec's.
  predicate UniformDrift(machines: seq<Machine>, spec: string) {
    && machines != [] && spec != ""
    && machines[0].talosVersion != "" && machines[0].talosVersion != spec
    && forall k :: 0 <= k < |machines| ==> machines[k].talosVersion == machines[0].talosVersion
  }

  datatype Tofu = Init | Apply

  // The rest of the world during one Apply: the two listings the code makes (one
  // for the drift check, one for the order; they may differ), the machine
  // outcomes, and whether rendering and each tofu command succeed.
  datatype World = World(
    hook: bool,
    observed: Option<seq<Machine>>,
    relisted: Option<seq<Machine>>,
    script: Script,
    renderOk: bool,
    initOk: bool,
    applyOk: bool)

  // The pre-apply gate opens: no hook, no drift, or an upgrade that every machine
  // passes.
  predicate GateOpens(spec: string, w: World) {
    !w.hook ||
    (w.observed.Some? &&
     (UniformDrift(w.observed.value, spec) ==> w.relisted.Some? && AllPass(w.script, |w.relisted.value|)))
  }

  // The calls of an upgrade to `spec` over the listed machines, passed or not.
  ghost predicate Upgraded(machines: seq<Machine>, script: Script, current: string, spec: string, calls: seq<Call>) {
    exists order, status :: InUpgradeOrder(machines, order) && RunOver(order, script, current, spec, status, calls)
  }

  // Apply of a tenant that is not being deleted.
  method ApplyTenant(spec: string, w: World) returns (ok: bool, calls: seq<Call>, tofu: seq<Tofu>)
    ensures tofu == if !GateOpens(spec, w) || !w.renderOk then [] else if w.initOk then [Init, Apply] else [Init]
    ensures if w.hook && w.observed.Some? && UniformDrift(w.observed.value, spec) && w.relisted.Some?
            then Upgraded(w.relisted.value, w.script, w.observed.value[0].talosVersion, spec, calls)
            else calls == []
    ensures tofu != [] <==>
              && w.renderOk
              && (!w.hook || w.observed.Some?)
              && (w.hook && w.observed.value != [] && spec != "" && w.observed.value[0].talosVersion != ""
                  && w.observed.value[0].talosVersion != spec
                  && (forall i :: 0 <= i < |w.observed.value| ==>
                        w.observed.value[i].talosVersion == w.observed.value[0].talosVersion)
                  ==> && w.relisted.Some?
                      && forall i :: 0 <= i < |w.relisted.value| ==>
                           !w.script(i).cancelled && w.script(i).upgradeOk && w.script(i).healthOk)
    ensures ok <==> tofu == [Init, Apply] && w.applyOk
  {
    calls, tofu := [], [];
    if w.hook {
      if w.observed.None? {
        return false, calls, tofu;
      }
      var machines := w.observed.value;
      if |machines| > 0 && spec != "" {
        var versions := seq(|machines|, i requires 0 <= i < |machines| => machines[i].talosVersion);
        var seen := SharedVersion(versions);
        assert UniformDrift(machines, spec) <==> seen != "" && seen != spec by {
          assert versions[0] == machines[0].talosVersion;
          assert forall k :: 0 <= k < |machines| ==> versions[k] == machines[k].talosVersion;
        }
        if seen != "" && seen != spec {
          var order: Option<seq<string>> := None;
          if w.relisted.Some? {
            var names := ListMachinesInOrder(w.relisted.value);
            order := Some(names);
          }
          var passed;
          passed, calls := RunUpgrade(seen, spec, order, w.script);
          if !passed {
            return false, calls, tofu;
          }
        }
      }
    }
    if !w.renderOk {
      return false, calls, tofu;
    }
    tofu := [Init];
    if !w.initOk {
      return false, calls, tofu;
    }
    tofu := [Init, Apply];
    return w.applyOk, calls, tofu;
  }
}
