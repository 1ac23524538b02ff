// The stream-slot takeover protocol of internal/mgmtlink/streamsvc.go:78-100.
// Steps: attaching (under the mutex), the deferred detach (under the mutex), and
// the two clean-up calls an owner makes after unlocking. A stream may end at any
// time, replaced or not.
module StreamSlots {

  type Addr = string
  type Handle = nat

  // Attached until the deferred function locks; an owner then still has to drop
  // the peer's queue (Owned) and to emit PeerDisconnected (Dropped).
  datatype Pc = Attached | Owned | Dropped | Finished

  // `replaced`: cancelled with errPeerReplaced by a later attach.
  datatype Stream = Stream(addr: Addr, pc: Pc, replaced: bool)

  datatype State = State(slots: map<Addr, Handle>, streams: seq<Stream>)

  datatype Action = Attach(addr: Addr) | Detach(h: Handle) | DropPeer(h: Handle) | Emit(h: Handle)

  predicate At(s: State, h: Handle, pc: Pc) { h < |s.streams| && s.streams[h].pc == pc }

  function Goto(s: State, h: Handle, pc: Pc): State
    requires h < |s.streams|
  {
    s.(streams := s.streams[h := s.streams[h].(pc := pc)])
  }

  // existing.cancel(errPeerReplaced)
  function Supersede(s: State, addr: Addr): seq<Stream> {
    if addr in s.slots && s.slots[addr] < |s.streams|
    then s.streams[s.slots[addr] := s.streams[s.slots[addr]].(replaced := true)]
    else s.streams
  }

  predicate Owns(s: State, h: Handle)
    requires h < |s.streams|
  {
    s.streams[h].addr in s.slots && s.slots[s.streams[h].addr] == h
  }

  // An action that is not enabled does nothing, so every sequence of actions is
  // an interleaving.
  function Next(s: State, a: Action): State {
    match a
    case Attach(addr) =>
      State(s.slots[addr := |s.streams|], Supersede(s, addr) + [Stream(addr, Attached, false)])
    case Detach(h) =>
      if !At(s, h, Attached) then s
      else if Owns(s, h) then Goto(s, h, Owned).(slots := s.slots - {s.streams[h].addr})
      else Goto(s, h, Finished)
    case DropPeer(h) => if At(s, h, Owned) then Goto(s, h, Dropped) else s
    case Emit(h) => if At(s, h, Dropped) then Goto(s, h, Finished) else s
  }

  function After(actions: seq<Action>): State {
    if actions == [] then State(map[], [])
    else Next(After(actions[..|actions| - 1]), actions[|actions| - 1])
  }

  // ----- Who holds the slot

  predicate SlotOk(s: State, addr: Addr) {
    addr in s.slots ==>
      && At(s, s.slots[addr], Attached)
      && s.streams[s.slots[addr]].addr == addr
      && (forall h :: s.slots[addr] < h < |s.streams| ==> s.streams[h].addr != addr)
  }

  // A stream that has not begun to detach holds its slot exactly when it was not
  // replaced, and only an unreplaced stream ever reaches the clean-up calls.
  predicate StreamOk(s: State, h: Handle) {
    h < |s.streams| ==>
      && (s.streams[h].pc.Attached? ==> (Owns(s, h) <==> !s.streams[h].replaced))
      && (s.streams[h].pc.Owned? || s.streams[h].pc.Dropped? ==> !s.streams[h].replaced)
  }

  ghost predicate Inv(s: State) {
    && (forall addr :: SlotOk(s, addr))
    && (forall h: Handle :: StreamOk(s, h))
  }

  lemma SlotStep(s: State, a: Action, addr: Addr)
    requires Inv(s)
    ensures SlotOk(Next(s, a), addr)
  {
    assert SlotOk(s, addr);
  }

  lemma StreamStep(s: State, a: Action, h: Handle)
    requires Inv(s)
    ensures StreamOk(Next(s, a), h)
  {
    assert StreamOk(s, h);
    if a.Attach? {
      assert SlotOk(s, a.addr);
    } else if a.h < |s.streams| {
      assert StreamOk(s, a.h) && SlotOk(s, s.streams[a.h].addr);
    }
    if h < |s.streams| {
      assert SlotOk(s, s.streams[h].addr);
    }
  }

  lemma {:induction false} InvAlways(actions: seq<Action>)
    ensures Inv(After(actions))
  {
    if actions != [] {
      var s, a := After(actions[..|actions| - 1]), actions[|actions| - 1];
      InvAlways(actions[..|actions| - 1]);
      forall addr ensures SlotOk(Next(s, a), addr) { SlotStep(s, a, addr); }
      forall h: Handle ensures StreamOk(Next(s, a), h) { StreamStep(s, a, h); }
    }
  }

  // An occupied slot holds the stream of the latest attach to it.
  lemma SlotHoldsLatest(actions: seq<Action>, addr: Addr, h: Handle)
    requires addr in After(actions).slots
    requires h < |After(actions).streams| && After(actions).streams[h].addr == addr
    ensures h <= After(actions).slots[addr]
    ensures At(After(actions), After(actions).slots[addr], Attached) &&
            !After(actions).streams[After(actions).slots[addr]].replaced
  {
    InvAlways(actions);
    assert SlotOk(After(actions), addr);
    assert StreamOk(After(actions), After(actions).slots[addr]);
  }

  // Detaching frees the slot exactly when the stream was not replaced; a
  // replaced stream leaves its successor in place and never gets to the
  // clean-up calls, so it emits no disconnect.
  lemma ReplacedNeverTearsDown(actions: seq<Action>, h: Handle)
    requires h < |After(actions).streams| && After(actions).streams[h].replaced
    ensures Next(After(actions), Detach(h)).slots == After(actions).slots
    ensures Next(After(actions), DropPeer(h)) == After(actions)
    ensures Next(After(actions), Emit(h)) == After(actions)
  {
    InvAlways(actions);
    assert StreamOk(After(actions), h);
  }

  lemma {:induction false} ReplacedForGood(actions: seq<Action>, more: seq<Action>, h: Handle)
    requires h < |After(actions).streams| && After(actions).streams[h].replaced
    ensures h < |After(actions + more).streams| && After(actions + more).streams[h].replaced
  {
    if more == [] {
      assert actions + more == actions;
    } else {
      ReplacedForGood(actions, more[..|more| - 1], h);
      assert (actions + more)[..|actions + more| - 1] == actions + more[..|more| - 1];
    }
  }

  // ----- Connects and disconnects balance

  // Attaches that found the slot of `addr` empty.
  function FreshAttaches(actions: seq<Action>, addr: Addr): nat {
    if actions == [] then 0
    else
      var front, a := actions[..|actions| - 1], actions[|actions| - 1];
      FreshAttaches(front, addr) + if a == Attach(addr) && addr !in After(front).slots then 1 else 0
  }

  // PeerDisconnected events emitted for `addr`.
  function Disconnects(actions: seq<Action>, addr: Addr): nat {
    if actions == [] then 0
    else
      var front, a := actions[..|actions| - 1], actions[|actions| - 1];
      Disconnects(front, addr) +
      if a.Emit? && At(After(front), a.h, Dropped) && After(front).streams[a.h].addr == addr then 1 else 0
  }

  // Streams of `addr` that gave the slot up and have not emitted yet.
  function Leaving(streams: seq<Stream>, addr: Addr): nat {
    if streams == [] then 0
    else Leaving(streams[..|streams| - 1], addr) + LeavingOne(streams[|streams| - 1], addr)
  }

  function LeavingOne(x: Stream, addr: Addr): nat {
    if x.addr == addr && (x.pc.Owned? || x.pc.Dropped?) then 1 else 0
  }

  lemma {:induction false} LeavingUpdate(streams: seq<Stream>, h: nat, x: Stream, addr: Addr)
    requires h < |streams|
    ensures Leaving(streams[h := x], addr) ==
            Leaving(streams, addr) - LeavingOne(streams[h], addr) + LeavingOne(x, addr)
  {
    var n := |streams| - 1;
    var changed := streams[h := x];
    if h < n {
      LeavingUpdate(streams[..n], h, x, addr);
      assert changed[..n] == streams[..n][h := x];
    } else {
      assert changed[..n] == streams[..n];
    }
  }

  function Occupied(s: State, addr: Addr): nat { if addr in s.slots then 1 else 0 }

  lemma LeavingAttach(s: State, a: Addr, addr: Addr)
    requires Inv(s)
    ensures Leaving(Next(s, Attach(a)).streams, addr) == Leaving(s.streams, addr)
  {
    assert SlotOk(s, a);
    var base := Supersede(s, a);
    if base != s.streams {
      LeavingUpdate(s.streams, s.slots[a], s.streams[s.slots[a]].(replaced := true), addr);
    }
    var all := base + [Stream(a, Attached, false)];
    assert all[..|all| - 1] == base;
  }

  lemma BalanceStep(s: State, a: Action, addr: Addr)
    requires Inv(s)
    ensures
      var s' := Next(s, a);
      Leaving(s'.streams, addr) + Occupied(s', addr)
      + (if a.Emit? && At(s, a.h, Dropped) && s.streams[a.h].addr == addr then 1 else 0)
      == Leaving(s.streams, addr) + Occupied(s, addr) + (if a == Attach(addr) && addr !in s.slots then 1 else 0)
  {
    if a.Attach? {
      LeavingAttach(s, a.addr, addr);
    } else if a.h < |s.streams| {
      assert StreamOk(s, a.h) && SlotOk(s, addr);
      LeavingUpdate(s.streams, a.h, Next(s, a).streams[a.h], addr);
      assert s.streams == s.streams[a.h := s.streams[a.h]];
    }
  }

  // In every interleaving: attaches to an empty slot = disconnects emitted or
  // pending, plus one if the slot is occupied.
  lemma {:induction false} ConnectsBalanceDisconnects(actions: seq<Action>, addr: Addr)
    ensures FreshAttaches(actions, addr) ==
            Disconnects(actions, addr) + Leaving(After(actions).streams, addr) + Occupied(After(actions), addr)
  {
    if actions != [] {
      var front := actions[..|actions| - 1];
      ConnectsBalanceDisconnects(front, addr);
      InvAlways(front);
      BalanceStep(After(front), actions[|actions| - 1], addr);
    }
  }

  // ----- The critical sections on real objects

  class StreamHandle {
    var cancelled: bool  // cancel(errPeerReplaced) was called

    constructor ()
      ensures !cancelled
    {
      cancelled := false;
    }
  }

  class StreamService {
    var streams: map<Addr, StreamHandle>
    ghost var made: seq<StreamHandle>

    constructor ()
      ensures Represents(State(map[], []))
    {
      streams, made := map[], [];
    }

    ghost predicate Represents(s: State)
      reads this, made
    {
      && |made| == |s.streams|
      && (forall i, j :: 0 <= i < j < |made| ==> made[i] != made[j])
      && (forall i :: 0 <= i < |made| ==> made[i].cancelled == s.streams[i].replaced)
      && streams.Keys == s.slots.Keys
      && (forall a :: a in streams ==> s.slots[a] < |made| && streams[a] == made[s.slots[a]])
    }

    method TakeSlot(addr: Addr, ghost s: State) returns (handle: StreamHandle)
      requires Represents(s)
      modifies this, made
      ensures Represents(Next(s, Attach(addr)))
      ensures fresh(handle) && made == old(made) + [handle]
    {
      if addr in streams {
        var existing := streams[addr];
        existing.cancelled := true;
      }
      handle := new StreamHandle();
      streams := streams[addr := handle];
      made := made + [handle];
    }

    method GiveUpSlot(addr: Addr, handle: StreamHandle, ghost s: State, ghost h: Handle) returns (owns: bool)
      requires Inv(s) && Represents(s) && At(s, h, Attached) && made[h] == handle && s.streams[h].addr == addr
      modifies this
      ensures Represents(Next(s, Detach(h))) && made == old(made)
      ensures owns <==> !handle.cancelled
    {
      assert StreamOk(s, h);
      owns := addr in streams && streams[addr] == handle;
      if owns {
        streams := streams - {addr};
      }
    }
  }
}
