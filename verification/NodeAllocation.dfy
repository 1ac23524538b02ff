// The node address allocator of internal/mgmtlink/store.go:78-157. The peers
// table is a map with its two uniqueness constraints; every SQL statement of
// every concurrent findOrAllocate call is one atomic step, and any of them may
// fail.
module NodeAllocation {
  import opened BigEndian
  import opened NodePrefix
  import opened Wrappers

  // Config.Validate only lets prefixes shorter than /64 through.
  datatype Config = Config(prefix: Address, bits: nat, port: nat) {
    predicate Valid() { bits < 64 }
  }

  type Identity = string

  // One mgmtlink_peers row; the stream address is `node` with `port`.
  datatype Row = Row(idx: Index, node: Address, port: nat, pubkey: string) {
    // The columns that must never change.
    predicate SameAddress(other: Row) { idx == other.idx && node == other.node && port == other.port }
  }

  type Table = map<Identity, Row>

  datatype Pc =
    | Selecting
    | ReadingMax
    | Inserting(idx: Index)
    | Rekeying(found: Row)
    | Done(result: Option<Row>)  // None: the call returned an error

  datatype Call = Call(identity: Identity, pubkey: string, pc: Pc)

  datatype State = State(table: Table, calls: seq<Call>)

  datatype Action =
    | Begin(identity: Identity, pubkey: string)
    | Statement(call: nat)  // the next SQL statement of the call
    | Fault(call: nat)      // that statement returns an error

  // ----- nextIndex

  ghost function Indices(table: Table): set<int> {
    set id | id in table :: table[id].idx
  }

  // The largest member of s up to n, or -1 (SQL NULL) when there is none.
  ghost function MaxUpTo(s: set<int>, n: int): int
    decreases n + 1
  {
    if n < 0 then -1 else if n in s then n else MaxUpTo(s, n - 1)
  }

  lemma {:induction false} MaxUpToIs(s: set<int>, n: int, m: int)
    requires -1 <= m <= n && (m == -1 || m in s)
    requires forall x :: x in s ==> x <= m
    ensures MaxUpTo(s, n) == m
    decreases n + 1
  {
    if m < n {
      MaxUpToIs(s, n - 1, m);
    }
  }

  // SELECT MAX(idx), then uint16(max + 1); None is "prefix exhausted".
  ghost function NextIndex(table: Table): Option<Index> {
    var m := MaxUpTo(Indices(table), 65535);
    if m == -1 then Some(1)
    else if m >= 65535 then None
    else Some((m + 1) % 65536)
  }

  // ----- The steps

  function NewRow(cfg: Config, c: Call, idx: Index): Row {
    Row(idx, Nth(cfg.prefix, cfg.bits, idx), cfg.port, c.pubkey)
  }

  ghost function CallStep(cfg: Config, table: Table, c: Call): (Table, Pc) {
    match c.pc
    case Selecting =>
      if c.identity !in table then (table, ReadingMax)
      else if table[c.identity].pubkey != c.pubkey then (table, Rekeying(table[c.identity]))
      else (table, Done(Some(table[c.identity])))
    case ReadingMax =>
      (match NextIndex(table) case None => (table, Done(None)) case Some(idx) => (table, Inserting(idx)))
    case Inserting(idx) =>
      if c.identity in table || idx in Indices(table) then (table, Done(None))
      else (table[c.identity := NewRow(cfg, c, idx)], Done(Some(NewRow(cfg, c, idx))))
    case Rekeying(found) =>
      (if c.identity in table then table[c.identity := table[c.identity].(pubkey := c.pubkey)] else table,
       Done(Some(found.(pubkey := c.pubkey))))
    case Done(_) => (table, c.pc)
  }

  ghost function Next(cfg: Config, s: State, a: Action): State {
    match a
    case Begin(identity, pubkey) => s.(calls := s.calls + [Call(identity, pubkey, Selecting)])
    case Statement(i) =>
      if i >= |s.calls| then s
      else
        var (table, pc) := CallStep(cfg, s.table, s.calls[i]);
        State(table, s.calls[i := s.calls[i].(pc := pc)])
    case Fault(i) =>
      if i >= |s.calls| || s.calls[i].pc.Done? then s
      else s.(calls := s.calls[i := s.calls[i].(pc := Done(None))])
  }

  // Every interleaving is a sequence of actions; an action of a call that does
  // not exist or has returned does nothing.
  ghost function After(cfg: Config, actions: seq<Action>): State {
    if actions == [] then State(map[], [])
    else Next(cfg, After(cfg, actions[..|actions| - 1]), actions[|actions| - 1])
  }

  // ----- What every step keeps

  // The indices are exactly 1..n, each held by one identity.
  ghost predicate IndicesOk(table: Table) {
    && |table| <= 65535
    && (forall i :: i in Indices(table) <==> 1 <= i <= |table|)
    && (forall x, y :: x in table && y in table && table[x].idx == table[y].idx ==> x == y)
  }

  predicate RowOk(cfg: Config, row: Row) {
    row.node == Nth(cfg.prefix, cfg.bits, row.idx) && row.port == cfg.port
  }

  ghost predicate TableOk(cfg: Config, table: Table) {
    IndicesOk(table) && forall x :: x in table ==> RowOk(cfg, table[x])
  }

  ghost predicate CallOk(table: Table, c: Call) {
    match c.pc
    case Inserting(idx) => 1 <= idx <= |table| + 1
    case Rekeying(found) => c.identity in table && table[c.identity].SameAddress(found)
    case Done(Some(row)) => c.identity in table && table[c.identity].SameAddress(row)
    case _ => true
  }

  ghost predicate Inv(cfg: Config, s: State) {
    TableOk(cfg, s.table) && forall i :: 0 <= i < |s.calls| ==> CallOk(s.table, s.calls[i])
  }

  // Rows are only added, and keep their address.
  ghost predicate Grows(old_: Table, new_: Table) {
    |old_| <= |new_| && forall x :: x in old_ ==> x in new_ && new_[x].SameAddress(old_[x])
  }

  // The next index is one past the table size, so the 16-bit sum does not wrap.
  lemma NextIndexExact(cfg: Config, table: Table)
    requires TableOk(cfg, table)
    ensures NextIndex(table) == if |table| == 65535 then None else Some(|table| + 1)
  {
    MaxUpToIs(Indices(table), 65535, if |table| == 0 then -1 else |table|);
  }

  lemma IndicesInsert(table: Table, id: Identity, row: Row)
    requires id !in table
    ensures Indices(table[id := row]) == Indices(table) + {row.idx}
  {
    var t := table[id := row];
    forall x | x in Indices(table) + {row.idx} ensures x in Indices(t) {
      if x == row.idx {
        assert id in t && t[id].idx == x;
      } else {
        var y :| y in table && table[y].idx == x;
        assert y in t && t[y].idx == x;
      }
    }
  }

  lemma InsertKeepsIndices(table: Table, id: Identity, row: Row)
    requires IndicesOk(table) && id !in table && row.idx !in Indices(table)
    requires 1 <= row.idx <= |table| + 1
    ensures IndicesOk(table[id := row])
  {
    var t := table[id := row];
    assert row.idx == |table| + 1 && |t| == |table| + 1;
    IndicesInsert(table, id, row);
    forall x, y | x in t && y in t && t[x].idx == t[y].idx ensures x == y {
      assert x in table ==> table[x].idx in Indices(table);
      assert y in table ==> table[y].idx in Indices(table);
    }
  }

  lemma RekeyKeepsIndices(table: Table, id: Identity, row: Row)
    requires IndicesOk(table) && id in table && row.idx == table[id].idx
    ensures IndicesOk(table[id := row])
  {
    var t := table[id := row];
    assert t.Keys == table.Keys;
    assert |t| == |t.Keys| == |table|;
    forall x | x in Indices(table) ensures x in Indices(t) {
      var y :| y in table && table[y].idx == x;
      assert y in t && t[y].idx == x;
    }
    assert Indices(t) == Indices(table);
  }

  lemma CallStepKeeps(cfg: Config, table: Table, c: Call)
    requires TableOk(cfg, table) && CallOk(table, c)
    ensures var (t, pc) := CallStep(cfg, table, c);
            TableOk(cfg, t) && Grows(table, t) && CallOk(t, c.(pc := pc))
  {
    match c.pc
    case ReadingMax => NextIndexExact(cfg, table);
    case Inserting(idx) =>
      if c.identity !in table && idx !in Indices(table) {
        InsertKeepsIndices(table, c.identity, NewRow(cfg, c, idx));
      }
    case Rekeying(_) => RekeyKeepsIndices(table, c.identity, table[c.identity].(pubkey := c.pubkey));
    case _ =>
  }

  lemma InvStep(cfg: Config, s: State, a: Action)
    requires Inv(cfg, s)
    ensures Inv(cfg, Next(cfg, s, a)) && Grows(s.table, Next(cfg, s, a).table)
  {
    var s' := Next(cfg, s, a);
    if a.Statement? && a.call < |s.calls| {
      CallStepKeeps(cfg, s.table, s.calls[a.call]);
    }
    forall i | 0 <= i < |s'.calls| ensures CallOk(s'.table, s'.calls[i]) {
      if i < |s.calls| {
        assert CallOk(s.table, s.calls[i]);
      }
    }
  }

  lemma {:induction false} InvAlways(cfg: Config, actions: seq<Action>)
    ensures Inv(cfg, After(cfg, actions))
  {
    if actions == [] {
      var empty: Table := map[];
      assert Indices(empty) == {};
    } else {
      InvAlways(cfg, actions[..|actions| - 1]);
      InvStep(cfg, After(cfg, actions[..|actions| - 1]), actions[|actions| - 1]);
    }
  }

  // ----- The promises

  ghost predicate Held(table: Table, i: int) { exists x :: x in table && table[x].idx == i }

  // In every interleaving the assigned indices are exactly 1..n, and they fit
  // the 16-bit index.
  lemma IndicesExact(cfg: Config, actions: seq<Action>)
    ensures var table := After(cfg, actions).table;
            && |table| <= 65535
            && (forall x :: x in table ==> 1 <= table[x].idx <= |table|)
            && (forall x, y :: x in table && y in table && table[x].idx == table[y].idx ==> x == y)
            && (forall i :: 1 <= i <= |table| ==> Held(table, i))
  {
    InvAlways(cfg, actions);
    var table := After(cfg, actions).table;
    assert forall x :: x in table ==> table[x].idx in Indices(table);
    forall i | 1 <= i <= |table| ensures Held(table, i) {
      assert i in Indices(table);
    }
  }

  // Once assigned, an identity's index, /64 and stream address never change.
  lemma {:induction false} AddressNeverChanges(cfg: Config, actions: seq<Action>, more: seq<Action>)
    ensures Grows(After(cfg, actions).table, After(cfg, actions + more).table)
    ensures var was, now := After(cfg, actions).table, After(cfg, actions + more).table;
            forall x :: x in was ==>
              x in now && now[x].idx == was[x].idx && now[x].node == was[x].node && now[x].port == was[x].port
  {
    if more == [] {
      assert actions + more == actions;
    } else {
      var n := |more| - 1;
      AddressNeverChanges(cfg, actions, more[..n]);
      assert (actions + more)[..|actions + more| - 1] == actions + more[..n];
      InvAlways(cfg, actions + more[..n]);
      InvStep(cfg, After(cfg, actions + more[..n]), more[n]);
    }
  }

  // What a call returned is what the table says, at that moment and for good.
  lemma AnswersAreFinal(cfg: Config, actions: seq<Action>, i: nat, more: seq<Action>)
    requires i < |After(cfg, actions).calls|
    requires After(cfg, actions).calls[i].pc.Done? && After(cfg, actions).calls[i].pc.result.Some?
    ensures var c := After(cfg, actions).calls[i]; var table := After(cfg, actions + more).table;
            var row := c.pc.result.value;
            && c.identity in table
            && table[c.identity].idx == row.idx
            && table[c.identity].node == row.node
            && table[c.identity].port == row.port
  {
    InvAlways(cfg, actions);
    AddressNeverChanges(cfg, actions, more);
    assert CallOk(After(cfg, actions).table, After(cfg, actions).calls[i]);
  }

  // Distinct identities hold distinct /64s, no address belongs to two of them,
  // and none is the /64 of the server's own address.
  lemma NodesDoNotOverlap(cfg: Config, actions: seq<Action>, x: Identity, y: Identity, ip: Address)
    requires cfg.Valid() && x != y
    requires x in After(cfg, actions).table && y in After(cfg, actions).table
    requires Mask(ip, 64) == After(cfg, actions).table[x].node
    ensures After(cfg, actions).table[x].node != After(cfg, actions).table[y].node
    ensures Mask(ip, 64) != After(cfg, actions).table[y].node
    ensures Mask(ip, 64) != Mask(NthAddr(cfg.prefix, cfg.bits, 0, 1), 64)
  {
    InvAlways(cfg, actions);
    var table := After(cfg, actions).table;
    assert table[x].idx in Indices(table);
    NodesDisjoint(cfg.prefix, cfg.bits, table[x].idx, table[y].idx, ip);
    ServerOutsideNodes(cfg.prefix, cfg.bits, table[x].idx);
  }

  // For prefixes up to /48 every node's /64 is inside the configured prefix, at
  // the masked base plus index * 2^64.
  lemma NodesInsidePrefix(cfg: Config, actions: seq<Action>, x: Identity)
    requires cfg.bits <= 48 && x in After(cfg, actions).table
    ensures var row := After(cfg, actions).table[x];
            && Mask(row.node, cfg.bits) == Mask(cfg.prefix, cfg.bits)
            && Value(row.node) == Value(Mask(cfg.prefix, cfg.bits)) + row.idx * Span(8)
  {
    InvAlways(cfg, actions);
    NthInside48(cfg.prefix, cfg.bits, After(cfg, actions).table[x].idx);
  }

  // ----- A call that nothing disturbs

  // The call after its next n statements, alone on the table.
  ghost function Alone(cfg: Config, table: Table, c: Call, n: nat): (Table, Call) {
    if n == 0 then (table, c)
    else
      var (t, d) := Alone(cfg, table, c, n - 1);
      var (t', pc) := CallStep(cfg, t, d);
      (t', d.(pc := pc))
  }

  // What a call is for: a known identity gets its row back with the new key, an
  // unknown one gets the index after the last, and a full table is an error.
  ghost function Allocation(cfg: Config, table: Table, identity: Identity, pubkey: string): (Table, Option<Row>)
    requires |table| <= 65535
  {
    if identity in table then
      var row := table[identity].(pubkey := pubkey);
      (table[identity := row], Some(row))
    else if |table| == 65535 then (table, None)
    else
      var n := |table| + 1;
      var row := Row(n, Nth(cfg.prefix, cfg.bits, n), cfg.port, pubkey);
      (table[identity := row], Some(row))
  }

  lemma OneStatement(cfg: Config, table: Table, c: Call)
    ensures Alone(cfg, table, c, 1) == (CallStep(cfg, table, c).0, c.(pc := CallStep(cfg, table, c).1))
  {
    assert Alone(cfg, table, c, 0) == (table, c);
  }

  // Three statements complete it.
  lemma CallAlone(cfg: Config, table: Table, identity: Identity, pubkey: string)
    requires TableOk(cfg, table)
    ensures var (end, result) := Allocation(cfg, table, identity, pubkey);
            Alone(cfg, table, Call(identity, pubkey, Selecting), 3) == (end, Call(identity, pubkey, Done(result)))
  {
    if identity in table {
      KnownAlone(cfg, table, identity, pubkey);
    } else {
      NewAlone(cfg, table, identity, pubkey);
    }
  }

  lemma KnownAlone(cfg: Config, table: Table, identity: Identity, pubkey: string)
    requires identity in table
    ensures var row := table[identity].(pubkey := pubkey);
            Alone(cfg, table, Call(identity, pubkey, Selecting), 3)
            == (table[identity := row], Call(identity, pubkey, Done(Some(row))))
  {
    var c := Call(identity, pubkey, Selecting);
    OneStatement(cfg, table, c);
    assert table == table[identity := table[identity]];
    assert Alone(cfg, table, c, 2) == Alone(cfg, table, c, 3);
  }

  lemma NewAlone(cfg: Config, table: Table, identity: Identity, pubkey: string)
    requires TableOk(cfg, table) && identity !in table
    ensures var (end, result) := Allocation(cfg, table, identity, pubkey);
            Alone(cfg, table, Call(identity, pubkey, Selecting), 3) == (end, Call(identity, pubkey, Done(result)))
  {
    var c := Call(identity, pubkey, Selecting);
    OneStatement(cfg, table, c);
    NextIndexExact(cfg, table);
    assert |table| + 1 !in Indices(table);
    assert Alone(cfg, table, c, 2).0 == table;
  }

  // After any interleaving, a call that begins and takes three steps in a row
  // does just that.
  lemma UndisturbedCall(cfg: Config, actions: seq<Action>, identity: Identity, pubkey: string)
    ensures |After(cfg, actions).table| <= 65535
    ensures var s := After(cfg, actions);
            var end := ThreeStatements(cfg, Next(cfg, s, Begin(identity, pubkey)), |s.calls|);
            var (table, result) := Allocation(cfg, s.table, identity, pubkey);
            && |end.calls| == |s.calls| + 1
            && end.table == table && end.calls[|s.calls|] == Call(identity, pubkey, Done(result))
  {
    InvAlways(cfg, actions);
    var s, c := After(cfg, actions), Call(identity, pubkey, Selecting);
    CallAlone(cfg, s.table, identity, pubkey);
    StatementsAlone(cfg, Next(cfg, s, Begin(identity, pubkey)), |s.calls|);
  }

  ghost function ThreeStatements(cfg: Config, s: State, i: nat): State {
    Next(cfg, Next(cfg, Next(cfg, s, Statement(i)), Statement(i)), Statement(i))
  }

  lemma StatementsAlone(cfg: Config, s: State, i: nat)
    requires i < |s.calls|
    ensures var end := ThreeStatements(cfg, s, i);
            |end.calls| == |s.calls| && (end.table, end.calls[i]) == Alone(cfg, s.table, s.calls[i], 3)
  {
    OneStatement(cfg, s.table, s.calls[i]);
    var s1 := Next(cfg, s, Statement(i));
    assert (s1.table, s1.calls[i]) == Alone(cfg, s.table, s.calls[i], 1);
    var s2 := Next(cfg, s1, Statement(i));
    assert (s2.table, s2.calls[i]) == Alone(cfg, s.table, s.calls[i], 2);
  }

  // ----- The store object, one call at a time

  class PeerStore {
    var table: Table

    constructor ()
      ensures table == map[]
    {
      table := map[];
    }

    // nextIndex; None is "prefix exhausted".
    method ReadNextIndex() returns (r: Option<Index>)
      ensures r == NextIndex(table)
    {
      var rest, m := table.Keys, -1;
      while rest != {}
        invariant rest <= table.Keys && -1 <= m <= 65535
        invariant forall x :: x in table && x !in rest ==> table[x].idx <= m
        invariant m == -1 || m in Indices(table)
        decreases rest
      {
        var x :| x in rest;
        assert table[x].idx in Indices(table);
        m := if table[x].idx > m then table[x].idx else m;
        rest := rest - {x};
      }
      MaxUpToIs(Indices(table), 65535, m);
      if m == -1 {
        return Some(1);
      }
      if m >= 65535 {
        return None;
      }
      return Some((m + 1) % 65536);
    }

    method Rekey(cfg: Config, identity: Identity, pubkey: string)
      requires TableOk(cfg, table) && identity in table
      modifies this
      ensures TableOk(cfg, table) && Grows(old(table), table)
      ensures table == old(table)[identity := old(table)[identity].(pubkey := pubkey)]
    {
      var row := table[identity].(pubkey := pubkey);
      RekeyKeepsIndices(table, identity, row);
      table := table[identity := row];
    }

    method Insert(cfg: Config, identity: Identity, row: Row)
      requires TableOk(cfg, table) && identity !in table && RowOk(cfg, row) && row.idx == |table| + 1
      modifies this
      ensures TableOk(cfg, table) && Grows(old(table), table)
      ensures table == old(table)[identity := row]
    {
      assert row.idx !in Indices(table);
      InsertKeepsIndices(table, identity, row);
      table := table[identity := row];
    }

    method FindOrAllocate(cfg: Config, identity: Identity, pubkey: string) returns (r: Option<Row>, created: bool)
      requires cfg.Valid() && TableOk(cfg, table)
      modifies this
      ensures TableOk(cfg, table) && Grows(old(table), table)
      ensures identity in old(table) ==> !created && r == Some(old(table)[identity].(pubkey := pubkey))
      ensures identity !in old(table) && |old(table)| == 65535 ==> r == None && table == old(table)
      ensures identity !in old(table) && |old(table)| < 65535 ==> created && r.Some? && r.value.idx == |old(table)| + 1
      ensures r.Some? ==> r.value.pubkey == pubkey && table == old(table)[identity := r.value]
      ensures (table, r) == Allocation(cfg, old(table), identity, pubkey)
    {
      if identity in table {
        if table[identity].pubkey != pubkey {
          Rekey(cfg, identity, pubkey);
        }
        assert table == old(table)[identity := table[identity]];
        return Some(table[identity]), false;
      }
      NextIndexExact(cfg, table);
      var next := ReadNextIndex();
      if next.None? {
        return None, false;
      }
      var node := PrefixNth(cfg.prefix, cfg.bits, next.value);
      var row := Row(next.value, node.value, cfg.port, pubkey);
      Insert(cfg, identity, row);
      return Some(row), true;
    }
  }
}
