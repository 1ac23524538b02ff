// The resources table of internal/state/store.go. JSON columns hold their
// decoded values; a spec or status is an opaque document.
module ResourceStore {
  import opened Wrappers

  type Document = string
  type Labels = map<string, string>

  datatype Key = Key(kind: string, name: string)

  // Timestamps are not modelled; `deleting` is deletion_timestamp IS NOT NULL.
  datatype Row = Row(
    uid: nat,
    version: nat,
    spec: Document,
    status: Document,
    finalizers: seq<string>,
    labels: Labels,
    annotations: Labels,
    deleting: bool)

  type Rows = map<Key, Row>

  const TENANT_LABEL := "rezuscloud.io/tenant"

  // The two teardown finalizers of a tenant.
  const MACHINES := "rezuscloud.io/machines"
  const SECRETS := "rezuscloud.io/secrets"

  // json_extract(labels, '$."rezuscloud.io/tenant"') = tenant
  predicate LabelledWith(row: Row, tenant: string) {
    TENANT_LABEL in row.labels && row.labels[TENANT_LABEL] == tenant
  }

  // ----- Events

  datatype Mutation = Created | SpecChanged | StatusChanged | Deleted

  datatype Event = Event(key: Key, mutation: Mutation, labels: Labels)

  // tenantOf of internal/reconcile/bus.go.
  function TenantOf(ev: Event): string {
    if ev.key.kind == "tenant" then ev.key.name
    else if TENANT_LABEL in ev.labels then ev.labels[TENANT_LABEL]
    else ""
  }

  // EnqueueBus.Publish: the tenant it enqueues, if any.
  function Enqueues(ev: Event): (r: Option<string>)
    ensures ev.mutation.StatusChanged? ==> r.None?
    ensures !ev.mutation.StatusChanged? && ev.key.kind == "tenant" ==>
              r == if ev.key.name == "" then None else Some(ev.key.name)
    ensures !ev.mutation.StatusChanged? && ev.key.kind != "tenant" ==>
              r == if "rezuscloud.io/tenant" in ev.labels && ev.labels["rezuscloud.io/tenant"] != ""
                   then Some(ev.labels["rezuscloud.io/tenant"]) else None
  {
    if ev.mutation.StatusChanged? || TenantOf(ev) == "" then None else Some(TenantOf(ev))
  }

  // ----- Rows after one SQL statement

  function NewRow(uid: nat, spec: Document, status: Document, labels: Labels, annotations: Labels): Row {
    Row(uid, 1, spec, status, [], labels, annotations, false)
  }

  function Respecified(row: Row, spec: Document, labels: Labels, annotations: Labels): Row {
    row.(spec := spec, labels := labels, annotations := annotations, version := row.version + 1)
  }

  // The finalizers with f, once.
  function Adding(finalizers: seq<string>, f: string): (r: seq<string>)
    ensures finalizers <= r && f in r
    ensures forall g :: g in r ==> g in finalizers || g == f
    ensures multiset(r)[f] == if f in finalizers then multiset(finalizers)[f] else 1
    ensures |r| <= |finalizers| + 1 && (f in finalizers ==> r == finalizers)
  {
    if f in finalizers then finalizers else finalizers + [f]
  }

  function Without(finalizers: seq<string>, f: string): (r: seq<string>)
    ensures f !in r
    ensures forall x :: x != f ==> (x in r <==> x in finalizers)
    ensures |r| <= |finalizers| && (|r| == |finalizers| <==> f !in finalizers)
  {
    if finalizers == [] then []
    else if finalizers[0] == f then Without(finalizers[1..], f)
    else [finalizers[0]] + Without(finalizers[1..], f)
  }

  // What is left keeps its order and its repetitions.
  lemma {:induction false} WithoutConcat(x: seq<string>, y: seq<string>, f: string)
    ensures Without(x + y, f) == Without(x, f) + Without(y, f)
  {
    if x == [] {
      assert x + y == y;
    } else {
      WithoutConcat(x[1..], y, f);
      assert (x + y)[1..] == x[1..] + y && (x + y)[0] == x[0];
      var a, b := Without(x[1..], f), Without(y, f);
      assert [x[0]] + (a + b) == [x[0]] + a + b;
    }
  }

  lemma {:induction false} WithoutKeepsAll(finalizers: seq<string>, f: string)
    ensures multiset(Without(finalizers, f)) == multiset(finalizers)[f := 0]
  {
    if finalizers != [] {
      WithoutKeepsAll(finalizers[1..], f);
      assert finalizers == [finalizers[0]] + finalizers[1..];
    }
  }

  lemma {:induction false} WithoutAbsent(finalizers: seq<string>, f: string)
    requires f !in finalizers
    ensures Without(finalizers, f) == finalizers
  {
    if finalizers != [] {
      WithoutAbsent(finalizers[1..], f);
      assert [finalizers[0]] + finalizers[1..] == finalizers;
    }
  }

  lemma WithoutIsEmptyIff(finalizers: seq<string>, f: string)
    ensures Without(finalizers, f) == [] <==> forall g :: g in finalizers ==> g == f
  {
    var rest := Without(finalizers, f);
    if rest != [] {
      assert rest[0] in rest;
    }
  }

  // Rows after RemoveFinalizer: the last finalizer of a deleting row takes the
  // row with it.
  function FinalizerRemoved(rows: Rows, key: Key, f: string): Rows {
    if key !in rows || f !in rows[key].finalizers then rows
    else if Without(rows[key].finalizers, f) == [] && rows[key].deleting then rows - {key}
    else rows[key := rows[key].(finalizers := Without(rows[key].finalizers, f))]
  }

  // The same when the final DELETE may fail: that error is swallowed, and the row
  // keeps its finalizers.
  function FinalizerOutcome(rows: Rows, key: Key, f: string, gcFault: bool): Rows {
    if gcFault && key !in FinalizerRemoved(rows, key, f) then rows else FinalizerRemoved(rows, key, f)
  }

  // A row the teardown cascade deletes: labelled with the tenant, not a tenant.
  predicate IsChild(k: Key, row: Row, tenant: string) {
    k.kind != "tenant" && LabelledWith(row, tenant)
  }

  function Children(rows: Rows, tenant: string): set<Key> {
    set k | k in rows && IsChild(k, rows[k], tenant)
  }

  function Childless(rows: Rows, tenant: string): Rows { rows - Children(rows, tenant) }

  // ----- The cascade: rows deleted one by one, each with its event

  function Deletions(rows: Rows, keys: seq<Key>): (r: seq<Event>)
    ensures |r| == |keys|
  {
    seq(|keys|, i requires 0 <= i < |keys| =>
      Event(keys[i], Deleted, if keys[i] in rows then rows[keys[i]].labels else map[]))
  }

  function Members(keys: seq<Key>): set<Key> { set k | k in keys }

  predicate NoRepeats(keys: seq<Key>) { forall i, j :: 0 <= i < j < |keys| ==> keys[i] != keys[j] }

  lemma DeleteOneMore(rows: Rows, gone: seq<Key>, k: Key)
    requires k !in gone && NoRepeats(gone) && k in rows
    ensures Members(gone + [k]) == Members(gone) + {k} && NoRepeats(gone + [k])
    ensures rows - Members(gone) - {k} == rows - Members(gone + [k])
    ensures Deletions(rows, gone + [k]) == Deletions(rows, gone) + [Event(k, Deleted, rows[k].labels)]
  {
    assert Members(gone + [k]) == Members(gone) + {k};
  }

  // Of `keys`, those in `gone` are deleted and announced and `pending` is left.
  ghost predicate DeletedSoFar(old_: Rows, new_: Rows, was: seq<Event>, events: seq<Event>,
                               keys: set<Key>, pending: set<Key>, gone: seq<Key>) {
    && pending <= keys <= old_.Keys
    && NoRepeats(gone) && Members(gone) == keys - pending && |gone| == |keys| - |pending|
    && new_ == old_ - Members(gone)
    && events == was + Deletions(old_, gone)
  }

  lemma DeletedNext(old_: Rows, new_: Rows, was: seq<Event>, events: seq<Event>,
                    keys: set<Key>, pending: set<Key>, gone: seq<Key>, k: Key)
    requires DeletedSoFar(old_, new_, was, events, keys, pending, gone) && k in pending
    ensures k in new_ && new_[k] == old_[k]
    ensures var more := events + [Event(k, Deleted, new_[k].labels)];
            DeletedSoFar(old_, new_ - {k}, was, more, keys, pending - {k}, gone + [k])
  {
    assert k !in Members(gone);
    DeleteOneMore(old_, gone, k);
    assert keys - (pending - {k}) == keys - pending + {k};
  }

  // The cascade deleted the children `gone` of the tenant, in that order.
  ghost predicate Cascaded(old_: Rows, new_: Rows, tenant: string, gone: seq<Key>) {
    NoRepeats(gone) && Members(gone) <= Children(old_, tenant) && new_ == old_ - Members(gone)
  }

  lemma {:induction false} MembersCount(keys: seq<Key>)
    requires NoRepeats(keys)
    ensures |Members(keys)| == |keys|
  {
    if keys != [] {
      var n := |keys| - 1;
      MembersCount(keys[..n]);
      assert Members(keys) == Members(keys[..n]) + {keys[n]};
      assert keys[n] !in keys[..n];
    }
  }

  class Store {
    var rows: Rows
    var secrets: map<string, Document>  // tenant_secrets
    var events: seq<Event>
    var nextUid: nat

    constructor ()
      ensures rows == map[] && secrets == map[] && events == []
    {
      rows, secrets, events, nextUid := map[], map[], [], 0;
    }

    // INSERT fails when (type, name) is taken.
    method CreateResource(key: Key, spec: Document, status: Document, labels: Labels, annotations: Labels)
      returns (ok: bool)
      modifies this`rows, this`events, this`nextUid
      ensures ok <==> key !in old(rows)
      ensures ok ==> rows == old(rows)[key := Row(old(nextUid), 1, spec, status, [], labels, annotations, false)]
      ensures ok ==> events == old(events) + [Event(key, Created, labels)] && nextUid == old(nextUid) + 1
      ensures !ok ==> rows == old(rows) && events == old(events) && nextUid == old(nextUid)
    {
      ok := key !in rows;
      if ok {
        rows := rows[key := NewRow(nextUid, spec, status, labels, annotations)];
        nextUid := nextUid + 1;
        events := events + [Event(key, Created, labels)];
      }
    }

    // UPDATE ... WHERE version = expected; no row affected is ErrConflict.
    method UpdateResource(key: Key, expected: nat, spec: Document, labels: Labels, annotations: Labels)
      returns (ok: bool)
      modifies this`rows, this`events
      ensures ok <==> key in old(rows) && old(rows)[key].version == expected
      ensures ok ==>
                var was := old(rows)[key];
                rows == old(rows)[key := was.(spec := spec, labels := labels, annotations := annotations,
                                              version := expected + 1)]
      ensures ok ==> events == old(events) + [Event(key, SpecChanged, labels)]
      ensures !ok ==> rows == old(rows) && events == old(events)
    {
      ok := key in rows && rows[key].version == expected;
      if ok {
        rows := rows[key := Respecified(rows[key], spec, labels, annotations)];
        events := events + [Event(key, SpecChanged, labels)];
      }
    }

    method UpdateStatus(key: Key, status: Document) returns (ok: bool)
      modifies this`rows, this`events
      ensures ok <==> key in old(rows)
      ensures ok ==> rows == old(rows)[key := old(rows)[key].(status := status)]
      ensures ok ==> events == old(events) + [Event(key, StatusChanged, old(rows)[key].labels)]
      ensures !ok ==> rows == old(rows) && events == old(events)
    {
      ok := key in rows;
      if ok {
        rows := rows[key := rows[key].(status := status)];
        events := events + [Event(key, StatusChanged, rows[key].labels)];
      }
    }

    method DeleteResource(key: Key) returns (ok: bool)
      modifies this`rows, this`events
      ensures ok <==> key in old(rows) && !old(rows)[key].deleting
      ensures ok ==> rows == old(rows)[key := old(rows)[key].(deleting := true)]
      ensures ok ==> events == old(events) + [Event(key, Deleted, old(rows)[key].labels)]
      ensures !ok ==> rows == old(rows) && events == old(events)
    {
      ok := key in rows && !rows[key].deleting;
      if ok {
        rows := rows[key := rows[key].(deleting := true)];
        events := events + [Event(key, Deleted, rows[key].labels)];
      }
    }

    method RemoveResource(key: Key)
      modifies this`rows, this`events
      ensures rows == old(rows) - {key}
      ensures events == if key in old(rows) then old(events) + [Event(key, Deleted, old(rows)[key].labels)]
                        else old(events)
    {
      if key in rows {
        events := events + [Event(key, Deleted, rows[key].labels)];
      }
      rows := rows - {key};
    }

    method AddFinalizer(key: Key, f: string, fault: bool) returns (ok: bool)
      modifies this`rows
      ensures ok <==> key in old(rows) && !fault
      ensures !ok ==> rows == old(rows)
      ensures ok ==> rows == old(rows)[key := old(rows)[key].(finalizers := Adding(old(rows)[key].finalizers, f))]
    {
      ok := key in rows && !fault;
      if ok && f !in rows[key].finalizers {
        rows := rows[key := rows[key].(finalizers := rows[key].finalizers + [f])];
      }
    }

    // `fault`: a statement other than the final DELETE returns an error. An
    // error of that DELETE (`gcFault`) is swallowed.
    method RemoveFinalizer(key: Key, f: string, fault: bool, gcFault: bool) returns (ok: bool)
      modifies this`rows, this`events
      ensures ok <==> key in old(rows) && !fault
      ensures rows == if fault then old(rows) else FinalizerOutcome(old(rows), key, f, gcFault)
      ensures fault || key !in old(rows) || f !in old(rows)[key].finalizers ==> rows == old(rows)
      ensures !fault && key in old(rows) && f in old(rows)[key].finalizers ==>
                var was := old(rows)[key];
                if was.deleting && forall g :: g in was.finalizers ==> g == f
                then rows == if gcFault then old(rows) else old(rows) - {key}
                else rows == old(rows)[key := was.(finalizers := Without(was.finalizers, f))]
      ensures events == if key in old(rows) && key !in rows
                        then old(events) + [Event(key, Deleted, old(rows)[key].labels)]
                        else old(events)
    {
      ok := key in rows && !fault;
      if !ok || f !in rows[key].finalizers {
        return;
      }
      var rest := Without(rows[key].finalizers, f);
      WithoutIsEmptyIff(rows[key].finalizers, f);
      if |rest| == 0 && rows[key].deleting {
        if !gcFault {
          RemoveResource(key);
        }
      } else {
        rows := rows[key := rows[key].(finalizers := rest)];
      }
    }

    // RemoveResourcesByTenant: select, then delete row by row in any order. With
    // a fault, the delete after `failAfter` rows returns an error.
    method RemoveResourcesByTenant(tenant: string, failAfter: Option<nat>)
      returns (n: nat, ok: bool, ghost gone: seq<Key>)
      modifies this`rows, this`events
      ensures Cascaded(old(rows), rows, tenant, gone)
      ensures events == old(events) + Deletions(old(rows), gone)
      ensures ok <==> failAfter.None? || failAfter.value >= |Children(old(rows), tenant)|
      ensures |gone| == if ok then |Children(old(rows), tenant)| else failAfter.value
      ensures n == if ok then |gone| else 0
      ensures ok ==> rows == Childless(old(rows), tenant)
      ensures forall k :: k in rows ==> k in old(rows) && rows[k] == old(rows)[k]
      ensures forall k ::
                && k in old(rows)
                && (|| k.kind == "tenant"
                    || "rezuscloud.io/tenant" !in old(rows)[k].labels
                    || old(rows)[k].labels["rezuscloud.io/tenant"] != tenant)
                ==> k in rows
      ensures ok ==> forall k :: k in rows ==>
                || k.kind == "tenant"
                || "rezuscloud.io/tenant" !in rows[k].labels
                || rows[k].labels["rezuscloud.io/tenant"] != tenant
    {
      var pending := set k | k in rows && IsChild(k, rows[k], tenant);
      ok, gone := DeleteEach(pending, failAfter);
      n := if ok then |pending| else 0;
    }

    method DeleteEach(keys: set<Key>, failAfter: Option<nat>) returns (ok: bool, ghost gone: seq<Key>)
      requires keys <= rows.Keys
      modifies this`rows, this`events
      ensures NoRepeats(gone) && Members(gone) <= keys && rows == old(rows) - Members(gone)
      ensures events == old(events) + Deletions(old(rows), gone)
      ensures ok ==> Members(gone) == keys
      ensures ok <==> failAfter.None? || failAfter.value >= |keys|
      ensures |gone| == if ok then |keys| else failAfter.value
    {
      var pending, n := keys, 0;
      gone := [];
      assert Members(gone) == {};
      while pending != {}
        invariant DeletedSoFar(old(rows), rows, old(events), events, keys, pending, gone)
        invariant n == |gone| && (failAfter.Some? ==> n <= failAfter.value)
        decreases pending
      {
        if failAfter == Some(n) {
          return false, gone;
        }
        var k :| k in pending;
        DeletedNext(old(rows), rows, old(events), events, keys, pending, gone, k);
        RemoveResource(k);
        pending, gone, n := pending - {k}, gone + [k], n + 1;
      }
      return true, gone;
    }

    // DeleteTenant: mark, then add both teardown finalizers; errors of the two
    // additions (`noMachines`, `noSecrets`) are ignored.
    method DeleteTenant(name: string, noMachines: bool, noSecrets: bool) returns (ok: bool)
      modifies this`rows, this`events
      ensures ok <==> Key("tenant", name) in old(rows) && !old(rows)[Key("tenant", name)].deleting
      ensures !ok ==> rows == old(rows) && events == old(events)
      ensures ok ==>
                var was := old(rows)[Key("tenant", name)];
                var first := if noMachines then was.finalizers else Adding(was.finalizers, MACHINES);
                && rows == old(rows)[Key("tenant", name) :=
                     was.(deleting := true, finalizers := if noSecrets then first else Adding(first, SECRETS))]
                && events == old(events) + [Event(Key("tenant", name), Deleted, was.labels)]
      ensures ok ==>
                var was, now := old(rows)[Key("tenant", name)].finalizers, rows[Key("tenant", name)].finalizers;
                && was <= now && |now| <= |was| + 2
                && (!noMachines ==> "rezuscloud.io/machines" in now)
                && (!noSecrets ==> "rezuscloud.io/secrets" in now)
                && (forall g :: g in now ==>
                      || g in was
                      || (!noMachines && g == "rezuscloud.io/machines")
                      || (!noSecrets && g == "rezuscloud.io/secrets"))
    {
      var key := Key("tenant", name);
      ok := DeleteResource(key);
      if ok {
        var a := AddFinalizer(key, MACHINES, noMachines);
        var b := AddFinalizer(key, SECRETS, noSecrets);
      }
    }
  }
}
