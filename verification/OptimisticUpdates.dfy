// Optimistic concurrency on one row of internal/state/store.go:457-748. Clients
// read (GetResource) and later update with the version they read; status,
// finalizer, deletion and removal writes interleave freely. Finalizer changes
// are a read followed by an unversioned write.
module OptimisticUpdates {
  import opened ResourceStore
  import opened Wrappers

  type Client = nat

  // What UpdateResource replaces.
  datatype Content = Content(spec: Document, labels: Labels, annotations: Labels)

  function ContentOf(row: Row): Content { Content(row.spec, row.labels, row.annotations) }

  datatype Snapshot = Snapshot(uid: nat, version: nat, content: Content, finalizers: seq<string>, deleting: bool) {
    // RemoveFinalizer of f deletes the row on the strength of this read.
    predicate Collects(f: string) { deleting && f in finalizers && Without(finalizers, f) == [] }
  }

  // A successful spec update of the current incarnation.
  datatype Commit = Commit(uid: nat, expected: nat, read: Content, replaced: Content, written: Content)

  datatype State = State(
    row: Option<Row>,
    nextUid: nat,
    held: map<Client, Snapshot>,
    commits: seq<Commit>)  // since the row was created

  const INIT := State(None, 0, map[], [])

  datatype Action =
    | Create(content: Content, status: Document)
    | Read(c: Client)
    | Update(c: Client, content: Content)
    | SetStatus(status: Document)
    // The write half of AddFinalizer / RemoveFinalizer
    | WriteFinalizers(c: Client, f: string, add: bool)
    | MarkDeleted
    | Remove

  function WithFinalizer(s: Snapshot, f: string, add: bool): seq<string> {
    if add then s.finalizers + [f] else Without(s.finalizers, f)
  }

  function Next(s: State, a: Action): State {
    match a
    case Create(content, status) =>
      if s.row.Some? then s
      else s.(row := Some(NewRow(s.nextUid, content.spec, status, content.labels, content.annotations)),
              nextUid := s.nextUid + 1, commits := [])
    case Read(c) =>
      if s.row.None? then s
      else
        var r := s.row.value;
        s.(held := s.held[c := Snapshot(r.uid, r.version, ContentOf(r), r.finalizers, r.deleting)])
    case Update(c, content) =>
      if s.row.None? || c !in s.held || s.held[c].version != s.row.value.version then s
      else
        var h := s.held[c];
        s.(row := Some(Respecified(s.row.value, content.spec, content.labels, content.annotations)),
           commits := s.commits + [Commit(h.uid, h.version, h.content, ContentOf(s.row.value), content)])
    case SetStatus(status) => if s.row.None? then s else s.(row := Some(s.row.value.(status := status)))
    case WriteFinalizers(c, f, add) =>
      if s.row.None? || c !in s.held || add == (f in s.held[c].finalizers) then s  // nothing to change: no write
      else if !add && s.held[c].Collects(f) then s.(row := None, commits := [])
      else s.(row := Some(s.row.value.(finalizers := WithFinalizer(s.held[c], f, add))))
    case MarkDeleted => if s.row.None? then s else s.(row := Some(s.row.value.(deleting := true)))
    case Remove => s.(row := None, commits := [])
  }

  function After(actions: seq<Action>): State {
    if actions == [] then INIT else Next(After(actions[..|actions| - 1]), actions[|actions| - 1])
  }

  // ----- What every interleaving keeps

  // A client that read this incarnation at the row's version read its content.
  predicate ReadOk(s: State, c: Client) {
    c in s.held ==>
      && s.held[c].uid < s.nextUid
      && (s.row.Some? && s.held[c].uid == s.row.value.uid ==>
            && s.held[c].version <= s.row.value.version
            && (s.held[c].version == s.row.value.version ==> s.held[c].content == ContentOf(s.row.value)))
  }

  // The k-th commit expected version k+1, replaced what the one before it wrote,
  // and, if its client read this incarnation, replaced exactly what was read.
  predicate CommitOk(s: State, k: nat)
    requires s.row.Some?
  {
    k < |s.commits| ==>
      && s.commits[k].expected == k + 1
      && (k > 0 ==> s.commits[k].replaced == s.commits[k - 1].written)
      && (s.commits[k].uid == s.row.value.uid ==> s.commits[k].read == s.commits[k].replaced)
  }

  ghost predicate Inv(s: State) {
    && (forall c: Client :: ReadOk(s, c))
    && (s.row.Some? ==>
          && s.row.value.uid < s.nextUid
          && s.row.value.version == 1 + |s.commits|
          && (s.commits != [] ==> ContentOf(s.row.value) == s.commits[|s.commits| - 1].written)
          && (forall k: nat :: CommitOk(s, k)))
  }

  lemma ReadStep(s: State, a: Action, c: Client)
    requires Inv(s)
    ensures ReadOk(Next(s, a), c)
  {
    assert ReadOk(s, c);
    if a.Update? || a.Read? {
      assert ReadOk(s, a.c);
    }
  }

  lemma CommitStep(s: State, a: Action, k: nat)
    requires Inv(s) && Next(s, a).row.Some?
    ensures CommitOk(Next(s, a), k)
  {
    if s.row.Some? {
      assert CommitOk(s, k);
    }
    if a.Update? {
      assert ReadOk(s, a.c);
    }
  }

  lemma {:induction false} InvAlways(actions: seq<Action>)
    ensures Inv(After(actions))
  {
    if actions != [] {
      var s, a := After(actions[..|actions| - 1]), actions[|actions| - 1];
      InvAlways(actions[..|actions| - 1]);
      forall c: Client ensures ReadOk(Next(s, a), c) { ReadStep(s, a, c); }
      if Next(s, a).row.Some? {
        forall k: nat ensures CommitOk(Next(s, a), k) { CommitStep(s, a, k); }
      }
    }
  }

  // Within one incarnation the version is one plus the number of successful spec
  // updates; the k-th of them expected version k+1, replaced what the one before
  // it wrote and, by a client of this incarnation, exactly what that client read;
  // and the row holds what the last one wrote.
  lemma UpdatesFormChain(actions: seq<Action>, k: nat)
    requires After(actions).row.Some?
    ensures var s := After(actions);
            && s.row.value.version == 1 + |s.commits|
            && (s.commits != [] ==> ContentOf(s.row.value) == s.commits[|s.commits| - 1].written)
            && (k < |s.commits| ==>
                  && s.commits[k].expected == k + 1
                  && (k > 0 ==> s.commits[k].replaced == s.commits[k - 1].written)
                  && (s.commits[k].uid == s.row.value.uid ==> s.commits[k].read == s.commits[k].replaced))
  {
    InvAlways(actions);
    assert CommitOk(After(actions), k);
  }

  // No two successful updates of an incarnation expected the same version.
  lemma NoVersionUsedTwice(actions: seq<Action>, j: nat, k: nat)
    requires After(actions).row.Some? && j < |After(actions).commits| && k < |After(actions).commits|
    requires After(actions).commits[j].expected == After(actions).commits[k].expected
    ensures j == k
  {
    UpdatesFormChain(actions, j);
    UpdatesFormChain(actions, k);
  }

  // An update succeeds exactly when the row is at the version the client read;
  // in the incarnation the client read, exactly when nothing was committed since.
  lemma UpdateSucceedsIff(actions: seq<Action>, c: Client, content: Content)
    requires After(actions).row.Some? && c in After(actions).held
    ensures var s := After(actions); var s' := Next(s, Update(c, content));
            && (s' != s <==> s.held[c].version == s.row.value.version)
            && (s' != s <==> |s'.commits| == |s.commits| + 1)
            && (s' != s <==> s.held[c].version == 1 + |s.commits|)
  {
    InvAlways(actions);
  }

  // The client holds what the row holds.
  predicate Current(s: State, c: Client)
    requires s.row.Some? && c in s.held
  {
    s.held[c].uid == s.row.value.uid && s.held[c].content == ContentOf(s.row.value)
  }

  // The promise of optimistic concurrency, that an update either fails or
  // replaces exactly what its client read, holds if and only if the client read
  // the incarnation that is there, or the version moved on. The uid is never
  // compared.
  lemma UpdateReplacesReadIff(actions: seq<Action>, c: Client, content: Content)
    requires After(actions).row.Some? && c in After(actions).held
    ensures var s := After(actions); var s' := Next(s, Update(c, content));
            && ((s' == s || Current(s, c)) <==>
                (s.held[c].uid == s.row.value.uid || s.held[c].version != s.row.value.version))
            && (Current(s, c) <==>
                && s.held[c].uid == s.row.value.uid && s.held[c].content.spec == s.row.value.spec
                && s.held[c].content.labels == s.row.value.labels
                && s.held[c].content.annotations == s.row.value.annotations)
  {
    InvAlways(actions);
    assert ReadOk(After(actions), c);
    UpdateSucceedsIff(actions, c, content);
  }

  // What a successful update does to the row, and what it records.
  lemma UpdateRecords(s: State, c: Client, content: Content)
    requires s.row.Some? && c in s.held && s.held[c].version == s.row.value.version
    ensures var s' := Next(s, Update(c, content));
            && s'.row.Some?
            && var was, now := s.row.value, s'.row.value;
               && now.spec == content.spec && now.labels == content.labels && now.annotations == content.annotations
               && now.version == was.version + 1 && now.uid == was.uid && now.status == was.status
               && now.finalizers == was.finalizers && now.deleting == was.deleting
               && s'.commits == s.commits + [Commit(s.held[c].uid, s.held[c].version, s.held[c].content,
                                                    Content(was.spec, was.labels, was.annotations), content)]
  {
  }

  // What a read returns.
  lemma ReadRecords(s: State, c: Client)
    requires s.row.Some?
    ensures var r := s.row.value;
            var read := Snapshot(r.uid, r.version, Content(r.spec, r.labels, r.annotations), r.finalizers, r.deleting);
            Next(s, Read(c)) == s.(held := s.held[c := read])
  {
  }

  // Status, finalizer and deletion writes never disturb a pending update.
  lemma OtherWritesKeepContent(s: State, a: Action)
    requires s.row.Some? && (a.SetStatus? || a.WriteFinalizers? || a.MarkDeleted? || a.Read?)
    ensures Next(s, a).row.None? ==> a.WriteFinalizers? && !a.add && a.c in s.held && s.held[a.c].Collects(a.f)
    ensures Next(s, a).row.Some? ==>
              && Next(s, a).commits == s.commits
              && Next(s, a).row.value.version == s.row.value.version
              && ContentOf(Next(s, a).row.value) == ContentOf(s.row.value)
  {
  }

  // The limit of the promise: the version restarts at 1 with a new incarnation
  // and the uid is not checked, so a stale client overwrites content it never saw.
  lemma StaleIncarnationOverwrites(x: Content, y: Content, z: Content)
    requires x != y
    ensures var s := After([Create(x, ""), Read(0), Remove, Create(y, ""), Update(0, z)]);
            s.row.Some? && s.commits == [Commit(0, 1, x, y, z)] && ContentOf(s.row.value) == z
  {
    var a := [Create(x, ""), Read(0), Remove, Create(y, ""), Update(0, z)];
    Unroll(a);
    Unroll(a[..4]);
    Unroll(a[..3]);
    Unroll(a[..2]);
    Unroll(a[..1]);
    assert a[..4][..3] == a[..3] && a[..3][..2] == a[..2] && a[..2][..1] == a[..1] && a[..1][..0] == [];
  }

  lemma Unroll(actions: seq<Action>)
    requires actions != []
    ensures After(actions) == Next(After(actions[..|actions| - 1]), actions[|actions| - 1])
  {
  }

  // ----- Finalizer writes: a read, then an unversioned write

  function FinalizersOf(s: State): seq<string> { if s.row.Some? then s.row.value.finalizers else [] }

  // Both hold the same finalizers other than f.
  ghost predicate SameOthers(x: seq<string>, y: seq<string>, f: string) {
    forall g :: g != f ==> (g in x <==> g in y)
  }

  // A finalizer write sets its own finalizer as asked, and keeps all others if
  // and only if the client's read of the others is still right.
  lemma FinalizerWriteKeepsOthersIff(s: State, c: Client, f: string, add: bool)
    requires s.row.Some? && c in s.held && add != (f in s.held[c].finalizers)
    ensures var s' := Next(s, WriteFinalizers(c, f, add));
            && (f in FinalizersOf(s') <==> add)
            && (SameOthers(FinalizersOf(s'), FinalizersOf(s), f) <==>
                SameOthers(s.held[c].finalizers, FinalizersOf(s), f))
  {
    var s' := Next(s, WriteFinalizers(c, f, add));
    if !add && s.held[c].Collects(f) {
      assert forall g :: g != f ==> (g in Without(s.held[c].finalizers, f) <==> g in s.held[c].finalizers);
    }
    assert SameOthers(FinalizersOf(s'), s.held[c].finalizers, f);
  }

  predicate OnlyFinalizer(fs: seq<string>, f: string) { f in fs && forall g :: g in fs ==> g == f }

  // Removing f deletes the row if and only if the client had read a deleting row
  // with f as its only finalizer, whatever the row is now: finalizers added since
  // go with it.
  lemma CollectedIff(s: State, c: Client, f: string)
    requires s.row.Some? && c in s.held
    ensures Next(s, WriteFinalizers(c, f, false)).row.None? <==>
            s.held[c].deleting && OnlyFinalizer(s.held[c].finalizers, f)
  {
    WithoutIsEmptyIff(s.held[c].finalizers, f);
  }

  // What can take finalizers or the row away.
  predicate Disturbs(a: Action) { a.WriteFinalizers? || a.Remove? }

  // A deleting row without finalizers: no removal of a finalizer will collect it.
  predicate Stranded(s: State) { s.row.Some? && s.row.value.deleting && s.row.value.finalizers == [] }

  // A finalizer write that changes something.
  predicate Writes(s: State, a: Action) {
    a.WriteFinalizers? && s.row.Some? && a.c in s.held && a.add != (a.f in s.held[a.c].finalizers)
  }

  // Over all actions, a row gets stranded in exactly two ways: a row that has no
  // finalizers is marked deleted, or the last finalizer of a deleting row is
  // removed on a read, of that finalizer alone, from before the mark.
  lemma StrandedIff(s: State, a: Action)
    requires !Stranded(s)
    ensures Stranded(Next(s, a)) <==>
            && s.row.Some?
            && (|| (a.MarkDeleted? && s.row.value.finalizers == [])
                || (&& a.WriteFinalizers? && !a.add && a.c in s.held && s.row.value.deleting
                    && !s.held[a.c].deleting && OnlyFinalizer(s.held[a.c].finalizers, a.f)))
  {
    if a.WriteFinalizers? && a.c in s.held {
      WithoutIsEmptyIff(s.held[a.c].finalizers, a.f);
    }
  }

  // And it stops being stranded in exactly two ways: it is removed outright, or
  // a finalizer write by a client with a different read collects it or puts
  // finalizers back.
  lemma StrandedEndsIff(s: State, a: Action)
    requires Stranded(s)
    ensures !Stranded(Next(s, a)) <==>
            || a.Remove?
            || (&& Writes(s, a)
                && ((!a.add && s.held[a.c].Collects(a.f)) || WithFinalizer(s.held[a.c], a.f, a.add) != []))
  {
  }

  // No client holds a read on which it could collect the row.
  ghost predicate NoCollector(s: State) {
    forall c, f :: c in s.held ==> !s.held[c].Collects(f)
  }

  // A stranded row that nobody can collect is there for good: whatever follows,
  // short of an outright removal and of finalizer writes, leaves it stranded, and
  // no later read makes anybody a collector.
  lemma {:induction false} StrandedForGood(actions: seq<Action>, more: seq<Action>)
    requires Stranded(After(actions)) && NoCollector(After(actions))
    requires forall i :: 0 <= i < |more| ==> !Disturbs(more[i])
    ensures Stranded(After(actions + more)) && NoCollector(After(actions + more))
  {
    if more == [] {
      assert actions + more == actions;
    } else {
      var front := more[..|more| - 1];
      assert forall i :: 0 <= i < |front| ==> front[i] == more[i];
      StrandedForGood(actions, front);
      assert (actions + more)[..|actions + more| - 1] == actions + front;
      assert !Disturbs(more[|more| - 1]);
      StrandedEndsIff(After(actions + front), more[|more| - 1]);
    }
  }

  // A row that is marked before any finalizer is on it is stranded at once.
  lemma MarkedTooEarly(x: Content)
    ensures Stranded(After([Create(x, ""), MarkDeleted])) && NoCollector(After([Create(x, ""), MarkDeleted]))
  {
    var a := [Create(x, ""), MarkDeleted];
    Unroll(a);
    Unroll(a[..1]);
    assert a[..1][..0] == [];
  }

  // ----- Runs in which nothing comes between the read and the finalizer write

  // Client c reads at step i, and no finalizer write and no removal follows.
  ghost predicate UndisturbedSince(actions: seq<Action>, i: nat, c: Client) {
    && i < |actions| && actions[i] == Read(c) && After(actions[..i]).row.Some?
    && (forall k :: i < k < |actions| ==> !Disturbs(actions[k]))
  }

  // The read stays right, up to a deletion marked since.
  predicate StillRight(s: State, c: Client) {
    && s.row.Some? && c in s.held
    && s.held[c].finalizers == s.row.value.finalizers
    && (s.held[c].deleting ==> s.row.value.deleting)
  }

  lemma {:induction false} ReadStaysRight(actions: seq<Action>, i: nat, c: Client)
    requires UndisturbedSince(actions, i, c)
    ensures StillRight(After(actions), c)
  {
    var n := |actions| - 1;
    if i < n {
      var front := actions[..n];
      assert front[..i] == actions[..i];
      assert forall k :: i < k < n ==> front[k] == actions[k];
      ReadStaysRight(front, i, c);
      assert !Disturbs(actions[n]);
    }
  }

  // Then the write does what its caller means: f is set as asked, no other
  // finalizer is lost or revived, and a row is only collected when it is deleting
  // and f was its last finalizer.
  lemma UndisturbedFinalizerWrite(actions: seq<Action>, i: nat, c: Client, f: string, add: bool)
    requires UndisturbedSince(actions, i, c) && add != (f in FinalizersOf(After(actions)))
    ensures var s := After(actions); var s' := After(actions + [WriteFinalizers(c, f, add)]);
            && (f in FinalizersOf(s') <==> add)
            && SameOthers(FinalizersOf(s'), FinalizersOf(s), f)
            && (s'.row.None? ==> s.row.Some? && s.row.value.deleting && OnlyFinalizer(s.row.value.finalizers, f))
  {
    var more := actions + [WriteFinalizers(c, f, add)];
    assert more[..|more| - 1] == actions;
    ReadStaysRight(actions, i, c);
    FinalizerWriteKeepsOthersIff(After(actions), c, f, add);
    if !add {
      CollectedIff(After(actions), c, f);
    }
  }

  // ----- What goes wrong otherwise

  // Of two concurrent additions one is lost.
  lemma ConcurrentFinalizersLost(x: Content, f: string, g: string)
    requires f != g
    ensures var s := After([Create(x, ""), Read(0), Read(1), WriteFinalizers(0, f, true), WriteFinalizers(1, g, true)]);
            s.row.Some? && s.row.value.finalizers == [g]
  {
    var a := [Create(x, ""), Read(0), Read(1), WriteFinalizers(0, f, true), WriteFinalizers(1, g, true)];
    Unroll(a);
    Unroll(a[..4]);
    Unroll(a[..3]);
    Unroll(a[..2]);
    Unroll(a[..1]);
    assert a[..4][..3] == a[..3] && a[..3][..2] == a[..2] && a[..2][..1] == a[..1] && a[..1][..0] == [];
  }

  lemma DeletingWithFinalizer(x: Content, f: string)
    ensures After([Create(x, ""), Read(0), WriteFinalizers(0, f, true), MarkDeleted]).row
            == Some(NewRow(0, x.spec, "", x.labels, x.annotations).(finalizers := [f], deleting := true))
  {
    var a := [Create(x, ""), Read(0), WriteFinalizers(0, f, true), MarkDeleted];
    Unroll(a);
    Unroll(a[..3]);
    Unroll(a[..2]);
    Unroll(a[..1]);
    assert a[..3][..2] == a[..2] && a[..2][..1] == a[..1] && a[..1][..0] == [];
    assert [] + [f] == [f];
  }

  // A row is collected although a finalizer was just added to it.
  lemma FreshFinalizerCollected(x: Content, f: string, g: string)
    requires f != g
    ensures var s := After([Create(x, ""), Read(0), WriteFinalizers(0, f, true), MarkDeleted]
                           + [Read(0), Read(1), WriteFinalizers(1, g, true)]);
            && s.row.Some? && s.row.value.finalizers == [f, g]
            && Next(s, WriteFinalizers(0, f, false)).row.None?
  {
    DeletingWithFinalizer(x, f);
    var a := [Create(x, ""), Read(0), WriteFinalizers(0, f, true), MarkDeleted];
    var b := a + [Read(0), Read(1), WriteFinalizers(1, g, true)];
    Unroll(b);
    Unroll(b[..6]);
    Unroll(b[..5]);
    assert b[..6][..5] == b[..5] && b[..5][..4] == a;
    CollectedIff(After(b), 0, f);
  }

  // ----- The steps on the store object

  function RowAt(rows: Rows, key: Key): Option<Row> { if key in rows then Some(rows[key]) else None }

  ghost predicate Shows(store: Store, key: Key, s: State)
    reads store
  {
    s.row == RowAt(store.rows, key) && s.nextUid == store.nextUid
  }

  method DoCreate(store: Store, key: Key, content: Content, status: Document, ghost s: State)
    requires Shows(store, key, s)
    modifies store`rows, store`events, store`nextUid
    ensures Shows(store, key, Next(s, Create(content, status)))
  {
    var ok := store.CreateResource(key, content.spec, status, content.labels, content.annotations);
  }

  method DoUpdate(store: Store, key: Key, c: Client, read: Snapshot, content: Content, ghost s: State)
    returns (ok: bool)
    requires Shows(store, key, s) && c in s.held && s.held[c] == read
    modifies store`rows, store`events
    ensures Shows(store, key, Next(s, Update(c, content)))
    ensures ok <==> Next(s, Update(c, content)) != s
  {
    ok := store.UpdateResource(key, read.version, content.spec, content.labels, content.annotations);
    assert s.row.Some? && read.version == s.row.value.version ==>
        |Next(s, Update(c, content)).commits| == |s.commits| + 1;
  }

  method DoSetStatus(store: Store, key: Key, status: Document, ghost s: State)
    requires Shows(store, key, s)
    modifies store`rows, store`events
    ensures Shows(store, key, Next(s, SetStatus(status)))
  {
    var ok := store.UpdateStatus(key, status);
  }

  method DoMarkDeleted(store: Store, key: Key, ghost s: State)
    requires Shows(store, key, s)
    modifies store`rows, store`events
    ensures Shows(store, key, Next(s, MarkDeleted))
  {
    var ok := store.DeleteResource(key);
  }

  method DoRemove(store: Store, key: Key, ghost s: State)
    requires Shows(store, key, s)
    modifies store`rows, store`events
    ensures Shows(store, key, Next(s, Remove))
  {
    store.RemoveResource(key);
  }

  // An undisturbed finalizer call is the read and the write in a row.
  method DoAddFinalizer(store: Store, key: Key, c: Client, f: string, ghost s: State)
    requires Shows(store, key, s) && key in store.rows
    modifies store`rows
    ensures Shows(store, key, Next(Next(s, Read(c)), WriteFinalizers(c, f, true)))
  {
    var ok := store.AddFinalizer(key, f, false);
  }

  method DoRemoveFinalizer(store: Store, key: Key, c: Client, f: string, ghost s: State)
    requires Shows(store, key, s) && key in store.rows
    modifies store`rows, store`events
    ensures Shows(store, key, Next(Next(s, Read(c)), WriteFinalizers(c, f, false)))
  {
    WithoutIsEmptyIff(store.rows[key].finalizers, f);
    var ok := store.RemoveFinalizer(key, f, false, false);
  }
}
