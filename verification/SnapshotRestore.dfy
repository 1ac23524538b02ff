// Export and restore of resources: internal/backup/service.go:158-187, 263-318.
module SnapshotRestore {
  import opened ResourceStore
  import opened Strings
  import opened Wrappers

  datatype Entry = Entry(key: Key, spec: Document, status: Document, labels: Labels, annotations: Labels)

  function EntryOf(k: Key, row: Row): Entry { Entry(k, row.spec, row.status, row.labels, row.annotations) }

  predicate Agrees(row: Row, e: Entry) {
    row.spec == e.spec && row.status == e.status && row.labels == e.labels && row.annotations == e.annotations
  }

  // ----- Export

  const KINDS := ["tenant", "nodegroup", "machine", "provider", "configpatch"]

  // Rows pending deletion are not listed.
  predicate Listed(rows: Rows, k: Key) { k in rows && !rows[k].deleting }

  // ListResources(kind) without a limit: ORDER BY name.
  ghost predicate IsListing(rows: Rows, kind: string, names: seq<string>) {
    StrictlySorted(names) && forall n :: n in names <==> Listed(rows, Key(kind, n))
  }

  function EntriesOf(rows: Rows, kind: string, names: seq<string>): (r: seq<Entry>)
    requires forall i :: 0 <= i < |names| ==> Key(kind, names[i]) in rows
    ensures |r| == |names|
  {
    seq(|names|, i requires 0 <= i < |names| => EntryOf(Key(kind, names[i]), rows[Key(kind, names[i])]))
  }

  ghost predicate KindExported(rows: Rows, kind: string, names: seq<string>, entries: seq<Entry>) {
    && IsListing(rows, kind, names)
    && (forall i :: 0 <= i < |names| ==> names[i] in names && Key(kind, names[i]) in rows)
    && EntriesOf(rows, kind, names) <= entries
  }

  ghost predicate IsSnapshot(rows: Rows, kinds: seq<string>, entries: seq<Entry>) {
    if kinds == [] then entries == []
    else exists names ::
           && KindExported(rows, kinds[0], names, entries) && |names| <= |entries|
           && IsSnapshot(rows, kinds[1..], entries[|names|..])
  }

  method ResourceSnapshot(rows: Rows, list: string -> seq<string>) returns (entries: seq<Entry>)
    requires forall i :: 0 <= i < |KINDS| ==> IsListing(rows, KINDS[i], list(KINDS[i]))
    ensures IsSnapshot(rows, KINDS, entries)
    ensures forall i :: 0 <= i < |entries| ==>
              var e := entries[i];
              && e.key in rows && !rows[e.key].deleting
              && e.key.kind in {"tenant", "nodegroup", "machine", "provider", "configpatch"}
              && e.spec == rows[e.key].spec && e.status == rows[e.key].status
              && e.labels == rows[e.key].labels && e.annotations == rows[e.key].annotations
    ensures forall k ::
              && k in rows && !rows[k].deleting
              && k.kind in {"tenant", "nodegroup", "machine", "provider", "configpatch"} ==>
                Entry(k, rows[k].spec, rows[k].status, rows[k].labels, rows[k].annotations) in entries
  {
    entries := ExportKinds(rows, KINDS, list);
    SnapshotColumns(rows, entries);
  }

  method ExportKinds(rows: Rows, kinds: seq<string>, list: string -> seq<string>) returns (entries: seq<Entry>)
    requires forall i :: 0 <= i < |kinds| ==> IsListing(rows, kinds[i], list(kinds[i]))
    ensures IsSnapshot(rows, kinds, entries)
  {
    entries := [];
    assert Completes(rows, kinds, 0, []) by {
      assert kinds[0..] == kinds && forall tail: seq<Entry> :: [] + tail == tail;
    }
    for i := 0 to |kinds|
      invariant Completes(rows, kinds, i, entries)
    {
      var names := list(kinds[i]);
      var part := ExportKind(rows, kinds[i], names);
      ExportNext(rows, kinds, i, entries, names);
      entries := entries + part;
    }
    assert IsSnapshot(rows, kinds[|kinds|..], []);
    assert entries + [] == entries;
  }

  // `entries` is the export of the first i kinds: any export of the others
  // completes it.
  ghost predicate Completes(rows: Rows, kinds: seq<string>, i: nat, entries: seq<Entry>)
    requires i <= |kinds|
  {
    forall tail: seq<Entry> :: IsSnapshot(rows, kinds[i..], tail) ==> IsSnapshot(rows, kinds, entries + tail)
  }

  lemma ExportNext(rows: Rows, kinds: seq<string>, i: nat, entries: seq<Entry>, names: seq<string>)
    requires i < |kinds| && Completes(rows, kinds, i, entries) && IsListing(rows, kinds[i], names)
    ensures forall j :: 0 <= j < |names| ==> Key(kinds[i], names[j]) in rows
    ensures Completes(rows, kinds, i + 1, entries + EntriesOf(rows, kinds[i], names))
  {
    forall j | 0 <= j < |names| ensures Key(kinds[i], names[j]) in rows {
      assert names[j] in names;
    }
    var part := EntriesOf(rows, kinds[i], names);
    forall tail: seq<Entry> | IsSnapshot(rows, kinds[i + 1..], tail)
      ensures IsSnapshot(rows, kinds, entries + part + tail)
    {
      assert kinds[i..][0] == kinds[i] && kinds[i..][1..] == kinds[i + 1..];
      assert (part + tail)[|names|..] == tail;
      assert KindExported(rows, kinds[i], names, part + tail);
      assert IsSnapshot(rows, kinds[i..], part + tail);
      assert entries + (part + tail) == entries + part + tail;
    }
  }

  method ExportKind(rows: Rows, kind: string, names: seq<string>) returns (part: seq<Entry>)
    requires IsListing(rows, kind, names)
    ensures forall i :: 0 <= i < |names| ==> Key(kind, names[i]) in rows
    ensures part == EntriesOf(rows, kind, names)
  {
    forall i | 0 <= i < |names| ensures Key(kind, names[i]) in rows {
      assert names[i] in names;
    }
    part := [];
    for i := 0 to |names|
      invariant |part| == i && forall j :: 0 <= j < i ==>
                part[j] == EntryOf(Key(kind, names[j]), rows[Key(kind, names[j])])
    {
      part := part + [EntryOf(Key(kind, names[i]), rows[Key(kind, names[i])])];
    }
  }

  lemma SplitAtPrefix(e: seq<Entry>, x: seq<Entry>)
    ensures e <= x ==> x == e + x[|e|..]
  {
  }

  // The export is a function of the rows.
  lemma {:induction false} SnapshotUnique(rows: Rows, kinds: seq<string>, x: seq<Entry>, y: seq<Entry>)
    requires IsSnapshot(rows, kinds, x) && IsSnapshot(rows, kinds, y)
    ensures x == y
  {
    if kinds != [] {
      var ns :| KindExported(rows, kinds[0], ns, x) && |ns| <= |x| && IsSnapshot(rows, kinds[1..], x[|ns|..]);
      var ms :| KindExported(rows, kinds[0], ms, y) && |ms| <= |y| && IsSnapshot(rows, kinds[1..], y[|ms|..]);
      SortedUnique(ns, ms);
      SnapshotUnique(rows, kinds[1..], x[|ns|..], y[|ms|..]);
      SplitAtPrefix(EntriesOf(rows, kinds[0], ns), x);
      SplitAtPrefix(EntriesOf(rows, kinds[0], ns), y);
    }
  }

  // Exactly the listed rows of the exported kinds are in the export, as they are.
  lemma {:induction false} SnapshotContents(rows: Rows, kinds: seq<string>, entries: seq<Entry>)
    requires IsSnapshot(rows, kinds, entries)
    ensures forall i :: 0 <= i < |entries| ==>
              && Listed(rows, entries[i].key) && entries[i].key.kind in kinds
              && entries[i] == EntryOf(entries[i].key, rows[entries[i].key])
    ensures forall k :: Listed(rows, k) && k.kind in kinds ==> EntryOf(k, rows[k]) in entries
  {
    if kinds != [] {
      var names :| KindExported(rows, kinds[0], names, entries) && |names| <= |entries| &&
          IsSnapshot(rows, kinds[1..], entries[|names|..]);
      var rest := entries[|names|..];
      SnapshotContents(rows, kinds[1..], rest);
      forall i | 0 <= i < |entries|
        ensures Listed(rows, entries[i].key) && entries[i].key.kind in kinds &&
                entries[i] == EntryOf(entries[i].key, rows[entries[i].key])
      {
        if i < |names| {
          assert entries[i] == EntriesOf(rows, kinds[0], names)[i];
        } else {
          assert entries[i] == rest[i - |names|];
        }
      }
      forall k | Listed(rows, k) && k.kind in kinds ensures EntryOf(k, rows[k]) in entries {
        if k.kind == kinds[0] {
          assert k == Key(kinds[0], k.name) && k.name in names;
          var j :| 0 <= j < |names| && names[j] == k.name;
          assert entries[j] == EntriesOf(rows, kinds[0], names)[j];
        } else {
          assert k.kind in kinds[1..] && EntryOf(k, rows[k]) in rest;
        }
      }
    }
  }

  // In terms of the columns: an entry is exported for exactly the rows of the five
  // kinds that are not pending deletion, with their spec, status, labels and
  // annotations.
  lemma SnapshotColumns(rows: Rows, entries: seq<Entry>)
    requires IsSnapshot(rows, KINDS, entries)
    ensures forall i :: 0 <= i < |entries| ==>
              var e := entries[i];
              && e.key in rows && !rows[e.key].deleting
              && e.key.kind in {"tenant", "nodegroup", "machine", "provider", "configpatch"}
              && e.spec == rows[e.key].spec && e.status == rows[e.key].status
              && e.labels == rows[e.key].labels && e.annotations == rows[e.key].annotations
    ensures forall k ::
              && k in rows && !rows[k].deleting
              && k.kind in {"tenant", "nodegroup", "machine", "provider", "configpatch"} ==>
                Entry(k, rows[k].spec, rows[k].status, rows[k].labels, rows[k].annotations) in entries
  {
    SnapshotContents(rows, KINDS, entries);
  }

  // Each of them once.
  lemma SnapshotOnce(rows: Rows, entries: seq<Entry>, i: nat, j: nat)
    requires IsSnapshot(rows, KINDS, entries) && i < j < |entries|
    ensures entries[i].key != entries[j].key
  {
    FiveKinds();
    EachOnce(rows, KINDS, entries);
  }

  lemma FiveKinds()
    ensures NoKindTwice(KINDS)
  {
    assert KINDS[1..] == ["nodegroup", "machine", "provider", "configpatch"];
    assert KINDS[1..][1..] == ["machine", "provider", "configpatch"];
    assert KINDS[1..][1..][1..] == ["provider", "configpatch"];
    assert KINDS[1..][1..][1..][1..] == ["configpatch"];
  }

  predicate NoKindTwice(kinds: seq<string>) { kinds == [] || (kinds[0] !in kinds[1..] && NoKindTwice(kinds[1..])) }

  predicate KeysOnce(entries: seq<Entry>) {
    forall i, j :: 0 <= i < j < |entries| ==> entries[i].key != entries[j].key
  }

  lemma {:induction false} EachOnce(rows: Rows, kinds: seq<string>, entries: seq<Entry>)
    requires IsSnapshot(rows, kinds, entries) && NoKindTwice(kinds)
    ensures KeysOnce(entries)
  {
    if kinds != [] {
      var names, rest := Parts(rows, kinds, entries);
      EachOnce(rows, kinds[1..], rest);
      PartsOnce(kinds, names, rest, entries);
    }
  }

  // The entries of the first kind, and the rest.
  ghost predicate PartsOf(kinds: seq<string>, names: seq<string>, rest: seq<Entry>, entries: seq<Entry>) {
    && kinds != [] && |entries| == |names| + |rest| && StrictlySorted(names)
    && (forall i :: 0 <= i < |names| ==> entries[i].key == Key(kinds[0], names[i]))
    && (forall i :: 0 <= i < |rest| ==> entries[|names| + i] == rest[i] && rest[i].key.kind in kinds[1..])
  }

  lemma PartsOnce(kinds: seq<string>, names: seq<string>, rest: seq<Entry>, entries: seq<Entry>)
    requires PartsOf(kinds, names, rest, entries) && kinds[0] !in kinds[1..] && KeysOnce(rest)
    ensures KeysOnce(entries)
  {
    forall i, j | 0 <= i < j < |entries| ensures entries[i].key != entries[j].key {
      if j < |names| {
        LessTotal(names[i], names[j]);
      } else {
        assert entries[|names| + (j - |names|)] == rest[j - |names|];
        if i >= |names| {
          assert entries[|names| + (i - |names|)] == rest[i - |names|];
        }
      }
    }
  }

  lemma Parts(rows: Rows, kinds: seq<string>, entries: seq<Entry>) returns (names: seq<string>, rest: seq<Entry>)
    requires IsSnapshot(rows, kinds, entries) && kinds != []
    ensures PartsOf(kinds, names, rest, entries) && IsSnapshot(rows, kinds[1..], rest)
  {
    names :| KindExported(rows, kinds[0], names, entries) && |names| <= |entries| &&
      IsSnapshot(rows, kinds[1..], entries[|names|..]);
    rest := entries[|names|..];
    SnapshotContents(rows, kinds[1..], rest);
    forall i | 0 <= i < |names| ensures entries[i].key == Key(kinds[0], names[i]) {
      assert entries[i] == EntriesOf(rows, kinds[0], names)[i];
    }
  }

  // ----- Restore

  // applyEntry: create the row, or update spec, labels, annotations and status.
  function EntryApplied(rows: Rows, uid: nat, e: Entry): Rows {
    if e.key in rows then rows[e.key := Respecified(rows[e.key], e.spec, e.labels, e.annotations).(status := e.status)]
    else rows[e.key := NewRow(uid, e.spec, e.status, e.labels, e.annotations)]
  }

  function UidAfter(rows: Rows, uid: nat, e: Entry): nat { if e.key in rows then uid else uid + 1 }

  function Restored(rows: Rows, uid: nat, entries: seq<Entry>): (Rows, nat) {
    if entries == [] then (rows, uid)
    else
      var (mid, uid') := Restored(rows, uid, entries[..|entries| - 1]);
      var e := entries[|entries| - 1];
      (EntryApplied(mid, uid', e), UidAfter(mid, uid', e))
  }

  function LastFor(entries: seq<Entry>, k: Key): Option<Entry> {
    if entries == [] then None
    else if entries[|entries| - 1].key == k then Some(entries[|entries| - 1])
    else LastFor(entries[..|entries| - 1], k)
  }

  // Same row up to the content a restore replaces, and the version.
  predicate SameIdentity(x: Row, y: Row) { x.uid == y.uid && x.finalizers == y.finalizers && x.deleting == y.deleting }

  predicate RestoredAt(rows: Rows, end: Rows, entries: seq<Entry>, k: Key) {
    match LastFor(entries, k)
    case None => (k in end <==> k in rows) && (k in rows ==> end[k] == rows[k])
    case Some(e) => k in end && Agrees(end[k], e) && (k in rows ==> SameIdentity(end[k], rows[k]))
                    && (k !in rows ==> end[k].finalizers == [] && !end[k].deleting)
  }

  // Every row an entry names has the content of the last such entry; every other
  // row is unchanged.
  lemma {:induction false} RestoreExact(rows: Rows, uid: nat, entries: seq<Entry>, k: Key)
    ensures RestoredAt(rows, Restored(rows, uid, entries).0, entries, k)
    ensures LastFor(entries, k).Some? ==>
              var end, e := Restored(rows, uid, entries).0, LastFor(entries, k).value;
              && k in end && end[k].spec == e.spec && end[k].status == e.status
              && end[k].labels == e.labels && end[k].annotations == e.annotations
              && (k in rows ==>
                    && end[k].uid == rows[k].uid && end[k].finalizers == rows[k].finalizers
                    && end[k].deleting == rows[k].deleting && end[k].version > rows[k].version)
  {
    if entries != [] {
      RestoreExact(rows, uid, entries[..|entries| - 1], k);
    }
  }

  predicate SameUpToVersion(x: Row, y: Row) { x.(version := 0) == y.(version := 0) }

  // Restoring twice is restoring once, up to versions.
  lemma RestoreIdempotent(rows: Rows, uid: nat, entries: seq<Entry>, uid': nat, k: Key)
    ensures var once := Restored(rows, uid, entries).0; var twice := Restored(once, uid', entries).0;
            (k in twice <==> k in once) && (k in once ==> SameUpToVersion(twice[k], once[k]))
  {
    var once := Restored(rows, uid, entries).0;
    RestoreExact(rows, uid, entries, k);
    RestoreExact(once, uid', entries, k);
  }

  lemma {:induction false} LastForMember(entries: seq<Entry>, k: Key)
    ensures LastFor(entries, k).Some? ==> LastFor(entries, k).value in entries && LastFor(entries, k).value.key == k
    ensures (exists e :: e in entries && e.key == k) ==> LastFor(entries, k).Some?
  {
    if entries != [] {
      var n := |entries| - 1;
      LastForMember(entries[..n], k);
      forall e | e in entries && e.key == k && entries[n].key != k ensures e in entries[..n] {
        assert e != entries[n];
        var i :| 0 <= i < |entries| && entries[i] == e;
        assert entries[..n][i] == e;
      }
    }
  }

  // Restoring a snapshot of `src` onto any store gives every exported row its
  // snapshot content and leaves all other rows unchanged.
  lemma SnapshotRestored(src: Rows, entries: seq<Entry>, rows: Rows, uid: nat, k: Key)
    requires IsSnapshot(src, KINDS, entries)
    ensures var end := Restored(rows, uid, entries).0;
            if Listed(src, k) && k.kind in KINDS then
              k in end && EntryOf(k, end[k]) == EntryOf(k, src[k]) && (k in rows ==> SameIdentity(end[k], rows[k]))
            else (k in end <==> k in rows) && (k in rows ==> end[k] == rows[k])
    ensures k in src && !src[k].deleting
            && k.kind in {"tenant", "nodegroup", "machine", "provider", "configpatch"} ==>
              var end := Restored(rows, uid, entries).0;
              && k in end && end[k].spec == src[k].spec && end[k].status == src[k].status
              && end[k].labels == src[k].labels && end[k].annotations == src[k].annotations
  {
    SnapshotContents(src, KINDS, entries);
    RestoreExact(rows, uid, entries, k);
    LastForMember(entries, k);
    if Listed(src, k) && k.kind in KINDS {
      assert EntryOf(k, src[k]) in entries && EntryOf(k, src[k]).key == k;
    }
    if LastFor(entries, k).Some? {
      var i :| 0 <= i < |entries| && entries[i] == LastFor(entries, k).value;
    }
  }

  predicate SameEntry(x: Rows, y: Rows, k: Key) {
    (Listed(x, k) <==> Listed(y, k)) && (Listed(x, k) ==> EntryOf(k, x[k]) == EntryOf(k, y[k]))
  }

  // Two stores that list the same rows with the same content export the same.
  ghost predicate SameExport(x: Rows, y: Rows, kinds: seq<string>) {
    forall k: Key :: k.kind in kinds ==> SameEntry(x, y, k)
  }

  lemma {:induction false} SameExportSameSnapshot(x: Rows, y: Rows, kinds: seq<string>, entries: seq<Entry>)
    requires SameExport(x, y, kinds) && IsSnapshot(x, kinds, entries)
    ensures IsSnapshot(y, kinds, entries)
  {
    if kinds != [] {
      var names :| KindExported(x, kinds[0], names, entries) && |names| <= |entries| &&
          IsSnapshot(x, kinds[1..], entries[|names|..]);
      SameExportSameSnapshot(x, y, kinds[1..], entries[|names|..]);
      forall n ensures n in names <==> Listed(y, Key(kinds[0], n)) {
        assert SameEntry(x, y, Key(kinds[0], n));
      }
      forall i | 0 <= i < |names|
        ensures var k := Key(kinds[0], names[i]); k in y && EntryOf(k, x[k]) == EntryOf(k, y[k])
      {
        assert names[i] in names && SameEntry(x, y, Key(kinds[0], names[i]));
      }
      assert EntriesOf(y, kinds[0], names) == EntriesOf(x, kinds[0], names);
      assert KindExported(y, kinds[0], names, entries);
    }
  }

  // The store lists nothing of the kinds beyond the export, and no exported row is
  // pending deletion in it.
  ghost predicate Receptive(src: Rows, rows: Rows, kinds: seq<string>) {
    forall k: Key :: k.kind in kinds ==>
      && (Listed(rows, k) ==> Listed(src, k))
      && (Listed(src, k) && k in rows ==> !rows[k].deleting)
  }

  // Round trip: restoring an export and exporting again gives the same export, if
  // and only if the store is receptive.
  lemma RestoreThenExportIff(src: Rows, entries: seq<Entry>, rows: Rows, uid: nat)
    requires IsSnapshot(src, KINDS, entries)
    ensures IsSnapshot(Restored(rows, uid, entries).0, KINDS, entries) <==> Receptive(src, rows, KINDS)
  {
    var end := Restored(rows, uid, entries).0;
    if Receptive(src, rows, KINDS) {
      forall k: Key | k.kind in KINDS ensures SameEntry(src, end, k) {
        SnapshotRestored(src, entries, rows, uid, k);
        RestoreExact(rows, uid, entries, k);
      }
      SameExportSameSnapshot(src, end, KINDS, entries);
    }
    if IsSnapshot(end, KINDS, entries) {
      forall k: Key | k.kind in KINDS
        ensures (Listed(rows, k) ==> Listed(src, k)) && (Listed(src, k) && k in rows ==> !rows[k].deleting)
      {
        SnapshotRestored(src, entries, rows, uid, k);
        SameListed(src, end, entries, k);
      }
    }
  }

  // Stores with the same export list the same rows.
  lemma SameListed(x: Rows, y: Rows, entries: seq<Entry>, k: Key)
    requires IsSnapshot(x, KINDS, entries) && IsSnapshot(y, KINDS, entries) && k.kind in KINDS
    ensures Listed(x, k) <==> Listed(y, k)
  {
    SnapshotContents(x, KINDS, entries);
    SnapshotContents(y, KINDS, entries);
    if Listed(x, k) {
      assert EntryOf(k, x[k]) in entries;
    }
    if Listed(y, k) {
      assert EntryOf(k, y[k]) in entries;
    }
  }

  // In particular an empty store.
  lemma RestoreThenExport(src: Rows, entries: seq<Entry>, uid: nat)
    requires IsSnapshot(src, KINDS, entries)
    ensures IsSnapshot(Restored(map[], uid, entries).0, KINDS, entries)
  {
    RestoreThenExportIff(src, entries, map[], uid);
  }

  // ----- A restore that stops half-way

  // What the store does to one entry: the row cannot be written, or it can but
  // the status write after it fails.
  datatype EntryFault = NoFault | WriteFails | StatusFails

  // A new row is created with its status, in one write.
  predicate EntryFails(rows: Rows, e: Entry, fault: EntryFault) {
    fault.WriteFails? || (fault.StatusFails? && e.key in rows)
  }

  function EntryFaulted(rows: Rows, e: Entry, fault: EntryFault): Rows {
    if fault.StatusFails? && e.key in rows
    then rows[e.key := Respecified(rows[e.key], e.spec, e.labels, e.annotations)]
    else rows
  }

  // The first n entries are applied, and the next one fails.
  ghost predicate StoppedAt(rows: Rows, uid: nat, entries: seq<Entry>, faults: nat -> EntryFault, n: nat, end: Rows) {
    && n < |entries|
    && (forall i :: 0 <= i < n ==> AppliesAt(rows, uid, entries, faults, i))
    && !AppliesAt(rows, uid, entries, faults, n)
    && end == EntryFaulted(Restored(rows, uid, entries[..n]).0, entries[n], faults(n))
  }

  predicate AppliesAt(rows: Rows, uid: nat, entries: seq<Entry>, faults: nat -> EntryFault, i: nat)
    requires i < |entries|
  {
    !EntryFails(Restored(rows, uid, entries[..i]).0, entries[i], faults(i))
  }

  predicate SameRestored(x: Row, y: Row) { x.(version := 0, uid := 0) == y.(version := 0, uid := 0) }

  lemma {:induction false} LastForPrefix(entries: seq<Entry>, n: nat, k: Key)
    requires n <= |entries| && LastFor(entries, k).None?
    ensures LastFor(entries[..n], k).None? && (n < |entries| ==> entries[n].key != k)
  {
    if n < |entries| {
      var m := |entries| - 1;
      if n < m {
        LastForPrefix(entries[..m], n, k);
        assert entries[..m][..n] == entries[..n];
      }
    } else {
      assert entries[..n] == entries;
    }
  }

  // A failed restore damages nothing that the export does not name, and restoring
  // again ends where a restore without the failure ends: same rows, same content,
  // finalizers and deletion marks, and the same uids for rows that were there.
  lemma RetryCompletes(rows: Rows, uid: nat, entries: seq<Entry>, faults: nat -> EntryFault, n: nat, end: Rows,
                       uid': nat, k: Key)
    requires StoppedAt(rows, uid, entries, faults, n, end)
    ensures var full := Restored(rows, uid, entries).0; var retried := Restored(end, uid', entries).0;
            && (LastFor(entries, k).None? ==> (k in end <==> k in rows) && (k in rows ==> end[k] == rows[k]))
            && (k in retried <==> k in full)
            && (k in full ==> SameRestored(retried[k], full[k]))
            && (k in rows ==> k in full && k in retried && retried[k].uid == full[k].uid)
  {
    RestoreExact(rows, uid, entries, k);
    RestoreExact(rows, uid, entries[..n], k);
    RestoreExact(end, uid', entries, k);
    if LastFor(entries, k).None? {
      LastForPrefix(entries, n, k);
    }
  }

  // ----- The service

  datatype Snapshot = Snapshot(status: string, kind: string)

  datatype Report = Report(dryRun: bool, seen: nat, restored: nat, byType: map<string, nat>)

  datatype RestoreError = NotFound | NotRestorable | Unsupported | DownloadFailed | StoreFailed

  function Tally(entries: seq<Entry>, kind: string): nat {
    if entries == [] then 0
    else Tally(entries[..|entries| - 1], kind) + if entries[|entries| - 1].key.kind == kind then 1 else 0
  }

  ghost predicate CountsByType(byType: map<string, nat>, entries: seq<Entry>) {
    forall kind ::
      && (kind in byType <==> Tally(entries, kind) > 0)
      && (kind in byType ==> byType[kind] == Tally(entries, kind))
  }

  predicate Restorable(snapshot: Option<Snapshot>) {
    snapshot.Some? && snapshot.value.status == "success" && snapshot.value.kind == "resources"
  }

  predicate AppliesAll(rows: Rows, uid: nat, entries: seq<Entry>, faults: nat -> EntryFault) {
    forall i :: 0 <= i < |entries| ==> AppliesAt(rows, uid, entries, faults, i)
  }

  // The counts are the same on a dry run, which restores nothing.
  ghost predicate Reports(r: Report, dryRun: bool, entries: seq<Entry>) {
    && r.dryRun == dryRun && r.seen == |entries| && r.restored == (if dryRun then 0 else |entries|)
    && CountsByType(r.byType, entries)
  }

  method ApplyEntry(store: Store, e: Entry, fault: EntryFault) returns (ok: bool)
    modifies store`rows, store`events, store`nextUid
    ensures ok <==> !EntryFails(old(store.rows), e, fault)
    ensures ok ==> store.rows == EntryApplied(old(store.rows), old(store.nextUid), e)
    ensures ok ==> store.nextUid == UidAfter(old(store.rows), old(store.nextUid), e)
    ensures !ok ==> store.rows == EntryFaulted(old(store.rows), e, fault) && store.nextUid == old(store.nextUid)
  {
    if fault.WriteFails? {
      return false;
    }
    if e.key !in store.rows {
      ok := store.CreateResource(e.key, e.spec, e.status, e.labels, e.annotations);
      return;
    }
    ok := store.UpdateResource(e.key, store.rows[e.key].version, e.spec, e.labels, e.annotations);
    if fault.StatusFails? {
      return false;
    }
    ok := store.UpdateStatus(e.key, e.status);
  }

  // `snapshot` is the snapshot record, `data` the decoded artifact if it could be
  // downloaded.
  method Restore(store: Store, snapshot: Option<Snapshot>, data: Option<seq<Entry>>, dryRun: bool,
                 faults: nat -> EntryFault)
    returns (r: Result<Report, RestoreError>)
    modifies store`rows, store`events, store`nextUid
    ensures snapshot.None? ==> r == Err(NotFound)
    ensures snapshot.Some? && snapshot.value.status != "success" ==> r == Err(NotRestorable)
    ensures snapshot.Some? && snapshot.value.status == "success" && snapshot.value.kind != "resources" ==>
            r == Err(Unsupported)
    ensures Restorable(snapshot) && data.None? ==> r == Err(DownloadFailed)
    ensures Restorable(snapshot) && data.Some? ==>
              if dryRun || AppliesAll(old(store.rows), old(store.nextUid), data.value, faults)
              then r.Ok? && Reports(r.value, dryRun, data.value) else r == Err(StoreFailed)
    ensures dryRun || (r.Err? && !r.error.StoreFailed?) ==>
            store.rows == old(store.rows) && store.events == old(store.events)
    ensures r.Ok? && !dryRun ==> data.Some? && store.rows == Restored(old(store.rows), old(store.nextUid), data.value).0
    ensures r == Err(StoreFailed) ==>
              && data.Some?
              && exists n :: StoppedAt(old(store.rows), old(store.nextUid), data.value, faults, n, store.rows)
  {
    if snapshot.None? {
      return Err(NotFound);
    }
    if snapshot.value.status != "success" {
      return Err(NotRestorable);
    }
    if snapshot.value.kind != "resources" {
      return Err(Unsupported);
    }
    if data.None? {
      return Err(DownloadFailed);
    }
    var entries := data.value;
    var byType: map<string, nat>, restored := map[], 0;
    for i := 0 to |entries|
      invariant CountsByType(byType, entries[..i])
      invariant restored == if dryRun then 0 else i
      invariant dryRun ==> store.rows == old(store.rows) && store.events == old(store.events)
      invariant !dryRun ==> (store.rows, store.nextUid) == Restored(old(store.rows), old(store.nextUid), entries[..i])
      invariant !dryRun ==> forall j :: 0 <= j < i ==>
                AppliesAt(old(store.rows), old(store.nextUid), entries, faults, j)
    {
      assert entries[..i + 1][..i] == entries[..i];
      byType := CountOne(byType, entries[..i], entries[i]);
      if !dryRun {
        var ok := ApplyEntry(store, entries[i], faults(i));
        if !ok {
          assert StoppedAt(old(store.rows), old(store.nextUid), entries, faults, i, store.rows);
          return Err(StoreFailed);
        }
        restored := restored + 1;
      }
    }
    assert entries[..|entries|] == entries;
    return Ok(Report(dryRun, |entries|, restored, byType));
  }

  method CountOne(before: map<string, nat>, ghost seen: seq<Entry>, e: Entry) returns (byType: map<string, nat>)
    requires CountsByType(before, seen)
    ensures CountsByType(byType, seen + [e])
  {
    var kind := e.key.kind;
    byType := before[kind := (if kind in before then before[kind] else 0) + 1];
    assert (seen + [e])[..|seen|] == seen;
  }
}
