// Tenant teardown: `destroy` of internal/reconcile/applier.go:184-241 on the
// store of internal/state/store.go:779-883. Rendering, tofu and every store call
// may fail.
module Teardown {
  import opened BindingTokens
  import opened ResourceStore
  import opened Wrappers

  function TenantKey(t: string): Key { Key("tenant", t) }

  // What the rest of the system does during one destroy.
  datatype World = World(
    listed: Option<seq<NodeGroup>>,  // loadNodeGroups
    env: Env,
    mint: Mint,
    next: nat,
    renderOk: bool,
    tofuOk: bool)                    // tofu init and tofu destroy

  // Store errors after tofu succeeded. The first two are only logged.
  datatype Faults = Faults(
    cascade: Option<nat>,  // RemoveResourcesByTenant fails after this many rows
    secrets: bool,         // RemoveTenantSecrets fails
    first: bool,           // removing the machines finalizer fails
    second: bool,          // removing the secrets finalizer fails
    gc: bool)              // the DELETE of the tenant row fails; never reported

  const NO_FAULTS := Faults(None, false, false, false, false)

  // The listing only names node groups of the tenant.
  ghost predicate ListsTenant(rows: Rows, ngs: seq<NodeGroup>, t: string) {
    forall i :: 0 <= i < |ngs| ==> RowKey(ngs[i].name) in rows && LabelledWith(rows[RowKey(ngs[i].name)], t)
  }

  // ----- Rows after the two finalizer removals

  function FinalizerPhase(rows: Rows, t: string, f: Faults): Rows {
    if f.first || TenantKey(t) !in rows then rows
    else
      var rows1 := FinalizerOutcome(rows, TenantKey(t), MACHINES, f.gc);
      if f.second || TenantKey(t) !in rows1 then rows1 else FinalizerOutcome(rows1, TenantKey(t), SECRETS, f.gc)
  }

  // No finalizer other than the two that destroy removes.
  predicate OnlyTeardown(fs: seq<string>) { forall f :: f in fs ==> f == MACHINES || f == SECRETS }

  // A deleting row that removing the two finalizers collects.
  predicate Collectable(fs: seq<string>) { fs != [] && OnlyTeardown(fs) }

  // The first removal alone collects it, and the second finds no row.
  predicate OnlyMachines(fs: seq<string>) { fs != [] && forall f :: f in fs ==> f == MACHINES }

  // No fault keeps a row with these finalizers from being collected.
  predicate Unhindered(fs: seq<string>, f: Faults) { !f.first && !f.gc && (f.second ==> SECRETS !in fs) }

  lemma TwoFinalizers()
    ensures MACHINES != SECRETS
  {
    assert MACHINES[14] == 'm' && SECRETS[14] == 's';
  }

  // Under any faults the tenant row is collected exactly when it carries
  // finalizers, none but the two that destroy removes, and no fault hinders it.
  lemma TenantGoneIff(rows: Rows, t: string, f: Faults)
    requires TenantKey(t) in rows && rows[TenantKey(t)].deleting
    ensures TenantKey(t) !in FinalizerPhase(rows, t, f) <==>
            var fs := rows[TenantKey(t)].finalizers; Collectable(fs) && Unhindered(fs, f)
  {
    var fs := rows[TenantKey(t)].finalizers;
    var fs1 := Without(fs, MACHINES);
    TwoFinalizers();
    Remains(fs);
    WithoutAbsentEither(fs, MACHINES);
    WithoutAbsentEither(fs1, SECRETS);
    WithoutIsEmptyIff(fs, MACHINES);
    if fs1 != [] {
      assert fs1[0] in fs1;
    }
  }

  lemma Remains(fs: seq<string>)
    ensures Without(Without(fs, MACHINES), SECRETS) == [] <==> OnlyTeardown(fs)
  {
    var fs2 := Without(Without(fs, MACHINES), SECRETS);
    if fs2 != [] {
      assert fs2[0] in fs2;
    }
    forall f | f in fs && f != MACHINES && f != SECRETS ensures f in fs2 {
    }
  }

  lemma WithoutAbsentEither(fs: seq<string>, f: string)
    ensures f !in fs ==> Without(fs, f) == fs
  {
    if f !in fs {
      WithoutAbsent(fs, f);
    }
  }

  // Other rows are never touched.
  lemma FinalizersTouchOnlyTenant(rows: Rows, t: string, f: Faults, k: Key)
    requires k in rows && k != TenantKey(t)
    ensures k in FinalizerPhase(rows, t, f) && FinalizerPhase(rows, t, f)[k] == rows[k]
  {
  }

  // What a teardown should leave of the rows.
  function Clean(rows: Rows, t: string): Rows { rows - Children(rows, t) - {TenantKey(t)} }

  // Everything but the tenant's row and the rows, other than tenants, that carry
  // its label.
  lemma CleanByLabels(rows: Rows, t: string, k: Key)
    ensures k in Clean(rows, t) <==>
            && k in rows && k != Key("tenant", t)
            && (|| k.kind == "tenant"
                || "rezuscloud.io/tenant" !in rows[k].labels
                || rows[k].labels["rezuscloud.io/tenant"] != t)
    ensures k in Clean(rows, t) ==> Clean(rows, t)[k] == rows[k]
  {
  }

  // ----- destroy

  // The rows the finalizer phase starts from: the children are gone, or a fault
  // in the cascade left some of them (possibly with tokens minted just before).
  ghost predicate TokensForChildren(old_: Rows, mid: Rows, t: string) {
    OnlyTokensAdded(old_, mid) && Children(mid, t) == Children(old_, t) && Childless(mid, t) == Childless(old_, t)
  }

  ghost predicate StoppedAfter(old_: Rows, left: Rows, t: string, n: nat, mid: Rows, gone: seq<Key>) {
    TokensForChildren(old_, mid, t) && Cascaded(mid, left, t, gone) && |gone| == n
  }

  // The cascade fails with children left.
  predicate StopsEarly(rows: Rows, t: string, cascade: Option<nat>) {
    cascade.Some? && cascade.value < |Children(rows, t)|
  }

  ghost predicate CascadeLeft(old_: Rows, left: Rows, t: string, cascade: Option<nat>) {
    if StopsEarly(old_, t, cascade) then exists mid, gone :: StoppedAfter(old_, left, t, cascade.value, mid, gone)
    else left == Childless(old_, t)
  }

  lemma TokensLeaveOthers(rows: Rows, w: World, t: string)
    requires Fresh(w.mint) && w.listed.Some? && ListsTenant(rows, w.listed.value, t)
    ensures var mid := EnsureTokens(rows, w.listed.value, w.env, w.mint, w.next, map[]).rows;
            TokensForChildren(rows, mid, t)
  {
    var ngs := w.listed.value;
    var mid := EnsureTokens(rows, ngs, w.env, w.mint, w.next, map[]).rows;
    PassAddsTokens(rows, ngs, w.env, w.mint, w.next, map[]);
    forall k | k in rows ensures IsChild(k, mid[k], t) == IsChild(k, rows[k], t) {
      assert TokensAddedTo(k, rows[k], mid[k]);
    }
    assert Children(mid, t) == Children(rows, t);
    forall k | k in rows && !IsChild(k, rows[k], t) ensures mid[k] == rows[k] {
      if k.kind == "nodegroup" {
        PassTouchesOnlyGroups(rows, ngs, w.env, w.mint, w.next, map[], k);
      } else {
        assert TokensAddedTo(k, rows[k], mid[k]);
      }
    }
  }

  method RemoveFinalizers(store: Store, t: string, f: Faults) returns (ok: bool)
    requires TenantKey(t) in store.rows
    modifies store`rows, store`events
    ensures store.rows == FinalizerPhase(old(store.rows), t, f)
    ensures ok <==>
            !f.first && !f.second && TenantKey(t) in FinalizerOutcome(old(store.rows), TenantKey(t), MACHINES, f.gc)
  {
    ok := store.RemoveFinalizer(TenantKey(t), MACHINES, f.first, f.gc);
    if ok {
      ok := store.RemoveFinalizer(TenantKey(t), SECRETS, f.second, f.gc);
    }
  }

  // What destroy does once tofu has succeeded, on rows that minting changed since
  // `rows`.
  method Dismantle(store: Store, t: string, f: Faults, ghost rows: Rows) returns (ok: bool, ghost left: Rows)
    requires TenantKey(t) in store.rows && TokensForChildren(rows, store.rows, t)
    modifies store
    ensures CascadeLeft(rows, left, t, f.cascade) && store.rows == FinalizerPhase(left, t, f)
    ensures store.secrets == if f.secrets then old(store.secrets) else old(store.secrets) - {t}
    ensures ok <==> !f.first && !f.second && TenantKey(t) in FinalizerOutcome(left, TenantKey(t), MACHINES, f.gc)
  {
    ghost var mid := store.rows;
    ghost var gone;
    var n, cascaded;
    n, cascaded, gone := store.RemoveResourcesByTenant(t, f.cascade);
    left := store.rows;
    assert StopsEarly(rows, t, f.cascade) ==> StoppedAfter(rows, left, t, f.cascade.value, mid, gone);
    assert TenantKey(t) in left;
    if !f.secrets {
      store.secrets := store.secrets - {t};
    }
    ok := RemoveFinalizers(store, t, f);
  }

  // `destroyed` is whether tofu destroy succeeded, `left` the rows after the
  // cascade.
  method Destroy(store: Store, t: string, w: World, f: Faults) returns (ok: bool, destroyed: bool, ghost left: Rows)
    requires TenantKey(t) in store.rows && store.rows[TenantKey(t)].deleting
    requires Fresh(w.mint) && (w.listed.Some? ==> ListsTenant(store.rows, w.listed.value, t))
    modifies store
    ensures destroyed <==>
              && w.listed.Some? && w.renderOk && w.tofuOk
              && EnsureTokens(old(store.rows), w.listed.value, w.env, w.mint, w.next, map[]).tokens.Some?
    ensures !destroyed ==>
              !ok && TokensForChildren(old(store.rows), store.rows, t) && store.secrets == old(store.secrets)
    ensures destroyed ==> CascadeLeft(old(store.rows), left, t, f.cascade)
    ensures destroyed ==> store.rows == FinalizerPhase(left, t, f)
    ensures destroyed ==> store.secrets == if f.secrets then old(store.secrets) else old(store.secrets) - {t}
    ensures destroyed ==>
              var fs := old(store.rows)[TenantKey(t)].finalizers;
              && (TenantKey(t) !in store.rows <==> Collectable(fs) && Unhindered(fs, f))
              && (ok <==> !f.first && !f.second && (OnlyMachines(fs) ==> f.gc))
    ensures store.rows.Keys <= old(store.rows).Keys
    ensures forall k ::
              && k in old(store.rows) && k != Key("tenant", t)
              && (|| k.kind == "tenant"
                  || "rezuscloud.io/tenant" !in old(store.rows)[k].labels
                  || old(store.rows)[k].labels["rezuscloud.io/tenant"] != t)
              ==> k in store.rows && store.rows[k] == old(store.rows)[k]
    ensures destroyed && !StopsEarly(old(store.rows), t, f.cascade) ==>
              forall k :: k in store.rows && k.kind != "tenant" && "rezuscloud.io/tenant" in store.rows[k].labels ==>
                store.rows[k].labels["rezuscloud.io/tenant"] != t
  {
    ok, destroyed, left := DestroySteps(store, t, w, f);
    if destroyed {
      DismantleKeepsOthers(old(store.rows), left, t, f);
    } else {
      MintingKeepsOthers(old(store.rows), store.rows, t);
    }
  }

  // Neither minting nor tearing down touches rows of others.
  lemma MintingKeepsOthers(rows: Rows, mid: Rows, t: string)
    requires TokensForChildren(rows, mid, t)
    ensures mid.Keys == rows.Keys && Clean(mid, t) == Clean(rows, t)
    ensures forall k ::
              && k in rows && k != Key("tenant", t)
              && (|| k.kind == "tenant"
                  || "rezuscloud.io/tenant" !in rows[k].labels
                  || rows[k].labels["rezuscloud.io/tenant"] != t)
              ==> k in mid && mid[k] == rows[k]
  {
    KeepsOthers(rows, mid, t);
  }

  lemma DismantleKeepsOthers(rows: Rows, left: Rows, t: string, f: Faults)
    requires CascadeLeft(rows, left, t, f.cascade)
    ensures var end := FinalizerPhase(left, t, f);
            && end.Keys <= rows.Keys
            && (forall k ::
                  && k in rows && k != Key("tenant", t)
                  && (|| k.kind == "tenant"
                      || "rezuscloud.io/tenant" !in rows[k].labels
                      || rows[k].labels["rezuscloud.io/tenant"] != t)
                  ==> k in end && end[k] == rows[k])
            && (!StopsEarly(rows, t, f.cascade) ==>
                  forall k :: k in end && k.kind != "tenant" && "rezuscloud.io/tenant" in end[k].labels ==>
                    end[k].labels["rezuscloud.io/tenant"] != t)
  {
    CascadeLeaves(rows, left, t, f.cascade);
    PhaseOnlyTenant(left, t, f);
    var end := FinalizerPhase(left, t, f);
    KeepsOthers(rows, end, t);
    if !StopsEarly(rows, t, f.cascade) {
      assert Children(end, t) == {};
      assert forall k :: k in end ==> k !in Children(end, t);
    }
  }

  lemma KeepsOthers(rows: Rows, end: Rows, t: string)
    requires Clean(end, t) == Clean(rows, t)
    ensures forall k ::
              && k in rows && k != Key("tenant", t)
              && (|| k.kind == "tenant"
                  || "rezuscloud.io/tenant" !in rows[k].labels
                  || rows[k].labels["rezuscloud.io/tenant"] != t)
              ==> k in end && end[k] == rows[k]
  {
    forall k |
      && k in rows && k != Key("tenant", t)
      && (|| k.kind == "tenant"
          || "rezuscloud.io/tenant" !in rows[k].labels
          || rows[k].labels["rezuscloud.io/tenant"] != t)
      ensures k in end && end[k] == rows[k]
    {
      CleanByLabels(rows, t, k);
      CleanByLabels(end, t, k);
    }
  }

  method DestroySteps(store: Store, t: string, w: World, f: Faults)
    returns (ok: bool, destroyed: bool, ghost left: Rows)
    requires TenantKey(t) in store.rows && store.rows[TenantKey(t)].deleting
    requires Fresh(w.mint) && (w.listed.Some? ==> ListsTenant(store.rows, w.listed.value, t))
    modifies store
    ensures destroyed <==>
              && w.listed.Some? && w.renderOk && w.tofuOk
              && EnsureTokens(old(store.rows), w.listed.value, w.env, w.mint, w.next, map[]).tokens.Some?
    ensures !destroyed ==>
              !ok && TokensForChildren(old(store.rows), store.rows, t) && store.secrets == old(store.secrets)
    ensures destroyed ==> CascadeLeft(old(store.rows), left, t, f.cascade)
    ensures destroyed ==> store.rows == FinalizerPhase(left, t, f)
    ensures destroyed ==> store.secrets == if f.secrets then old(store.secrets) else old(store.secrets) - {t}
    ensures destroyed ==>
              var fs := old(store.rows)[TenantKey(t)].finalizers;
              && (TenantKey(t) !in store.rows <==> Collectable(fs) && Unhindered(fs, f))
              && (ok <==> !f.first && !f.second && (OnlyMachines(fs) ==> f.gc))
  {
    ghost var rows := store.rows;
    ok, destroyed, left := false, false, rows;
    if w.listed.None? {
      return;
    }
    TokensLeaveOthers(store.rows, w, t);
    var tokens := EnsureBindingTokens(store, w.listed.value, w.env, w.mint, w.next);
    if tokens.None? || !w.renderOk || !w.tofuOk {
      return;
    }
    destroyed := true;
    ok, left := Dismantle(store, t, f, rows);
    CascadeLeaves(rows, left, t, f.cascade);
    TenantGoneIff(left, t, f);
    SecondRemovalFindsRowIff(left, t, f.gc);
  }

  // A teardown that no fault of the finalizer phase hinders, after a complete
  // cascade, leaves exactly that.
  lemma CleanTeardown(rows: Rows, left: Rows, t: string, f: Faults)
    requires TenantKey(t) in rows && rows[TenantKey(t)].deleting
    requires CascadeLeft(rows, left, t, f.cascade) && !StopsEarly(rows, t, f.cascade)
    requires var fs := rows[TenantKey(t)].finalizers; Collectable(fs) && Unhindered(fs, f)
    ensures FinalizerPhase(left, t, f) == Clean(rows, t)
  {
    assert TenantKey(t) in left;
    TenantGoneIff(left, t, f);
    PhaseOnlyTenant(left, t, f);
  }

  // The finalizer phase never adds a row and keeps every other one.
  lemma PhaseOnlyTenant(rows: Rows, t: string, f: Faults)
    ensures var end := FinalizerPhase(rows, t, f);
            && end.Keys <= rows.Keys <= end.Keys + {TenantKey(t)}
            && Children(end, t) == Children(rows, t)
            && Clean(end, t) == Clean(rows, t)
  {
    forall k | k in rows && k != TenantKey(t)
      ensures k in FinalizerPhase(rows, t, f) && FinalizerPhase(rows, t, f)[k] == rows[k]
    {
      FinalizersTouchOnlyTenant(rows, t, f, k);
    }
  }

  // ----- Children left behind

  lemma ChildrenMinus(rows: Rows, gone: set<Key>, t: string)
    ensures Children(rows - gone, t) == Children(rows, t) - gone
  {
  }

  // The cascade keeps the tenant row, and leaves children exactly when it stops
  // early; all other rows are as before.
  lemma CascadeLeaves(rows: Rows, left: Rows, t: string, cascade: Option<nat>)
    requires CascadeLeft(rows, left, t, cascade)
    ensures Children(left, t) != {} <==> StopsEarly(rows, t, cascade)
    ensures Clean(left, t) == Clean(rows, t)
    ensures TenantKey(t) in rows ==> TenantKey(t) in left && left[TenantKey(t)] == rows[TenantKey(t)]
  {
    assert TenantKey(t) !in Children(rows, t);
    if StopsEarly(rows, t, cascade) {
      var mid, gone :| StoppedAfter(rows, left, t, cascade.value, mid, gone);
      StoppedLeaves(mid, left, t, gone);
      assert TenantKey(t) in rows ==> TokensAddedTo(TenantKey(t), rows[TenantKey(t)], mid[TenantKey(t)]);
    } else {
      ChildrenMinus(rows, Children(rows, t), t);
    }
  }

  lemma StoppedLeaves(mid: Rows, left: Rows, t: string, gone: seq<Key>)
    requires Cascaded(mid, left, t, gone)
    ensures Children(left, t) == {} <==> |gone| == |Children(mid, t)|
    ensures Childless(left, t) == Childless(mid, t)
  {
    ChildrenMinus(mid, Members(gone), t);
    MembersCount(gone);
    assert |Children(mid, t) - Members(gone)| == |Children(mid, t)| - |gone|;
    MinusTwice(mid, Members(gone), Children(mid, t));
  }

  lemma MinusTwice(rows: Rows, some: set<Key>, all: set<Key>)
    requires some <= all
    ensures rows - some - (all - some) == rows - all
  {
  }

  // The cascade's errors are only logged. The tenant row goes while rows labelled
  // with it stay behind, if and only if the cascade stops early and nothing
  // hinders the collection of the tenant row.
  lemma OrphansIff(rows: Rows, left: Rows, t: string, f: Faults)
    requires TenantKey(t) in rows && rows[TenantKey(t)].deleting && CascadeLeft(rows, left, t, f.cascade)
    ensures var end := FinalizerPhase(left, t, f); var fs := rows[TenantKey(t)].finalizers;
            TenantKey(t) !in end && Children(end, t) != {} <==>
            StopsEarly(rows, t, f.cascade) && Collectable(fs) && Unhindered(fs, f)
  {
    CascadeLeaves(rows, left, t, f.cascade);
    TenantGoneIff(left, t, f);
    PhaseOnlyTenant(left, t, f);
  }

  // With the two finalizers that DeleteTenant sets, any further fault prevents it.
  lemma OrphansOfDeletedTenant(rows: Rows, left: Rows, t: string, f: Faults)
    requires TenantKey(t) in rows && rows[TenantKey(t)].deleting && CascadeLeft(rows, left, t, f.cascade)
    requires rows[TenantKey(t)].finalizers == [MACHINES, SECRETS]
    ensures var end := FinalizerPhase(left, t, f);
            TenantKey(t) !in end && Children(end, t) != {} <==>
            StopsEarly(rows, t, f.cascade) && !f.first && !f.second && !f.gc
  {
    OrphansIff(rows, left, t, f);
    assert SECRETS == rows[TenantKey(t)].finalizers[1];
  }

  // For instance: one machine, whose DELETE fails.
  lemma OrphanLeftBehind(t: string)
    ensures var tenant := Row(0, 1, "", "", [MACHINES, SECRETS], map[], map[], true);
            var machine := Row(1, 1, "", "", [], map[TENANT_LABEL := t], map[], false);
            var rows: Rows := map[TenantKey(t) := tenant, Key("machine", "m") := machine];
            var f := NO_FAULTS.(cascade := Some(0));
            && CascadeLeft(rows, rows, t, f.cascade)
            && TenantKey(t) !in FinalizerPhase(rows, t, f)
            && Key("machine", "m") in FinalizerPhase(rows, t, f)
  {
    var tenant := Row(0, 1, "", "", [MACHINES, SECRETS], map[], map[], true);
    var machine := Row(1, 1, "", "", [], map[TENANT_LABEL := t], map[], false);
    var rows: Rows := map[TenantKey(t) := tenant, Key("machine", "m") := machine];
    var f := NO_FAULTS.(cascade := Some(0));
    assert Children(rows, t) == {Key("machine", "m")};
    assert Members([]) == {} && rows - {} == rows;
    assert StoppedAfter(rows, rows, t, 0, rows, []);
    OrphansOfDeletedTenant(rows, rows, t, f);
    FinalizersTouchOnlyTenant(rows, t, f, Key("machine", "m"));
  }

  // ----- Secrets left behind

  // What destroy works on: the rows and the secrets bundles.
  datatype Db = Db(rows: Rows, secrets: map<string, Document>)

  // After the cascade left `left`.
  function AfterFaults(db: Db, left: Rows, t: string, f: Faults): Db {
    Db(FinalizerPhase(left, t, f), if f.secrets then db.secrets else db.secrets - {t})
  }

  // An error of RemoveTenantSecrets is only logged as well. The tenant row goes
  // while its secrets stay, if and only if that fault strikes and nothing hinders
  // the collection of the tenant row.
  lemma SecretsLeftIff(db: Db, left: Rows, t: string, f: Faults)
    requires TenantKey(t) in db.rows && db.rows[TenantKey(t)].deleting && CascadeLeft(db.rows, left, t, f.cascade)
    requires t in db.secrets
    ensures var end := AfterFaults(db, left, t, f); var fs := db.rows[TenantKey(t)].finalizers;
            TenantKey(t) !in end.rows && t in end.secrets <==> f.secrets && Collectable(fs) && Unhindered(fs, f)
  {
    CascadeLeaves(db.rows, left, t, f.cascade);
    TenantGoneIff(left, t, f);
  }

  // With the two finalizers that DeleteTenant sets: exactly when no other fault
  // stops the finalizer phase.
  lemma SecretsOfDeletedTenant(db: Db, left: Rows, t: string, f: Faults)
    requires TenantKey(t) in db.rows && db.rows[TenantKey(t)].deleting && CascadeLeft(db.rows, left, t, f.cascade)
    requires t in db.secrets && db.rows[TenantKey(t)].finalizers == [MACHINES, SECRETS]
    ensures var end := AfterFaults(db, left, t, f);
            TenantKey(t) !in end.rows && t in end.secrets <==> f.secrets && !f.first && !f.second && !f.gc
  {
    SecretsLeftIff(db, left, t, f);
    assert SECRETS == db.rows[TenantKey(t)].finalizers[1];
  }

  // For instance: a tenant without children. Its destroy reports success.
  lemma SecretsLeftBehind(t: string, bundle: Document)
    ensures var tenant := Row(0, 1, "", "", [MACHINES, SECRETS], map[], map[], true);
            var db := Db(map[TenantKey(t) := tenant], map[t := bundle]);
            var f := NO_FAULTS.(secrets := true);
            && CascadeLeft(db.rows, db.rows, t, f.cascade)
            && AfterFaults(db, db.rows, t, f) == Db(map[], map[t := bundle])
            && TenantKey(t) in FinalizerOutcome(db.rows, TenantKey(t), MACHINES, f.gc)
  {
    var tenant := Row(0, 1, "", "", [MACHINES, SECRETS], map[], map[], true);
    var db := Db(map[TenantKey(t) := tenant], map[t := bundle]);
    var f := NO_FAULTS.(secrets := true);
    assert Children(db.rows, t) == {} && db.rows - {} == db.rows;
    SecretsOfDeletedTenant(db, db.rows, t, f);
    PhaseOnlyTenant(db.rows, t, f);
    TwoFinalizers();
    assert tenant.finalizers[1] == SECRETS;
    SecondRemovalFindsRowIff(db.rows, t, f.gc);
  }

  // ----- A second attempt

  // What a completed teardown should leave.
  function CleanDb(db: Db, t: string): Db { Db(Clean(db.rows, t), db.secrets - {t}) }

  // Apply does nothing for a tenant without a row; otherwise it cascades, drops
  // the secrets and removes the finalizers again.
  function Rerun(once: Db, t: string): Db {
    if TenantKey(t) !in once.rows then once
    else Db(FinalizerPhase(Childless(once.rows, t), t, NO_FAULTS), once.secrets - {t})
  }

  // What a faulty finalizer phase can leave on the tenant row.
  lemma PhaseLeavesTenant(rows: Rows, t: string, f: Faults)
    requires TenantKey(t) in rows && TenantKey(t) in FinalizerPhase(rows, t, f) && rows[TenantKey(t)].deleting
    ensures var now := FinalizerPhase(rows, t, f)[TenantKey(t)];
            now.deleting && SameKind(rows[TenantKey(t)].finalizers, now.finalizers)
  {
    var fs := rows[TenantKey(t)].finalizers;
    var fs1 := Without(fs, MACHINES);
    TwoFinalizers();
    Remains(fs);
    WithoutAbsentEither(fs, MACHINES);
    WithoutAbsentEither(fs1, SECRETS);
    WithoutIsEmptyIff(fs, MACHINES);
    if fs1 != [] {
      assert fs1[0] in fs1 && fs1[0] in fs;
    }
    var fs2 := Without(fs1, SECRETS);
    if fs2 != [] {
      assert fs2[0] in fs2 && fs2[0] in fs1 && fs2[0] in fs;
    }
  }

  // Both or neither can be collected, and likewise by the first removal alone.
  predicate SameKind(x: seq<string>, y: seq<string>) {
    (Collectable(x) <==> Collectable(y)) && (OnlyMachines(x) <==> OnlyMachines(y))
  }

  // The second removal finds the row exactly when the first did not collect it.
  lemma SecondRemovalFindsRowIff(rows: Rows, t: string, gc: bool)
    requires TenantKey(t) in rows && rows[TenantKey(t)].deleting
    ensures TenantKey(t) in FinalizerOutcome(rows, TenantKey(t), MACHINES, gc) <==>
            (OnlyMachines(rows[TenantKey(t)].finalizers) ==> gc)
  {
    WithoutIsEmptyIff(rows[TenantKey(t)].finalizers, MACHINES);
    if rows[TenantKey(t)].finalizers != [] {
      assert rows[TenantKey(t)].finalizers[0] in rows[TenantKey(t)].finalizers;
    }
  }

  // A teardown without faults is clean exactly for a collectable tenant row.
  lemma CleanIffCollectable(rows: Rows, t: string)
    requires TenantKey(t) in rows && rows[TenantKey(t)].deleting
    ensures FinalizerPhase(Childless(rows, t), t, NO_FAULTS) == Clean(rows, t) <==>
            Collectable(rows[TenantKey(t)].finalizers)
  {
    if Collectable(rows[TenantKey(t)].finalizers) {
      CleanTeardown(rows, Childless(rows, t), t, NO_FAULTS);
    } else {
      assert TenantKey(t) in Childless(rows, t);
      TenantGoneIff(Childless(rows, t), t, NO_FAULTS);
    }
  }

  // Whatever failed, and wherever: as long as the tenant row is still there, the
  // next attempt that completes leaves exactly the clean rows, if and only if the
  // tenant carries finalizers and none of them is foreign.
  lemma RerunConverges(rows: Rows, left: Rows, t: string, f: Faults)
    requires TenantKey(t) in rows && rows[TenantKey(t)].deleting && CascadeLeft(rows, left, t, f.cascade)
    requires TenantKey(t) in FinalizerPhase(left, t, f)
    ensures FinalizerPhase(Childless(FinalizerPhase(left, t, f), t), t, NO_FAULTS) == Clean(rows, t) <==>
            Collectable(rows[TenantKey(t)].finalizers)
  {
    CascadeLeaves(rows, left, t, f.cascade);
    PhaseOnlyTenant(left, t, f);
    PhaseLeavesTenant(left, t, f);
    CleanIffCollectable(FinalizerPhase(left, t, f), t);
  }

  // What the first attempt left unrepairable: labelled rows or secrets of a tenant
  // that is gone.
  predicate LeavesBehind(db: Db, t: string, f: Faults) {
    StopsEarly(db.rows, t, f.cascade) || (f.secrets && t in db.secrets)
  }

  // For every tenant and every fault: what Apply does next ends in a completed
  // teardown, if and only if the tenant row is collectable and was not collected
  // by an attempt that left something behind.
  lemma RerunConvergesIff(db: Db, left: Rows, t: string, f: Faults)
    requires TenantKey(t) in db.rows && db.rows[TenantKey(t)].deleting && CascadeLeft(db.rows, left, t, f.cascade)
    ensures var fs := db.rows[TenantKey(t)].finalizers;
            Rerun(AfterFaults(db, left, t, f), t) == CleanDb(db, t) <==>
            Collectable(fs) && !(Unhindered(fs, f) && LeavesBehind(db, t, f))
  {
    CollectedIff(db.rows, left, t, f);
    if TenantKey(t) in FinalizerPhase(left, t, f) {
      RerunConverges(db.rows, left, t, f);
      assert db.secrets - {t} - {t} == db.secrets - {t};
    } else {
      CollectedCleanIff(db, left, t, f);
    }
  }

  // Whether the first attempt collects the tenant row.
  lemma CollectedIff(rows: Rows, left: Rows, t: string, f: Faults)
    requires TenantKey(t) in rows && rows[TenantKey(t)].deleting && CascadeLeft(rows, left, t, f.cascade)
    ensures TenantKey(t) !in FinalizerPhase(left, t, f) <==>
            Collectable(rows[TenantKey(t)].finalizers) && Unhindered(rows[TenantKey(t)].finalizers, f)
  {
    CascadeLeaves(rows, left, t, f.cascade);
    TenantGoneIff(left, t, f);
  }

  // When the first attempt collects the tenant row, its result is final.
  lemma CollectedCleanIff(db: Db, left: Rows, t: string, f: Faults)
    requires TenantKey(t) in db.rows && db.rows[TenantKey(t)].deleting && CascadeLeft(db.rows, left, t, f.cascade)
    requires TenantKey(t) !in FinalizerPhase(left, t, f)
    ensures AfterFaults(db, left, t, f) == CleanDb(db, t) <==> !LeavesBehind(db, t, f)
  {
    CollectedRowsIff(db.rows, left, t, f);
    SecretsDroppedIff(db.secrets, t, f.secrets);
  }

  lemma SecretsDroppedIff(secrets: map<string, Document>, t: string, fault: bool)
    ensures (if fault then secrets else secrets - {t}) == secrets - {t} <==> !(fault && t in secrets)
  {
    if t !in secrets {
      assert secrets - {t} == secrets;
    }
  }

  lemma CollectedRowsIff(rows: Rows, left: Rows, t: string, f: Faults)
    requires TenantKey(t) in rows && rows[TenantKey(t)].deleting && CascadeLeft(rows, left, t, f.cascade)
    requires TenantKey(t) !in FinalizerPhase(left, t, f)
    ensures FinalizerPhase(left, t, f) == Clean(rows, t) <==> !StopsEarly(rows, t, f.cascade)
  {
    CascadeLeaves(rows, left, t, f.cascade);
    if StopsEarly(rows, t, f.cascade) {
      PhaseOnlyTenant(left, t, f);
      ChildrenOfClean(rows, t);
    } else {
      TenantGoneIff(left, t, f);
      CleanTeardown(rows, left, t, f);
    }
  }

  lemma ChildrenOfClean(rows: Rows, t: string)
    ensures Children(Clean(rows, t), t) == {}
  {
  }

  lemma AlreadyRemoved(rows: Rows, key: Key, f: string)
    ensures var once := FinalizerRemoved(rows, key, f);
            key in once ==> f !in once[key].finalizers && FinalizerRemoved(once, key, f) == once
    ensures forall g :: key in rows && g !in rows[key].finalizers && key in FinalizerRemoved(rows, key, f) ==>
              g !in FinalizerRemoved(rows, key, f)[key].finalizers
  {
  }

  // Other finalizers or not: an interrupted finalizer phase followed by a clean
  // one ends where a clean one ends.
  lemma PhaseAbsorbs(base: Rows, t: string, f: Faults)
    ensures FinalizerPhase(FinalizerPhase(base, t, f), t, NO_FAULTS) == FinalizerPhase(base, t, NO_FAULTS)
  {
    var key := TenantKey(t);
    var rows1 := FinalizerRemoved(base, key, MACHINES);
    AlreadyRemoved(base, key, MACHINES);
    if key in rows1 {
      AlreadyRemoved(rows1, key, SECRETS);
      var rows2 := FinalizerRemoved(rows1, key, SECRETS);
      assert FinalizerPhase(base, t, f) in {base, rows1, rows2};
      assert key in rows2 ==> FinalizerPhase(rows2, t, NO_FAULTS) == rows2;
    } else {
      assert FinalizerPhase(base, t, f) in {base, rows1};
    }
  }

  // One rerun does all that any number of reruns can do.
  lemma RerunIdempotent(once: Db, t: string)
    ensures Rerun(Rerun(once, t), t) == Rerun(once, t)
  {
    var again := Rerun(once, t);
    if TenantKey(t) in once.rows {
      var base := Childless(once.rows, t);
      PhaseOnlyTenant(base, t, NO_FAULTS);
      ChildrenMinus(once.rows, Children(once.rows, t), t);
      assert Childless(again.rows, t) == again.rows;
      PhaseAbsorbs(base, t, NO_FAULTS);
    }
  }

  // Rows a second attempt can start from: the first one stopped before or after
  // tofu, with any faults.
  ghost predicate Attempted(rows: Rows, once: Rows, t: string, f: Faults) {
    || TokensForChildren(rows, once, t)
    || exists left :: CascadeLeft(rows, left, t, f.cascade) && once == FinalizerPhase(left, t, f)
  }

  lemma AttemptedConverges(rows: Rows, once: Rows, t: string, f: Faults)
    requires TenantKey(t) in rows && rows[TenantKey(t)].deleting && Attempted(rows, once, t, f)
    requires TenantKey(t) in once
    ensures once[TenantKey(t)].deleting && SameKind(rows[TenantKey(t)].finalizers, once[TenantKey(t)].finalizers)
    ensures FinalizerPhase(Childless(once, t), t, NO_FAULTS) == Clean(rows, t) <==>
            Collectable(rows[TenantKey(t)].finalizers)
  {
    if TokensForChildren(rows, once, t) {
      assert TokensAddedTo(TenantKey(t), rows[TenantKey(t)], once[TenantKey(t)]);
      CleanIffCollectable(rows, t);
    } else {
      var left :| CascadeLeft(rows, left, t, f.cascade) && once == FinalizerPhase(left, t, f);
      CascadeLeaves(rows, left, t, f.cascade);
      PhaseLeavesTenant(left, t, f);
      RerunConverges(rows, left, t, f);
    }
  }

  // A destroy with any faults, then, if the tenant row is still there, a second
  // one without. `list` is loadNodeGroups on the rows of the moment. The result is
  // an error although the teardown is complete, exactly when the tenant carries
  // the machines finalizer alone: the second removal then finds no row.
  method DestroyTwice(store: Store, t: string, w: World, f: Faults, w': World, list: Rows -> Option<seq<NodeGroup>>)
    returns (again: bool, ok: bool, destroyed: bool)
    requires TenantKey(t) in store.rows && store.rows[TenantKey(t)].deleting
    requires Fresh(w.mint) && Fresh(w'.mint)
    requires forall rows :: list(rows).Some? ==> ListsTenant(rows, list(rows).value, t)
    modifies store
    ensures var fs := old(store.rows)[TenantKey(t)].finalizers;
            && (again && !destroyed ==> !ok && TenantKey(t) in store.rows)
            && (destroyed ==> (ok <==> !OnlyMachines(fs)))
            && (again && destroyed ==>
                  (Db(store.rows, store.secrets) == CleanDb(Db(old(store.rows), old(store.secrets)), t) <==>
                   Collectable(fs)))
            && (!again ==> destroyed && TenantKey(t) !in store.rows && Collectable(fs) && Unhindered(fs, f))
            && (!again ==>
                  (Db(store.rows, store.secrets) == CleanDb(Db(old(store.rows), old(store.secrets)), t) <==>
                   !LeavesBehind(Db(old(store.rows), old(store.secrets)), t, f)))
  {
    ghost var db := Db(store.rows, store.secrets);
    ghost var left;
    ok, destroyed, left := DestroySteps(store, t, w.(listed := list(store.rows)), f);
    again := TenantKey(t) in store.rows;
    if again {
      assert Attempted(db.rows, store.rows, t, f);
      AttemptedConverges(db.rows, store.rows, t, f);
      ok, destroyed, left := DestroySteps(store, t, w'.(listed := list(store.rows)), NO_FAULTS);
    } else {
      MachinesNeedNoSecond(db.rows[TenantKey(t)].finalizers);
      CollectedCleanIff(db, left, t, f);
    }
  }

  lemma MachinesNeedNoSecond(fs: seq<string>)
    ensures Collectable(fs) && SECRETS !in fs <==> OnlyMachines(fs)
  {
    TwoFinalizers();
  }
}
