// The derived index over TF state: internal/projection/index.go.
module ProjectionIndex {
  import opened Strings
  import opened Wrappers

  type Attributes = map<string, string>

  // index_key as tofu wrote it: absent or null, a for_each string, or any other
  // JSON text (a count index).
  datatype IndexKey = NoKey | StringKey(s: string) | RawKey(text: string)

  datatype Instance = Instance(key: IndexKey, attrs: Attributes)

  datatype Mode = Managed | Data

  // The mode is decoded and never looked at.
  datatype TfResource = TfResource(mode: Mode, tfType: string, name: string, instances: seq<Instance>)

  datatype TfState = TfState(serial: int, resources: seq<TfResource>)

  datatype Resource = Resource(
    tenant: string, kind: string, name: string, tfType: string, address: string, spec: Attributes, serial: int)

  type Extractor = (string, Attributes) -> Attributes

  // The registry's mappings in registration order, the extractors by Kind, and
  // json.Marshal of a string.
  datatype Config = Config(mappings: seq<(string, string)>, extractors: map<string, Extractor>, quote: string -> string)

  // ----- Names and addresses of instances

  function InstanceName(resName: string, key: IndexKey): string {
    match key
    case NoKey => resName
    case StringKey(s) => resName + "-" + s
    case RawKey(text) => resName + "-" + text
  }

  function IndexSuffix(cfg: Config, key: IndexKey): string {
    match key
    case NoKey => ""
    case StringKey(s) => "[" + cfg.quote(s) + "]"
    case RawKey(text) => "[" + text + "]"
  }

  // The first mapping of the type, over all providers.
  function KindOf(mappings: seq<(string, string)>, tfType: string): Option<string> {
    if mappings == [] then None
    else if mappings[0].0 == tfType then Some(mappings[0].1)
    else KindOf(mappings[1..], tfType)
  }

  method ExtractorFor(cfg: Config, tfType: string) returns (kind: Option<string>, ext: Option<Extractor>)
    ensures kind == KindOf(cfg.mappings, tfType)
    ensures kind.None? <==> forall i :: 0 <= i < |cfg.mappings| ==> cfg.mappings[i].0 != tfType
    ensures kind.Some? ==>
              exists i :: 0 <= i < |cfg.mappings| && cfg.mappings[i] == (tfType, kind.value) &&
                forall j :: 0 <= j < i ==> cfg.mappings[j].0 != tfType
    ensures kind.Some? ==> ext == if kind.value in cfg.extractors then Some(cfg.extractors[kind.value]) else None
  {
    for i := 0 to |cfg.mappings|
      invariant KindOf(cfg.mappings[i..], tfType) == KindOf(cfg.mappings, tfType)
      invariant forall j :: 0 <= j < i ==> cfg.mappings[j].0 != tfType
    {
      assert cfg.mappings[i..][1..] == cfg.mappings[i + 1..];
      if cfg.mappings[i].0 == tfType {
        var k := cfg.mappings[i].1;
        assert cfg.mappings[i] == (tfType, k);
        return Some(k), if k in cfg.extractors then Some(cfg.extractors[k]) else None;
      }
    }
    return None, None;
  }

  // ----- The reference: a linear list of every mapped instance

  datatype Origin = Origin(kind: string, tfType: string, resName: string, key: IndexKey, attrs: Attributes)

  function OriginsOf(cfg: Config, r: TfResource): (o: seq<Origin>)
    ensures |o| == if KindOf(cfg.mappings, r.tfType).Some? then |r.instances| else 0
  {
    match KindOf(cfg.mappings, r.tfType)
    case None => []
    case Some(kind) =>
      seq(|r.instances|, i requires 0 <= i < |r.instances| =>
        Origin(kind, r.tfType, r.name, r.instances[i].key, r.instances[i].attrs))
  }

  function Origins(cfg: Config, resources: seq<TfResource>): seq<Origin> {
    if resources == [] then []
    else Origins(cfg, resources[..|resources| - 1]) + OriginsOf(cfg, resources[|resources| - 1])
  }

  // Every mapped Kind that has an instance has an extractor.
  predicate Extractable(cfg: Config, origins: seq<Origin>) {
    forall i :: 0 <= i < |origins| ==> origins[i].kind in cfg.extractors
  }

  function Project(cfg: Config, tenant: string, serial: int, o: Origin): Resource
    requires o.kind in cfg.extractors
  {
    Resource(tenant, o.kind, InstanceName(o.resName, o.key), o.tfType,
             o.tfType + "." + o.resName + IndexSuffix(cfg, o.key),
             cfg.extractors[o.kind](o.tfType, o.attrs), serial)
  }

  function Projected(cfg: Config, tenant: string, serial: int, origins: seq<Origin>): (r: seq<Resource>)
    requires Extractable(cfg, origins)
    ensures |r| == |origins|
  {
    seq(|origins|, i requires 0 <= i < |origins| => Project(cfg, tenant, serial, origins[i]))
  }

  // The mapped instances are exactly those of the state's resources whose type has
  // a Kind.
  lemma {:induction false} OriginsAre(cfg: Config, resources: seq<TfResource>, o: Origin)
    ensures o in Origins(cfg, resources) <==>
            exists i, j ::
              && 0 <= i < |resources| && 0 <= j < |resources[i].instances|
              && KindOf(cfg.mappings, resources[i].tfType) == Some(o.kind)
              && o.tfType == resources[i].tfType && o.resName == resources[i].name
              && o.key == resources[i].instances[j].key && o.attrs == resources[i].instances[j].attrs
  {
    if resources != [] {
      var n := |resources| - 1;
      var front := resources[..n];
      OriginsAre(cfg, front, o);
      OriginsOfAre(cfg, resources[n], o);
      assert forall i :: 0 <= i < n ==> front[i] == resources[i];
      if o in Origins(cfg, front) {
        var i, j :| 0 <= i < |front| && 0 <= j < |front[i].instances|
          && KindOf(cfg.mappings, front[i].tfType) == Some(o.kind)
          && o.tfType == front[i].tfType && o.resName == front[i].name
          && o.key == front[i].instances[j].key && o.attrs == front[i].instances[j].attrs;
        assert front[i] == resources[i] && o.key == resources[i].instances[j].key;
      }
    }
  }

  lemma OriginsOfAre(cfg: Config, r: TfResource, o: Origin)
    ensures o in OriginsOf(cfg, r) <==>
            exists j ::
              && 0 <= j < |r.instances|
              && KindOf(cfg.mappings, r.tfType) == Some(o.kind)
              && o.tfType == r.tfType && o.resName == r.name
              && o.key == r.instances[j].key && o.attrs == r.instances[j].attrs
  {
    if j :| 0 <= j < |r.instances| && KindOf(cfg.mappings, r.tfType) == Some(o.kind)
            && o.tfType == r.tfType && o.resName == r.name
            && o.key == r.instances[j].key && o.attrs == r.instances[j].attrs {
      assert OriginsOf(cfg, r)[j] == o;
    }
  }

  // The entry of an instance, column by column.
  lemma EntryColumns(cfg: Config, tenant: string, serial: int, o: Origin)
    requires o.kind in cfg.extractors
    ensures var r := Project(cfg, tenant, serial, o);
            && r.tenant == tenant && r.serial == serial && r.kind == o.kind && r.tfType == o.tfType
            && r.spec == cfg.extractors[o.kind](o.tfType, o.attrs)
            && (o.key.NoKey? ==> r.name == o.resName && r.address == o.tfType + "." + o.resName)
            && (o.key.StringKey? ==>
                  && r.name == o.resName + "-" + o.key.s
                  && r.address == o.tfType + "." + o.resName + "[" + cfg.quote(o.key.s) + "]")
            && (o.key.RawKey? ==>
                  && r.name == o.resName + "-" + o.key.text
                  && r.address == o.tfType + "." + o.resName + "[" + o.key.text + "]")
  {
    var base := o.tfType + "." + o.resName;
    if o.key.StringKey? {
      assert base + ("[" + cfg.quote(o.key.s) + "]") == base + "[" + cfg.quote(o.key.s) + "]";
    } else if o.key.RawKey? {
      assert base + ("[" + o.key.text + "]") == base + "[" + o.key.text + "]";
    } else {
      assert base + "" == base;
    }
  }

  // ----- The two-level map

  type ByName = map<string, Resource>
  type TenantIndex = map<string, ByName>

  function Insert(idx: TenantIndex, r: Resource): TenantIndex {
    idx[r.tfType := (if r.tfType in idx then idx[r.tfType] else map[])[r.name := r]]
  }

  function Build(list: seq<Resource>): TenantIndex {
    if list == [] then map[] else Insert(Build(list[..|list| - 1]), list[|list| - 1])
  }

  function Find(idx: TenantIndex, tfType: string, name: string): Option<Resource> {
    if tfType in idx && name in idx[tfType] then Some(idx[tfType][name]) else None
  }

  // Linear search, last match first.
  function LastMatch(list: seq<Resource>, tfType: string, name: string): Option<Resource> {
    if list == [] then None
    else
      var r := list[|list| - 1];
      if r.tfType == tfType && r.name == name then Some(r) else LastMatch(list[..|list| - 1], tfType, name)
  }

  // The index answers what a linear search of the state answers.
  lemma {:induction false} FindIsLinearSearch(list: seq<Resource>, tfType: string, name: string)
    ensures Find(Build(list), tfType, name) == LastMatch(list, tfType, name)
  {
    if list != [] {
      FindIsLinearSearch(list[..|list| - 1], tfType, name);
    }
  }

  // ----- Rebuild, Lookup, List on the index object

  datatype StateError = SourceFailed | Unparsable | NilExtractor

  class Index {
    const cfg: Config
    var entries: map<string, TenantIndex>
    var serial: map<string, int>

    // Every entry is stored under its own type and name.
    ghost predicate Valid()
      reads this
    {
      forall t :: t in entries ==> WellKeyed(entries[t])
    }

    constructor (cfg: Config)
      ensures Valid() && this.cfg == cfg && entries == map[] && serial == map[]
    {
      this.cfg := cfg;
      entries, serial := map[], map[];
    }

    // `blob`: the pulled state, decoded; Ok(None) is an empty blob. A mapped type
    // without an extractor makes the code call a nil function: NilExtractor.
    method Rebuild(tenant: string, blob: Result<Option<TfState>, StateError>) returns (r: Result<nat, StateError>)
      requires Valid()
      modifies this
      ensures Valid()
      ensures blob.Err? ==> r == Err(blob.error) && entries == old(entries) && serial == old(serial)
      ensures blob == Ok(None) ==> r == Ok(0) && entries == old(entries) - {tenant} && serial == old(serial) - {tenant}
      ensures blob.Ok? && blob.value.Some? ==>
                var origins := Origins(cfg, blob.value.value.resources);
                if Extractable(cfg, origins) then
                  && r == Ok(|origins|)
                  && entries == old(entries)[tenant := Build(Projected(cfg, tenant, blob.value.value.serial, origins))]
                  && serial == old(serial)[tenant := blob.value.value.serial]
                else r == Err(NilExtractor) && entries == old(entries) && serial == old(serial)
    {
      if blob.Err? {
        return Err(blob.error);
      }
      if blob.value.None? {
        entries, serial := entries - {tenant}, serial - {tenant};
        return Ok(0);
      }
      var st := blob.value.value;
      var built := BuildTenant(cfg, tenant, st);
      if built.None? {
        return Err(NilExtractor);
      }
      BuildWellKeyed(Projected(cfg, tenant, st.serial, Origins(cfg, st.resources)));
      entries, serial := entries[tenant := built.value.0], serial[tenant := st.serial];
      return Ok(built.value.1);
    }

    method Lookup(tenant: string, tfType: string, name: string) returns (r: Option<Resource>)
      ensures r == if tenant in entries then Find(entries[tenant], tfType, name) else None
    {
      if tenant !in entries {
        return None;
      }
      var tenantIdx := entries[tenant];
      if tfType !in tenantIdx {
        return None;
      }
      var byType := tenantIdx[tfType];
      return if name in byType then Some(byType[name]) else None;
    }

    method List(tenant: string, kindFilter: string) returns (out: seq<Resource>)
      requires Valid()
      ensures tenant !in entries ==> out == []
      ensures tenant in entries ==> ListsExactly(entries[tenant], kindFilter, out) && SortedByAddress(out)
    {
      if tenant !in entries {
        return [];
      }
      var gathered := Gather(entries[tenant], kindFilter);
      var rs := new Resource[|gathered|](i requires 0 <= i < |gathered| => gathered[i]);
      assert rs[..] == gathered;
      SortByAddress(rs);
      out := rs[..];
      SameMembers(gathered, out);
    }

    method Drop(tenant: string)
      requires Valid()
      modifies this
      ensures Valid()
      ensures entries == old(entries) - {tenant} && serial == old(serial) - {tenant}
    {
      entries, serial := entries - {tenant}, serial - {tenant};
    }
  }

  // What the nested loops of Rebuild build from a list of instances, with their
  // number. None: a nil extractor is called.
  function Outcome(cfg: Config, tenant: string, serial: int, origins: seq<Origin>): Option<(TenantIndex, nat)> {
    if Extractable(cfg, origins) then Some((Build(Projected(cfg, tenant, serial, origins)), |origins|)) else None
  }

  method BuildTenant(cfg: Config, tenant: string, st: TfState) returns (r: Option<(TenantIndex, nat)>)
    ensures r == Outcome(cfg, tenant, st.serial, Origins(cfg, st.resources))
  {
    var idx: TenantIndex, n: nat := map[], 0;
    for i := 0 to |st.resources|
      invariant Outcome(cfg, tenant, st.serial, Origins(cfg, st.resources[..i])) == Some((idx, n))
    {
      OriginsNext(cfg, st.resources, i);
      var added := AddResource(cfg, tenant, st.serial, st.resources[i], idx, n, Origins(cfg, st.resources[..i]));
      if added.None? {
        NotExtractable(cfg, st.resources, i + 1);
        return None;
      }
      idx, n := added.value.0, added.value.1;
    }
    assert st.resources[..|st.resources|] == st.resources;
    return Some((idx, n));
  }

  lemma OriginsNext(cfg: Config, resources: seq<TfResource>, i: nat)
    requires i < |resources|
    ensures Origins(cfg, resources[..i + 1]) == Origins(cfg, resources[..i]) + OriginsOf(cfg, resources[i])
  {
    assert resources[..i + 1][..i] == resources[..i];
  }

  lemma {:induction false} NotExtractable(cfg: Config, resources: seq<TfResource>, i: nat)
    requires i <= |resources| && !Extractable(cfg, Origins(cfg, resources[..i]))
    ensures !Extractable(cfg, Origins(cfg, resources))
    decreases |resources| - i
  {
    if i < |resources| {
      OriginsNext(cfg, resources, i);
      var x, y := Origins(cfg, resources[..i]), OriginsOf(cfg, resources[i]);
      var bad :| 0 <= bad < |x| && x[bad].kind !in cfg.extractors;
      assert (x + y)[bad] == x[bad];
      NotExtractable(cfg, resources, i + 1);
    } else {
      assert resources[..i] == resources;
    }
  }

  lemma ProjectedNext(cfg: Config, tenant: string, serial: int, before: seq<Origin>, o: Origin)
    requires Extractable(cfg, before) && o.kind in cfg.extractors
    ensures Extractable(cfg, before + [o])
    ensures Build(Projected(cfg, tenant, serial, before + [o]))
            == Insert(Build(Projected(cfg, tenant, serial, before)), Project(cfg, tenant, serial, o))
  {
    var list := Projected(cfg, tenant, serial, before + [o]);
    assert list[..|list| - 1] == Projected(cfg, tenant, serial, before);
  }

  // The index of the first k instances.
  ghost predicate BuiltUpTo(cfg: Config, tenant: string, serial: int, all: seq<Origin>, k: nat, idx: TenantIndex) {
    k <= |all| && Extractable(cfg, all[..k]) && idx == Build(Projected(cfg, tenant, serial, all[..k]))
  }

  lemma BuiltNext(cfg: Config, tenant: string, serial: int, all: seq<Origin>, k: nat, idx: TenantIndex)
    requires k < |all| && BuiltUpTo(cfg, tenant, serial, all, k, idx) && all[k].kind in cfg.extractors
    ensures BuiltUpTo(cfg, tenant, serial, all, k + 1, Insert(idx, Project(cfg, tenant, serial, all[k])))
  {
    ProjectedNext(cfg, tenant, serial, all[..k], all[k]);
    assert all[..k + 1] == all[..k] + [all[k]];
  }

  lemma BuiltBefore(cfg: Config, tenant: string, serial: int, before: seq<Origin>, own: seq<Origin>, idx: TenantIndex,
                    n: nat)
    requires Outcome(cfg, tenant, serial, before) == Some((idx, n))
    ensures n == |before| && BuiltUpTo(cfg, tenant, serial, before + own, n, idx) && (before + own)[n..] == own
  {
    assert (before + own)[..n] == before;
  }

  lemma BuiltAll(cfg: Config, tenant: string, serial: int, all: seq<Origin>, idx: TenantIndex)
    requires BuiltUpTo(cfg, tenant, serial, all, |all|, idx)
    ensures Outcome(cfg, tenant, serial, all) == Some((idx, |all|))
  {
    assert all[..|all|] == all;
  }

  lemma OriginAt(cfg: Config, r: TfResource, kind: string, all: seq<Origin>, base: nat, j: nat)
    requires base + |r.instances| == |all| && j < |r.instances|
    requires KindOf(cfg.mappings, r.tfType) == Some(kind) && all[base..] == OriginsOf(cfg, r)
    ensures all[base + j] == Origin(kind, r.tfType, r.name, r.instances[j].key, r.instances[j].attrs)
  {
    assert all[base + j] == all[base..][j];
  }

  method AddInstances(cfg: Config, tenant: string, serial: int, r: TfResource, kind: string, ext: Extractor,
                      start: TenantIndex, ghost all: seq<Origin>, ghost base: nat) returns (idx: TenantIndex)
    requires kind in cfg.extractors && cfg.extractors[kind] == ext
    requires BuiltUpTo(cfg, tenant, serial, all, base, start) && base + |r.instances| == |all|
    requires KindOf(cfg.mappings, r.tfType) == Some(kind) && all[base..] == OriginsOf(cfg, r)
    ensures BuiltUpTo(cfg, tenant, serial, all, |all|, idx)
  {
    idx := start;
    for j := 0 to |r.instances|
      invariant BuiltUpTo(cfg, tenant, serial, all, base + j, idx)
    {
      OriginAt(cfg, r, kind, all, base, j);
      BuiltNext(cfg, tenant, serial, all, base + j, idx);
      idx := AddInstance(cfg, tenant, serial, r, kind, ext, idx, r.instances[j]);
    }
  }

  method AddInstance(cfg: Config, tenant: string, serial: int, r: TfResource, kind: string, ext: Extractor,
                     start: TenantIndex, inst: Instance) returns (idx: TenantIndex)
    requires kind in cfg.extractors && cfg.extractors[kind] == ext
    ensures idx == Insert(start, Project(cfg, tenant, serial, Origin(kind, r.tfType, r.name, inst.key, inst.attrs)))
  {
    var name := InstanceName(r.name, inst.key);
    var item := Resource(tenant, kind, name, r.tfType, r.tfType + "." + r.name + IndexSuffix(cfg, inst.key),
                         ext(r.tfType, inst.attrs), serial);
    var byType := if r.tfType in start then start[r.tfType] else map[];
    return start[r.tfType := byType[name := item]];
  }

  method AddResource(cfg: Config, tenant: string, serial: int, r: TfResource, start: TenantIndex, n: nat,
                     ghost before: seq<Origin>) returns (res: Option<(TenantIndex, nat)>)
    requires Outcome(cfg, tenant, serial, before) == Some((start, n))
    ensures res == Outcome(cfg, tenant, serial, before + OriginsOf(cfg, r))
  {
    var kind, ext := ExtractorFor(cfg, r.tfType);
    ghost var all := before + OriginsOf(cfg, r);
    if kind.None? || |r.instances| == 0 {
      assert all == before;
      return Some((start, n));
    }
    if ext.None? {
      assert all[|before|].kind == kind.value;
      return None;
    }
    BuiltBefore(cfg, tenant, serial, before, OriginsOf(cfg, r), start, n);
    var idx := AddInstances(cfg, tenant, serial, r, kind.value, ext.value, start, all, |before|);
    BuiltAll(cfg, tenant, serial, all, idx);
    return Some((idx, n + |r.instances|));
  }

  // ----- Listing

  // Every entry is stored under its own type and name.
  predicate WellKeyed(idx: TenantIndex) {
    forall t, n :: t in idx && n in idx[t] ==> idx[t][n].tfType == t && idx[t][n].name == n
  }

  lemma {:induction false} BuildWellKeyed(list: seq<Resource>)
    ensures WellKeyed(Build(list))
  {
    if list != [] {
      BuildWellKeyed(list[..|list| - 1]);
    }
  }

  predicate Stored(idx: TenantIndex, r: Resource) { Find(idx, r.tfType, r.name) == Some(r) }

  predicate Selected(idx: TenantIndex, kindFilter: string, r: Resource) {
    Stored(idx, r) && (kindFilter == "" || r.kind == kindFilter)
  }

  predicate NoDuplicates(out: seq<Resource>) { forall i, j :: 0 <= i < j < |out| ==> out[i] != out[j] }

  // Each selected entry once, and nothing else.
  ghost predicate ListsExactly(idx: TenantIndex, kindFilter: string, out: seq<Resource>) {
    NoDuplicates(out) && forall r :: r in out <==> Selected(idx, kindFilter, r)
  }

  // Both loops run over Go maps, in any order.
  method Gather(idx: TenantIndex, kindFilter: string) returns (out: seq<Resource>)
    requires WellKeyed(idx)
    ensures ListsExactly(idx, kindFilter, out)
  {
    out := [];
    var types := idx.Keys;
    while types != {}
      invariant types <= idx.Keys && NoDuplicates(out)
      invariant forall r :: r in out <==> Selected(idx, kindFilter, r) && r.tfType !in types
      decreases types
    {
      var t :| t in types;
      var part := GatherType(idx, t, kindFilter);
      assert forall r :: r in part ==> r.tfType == t;
      out := out + part;
      types := types - {t};
    }
  }

  method GatherType(idx: TenantIndex, t: string, kindFilter: string) returns (out: seq<Resource>)
    requires WellKeyed(idx) && t in idx
    ensures NoDuplicates(out)
    ensures forall r :: r in out <==> Selected(idx, kindFilter, r) && r.tfType == t
  {
    out := [];
    var names := idx[t].Keys;
    while names != {}
      invariant names <= idx[t].Keys && NoDuplicates(out)
      invariant forall r :: r in out <==> Selected(idx, kindFilter, r) && r.tfType == t && r.name !in names
      decreases names
    {
      var n :| n in names;
      var r := idx[t][n];
      if kindFilter == "" || r.kind == kindFilter {
        out := out + [r];
      }
      names := names - {n};
    }
  }

  // ----- sortByAddress

  predicate AddressLeq(x: Resource, y: Resource) { !Less(y.address, x.address) }

  predicate SortedByAddress(rs: seq<Resource>) {
    forall i, j :: 0 <= i < j < |rs| ==> AddressLeq(rs[i], rs[j])
  }

  lemma AddressLeqTransitive(x: Resource, y: Resource, z: Resource)
    requires AddressLeq(x, y) && AddressLeq(y, z)
    ensures AddressLeq(x, z)
  {
    LessTotal(x.address, y.address);
    LessTotal(y.address, z.address);
    if Less(z.address, x.address) {
      if Less(x.address, y.address) {
        LessTransitive(z.address, x.address, y.address);
      }
    }
  }

  // The insertion in progress: in order except that the element at j may still
  // have to move down.
  predicate SortedBut(rs: seq<Resource>, n: int, j: int) {
    n < |rs| && forall x, y :: 0 <= x < y <= n && y != j ==> AddressLeq(rs[x], rs[y])
  }

  lemma SwapKeepsSortedBut(rs: seq<Resource>, n: int, j: int)
    requires 0 < j <= n < |rs| && SortedBut(rs, n, j) && Less(rs[j].address, rs[j - 1].address)
    ensures SortedBut(rs[j - 1 := rs[j]][j := rs[j - 1]], n, j - 1)
  {
    LessTotal(rs[j].address, rs[j - 1].address);
  }

  lemma InsertionDone(rs: seq<Resource>, n: int, j: int)
    requires 0 <= j <= n < |rs| && SortedBut(rs, n, j) && (j > 0 ==> AddressLeq(rs[j - 1], rs[j]))
    ensures SortedByAddress(rs[..n + 1])
  {
    forall x | 0 <= x < j ensures AddressLeq(rs[x], rs[j]) {
      if x < j - 1 {
        AddressLeqTransitive(rs[x], rs[j - 1], rs[j]);
      }
    }
  }

  lemma SwapKeepsMembers(s: seq<Resource>, i: nat, j: nat)
    requires i < j < |s|
    ensures multiset(s[i := s[j]][j := s[i]]) == multiset(s)
  {
  }

  // The inner loop: the i-th element sinks to its place among the sorted first i.
  method Sink(rs: array<Resource>, i: nat)
    requires i < rs.Length && SortedByAddress(rs[..i])
    modifies rs
    ensures multiset(rs[..]) == multiset(old(rs[..]))
    ensures SortedByAddress(rs[..i + 1])
  {
    var j := i;
    while j > 0 && Less(rs[j].address, rs[j - 1].address)
      invariant 0 <= j <= i
      invariant multiset(rs[..]) == multiset(old(rs[..]))
      invariant SortedBut(rs[..], i, j)
    {
      SwapKeepsSortedBut(rs[..], i, j);
      ghost var was := rs[..];
      SwapKeepsMembers(was, j - 1, j);
      rs[j - 1], rs[j] := rs[j], rs[j - 1];
      assert rs[..] == was[j - 1 := was[j]][j := was[j - 1]];
      j := j - 1;
    }
    InsertionDone(rs[..], i, j);
  }

  method SortByAddress(rs: array<Resource>)
    modifies rs
    ensures multiset(rs[..]) == multiset(old(rs[..]))
    ensures SortedByAddress(rs[..])
  {
    var i := 1;
    while i < rs.Length
      invariant 1 <= i && (rs.Length > 0 ==> i <= rs.Length)
      invariant multiset(rs[..]) == multiset(old(rs[..]))
      invariant rs.Length > 0 ==> SortedByAddress(rs[..i])
    {
      Sink(rs, i);
      i := i + 1;
    }
    assert rs.Length > 0 ==> rs[..i] == rs[..];
  }

  lemma SameMembers(x: seq<Resource>, y: seq<Resource>)
    requires multiset(x) == multiset(y) && NoDuplicates(x)
    ensures NoDuplicates(y) && forall r :: r in x <==> r in y
  {
    forall r ensures r in x <==> r in y {
      assert r in multiset(x) <==> r in x;
      assert r in multiset(y) <==> r in y;
    }
    forall i, j | 0 <= i < j < |y| ensures y[i] != y[j] {
      if y[i] == y[j] {
        TwiceInMultiset(y, i, j);
        OnceInMultiset(x, y[i]);
      }
    }
  }

  lemma TwiceInMultiset(y: seq<Resource>, i: nat, j: nat)
    requires i < j < |y| && y[i] == y[j]
    ensures multiset(y)[y[i]] >= 2
  {
    assert y == y[..i] + [y[i]] + y[i + 1..j] + [y[j]] + y[j + 1..];
  }

  lemma {:induction false} OnceInMultiset(x: seq<Resource>, r: Resource)
    requires NoDuplicates(x)
    ensures multiset(x)[r] <= 1
  {
    if x != [] {
      var n := |x| - 1;
      OnceInMultiset(x[..n], r);
      assert x == x[..n] + [x[n]];
      assert x[n] !in x[..n];
    }
  }

  // ----- When every instance gets its own entry

  ghost predicate DistinctNames(list: seq<Resource>) {
    forall i, j :: 0 <= i < j < |list| ==> list[i].tfType != list[j].tfType || list[i].name != list[j].name
  }

  // The stored entries are all listed instances exactly when no two of them share
  // type and projected name.
  lemma AllStoredIff(list: seq<Resource>)
    requires NoDuplicates(list)
    ensures (forall i :: 0 <= i < |list| ==> Stored(Build(list), list[i])) <==> DistinctNames(list)
  {
    if forall i :: 0 <= i < |list| ==> Stored(Build(list), list[i]) {
      forall i, j | 0 <= i < j < |list| ensures list[i].tfType != list[j].tfType || list[i].name != list[j].name {
        assert Stored(Build(list), list[i]) && Stored(Build(list), list[j]);
      }
    }
    if DistinctNames(list) {
      forall i | 0 <= i < |list| ensures Stored(Build(list), list[i]) {
        FindIsLinearSearch(list, list[i].tfType, list[i].name);
        OnlyMatch(list, i);
      }
    }
  }

  // Under distinct names the linear search has one possible answer.
  lemma {:induction false} OnlyMatch(list: seq<Resource>, i: nat)
    requires DistinctNames(list) && i < |list|
    ensures LastMatch(list, list[i].tfType, list[i].name) == Some(list[i])
  {
    var n := |list| - 1;
    if i < n {
      OnlyMatch(list[..n], i);
    }
  }

  // Nothing else is stored.
  lemma {:induction false} MatchIsListed(list: seq<Resource>, tfType: string, name: string)
    ensures LastMatch(list, tfType, name).Some? ==> LastMatch(list, tfType, name).value in list
  {
    if list != [] {
      MatchIsListed(list[..|list| - 1], tfType, name);
    }
  }

  ghost predicate Lacks(s: string, c: char) { forall k :: 0 <= k < |s| ==> s[k] != c }

  lemma HeadOf(x: string, c: char, u: string)
    ensures (x + [c] + u)[0] == if x == "" then c else x[0]
    ensures x == "" ==> (x + [c] + u)[1..] == u
  {
  }

  // Splitting at the first occurrence of a separator.
  lemma {:induction false} FirstSeparator(x: string, y: string, u: string, v: string, c: char)
    requires Lacks(x, c) && Lacks(y, c) && x + [c] + u == y + [c] + v
    ensures x == y && u == v
  {
    var l, r := x + [c] + u, y + [c] + v;
    HeadOf(x, c, u);
    HeadOf(y, c, v);
    if x != "" && y != "" {
      assert l[1..] == x[1..] + [c] + u && r[1..] == y[1..] + [c] + v;
      FirstSeparator(x[1..], y[1..], u, v, c);
      assert x == [x[0]] + x[1..] && y == [y[0]] + y[1..];
    }
  }

  // The key as it appears in an instance name.
  function KeyText(key: IndexKey): Option<string> {
    match key
    case NoKey => None
    case StringKey(s) => Some(s)
    case RawKey(text) => Some(text)
  }

  lemma DashAfterName(b: string, l: IndexKey)
    ensures !l.NoKey? ==> !Lacks(InstanceName(b, l), '-')
  {
    if !l.NoKey? {
      assert InstanceName(b, l)[|b|] == '-';
    }
  }

  lemma NameInjective(a: string, k: IndexKey, b: string, l: IndexKey)
    requires Lacks(a, '-') && Lacks(b, '-') && InstanceName(a, k) == InstanceName(b, l)
    ensures a == b && KeyText(k) == KeyText(l)
  {
    DashAfterName(a, k);
    DashAfterName(b, l);
    if !k.NoKey? && !l.NoKey? {
      FirstSeparator(a, b, KeyText(k).value, KeyText(l).value, '-');
    }
  }

  // Mapped instances differ in type, resource name or key.
  ghost predicate Distinct(origins: seq<Origin>) {
    forall i, j :: 0 <= i < j < |origins| ==>
      || origins[i].tfType != origins[j].tfType
      || origins[i].resName != origins[j].resName
      || origins[i].key != origins[j].key
  }

  // They differ in type, resource name or key text, and there is no '-' in mapped
  // resource names.
  ghost predicate WellNamed(origins: seq<Origin>) {
    && (forall i :: 0 <= i < |origins| ==> Lacks(origins[i].resName, '-'))
    && (forall i, j :: 0 <= i < j < |origins| ==>
          origins[i].tfType != origins[j].tfType || origins[i].resName != origins[j].resName
          || KeyText(origins[i].key) != KeyText(origins[j].key))
  }

  // Then Rebuild stores exactly one entry per mapped instance.
  lemma OneEntryPerInstance(cfg: Config, tenant: string, serial: int, origins: seq<Origin>)
    requires Extractable(cfg, origins) && WellNamed(origins)
    ensures var list := Projected(cfg, tenant, serial, origins);
            && DistinctNames(list)
            && (forall r :: Stored(Build(list), r) <==> r in list)
  {
    var list := Projected(cfg, tenant, serial, origins);
    forall i, j | 0 <= i < j < |list| ensures list[i].tfType != list[j].tfType || list[i].name != list[j].name {
      if list[i].tfType == list[j].tfType && list[i].name == list[j].name {
        NameInjective(origins[i].resName, origins[i].key, origins[j].resName, origins[j].key);
      }
    }
    forall r ensures Stored(Build(list), r) <==> r in list {
      FindIsLinearSearch(list, r.tfType, r.name);
      MatchIsListed(list, r.tfType, r.name);
      if r in list {
        var i :| 0 <= i < |list| && list[i] == r;
        OnlyMatch(list, i);
      }
    }
  }

  // A '-' in a resource name can make two instances share one entry: "a" with
  // key "b", and the singleton "a-b".
  lemma DashCollides(cfg: Config, tenant: string, kind: string, t: string, attrs: Attributes)
    requires kind in cfg.extractors
    ensures var origins := [Origin(kind, t, "a", StringKey("b"), attrs), Origin(kind, t, "a-b", NoKey, attrs)];
            !DistinctNames(Projected(cfg, tenant, 0, origins))
  {
    var origins := [Origin(kind, t, "a", StringKey("b"), attrs), Origin(kind, t, "a-b", NoKey, attrs)];
    var list := Projected(cfg, tenant, 0, origins);
    assert list[0].name == "a" + "-" + "b" == "a-b" == list[1].name;
  }

  // ----- The listing order is unique

  // What tofu guarantees of types, names and keys, and json.Marshal of strings.
  ghost predicate AddressesParse(cfg: Config, origins: seq<Origin>) {
    && (forall i :: 0 <= i < |origins| ==> Lacks(origins[i].tfType, '.') && Lacks(origins[i].resName, '['))
    && (forall i :: 0 <= i < |origins| && origins[i].key.RawKey? ==>
          origins[i].key.text != "" && origins[i].key.text[0] != '"')
    && (forall s :: cfg.quote(s) != "" && cfg.quote(s)[0] == '"')
    && (forall s, u :: cfg.quote(s) == cfg.quote(u) ==> s == u)
  }

  lemma BracketAfterName(cfg: Config, b: string, l: IndexKey)
    ensures var y := IndexSuffix(cfg, l);
            if y == "" then b + y == b else !Lacks(b + y, '[') && b + y == b + ['['] + y[1..]
  {
    var y := IndexSuffix(cfg, l);
    if y != "" {
      assert (b + y)[|b|] == '[';
      assert y == ['['] + y[1..];
    }
  }

  lemma SuffixInjective(cfg: Config, a: string, k: IndexKey, b: string, l: IndexKey)
    requires Lacks(a, '[') && Lacks(b, '[') && a + IndexSuffix(cfg, k) == b + IndexSuffix(cfg, l)
    ensures a == b && IndexSuffix(cfg, k) == IndexSuffix(cfg, l)
  {
    var x, y := IndexSuffix(cfg, k), IndexSuffix(cfg, l);
    BracketAfterName(cfg, a, k);
    BracketAfterName(cfg, b, l);
    if x != "" && y != "" {
      FirstSeparator(a, b, x[1..], y[1..], '[');
    }
  }

  lemma KeyFromSuffix(cfg: Config, k: IndexKey, l: IndexKey)
    requires IndexSuffix(cfg, k) == IndexSuffix(cfg, l)
    requires forall s :: cfg.quote(s) != "" && cfg.quote(s)[0] == '"'
    requires forall s, u :: cfg.quote(s) == cfg.quote(u) ==> s == u
    requires (k.RawKey? ==> k.text != "" && k.text[0] != '"') && (l.RawKey? ==> l.text != "" && l.text[0] != '"')
    ensures k == l
  {
    var x, y := IndexSuffix(cfg, k), IndexSuffix(cfg, l);
    if !k.NoKey? && !l.NoKey? {
      var p := if k.StringKey? then cfg.quote(k.s) else k.text;
      var q := if l.StringKey? then cfg.quote(l.s) else l.text;
      assert x == "[" + p + "]" && y == "[" + q + "]";
      assert p == x[1..|x| - 1] && q == y[1..|y| - 1];
    }
  }

  // Distinct instances have distinct addresses.
  lemma AddressesDistinct(cfg: Config, tenant: string, serial: int, origins: seq<Origin>, i: nat, j: nat)
    requires Extractable(cfg, origins) && Distinct(origins) && AddressesParse(cfg, origins) && i < j < |origins|
    ensures Project(cfg, tenant, serial, origins[i]).address != Project(cfg, tenant, serial, origins[j]).address
  {
    var a, b := origins[i], origins[j];
    var x, y := a.resName + IndexSuffix(cfg, a.key), b.resName + IndexSuffix(cfg, b.key);
    var p, q := Project(cfg, tenant, serial, a).address, Project(cfg, tenant, serial, b).address;
    assert p == a.tfType + ['.'] + x && q == b.tfType + ['.'] + y;
    if p == q {
      FirstSeparator(a.tfType, b.tfType, x, y, '.');
      SuffixInjective(cfg, a.resName, a.key, b.resName, b.key);
      KeyFromSuffix(cfg, a.key, b.key);
    }
  }

  ghost predicate DistinctAddresses(rs: seq<Resource>) {
    forall i, j :: 0 <= i < j < |rs| ==> rs[i].address != rs[j].address
  }

  // Any two listings of the same entries, whatever order the maps were walked
  // in, are the same sequence.
  lemma {:induction false} ListingUnique(x: seq<Resource>, y: seq<Resource>)
    requires SortedByAddress(x) && SortedByAddress(y) && DistinctAddresses(x) && DistinctAddresses(y)
    requires forall r :: r in x <==> r in y
    ensures x == y
  {
    FirstMember(x);
    FirstMember(y);
    if x != [] {
      LeastFirst(x, y[0]);
      LeastFirst(y, x[0]);
      LessTotal(x[0].address, y[0].address);
      SameAddressSame(x, x[0], y[0]);
      forall r ensures r in x[1..] <==> r in y[1..] {
        RestMember(x, r);
        RestMember(y, r);
      }
      ListingUnique(x[1..], y[1..]);
      assert x == [x[0]] + x[1..] && y == [y[0]] + y[1..];
    }
  }

  lemma FirstMember(x: seq<Resource>)
    ensures x != [] ==> x[0] in x
  {
  }

  lemma LeastFirst(x: seq<Resource>, r: Resource)
    requires SortedByAddress(x) && r in x
    ensures AddressLeq(x[0], r)
  {
    LessTotal(r.address, r.address);
  }

  lemma SameAddressSame(x: seq<Resource>, r: Resource, s: Resource)
    requires DistinctAddresses(x) && r in x && s in x && r.address == s.address
    ensures r == s
  {
  }

  lemma RestMember(x: seq<Resource>, r: Resource)
    requires DistinctAddresses(x) && x != []
    ensures r in x[1..] <==> r in x && r != x[0]
  {
    if r in x && r != x[0] {
      var k :| 0 <= k < |x| && x[k] == r;
      assert x[1..][k - 1] == r;
    }
  }

  // Only instances of the state are stored.
  lemma StoredIsListed(list: seq<Resource>, r: Resource)
    requires Stored(Build(list), r)
    ensures r in list
  {
    FindIsLinearSearch(list, r.tfType, r.name);
    MatchIsListed(list, r.tfType, r.name);
  }

  lemma ListingAddresses(cfg: Config, tenant: string, serial: int, origins: seq<Origin>, kindFilter: string,
                         x: seq<Resource>)
    requires Extractable(cfg, origins) && Distinct(origins) && AddressesParse(cfg, origins)
    requires ListsExactly(Build(Projected(cfg, tenant, serial, origins)), kindFilter, x)
    ensures DistinctAddresses(x)
  {
    var list := Projected(cfg, tenant, serial, origins);
    forall i, j | 0 <= i < j < |x| ensures x[i].address != x[j].address {
      assert x[i] in x && x[j] in x;
      StoredIsListed(list, x[i]);
      StoredIsListed(list, x[j]);
      var a :| 0 <= a < |list| && list[a] == x[i];
      var b :| 0 <= b < |list| && list[b] == x[j];
      assert a != b;
      AddressesDistinct(cfg, tenant, serial, origins, if a < b then a else b, if a < b then b else a);
    }
  }

  // After a Rebuild the listing of a Kind is determined by the state alone: any
  // two sorted enumerations of the selected entries are equal, so the order in
  // which Go walks its maps does not show. Resource names may contain '-'.
  lemma ListDeterminedByState(cfg: Config, tenant: string, serial: int, origins: seq<Origin>, kindFilter: string,
                              x: seq<Resource>, y: seq<Resource>)
    requires Extractable(cfg, origins) && Distinct(origins) && AddressesParse(cfg, origins)
    requires var idx := Build(Projected(cfg, tenant, serial, origins));
             && ListsExactly(idx, kindFilter, x) && SortedByAddress(x)
             && ListsExactly(idx, kindFilter, y) && SortedByAddress(y)
    ensures x == y
  {
    ListingAddresses(cfg, tenant, serial, origins, kindFilter, x);
    ListingAddresses(cfg, tenant, serial, origins, kindFilter, y);
    ListingUnique(x, y);
  }

  // A mapped type whose Kind has no extractor: Rebuild of a state with one such
  // instance calls a nil function.
  lemma NilExtractorCalled(cfg: Config, tenant: string, serial: int, mode: Mode, t: string, name: string,
                           inst: Instance)
    requires KindOf(cfg.mappings, t).Some? && KindOf(cfg.mappings, t).value !in cfg.extractors
    ensures Outcome(cfg, tenant, serial, Origins(cfg, [TfResource(mode, t, name, [inst])])) == None
  {
    var state := [TfResource(mode, t, name, [inst])];
    assert state[..0] == [];
    assert Origins(cfg, state) == Origins(cfg, []) + OriginsOf(cfg, state[0]);
    assert Origins(cfg, state)[0].kind == KindOf(cfg.mappings, t).value;
  }

  // A data and a managed resource of one type and name share name and address, and
  // the one listed later hides the other.
  lemma ModesCollide(cfg: Config, tenant: string, serial: int, t: string, name: string, x: Attributes, y: Attributes)
    requires KindOf(cfg.mappings, t).Some? && KindOf(cfg.mappings, t).value in cfg.extractors
    ensures var managed := TfResource(Managed, t, name, [Instance(NoKey, x)]);
            var data := TfResource(Data, t, name, [Instance(NoKey, y)]);
            var origins := Origins(cfg, [managed, data]);
            && Extractable(cfg, origins) && |origins| == 2
            && var list := Projected(cfg, tenant, serial, origins);
               && list[0].address == list[1].address
               && Find(Build(list), t, name) == Some(list[1])
  {
    var a, b := TfResource(Managed, t, name, [Instance(NoKey, x)]), TfResource(Data, t, name, [Instance(NoKey, y)]);
    var state := [a, b];
    OriginsNext(cfg, state, 0);
    OriginsNext(cfg, state, 1);
    assert state[..0] == [] && state[..2] == state;
    var origins := Origins(cfg, state);
    assert origins == OriginsOf(cfg, a) + OriginsOf(cfg, b);
    var list := Projected(cfg, tenant, serial, origins);
    assert list[1] == Project(cfg, tenant, serial, OriginsOf(cfg, b)[0]);
    FindIsLinearSearch(list, t, name);
  }
}
