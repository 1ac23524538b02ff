// Binding-token minting of internal/reconcile/applier.go:345-397, the bus that
// turns its writes into enqueues (internal/reconcile/bus.go) and the status
// writes that do not (internal/reconcile/status.go). Fresh tokens are arbitrary
// non-empty strings.
module BindingTokens {
  import opened ResourceStore
  import opened Wrappers

  // A node group with the machine keys it expands to.
  datatype NodeGroup = NodeGroup(name: string, keys: seq<string>)

  function Flatten(key: string): (r: string)
    ensures |r| == |key|
    ensures forall i :: 0 <= i < |key| ==>
              r[i] == if key[i] == ':' || key[i] == '.' then '-' else if key[i] == '/' then '_' else key[i]
  {
    if key == "" then ""
    else
      var c := if key[0] == ':' || key[0] == '.' then '-' else if key[0] == '/' then '_' else key[0];
      [c] + Flatten(key[1..])
  }

  function AnnotationOf(key: string): (r: string)
    ensures "rezuscloud.io/binding-token/" <= r && |r| == 28 + |key|
    ensures forall i :: 0 <= i < |key| ==>
              r[28 + i] == if key[i] == ':' || key[i] == '.' then '-' else if key[i] == '/' then '_' else key[i]
  {
    "rezuscloud.io/binding-token/" + Flatten(key)
  }

  // The n-th token drawn from crypto/rand.
  type Mint = nat -> string

  ghost predicate Fresh(mint: Mint) { forall n: nat :: mint(n) != "" }

  function RowKey(name: string): Key { Key("nodegroup", name) }

  // ----- One node group

  predicate HasToken(ann: Labels, key: string) {
    AnnotationOf(key) in ann && ann[AnnotationOf(key)] != ""
  }

  predicate AllMinted(ann: Labels, keys: seq<string>) {
    forall i :: 0 <= i < |keys| ==> HasToken(ann, keys[i])
  }

  function MintKeys(ann: Labels, keys: seq<string>, mint: Mint, next: nat): (Labels, nat)
    decreases keys
  {
    if keys == [] then (ann, next)
    else if HasToken(ann, keys[0]) then MintKeys(ann, keys[1..], mint, next)
    else MintKeys(ann[AnnotationOf(keys[0]) := mint(next)], keys[1..], mint, next + 1)
  }

  function Collect(ann: Labels, keys: seq<string>, tokens: Labels): Labels {
    if keys == [] then tokens
    else if !HasToken(ann, keys[0]) then Collect(ann, keys[1..], tokens)
    else Collect(ann, keys[1..], tokens[keys[0] := ann[AnnotationOf(keys[0])]])
  }

  // Nothing that was set is lost or replaced.
  predicate Extends(old_: Labels, new_: Labels) {
    forall a :: a in old_ && old_[a] != "" ==> a in new_ && new_[a] == old_[a]
  }

  // What changed is a binding-token annotation.
  predicate OnlyTokenKeys(old_: Labels, new_: Labels) {
    && (forall a :: a in old_ ==> a in new_)
    && (forall a :: a in new_ && !("rezuscloud.io/binding-token/" <= a) ==> a in old_ && new_[a] == old_[a])
  }

  lemma {:induction false} MintKeysFacts(ann: Labels, keys: seq<string>, mint: Mint, next: nat)
    requires Fresh(mint)
    ensures var (r, n) := MintKeys(ann, keys, mint, next);
            && n >= next && Extends(ann, r) && OnlyTokenKeys(ann, r) && AllMinted(r, keys)
            && (AllMinted(ann, keys) ==> r == ann && n == next)
            && (n == next ==> r == ann)
    decreases keys
  {
    if keys != [] {
      var more := if HasToken(ann, keys[0]) then ann else ann[AnnotationOf(keys[0]) := mint(next)];
      var next' := if HasToken(ann, keys[0]) then next else next + 1;
      MintKeysFacts(more, keys[1..], mint, next');
      assert HasToken(more, keys[0]);
      assert forall i :: 1 <= i < |keys| ==> keys[i] == keys[1..][i - 1];
      assert AllMinted(ann, keys) ==> AllMinted(ann, keys[1..]) && HasToken(ann, keys[0]);
    }
  }

  lemma {:induction false} CollectSame(x: Labels, y: Labels, keys: seq<string>, tokens: Labels)
    requires AllMinted(x, keys) && Extends(x, y)
    ensures Collect(x, keys, tokens) == Collect(y, keys, tokens)
  {
    if keys != [] {
      assert HasToken(x, keys[0]) && HasToken(y, keys[0]);
      assert forall i :: 0 <= i < |keys[1..]| ==> keys[1..][i] == keys[i + 1];
      CollectSame(x, y, keys[1..], tokens[keys[0] := x[AnnotationOf(keys[0])]]);
    }
  }

  method MintLoop(before: Labels, keys: seq<string>, mint: Mint, start: nat) returns (ann: Labels, next: nat)
    ensures (ann, next) == MintKeys(before, keys, mint, start)
  {
    ann, next := before, start;
    for i := 0 to |keys|
      invariant MintKeys(ann, keys[i..], mint, next) == MintKeys(before, keys, mint, start)
    {
      assert keys[i..][0] == keys[i] && keys[i..][1..] == keys[i + 1..];
      if !HasToken(ann, keys[i]) {
        ann, next := ann[AnnotationOf(keys[i]) := mint(next)], next + 1;
      }
    }
  }

  // ----- One pass over the node groups

  // `writes` names the node groups that were updated; no tokens means the pass
  // returned an error (a node group without a row or with an unreadable spec, or a
  // version conflict).
  datatype Pass = Pass(rows: Rows, next: nat, writes: seq<string>, tokens: Option<Labels>)

  // What a pass meets: which specs decode, and the version it read of a node group,
  // given the one the row has when it is written. The two differ when another
  // client's update came between; then the write is a conflict.
  datatype Env = Env(decodes: Document -> bool, seen: (string, nat) -> nat) {
    predicate Accepts(name: string, row: Row) { decodes(row.spec) && seen(name, row.version) == row.version }
  }

  function Minted(rows: Rows, ng: NodeGroup, ann: Labels): Rows
    requires RowKey(ng.name) in rows
  {
    var row := rows[RowKey(ng.name)];
    rows[RowKey(ng.name) := Respecified(row, row.spec, row.labels, ann)]
  }

  function EnsureTokens(rows: Rows, ngs: seq<NodeGroup>, env: Env, mint: Mint, next: nat, tokens: Labels): Pass
    decreases ngs
  {
    if ngs == [] then Pass(rows, next, [], Some(tokens))
    else if ngs[0].keys == [] then EnsureTokens(rows, ngs[1..], env, mint, next, tokens)
    else if RowKey(ngs[0].name) !in rows then Pass(rows, next, [], None)
    else
      var row := rows[RowKey(ngs[0].name)];
      var (ann, next') := MintKeys(row.annotations, ngs[0].keys, mint, next);
      var more := Collect(ann, ngs[0].keys, tokens);
      if next' == next then EnsureTokens(rows, ngs[1..], env, mint, next, more)
      else if !env.Accepts(ngs[0].name, row) then Pass(rows, next', [], None)
      else
        var rest := EnsureTokens(Minted(rows, ngs[0], ann), ngs[1..], env, mint, next', more);
        rest.(writes := [ngs[0].name] + rest.writes)
  }

  // Only binding tokens are added: every row keeps its uid, spec, status,
  // labels, finalizers and every annotation that was set.
  ghost predicate OnlyTokensAdded(old_: Rows, new_: Rows) {
    && new_.Keys == old_.Keys
    && (forall k :: k in old_ ==> TokensAddedTo(k, old_[k], new_[k]))
  }

  predicate TokensAddedTo(k: Key, old_: Row, new_: Row) {
    && new_ == old_.(annotations := new_.annotations, version := new_.version)
    && old_.version <= new_.version
    && Extends(old_.annotations, new_.annotations) && OnlyTokenKeys(old_.annotations, new_.annotations)
    && (k.kind != "nodegroup" ==> new_ == old_)
  }

  lemma OnlyTokensTransitive(a: Rows, b: Rows, c: Rows)
    requires OnlyTokensAdded(a, b) && OnlyTokensAdded(b, c)
    ensures OnlyTokensAdded(a, c)
  {
    forall k | k in a ensures TokensAddedTo(k, a[k], c[k]) {
      assert TokensAddedTo(k, a[k], b[k]) && TokensAddedTo(k, b[k], c[k]);
    }
  }

  lemma MintedAddsTokens(rows: Rows, ng: NodeGroup, mint: Mint, next: nat)
    requires Fresh(mint) && RowKey(ng.name) in rows
    ensures OnlyTokensAdded(rows, Minted(rows, ng, MintKeys(rows[RowKey(ng.name)].annotations, ng.keys, mint, next).0))
  {
    MintKeysFacts(rows[RowKey(ng.name)].annotations, ng.keys, mint, next);
  }

  lemma {:induction false} PassAddsTokens(rows: Rows, ngs: seq<NodeGroup>, env: Env, mint: Mint, next: nat,
                                          tokens: Labels)
    requires Fresh(mint)
    ensures OnlyTokensAdded(rows, EnsureTokens(rows, ngs, env, mint, next, tokens).rows)
  {
    if ngs != [] && ngs[0].keys == [] {
      PassAddsTokens(rows, ngs[1..], env, mint, next, tokens);
    } else if ngs != [] && RowKey(ngs[0].name) in rows {
      var row := rows[RowKey(ngs[0].name)];
      var (ann, next') := MintKeys(row.annotations, ngs[0].keys, mint, next);
      var more := Collect(ann, ngs[0].keys, tokens);
      if next' == next {
        PassAddsTokens(rows, ngs[1..], env, mint, next, more);
      } else if env.Accepts(ngs[0].name, row) {
        var mid := Minted(rows, ngs[0], ann);
        MintedAddsTokens(rows, ngs[0], mint, next);
        PassAddsTokens(mid, ngs[1..], env, mint, next', more);
        OnlyTokensTransitive(rows, mid, EnsureTokens(mid, ngs[1..], env, mint, next', more).rows);
      }
    }
  }

  // Rows that belong to none of the node groups are left alone.
  lemma {:induction false} PassTouchesOnlyGroups(rows: Rows, ngs: seq<NodeGroup>, env: Env, mint: Mint, next: nat,
                                                 tokens: Labels, k: Key)
    requires k in rows && forall i :: 0 <= i < |ngs| ==> RowKey(ngs[i].name) != k
    ensures var p := EnsureTokens(rows, ngs, env, mint, next, tokens); k in p.rows && p.rows[k] == rows[k]
    decreases ngs
  {
    if ngs != [] {
      assert forall i :: 0 <= i < |ngs[1..]| ==> ngs[1..][i] == ngs[i + 1];
      if ngs[0].keys == [] {
        PassTouchesOnlyGroups(rows, ngs[1..], env, mint, next, tokens, k);
      } else if RowKey(ngs[0].name) in rows {
        var (ann, next') := MintKeys(rows[RowKey(ngs[0].name)].annotations, ngs[0].keys, mint, next);
        var mid := if next' == next then rows else Minted(rows, ngs[0], ann);
        PassTouchesOnlyGroups(mid, ngs[1..], env, mint, next', Collect(ann, ngs[0].keys, tokens), k);
      }
    }
  }

  // ----- A second pass changes nothing

  predicate GroupReady(rows: Rows, ng: NodeGroup) {
    ng.keys == [] || (RowKey(ng.name) in rows && AllMinted(rows[RowKey(ng.name)].annotations, ng.keys))
  }

  lemma ReadyStays(old_: Rows, new_: Rows, ng: NodeGroup)
    requires OnlyTokensAdded(old_, new_) && GroupReady(old_, ng)
    ensures GroupReady(new_, ng)
  {
    if ng.keys != [] {
      var k := RowKey(ng.name);
      assert TokensAddedTo(k, old_[k], new_[k]);
      forall i | 0 <= i < |ng.keys| ensures HasToken(new_[k].annotations, ng.keys[i]) {
        assert HasToken(old_[k].annotations, ng.keys[i]);
      }
    }
  }

  // The tokens a pass over finished node groups reads off the rows.
  function ReadTokens(rows: Rows, ngs: seq<NodeGroup>, tokens: Labels): Labels {
    if ngs == [] then tokens
    else if ngs[0].keys == [] || RowKey(ngs[0].name) !in rows then ReadTokens(rows, ngs[1..], tokens)
    else ReadTokens(rows, ngs[1..], Collect(rows[RowKey(ngs[0].name)].annotations, ngs[0].keys, tokens))
  }

  ghost predicate AllReady(rows: Rows, ngs: seq<NodeGroup>) {
    forall i :: 0 <= i < |ngs| ==> GroupReady(rows, ngs[i])
  }

  lemma {:induction false} ReadyPassIsRead(rows: Rows, ngs: seq<NodeGroup>, env: Env, mint: Mint, next: nat,
                                           tokens: Labels)
    requires Fresh(mint) && AllReady(rows, ngs)
    ensures EnsureTokens(rows, ngs, env, mint, next, tokens) ==
            Pass(rows, next, [], Some(ReadTokens(rows, ngs, tokens)))
  {
    if ngs != [] {
      assert GroupReady(rows, ngs[0]);
      assert forall i :: 0 <= i < |ngs[1..]| ==> ngs[1..][i] == ngs[i + 1];
      if ngs[0].keys == [] {
        ReadyPassIsRead(rows, ngs[1..], env, mint, next, tokens);
      } else {
        var row := rows[RowKey(ngs[0].name)];
        MintKeysFacts(row.annotations, ngs[0].keys, mint, next);
        ReadyPassIsRead(rows, ngs[1..], env, mint, next, Collect(row.annotations, ngs[0].keys, tokens));
      }
    }
  }

  lemma GroupMinted(rows: Rows, ng: NodeGroup, mint: Mint, next: nat)
    requires Fresh(mint) && RowKey(ng.name) in rows
    ensures GroupReady(Minted(rows, ng, MintKeys(rows[RowKey(ng.name)].annotations, ng.keys, mint, next).0), ng)
    ensures var (ann, n) := MintKeys(rows[RowKey(ng.name)].annotations, ng.keys, mint, next);
            n == next ==> ann == rows[RowKey(ng.name)].annotations && GroupReady(rows, ng)
  {
    MintKeysFacts(rows[RowKey(ng.name)].annotations, ng.keys, mint, next);
  }

  // A pass that succeeds leaves every group finished, and returned what a reader
  // of the resulting rows would return.
  lemma {:induction false} PassFinishes(rows: Rows, ngs: seq<NodeGroup>, env: Env, mint: Mint, next: nat,
                                        tokens: Labels)
    requires Fresh(mint) && EnsureTokens(rows, ngs, env, mint, next, tokens).tokens.Some?
    ensures var p := EnsureTokens(rows, ngs, env, mint, next, tokens);
            AllReady(p.rows, ngs) && p.tokens == Some(ReadTokens(p.rows, ngs, tokens))
  {
    if ngs != [] {
      var ng, p := ngs[0], EnsureTokens(rows, ngs, env, mint, next, tokens);
      if ng.keys == [] {
        PassFinishes(rows, ngs[1..], env, mint, next, tokens);
      } else {
        var (ann, next') := MintKeys(rows[RowKey(ng.name)].annotations, ng.keys, mint, next);
        var mid := if next' == next then rows else Minted(rows, ng, ann);
        var more := Collect(ann, ng.keys, tokens);
        GroupMinted(rows, ng, mint, next);
        PassFinishes(mid, ngs[1..], env, mint, next', more);
        PassAddsTokens(mid, ngs[1..], env, mint, next', more);
        FinishedGroupReads(mid, p.rows, ng, tokens);
      }
      assert forall i :: 1 <= i < |ngs| ==> ngs[i] == ngs[1..][i - 1];
    }
  }

  lemma FinishedGroupReads(mid: Rows, end: Rows, ng: NodeGroup, tokens: Labels)
    requires OnlyTokensAdded(mid, end) && GroupReady(mid, ng) && ng.keys != []
    ensures RowKey(ng.name) in end && GroupReady(end, ng)
    ensures Collect(end[RowKey(ng.name)].annotations, ng.keys, tokens) ==
            Collect(mid[RowKey(ng.name)].annotations, ng.keys, tokens)
  {
    var k := RowKey(ng.name);
    assert TokensAddedTo(k, mid[k], end[k]);
    ReadyStays(mid, end, ng);
    CollectSame(mid[k].annotations, end[k].annotations, ng.keys, tokens);
  }

  // With unchanged node groups, a second pass returns the same map and writes
  // nothing, whatever it would have minted.
  lemma SecondPassIsNoOp(rows: Rows, ngs: seq<NodeGroup>, env: Env, mint: Mint, next: nat, env': Env, mint': Mint,
                         next': nat)
    requires Fresh(mint) && Fresh(mint') && EnsureTokens(rows, ngs, env, mint, next, map[]).tokens.Some?
    ensures var first := EnsureTokens(rows, ngs, env, mint, next, map[]);
            EnsureTokens(first.rows, ngs, env', mint', next', map[]) == Pass(first.rows, next', [], first.tokens)
  {
    PassFinishes(rows, ngs, env, mint, next, map[]);
    ReadyPassIsRead(EnsureTokens(rows, ngs, env, mint, next, map[]).rows, ngs, env', mint', next', map[]);
  }

  // ----- What a pass returns

  // One group: its keys, each with its annotation, on top of what was there.
  lemma {:induction false} CollectHolds(ann: Labels, keys: seq<string>, tokens: Labels, k: string)
    requires forall i :: 0 <= i < |keys| ==> AnnotationOf(keys[i]) in ann && ann[AnnotationOf(keys[i])] != ""
    ensures var r := Collect(ann, keys, tokens);
            if k in keys then k in r && r[k] == ann[AnnotationOf(k)]
            else (k in r <==> k in tokens) && (k in r ==> r[k] == tokens[k])
  {
    if keys != [] {
      assert forall i :: 0 <= i < |keys[1..]| ==> keys[1..][i] == keys[i + 1];
      assert k in keys <==> k == keys[0] || k in keys[1..];
      CollectHolds(ann, keys[1..], tokens[keys[0] := ann[AnnotationOf(keys[0])]], k);
    }
  }

  lemma {:induction false} ReadTokensOther(rows: Rows, ngs: seq<NodeGroup>, tokens: Labels, k: string)
    requires AllReady(rows, ngs) && forall h :: 0 <= h < |ngs| ==> k !in ngs[h].keys
    ensures var r := ReadTokens(rows, ngs, tokens); (k in r <==> k in tokens) && (k in r ==> r[k] == tokens[k])
  {
    if ngs != [] {
      var rest := ngs[1..];
      assert forall i :: 0 <= i < |rest| ==> rest[i] == ngs[i + 1];
      assert GroupReady(rows, ngs[0]);
      if ngs[0].keys == [] {
        ReadTokensOther(rows, rest, tokens, k);
      } else {
        GroupHasTokens(rows, ngs[0]);
        var ann := rows[RowKey(ngs[0].name)].annotations;
        CollectHolds(ann, ngs[0].keys, tokens, k);
        ReadTokensOther(rows, rest, Collect(ann, ngs[0].keys, tokens), k);
      }
    }
  }

  lemma GroupHasTokens(rows: Rows, ng: NodeGroup)
    requires GroupReady(rows, ng) && ng.keys != []
    ensures Key("nodegroup", ng.name) in rows
    ensures var ann := rows[Key("nodegroup", ng.name)].annotations;
            forall i :: 0 <= i < |ng.keys| ==> AnnotationOf(ng.keys[i]) in ann && ann[AnnotationOf(ng.keys[i])] != ""
  {
    var ann := rows[RowKey(ng.name)].annotations;
    forall i | 0 <= i < |ng.keys| ensures AnnotationOf(ng.keys[i]) in ann && ann[AnnotationOf(ng.keys[i])] != "" {
      assert HasToken(ann, ng.keys[i]);
    }
  }

  // No later group has the key.
  predicate LastWith(ngs: seq<NodeGroup>, g: int, k: string) {
    0 <= g < |ngs| && k in ngs[g].keys && forall h :: g < h < |ngs| ==> k !in ngs[h].keys
  }

  // The row of the group holds this token for the key.
  predicate TokenIs(rows: Rows, ng: NodeGroup, k: string, token: string) {
    && Key("nodegroup", ng.name) in rows
    && AnnotationOf(k) in rows[Key("nodegroup", ng.name)].annotations
    && rows[Key("nodegroup", ng.name)].annotations[AnnotationOf(k)] == token
    && token != ""
  }

  lemma {:induction false} ReadTokensLast(rows: Rows, ngs: seq<NodeGroup>, tokens: Labels, k: string, g: nat)
    requires AllReady(rows, ngs) && LastWith(ngs, g, k)
    ensures var r := ReadTokens(rows, ngs, tokens); k in r && TokenIs(rows, ngs[g], k, r[k])
  {
    var rest := ngs[1..];
    assert forall i :: 0 <= i < |rest| ==> rest[i] == ngs[i + 1];
    assert GroupReady(rows, ngs[0]);
    var more := tokens;
    if ngs[0].keys != [] {
      GroupHasTokens(rows, ngs[0]);
      more := Collect(rows[RowKey(ngs[0].name)].annotations, ngs[0].keys, tokens);
    }
    if g == 0 {
      CollectHolds(rows[RowKey(ngs[0].name)].annotations, ngs[0].keys, tokens, k);
      ReadTokensOther(rows, rest, more, k);
      var i :| 0 <= i < |ngs[0].keys| && ngs[0].keys[i] == k;
    } else {
      ReadTokensLast(rows, rest, more, k, g - 1);
    }
  }

  // `result` maps exactly the keys of the groups, each to the non-empty token on
  // the row of the last group that has it.
  ghost predicate TokensOf(rows: Rows, ngs: seq<NodeGroup>, result: Labels) {
    && (forall k :: k in result ==> exists g :: LastWith(ngs, g, k))
    && (forall g, k :: LastWith(ngs, g, k) ==> k in result && TokenIs(rows, ngs[g], k, result[k]))
  }

  lemma {:induction false} SomeLast(ngs: seq<NodeGroup>, h: nat, k: string)
    requires h < |ngs| && k in ngs[h].keys
    ensures exists g :: LastWith(ngs, g, k)
    decreases |ngs| - h
  {
    if !LastWith(ngs, h, k) {
      var j :| h < j < |ngs| && k in ngs[j].keys;
      SomeLast(ngs, j, k);
    }
  }

  // A successful pass returns exactly the tokens that the rows now hold.
  lemma PassReturnsTokens(rows: Rows, ngs: seq<NodeGroup>, env: Env, mint: Mint, next: nat)
    requires Fresh(mint) && EnsureTokens(rows, ngs, env, mint, next, map[]).tokens.Some?
    ensures var p := EnsureTokens(rows, ngs, env, mint, next, map[]); TokensOf(p.rows, ngs, p.tokens.value)
  {
    PassFinishes(rows, ngs, env, mint, next, map[]);
    var p := EnsureTokens(rows, ngs, env, mint, next, map[]);
    forall k | k in p.tokens.value ensures exists g :: LastWith(ngs, g, k) {
      if h :| 0 <= h < |ngs| && k in ngs[h].keys {
        SomeLast(ngs, h, k);
      } else {
        ReadTokensOther(p.rows, ngs, map[], k);
      }
    }
    forall g, k | LastWith(ngs, g, k) ensures k in p.tokens.value && TokenIs(p.rows, ngs[g], k, p.tokens.value[k]) {
      ReadTokensLast(p.rows, ngs, map[], k, g);
    }
  }

  // ----- At most one self-enqueue per node group

  function Count(names: seq<string>, name: string): nat {
    if names == [] then 0 else (if names[0] == name then 1 else 0) + Count(names[1..], name)
  }

  type KeysOf = string -> seq<string>

  function GroupsOf(names: seq<string>, keysOf: KeysOf): seq<NodeGroup> {
    if names == [] then [] else [NodeGroup(names[0], keysOf(names[0]))] + GroupsOf(names[1..], keysOf)
  }

  // A pass writes a node group at most once, never if it was finished, and
  // leaves it finished if it wrote it.
  lemma {:induction false} PassWritesOnce(rows: Rows, names: seq<string>, keysOf: KeysOf,
                                          env: Env, mint: Mint, next: nat, tokens: Labels, name: string)
    requires Fresh(mint)
    ensures var p := EnsureTokens(rows, GroupsOf(names, keysOf), env, mint, next, tokens);
            var ng := NodeGroup(name, keysOf(name));
            && Count(p.writes, name) <= (if GroupReady(rows, ng) then 0 else 1)
            && (Count(p.writes, name) == 1 ==> GroupReady(p.rows, ng))
  {
    var ngs := GroupsOf(names, keysOf);
    if names != [] {
      var ng := ngs[0];
      assert ngs[1..] == GroupsOf(names[1..], keysOf);
      if ng.keys == [] {
        PassWritesOnce(rows, names[1..], keysOf, env, mint, next, tokens, name);
      } else if RowKey(ng.name) in rows {
        var (ann, next') := MintKeys(rows[RowKey(ng.name)].annotations, ng.keys, mint, next);
        var mid := if next' == next then rows else Minted(rows, ng, ann);
        var more := Collect(ann, ng.keys, tokens);
        GroupMinted(rows, ng, mint, next);
        PassWritesOnce(mid, names[1..], keysOf, env, mint, next', more, name);
        if next' != next {
          WriteMeansUnfinished(rows, ng, mint, next, name, keysOf);
          PassAddsTokens(mid, ngs[1..], env, mint, next', more);
          if name == ng.name {
            ReadyStays(mid, EnsureTokens(mid, ngs[1..], env, mint, next', more).rows, ng);
          }
        }
      }
    }
  }

  lemma WriteMeansUnfinished(rows: Rows, ng: NodeGroup, mint: Mint, next: nat, name: string, keysOf: KeysOf)
    requires Fresh(mint) && RowKey(ng.name) in rows && ng == NodeGroup(ng.name, keysOf(ng.name)) && ng.keys != []
    requires MintKeys(rows[RowKey(ng.name)].annotations, ng.keys, mint, next).1 != next
    ensures !GroupReady(rows, ng)
    ensures var mid := Minted(rows, ng, MintKeys(rows[RowKey(ng.name)].annotations, ng.keys, mint, next).0);
            var other := NodeGroup(name, keysOf(name));
            name != ng.name ==> (GroupReady(mid, other) <==> GroupReady(rows, other))
  {
    MintKeysFacts(rows[RowKey(ng.name)].annotations, ng.keys, mint, next);
  }

  function WriteEvents(rows: Rows, names: seq<string>): (r: seq<Event>)
    ensures |r| == |names|
  {
    if names == [] then []
    else
      var key := RowKey(names[0]);
      [Event(key, SpecChanged, if key in rows then rows[key].labels else map[])] + WriteEvents(rows, names[1..])
  }

  // Writing a node group changes no labels, so later events carry the same ones.
  lemma {:induction false} WriteEventsKept(x: Rows, y: Rows, names: seq<string>)
    requires x.Keys == y.Keys && forall k :: k in x ==> x[k].labels == y[k].labels
    ensures WriteEvents(x, names) == WriteEvents(y, names)
  {
    if names != [] {
      WriteEventsKept(x, y, names[1..]);
    }
  }

  lemma WriteEventsNext(rows: Rows, ng: NodeGroup, ann: Labels, names: seq<string>)
    requires RowKey(ng.name) in rows
    ensures WriteEvents(rows, [ng.name] + names)
            == [Event(RowKey(ng.name), SpecChanged, rows[RowKey(ng.name)].labels)]
               + WriteEvents(Minted(rows, ng, ann), names)
  {
    assert ([ng.name] + names)[1..] == names;
    WriteEventsKept(rows, Minted(rows, ng, ann), names);
  }

  // The steps that write node groups on their own: Apply passes over any of the
  // node groups, StatusTracker writes, and destroy, which mints like Apply and
  // then cascades over `gone` (nothing, if it stops before).
  datatype Step =
    | ApplyPass(names: seq<string>, env: Env, mint: Mint, next: nat)
    | StatusWrite(key: Key, status: Document)
    | DestroyPass(names: seq<string>, env: Env, mint: Mint, next: nat, gone: seq<Key>)

  function PassOf(rows: Rows, step: Step, keysOf: KeysOf): Pass
    requires !step.StatusWrite?
  {
    EnsureTokens(rows, GroupsOf(step.names, keysOf), step.env, step.mint, step.next, map[])
  }

  function StepRows(rows: Rows, step: Step, keysOf: KeysOf): Rows {
    match step
    case ApplyPass(_, _, _, _) => PassOf(rows, step, keysOf).rows
    case StatusWrite(key, status) => if key in rows then rows[key := rows[key].(status := status)] else rows
    case DestroyPass(_, _, _, _, gone) => PassOf(rows, step, keysOf).rows - Members(gone)
  }

  // The events one step publishes.
  function StepEvents(rows: Rows, step: Step, keysOf: KeysOf): seq<Event> {
    match step
    case ApplyPass(_, _, _, _) => WriteEvents(rows, PassOf(rows, step, keysOf).writes)
    case StatusWrite(key, _) => if key in rows then [Event(key, StatusChanged, rows[key].labels)] else []
    case DestroyPass(_, _, _, _, gone) =>
      WriteEvents(rows, PassOf(rows, step, keysOf).writes) + Deletions(PassOf(rows, step, keysOf).rows, gone)
  }

  function RowsAfter(rows: Rows, steps: seq<Step>, keysOf: KeysOf): Rows {
    if steps == [] then rows
    else StepRows(RowsAfter(rows, steps[..|steps| - 1], keysOf), steps[|steps| - 1], keysOf)
  }

  // Enqueues caused by events about the node group `name`.
  function SelfEnqueues(events: seq<Event>, name: string): nat {
    if events == [] then 0
    else (if events[0].key == RowKey(name) && Enqueues(events[0]).Some? then 1 else 0) + SelfEnqueues(events[1..], name)
  }

  function RunEnqueues(rows: Rows, steps: seq<Step>, keysOf: KeysOf, name: string): nat {
    if steps == [] then 0
    else
      var front := steps[..|steps| - 1];
      RunEnqueues(rows, front, keysOf, name)
      + SelfEnqueues(StepEvents(RowsAfter(rows, front, keysOf), steps[|steps| - 1], keysOf), name)
  }

  lemma {:induction false} WritesBoundEnqueues(rows: Rows, names: seq<string>, name: string)
    ensures SelfEnqueues(WriteEvents(rows, names), name) <= Count(names, name)
  {
    if names != [] {
      WritesBoundEnqueues(rows, names[1..], name);
    }
  }

  // And no fewer: the write of a node group that carries its tenant's label
  // enqueues that tenant, once.
  lemma {:induction false} WritesEnqueue(rows: Rows, names: seq<string>, name: string)
    requires RowKey(name) in rows && "rezuscloud.io/tenant" in rows[RowKey(name)].labels
    requires rows[RowKey(name)].labels["rezuscloud.io/tenant"] != ""
    ensures SelfEnqueues(WriteEvents(rows, names), name) == multiset(names)[name]
    ensures forall i :: 0 <= i < |names| && names[i] == name ==>
              Enqueues(WriteEvents(rows, names)[i]) == Some(rows[RowKey(name)].labels["rezuscloud.io/tenant"])
  {
    if names != [] {
      WritesEnqueue(rows, names[1..], name);
      assert names == [names[0]] + names[1..];
    }
  }

  lemma {:induction false} CountIsMultiplicity(names: seq<string>, name: string)
    ensures Count(names, name) == multiset(names)[name]
  {
    if names != [] {
      CountIsMultiplicity(names[1..], name);
      assert names == [names[0]] + names[1..];
    }
  }

  // A pass that succeeds writes every group that lacked a token.
  lemma {:induction false} UnfinishedIsWritten(rows: Rows, names: seq<string>, keysOf: KeysOf, env: Env, mint: Mint,
                                               next: nat, tokens: Labels, name: string)
    requires Fresh(mint) && name in names && !GroupReady(rows, NodeGroup(name, keysOf(name)))
    requires EnsureTokens(rows, GroupsOf(names, keysOf), env, mint, next, tokens).tokens.Some?
    ensures Count(EnsureTokens(rows, GroupsOf(names, keysOf), env, mint, next, tokens).writes, name) >= 1
  {
    var ngs := GroupsOf(names, keysOf);
    var ng := ngs[0];
    assert ngs[1..] == GroupsOf(names[1..], keysOf);
    assert name == names[0] || name in names[1..];
    if ng.keys == [] {
      UnfinishedIsWritten(rows, names[1..], keysOf, env, mint, next, tokens, name);
    } else {
      var (ann, next') := MintKeys(rows[RowKey(ng.name)].annotations, ng.keys, mint, next);
      GroupMinted(rows, ng, mint, next);
      if name != names[0] {
        var mid := if next' == next then rows else Minted(rows, ng, ann);
        if next' != next {
          WriteMeansUnfinished(rows, ng, mint, next, name, keysOf);
        }
        UnfinishedIsWritten(mid, names[1..], keysOf, env, mint, next', Collect(ann, ng.keys, tokens), name);
      }
    }
  }

  // So the first successful pass over a labelled node group that lacks a token
  // enqueues exactly once.
  lemma FirstPassEnqueuesOnce(rows: Rows, names: seq<string>, keysOf: KeysOf, env: Env, mint: Mint, next: nat,
                              name: string)
    requires Fresh(mint) && name in names && !GroupReady(rows, NodeGroup(name, keysOf(name)))
    requires RowKey(name) in rows && "rezuscloud.io/tenant" in rows[RowKey(name)].labels
    requires rows[RowKey(name)].labels["rezuscloud.io/tenant"] != ""
    requires EnsureTokens(rows, GroupsOf(names, keysOf), env, mint, next, map[]).tokens.Some?
    ensures var p := EnsureTokens(rows, GroupsOf(names, keysOf), env, mint, next, map[]);
            multiset(p.writes)[name] == 1 && SelfEnqueues(WriteEvents(rows, p.writes), name) == 1
  {
    var p := EnsureTokens(rows, GroupsOf(names, keysOf), env, mint, next, map[]);
    PassWritesOnce(rows, names, keysOf, env, mint, next, map[], name);
    UnfinishedIsWritten(rows, names, keysOf, env, mint, next, map[], name);
    CountIsMultiplicity(p.writes, name);
    WritesEnqueue(rows, p.writes, name);
  }

  lemma {:induction false} DeletionsBoundEnqueues(rows: Rows, gone: seq<Key>, name: string)
    requires NoRepeats(gone)
    ensures SelfEnqueues(Deletions(rows, gone), name) <= if RowKey(name) in rows && RowKey(name) in gone then 1 else 0
  {
    if gone != [] {
      DeletionsBoundEnqueues(rows, gone[1..], name);
      assert Deletions(rows, gone)[1..] == Deletions(rows, gone[1..]);
      assert gone[0] !in gone[1..];
      assert forall k :: k in gone <==> k == gone[0] || k in gone[1..];
    }
  }

  lemma {:induction false} SelfEnqueuesConcat(x: seq<Event>, y: seq<Event>, name: string)
    ensures SelfEnqueues(x + y, name) == SelfEnqueues(x, name) + SelfEnqueues(y, name)
  {
    if x == [] {
      assert x + y == y;
    } else {
      SelfEnqueuesConcat(x[1..], y, name);
      assert (x + y)[1..] == x[1..] + y;
    }
  }

  ghost predicate FreshStep(step: Step) {
    && (!step.StatusWrite? ==> Fresh(step.mint))
    && (step.DestroyPass? ==> NoRepeats(step.gone))
  }

  // The enqueues a node group can still cause: one while tokens are missing, and
  // one for its deletion.
  function EnqueuesLeft(rows: Rows, keysOf: KeysOf, name: string): nat {
    if RowKey(name) !in rows then 0 else if GroupReady(rows, NodeGroup(name, keysOf(name))) then 1 else 2
  }

  lemma PassSpends(rows: Rows, step: Step, keysOf: KeysOf, name: string)
    requires !step.StatusWrite? && Fresh(step.mint)
    ensures var p := PassOf(rows, step, keysOf);
            SelfEnqueues(WriteEvents(rows, p.writes), name) + EnqueuesLeft(p.rows, keysOf, name)
            <= EnqueuesLeft(rows, keysOf, name)
  {
    var ng, ngs := NodeGroup(name, keysOf(name)), GroupsOf(step.names, keysOf);
    PassWritesOnce(rows, step.names, keysOf, step.env, step.mint, step.next, map[], name);
    WritesBoundEnqueues(rows, PassOf(rows, step, keysOf).writes, name);
    PassAddsTokens(rows, ngs, step.env, step.mint, step.next, map[]);
    if GroupReady(rows, ng) {
      ReadyStays(rows, PassOf(rows, step, keysOf).rows, ng);
    }
    WrittenIsPresent(rows, ngs, step.env, step.mint, step.next, map[], name);
  }

  // A pass only writes node groups that have a row.
  lemma {:induction false} WrittenIsPresent(rows: Rows, ngs: seq<NodeGroup>, env: Env, mint: Mint, next: nat,
                                            tokens: Labels, name: string)
    ensures Count(EnsureTokens(rows, ngs, env, mint, next, tokens).writes, name) > 0 ==> RowKey(name) in rows
    decreases ngs
  {
    if ngs != [] {
      if ngs[0].keys == [] {
        WrittenIsPresent(rows, ngs[1..], env, mint, next, tokens, name);
      } else if RowKey(ngs[0].name) in rows {
        var (ann, next') := MintKeys(rows[RowKey(ngs[0].name)].annotations, ngs[0].keys, mint, next);
        var mid := if next' == next then rows else Minted(rows, ngs[0], ann);
        WrittenIsPresent(mid, ngs[1..], env, mint, next', Collect(ann, ngs[0].keys, tokens), name);
      }
    }
  }

  lemma StepEnqueuesOnce(rows: Rows, step: Step, keysOf: KeysOf, name: string)
    requires FreshStep(step)
    ensures SelfEnqueues(StepEvents(rows, step, keysOf), name)
            + EnqueuesLeft(StepRows(rows, step, keysOf), keysOf, name)
            <= EnqueuesLeft(rows, keysOf, name)
  {
    if !step.StatusWrite? {
      PassSpends(rows, step, keysOf, name);
    }
    if step.DestroyPass? {
      var p := PassOf(rows, step, keysOf);
      SelfEnqueuesConcat(WriteEvents(rows, p.writes), Deletions(p.rows, step.gone), name);
      DeletionsBoundEnqueues(p.rows, step.gone, name);
    }
  }

  // Over any run of Apply passes, status writes and teardowns with unchanged node
  // groups, a node group causes at most one enqueue while it exists, none once
  // its tokens are minted, and at most one more by being deleted.
  lemma {:induction false} AtMostOneSelfEnqueue(rows: Rows, steps: seq<Step>, keysOf: KeysOf, name: string)
    requires forall i :: 0 <= i < |steps| ==> FreshStep(steps[i])
    ensures RunEnqueues(rows, steps, keysOf, name) + EnqueuesLeft(RowsAfter(rows, steps, keysOf), keysOf, name)
            <= EnqueuesLeft(rows, keysOf, name)
    ensures RunEnqueues(rows, steps, keysOf, name) <= if RowKey(name) in RowsAfter(rows, steps, keysOf) then 1 else 2
    ensures RowKey(name) in RowsAfter(rows, steps, keysOf) && GroupReady(rows, NodeGroup(name, keysOf(name))) ==>
              RunEnqueues(rows, steps, keysOf, name) == 0
  {
    if steps != [] {
      var front := steps[..|steps| - 1];
      AtMostOneSelfEnqueue(rows, front, keysOf, name);
      StepEnqueuesOnce(RowsAfter(rows, front, keysOf), steps[|steps| - 1], keysOf, name);
    }
  }

  // ----- The pass on the store object

  // Rows, tokens and events once the remaining node groups are done.
  function Finish(rows: Rows, events: seq<Event>, ngs: seq<NodeGroup>, env: Env, mint: Mint, next: nat, acc: Labels)
    : (Rows, Option<Labels>, seq<Event>)
  {
    var p := EnsureTokens(rows, ngs, env, mint, next, acc);
    (p.rows, p.tokens, events + WriteEvents(rows, p.writes))
  }

  lemma FinishAfterWrite(rows: Rows, events: seq<Event>, ngs: seq<NodeGroup>, env: Env, mint: Mint, next: nat,
                         acc: Labels)
    requires ngs != [] && ngs[0].keys != [] && RowKey(ngs[0].name) in rows
    requires env.Accepts(ngs[0].name, rows[RowKey(ngs[0].name)])
    requires MintKeys(rows[RowKey(ngs[0].name)].annotations, ngs[0].keys, mint, next).1 != next
    ensures var row := rows[RowKey(ngs[0].name)];
            var (ann, next') := MintKeys(row.annotations, ngs[0].keys, mint, next);
            Finish(rows, events, ngs, env, mint, next, acc)
            == Finish(Minted(rows, ngs[0], ann), events + [Event(RowKey(ngs[0].name), SpecChanged, row.labels)],
                      ngs[1..], env, mint, next', Collect(ann, ngs[0].keys, acc))
  {
    var row := rows[RowKey(ngs[0].name)];
    var (ann, next') := MintKeys(row.annotations, ngs[0].keys, mint, next);
    var rest := EnsureTokens(Minted(rows, ngs[0], ann), ngs[1..], env, mint, next', Collect(ann, ngs[0].keys, acc));
    WriteEventsNext(rows, ngs[0], ann, rest.writes);
    var event := Event(RowKey(ngs[0].name), SpecChanged, row.labels);
    var later := WriteEvents(Minted(rows, ngs[0], ann), rest.writes);
    assert events + ([event] + later) == events + [event] + later;
  }

  method PassOverGroups(store: Store, ngs: seq<NodeGroup>, env: Env, mint: Mint, start: nat)
    returns (tokens: Option<Labels>)
    modifies store`rows, store`events
    ensures var p := EnsureTokens(old(store.rows), ngs, env, mint, start, map[]);
            && store.rows == p.rows && tokens == p.tokens
            && store.events == old(store.events) + WriteEvents(old(store.rows), p.writes)
  {
    var acc: Labels, next := map[], start;
    assert ngs[0..] == ngs;
    for i := 0 to |ngs|
      invariant Finish(store.rows, store.events, ngs[i..], env, mint, next, acc)
                == Finish(old(store.rows), old(store.events), ngs, env, mint, start, map[])
    {
      var ng := ngs[i];
      assert ngs[i..][0] == ng && ngs[i..][1..] == ngs[i + 1..];
      if ng.keys != [] {
        var key := RowKey(ng.name);
        if key !in store.rows {
          return None;
        }
        var row := store.rows[key];
        var ann, next' := MintLoop(row.annotations, ng.keys, mint, next);
        if next' != next {
          if !env.decodes(row.spec) {
            return None;
          }
          ghost var rows, events := store.rows, store.events;
          var ok := store.UpdateResource(key, env.seen(ng.name, row.version), row.spec, row.labels, ann);
          if !ok {
            return None;
          }
          FinishAfterWrite(rows, events, ngs[i..], env, mint, next, acc);
        }
        acc, next := Collect(ann, ng.keys, acc), next';
      }
    }
    return Some(acc);
  }

  method EnsureBindingTokens(store: Store, ngs: seq<NodeGroup>, env: Env, mint: Mint, start: nat)
    returns (tokens: Option<Labels>)
    modifies store`rows, store`events
    ensures var p := EnsureTokens(old(store.rows), ngs, env, mint, start, map[]);
            && store.rows == p.rows && tokens == p.tokens
            && store.events == old(store.events) + WriteEvents(old(store.rows), p.writes)
    ensures Fresh(mint) && tokens.Some? ==> TokensOf(store.rows, ngs, tokens.value)
  {
    ghost var rows := store.rows;
    tokens := PassOverGroups(store, ngs, env, mint, start);
    if Fresh(mint) && tokens.Some? {
      PassReturnsTokens(rows, ngs, env, mint, start);
    }
  }
}
