// The edit script of internal/api/machine/diff.go:19-62: the dynamic-programming
// table, the greedy walk over it, and the proof that no shorter script exists.
module EditScript {

  datatype Kind = Keep | Delete | Insert

  datatype Op = Op(kind: Kind, line: string)

  // The three readings of a script: the current file, the desired file, and
  // what both share.
  datatype Side = Current | Desired | Shared

  predicate On(kind: Kind, side: Side) {
    match side
    case Current => !kind.Insert?
    case Desired => !kind.Delete?
    case Shared => kind.Keep?
  }

  function Lines(ops: seq<Op>, side: Side): (r: seq<string>)
    ensures |r| <= |ops|
  {
    if ops == [] then []
    else if On(ops[0].kind, side) then [ops[0].line] + Lines(ops[1..], side)
    else Lines(ops[1..], side)
  }

  function OldSide(ops: seq<Op>): seq<string> { Lines(ops, Current) }

  function NewSide(ops: seq<Op>): seq<string> { Lines(ops, Desired) }

  function Kept(ops: seq<Op>): seq<string> { Lines(ops, Shared) }

  function Changes(ops: seq<Op>): nat {
    if ops == [] then 0 else (if ops[0].kind.Keep? then 0 else 1) + Changes(ops[1..])
  }

  // `ops` turns the lines `a` into the lines `b`.
  predicate Transforms(ops: seq<Op>, a: seq<string>, b: seq<string>) {
    OldSide(ops) == a && NewSide(ops) == b
  }

  lemma {:induction false} LinesConcat(x: seq<Op>, y: seq<Op>, side: Side)
    ensures Lines(x + y, side) == Lines(x, side) + Lines(y, side)
  {
    if x == [] {
      assert x + y == y;
    } else {
      assert (x + y)[1..] == x[1..] + y;
      LinesConcat(x[1..], y, side);
    }
  }

  lemma {:induction false} CountingChanges(ops: seq<Op>)
    ensures Changes(ops) == |OldSide(ops)| + |NewSide(ops)| - 2 * |Kept(ops)|
  {
    if ops != [] {
      CountingChanges(ops[1..]);
    }
  }

  // ----- The reference: longest common subsequences

  // `c` can be read off `s`, in order, by skipping lines.
  ghost predicate Subsequence(c: seq<string>, s: seq<string>) {
    || c == []
    || (s != [] && Subsequence(c, s[1..]))
    || (s != [] && c[0] == s[0] && Subsequence(c[1..], s[1..]))
  }

  ghost predicate CommonSubsequence(c: seq<string>, a: seq<string>, b: seq<string>) {
    Subsequence(c, a) && Subsequence(c, b)
  }

  lemma {:induction false} SubsequenceTail(c: seq<string>, s: seq<string>)
    requires c != [] && Subsequence(c, s)
    ensures s != [] && Subsequence(c[1..], s[1..])
  {
    if Subsequence(c, s[1..]) {
      SubsequenceTail(c, s[1..]);
    }
  }

  lemma {:induction false} KeptIsSubsequence(ops: seq<Op>, side: Side)
    ensures Subsequence(Kept(ops), Lines(ops, side))
  {
    if ops != [] {
      KeptIsSubsequence(ops[1..], side);
      var c, s := Kept(ops), Lines(ops, side);
      if ops[0].kind.Keep? {
        assert c[1..] == Kept(ops[1..]) && s[1..] == Lines(ops[1..], side);
      } else if On(ops[0].kind, side) {
        assert s[1..] == Lines(ops[1..], side);
      }
    }
  }

  // What one cell of the table holds.
  function LcsLength(a: seq<string>, b: seq<string>): nat
    decreases |a| + |b|
  {
    if a == [] || b == [] then 0
    else if a[0] == b[0] then LcsLength(a[1..], b[1..]) + 1
    else if LcsLength(a[1..], b) >= LcsLength(a, b[1..]) then LcsLength(a[1..], b)
    else LcsLength(a, b[1..])
  }

  lemma {:induction false} NoLongerCommonSubsequence(c: seq<string>, a: seq<string>, b: seq<string>)
    requires CommonSubsequence(c, a, b)
    ensures |c| <= LcsLength(a, b)
    decreases |a| + |b|
  {
    if c != [] {
      SubsequenceTail(c, a);
      SubsequenceTail(c, b);
      if a[0] == b[0] {
        NoLongerCommonSubsequence(c[1..], a[1..], b[1..]);
      } else if c[0] != a[0] {
        NoLongerCommonSubsequence(c, a[1..], b);
      } else {
        NoLongerCommonSubsequence(c, a, b[1..]);
      }
    }
  }

  // ----- The table and the walk

  predicate CellAt(a: seq<string>, b: seq<string>, i: int, j: int, v: int)
    requires 0 <= i <= |a| && 0 <= j <= |b|
  {
    v == LcsLength(a[i..], b[j..])
  }

  lemma CellStep(a: seq<string>, b: seq<string>, i: nat, j: nat)
    requires i < |a| && j < |b|
    ensures LcsLength(a[i..], b[j..]) ==
            if a[i] == b[j] then LcsLength(a[i + 1..], b[j + 1..]) + 1
            else if LcsLength(a[i + 1..], b[j..]) >= LcsLength(a[i..], b[j + 1..]) then LcsLength(a[i + 1..], b[j..])
            else LcsLength(a[i..], b[j + 1..])
  {
    assert a[i..][1..] == a[i + 1..] && b[j..][1..] == b[j + 1..];
  }

  method FillTable(a: seq<string>, b: seq<string>) returns (lcs: array2<int>)
    ensures fresh(lcs)
    ensures lcs.Length0 == |a| + 1 && lcs.Length1 == |b| + 1
    ensures forall i, j :: 0 <= i <= |a| && 0 <= j <= |b| ==> CellAt(a, b, i, j, lcs[i, j])
  {
    var m, n := |a|, |b|;
    lcs := new int[m + 1, n + 1]((i, j) => 0);
    for i := m downto 0
      invariant forall x, y :: i <= x <= m && 0 <= y <= n ==> CellAt(a, b, x, y, lcs[x, y])
      invariant forall x :: 0 <= x <= m ==> lcs[x, n] == 0
    {
      for j := n downto 0
        invariant forall x, y :: i < x <= m && 0 <= y <= n ==> CellAt(a, b, x, y, lcs[x, y])
        invariant forall x :: 0 <= x <= m ==> lcs[x, n] == 0
        invariant forall y :: j <= y <= n ==> CellAt(a, b, i, y, lcs[i, y])
      {
        CellStep(a, b, i, j);
        assert CellAt(a, b, i + 1, j, lcs[i + 1, j]) && CellAt(a, b, i + 1, j + 1, lcs[i + 1, j + 1]);
        if a[i] == b[j] {
          lcs[i, j] := lcs[i + 1, j + 1] + 1;
        } else if lcs[i + 1, j] >= lcs[i, j + 1] {
          lcs[i, j] := lcs[i + 1, j];
        } else {
          lcs[i, j] := lcs[i, j + 1];
        }
      }
    }
  }

  lemma Extend(ops: seq<Op>, op: Op)
    ensures forall side :: Lines(ops + [op], side) == Lines(ops, side) + (if On(op.kind, side) then [op.line] else [])
  {
    forall side ensures Lines(ops + [op], side) == Lines(ops, side) + (if On(op.kind, side) then [op.line] else []) {
      LinesConcat(ops, [op], side);
    }
  }

  // The script so far covers the first i current and the first j desired lines.
  predicate Reached(ops: seq<Op>, a: seq<string>, b: seq<string>, i: nat, j: nat) {
    i <= |a| && j <= |b| && Transforms(ops, a[..i], b[..j])
  }

  lemma KeepOne(ops: seq<Op>, a: seq<string>, b: seq<string>, i: nat, j: nat)
    requires Reached(ops, a, b, i, j) && i < |a| && j < |b| && a[i] == b[j]
    ensures Reached(ops + [Op(Keep, a[i])], a, b, i + 1, j + 1)
    ensures |Kept(ops + [Op(Keep, a[i])])| == |Kept(ops)| + 1
  {
    Extend(ops, Op(Keep, a[i]));
    assert a[..i + 1] == a[..i] + [a[i]] && b[..j + 1] == b[..j] + [b[j]];
  }

  lemma DeleteOne(ops: seq<Op>, a: seq<string>, b: seq<string>, i: nat, j: nat)
    requires Reached(ops, a, b, i, j) && i < |a|
    ensures Reached(ops + [Op(Delete, a[i])], a, b, i + 1, j)
    ensures Kept(ops + [Op(Delete, a[i])]) == Kept(ops)
  {
    Extend(ops, Op(Delete, a[i]));
    assert a[..i + 1] == a[..i] + [a[i]];
  }

  lemma InsertOne(ops: seq<Op>, a: seq<string>, b: seq<string>, i: nat, j: nat)
    requires Reached(ops, a, b, i, j) && j < |b|
    ensures Reached(ops + [Op(Insert, b[j])], a, b, i, j + 1)
    ensures Kept(ops + [Op(Insert, b[j])]) == Kept(ops)
  {
    Extend(ops, Op(Insert, b[j]));
    assert b[..j + 1] == b[..j] + [b[j]];
  }

  method Walk(a: seq<string>, b: seq<string>, lcs: array2<int>) returns (ops: seq<Op>)
    requires lcs.Length0 == |a| + 1 && lcs.Length1 == |b| + 1
    requires forall i, j :: 0 <= i <= |a| && 0 <= j <= |b| ==> CellAt(a, b, i, j, lcs[i, j])
    ensures Transforms(ops, a, b)
    ensures |Kept(ops)| == LcsLength(a, b)
  {
    var m, n := |a|, |b|;
    var i, j := 0, 0;
    ops := [];
    assert a[0..] == a && b[0..] == b;
    while i < m && j < n
      invariant Reached(ops, a, b, i, j)
      invariant |Kept(ops)| + LcsLength(a[i..], b[j..]) == LcsLength(a, b)
      decreases m - i + n - j
    {
      CellStep(a, b, i, j);
      assert CellAt(a, b, i + 1, j, lcs[i + 1, j]) && CellAt(a, b, i, j + 1, lcs[i, j + 1]);
      if a[i] == b[j] {
        KeepOne(ops, a, b, i, j);
        ops := ops + [Op(Keep, a[i])];
        i, j := i + 1, j + 1;
      } else if lcs[i + 1, j] >= lcs[i, j + 1] {
        DeleteOne(ops, a, b, i, j);
        ops := ops + [Op(Delete, a[i])];
        i := i + 1;
      } else {
        InsertOne(ops, a, b, i, j);
        ops := ops + [Op(Insert, b[j])];
        j := j + 1;
      }
    }
    while i < m
      invariant Reached(ops, a, b, i, j)
      invariant |Kept(ops)| == LcsLength(a, b)
    {
      DeleteOne(ops, a, b, i, j);
      ops := ops + [Op(Delete, a[i])];
      i := i + 1;
    }
    while j < n
      invariant Reached(ops, a, b, i, j)
      invariant |Kept(ops)| == LcsLength(a, b)
    {
      InsertOne(ops, a, b, i, j);
      ops := ops + [Op(Insert, b[j])];
      j := j + 1;
    }
    assert a[..m] == a && b[..n] == b;
  }

  // Every script with the same effect makes at least as many changes, and keeps
  // a common subsequence no longer than the one kept here.
  ghost predicate Minimal(ops: seq<Op>, a: seq<string>, b: seq<string>) {
    && Transforms(ops, a, b)
    && CommonSubsequence(Kept(ops), a, b)
    && (forall c :: CommonSubsequence(c, a, b) ==> |c| <= |Kept(ops)|)
    && (forall other :: Transforms(other, a, b) ==> Changes(ops) <= Changes(other))
  }

  lemma KeepingLcsIsMinimal(ops: seq<Op>, a: seq<string>, b: seq<string>)
    requires Transforms(ops, a, b) && |Kept(ops)| == LcsLength(a, b)
    ensures Minimal(ops, a, b)
  {
    KeptIsSubsequence(ops, Current);
    KeptIsSubsequence(ops, Desired);
    forall c | CommonSubsequence(c, a, b)
      ensures |c| <= |Kept(ops)|
    {
      NoLongerCommonSubsequence(c, a, b);
    }
    forall other | Transforms(other, a, b)
      ensures Changes(ops) <= Changes(other)
    {
      CountingChanges(ops);
      CountingChanges(other);
      KeptIsSubsequence(other, Current);
      KeptIsSubsequence(other, Desired);
    }
  }

  // A script without changes means the two sides are equal.
  lemma {:induction false} NoChangesMeansEqual(ops: seq<Op>)
    requires forall k :: 0 <= k < |ops| ==> ops[k].kind.Keep?
    ensures OldSide(ops) == NewSide(ops)
  {
    if ops != [] {
      NoChangesMeansEqual(ops[1..]);
    }
  }
}
