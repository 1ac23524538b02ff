// Hunk grouping of internal/api/machine/diff.go:64-128, against a reference
// patch program that consumes the hunks.
module Hunks {
  import opened EditScript
  import opened Wrappers

  const CTX := 3

  datatype Hunk = Hunk(aStart: nat, aCount: nat, bStart: nat, bCount: nat, body: seq<Op>)

  // ----- The reference: a strict patch program

  // Applies the hunks to the lines `cur`, of which `at` are already consumed and
  // from which `made` output lines were produced. Every header number is used,
  // and context and deleted lines must match the file.
  function Patch(cur: seq<string>, at: nat, made: nat, hunks: seq<Hunk>): Option<seq<string>>
    requires at <= |cur|
    decreases hunks
  {
    if hunks == [] then Some(cur[at..])
    else
      var h := hunks[0];
      var p := h.aStart - 1;
      if p < at || p + h.aCount > |cur| || OldSide(h.body) != cur[p..p + h.aCount] then None
      else if |NewSide(h.body)| != h.bCount || made + (p - at) + 1 != h.bStart then None
      else
        match Patch(cur, p + h.aCount, h.bStart - 1 + h.bCount, hunks[1..])
        case None => None
        case Some(rest) => Some(cur[at..p] + NewSide(h.body) + rest)
  }

  // ----- Which operations belong to which hunk

  predicate Quiet(ops: seq<Op>, lo: int, hi: int)
    requires 0 <= lo && hi <= |ops|
  {
    forall k :: lo <= k < hi ==> ops[k].kind.Keep?
  }

  predicate ChangedAt(ops: seq<Op>, k: int) {
    0 <= k < |ops| && !ops[k].kind.Keep?
  }

  // The changes ops[first..last+1] that one hunk is cut around.
  datatype Run = Run(first: nat, last: nat) {
    function Lo(): nat { if first < CTX then 0 else first - CTX }

    function Hi(ops: seq<Op>): nat
    {
      if last + 1 + CTX > |ops| then |ops| else last + 1 + CTX
    }
  }

  // A maximal run: it starts and ends on a change, consecutive changes in it are
  // at most 2*CTX apart, and more than that follows before the next change.
  ghost predicate IsRun(ops: seq<Op>, r: Run) {
    && r.first <= r.last < |ops|
    && ChangedAt(ops, r.first) && ChangedAt(ops, r.last)
    && (forall p, q :: r.first <= p < q <= r.last && ChangedAt(ops, p) && ChangedAt(ops, q) && Quiet(ops, p + 1, q)
          ==> q - p <= 2 * CTX)
    && (forall k :: r.last < k <= r.last + 2 * CTX ==> !ChangedAt(ops, k))
  }

  // Where the i-th hunk may start: the end of the one before it.
  function Boundary(ops: seq<Op>, runs: seq<Run>, i: nat): nat
    requires i <= |runs|
  {
    if i == 0 then 0 else runs[i - 1].Hi(ops)
  }

  // The i-th hunk starts at or after its predecessor's end, and only unchanged
  // lines lie between them.
  ghost predicate RunFits(ops: seq<Op>, runs: seq<Run>, i: nat)
    requires i < |runs|
  {
    && IsRun(ops, runs[i])
    && Boundary(ops, runs, i) <= runs[i].Lo()
    && Quiet(ops, Boundary(ops, runs, i), runs[i].first)
  }

  ghost predicate Grouped(ops: seq<Op>, runs: seq<Run>, upto: nat) {
    && Boundary(ops, runs, |runs|) <= upto <= |ops|
    && (forall i :: 0 <= i < |runs| ==> RunFits(ops, runs, i))
    && Quiet(ops, Boundary(ops, runs, |runs|), upto)
  }

  function HunkOf(ops: seq<Op>, r: Run): Hunk
    requires r.first <= r.last < |ops|
  {
    var lo, hi := r.Lo(), r.Hi(ops);
    Hunk(|OldSide(ops[..lo])| + 1, |OldSide(ops[lo..hi])|,
         |NewSide(ops[..lo])| + 1, |NewSide(ops[lo..hi])|, ops[lo..hi])
  }

  ghost predicate HunkAt(ops: seq<Op>, runs: seq<Run>, hunks: seq<Hunk>, i: nat)
    requires i < |runs| == |hunks|
  {
    runs[i].first <= runs[i].last < |ops| && hunks[i] == HunkOf(ops, runs[i])
  }

  ghost predicate HunksOf(ops: seq<Op>, runs: seq<Run>, hunks: seq<Hunk>) {
    && |hunks| == |runs|
    && (forall i :: 0 <= i < |runs| ==> HunkAt(ops, runs, hunks, i))
  }

  // ----- The grouping loop

  method FileLine(ops: seq<Op>, upto: nat, side: Side) returns (n: nat)
    requires upto <= |ops|
    ensures n == 1 + |Lines(ops[..upto], side)|
  {
    n := 1;
    for k := 0 to upto
      invariant n == 1 + |Lines(ops[..k], side)|
    {
      assert ops[..k + 1] == ops[..k] + [ops[k]];
      Extend(ops[..k], ops[k]);
      if On(ops[k].kind, side) {
        n := n + 1;
      }
    }
  }

  method CountSides(ops: seq<Op>, lo: nat, hi: nat) returns (aCount: nat, bCount: nat)
    requires lo <= hi <= |ops|
    ensures aCount == |OldSide(ops[lo..hi])| && bCount == |NewSide(ops[lo..hi])|
  {
    aCount, bCount := 0, 0;
    for idx := lo to hi
      invariant aCount == |OldSide(ops[lo..idx])| && bCount == |NewSide(ops[lo..idx])|
    {
      assert ops[lo..idx + 1] == ops[lo..idx] + [ops[idx]];
      Extend(ops[lo..idx], ops[idx]);
      match ops[idx].kind {
        case Keep => aCount, bCount := aCount + 1, bCount + 1;
        case Delete => aCount := aCount + 1;
        case Insert => bCount := bCount + 1;
      }
    }
  }

  // From the first change `k`, extend forward while another change sits within
  // 2*CTX lines.
  method GrowRun(ops: seq<Op>, k: nat) returns (last: nat)
    requires ChangedAt(ops, k)
    ensures k <= last && IsRun(ops, Run(k, last))
  {
    last := k;
    var idx := k;
    while idx < |ops|
      invariant k <= last <= idx <= |ops|
      invariant last < |ops| && ChangedAt(ops, last) && idx - last <= |ops|
      invariant idx == k || last < idx
      invariant idx == k || Quiet(ops, last + 1, idx)
      invariant forall p, q :: k <= p < q <= last && ChangedAt(ops, p) && ChangedAt(ops, q) && Quiet(ops, p + 1, q)
                  ==> q - p <= 2 * CTX
    {
      if ChangedAt(ops, idx) {
        if idx - last > 2 * CTX {
          break;
        }
        last := idx;
      }
      idx := idx + 1;
    }
  }

  method CutHunk(ops: seq<Op>, r: Run) returns (h: Hunk)
    requires r.first <= r.last < |ops|
    ensures h == HunkOf(ops, r)
  {
    var lo := if r.first < CTX then 0 else r.first - CTX;
    var hi := if r.last + 1 + CTX > |ops| then |ops| else r.last + 1 + CTX;
    var aStart := FileLine(ops, lo, Current);
    var bStart := FileLine(ops, lo, Desired);
    var aCount, bCount := CountSides(ops, lo, hi);
    h := Hunk(aStart, aCount, bStart, bCount, ops[lo..hi]);
  }

  method GroupHunks(ops: seq<Op>) returns (hunks: seq<Hunk>, ghost runs: seq<Run>)
    ensures Grouped(ops, runs, |ops|) && HunksOf(ops, runs, hunks)
  {
    hunks, runs := [], [];
    var k := 0;
    while k < |ops|
      invariant Grouped(ops, runs, k)
      invariant HunksOf(ops, runs, hunks)
    {
      if !ChangedAt(ops, k) {
        k := k + 1;
      } else {
        var last := GrowRun(ops, k);
        var r := Run(k, last);
        var h := CutHunk(ops, r);
        AppendRun(ops, runs, k, r);
        AppendHunk(ops, runs, hunks, r, h);
        hunks, runs := hunks + [h], runs + [r];
        k := r.Hi(ops);
      }
    }
  }

  lemma AppendRun(ops: seq<Op>, runs: seq<Run>, k: nat, r: Run)
    requires Grouped(ops, runs, k) && r.first == k && IsRun(ops, r)
    ensures Grouped(ops, runs + [r], r.Hi(ops))
  {
    var more := runs + [r];
    forall i | 0 <= i < |more|
      ensures RunFits(ops, more, i)
    {
      if i < |runs| {
        assert RunFits(ops, runs, i);
        assert Boundary(ops, more, i) == Boundary(ops, runs, i);
      } else {
        assert Boundary(ops, more, i) == Boundary(ops, runs, |runs|);
        if runs != [] {
          var prev := runs[|runs| - 1];
          assert RunFits(ops, runs, |runs| - 1);
          assert prev.last < k;
          assert !(prev.last < k <= prev.last + 2 * CTX);
        }
      }
    }
  }

  lemma AppendHunk(ops: seq<Op>, runs: seq<Run>, hunks: seq<Hunk>, r: Run, h: Hunk)
    requires HunksOf(ops, runs, hunks) && r.first <= r.last < |ops| && h == HunkOf(ops, r)
    ensures HunksOf(ops, runs + [r], hunks + [h])
  {
    forall i | 0 <= i < |runs| + 1 ensures HunkAt(ops, runs + [r], hunks + [h], i) {
      if i < |runs| {
        assert HunkAt(ops, runs, hunks, i);
      }
    }
  }

  // ----- The hunks rebuild the desired file

  lemma SliceLines(ops: seq<Op>, lo: nat, hi: nat, side: Side)
    requires lo <= hi <= |ops|
    ensures |Lines(ops[..hi], side)| == |Lines(ops[..lo], side)| + |Lines(ops[lo..hi], side)|
    ensures |Lines(ops[..hi], side)| <= |Lines(ops, side)|
    ensures Lines(ops, side)[|Lines(ops[..lo], side)|..|Lines(ops[..hi], side)|] == Lines(ops[lo..hi], side)
  {
    assert ops[..hi] == ops[..lo] + ops[lo..hi];
    LinesConcat(ops[..lo], ops[lo..hi], side);
    assert ops == ops[..hi] + ops[hi..];
    LinesConcat(ops[..hi], ops[hi..], side);
  }

  lemma SplitNewSide(ops: seq<Op>, x: nat, lo: nat, hi: nat)
    requires x <= lo <= hi <= |ops|
    ensures NewSide(ops[x..]) == NewSide(ops[x..lo]) + NewSide(ops[lo..hi]) + NewSide(ops[hi..])
  {
    assert ops[x..] == ops[x..lo] + (ops[lo..hi] + ops[hi..]);
    LinesConcat(ops[x..lo], ops[lo..hi] + ops[hi..], Desired);
    LinesConcat(ops[lo..hi], ops[hi..], Desired);
  }

  lemma QuietSidesAgree(ops: seq<Op>, lo: nat, hi: nat)
    requires lo <= hi <= |ops| && Quiet(ops, lo, hi)
    ensures OldSide(ops[lo..hi]) == NewSide(ops[lo..hi])
  {
    NoChangesMeansEqual(ops[lo..hi]);
  }

  // The facts about one hunk that the patch program checks or uses.
  lemma HunkMeetsFile(ops: seq<Op>, at: nat, lo: nat, hi: nat)
    requires at <= lo <= hi <= |ops| && Quiet(ops, at, lo)
    ensures
      var a, p, q := |OldSide(ops[..at])|, |OldSide(ops[..lo])|, |OldSide(ops[..hi])|;
      && a <= p <= q <= |OldSide(ops)|
      && q == p + |OldSide(ops[lo..hi])|
      && |NewSide(ops[..hi])| == |NewSide(ops[..lo])| + |NewSide(ops[lo..hi])|
      && |NewSide(ops[..lo])| == |NewSide(ops[..at])| + (p - a)
      && OldSide(ops)[p..q] == OldSide(ops[lo..hi])
      && OldSide(ops)[a..p] == NewSide(ops[at..lo])
  {
    QuietSidesAgree(ops, at, lo);
    SliceLines(ops, at, lo, Current);
    SliceLines(ops, at, lo, Desired);
    SliceLines(ops, lo, hi, Current);
    SliceLines(ops, lo, hi, Desired);
  }

  // From operation `at` on, the hunks turn what is left of the current file into
  // what is left of the desired one.
  ghost predicate Rebuilds(ops: seq<Op>, at: nat, hunks: seq<Hunk>) {
    && at <= |ops|
    && |OldSide(ops[..at])| <= |OldSide(ops)|
    && Patch(OldSide(ops), |OldSide(ops[..at])|, |NewSide(ops[..at])|, hunks) == Some(NewSide(ops[at..]))
  }

  lemma PatchOne(ops: seq<Op>, at: nat, r: Run, hunks: seq<Hunk>, rest: seq<Hunk>)
    requires r.first <= r.last < |ops| && at <= r.Lo() && Quiet(ops, at, r.Lo())
    requires hunks == [HunkOf(ops, r)] + rest && Rebuilds(ops, r.Hi(ops), rest)
    ensures Rebuilds(ops, at, hunks)
  {
    HunkMeetsFile(ops, at, r.Lo(), r.Hi(ops));
    SplitNewSide(ops, at, r.Lo(), r.Hi(ops));
    assert hunks[0] == HunkOf(ops, r) && hunks[1..] == rest;
  }

  lemma PatchNone(ops: seq<Op>, at: nat)
    requires at <= |ops| && Quiet(ops, at, |ops|)
    ensures Rebuilds(ops, at, [])
  {
    HunkMeetsFile(ops, at, |ops|, |ops|);
    assert ops[..|ops|] == ops && ops[at..|ops|] == ops[at..];
    var cur, from := OldSide(ops), |OldSide(ops[..at])|;
    assert cur[from..|cur|] == cur[from..];
  }

  lemma {:induction false} HunksRebuild(ops: seq<Op>, runs: seq<Run>, hunks: seq<Hunk>, i: nat)
    requires Grouped(ops, runs, |ops|) && HunksOf(ops, runs, hunks) && i <= |runs|
    ensures Rebuilds(ops, Boundary(ops, runs, i), hunks[i..])
    decreases |runs| - i
  {
    var at := Boundary(ops, runs, i);
    if i == |runs| {
      PatchNone(ops, at);
      assert hunks[i..] == [];
    } else {
      HunksRebuild(ops, runs, hunks, i + 1);
      RunAtBoundary(ops, runs, i);
      assert HunkAt(ops, runs, hunks, i);
      assert hunks[i..] == [hunks[i]] + hunks[i + 1..];
      PatchOne(ops, at, runs[i], hunks[i..], hunks[i + 1..]);
    }
  }

  lemma RunAtBoundary(ops: seq<Op>, runs: seq<Run>, i: nat)
    requires Grouped(ops, runs, |ops|) && i < |runs|
    ensures Boundary(ops, runs, i) <= runs[i].Lo() <= |ops| && Quiet(ops, Boundary(ops, runs, i), runs[i].Lo())
  {
    assert RunFits(ops, runs, i);
  }

  // ----- Empty ranges

  // A hunk covers the whole script or contains an unchanged line.
  lemma HunkHasContext(ops: seq<Op>, runs: seq<Run>, i: nat) returns (k: nat)
    requires Grouped(ops, runs, |ops|) && i < |runs|
    ensures (runs[i].Lo() == 0 && runs[i].Hi(ops) == |ops|) ||
            (runs[i].Lo() <= k < runs[i].Hi(ops) && ops[k].kind.Keep?)
  {
    var r := runs[i];
    assert RunFits(ops, runs, i);
    if r.first > 0 {
      k := r.first - 1;
      if i > 0 {
        assert RunFits(ops, runs, i - 1);
      }
    } else {
      k := r.last + 1;
      assert !ChangedAt(ops, r.last + 1);
    }
  }

  lemma {:induction false} KeptOnEverySide(ops: seq<Op>, k: nat, side: Side)
    requires k < |ops| && ops[k].kind.Keep?
    ensures Lines(ops, side) != []
  {
    if k > 0 {
      KeptOnEverySide(ops[1..], k - 1, side);
    }
  }

  // A header range is empty only for an empty file. Such a range is printed as
  // starting at line 1, where the unified format asks for line 0.
  lemma EmptyRangeIffEmptyFile(ops: seq<Op>, runs: seq<Run>, hunks: seq<Hunk>, i: nat)
    requires Grouped(ops, runs, |ops|) && HunksOf(ops, runs, hunks) && i < |hunks|
    ensures hunks[i].aCount == 0 <==> OldSide(ops) == []
    ensures hunks[i].bCount == 0 <==> NewSide(ops) == []
    ensures OldSide(ops) == [] || NewSide(ops) == [] ==> |hunks| == 1 && hunks[i].aStart == hunks[i].bStart == 1
  {
    assert HunkAt(ops, runs, hunks, i);
    EmptySliceIff(ops, runs, i, Current);
    EmptySliceIff(ops, runs, i, Desired);
  }

  lemma NothingToSlice(ops: seq<Op>, lo: nat, hi: nat, side: Side)
    requires lo <= hi <= |ops| && Lines(ops, side) == []
    ensures Lines(ops[lo..hi], side) == []
  {
    SliceLines(ops, lo, hi, side);
  }

  lemma EmptySliceIff(ops: seq<Op>, runs: seq<Run>, i: nat, side: Side)
    requires Grouped(ops, runs, |ops|) && i < |runs|
    ensures runs[i].Lo() <= runs[i].Hi(ops) <= |ops|
    ensures Lines(ops[runs[i].Lo()..runs[i].Hi(ops)], side) == [] <==> Lines(ops, side) == []
    ensures Lines(ops, side) == [] ==> |runs| == 1 && runs[i].Lo() == 0
  {
    assert RunFits(ops, runs, i);
    var lo, hi := runs[i].Lo(), runs[i].Hi(ops);
    if Lines(ops, side) == [] {
      NothingToSlice(ops, lo, hi, side);
    }
    var k := HunkHasContext(ops, runs, i);
    if lo == 0 && hi == |ops| {
      assert ops[lo..hi] == ops;
      WholeScriptIsOneHunk(ops, runs, i);
    } else {
      assert ops[lo..hi][k - lo] == ops[k];
      KeptOnEverySide(ops[lo..hi], k - lo, side);
    }
  }

  lemma HunksApart(ops: seq<Op>, runs: seq<Run>, i: nat, j: nat)
    requires Grouped(ops, runs, |ops|) && i < j < |runs|
    ensures 0 < runs[i].Hi(ops) <= runs[j].Lo() < |ops|
  {
    HunksInOrder(ops, runs, i, j);
    assert RunFits(ops, runs, i) && RunFits(ops, runs, j);
  }

  lemma WholeScriptIsOneHunk(ops: seq<Op>, runs: seq<Run>, i: nat)
    requires Grouped(ops, runs, |ops|) && i < |runs| && runs[i].Lo() == 0 && runs[i].Hi(ops) == |ops|
    ensures |runs| == 1
  {
    if i > 0 {
      HunksApart(ops, runs, 0, i);
    } else if |runs| > 1 {
      HunksApart(ops, runs, 0, 1);
    }
  }

  // Three lines of context: the hunk reaches three operations before its first
  // and after its last change, or to the end of the script, all of them unchanged;
  // its changes are at most six apart, and more than six lines separate it from
  // the changes of the next one.
  lemma ThreeLinesOfContext(ops: seq<Op>, runs: seq<Run>, i: nat, k: nat)
    requires Grouped(ops, runs, |ops|) && i < |runs|
    ensures runs[i].Lo() == (if runs[i].first < 3 then 0 else runs[i].first - 3)
    ensures runs[i].Hi(ops) == (if runs[i].last + 4 > |ops| then |ops| else runs[i].last + 4)
    ensures runs[i].first <= runs[i].last < |ops|
    ensures !ops[runs[i].first].kind.Keep? && !ops[runs[i].last].kind.Keep?
    ensures runs[i].Lo() <= k < runs[i].first || runs[i].last < k < runs[i].Hi(ops) ==> ops[k].kind.Keep?
    ensures i + 1 < |runs| ==> runs[i + 1].first > runs[i].last + 6
    ensures runs[i].first <= k < runs[i].last ==>
            exists q :: k < q <= k + 6 && q <= runs[i].last && !ops[q].kind.Keep?
  {
    assert RunFits(ops, runs, i);
    if i + 1 < |runs| {
      assert RunFits(ops, runs, i + 1);
      assert ChangedAt(ops, runs[i + 1].first);
      HunksInOrder(ops, runs, i, i + 1);
    }
    if runs[i].last < k < runs[i].Hi(ops) {
      assert !ChangedAt(ops, k);
    }
    if runs[i].first <= k < runs[i].last {
      NextChangeIsNear(ops, runs[i], k);
    }
  }

  lemma NextChangeIsNear(ops: seq<Op>, r: Run, k: nat)
    requires IsRun(ops, r) && r.first <= k < r.last
    ensures exists q :: k < q <= k + 6 && q <= r.last && !ops[q].kind.Keep?
  {
    var p := k;
    while !ChangedAt(ops, p)
      invariant r.first <= p <= k && Quiet(ops, p + 1, k + 1)
      decreases p
    {
      p := p - 1;
    }
    var q := k + 1;
    while !ChangedAt(ops, q)
      invariant k < q <= r.last && Quiet(ops, p + 1, q)
      decreases r.last - q
    {
      q := q + 1;
    }
    assert q - p <= 2 * CTX;
  }

  // Every changed operation lies in exactly one hunk, and the hunks are in order.
  lemma {:induction false} ChangeIsInOneHunk(ops: seq<Op>, runs: seq<Run>, k: nat)
    requires Grouped(ops, runs, |ops|) && ChangedAt(ops, k)
    ensures exists i :: 0 <= i < |runs| && runs[i].Lo() <= k < runs[i].Hi(ops)
    ensures forall i, j :: 0 <= i < j < |runs| ==> runs[i].Hi(ops) <= runs[j].Lo()
  {
    forall i, j | 0 <= i < j < |runs| ensures runs[i].Hi(ops) <= runs[j].Lo() {
      HunksInOrder(ops, runs, i, j);
    }
    var i := 0;
    while i < |runs| && Boundary(ops, runs, i + 1) <= k
      invariant 0 <= i <= |runs| && Boundary(ops, runs, i) <= k
    {
      i := i + 1;
    }
    assert i < |runs| ==> RunFits(ops, runs, i);
  }

  lemma {:induction false} HunksInOrder(ops: seq<Op>, runs: seq<Run>, i: nat, j: nat)
    requires Grouped(ops, runs, |ops|) && i < j < |runs|
    ensures runs[i].Hi(ops) <= runs[j].Lo()
  {
    assert RunFits(ops, runs, j) && RunFits(ops, runs, j - 1);
    if i < j - 1 {
      HunksInOrder(ops, runs, i, j - 1);
    }
  }
}
