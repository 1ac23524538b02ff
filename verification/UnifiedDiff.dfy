// `unifiedDiff` of internal/api/machine/diff.go as a whole.
module UnifiedDiff {
  import opened EditScript
  import opened Hunks
  import opened PatchText
  import opened TextLines
  import opened Wrappers

  // Every line of a script comes from one of its two sides.
  lemma {:induction false} OpLineFromSide(ops: seq<Op>, k: nat)
    requires k < |ops|
    ensures ops[k].line in OldSide(ops) || ops[k].line in NewSide(ops)
  {
    if k > 0 {
      OpLineFromSide(ops[1..], k - 1);
    }
  }

  // `out` renders the hunks cut from the shortest script `ops`.
  ghost predicate RendersScript(out: string, ops: seq<Op>, runs: seq<Run>, hunks: seq<Hunk>) {
    && Grouped(ops, runs, |ops|)
    && HunksOf(ops, runs, hunks)
    && out == Render(hunks)
  }

  ghost predicate IsDiff(out: string, a: seq<string>, b: seq<string>) {
    exists ops, runs, hunks :: Minimal(ops, a, b) && RendersScript(out, ops, runs, hunks) && runs != []
  }

  lemma DiffApplies(ops: seq<Op>, runs: seq<Run>, hunks: seq<Hunk>, a: seq<string>, b: seq<string>)
    requires Transforms(ops, a, b) && Grouped(ops, runs, |ops|) && HunksOf(ops, runs, hunks)
    requires forall k :: 0 <= k < |a| ==> NoNewline(a[k])
    requires forall k :: 0 <= k < |b| ==> NoNewline(b[k])
    ensures ApplyText(Render(hunks), a) == Some(b)
  {
    forall k | 0 <= k < |ops| ensures NoNewline(ops[k].line) {
      OpLineFromSide(ops, k);
    }
    forall i | 0 <= i < |hunks| ensures WellFormed(hunks[i]) {
      assert HunkAt(ops, runs, hunks, i);
    }
    ReadWritten(hunks);
    HunksRebuild(ops, runs, hunks, 0);
    assert ops[..0] == [] && ops[0..] == ops && hunks[0..] == hunks;
  }

  // A text that is a diff turns the current lines into the desired ones, and
  // applying any diff text gives one answer.
  lemma AnyDiffApplies(out: string, a: seq<string>, b: seq<string>)
    requires IsDiff(out, a, b)
    requires forall k :: 0 <= k < |a| ==> NoNewline(a[k])
    requires forall k :: 0 <= k < |b| ==> NoNewline(b[k])
    ensures ApplyText(out, a) == Some(b)
  {
    var ops, runs, hunks :| Minimal(ops, a, b) && RendersScript(out, ops, runs, hunks) && runs != [];
    DiffApplies(ops, runs, hunks, a, b);
  }

  method AnyChange(ops: seq<Op>) returns (any: bool)
    ensures any <==> !Quiet(ops, 0, |ops|)
  {
    any := false;
    for k := 0 to |ops|
      invariant any <==> !Quiet(ops, 0, k)
    {
      any := any || !ops[k].kind.Keep?;
    }
  }

  lemma SomeHunk(ops: seq<Op>, runs: seq<Run>)
    requires Grouped(ops, runs, |ops|) && !Quiet(ops, 0, |ops|)
    ensures runs != []
  {
    var k :| 0 <= k < |ops| && !ops[k].kind.Keep?;
    assert ChangedAt(ops, k);
    ChangeIsInOneHunk(ops, runs, k);
  }

  method ShortestScript(a: seq<string>, b: seq<string>) returns (ops: seq<Op>)
    ensures Minimal(ops, a, b)
  {
    var lcs := FillTable(a, b);
    ops := Walk(a, b, lcs);
    KeepingLcsIsMinimal(ops, a, b);
  }

  method WriteDiff(ops: seq<Op>, ghost a: seq<string>, ghost b: seq<string>) returns (out: string)
    requires Minimal(ops, a, b) && !Quiet(ops, 0, |ops|)
    ensures IsDiff(out, a, b) && "--- current\n+++ desired\n" <= out
  {
    var hunks, runs := GroupHunks(ops);
    out := Write(hunks);
    RenderStarts(hunks);
    SomeHunk(ops, runs);
    assert RendersScript(out, ops, runs, hunks);
  }

  // `patch` on whole texts: newlines at the very end aside.
  function PatchedText(out: string, current: string): Option<string> {
    match ApplyText(out, SplitLines(current))
    case None => None
    case Some(lines) => Some(FileText(lines))
  }

  method UnifiedDiff(desired: string, current: string) returns (out: string)
    ensures out == "" <==> TrimNewlines(desired) == TrimNewlines(current)
    ensures out != "" ==> IsDiff(out, SplitLines(current), SplitLines(desired))
    ensures out != "" ==> ApplyText(out, SplitLines(current)) == Some(SplitLines(desired))
    ensures out != "" ==> PatchedText(out, current) == Some(TrimNewlines(desired))
    ensures out != "" ==> "--- current\n+++ desired\n" <= out
  {
    FileTextOfLines(desired);
    var a, b := SplitLines(current), SplitLines(desired);
    SameLinesIffSameText(current, desired);
    var same := EqualStrings(a, b);
    if same {
      return "";
    }
    var ops := ShortestScript(a, b);
    var any := AnyChange(ops);
    if !any {
      // Never taken: a script without changes would make the texts equal.
      NoChangesMeansEqual(ops);
      assert false;
      return "";
    }
    out := WriteDiff(ops, a, b);
    AnyDiffApplies(out, a, b);
  }
}
