// Splitting text into lines: `splitLines` of internal/api/machine/diff.go and
// the newline framing that `lineTee` of internal/tfexec/exec.go must agree with.
module TextLines {

  // strings.TrimRight(s, "\n")
  function TrimNewlines(s: string): (r: string)
    ensures r <= s
    ensures r != "" ==> r[|r| - 1] != '\n'
    ensures forall k :: |r| <= k < |s| ==> s[k] == '\n'
  {
    if s != "" && s[|s| - 1] == '\n' then TrimNewlines(s[..|s| - 1]) else s
  }

  ghost predicate NoNewline(line: string) {
    forall k :: 0 <= k < |line| ==> line[k] != '\n'
  }

  // strings.Split(s, "\n"): always at least one piece.
  function Split(s: string): (r: seq<string>)
    ensures |r| >= 1
    ensures forall k :: 0 <= k < |r| ==> NoNewline(r[k])
  {
    if s == "" then [""]
    else
      var rest := Split(s[1..]);
      if s[0] == '\n' then [""] + rest
      else [[s[0]] + rest[0]] + rest[1..]
  }

  // The inverse of Split.
  function Join(lines: seq<string>): string
    requires |lines| >= 1
  {
    if |lines| == 1 then lines[0] else lines[0] + "\n" + Join(lines[1..])
  }

  lemma {:induction false} JoinSplit(s: string)
    ensures Join(Split(s)) == s
  {
    if s != "" {
      var rest := Split(s[1..]);
      JoinSplit(s[1..]);
      if s[0] == '\n' {
        assert Split(s)[1..] == rest;
      } else {
        assert Split(s)[1..] == rest[1..];
      }
    }
  }

  lemma {:induction false} SplitNoNewline(line: string)
    requires NoNewline(line)
    ensures Split(line) == [line]
  {
    if line != "" {
      assert NoNewline(line[1..]);
      SplitNoNewline(line[1..]);
      assert [line[0]] + line[1..] == line;
    }
  }

  // A newline separates: splitting around it splits each side on its own.
  lemma {:induction false} SplitAround(line: string, rest: string)
    requires NoNewline(line)
    ensures Split(line + "\n" + rest) == [line] + Split(rest)
  {
    var s := line + "\n" + rest;
    if line == "" {
      assert s[1..] == rest;
    } else {
      assert s[1..] == line[1..] + "\n" + rest;
      assert NoNewline(line[1..]);
      SplitAround(line[1..], rest);
      assert [line[0]] + line[1..] == line;
      assert ([line[1..]] + Split(rest))[1..] == Split(rest);
    }
  }

  lemma {:induction false} SplitJoin(lines: seq<string>)
    requires |lines| >= 1
    requires forall k :: 0 <= k < |lines| ==> NoNewline(lines[k])
    ensures Split(Join(lines)) == lines
  {
    if |lines| == 1 {
      SplitNoNewline(lines[0]);
      assert lines == [lines[0]];
    } else {
      SplitJoin(lines[1..]);
      SplitAround(lines[0], Join(lines[1..]));
      assert lines == [lines[0]] + lines[1..];
    }
  }

  // The lines are exactly the text up to trailing newlines, cut at its newlines.
  function SplitLines(s: string): (r: seq<string>)
    ensures forall k :: 0 <= k < |r| ==> NoNewline(r[k])
    ensures if TrimNewlines(s) == "" then r == [] else r != [] && Join(r) == TrimNewlines(s)
  {
    var t := TrimNewlines(s);
    JoinSplit(t);
    if t == "" then [] else Split(t)
  }

  // The text that lines stand for, without trailing newlines.
  function FileText(lines: seq<string>): string { if lines == [] then "" else Join(lines) }

  lemma FileTextOfLines(s: string)
    ensures FileText(SplitLines(s)) == TrimNewlines(s)
  {
  }

  // Only one list of lines meets the contract of SplitLines.
  lemma LinesUnique(s: string, lines: seq<string>)
    requires forall k :: 0 <= k < |lines| ==> NoNewline(lines[k])
    requires if TrimNewlines(s) == "" then lines == [] else lines != [] && Join(lines) == TrimNewlines(s)
    ensures SplitLines(s) == lines
  {
    if lines != [] {
      SplitJoin(lines);
      SplitJoin(SplitLines(s));
    }
  }

  // Two texts have the same lines exactly when they agree up to trailing newlines.
  lemma SameLinesIffSameText(s: string, t: string)
    ensures SplitLines(s) == SplitLines(t) <==> TrimNewlines(s) == TrimNewlines(t)
  {
    JoinSplit(TrimNewlines(s));
    JoinSplit(TrimNewlines(t));
  }

  method EqualStrings(a: seq<string>, b: seq<string>) returns (same: bool)
    ensures same <==> a == b
  {
    if |a| != |b| {
      return false;
    }
    for i := 0 to |a|
      invariant a[..i] == b[..i]
    {
      if a[i] != b[i] {
        return false;
      }
      assert a[..i + 1] == a[..i] + [a[i]];
    }
    assert a == a[..|a|];
    return true;
  }
}
