// The streaming line splitter `lineTee` of internal/tfexec/exec.go:344-386: for
// every way of cutting the output into writes it must agree with splitting the
// whole output at once.
module LineTee {
  import opened TextLines

  // strings.TrimRight(line, "\r")
  function TrimCR(line: string): (r: string)
    ensures r <= line
    ensures r != "" ==> r[|r| - 1] != '\r'
    ensures forall k :: |r| <= k < |line| ==> line[k] == '\r'
  {
    if line != "" && line[|line| - 1] == '\r' then TrimCR(line[..|line| - 1]) else line
  }

  function TrimAll(lines: seq<string>): (r: seq<string>)
    ensures |r| == |lines|
  {
    seq(|lines|, i requires 0 <= i < |lines| => TrimCR(lines[i]))
  }

  // The batch splitter: the newline-terminated lines without trailing CRs, and
  // the text after the last newline.
  function LinesOf(text: string): seq<string> {
    var pieces := Split(text);
    TrimAll(pieces[..|pieces| - 1])
  }

  function RestOf(text: string): string {
    var pieces := Split(text);
    pieces[|pieces| - 1]
  }

  // What the batch split means: the output is its lines, each with the CRs that
  // were trimmed and a newline, followed by the rest; and none of them contains a
  // newline.
  lemma BatchSplit(text: string) returns (raw: seq<string>)
    ensures |raw| == |LinesOf(text)| && NoNewline(RestOf(text))
    ensures forall k :: 0 <= k < |raw| ==>
              && NoNewline(raw[k]) && LinesOf(text)[k] <= raw[k]
              && (LinesOf(text)[k] != "" ==> LinesOf(text)[k][|LinesOf(text)[k]| - 1] != '\r')
              && (forall i :: |LinesOf(text)[k]| <= i < |raw[k]| ==> raw[k][i] == '\r')
    ensures text == Terminated(raw) + RestOf(text)
  {
    var pieces := Split(text);
    raw := pieces[..|pieces| - 1];
    JoinSplit(text);
    JoinTerminates(pieces);
  }

  function Terminated(lines: seq<string>): string {
    if lines == [] then "" else lines[0] + "\n" + Terminated(lines[1..])
  }

  lemma {:induction false} JoinTerminates(pieces: seq<string>)
    requires pieces != []
    ensures Join(pieces) == Terminated(pieces[..|pieces| - 1]) + pieces[|pieces| - 1]
  {
    if |pieces| > 1 {
      JoinTerminates(pieces[1..]);
      var front := pieces[..|pieces| - 1];
      assert front[1..] == pieces[1..][..|pieces| - 2];
      assert pieces[0] + "\n" + (Terminated(front[1..]) + pieces[|pieces| - 1])
             == pieces[0] + "\n" + Terminated(front[1..]) + pieces[|pieces| - 1];
    }
  }

  // Text appended to joined pieces only touches the last piece.
  lemma {:induction false} SplitAppend(pieces: seq<string>, y: string)
    requires |pieces| >= 1 && forall k :: 0 <= k < |pieces| ==> NoNewline(pieces[k])
    ensures Split(Join(pieces) + y) == pieces[..|pieces| - 1] + Split(pieces[|pieces| - 1] + y)
  {
    if |pieces| > 1 {
      var tail := pieces[1..];
      SplitAppend(tail, y);
      assert Join(pieces) + y == pieces[0] + "\n" + (Join(tail) + y);
      SplitAround(pieces[0], Join(tail) + y);
      assert pieces[..|pieces| - 1] == [pieces[0]] + tail[..|tail| - 1];
    }
  }

  lemma SplitContinues(seen: string, p: string)
    ensures var n := |Split(seen)| - 1; Split(seen + p) == Split(seen)[..n] + Split(Split(seen)[n] + p)
  {
    JoinSplit(seen);
    SplitAppend(Split(seen), p);
  }

  lemma TrimAllConcat(x: seq<string>, y: seq<string>)
    ensures TrimAll(x + y) == TrimAll(x) + TrimAll(y)
  {
  }

  lemma AllButLast(x: seq<string>, y: seq<string>)
    requires y != []
    ensures (x + y)[..|x + y| - 1] == x + y[..|y| - 1] && (x + y)[|x + y| - 1] == y[|y| - 1]
  {
  }

  // Splitting what is left over plus the new bytes continues the batch split.
  lemma AppendText(seen: string, p: string)
    ensures LinesOf(seen + p) == LinesOf(seen) + LinesOf(RestOf(seen) + p)
    ensures RestOf(seen + p) == RestOf(RestOf(seen) + p)
  {
    SplitContinues(seen, p);
    var a, b := Split(seen), Split(RestOf(seen) + p);
    AllButLast(a[..|a| - 1], b);
    TrimAllConcat(a[..|a| - 1], b[..|b| - 1]);
  }

  // Taking the first line off.
  lemma TakeLine(text: string, i: nat)
    requires i < |text| && text[i] == '\n' && NoNewline(text[..i])
    ensures LinesOf(text) == [TrimCR(text[..i])] + LinesOf(text[i + 1..])
    ensures RestOf(text) == RestOf(text[i + 1..])
  {
    assert text == text[..i] + "\n" + text[i + 1..];
    SplitAround(text[..i], text[i + 1..]);
    var tail := Split(text[i + 1..]);
    assert Split(text)[..|tail|] == [text[..i]] + tail[..|tail| - 1];
  }

  method BytesIndexByte(b: string, c: char) returns (i: int)
    ensures -1 <= i < |b|
    ensures i >= 0 ==> b[i] == c
    ensures forall k :: 0 <= k < (if i < 0 then |b| else i) ==> b[k] != c
  {
    for k := 0 to |b|
      invariant forall x :: 0 <= x < k ==> b[x] != c
    {
      if b[k] == c {
        return k;
      }
    }
    return -1;
  }

  class Tee {
    var sink: string         // the captured buffer
    var logged: seq<string>  // the lines passed to logf
    var partial: string
    ghost var seen: string   // every byte of a write the sink accepted

    ghost predicate Valid()
      reads this
    {
      logged == LinesOf(seen) && partial == RestOf(seen)
    }

    constructor ()
      ensures Valid() && sink == "" && seen == ""
    {
      sink, logged, partial, seen := "", [], "", "";
    }

    // The loop of Write: log every complete line of `partial`.
    method LogLines()
      modifies this`logged, this`partial
      ensures logged == old(logged) + LinesOf(old(partial))
      ensures partial == RestOf(old(partial))
    {
      while true
        invariant logged + LinesOf(partial) == old(logged) + LinesOf(old(partial))
        invariant RestOf(partial) == RestOf(old(partial))
        decreases |partial|
      {
        var i := BytesIndexByte(partial, '\n');
        if i < 0 {
          SplitNoNewline(partial);
          return;
        }
        TakeLine(partial, i);
        var line := partial[..i];
        partial := partial[i + 1..];
        logged := logged + [TrimCR(line)];
      }
    }

    // The sink takes n bytes of p, and may report an error; then nothing is logged.
    method Write(p: string, n: nat, err: bool)
      requires Valid() && n <= |p| && (!err ==> n == |p|)
      modifies this
      ensures Valid()
      ensures sink == old(sink) + p[..n]
      ensures seen == if err then old(seen) else old(seen) + p
      ensures err ==> logged == old(logged) && partial == old(partial)
    {
      sink := sink + p[..n];
      if err {
        return;
      }
      AppendText(seen, p);
      partial := partial + p;
      seen := seen + p;
      LogLines();
    }
  }

  function Concat(chunks: seq<string>): string {
    if chunks == [] then "" else Concat(chunks[..|chunks| - 1]) + chunks[|chunks| - 1]
  }

  // Any cutting of an output into writes gives the same sink, the same log and
  // the same leftover: those of the whole output.
  method WriteAll(chunks: seq<string>) returns (sink: string, logged: seq<string>, partial: string)
    ensures sink == Concat(chunks)
    ensures logged == LinesOf(Concat(chunks))
    ensures partial == RestOf(Concat(chunks))
  {
    var t := new Tee();
    for k := 0 to |chunks|
      invariant t.Valid() && fresh(t)
      invariant t.seen == t.sink == Concat(chunks[..k])
    {
      t.Write(chunks[k], |chunks[k]|, false);
      assert chunks[k][..|chunks[k]|] == chunks[k];
      assert chunks[..k + 1][..k] == chunks[..k];
    }
    assert chunks[..|chunks|] == chunks;
    return t.sink, t.logged, t.partial;
  }
}
