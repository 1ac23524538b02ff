// The text that internal/api/machine/diff.go:88-129 writes, and a reader of that
// text: rendering hunks and reading them back is the identity.
module PatchText {
  import opened EditScript
  import opened Hunks
  import opened TextLines
  import opened Wrappers

  // ----- Writing

  function Digit(d: nat): char
    requires d < 10
  {
    ('0' as int + d) as char
  }

  function Decimal(n: nat): string {
    if n < 10 then [Digit(n)] else Decimal(n / 10) + [Digit(n % 10)]
  }

  function Header(h: Hunk): string {
    "@@ -" + (Decimal(h.aStart) + ("," + (Decimal(h.aCount) +
    (" +" + (Decimal(h.bStart) + ("," + (Decimal(h.bCount) + " @@")))))))
  }

  function Mark(kind: Kind): char {
    match kind
    case Keep => ' '
    case Delete => '-'
    case Insert => '+'
  }

  function OpLine(op: Op): string { [Mark(op.kind)] + op.line }

  function BodyText(body: seq<Op>): string {
    if body == [] then "" else OpLine(body[0]) + "\n" + BodyText(body[1..])
  }

  function HunkText(h: Hunk): string { Header(h) + "\n" + BodyText(h.body) }

  function HunksText(hunks: seq<Hunk>): string {
    if hunks == [] then "" else HunkText(hunks[0]) + HunksText(hunks[1..])
  }

  const CURRENT := "--- current"
  const DESIRED := "+++ desired"

  function Render(hunks: seq<Hunk>): string { CURRENT + "\n" + DESIRED + "\n" + HunksText(hunks) }

  lemma RenderStarts(hunks: seq<Hunk>)
    ensures "--- current\n+++ desired\n" <= Render(hunks)
  {
    assert CURRENT + "\n" + DESIRED + "\n" == "--- current\n+++ desired\n";
  }

  method WriteHunk(h: Hunk) returns (out: string)
    ensures out == HunkText(h)
  {
    out := Header(h) + "\n";
    for idx := 0 to |h.body|
      invariant out + BodyText(h.body[idx..]) == HunkText(h)
    {
      assert h.body[idx..][1..] == h.body[idx + 1..];
      out := out + OpLine(h.body[idx]) + "\n";
    }
  }

  method Write(hunks: seq<Hunk>) returns (out: string)
    ensures out == Render(hunks)
  {
    out := CURRENT + "\n" + DESIRED + "\n";
    for i := 0 to |hunks|
      invariant out + HunksText(hunks[i..]) == Render(hunks)
    {
      assert hunks[i..][1..] == hunks[i + 1..];
      var text := WriteHunk(hunks[i]);
      out := out + text;
    }
  }

  // ----- Reading

  predicate IsDigit(c: char) { '0' <= c <= '9' }

  // Reads leading digits, most significant first.
  function ReadNat(s: string, acc: nat): (nat, string) {
    if s == "" || !IsDigit(s[0]) then (acc, s)
    else ReadNat(s[1..], acc * 10 + (s[0] as int - '0' as int))
  }

  function Strip(prefix: string, s: string): Option<string> {
    if prefix <= s then Some(s[|prefix|..]) else None
  }

  // "N,M" followed by `end`.
  function ReadPair(s: string, end: string): Option<(nat, nat, string)> {
    var (n, s1) := ReadNat(s, 0);
    match Strip(",", s1)
    case None => None
    case Some(s2) =>
      var (m, s3) := ReadNat(s2, 0);
      match Strip(end, s3)
      case None => None
      case Some(s4) => Some((n, m, s4))
  }

  function ReadHeader(s: string): Option<(nat, nat, nat, nat)> {
    match Strip("@@ -", s)
    case None => None
    case Some(s1) =>
      match ReadPair(s1, " +")
      case None => None
      case Some((a, ac, s2)) =>
        match ReadPair(s2, " @@")
        case Some((b, bc, "")) => Some((a, ac, b, bc))
        case _ => None
  }

  // Reads body lines until `old` current lines and `new_` desired lines are seen.
  function ReadBody(lines: seq<string>, old_: nat, new_: nat): (r: Option<(seq<Op>, seq<string>)>)
    ensures r.Some? ==> |r.value.1| <= |lines|
  {
    if old_ == 0 && new_ == 0 then Some(([], lines))
    else if lines == [] || lines[0] == "" then None
    else
      var c, line := lines[0][0], lines[0][1..];
      var step: Option<(Op, nat, nat)> :=
        if c == ' ' && old_ > 0 && new_ > 0 then Some((Op(Keep, line), old_ - 1, new_ - 1))
        else if c == '-' && old_ > 0 then Some((Op(Delete, line), old_ - 1, new_))
        else if c == '+' && new_ > 0 then Some((Op(Insert, line), old_, new_ - 1))
        else None;
      match step
      case None => None
      case Some((op, o, n)) =>
        match ReadBody(lines[1..], o, n)
        case None => None
        case Some((ops, rest)) => Some(([op] + ops, rest))
  }

  function ReadHunks(lines: seq<string>): Option<seq<Hunk>>
    decreases |lines|
  {
    if lines == [] then None
    else if lines == [""] then Some([])
    else
      match ReadHeader(lines[0])
      case None => None
      case Some((a, ac, b, bc)) =>
        match ReadBody(lines[1..], ac, bc)
        case None => None
        case Some((body, rest)) =>
          match ReadHunks(rest)
          case None => None
          case Some(hunks) => Some([Hunk(a, ac, b, bc, body)] + hunks)
  }

  function ReadPatch(text: string): Option<seq<Hunk>> {
    var lines := Split(text);
    if |lines| >= 2 && lines[0] == CURRENT && lines[1] == DESIRED then ReadHunks(lines[2..]) else None
  }

  // `patch`: read the text, then apply it to the current lines.
  function ApplyText(text: string, cur: seq<string>): Option<seq<string>> {
    match ReadPatch(text)
    case None => None
    case Some(hunks) => Patch(cur, 0, 0, hunks)
  }

  // ----- Reading what was written

  lemma {:induction false} ReadDecimal(n: nat, rest: string)
    ensures ReadNat(Decimal(n) + rest, 0) == ReadNat(rest, n)
  {
    if n < 10 {
      ReadDigit(n, rest, 0);
    } else {
      ReadDecimal(n / 10, [Digit(n % 10)] + rest);
      assert Decimal(n) + rest == Decimal(n / 10) + ([Digit(n % 10)] + rest);
      ReadDigit(n % 10, rest, n / 10);
    }
  }

  lemma ReadDigit(d: nat, rest: string, acc: nat)
    requires d < 10
    ensures ReadNat([Digit(d)] + rest, acc) == ReadNat(rest, acc * 10 + d)
  {
    assert ([Digit(d)] + rest)[1..] == rest;
  }

  lemma ReadPairWritten(n: nat, m: nat, end: string, rest: string)
    requires end != "" && !IsDigit(end[0])
    ensures ReadPair(Decimal(n) + ("," + (Decimal(m) + (end + rest))), end) == Some((n, m, rest))
  {
    var tail := Decimal(m) + (end + rest);
    ReadDecimal(n, "," + tail);
    assert ("," + tail)[1..] == tail;
    ReadDecimal(m, end + rest);
    assert (end + rest)[|end|..] == rest;
  }

  lemma ReadHeaderWritten(h: Hunk)
    ensures ReadHeader(Header(h)) == Some((h.aStart, h.aCount, h.bStart, h.bCount))
  {
    var second := Decimal(h.bStart) + ("," + (Decimal(h.bCount) + (" @@" + "")));
    var first := Decimal(h.aStart) + ("," + (Decimal(h.aCount) + (" +" + second)));
    assert Header(h) == "@@ -" + first by {
      assert " @@" + "" == " @@";
    }
    assert ("@@ -" + first)[4..] == first;
    ReadPairWritten(h.aStart, h.aCount, " +", second);
    ReadPairWritten(h.bStart, h.bCount, " @@", "");
  }

  function OpLines(body: seq<Op>): seq<string> {
    if body == [] then [] else [OpLine(body[0])] + OpLines(body[1..])
  }

  lemma ReadOneOp(op: Op, body: seq<Op>, lines: seq<string>, rest: seq<string>)
    requires ReadBody(lines, |OldSide(body)|, |NewSide(body)|) == Some((body, rest))
    ensures ReadBody([OpLine(op)] + lines, |OldSide([op] + body)|, |NewSide([op] + body)|) == Some(([op] + body, rest))
  {
    var all := [op] + body;
    assert all[1..] == body;
    assert ([OpLine(op)] + lines)[1..] == lines && OpLine(op)[1..] == op.line;
  }

  lemma {:induction false} ReadBodyWritten(body: seq<Op>, rest: seq<string>)
    ensures ReadBody(OpLines(body) + rest, |OldSide(body)|, |NewSide(body)|) == Some((body, rest))
  {
    if body == [] {
      assert OpLines(body) + rest == rest;
    } else {
      ReadBodyWritten(body[1..], rest);
      ReadOneOp(body[0], body[1..], OpLines(body[1..]) + rest, rest);
      assert OpLines(body) + rest == [OpLine(body[0])] + (OpLines(body[1..]) + rest);
      assert [body[0]] + body[1..] == body;
    }
  }

  // The lines of the script carry no newline, so the text splits back into them.
  ghost predicate Printable(body: seq<Op>) {
    forall k :: 0 <= k < |body| ==> NoNewline(body[k].line)
  }

  lemma BodyTextThen(body: seq<Op>, rest: string)
    requires body != []
    ensures BodyText(body) + rest == OpLine(body[0]) + "\n" + (BodyText(body[1..]) + rest)
  {
  }

  lemma OpLinesThen(body: seq<Op>, rest: seq<string>)
    requires body != []
    ensures OpLines(body) + rest == [OpLine(body[0])] + (OpLines(body[1..]) + rest)
  {
  }

  lemma PrintableParts(body: seq<Op>)
    requires Printable(body) && body != []
    ensures NoNewline(OpLine(body[0])) && Printable(body[1..])
  {
  }

  lemma {:induction false} SplitBody(body: seq<Op>, rest: string)
    requires Printable(body)
    ensures Split(BodyText(body) + rest) == OpLines(body) + Split(rest)
  {
    if body == [] {
      assert BodyText(body) + rest == rest;
    } else {
      PrintableParts(body);
      SplitBody(body[1..], rest);
      BodyTextThen(body, rest);
      OpLinesThen(body, Split(rest));
      SplitAround(OpLine(body[0]), BodyText(body[1..]) + rest);
    }
  }

  lemma {:induction false} DecimalPrintable(n: nat)
    ensures NoNewline(Decimal(n))
  {
    if n >= 10 {
      DecimalPrintable(n / 10);
    }
  }

  lemma HeaderPrintable(h: Hunk)
    ensures NoNewline(Header(h))
  {
    DecimalPrintable(h.aStart);
    DecimalPrintable(h.aCount);
    DecimalPrintable(h.bStart);
    DecimalPrintable(h.bCount);
  }

  ghost predicate WellFormed(h: Hunk) {
    h.aCount == |OldSide(h.body)| && h.bCount == |NewSide(h.body)| && Printable(h.body)
  }

  lemma ReadOneHunk(h: Hunk, rest: seq<string>)
    requires WellFormed(h) && ReadHunks(rest).Some?
    ensures ReadHunks([Header(h)] + (OpLines(h.body) + rest)) == Some([h] + ReadHunks(rest).value)
  {
    var lines := [Header(h)] + (OpLines(h.body) + rest);
    assert lines[0] == Header(h) && lines[1..] == OpLines(h.body) + rest;
    ReadHeaderWritten(h);
    ReadBodyWritten(h.body, rest);
    assert Header(h)[0] == '@';
  }

  lemma SplitHunk(h: Hunk, rest: string)
    requires WellFormed(h)
    ensures Split(HunkText(h) + rest) == [Header(h)] + (OpLines(h.body) + Split(rest))
  {
    HeaderPrintable(h);
    assert HunkText(h) + rest == Header(h) + "\n" + (BodyText(h.body) + rest);
    SplitAround(Header(h), BodyText(h.body) + rest);
    SplitBody(h.body, rest);
  }

  lemma {:induction false} ReadHunksWritten(hunks: seq<Hunk>)
    requires forall i :: 0 <= i < |hunks| ==> WellFormed(hunks[i])
    ensures ReadHunks(Split(HunksText(hunks))) == Some(hunks)
  {
    if hunks != [] {
      ReadHunksWritten(hunks[1..]);
      SplitHunk(hunks[0], HunksText(hunks[1..]));
      ReadOneHunk(hunks[0], Split(HunksText(hunks[1..])));
      assert [hunks[0]] + hunks[1..] == hunks;
    }
  }

  lemma SplitTwo(x: string, y: string, text: string)
    requires NoNewline(x) && NoNewline(y)
    ensures Split(x + "\n" + y + "\n" + text) == [x, y] + Split(text)
  {
    assert x + "\n" + y + "\n" + text == x + "\n" + (y + "\n" + text);
    SplitAround(x, y + "\n" + text);
    SplitAround(y, text);
  }

  lemma ReadWritten(hunks: seq<Hunk>)
    requires forall i :: 0 <= i < |hunks| ==> WellFormed(hunks[i])
    ensures ReadPatch(Render(hunks)) == Some(hunks)
  {
    var text := HunksText(hunks);
    SplitTwo(CURRENT, DESIRED, text);
    var lines := Split(Render(hunks));
    assert lines[0] == CURRENT && lines[1] == DESIRED && lines[2..] == Split(text);
    ReadHunksWritten(hunks);
  }
}
