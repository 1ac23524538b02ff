// Byte-wise string order, and strictly sorted listings.
module Strings {

  predicate Less(a: string, b: string) {
    b != "" && (a == "" || a[0] < b[0] || (a[0] == b[0] && Less(a[1..], b[1..])))
  }

  lemma {:induction false} LessTransitive(a: string, b: string, c: string)
    requires Less(a, b) && Less(b, c)
    ensures Less(a, c)
  {
    if a != "" && a[0] == b[0] && b[0] == c[0] {
      LessTransitive(a[1..], b[1..], c[1..]);
    }
  }

  lemma {:induction false} LessTotal(a: string, b: string)
    ensures a != b ==> Less(a, b) || Less(b, a)
    ensures !(Less(a, b) && Less(b, a)) && !Less(a, a)
  {
    if a != "" && b != "" {
      LessTotal(a[1..], b[1..]);
      LessTotal(a[1..], a[1..]);
      if a[0] == b[0] && a != b {
        assert a == [a[0]] + a[1..] && b == [b[0]] + b[1..];
      }
    } else if a != "" {
      LessTotal(a[1..], a[1..]);
    }
  }

  // The first differing character decides, and a proper prefix comes first.
  lemma {:induction false} LessAt(a: string, b: string, i: nat)
    requires i <= |a| && i <= |b| && a[..i] == b[..i]
    ensures i < |a| && i < |b| && a[i] < b[i] ==> Less(a, b) && !Less(b, a)
    ensures i == |a| < |b| ==> Less(a, b) && !Less(b, a)
  {
    if i > 0 {
      assert a[0] == a[..i][0] && b[0] == b[..i][0];
      assert a[1..][..i - 1] == a[..i][1..] && b[1..][..i - 1] == b[..i][1..];
      LessAt(a[1..], b[1..], i - 1);
    }
  }

  ghost predicate StrictlySorted(names: seq<string>) {
    forall i, j :: 0 <= i < j < |names| ==> Less(names[i], names[j])
  }

  lemma HeadMember(x: seq<string>)
    ensures x != [] ==> x[0] in x
  {
  }

  // A strictly sorted listing is determined by the set of its members.
  lemma {:induction false} SortedUnique(x: seq<string>, y: seq<string>)
    requires StrictlySorted(x) && StrictlySorted(y)
    requires forall n :: n in x <==> n in y
    ensures x == y
  {
    HeadMember(x);
    HeadMember(y);
    if x != [] {
      FirstIsLeast(x, y[0]);
      FirstIsLeast(y, x[0]);
      LessTotal(x[0], y[0]);
      forall n ensures n in x[1..] <==> n in y[1..] {
        TailMember(x, n);
        TailMember(y, n);
      }
      SortedUnique(x[1..], y[1..]);
      assert x == [x[0]] + x[1..] && y == [y[0]] + y[1..];
    }
  }

  lemma FirstIsLeast(x: seq<string>, n: string)
    requires StrictlySorted(x) && n in x
    ensures x[0] == n || Less(x[0], n)
  {
  }

  lemma TailMember(x: seq<string>, n: string)
    requires StrictlySorted(x) && x != []
    ensures n in x[1..] <==> n in x && n != x[0]
  {
    LessTotal(x[0], x[0]);
    if n in x[1..] {
      var k :| 0 <= k < |x[1..]| && x[1..][k] == n;
      assert Less(x[0], x[k + 1]);
    }
    if n in x && n != x[0] {
      var k :| 0 <= k < |x| && x[k] == n;
      assert x[1..][k - 1] == n;
    }
  }
}
