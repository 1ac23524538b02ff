// Byte strings as big-endian numbers, and contiguous network masks on them.
module BigEndian {

  type byte = b: int | 0 <= b < 256

  function Pow2(n: nat): (r: nat)
    ensures r >= 1
  {
    if n == 0 then 1 else 2 * Pow2(n - 1)
  }

  lemma {:induction false} Pow2Add(m: nat, n: nat)
    ensures Pow2(m + n) == Pow2(m) * Pow2(n)
  {
    if m > 0 {
      Pow2Add(m - 1, n);
      assert Pow2(m + n) == 2 * Pow2(m - 1 + n);
    }
  }

  lemma {:induction false} Pow2Less(m: nat, n: nat)
    requires m < n
    ensures 2 * Pow2(m) <= Pow2(n)
  {
    if m < n - 1 {
      Pow2Less(m, n - 1);
    }
  }

  lemma Pow2Byte()
    ensures Pow2(8) == 256
  {
    assert Pow2(4) == 16;
    Pow2Add(4, 4);
  }

  lemma Pow2Small()
    ensures Pow2(0) == 1 && Pow2(1) == 2 && Pow2(2) == 4 && Pow2(3) == 8 && Pow2(4) == 16
    ensures Pow2(5) == 32 && Pow2(6) == 64 && Pow2(7) == 128 && Pow2(8) == 256
  {
    assert Pow2(4) == 16;
    assert Pow2(5) == 2 * Pow2(4);
    assert Pow2(6) == 2 * Pow2(5);
    assert Pow2(7) == 2 * Pow2(6);
    Pow2Byte();
  }

  lemma Pow2Word()
    ensures Pow2(16) == 65536
  {
    Pow2Byte();
    Pow2Add(8, 8);
  }

  // The number of values n bytes can hold.
  function Span(n: nat): (r: nat)
    ensures r >= 1
  {
    Pow2(8 * n)
  }

  lemma SpanSucc(n: nat)
    ensures Span(n + 1) == 256 * Span(n)
  {
    Pow2Byte();
    Pow2Add(8, 8 * n);
  }

  function Value(bs: seq<byte>): nat {
    if bs == [] then 0 else Value(bs[..|bs| - 1]) * 256 + bs[|bs| - 1]
  }

  lemma {:induction false} ValueBound(bs: seq<byte>)
    ensures Value(bs) < Span(|bs|)
  {
    if bs != [] {
      ValueBound(bs[..|bs| - 1]);
      SpanSucc(|bs| - 1);
    }
  }

  lemma ShiftIn(x: int, s: int, y: int, b: int)
    ensures (x * s + y) * 256 + b == x * (256 * s) + (y * 256 + b)
  {
    assert x * s * 256 == x * (256 * s);
  }

  lemma {:induction false} ValueConcat(x: seq<byte>, y: seq<byte>)
    ensures Value(x + y) == Value(x) * Span(|y|) + Value(y)
  {
    if y == [] {
      assert x + y == x;
    } else {
      var n := |y| - 1;
      assert (x + y)[..|x + y| - 1] == x + y[..n];
      ValueConcat(x, y[..n]);
      SpanSucc(n);
      ShiftIn(Value(x), Span(n), Value(y[..n]), y[n]);
    }
  }

  lemma LastByte(p: int, q: int, b: int, c: int)
    requires 0 <= b < 256 && 0 <= c < 256 && p * 256 + b == q * 256 + c
    ensures p == q && b == c
  {
  }

  lemma {:induction false} ValueInjective(x: seq<byte>, y: seq<byte>)
    requires |x| == |y| && Value(x) == Value(y)
    ensures x == y
  {
    if x != [] {
      var n := |x| - 1;
      LastByte(Value(x[..n]), Value(y[..n]), x[n], y[n]);
      ValueInjective(x[..n], y[..n]);
      assert x == x[..n] + [x[n]] && y == y[..n] + [y[n]];
    }
  }

  lemma {:induction false} ValueZeros(bs: seq<byte>)
    requires forall k :: 0 <= k < |bs| ==> bs[k] == 0
    ensures Value(bs) == 0
  {
    if bs != [] {
      ValueZeros(bs[..|bs| - 1]);
    }
  }

  // ----- Masks

  // 256 >> keep: the values a byte can take below `keep` fixed leading bits.
  function ByteHosts(keep: nat): (r: nat)
    requires keep <= 8
    ensures 1 <= r <= 256
  {
    match keep
    case 0 => 256
    case 1 => 128
    case 2 => 64
    case 3 => 32
    case 4 => 16
    case 5 => 8
    case 6 => 4
    case 7 => 2
    case _ => 1
  }

  // b & mask, where the mask byte has `keep` leading ones.
  function MaskByte(b: byte, keep: nat): byte
    requires keep <= 8
  {
    RemainderAtMost(b, ByteHosts(keep));
    b - b % ByteHosts(keep)
  }

  // bs & CIDRMask(ones, 8*len(bs)), byte by byte.
  function Mask(bs: seq<byte>, ones: nat): (r: seq<byte>)
    ensures |r| == |bs|
  {
    if bs == [] then []
    else if ones >= 8 then [bs[0]] + Mask(bs[1..], ones - 8)
    else [MaskByte(bs[0], ones)] + Mask(bs[1..], 0)
  }

  // ----- Division facts used below, on plain numbers

  lemma MulGe(d: int, m: int)
    requires d >= 1 && m >= 0
    ensures d * m >= m
  {
    assert (d - 1) * m >= 0;
  }

  lemma MulLe(a: int, b: int, q: int)
    requires a <= b && q >= 0
    ensures a * q <= b * q
  {
    assert (b - a) * q >= 0;
  }

  lemma RemainderAtMost(x: nat, m: nat)
    requires m > 0
    ensures x % m <= x
  {
    var k := x / m;
    assert x == k * m + x % m;
    assert k * m >= 0;
  }

  lemma ModUnique(x: nat, m: nat, k: int, r: nat)
    requires m > 0 && r < m && x == k * m + r
    ensures x % m == r && x / m == k
  {
    var j := x / m;
    assert x == j * m + x % m;
    assert (j - k) * m == r - x % m && (k - j) * m == x % m - r;
    if j > k {
      MulGe(j - k, m);
    } else if j < k {
      MulGe(k - j, m);
    }
  }

  // ----- Aligned blocks

  predicate Times(base: int, k: int, q: int) { base == k * q }

  // base is a multiple of q, and x is in the block of q numbers from base.
  ghost predicate InBlock(x: int, base: int, q: int) {
    base <= x < base + q && exists k: int :: Times(base, k, q)
  }

  lemma BlockUnique(x: int, base: int, base': int, q: int)
    requires q > 0 && InBlock(x, base, q) && InBlock(x, base', q)
    ensures base == base'
  {
    var k: int :| Times(base, k, q);
    var k': int :| Times(base', k', q);
    assert (k - k') * q == base - base' && (k' - k) * q == base' - base;
    if k > k' {
      MulGe(k - k', q);
    } else if k < k' {
      MulGe(k' - k, q);
    }
  }

  lemma BlockBelow(b: int, p: int, q: int, v: int, base: int)
    requires InBlock(v, base, q)
    ensures InBlock(b * (p * q) + v, b * (p * q) + base, q)
  {
    var k: int :| Times(base, k, q);
    assert b * (p * q) + base == (b * p + k) * q by {
      assert b * (p * q) == b * p * q;
      assert (b * p + k) * q == b * p * q + k * q;
    }
    assert Times(b * (p * q) + base, b * p + k, q);
  }

  lemma BlockAbove(b: int, base: int, p: int, s: int, v: int)
    requires InBlock(b, base, p) && 0 <= v < s
    ensures InBlock(b * s + v, base * s, p * s)
  {
    var k: int :| Times(base, k, p);
    assert base * s == k * (p * s) by {
      assert k * p * s == k * (p * s);
    }
    assert Times(base * s, k, p * s);
    MulGe(base + p - b, s);
    assert (base + p - b) * s == base * s + p * s - b * s;
    assert (b - base) * s >= 0 && (b - base) * s == b * s - base * s;
  }

  lemma MaskByteBlock(b: byte, keep: nat)
    requires keep <= 8
    ensures InBlock(b, MaskByte(b, keep), Pow2(8 - keep))
  {
    var p := ByteHosts(keep);
    Pow2Small();
    assert b == (b / p) * p + b % p;
    assert Times(MaskByte(b, keep), b / p, p);
  }

  // One more leading byte moves a block by a multiple of its size.
  lemma PrependSame(b: byte, rest: seq<byte>, base: seq<byte>, p: nat, q: nat)
    requires |base| == |rest| && Span(|rest|) == p * q && InBlock(Value(rest), Value(base), q)
    ensures InBlock(Value([b] + rest), Value([b] + base), q)
  {
    assert Value([b]) == b;
    ValueConcat([b], rest);
    ValueConcat([b], base);
    BlockBelow(b, p, q, Value(rest), Value(base));
  }

  lemma MaskValueBelow(b: byte, rest: seq<byte>, ones: nat)
    requires 8 <= ones <= 8 * (|rest| + 1)
    requires InBlock(Value(rest), Value(Mask(rest, ones - 8)), Pow2(8 * |rest| - (ones - 8)))
    ensures InBlock(Value([b] + rest), Value([b] + Mask(rest, ones - 8)), Pow2(8 * |rest| - (ones - 8)))
  {
    Pow2Add(ones - 8, 8 * |rest| - (ones - 8));
    PrependSame(b, rest, Mask(rest, ones - 8), Pow2(ones - 8), Pow2(8 * |rest| - (ones - 8)));
  }

  lemma PrependBlock(b: byte, m: byte, rest: seq<byte>, zeros: seq<byte>, p: nat)
    requires InBlock(b, m, p) && |zeros| == |rest| && Value(zeros) == 0
    ensures InBlock(Value([b] + rest), Value([m] + zeros), p * Span(|rest|))
  {
    assert Value([b]) == b && Value([m]) == m;
    ValueConcat([b], rest);
    ValueConcat([m], zeros);
    ValueBound(rest);
    BlockAbove(b, m, p, Span(|rest|), Value(rest));
  }

  lemma MaskValueAbove(b: byte, m: byte, rest: seq<byte>, ones: nat)
    requires ones < 8 && InBlock(b, m, Pow2(8 - ones))
    ensures InBlock(Value([b] + rest), Value([m] + Mask(rest, 0)), Pow2(8 * (|rest| + 1) - ones))
  {
    MaskAll(rest);
    Pow2Add(8 - ones, 8 * |rest|);
    PrependBlock(b, m, rest, Mask(rest, 0), Pow2(8 - ones));
  }

  // Masking moves an address to the start of its block of 2^(host bits) numbers.
  lemma {:induction false} MaskValue(bs: seq<byte>, ones: nat)
    requires ones <= 8 * |bs|
    ensures InBlock(Value(bs), Value(Mask(bs, ones)), Pow2(8 * |bs| - ones))
  {
    if bs == [] {
      assert Times(0, 0, Pow2(0));
    } else {
      assert bs == [bs[0]] + bs[1..];
      if ones >= 8 {
        MaskValue(bs[1..], ones - 8);
        MaskValueBelow(bs[0], bs[1..], ones);
      } else {
        MaskByteBlock(bs[0], ones);
        MaskValueAbove(bs[0], MaskByte(bs[0], ones), bs[1..], ones);
      }
    }
  }

  lemma MaskAll(bs: seq<byte>)
    ensures Value(Mask(bs, 0)) == 0
  {
    forall k | 0 <= k < |bs| ensures Mask(bs, 0)[k] == 0 {
      MaskZeroTail(bs, 0, k);
    }
    ValueZeros(Mask(bs, 0));
  }

  lemma SameBlockIff(base: int, x: int, base': int, q: int)
    requires q > 0 && InBlock(base, base, q) && InBlock(x, base', q)
    ensures base' == base <==> base <= x < base + q
  {
    if base <= x < base + q {
      BlockUnique(x, base, base', q);
    }
  }

  // Equal masked bytes means: in the block of 2^(host bits) numbers that starts
  // at the network address.
  lemma SameMaskIffInBlock(net: seq<byte>, ip: seq<byte>, ones: nat)
    requires |net| == |ip| && ones <= 8 * |net| && Mask(net, ones) == net
    ensures Mask(ip, ones) == net <==> Value(net) <= Value(ip) < Value(net) + Pow2(8 * |net| - ones)
  {
    MaskValue(net, ones);
    MaskValue(ip, ones);
    SameBlockIff(Value(net), Value(ip), Value(Mask(ip, ones)), Pow2(8 * |net| - ones));
    if Value(Mask(ip, ones)) == Value(net) {
      ValueInjective(Mask(ip, ones), net);
    }
  }

  lemma {:induction false} MaskPrefix(x: seq<byte>, y: seq<byte>, ones: nat)
    requires ones >= 8 * |x|
    ensures Mask(x + y, ones) == x + Mask(y, ones - 8 * |x|)
  {
    if x == [] {
      assert x + y == y;
    } else {
      assert (x + y)[1..] == x[1..] + y;
      MaskPrefix(x[1..], y, ones - 8);
      assert Mask(x + y, ones) == [x[0]] + Mask(x[1..] + y, ones - 8);
    }
  }

  lemma {:induction false} MaskZeroTail(bs: seq<byte>, ones: nat, k: nat)
    requires ones <= 8 * k && k < |bs|
    ensures Mask(bs, ones)[k] == 0
  {
    Pow2Byte();
    if k > 0 {
      MaskZeroTail(bs[1..], if ones >= 8 then ones - 8 else 0, k - 1);
    }
  }

  // The byte array the in-place code works on.
  method CopyOf(ip: seq<byte>) returns (a: array<byte>)
    ensures fresh(a) && a[..] == ip
  {
    a := new byte[|ip|](i requires 0 <= i < |ip| => ip[i]);
  }
}
