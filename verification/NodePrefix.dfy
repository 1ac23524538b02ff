// The per-node /64 of the management link: `prefixNth` of
// internal/mgmtlink/store.go and `prefixNthAddr` of internal/mgmtlink/server.go.
// An address is its 16 bytes; bytes 6 and 7 are the subnet ID of section 3.1 of
// RFC 4193.
module NodePrefix {
  import opened BigEndian
  import opened Wrappers

  type Address = bs: seq<byte> | |bs| == 16 witness [0, 0, 0, 0, 0, 0, 0, 0, 0, 0, 0, 0, 0, 0, 0, 0]

  type Index = n: int | 0 <= n < 65536

  // The n-th /64: the masked prefix with its subnet ID overwritten.
  function Nth(prefix: Address, bits: nat, n: Index): Address {
    Mask(prefix, bits)[6 := n / 256][7 := n % 256]
  }

  function NthAddr(prefix: Address, bits: nat, n: Index, last: byte): Address {
    Nth(prefix, bits, n)[15 := last]
  }

  datatype PrefixError = NotShorterThan64

  method PrefixNth(prefix: Address, bits: nat, n: Index) returns (r: Result<Address, PrefixError>)
    requires bits <= 128
    ensures bits >= 64 ==> r == Err(NotShorterThan64)
    ensures bits < 64 ==> r == Ok(Nth(prefix, bits, n))
  {
    if bits >= 64 {
      return Err(NotShorterThan64);
    }
    var base := CopyOf(Mask(prefix, bits));
    base[6] := n / 256;
    base[7] := n % 256;
    return Ok(base[..]);
  }

  method PrefixNthAddr(prefix: Address, bits: nat, n: Index, last: byte) returns (r: Address)
    requires bits <= 128
    ensures r == NthAddr(prefix, bits, n, last)
  {
    var b := CopyOf(Mask(prefix, bits));
    b[6] := n / 256;
    b[7] := n % 256;
    b[15] := last;
    return b[..];
  }

  // ----- The number of a /64: its upper eight bytes

  function SubnetId(a: Address): nat { a[6] as int * 256 + a[7] as int }

  // An address whose lower half is zero is its /64 number times 2^64.
  lemma UpperHalf(a: Address)
    requires forall k :: 8 <= k < 16 ==> a[k] == 0
    ensures Value(a) == Value(a[..8]) * Span(8)
  {
    assert a == a[..8] + a[8..];
    ValueConcat(a[..8], a[8..]);
    ValueZeros(a[8..]);
  }

  lemma UpperHalfSplits(a: Address)
    ensures Value(a[..8]) == Value(a[..6]) * 65536 + SubnetId(a)
  {
    assert a[..8][..7] == a[..7] && a[..7][..6] == a[..6];
  }

  lemma LowerHalfZero(prefix: Address, bits: nat, k: nat)
    requires bits < 64 && 8 <= k < 16
    ensures Mask(prefix, bits)[k] == 0
  {
    MaskZeroTail(prefix, bits, k);
  }

  // Where the base and the n-th prefix lie, in units of 2^64.
  lemma Layout(prefix: Address, bits: nat, n: Index) returns (high: nat)
    requires bits < 64
    ensures Value(Mask(prefix, bits)) == (high + SubnetId(Mask(prefix, bits))) * Span(8)
    ensures Value(Nth(prefix, bits, n)) == (high + n) * Span(8)
  {
    var base, node := Mask(prefix, bits), Nth(prefix, bits, n);
    forall k | 8 <= k < 16 ensures base[k] == 0 && node[k] == 0 {
      LowerHalfZero(prefix, bits, k);
    }
    UpperHalf(base);
    UpperHalf(node);
    UpperHalfSplits(base);
    UpperHalfSplits(node);
    assert node[..6] == base[..6];
    assert SubnetId(node) == n;
    high := Value(base[..6]) * 65536;
  }

  lemma ScaleInterval(v: int, w: int, r: int, a: int, x: int, q: int, s: int)
    requires s > 0 && v == a * s && w == x * s && r == q * s
    ensures v <= w < v + r <==> a <= x < a + q
  {
    if a <= x {
      MulLe(a, x, s);
    } else {
      MulLe(x + 1, a, s);
    }
    assert (a + q) * s == v + r;
    if x < a + q {
      MulLe(x + 1, a + q, s);
    } else {
      MulLe(a + q, x, s);
    }
  }

  lemma BaseBlock(prefix: Address, bits: nat, ip: Address)
    requires bits < 64
    ensures var base := Mask(prefix, bits);
            Mask(ip, bits) == base <==> Value(base) <= Value(ip) < Value(base) + Pow2(128 - bits)
  {
    var base := Mask(prefix, bits);
    MaskTwice(prefix, bits);
    SameMaskIffInBlock(base, ip, bits);
  }

  // The n-th /64 lies inside the configured prefix exactly when n is one of the
  // 2^(64-bits) subnet IDs that start at the base's own.
  lemma InsideIff(prefix: Address, bits: nat, n: Index)
    requires bits < 64
    ensures
      var base := Mask(prefix, bits);
      Mask(Nth(prefix, bits, n), bits) == base <==> SubnetId(base) <= n < SubnetId(base) + Pow2(64 - bits)
  {
    var base, node := Mask(prefix, bits), Nth(prefix, bits, n);
    var high := Layout(prefix, bits, n);
    BaseBlock(prefix, bits, node);
    Pow2Add(64 - bits, 64);
    ScaleInterval(Value(base), Value(node), Pow2(128 - bits),
                  high + SubnetId(base), high + n, Pow2(64 - bits), Span(8));
  }

  lemma {:induction false} MaskTwice(bs: seq<byte>, ones: nat)
    ensures Mask(Mask(bs, ones), ones) == Mask(bs, ones)
  {
    if bs != [] {
      if ones >= 8 {
        MaskTwice(bs[1..], ones - 8);
      } else {
        MaskTwice(bs[1..], 0);
        MaskByteTwice(bs[0], ones);
      }
    }
  }

  lemma MaskByteTwice(b: byte, keep: nat)
    requires keep <= 8
    ensures MaskByte(MaskByte(b, keep), keep) == MaskByte(b, keep)
  {
    var p := ByteHosts(keep);
    ModUnique(b - b % p, p, b / p, 0);
  }

  lemma Distribute(a: int, b: int, s: int)
    ensures (a + b) * s == a * s + b * s
  {
  }

  lemma EveryIdFits(bits: nat)
    requires bits <= 48
    ensures Pow2(64 - bits) >= 65536
  {
    Pow2Word();
    if bits < 48 {
      Pow2Less(16, 64 - bits);
    }
  }

  // For prefixes up to /48: the n-th prefix is the base plus n*2^64 and inside
  // the configured prefix, for every n.
  lemma NthInside48(prefix: Address, bits: nat, n: Index)
    requires bits <= 48
    ensures Value(Nth(prefix, bits, n)) == Value(Mask(prefix, bits)) + n * Span(8)
    ensures Mask(Nth(prefix, bits, n), bits) == Mask(prefix, bits)
  {
    MaskZeroTail(prefix, bits, 6);
    MaskZeroTail(prefix, bits, 7);
    var high := Layout(prefix, bits, n);
    assert high + SubnetId(Mask(prefix, bits)) == high;
    Distribute(high, n, Span(8));
    InsideIff(prefix, bits, n);
    EveryIdFits(bits);
  }

  // For every accepted length: different indices give different /64s, and no
  // address belongs to two of them.
  lemma NthInjective(prefix: Address, bits: nat, n: Index, m: Index)
    requires Nth(prefix, bits, n) == Nth(prefix, bits, m)
    ensures n == m
  {
    var x, y := Nth(prefix, bits, n), Nth(prefix, bits, m);
    assert x[6] == n / 256 && x[7] == n % 256 && y[6] == m / 256 && y[7] == m % 256;
  }

  lemma NodesDisjoint(prefix: Address, bits: nat, n: Index, m: Index, ip: Address)
    requires bits < 64 && n != m && Mask(ip, 64) == Nth(prefix, bits, n)
    ensures Mask(ip, 64) != Nth(prefix, bits, m)
  {
    if Nth(prefix, bits, n) == Nth(prefix, bits, m) {
      NthInjective(prefix, bits, n, m);
    }
  }

  // The server's own address lies in the 0-th /64, which no node ever gets.
  lemma ServerOutsideNodes(prefix: Address, bits: nat, n: Index)
    requires bits < 64 && n != 0
    ensures Mask(NthAddr(prefix, bits, 0, 1), 64) == Nth(prefix, bits, 0)
    ensures Mask(NthAddr(prefix, bits, 0, 1), 64) != Nth(prefix, bits, n)
  {
    var server, zero := NthAddr(prefix, bits, 0, 1), Nth(prefix, bits, 0);
    assert server == zero[..8] + server[8..];
    MaskPrefix(zero[..8], server[8..], 64);
    forall k | 8 <= k < 16 ensures Mask(server, 64)[k] == zero[k] {
      MaskZeroTail(server, 64, k);
      LowerHalfZero(prefix, bits, k);
    }
    assert Mask(server, 64) == zero;
    NodesDisjoint(prefix, bits, 0, n, server);
  }

  lemma LastByteSet(a: Address, last: byte)
    requires a[15] == 0
    ensures Value(a[15 := last]) == Value(a) + last
  {
    assert a[15 := last][..15] == a[..15];
  }

  // prefixNthAddr adds the last byte to the address of the n-th /64.
  lemma NthAddrValue(prefix: Address, bits: nat, n: Index, last: byte)
    requires bits < 64
    ensures Value(NthAddr(prefix, bits, n, last)) == Value(Nth(prefix, bits, n)) + last
  {
    LowerHalfZero(prefix, bits, 15);
    LastByteSet(Nth(prefix, bits, n), last);
  }

  // Up to /48 the server's own address is the masked base plus one.
  lemma ServerAddress(prefix: Address, bits: nat)
    requires bits <= 48
    ensures Value(NthAddr(prefix, bits, 0, 1)) == Value(Mask(prefix, bits)) + 1
  {
    NthAddrValue(prefix, bits, 0, 1);
    NthInside48(prefix, bits, 0);
  }

  // Between /49 and /63, which validation also accepts, the inside property is
  // lost: fd00::/56 and the 256th node.
  lemma NthEscapesLongPrefix()
    ensures exists prefix: Address, n: Index :: Mask(Nth(prefix, 56, n), 56) != Mask(prefix, 56)
  {
    var prefix: Address := [253, 0, 0, 0, 0, 0, 0, 0, 0, 0, 0, 0, 0, 0, 0, 0];
    MaskFirst(prefix);
    MaskZeroTail(prefix, 56, 7);
    Pow2Byte();
    InsideIff(prefix, 56, 256);
  }

  lemma MaskFirst(prefix: Address)
    requires prefix[6] == 0
    ensures Mask(prefix, 56)[6] == 0
  {
    assert prefix == prefix[..7] + prefix[7..];
    MaskPrefix(prefix[..7], prefix[7..], 56);
  }
}
