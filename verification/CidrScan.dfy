// Host enumeration of internal/provider/metal/discovery.go:128-181.
module CidrScan {
  import opened BigEndian
  import opened Wrappers

  // ----- incrementIP

  function Increment(bs: seq<byte>): (r: seq<byte>)
    ensures |r| == |bs|
  {
    if bs == [] then []
    else
      var n := |bs| - 1;
      if bs[n] == 255 then Increment(bs[..n]) + [0] else bs[..n] + [bs[n] + 1]
  }

  // Big-endian +1 modulo 2^(8*len).
  lemma {:induction false} IncrementValue(bs: seq<byte>)
    ensures Value(Increment(bs)) == if Value(bs) + 1 == Span(|bs|) then 0 else Value(bs) + 1
  {
    if bs != [] {
      var n := |bs| - 1;
      SpanSucc(n);
      ValueBound(bs[..n]);
      var r := Increment(bs);
      if bs[n] == 255 {
        IncrementValue(bs[..n]);
        assert r[..n] == Increment(bs[..n]) && r[n] == 0;
      } else {
        assert r[..n] == bs[..n] && r[n] == bs[n] + 1;
      }
    }
  }

  method IncrementIP(ip: array<byte>)
    modifies ip
    ensures ip[..] == Increment(old(ip[..]))
  {
    ghost var was := ip[..];
    var i := ip.Length;
    assert was[..i] == was;
    while i > 0
      invariant 0 <= i <= ip.Length
      invariant ip[..i] == was[..i]
      invariant forall k :: i <= k < ip.Length ==> ip[k] == 0
      invariant Increment(was) == Increment(was[..i]) + ip[i..]
    {
      i := i - 1;
      assert was[..i + 1][..i] == was[..i];
      ip[i] := (ip[i] as int + 1) % 256;
      if ip[i] != 0 {
        assert ip[..] == was[..i] + [ip[i]] + ip[i + 1..];
        return;
      }
      assert ip[i..] == [0] + ip[i + 1..];
    }
    assert ip[..] == ip[0..];
  }

  // ----- net.IPNet.Contains

  // A mask that is not ones followed by zeros has Size() == (0, 0).
  datatype NetMask = Canonical(ones: nat, bits: nat) | Irregular {
    function Bits(): nat { if Canonical? then bits else 0 }
  }

  datatype IPNet = IPNet(ip: seq<byte>, mask: NetMask)

  // What net.ParseCIDR returns: a masked address with a mask of its own length.
  predicate Parsed(net: IPNet) {
    && net.mask.Canonical?
    && (net.mask.bits == 32 || net.mask.bits == 128)
    && net.mask.ones <= net.mask.bits
    && 8 * |net.ip| == net.mask.bits
    && Mask(net.ip, net.mask.ones) == net.ip
  }

  predicate Is4In6(ip: seq<byte>) {
    |ip| == 16 && ip[..12] == [0, 0, 0, 0, 0, 0, 0, 0, 0, 0, 255, 255]
  }

  // ip.To4(), or ip itself when there is no 4-byte form.
  function Shortest(ip: seq<byte>): seq<byte> {
    if Is4In6(ip) then ip[12..] else ip
  }

  predicate Contains(net: IPNet, ip: seq<byte>)
    requires Parsed(net)
  {
    var nn, x := Shortest(net.ip), Shortest(ip);
    var ones := if |nn| == 4 && net.mask.bits == 128 then (if net.mask.ones >= 96 then net.mask.ones - 96 else 0)
                else net.mask.ones;
    |x| == |nn| && Mask(x, ones) == Mask(nn, ones)
  }

  function HostBits(net: IPNet): nat
    requires Parsed(net)
  {
    net.mask.bits - net.mask.ones
  }

  lemma MaskTail(ip: seq<byte>, ones: nat)
    requires |ip| == 16 && ones >= 96
    ensures Mask(ip, ones) == ip[..12] + Mask(ip[12..], ones - 96)
  {
    assert ip == ip[..12] + ip[12..];
    MaskPrefix(ip[..12], ip[12..], ones);
  }

  // For networks small enough to scan, membership is interval membership.
  lemma ContainsIffInInterval(net: IPNet, ip: seq<byte>)
    requires Parsed(net) && |ip| == |net.ip| && HostBits(net) < 16
    ensures Contains(net, ip) <==> Value(net.ip) <= Value(ip) < Value(net.ip) + Pow2(HostBits(net))
  {
    var ones := net.mask.ones;
    SameMaskIffInBlock(net.ip, ip, ones);
    if |ip| == 16 {
      MaskTail(net.ip, ones);
      MaskTail(ip, ones);
      var low, low' := Mask(net.ip[12..], ones - 96), Mask(ip[12..], ones - 96);
      assert net.ip[12..] == Mask(net.ip, ones)[12..] == low;
      assert Mask(ip, ones)[..12] == ip[..12] && Mask(ip, ones)[12..] == low';
      assert net.ip == net.ip[..12] + net.ip[12..];
      assert Mask(ip, ones) == net.ip <==> ip[..12] == net.ip[..12] && low' == low;
    }
  }

  // An IPv4 network contains an IPv4-mapped address exactly when it contains its
  // last four bytes, and no other 16-byte address.
  lemma ContainsMapped(net: IPNet, ip: seq<byte>)
    requires Parsed(net) && net.mask.bits == 32 && |ip| == 16 && HostBits(net) < 16
    ensures Contains(net, ip) <==>
            && ip[..10] == [0, 0, 0, 0, 0, 0, 0, 0, 0, 0] && ip[10] == 255 && ip[11] == 255
            && Value(net.ip) <= Value(ip[12..]) < Value(net.ip) + Pow2(HostBits(net))
  {
    ContainsIffInInterval(net, ip[12..]);
    assert ip[..12] == ip[..10] + [ip[10], ip[11]];
    assert [0, 0, 0, 0, 0, 0, 0, 0, 0, 0, 255, 255][..10] == [0, 0, 0, 0, 0, 0, 0, 0, 0, 0];
  }

  // ----- expandCIDR

  datatype ScanError = InvalidMask | TooLarge

  // `hosts` lists `count` consecutive addresses starting at `first`, in order.
  predicate Consecutive(hosts: seq<seq<byte>>, first: nat, count: nat, len: nat) {
    && |hosts| == count
    && (forall k :: 0 <= k < count ==> |hosts[k]| == len && Value(hosts[k]) == first + k)
  }

  // The comment above expandCIDR promises both addresses of a /31; the code
  // returns neither.
  method ExpandCIDR(net: IPNet) returns (r: Result<seq<seq<byte>>, ScanError>)
    requires net.mask.Canonical? ==> Parsed(net)
    ensures net.mask.Irregular? ==> r == Err(InvalidMask)
    ensures net.mask.Canonical? && HostBits(net) >= 16 ==> r == Err(TooLarge)
    ensures net.mask.Canonical? && HostBits(net) < 16 ==> r.Ok?
    ensures r.Ok? && HostBits(net) == 0 ==> r.value == [net.ip]
    ensures r.Ok? && HostBits(net) > 0 && net.mask.bits == 32 ==>
              Consecutive(r.value, Value(net.ip) + 1, Pow2(HostBits(net)) - 2, 4)
    ensures r.Ok? && HostBits(net) > 0 && net.mask.bits == 128 ==>
              Consecutive(r.value, Value(net.ip) + 1, Pow2(HostBits(net)) - 1, 16)
    ensures net.mask == Canonical(31, 32) ==> r == Ok([])
  {
    if net.mask.Bits() == 0 {
      return Err(InvalidMask);
    }
    var hostBits := net.mask.bits - net.mask.ones;
    if hostBits >= 16 {
      return Err(TooLarge);
    }
    if net.mask.ones == net.mask.bits {
      return Ok([net.ip]);
    }
    var out := WalkHosts(net);
    assert Pow2(1) == 2;
    if net.mask.bits == 32 && |out| > 0 {
      out := out[..|out| - 1];
    }
    return Ok(out);
  }

  // Where the walk stands after appending `done` addresses: cur is the next
  // number, or has wrapped to zero past the last address of the whole family.
  predicate WalkAt(net: IPNet, cur: seq<byte>, done: nat)
    requires Parsed(net)
  {
    && |cur| == |net.ip|
    && Value(cur) == if Value(net.ip) + 1 + done == Span(|net.ip|) then 0 else Value(net.ip) + 1 + done
  }

  // The network address lies so that its block fits, and is not 0 if the block
  // ends at the top of the family.
  lemma BlockFits(net: IPNet)
    requires Parsed(net) && 0 < HostBits(net) < 16
    ensures Pow2(HostBits(net)) >= 2
    ensures Value(net.ip) + Pow2(HostBits(net)) <= Span(|net.ip|)
    ensures Pow2(HostBits(net)) < Span(|net.ip|)
  {
    var h, n := HostBits(net), |net.ip|;
    Pow2Less(0, h);
    Pow2Less(h, 8 * n);
    Pow2Add(8 * n - h, h);
    MaskValue(net.ip, net.mask.ones);
    ValueBound(net.ip);
    var k: int :| Times(Value(net.ip), k, Pow2(h));
    NextMultipleFits(Value(net.ip), k, Pow2(h), Pow2(8 * n - h));
  }

  lemma NextMultipleFits(v: int, k: int, q: int, m: int)
    requires q > 0 && Times(v, k, q) && v < m * q
    ensures v + q <= m * q
  {
    if m <= k {
      MulLe(m, k, q);
    } else {
      MulLe(k + 1, m, q);
    }
  }

  lemma WalkContinues(net: IPNet, cur: seq<byte>, done: nat)
    requires Parsed(net) && 0 < HostBits(net) < 16
    requires WalkAt(net, cur, done) && done <= Pow2(HostBits(net)) - 1
    ensures Contains(net, cur) <==> done < Pow2(HostBits(net)) - 1
    ensures Contains(net, cur) ==> Value(cur) == Value(net.ip) + 1 + done && WalkAt(net, Increment(cur), done + 1)
  {
    BlockFits(net);
    ContainsIffInInterval(net, cur);
    IncrementValue(cur);
  }

  lemma ListNext(hosts: seq<seq<byte>>, first: nat, ip: seq<byte>)
    requires Consecutive(hosts, first, |hosts|, |ip|) && Value(ip) == first + |hosts|
    ensures Consecutive(hosts + [ip], first, |hosts| + 1, |ip|)
  {
  }

  method WalkHosts(net: IPNet) returns (out: seq<seq<byte>>)
    requires Parsed(net) && 0 < HostBits(net) < 16
    ensures Consecutive(out, Value(net.ip) + 1, Pow2(HostBits(net)) - 1, |net.ip|)
  {
    ghost var last := Pow2(HostBits(net)) - 1;
    BlockFits(net);
    var cur := CopyOf(net.ip);
    IncrementIP(cur);
    IncrementValue(net.ip);
    out := [];
    WalkContinues(net, cur[..], 0);
    while Contains(net, cur[..])
      invariant |out| <= last
      invariant Consecutive(out, Value(net.ip) + 1, |out|, |net.ip|)
      invariant WalkAt(net, cur[..], |out|)
      invariant Contains(net, cur[..]) <==> |out| < last
      decreases last - |out|
    {
      WalkContinues(net, cur[..], |out|);
      ListNext(out, Value(net.ip) + 1, cur[..]);
      out := out + [cur[..]];
      IncrementIP(cur);
      WalkContinues(net, cur[..], |out|);
    }
  }
}
