/** Package `dohttp`'s two pure helpers: the 2xx status test, and the public-address
    test over Go's `net.IP` (a 4-byte IPv4 address or a 16-byte IPv6 address, IPv4 held
    in IPv6 as `::ffff:a.b.c.d`). */
module DoHttp {
  import opened Wrappers
  import opened Streams

  /** `CheckCode`: a status in 200..299. */
  predicate CheckCode(code: int)
  {
    200 <= code <= 299
  }

  /** `net.IP.To4`: the 4-byte form of an IPv4 address, for either representation. */
  function To4(ip: Bytes): (r: Option<Bytes>)
    ensures r.Some? ==> |r.value| == 4
    ensures |ip| == 4 ==> r == Some(ip)
    ensures |ip| != 4 && |ip| != 16 ==> r.None?
  {
    if |ip| == 4 then Some(ip)
    else if |ip| == 16 && (forall k :: 0 <= k < 10 ==> ip[k] == 0) && ip[10] == 0xff && ip[11] == 0xff
    then Some(ip[12..])
    else None
  }

  /** The IPv6 loopback address `::1`. */
  const IPv6Loopback: Bytes := [0, 0, 0, 0, 0, 0, 0, 0, 0, 0, 0, 0, 0, 0, 0, 1]

  predicate IsLoopback(ip: Bytes)
  {
    match To4(ip)
    case Some(v) => v[0] == 127
    case None => ip == IPv6Loopback
  }

  predicate IsLinkLocalMulticast(ip: Bytes)
  {
    match To4(ip)
    case Some(v) => v[0] == 224 && v[1] == 0 && v[2] == 0
    case None => |ip| == 16 && ip[0] == 0xff && ip[1] % 16 == 2
  }

  predicate IsLinkLocalUnicast(ip: Bytes)
  {
    match To4(ip)
    case Some(v) => v[0] == 169 && v[1] == 254
    case None => |ip| == 16 && ip[0] == 0xfe && ip[1] / 64 == 2
  }

  /** `IsPublicIP`: not loopback or link-local, and an IPv4 address outside the three
      private blocks. */
  predicate IsPublicIP(ip: Bytes)
  {
    if IsLoopback(ip) || IsLinkLocalMulticast(ip) || IsLinkLocalUnicast(ip) then false
    else match To4(ip)
      case Some(v) =>
        if v[0] == 10 then false
        else if v[0] == 172 && v[1] >= 16 && v[1] <= 31 then false
        else if v[0] == 192 && v[1] == 168 then false
        else true
      case None => false
  }

  /** The address as a 32-bit number, most significant octet first. */
  function Addr32(v: Bytes): (a: nat)
    requires |v| == 4
    ensures a < 0x1_0000_0000
  {
    ((v[0] as int * 256 + v[1] as int) * 256 + v[2] as int) * 256 + v[3] as int
  }

  /** `v` lies in the CIDR block `base/len`: between the block's first address and the
      first address past it. */
  predicate InBlock(v: Bytes, base: Bytes, len: nat)
    requires |v| == 4 && |base| == 4 && len <= 32
  {
    Addr32(base) <= Addr32(v) < Addr32(base) + Pow2(32 - len)
  }

  function Pow2(k: nat): (p: nat)
    ensures p >= 1
  {
    if k == 0 then 1 else 2 * Pow2(k - 1)
  }

  /** The IPv4 blocks `IsPublicIP` rejects: 127.0.0.0/8 (loopback), 224.0.0.0/24 (local
      network control), 169.254.0.0/16 (link-local), and the three private blocks of
      section 3 of RFC 1918: 10.0.0.0/8, 172.16.0.0/12 and 192.168.0.0/16. */
  predicate InRejectedBlock(v: Bytes)
    requires |v| == 4
  {
    InBlock(v, [127, 0, 0, 0], 8) || InBlock(v, [224, 0, 0, 0], 24) || InBlock(v, [169, 254, 0, 0], 16)
    || InBlock(v, [10, 0, 0, 0], 8) || InBlock(v, [172, 16, 0, 0], 12) || InBlock(v, [192, 168, 0, 0], 16)
  }

  lemma Pow2Values()
    ensures Pow2(8) == 0x100 && Pow2(16) == 0x1_0000 && Pow2(20) == 0x10_0000 && Pow2(24) == 0x100_0000
  {
    assert Pow2(4) == 16;
    assert Pow2(8) == 256;
    assert Pow2(12) == 4096;
    assert Pow2(16) == 65536;
    assert Pow2(20) == 1048576;
  }

  lemma Addr32Linear(v: Bytes)
    requires |v| == 4
    ensures Addr32(v) == v[0] as int * 0x100_0000 + v[1] as int * 0x1_0000 + v[2] as int * 0x100 + v[3] as int
  {
  }

  lemma Block8(v: Bytes, b0: Byte)
    requires |v| == 4
    ensures InBlock(v, [b0, 0, 0, 0], 8) <==> v[0] == b0
  {
    Pow2Values();
    Addr32Linear(v);
    Addr32Linear([b0, 0, 0, 0]);
  }

  lemma Block16(v: Bytes, b0: Byte, b1: Byte)
    requires |v| == 4
    ensures InBlock(v, [b0, b1, 0, 0], 16) <==> v[0] == b0 && v[1] == b1
  {
    Pow2Values();
    Addr32Linear(v);
    Addr32Linear([b0, b1, 0, 0]);
  }

  lemma Block24(v: Bytes, b0: Byte, b1: Byte, b2: Byte)
    requires |v| == 4
    ensures InBlock(v, [b0, b1, b2, 0], 24) <==> v[0] == b0 && v[1] == b1 && v[2] == b2
  {
    Pow2Values();
    Addr32Linear(v);
    Addr32Linear([b0, b1, b2, 0]);
  }

  lemma Block172(v: Bytes)
    requires |v| == 4
    ensures InBlock(v, [172, 16, 0, 0], 12) <==> v[0] == 172 && 16 <= v[1] <= 31
  {
    Pow2Values();
    Addr32Linear(v);
    Addr32Linear([172, 16, 0, 0]);
  }

  /** The octet comparisons in the source are exactly the membership tests of the blocks. */
  lemma BlocksAsOctets(v: Bytes)
    requires |v| == 4
    ensures InBlock(v, [127, 0, 0, 0], 8) <==> v[0] == 127
    ensures InBlock(v, [10, 0, 0, 0], 8) <==> v[0] == 10
    ensures InBlock(v, [224, 0, 0, 0], 24) <==> v[0] == 224 && v[1] == 0 && v[2] == 0
    ensures InBlock(v, [169, 254, 0, 0], 16) <==> v[0] == 169 && v[1] == 254
    ensures InBlock(v, [192, 168, 0, 0], 16) <==> v[0] == 192 && v[1] == 168
    ensures InBlock(v, [172, 16, 0, 0], 12) <==> v[0] == 172 && 16 <= v[1] <= 31
  {
    Block8(v, 127);
    Block8(v, 10);
    Block24(v, 224, 0, 0);
    Block16(v, 169, 254);
    Block16(v, 192, 168);
    Block172(v);
  }

  /** An address is public exactly when it has an IPv4 form outside every rejected block;
      no IPv6-only address is public. */
  lemma IsPublicIPBlocks(ip: Bytes)
    ensures IsPublicIP(ip) <==> To4(ip).Some? && !InRejectedBlock(To4(ip).value)
  {
    if To4(ip).Some? {
      BlocksAsOctets(To4(ip).value);
    }
  }

  /** `::ffff:a.b.c.d`, the 16-byte form of an IPv4 address. */
  function V4InV6(v: Bytes): (ip: Bytes)
    requires |v| == 4
    ensures |ip| == 16
  {
    [0, 0, 0, 0, 0, 0, 0, 0, 0, 0, 0xff, 0xff] + v
  }

  /** Both representations of an IPv4 address are classified alike. */
  lemma IsPublicIPRepresentation(v: Bytes)
    requires |v| == 4
    ensures To4(V4InV6(v)) == Some(v)
    ensures IsPublicIP(V4InV6(v)) == IsPublicIP(v)
  {
    var ip := V4InV6(v);
    assert forall k :: 0 <= k < 10 ==> ip[k] == 0;
    assert ip[12..] == v;
  }
}
