/**
 GRE encapsulation in place (section 2 of RFC 2784): the packet is shifted by 24 bytes
 and an outer IPv4 header and a GRE header are written before it.
 */
module Gre {
  import opened Common
  import opened Checksums

  const OUTER_IP_HEADER_SIZE := 20
  const GRE_HEADER_SIZE := 4
  const ENCAP_OVERHEAD := OUTER_IP_HEADER_SIZE + GRE_HEADER_SIZE
  const GRE_PROTO_IPV4 := 0x0800
  const GRE_PROTO_IPV6 := 0x86DD

  /** The outer header before its checksum is filled in: version 4, no options, don't
      fragment, TTL 64, protocol 47. The total length is truncated to 16 bits. */
  function BlankHeader(total: nat, src: Ipv4, dst: Ipv4): (h: seq<byte>)
    ensures |h| == 20 && h[10] == 0 && h[11] == 0
  {
    [0x45, 0x00] + Be16(total % 0x1_0000) + [0, 0, 0x40, 0x00, 64, 47, 0, 0] + Octets(src) + Octets(dst)
  }

  function OuterHeader(total: nat, src: Ipv4, dst: Ipv4): (h: seq<byte>)
    ensures |h| == 20
  {
    Sealed(BlankHeader(total, src, dst), 10)
  }

  function InnerProto(inner: seq<byte>): int {
    if inner != [] && inner[0] / 16 == 6 then GRE_PROTO_IPV6 else GRE_PROTO_IPV4
  }

  function GreHeader(inner: seq<byte>): (h: seq<byte>)
    ensures |h| == 4
  {
    [0, 0] + Be16(InnerProto(inner))
  }

  /** The encapsulated packet. */
  function Encap(inner: seq<byte>, src: Ipv4, dst: Ipv4): (out: seq<byte>)
    ensures |out| == |inner| + ENCAP_OVERHEAD
  {
    OuterHeader(|inner| + ENCAP_OVERHEAD, src, dst) + GreHeader(inner) + inner
  }

  /** In place on a raw buffer: `None` and no change when the result does not fit. */
  method EncapsulateIpv4Buf(data: array<byte>, innerLen: nat, src: Ipv4, dst: Ipv4) returns (r: Option<nat>)
    requires innerLen <= data.Length
    modifies data
    ensures r == if innerLen + ENCAP_OVERHEAD <= data.Length then Some(innerLen + ENCAP_OVERHEAD) else None
    ensures r.None? ==> data[..] == old(data[..])
    ensures r.Some? ==> data[..r.value] == Encap(old(data[..innerLen]), src, dst)
    ensures r.Some? ==> data[r.value..] == old(data[r.value..])
  {
    var newLen := innerLen + ENCAP_OVERHEAD;
    if newLen > data.Length {
      return None;
    }
    ghost var inner := data[..innerLen];
    var proto := if innerLen > 0 && data[0] / 16 == 6 then GRE_PROTO_IPV6 else GRE_PROTO_IPV4;
    CopyWithin(data, innerLen, ENCAP_OVERHEAD);
    ghost var tail := data[24..];
    assert tail == inner + old(data[newLen..]);
    var blank := FillHeader(newLen, src, dst);
    var checksum := IpChecksum(blank);
    WriteAt(data, 0, blank[10 := Hi(checksum)][11 := Lo(checksum)]);
    assert data[24..] == data[20..][4..] == tail;
    WriteAt(data, OUTER_IP_HEADER_SIZE, [0, 0] + Be16(proto));
    assert data[..] == data[..20] + data[20..24] + data[24..] == Encap(inner, src, dst) + old(data[newLen..]);
    return Some(newLen);
  }

  /** The outer header field by field, the checksum still zero. */
  method FillHeader(total: nat, src: Ipv4, dst: Ipv4) returns (h: seq<byte>)
    ensures h == BlankHeader(total, src, dst)
  {
    h := [0x45, 0x00];
    h := h + Be16(total % 0x1_0000);
    h := h + [0, 0];
    h := h + [0x40, 0x00];
    h := h + [64, 47, 0, 0];
    h := h + Octets(src);
    h := h + Octets(dst);
  }

  /** Move the first `n` bytes up by `by`, overlapping as they may. */
  method CopyWithin(data: array<byte>, n: nat, shift: nat)
    requires n + shift <= data.Length
    modifies data
    ensures data[shift..n + shift] == old(data[..n])
    ensures data[n + shift..] == old(data[n + shift..])
  {
    forall i | 0 <= i < n {
      data[shift + i] := data[i];
    }
  }

  method WriteAt(data: array<byte>, at: nat, s: seq<byte>)
    requires at + |s| <= data.Length
    modifies data
    ensures data[at..at + |s|] == s
    ensures data[..at] == old(data[..at]) && data[at + |s|..] == old(data[at + |s|..])
  {
    forall i | 0 <= i < |s| {
      data[at + i] := s[i];
    }
  }

  // ----- what the far end of the tunnel gets -----

  datatype Tunnelled = Tunnelled(src: Ipv4, dst: Ipv4, proto: int, inner: seq<byte>)

  /** What a tunnel endpoint does with a packet: it accepts an option-less IPv4 header that
      verifies, with the length of the packet and protocol 47, followed by a GRE header
      without flags. */
  function Decap(p: seq<byte>): Option<Tunnelled> {
    if |p| < 24 || p[0] != 0x45 || Checksum(p[..20]) != 0 || Word(p, 2) != |p| || p[9] != 47 || Word(p, 20) != 0
    then None
    else Some(Tunnelled(AddressAt(p, 12), AddressAt(p, 16), Word(p, 22), p[24..]))
  }

  lemma EncapParts(inner: seq<byte>, src: Ipv4, dst: Ipv4)
    ensures var e := Encap(inner, src, dst);
            && e[..20] == OuterHeader(|inner| + ENCAP_OVERHEAD, src, dst)
            && e[20..24] == GreHeader(inner) && e[24..] == inner
  {
  }

  lemma HeaderFields(total: nat, src: Ipv4, dst: Ipv4)
    ensures var h := OuterHeader(total, src, dst);
            && h[0] == 0x45 && h[1] == 0 && h[4..8] == [0, 0, 0x40, 0] && h[8] == 64 && h[9] == 47
            && 256 * h[2] as int + h[3] as int == total % 0x1_0000
            && AddressAt(h, 12) == src && AddressAt(h, 16) == dst && Checksum(h) == 0
  {
    var b := BlankHeader(total, src, dst);
    var h := OuterHeader(total, src, dst);
    SealedVerifies(b, 10);
    assert h[2..4] == b[2..4] == Be16(total % 0x1_0000);
    assert h[12..16] == b[12..16] == Octets(src);
    assert h[16..20] == b[16..20] == Octets(dst);
  }

  /** The round trip. Whenever the encapsulated length fits 16 bits, the endpoint accepts
      the packet and recovers exactly the original bytes, addresses and protocol. */
  lemma DecapEncap(inner: seq<byte>, src: Ipv4, dst: Ipv4)
    requires |inner| + ENCAP_OVERHEAD <= 0xFFFF
    ensures Decap(Encap(inner, src, dst)) ==
            Some(Tunnelled(src, dst, if inner != [] && inner[0] / 16 == 6 then 0x86DD else 0x0800, inner))
  {
    var e := Encap(inner, src, dst);
    EncapParts(inner, src, dst);
    HeaderFields(|inner| + ENCAP_OVERHEAD, src, dst);
    assert forall i: nat | i < 20 :: e[i] == e[..20][i];
    assert forall i: nat | i < 4 :: e[20 + i] == e[20..24][i];
  }

  /** Beyond 16 bits the length field is wrong and the endpoint refuses the packet. */
  lemma TooLongIsRefused(inner: seq<byte>, src: Ipv4, dst: Ipv4)
    requires 0xFFFF < |inner| + ENCAP_OVERHEAD
    ensures Decap(Encap(inner, src, dst)).None?
  {
    var e := Encap(inner, src, dst);
    EncapParts(inner, src, dst);
    HeaderFields(|inner| + ENCAP_OVERHEAD, src, dst);
    assert forall i: nat | i < 20 :: e[i] == e[..20][i];
  }
}
