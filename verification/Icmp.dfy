/**
 The MTU parameters of the tunnel, and the ICMP "fragmentation needed" error (type 3, code
 4, section 4 of RFC 1191) for a packet that does not fit through it.
 */
module Icmp {
  import opened Common
  import opened Checksums
  import Gre

  const GRE_OVERHEAD := 24
  const IP_TCP_HEADER_SIZE := 40
  const MIN_MSS := 536
  const MIN_MTU := 1280

  const PACKET_BUF_SIZE := 2048
  const ICMP_TYPE_DEST_UNREACH := 3
  const ICMP_CODE_FRAG_NEEDED := 4
  const QUOTED_LEN := 28

  datatype MtuConfig = MtuConfig(networkMtu: uint16, effectiveInnerMtu: uint16, tcpMssClamp: uint16)

  function NewMtuConfig(networkMtu: uint16): Option<MtuConfig> {
    if networkMtu < MIN_MTU then None
    else
      var inner := networkMtu - GRE_OVERHEAD;
      var mss := inner - IP_TCP_HEADER_SIZE;
      if mss < MIN_MSS then None else Some(MtuConfig(networkMtu, inner, mss))
  }

  /** Exactly the MTUs from 1280 on are accepted (the second test never fails); the derived
      values make a full-sized segment fill the link to the byte. */
  lemma MtuConfigExactly(mtu: uint16)
    ensures NewMtuConfig(mtu).Some? <==> 1280 <= mtu
    ensures NewMtuConfig(mtu).Some? ==>
              var c := NewMtuConfig(mtu).value;
              c.networkMtu == mtu && c.effectiveInnerMtu + 24 == mtu && c.tcpMssClamp + 40 + 24 == mtu
  {
  }

  predicate DontFragment(d: seq<byte>)
    requires 20 <= |d|
  {
    d[6] / 64 % 2 == 1
  }

  /** The sum is taken in 16 bits and wraps around. */
  predicate ShouldGenerateIcmp(d: seq<byte>, networkMtu: uint16) {
    20 <= |d| && d[0] / 16 == 4 && DontFragment(d) && (Word(d, 2) as int + GRE_OVERHEAD) % 0x1_0000 > networkMtu as int
  }

  /** For every configurable MTU, the error is sent exactly for the IPv4 packets with the
      don't-fragment flag whose length field says that they do not fit, except those whose
      length field is so large that adding the overhead wraps around. */
  lemma ShouldGenerateExactly(d: seq<byte>, mtu: uint16)
    requires NewMtuConfig(mtu).Some?
    ensures ShouldGenerateIcmp(d, mtu) <==>
            && 20 <= |d| && d[0] / 16 == 4 && d[6] / 64 % 2 == 1
            && mtu as int - 24 < 256 * d[2] as int + d[3] as int < 65512
  {
  }

  /** A packet of 28 bytes with the don't-fragment flag and 65512 in its length field. */
  const WRAPPING: seq<byte> :=
    [0x45, 0, 0xFF, 0xE8, 0, 0, 0x40, 0] + [64, 17, 0, 0, 10, 0, 0, 1, 10, 0, 0, 2] + [0, 80, 0, 80, 0, 8, 0, 0]

  /** The wrap is real: this packet claims to be far too long for every configurable MTU, and
      no error is sent. */
  lemma WrapLetsPacketPass(mtu: uint16)
    requires NewMtuConfig(mtu).Some?
    ensures |WRAPPING| == 28 && WRAPPING[0] / 16 == 4 && DontFragment(WRAPPING)
    ensures Word(WRAPPING, 2) == 65512 > NewMtuConfig(mtu).value.effectiveInnerMtu
    ensures !ShouldGenerateIcmp(WRAPPING, mtu)
  {
    assert WRAPPING[0] == 0x45 && WRAPPING[2] == 0xFF && WRAPPING[3] == 0xE8 && WRAPPING[6] == 0x40;
    ShouldGenerateExactly(WRAPPING, mtu);
  }

  function QuotedLen(original: seq<byte>): (n: nat)
    ensures n <= |original| && n <= QUOTED_LEN
  {
    if |original| < QUOTED_LEN then |original| else QUOTED_LEN
  }

  /** The address the error goes to: the source of the packet, all zero if cut off. */
  function Sender(original: seq<byte>): (a: Ipv4) {
    if |original| >= 16 then AddressAt(original, 12) else 0
  }

  function BlankIpHeader(total: uint16, vip: Ipv4, dst: Ipv4): (h: seq<byte>)
    ensures |h| == 20 && h[10] == 0 && h[11] == 0
  {
    [0x45, 0xC0] + Be16(total) + [0, 0, 0, 0, 64, 1, 0, 0] + Octets(vip) + Octets(dst)
  }

  function IcmpIpHeader(total: uint16, vip: Ipv4, dst: Ipv4): (h: seq<byte>)
    ensures |h| == 20
  {
    Sealed(BlankIpHeader(total, vip, dst), 10)
  }

  function BlankIcmp(mtu: uint16, quoted: seq<byte>): (m: seq<byte>)
    ensures |m| == 8 + |quoted| && m[2] == 0 && m[3] == 0
  {
    [ICMP_TYPE_DEST_UNREACH, ICMP_CODE_FRAG_NEEDED, 0, 0, 0, 0] + Be16(mtu) + quoted
  }

  function IcmpMessage(mtu: uint16, quoted: seq<byte>): (m: seq<byte>)
    ensures |m| == 8 + |quoted|
  {
    Sealed(BlankIcmp(mtu, quoted), 2)
  }

  function IcmpPacket(original: seq<byte>, vip: Ipv4, mtu: uint16): (p: seq<byte>)
    ensures |p| == 28 + QuotedLen(original)
  {
    var quoted := original[..QuotedLen(original)];
    IcmpIpHeader(28 + |quoted|, vip, Sender(original)) + IcmpMessage(mtu, quoted)
  }

  /** Fills a fresh buffer step by step. */
  method GenerateIcmpFragNeeded(original: seq<byte>, vip: Ipv4, mtu: uint16) returns (buf: array<byte>, len: nat)
    ensures fresh(buf) && len <= buf.Length == PACKET_BUF_SIZE
    ensures buf[..len] == IcmpPacket(original, vip, mtu)
  {
    var payloadLen := if |original| < QUOTED_LEN then |original| else QUOTED_LEN;
    len := 20 + 8 + payloadLen;
    buf := new byte[PACKET_BUF_SIZE](i => 0);
    var dst := if |original| >= 16 then AddressAt(original, 12) else 0;

    var header := FillIpHeader(len, vip, dst);
    var ipChecksum := IpChecksum(header);
    Gre.WriteAt(buf, 0, header[10 := Hi(ipChecksum)][11 := Lo(ipChecksum)]);
    ghost var ip := buf[..20];

    var icmp := FillIcmp(mtu, original[..payloadLen]);
    var icmpChecksum := IpChecksum(icmp);
    Gre.WriteAt(buf, 20, icmp[2 := Hi(icmpChecksum)][3 := Lo(icmpChecksum)]);
    assert buf[..len] == ip + buf[20..len];
  }

  /** Both headers field by field, their checksums still zero. */
  method FillIpHeader(total: uint16, vip: Ipv4, dst: Ipv4) returns (h: seq<byte>)
    ensures h == BlankIpHeader(total, vip, dst)
  {
    h := [0x45, 0xC0];
    h := h + Be16(total);
    h := h + [0, 0];
    h := h + [0, 0];
    h := h + [64, 1, 0, 0];
    h := h + Octets(vip);
    h := h + Octets(dst);
  }

  method FillIcmp(mtu: uint16, quoted: seq<byte>) returns (m: seq<byte>)
    ensures m == BlankIcmp(mtu, quoted)
  {
    m := [ICMP_TYPE_DEST_UNREACH, ICMP_CODE_FRAG_NEEDED];
    m := m + [0, 0];
    m := m + [0, 0];
    m := m + Be16(mtu);
    m := m + quoted;
  }

  // ----- what the sender of the packet gets -----

  datatype Notice = Notice(src: Ipv4, dst: Ipv4, mtu: int, quoted: seq<byte>)

  /** A host that takes the error in: both checksums must verify, the length must be that of
      the packet, type and code must say "fragmentation needed", and the unused field is zero. */
  function Receive(p: seq<byte>): Option<Notice> {
    if |p| < 28 || p[0] != 0x45 || Word(p, 2) != |p| || p[9] != 1 || Checksum(p[..20]) != 0 || Checksum(p[20..]) != 0
       || p[20] != 3 || p[21] != 4 || Word(p, 24) != 0
    then None
    else Some(Notice(AddressAt(p, 12), AddressAt(p, 16), Word(p, 26), p[28..]))
  }

  lemma IpHeaderFields(total: uint16, vip: Ipv4, dst: Ipv4)
    ensures var h := IcmpIpHeader(total, vip, dst);
            && h[0] == 0x45 && h[1] == 0xC0 && h[4..8] == [0, 0, 0, 0] && h[8] == 64 && h[9] == 1
            && 256 * h[2] as int + h[3] as int == total
            && AddressAt(h, 12) == vip && AddressAt(h, 16) == dst && Checksum(h) == 0
  {
    var b := BlankIpHeader(total, vip, dst);
    var h := IcmpIpHeader(total, vip, dst);
    SealedVerifies(b, 10);
    assert h[2..4] == b[2..4] == Be16(total);
    assert h[12..16] == b[12..16] == Octets(vip);
    assert h[16..20] == b[16..20] == Octets(dst);
  }

  lemma MessageFields(mtu: uint16, quoted: seq<byte>)
    ensures var m := IcmpMessage(mtu, quoted);
            m[0] == 3 && m[1] == 4 && Word(m, 4) == 0 && Word(m, 6) == mtu && m[8..] == quoted && Checksum(m) == 0
  {
    var b := BlankIcmp(mtu, quoted);
    SealedVerifies(b, 2);
    assert IcmpMessage(mtu, quoted)[6..8] == b[6..8] == Be16(mtu);
    assert b[4] == 0 && b[5] == 0;
  }

  lemma ReceiveQuoted(original: seq<byte>, vip: Ipv4, mtu: uint16)
    ensures Receive(IcmpPacket(original, vip, mtu)) ==
            Some(Notice(vip, Sender(original), mtu, original[..QuotedLen(original)]))
  {
    var p := IcmpPacket(original, vip, mtu);
    var quoted := original[..QuotedLen(original)];
    IpHeaderFields(28 + |quoted|, vip, Sender(original));
    MessageFields(mtu, quoted);
    assert p[..20] == IcmpIpHeader(28 + |quoted|, vip, Sender(original));
    assert p[20..] == IcmpMessage(mtu, quoted);
    assert forall i: nat | i < 20 :: p[i] == p[..20][i];
    assert forall i: nat | i < 8 :: p[20 + i] == p[20..][i];
    assert p[28..] == p[20..][8..];
  }

  /** For every original packet, of odd or even length, however short: the error verifies,
      comes from the VIP, goes to the sender, and carries the MTU and the first 28 bytes. */
  lemma ReceiveGenerated(original: seq<byte>, vip: Ipv4, mtu: uint16)
    ensures Receive(IcmpPacket(original, vip, mtu)) ==
            Some(Notice(vip, if 16 <= |original| then AddressAt(original, 12) else 0, mtu,
                        if 28 <= |original| then original[..28] else original))
  {
    ReceiveQuoted(original, vip, mtu);
    assert original[..|original|] == original;
  }
}
