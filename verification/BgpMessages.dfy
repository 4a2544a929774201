/**
 The BGP messages the speaker writes and reads (sections 4.1 to 4.5 of RFC 4271), and how
 a router reads the route changes out of an UPDATE.
 */
module BgpMessages {
  import opened Arithmetic
  import opened Common
  import opened Checksums
  import opened VipProtocol

  datatype MessageType = Open | UpdateMessage | Notification | Keepalive

  const HEADER_LEN := 19

  function Ones(n: nat): (s: seq<byte>)
    ensures |s| == n && forall i | 0 <= i < n :: s[i] == 0xFF
  {
    seq(n, _ => 0xFF)
  }

  function Marker(): (s: seq<byte>)
    ensures |s| == 16 && forall i | 0 <= i < 16 :: s[i] == 0xFF
  {
    Ones(16)
  }

  function TypeCode(t: MessageType): byte {
    match t
    case Open => 1
    case UpdateMessage => 2
    case Notification => 3
    case Keepalive => 4
  }

  /** A message: marker, total length, type, body. */
  function Message(t: MessageType, body: seq<byte>): (m: seq<byte>)
    requires HEADER_LEN + |body| < 0x1_0000
    ensures |m| == HEADER_LEN + |body|
  {
    Marker() + Be16(HEADER_LEN + |body|) + [TypeCode(t)] + body
  }

  // ----- parsing -----

  function ParseMessageType(d: seq<byte>): Option<MessageType> {
    if |d| < 19 then None
    else if d[18] == 1 then Some(Open)
    else if d[18] == 2 then Some(UpdateMessage)
    else if d[18] == 3 then Some(Notification)
    else if d[18] == 4 then Some(Keepalive)
    else None
  }

  function ParseMessageLength(d: seq<byte>): Option<uint16> {
    if |d| < 18 then None else Some(Word(d, 16))
  }

  /** Error code and subcode. */
  function ParseNotification(d: seq<byte>): Option<(byte, byte)> {
    if |d| < 21 || ParseMessageType(d) != Some(Notification) then None else Some((d[19], d[20]))
  }

  function ParseOpenHoldTime(d: seq<byte>): Option<uint16> {
    if |d| < 24 || ParseMessageType(d) != Some(Open) then None else Some(Word(d, 22))
  }

  /** What every parser finds in the header of a message. */
  lemma HeaderIsParsed(t: MessageType, body: seq<byte>)
    requires HEADER_LEN + |body| < 0x1_0000
    ensures var m := Message(t, body);
            && ParseMessageType(m) == Some(t) && ParseMessageLength(m) == Some(|m|)
            && m[..16] == Marker() && m[HEADER_LEN..] == body
            && forall i | 0 <= i < |body| :: m[HEADER_LEN + i] == body[i]
  {
    var m := Message(t, body);
    assert m[16..18] == Be16(HEADER_LEN + |body|);
    assert m[16] == m[16..18][0] && m[17] == m[16..18][1];
  }

  // ----- encoding -----

  function OpenBody(asn: uint16, hold: uint16, routerId: Ipv4): (b: seq<byte>)
    ensures |b| == 10
  {
    [4] + Be16(asn) + Be16(hold) + Octets(routerId) + [0]
  }

  function EncodeOpen(asn: uint16, hold: uint16, routerId: Ipv4): seq<byte> {
    Message(Open, OpenBody(asn, hold, routerId))
  }

  function EncodeKeepalive(): seq<byte> {
    Message(Keepalive, [])
  }

  function EncodeNotification(code: byte, subcode: byte): seq<byte> {
    Message(Notification, [code, subcode])
  }

  /** ORIGIN, AS_PATH and NEXT_HOP, well-known and transitive. */
  function PathAttributes(nextHop: Ipv4, asn: uint16): (b: seq<byte>)
    ensures |b| == 18
  {
    [0x40, 1, 1, 0] + [0x40, 2, 4, 2, 1] + Be16(asn) + [0x40, 3, 4] + Octets(nextHop)
  }

  function PrefixBytes(len: nat): nat {
    (len + 7) / 8
  }

  /** A prefix as its length and its significant octets. */
  function Prefix(prefix: Ipv4, len: nat): (b: seq<byte>)
    requires len <= 32
    ensures |b| == 1 + PrefixBytes(len) <= 5
  {
    [len] + Octets(prefix)[..PrefixBytes(len)]
  }

  function AnnounceBody(prefix: Ipv4, len: nat, nextHop: Ipv4, asn: uint16): (b: seq<byte>)
    requires len <= 32
    ensures |b| == 23 + PrefixBytes(len) <= 27
  {
    Be16(0) + Be16(18) + PathAttributes(nextHop, asn) + Prefix(prefix, len)
  }

  function WithdrawBody(prefix: Ipv4, len: nat): (b: seq<byte>)
    requires len <= 32
    ensures |b| == 5 + PrefixBytes(len) <= 9
  {
    Be16(1 + PrefixBytes(len)) + Prefix(prefix, len) + Be16(0)
  }

  function EncodeUpdateAnnounce(prefix: Ipv4, len: nat, nextHop: Ipv4, asn: uint16): seq<byte>
    requires len <= 32
  {
    Message(UpdateMessage, AnnounceBody(prefix, len, nextHop, asn))
  }

  function EncodeUpdateWithdraw(prefix: Ipv4, len: nat): seq<byte>
    requires len <= 32
  {
    Message(UpdateMessage, WithdrawBody(prefix, len))
  }

  /** The bytes of a header whose length is still to be patched in. */
  function Unpatched(t: MessageType): (b: seq<byte>)
    ensures |b| == HEADER_LEN
  {
    Marker() + Be16(0) + [TypeCode(t)]
  }

  /** The total length goes into the two bytes left for it. */
  lemma Patched(t: MessageType, body: seq<byte>)
    requires HEADER_LEN + |body| < 0x1_0000
    ensures var n := HEADER_LEN + |body|;
            (Unpatched(t) + body)[16 := Hi(n)][17 := Lo(n)] == Message(t, body)
  {
  }

  method BuildOpen(asn: uint16, hold: uint16, routerId: Ipv4) returns (buf: seq<byte>)
    ensures buf == EncodeOpen(asn, hold, routerId)
  {
    buf := Marker();
    var lengthPos := |buf|;
    buf := buf + Be16(0) + [TypeCode(Open)];
    buf := buf + [4];
    buf := buf + Be16(asn);
    buf := buf + Be16(hold);
    buf := buf + Octets(routerId);
    buf := buf + [0];
    assert buf == Unpatched(Open) + OpenBody(asn, hold, routerId);
    Patched(Open, OpenBody(asn, hold, routerId));
    var total: uint16 := |buf|;
    buf := buf[lengthPos := Hi(total)][lengthPos + 1 := Lo(total)];
  }

  method BuildUpdateAnnounce(prefix: Ipv4, len: nat, nextHop: Ipv4, asn: uint16) returns (buf: seq<byte>)
    requires len <= 32
    ensures buf == EncodeUpdateAnnounce(prefix, len, nextHop, asn)
  {
    buf := Marker();
    var lengthPos := |buf|;
    buf := buf + Be16(0) + [TypeCode(UpdateMessage)];
    buf := buf + Be16(0);
    var attrs := BuildAttributes(nextHop, asn);
    buf := buf + attrs;
    buf := buf + [len];
    buf := buf + Octets(prefix)[..PrefixBytes(len)];
    assert buf == Unpatched(UpdateMessage) + AnnounceBody(prefix, len, nextHop, asn);
    Patched(UpdateMessage, AnnounceBody(prefix, len, nextHop, asn));
    var total: uint16 := |buf|;
    buf := buf[lengthPos := Hi(total)][lengthPos + 1 := Lo(total)];
  }

  /** The path attributes behind their length, which is patched in afterwards. */
  method BuildAttributes(nextHop: Ipv4, asn: uint16) returns (buf: seq<byte>)
    ensures buf == Be16(18) + PathAttributes(nextHop, asn)
  {
    buf := Be16(0);
    buf := buf + [0x40, 1, 1, 0];
    buf := buf + [0x40, 2, 4, 2, 1] + Be16(asn);
    buf := buf + [0x40, 3, 4] + Octets(nextHop);
    assert buf == Be16(0) + PathAttributes(nextHop, asn);
    var n: uint16 := |buf| - 2;
    buf := buf[0 := Hi(n)][1 := Lo(n)];
  }

  method BuildUpdateWithdraw(prefix: Ipv4, len: nat) returns (buf: seq<byte>)
    requires len <= 32
    ensures buf == EncodeUpdateWithdraw(prefix, len)
  {
    buf := Marker();
    var lengthPos := |buf|;
    buf := buf + Be16(0) + [TypeCode(UpdateMessage)];
    buf := buf + Be16(1 + PrefixBytes(len));
    buf := buf + [len];
    buf := buf + Octets(prefix)[..PrefixBytes(len)];
    buf := buf + Be16(0);
    assert buf == Unpatched(UpdateMessage) + WithdrawBody(prefix, len);
    Patched(UpdateMessage, WithdrawBody(prefix, len));
    var total: uint16 := |buf|;
    buf := buf[lengthPos := Hi(total)][lengthPos + 1 := Lo(total)];
  }

  // ----- what the other side reads -----

  /** The host routes in a list of prefixes; other prefixes are skipped, a cut one ends the
      list. */
  function ParseHostPrefixes(d: seq<byte>): seq<Vip>
    decreases |d|
  {
    if d == [] then []
    else
      var n := PrefixBytes(d[0]);
      if 1 + n > |d| then []
      else (if d[0] == 32 then [AddressAt(d, 1)] else []) + ParseHostPrefixes(d[1 + n..])
  }

  /** Announced and withdrawn host routes. */
  function ParseUpdateBody(b: seq<byte>): (seq<Vip>, seq<Vip>) {
    if |b| < 2 || |b| < 2 + Word(b, 0) + 2 then ([], [])
    else
      var w := Word(b, 0);
      var withdrawn := ParseHostPrefixes(b[2..2 + w]);
      var start := 2 + w + 2 + Word(b, 2 + w);
      if |b| < start then ([], withdrawn) else (ParseHostPrefixes(b[start..]), withdrawn)
  }

  /** The changes an UPDATE makes, the withdrawals first; other messages make none. */
  function Changes(m: seq<byte>): seq<Update> {
    if ParseMessageType(m) != Some(UpdateMessage) then []
    else
      var (announced, withdrawn) := ParseUpdateBody(m[HEADER_LEN..]);
      Unreaches(withdrawn) + Reaches(announced)
  }

  lemma NotificationRoundTrip(code: byte, subcode: byte)
    ensures ParseNotification(EncodeNotification(code, subcode)) == Some((code, subcode))
  {
    HeaderIsParsed(Notification, [code, subcode]);
  }

  lemma OpenRoundTrip(asn: uint16, hold: uint16, routerId: Ipv4)
    ensures ParseOpenHoldTime(EncodeOpen(asn, hold, routerId)) == Some(hold)
  {
    var b := OpenBody(asn, hold, routerId);
    HeaderIsParsed(Open, b);
    assert b[3..5] == Be16(hold);
    assert b[3] == b[3..5][0] && b[4] == b[3..5][1];
  }

  lemma HostPrefix(vip: Vip)
    ensures ParseHostPrefixes(Prefix(vip, 32)) == [vip]
  {
    var p := Prefix(vip, 32);
    assert p == [32] + Octets(vip);
    assert p[1..5] == Octets(vip);
    assert forall i | 0 <= i < 4 :: p[1 + i] == p[1..5][i];
    assert p[1 + PrefixBytes(32)..] == [];
  }

  lemma AnnounceBodyParses(vip: Vip, nextHop: Ipv4, asn: uint16)
    ensures ParseUpdateBody(AnnounceBody(vip, 32, nextHop, asn)) == ([vip], [])
  {
    var b := AnnounceBody(vip, 32, nextHop, asn);
    assert b[0] == 0 && b[1] == 0 && b[2] == 0 && b[3] == 18;
    assert b[2..2] == [];
    assert b[22..] == Prefix(vip, 32);
    HostPrefix(vip);
  }

  lemma WithdrawBodyParses(vip: Vip)
    ensures ParseUpdateBody(WithdrawBody(vip, 32)) == ([], [vip])
  {
    var b := WithdrawBody(vip, 32);
    assert b[0] == 0 && b[1] == 5 && b[7] == 0 && b[8] == 0;
    assert b[2..7] == Prefix(vip, 32);
    assert b[9..] == [];
    HostPrefix(vip);
  }

  lemma ChangesOfMessage(body: seq<byte>, announced: seq<Vip>, withdrawn: seq<Vip>)
    requires HEADER_LEN + |body| < 0x1_0000 && ParseUpdateBody(body) == (announced, withdrawn)
    ensures Changes(Message(UpdateMessage, body)) == Unreaches(withdrawn) + Reaches(announced)
  {
    HeaderIsParsed(UpdateMessage, body);
  }

  lemma OneChange(vip: Vip)
    ensures Unreaches([]) + Reaches([vip]) == [Reach(vip)]
    ensures Unreaches([vip]) + Reaches([]) == [Unreach(vip)]
  {
    assert [vip][1..] == [];
  }

  /** What the speaker writes for one route change. */
  function EncodeUpdate(u: Update, nextHop: Ipv4, asn: uint16): (m: seq<byte>) {
    match u
    case Reach(vip) => EncodeUpdateAnnounce(vip, 32, nextHop, asn)
    case Unreach(vip) => EncodeUpdateWithdraw(vip, 32)
  }

  /** The round trip of a route change. */
  lemma UpdateRoundTrip(u: Update, nextHop: Ipv4, asn: uint16)
    ensures Changes(EncodeUpdate(u, nextHop, asn)) == [u]
  {
    OneChange(u.vip);
    match u
    case Reach(vip) =>
      AnnounceBodyParses(vip, nextHop, asn);
      ChangesOfMessage(AnnounceBody(vip, 32, nextHop, asn), [vip], []);
    case Unreach(vip) =>
      WithdrawBodyParses(vip);
      ChangesOfMessage(WithdrawBody(vip, 32), [], [vip]);
  }

  // ----- byte by byte, as sections 4.1 to 4.3 of RFC 4271 lay the messages out -----

  /** Where everything in a header stands. */
  lemma HeaderLayout(t: MessageType, body: seq<byte>)
    requires HEADER_LEN + |body| < 0x1_0000
    ensures var m := Message(t, body);
            && |m| == 19 + |body| && m[19..] == body
            && (forall i | 0 <= i < 16 :: m[i] == 255)
            && 256 * m[16] as int + m[17] as int == |m|
            && m[18] == match t case Open => 1 case UpdateMessage => 2 case Notification => 3 case Keepalive => 4
  {
    HeaderIsParsed(t, body);
    var m := Message(t, body);
    assert m[..16] == Marker();
    assert forall i | 0 <= i < 16 :: m[i] == m[..16][i];
  }

  /** What the parsers accept, and what they read. */
  lemma ParsersExactly(d: seq<byte>)
    ensures ParseMessageLength(d) == if 18 <= |d| then Some(256 * d[16] as int + d[17] as int) else None
    ensures ParseMessageType(d) ==
            if |d| < 19 then None
            else match d[18] case 1 => Some(Open) case 2 => Some(UpdateMessage) case 3 => Some(Notification)
                             case 4 => Some(Keepalive) case _ => None
    ensures ParseNotification(d) == if 21 <= |d| && d[18] == 3 then Some((d[19], d[20])) else None
    ensures ParseOpenHoldTime(d) == if 24 <= |d| && d[18] == 1 then Some(256 * d[22] as int + d[23] as int) else None
  {
  }

  /** An OPEN: version 4, two-octet AS, hold time, identifier, no optional parameters. */
  lemma OpenLayout(asn: uint16, hold: uint16, routerId: Ipv4)
    ensures var m := EncodeOpen(asn, hold, routerId);
            && |m| == 29 && m[18] == 1 && m[19] == 4 && m[28] == 0
            && 256 * m[20] as int + m[21] as int == asn && 256 * m[22] as int + m[23] as int == hold
            && 256 * (256 * (256 * m[24] as int + m[25] as int) + m[26] as int) + m[27] as int == routerId
  {
    var b := OpenBody(asn, hold, routerId);
    HeaderLayout(Open, b);
    HeaderIsParsed(Open, b);
    assert b[5..9] == Octets(routerId);
    assert b[5] == b[5..9][0] && b[6] == b[5..9][1] && b[7] == b[5..9][2] && b[8] == b[5..9][3];
  }

  // ----- the route an announcement carries -----

  /** A path attribute: flags, type code and value. */
  datatype Attribute = Attribute(flags: byte, code: byte, value: seq<byte>)

  /** The attributes in a list of them, each with its length in one octet; `None` when the list
      is cut off. */
  function ReadAttributes(b: seq<byte>): Option<seq<Attribute>>
    decreases |b|
  {
    if b == [] then Some([])
    else if |b| < 3 || |b| < 3 + b[2] as nat then None
    else
      var rest := ReadAttributes(b[3 + b[2] as nat..]);
      if rest.None? then None else Some([Attribute(b[0], b[1], b[3..3 + b[2] as nat])] + rest.value)
  }

  lemma ReadOne(flags: byte, code: byte, value: seq<byte>, rest: seq<byte>)
    requires |value| < 256
    ensures var b := [flags, code, |value|] + value + rest;
            ReadAttributes(b) == if ReadAttributes(rest).None? then None
                                 else Some([Attribute(flags, code, value)] + ReadAttributes(rest).value)
  {
    var b := [flags, code, |value|] + value + rest;
    assert b[3 + |value|..] == rest && b[3..3 + |value|] == value;
  }

  /** The attributes of an announcement: the origin is the routing protocol itself (0), the AS
      path is one sequence (2) of one number, and the next hop is the forwarder. */
  lemma AttributesAreRead(nextHop: Ipv4, asn: uint16)
    ensures var read := ReadAttributes(PathAttributes(nextHop, asn));
            && read.Some? && |read.value| == 3
            && read.value[0] == Attribute(0x40, 1, [0])
            && read.value[1] == Attribute(0x40, 2, [2, 1] + Be16(asn))
            && read.value[2] == Attribute(0x40, 3, Octets(nextHop))
            && Word(read.value[1].value, 2) == asn && AddressAt(read.value[2].value, 0) == nextHop
  {
    var third := [0x40, 3, 4] + Octets(nextHop);
    var second := [0x40, 2, 4] + ([2, 1] + Be16(asn)) + third;
    assert PathAttributes(nextHop, asn) == [0x40, 1, 1] + [0] + second;
    ReadOne(0x40, 1, [0], second);
    ReadOne(0x40, 2, [2, 1] + Be16(asn), third);
    assert third == [0x40, 3, 4] + Octets(nextHop) + [];
    ReadOne(0x40, 3, Octets(nextHop), []);
  }

  /** The path attributes of an UPDATE. */
  function AttributesOf(m: seq<byte>): seq<byte>
    requires 23 <= |m|
  {
    var start := 23 + Word(m, 19);
    if |m| < start then []
    else
      var end := start + Word(m, start - 2);
      if |m| < end then [] else m[start..end]
  }

  /** Every announcement, of whatever prefix, carries these attributes. */
  lemma AnnouncementCarriesRoute(prefix: Ipv4, len: nat, nextHop: Ipv4, asn: uint16)
    requires len <= 32
    ensures 23 <= |EncodeUpdateAnnounce(prefix, len, nextHop, asn)|
    ensures AttributesOf(EncodeUpdateAnnounce(prefix, len, nextHop, asn)) == PathAttributes(nextHop, asn)
  {
    var b := AnnounceBody(prefix, len, nextHop, asn);
    var m := EncodeUpdateAnnounce(prefix, len, nextHop, asn);
    HeaderIsParsed(UpdateMessage, b);
    assert b[0] == 0 && b[1] == 0 && b[2] == 0 && b[3] == 18;
    assert Word(m, 19) == 0 && Word(m, 21) == 18;
    assert m[23..41] == b[4..22] == PathAttributes(nextHop, asn);
  }

  // ----- prefixes of any length -----

  /** An address from its leading octets, the rest zero. */
  function Padded(octets: seq<byte>): (a: Ipv4)
    requires |octets| <= 4
  {
    AddressAt(octets + [0, 0, 0, 0], 0)
  }

  /** What lies behind the octets that a prefix of this length has. */
  function Tail(len: nat): nat
    requires len <= 32
  {
    if len == 0 then 0x1_0000_0000 else if len <= 8 then 0x100_0000
    else if len <= 16 then 0x1_0000 else if len <= 24 then 0x100 else 1
  }

  /** The octets written for a prefix give back its address up to whole octets behind the
      prefix, so exactly it when nothing is set behind the prefix. */
  lemma PrefixIsRead(prefix: Ipv4, len: nat)
    requires len <= 32
    ensures var p := Prefix(prefix, len);
            p[0] == len && |p| <= 5 && Padded(p[1..]) == prefix - prefix % Tail(len)
  {
    var p, o := Prefix(prefix, len), Octets(prefix);
    var n := PrefixBytes(len);
    assert p[1..] == o[..n];
    OctetsAre(prefix);
    var q := o[..n] + [0, 0, 0, 0];
    assert forall i: nat | i < n :: q[i] == o[i];
    assert forall i: nat | n <= i < 4 :: q[i] == 0;
    TailOctets(o[0], o[1], o[2], o[3], len);
  }

  lemma OctetsAre(a: Ipv4)
    ensures var o := Octets(a);
            a == 0x100_0000 * o[0] as int + 0x1_0000 * o[1] as int + 0x100 * o[2] as int + o[3] as int
  {
  }

  lemma TailOctets(a: byte, b: byte, c: byte, d: byte, len: nat)
    requires len <= 32
    ensures var x := 0x100_0000 * a as int + 0x1_0000 * b as int + 0x100 * c as int + d as int;
            x % Tail(len) == (if len == 0 then x
                              else if len <= 8 then 0x1_0000 * b as int + 0x100 * c as int + d as int
                              else if len <= 16 then 0x100 * c as int + d as int
                              else if len <= 24 then d as int else 0)
  {
    var x := 0x100_0000 * a as int + 0x1_0000 * b as int + 0x100 * c as int + d as int;
    if len == 0 {
      DivModUnique(x, 0x1_0000_0000, 0, x);
    } else if len <= 8 {
      DivModUnique(x, 0x100_0000, a as int, 0x1_0000 * b as int + 0x100 * c as int + d as int);
    } else if len <= 16 {
      DivModUnique(x, 0x1_0000, 0x100 * a as int + b as int, 0x100 * c as int + d as int);
    } else if len <= 24 {
      DivModUnique(x, 0x100, 0x1_0000 * a as int + 0x100 * b as int + c as int, d as int);
    }
  }
}
