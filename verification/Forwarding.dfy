/**
 What a rewriter does to one packet and to a run of packets, as functions of its state.
 */
module Forwarding {
  import opened Common
  import opened Entries
  import opened Checksums
  import opened RobinHood
  import opened ConnTables
  import opened RateLimiter
  import opened MssClamp
  import opened Icmp
  import opened Applier
  import Gre
  import FragmentTables
  import Maglev

  /** The bytes of a packet buffer that count. */
  type Packet = p: seq<byte> | |p| <= PACKET_BUF_SIZE

  datatype FiveTuple = FiveTuple(src: Ipv4, dst: Ipv4, srcPort: uint16, dstPort: uint16, proto: FlowProto)

  datatype Meta = Meta(tuple: FiveTuple, flags: Option<byte>)

  datatype FragmentId = FragmentId(src: Ipv4, dst: Ipv4, ipId: uint16)

  datatype VipKey = VipKey(ip: Ipv4, proto: FlowProto, port: uint16)

  /** What the rewriter reads while it handles a packet: its address, the VIP map, the lookup
      tables, the health map, its parameters, the hash functions and the time. */
  datatype Env = Env(srcIp: Ip, vips: map<VipKey, PoolId>, tables: Tables, health: Health, mtu: MtuConfig,
                     ttls: ConnTtls, fragmentTtl: nat, flowHash: FiveTuple -> nat, fragmentHash: FragmentId -> nat,
                     now: nat)

  datatype Arrival = Arrival(env: Env, packet: Packet)

  datatype Counters = Counters(received: nat, forwarded: nat, icmpSent: nat, rateLimited: nat, oversized: nat,
                               dropped: nat)

  datatype State = State(conn: seq<Slot>, frags: seq<Slot>, limiter: Limiter, counts: Counters)

  datatype Outcome = Forwarded(packet: Packet) | IcmpSent(packet: Packet) | OversizedRateLimited | Dropped

  predicate Sized(s: State) {
    0 < |s.conn| && 0 < |s.frags|
  }

  /** Every slot of every table names a backend, as in all tables that are built. */
  predicate Sound(env: Env) {
    forall id | id in env.tables :: SoundTable(env.tables[id])
  }

  predicate SoundTable(t: Maglev.LookupTable) {
    t.entries != [] && forall e | e in t.entries :: e < |t.backends|
  }

  // ----- parsing -----

  function ProtoOf(b: byte): Option<FlowProto> {
    if b == 6 then Some(Tcp) else if b == 17 then Some(Udp) else None
  }

  /** The 5-tuple, and the TCP flags when the packet reaches as far. */
  function ParseMeta(d: Packet): Option<Meta> {
    if |d| < 24 || d[0] / 16 != 4 || |d| < Ihl(d) + 4 || ProtoOf(d[9]).None? then None
    else
      var ihl := Ihl(d);
      var proto := ProtoOf(d[9]).value;
      Some(Meta(FiveTuple(AddressAt(d, 12), AddressAt(d, 16), Word(d, ihl), Word(d, ihl + 2), proto),
                if proto == Tcp && |d| >= ihl + 14 then Some(d[ihl + 13]) else None))
  }

  function ParseFragment(d: Packet): Option<FragmentId> {
    if |d| < 20 || d[0] / 16 != 4 then None
    else Some(FragmentId(AddressAt(d, 12), AddressAt(d, 16), Word(d, 4)))
  }

  function FragmentOffset(d: Packet): int
    requires 20 <= |d|
  {
    Word(d, 6) % 0x2000
  }

  /** More fragments to come, or not the first. */
  predicate IsFragment(d: Packet) {
    20 <= |d| && (Word(d, 6) / 0x2000 % 2 == 1 || FragmentOffset(d) != 0)
  }

  predicate IsLaterFragment(d: Packet) {
    20 <= |d| && FragmentOffset(d) != 0
  }

  predicate Fin(f: byte) { f % 2 == 1 }
  predicate Rst(f: byte) { f / 4 % 2 == 1 }
  predicate Ack(f: byte) { f / 16 % 2 == 1 }

  function InitialTcpState(flags: Option<byte>): TcpFlowState {
    match flags
    case None => TcpFlowState.NotTcp
    case Some(f) =>
      if Rst(f) || Fin(f) then Closing
      else if SynBit(f) && !Ack(f) then Handshake
      else if Ack(f) then Established
      else Handshake
  }

  /** What the flags of a packet do to its flow. */
  function FlagChange(flags: Option<byte>): Option<Change> {
    match flags
    case None => None
    case Some(f) => if Rst(f) || Fin(f) then Some(Close) else if Ack(f) && !SynBit(f) then Some(Establish) else None
  }

  // ----- one packet -----

  function EncapTo(env: Env, d: Packet, backend: Ip): Outcome {
    if env.srcIp.V4? && backend.V4? && |d| + Gre.ENCAP_OVERHEAD <= PACKET_BUF_SIZE
    then Forwarded(Gre.Encap(d, env.srcIp.v4, backend.v4))
    else Dropped
  }

  /** A later fragment follows the first one of its datagram. */
  function FollowFragment(frags: seq<Slot>, env: Env, d: Packet): Outcome
    requires 0 < |frags|
  {
    match ParseFragment(d)
    case None => Dropped
    case Some(id) =>
      match Lookup(frags, env.fragmentHash(id), Fragments(env.fragmentTtl, env.now))
      case None => Dropped
      case Some(ip) => EncapTo(env, d, ip)
  }

  /** The 5-tuple and the lookup table of the pool behind its VIP. */
  function Route(env: Env, d: Packet): (r: Option<(Meta, Maglev.LookupTable)>)
    ensures r.Some? && Sound(env) ==> SoundTable(r.value.1)
  {
    match ParseMeta(d)
    case None => None
    case Some(meta) =>
      var key := VipKey(meta.tuple.dst, meta.tuple.proto, meta.tuple.dstPort);
      if key !in env.vips || env.vips[key] !in env.tables then None
      else Some((meta, env.tables[env.vips[key]]))
  }

  /** The backend the flow is pinned to, when the table has one that may be used. */
  function Cached(conn: seq<Slot>, env: Env, h: nat): Option<Ip>
    requires 0 < |conn|
  {
    match Lookup(conn, h, Flows(env.ttls, env.now))
    case None => None
    case Some(ip) => if NotUnhealthy(ip, env.health) then Some(ip) else None
  }

  function NewRecord(env: Env, meta: Meta, ip: Ip): Record {
    Record(ip, env.now, meta.tuple.proto, InitialTcpState(meta.flags))
  }

  function Select(conn: seq<Slot>, env: Env, table: Maglev.LookupTable, meta: Meta): (r: (Ip, seq<Slot>))
    requires 0 < |conn| && SoundTable(table)
    ensures |r.1| == |conn|
  {
    var h := env.flowHash(meta.tuple);
    match Cached(conn, env, h)
    case Some(ip) => (ip, AmendStored(conn, h, Refresh, env.now))
    case None =>
      var ip := Maglev.Lookup(table, h).ip;
      (ip, Insert(conn, h, NewRecord(env, meta, ip), Flows(env.ttls, env.now)).table)
  }

  function Transition(conn: seq<Slot>, env: Env, meta: Meta): (r: seq<Slot>)
    requires 0 < |conn|
    ensures |r| == |conn|
  {
    match FlagChange(meta.flags)
    case None => conn
    case Some(c) => AmendStored(conn, env.flowHash(meta.tuple), c, env.now)
  }

  /** Backend and connection table after selection and TCP transitions. */
  function Track(conn: seq<Slot>, env: Env, table: Maglev.LookupTable, meta: Meta): (r: (Ip, seq<Slot>))
    requires 0 < |conn| && SoundTable(table)
    ensures |r.1| == |conn|
  {
    var (ip, u) := Select(conn, env, table, meta);
    (ip, Transition(u, env, meta))
  }

  /** A first fragment leaves its backend for the later ones. */
  function NoteFragment(frags: seq<Slot>, env: Env, d: Packet, backend: Ip): (r: seq<Slot>)
    requires 0 < |frags|
    ensures |r| == |frags|
  {
    if IsFragment(d) && ParseFragment(d).Some? then
      FragmentTables.PutResult(frags, env.fragmentTtl,
                               FragmentTables.Put(env.fragmentHash(ParseFragment(d).value), backend, env.now)).table
    else frags
  }

  function Deliver(limiter: Limiter, env: Env, out: Packet, meta: Meta, backend: Ip): (Limiter, Outcome) {
    if ShouldGenerateIcmp(out, env.mtu.networkMtu) then
      (limiter.Next(env.now),
       if limiter.Grants(env.now) then IcmpSent(IcmpPacket(out, meta.tuple.dst, env.mtu.effectiveInnerMtu))
       else OversizedRateLimited)
    else (limiter, EncapTo(env, out, backend))
  }

  /** Past routing: clamp, select, track, note a fragment, deliver. */
  function Forward(s: State, env: Env, d: Packet, meta: Meta, table: Maglev.LookupTable): (r: (State, Outcome))
    requires Sized(s) && SoundTable(table)
    ensures Sized(r.0) && r.0.counts == s.counts
  {
    var out := Clamp(d, env.mtu.tcpMssClamp).0;
    var (backend, conn) := Track(s.conn, env, table, meta);
    var (limiter, o) := Deliver(s.limiter, env, out, meta, backend);
    (State(conn, NoteFragment(s.frags, env, d, backend), limiter, s.counts), o)
  }

  function ProcessOne(s: State, a: Arrival): (r: (State, Outcome))
    requires Sized(s) && Sound(a.env)
    ensures Sized(r.0) && r.0.counts == s.counts
  {
    if IsLaterFragment(a.packet) then (s, FollowFragment(s.frags, a.env, a.packet))
    else
      match Route(a.env, a.packet)
      case None => (s, Dropped)
      case Some((meta, table)) => Forward(s, a.env, a.packet, meta, table)
  }

  function Count(c: Counters, o: Outcome): Counters {
    var c := c.(received := c.received + 1);
    match o
    case Forwarded(_) => c.(forwarded := c.forwarded + 1)
    case IcmpSent(_) => c.(icmpSent := c.icmpSent + 1, oversized := c.oversized + 1)
    case OversizedRateLimited =>
      c.(rateLimited := c.rateLimited + 1, oversized := c.oversized + 1, dropped := c.dropped + 1)
    case Dropped => c.(dropped := c.dropped + 1)
  }

  // ----- runs -----

  predicate AllSound(arrivals: seq<Arrival>) {
    forall i | 0 <= i < |arrivals| :: Sound(arrivals[i].env)
  }

  /** The state after the packets of a run, in order. */
  function After(s: State, arrivals: seq<Arrival>): (r: State)
    requires Sized(s) && AllSound(arrivals)
    ensures Sized(r)
  {
    if |arrivals| == 0 then s
    else
      var before := After(s, arrivals[..|arrivals| - 1]);
      var (t, o) := ProcessOne(before, arrivals[|arrivals| - 1]);
      t.(counts := Count(t.counts, o))
  }

  /** What becomes of the last packet of a run. */
  function LastOutcome(s: State, arrivals: seq<Arrival>): Outcome
    requires Sized(s) && AllSound(arrivals) && 0 < |arrivals|
  {
    ProcessOne(After(s, arrivals[..|arrivals| - 1]), arrivals[|arrivals| - 1]).1
  }

  function Emit(o: Outcome): seq<Packet> {
    if o.Forwarded? || o.IcmpSent? then [o.packet] else []
  }

  /** The packets sent out, collected in a fresh list. */
  function Sent(s: State, arrivals: seq<Arrival>): (r: seq<Packet>)
    requires Sized(s) && AllSound(arrivals)
    ensures |r| <= |arrivals|
  {
    if |arrivals| == 0 then [] else Sent(s, arrivals[..|arrivals| - 1]) + Emit(LastOutcome(s, arrivals))
  }

  /** Every packet received is forwarded, answered or dropped, exactly one of these; the
      packets sent are those forwarded and those answered; the oversized ones are those
      answered and those the limiter refused. */
  lemma {:induction false} RunConserves(s: State, arrivals: seq<Arrival>)
    requires Sized(s) && AllSound(arrivals)
    ensures var b, a := s.counts, After(s, arrivals).counts;
            && a.received - b.received == |arrivals|
            && a.received - b.received ==
               (a.forwarded - b.forwarded) + (a.icmpSent - b.icmpSent) + (a.dropped - b.dropped)
            && |Sent(s, arrivals)| == (a.forwarded - b.forwarded) + (a.icmpSent - b.icmpSent)
            && a.oversized - b.oversized == (a.icmpSent - b.icmpSent) + (a.rateLimited - b.rateLimited)
  {
    if 0 < |arrivals| {
      RunConserves(s, arrivals[..|arrivals| - 1]);
    }
  }

  // ----- packet sizes -----

  lemma ClampKeepsFront(d: Packet, maxMss: uint16, k: nat)
    requires k < |d| && k < 16
    ensures Clamp(d, maxMss).0[k] == d[k]
  {
    ClampChangesLittle(d, maxMss, k);
  }

  /** What the size check lets through fits the link once it is encapsulated. */
  lemma DeliveredFits(limiter: Limiter, env: Env, out: Packet, meta: Meta, backend: Ip)
    requires NewMtuConfig(env.mtu.networkMtu) == Some(env.mtu)
    requires 20 <= |out| && out[0] / 16 == 4 && DontFragment(out) && Word(out, 2) == |out|
    ensures var o := Deliver(limiter, env, out, meta, backend).1;
            o.Forwarded? ==> |o.packet| <= env.mtu.networkMtu
  {
    ShouldGenerateExactly(out, env.mtu.networkMtu);
  }

  /** No packet with the don't-fragment flag that is not a later fragment and whose length
      field is its length leaves larger than the network MTU, whatever the state. */
  lemma ForwardedFits(s: State, a: Arrival)
    requires Sized(s) && Sound(a.env) && NewMtuConfig(a.env.mtu.networkMtu) == Some(a.env.mtu)
    requires !IsLaterFragment(a.packet)
    requires 20 <= |a.packet| && DontFragment(a.packet) && Word(a.packet, 2) == |a.packet|
    ensures var o := ProcessOne(s, a).1;
            o.Forwarded? ==> |o.packet| <= a.env.mtu.networkMtu
  {
    if Route(a.env, a.packet).Some? {
      var (meta, table) := Route(a.env, a.packet).value;
      ForwardFits(s, a.env, a.packet, meta, table);
    }
  }

  lemma ForwardFits(s: State, env: Env, d: Packet, meta: Meta, table: Maglev.LookupTable)
    requires Sized(s) && SoundTable(table) && NewMtuConfig(env.mtu.networkMtu) == Some(env.mtu)
    requires 20 <= |d| && d[0] / 16 == 4 && DontFragment(d) && Word(d, 2) == |d|
    ensures var o := Forward(s, env, d, meta, table).1;
            o.Forwarded? ==> |o.packet| <= env.mtu.networkMtu
  {
    var out := Clamp(d, env.mtu.tcpMssClamp).0;
    ClampKeepsFront(d, env.mtu.tcpMssClamp, 0);
    ClampKeepsFront(d, env.mtu.tcpMssClamp, 2);
    ClampKeepsFront(d, env.mtu.tcpMssClamp, 3);
    ClampKeepsFront(d, env.mtu.tcpMssClamp, 6);
    DeliveredFits(s.limiter, env, out, meta, Track(s.conn, env, table, meta).0);
  }
}
