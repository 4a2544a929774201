/**
 What the rewriter promises across packets: a flow stays with its backend, fragments
 follow the first one, and no packet reaches a backend that was not picked for its flow.
 */
module ForwardingRuns {
  import opened Common
  import opened Entries
  import opened RobinHood
  import opened ConnTables
  import opened ConnRuns
  import opened Applier
  import opened Forwarding
  import FragmentTables
  import Gre
  import Maglev
  import RateLimiter
  import opened Checksums
  import opened Icmp
  import opened MssClamp

  // ----- a flow stays with its backend -----

  /** A new record under an old hash changes no probe. */
  lemma {:induction false} FindFromUpdate(t: seq<Slot>, i: nat, v: Record, h: nat, k: nat)
    requires i < |t| && t[i].Full? && k <= |t|
    ensures FindFrom(t[i := Full(t[i].hash, v)], h, k) == FindFrom(t, h, k)
    decreases |t| - k
  {
    if k < |t| {
      FindFromUpdate(t, i, v, h, k + 1);
    }
  }

  /** `h` is found, with this backend and this time stamp. */
  predicate Pinned(t: seq<Slot>, h: nat, ip: Ip, stamp: int) {
    0 < |t| && Find(t, h).Some? && t[Find(t, h).value].rec.ip == ip && t[Find(t, h).value].rec.stamp == stamp
  }

  lemma AmendPins(t: seq<Slot>, h: nat, c: Change, ip: Ip, stamp: int, now: int)
    requires Pinned(t, h, ip, stamp) && (c == Refresh || stamp == now)
    ensures Pinned(AmendStored(t, h, c, now), h, ip, now)
  {
    var i := Find(t, h).value;
    FindFromUpdate(t, i, Amend(c, t[i].rec, now), h, 0);
  }

  lemma InsertPins(t: seq<Slot>, h: nat, v: Record, p: Policy)
    requires 0 < |t| && !Blocked(t, h, p)
    ensures Pinned(Insert(t, h, v, p).table, h, v.ip, v.stamp)
  {
    InsertThenFind(t, h, v, p);
  }

  /** The table has room for the flow: it is cached, or some slot on its path gives way. */
  predicate Room(conn: seq<Slot>, env: Env, h: nat)
    requires 0 < |conn|
  {
    Cached(conn, env, h).Some? || !Blocked(conn, h, Flows(env.ttls, env.now))
  }

  lemma SelectPins(conn: seq<Slot>, env: Env, table: Maglev.LookupTable, meta: Meta)
    requires 0 < |conn| && SoundTable(table) && Room(conn, env, env.flowHash(meta.tuple))
    ensures var (ip, u) := Select(conn, env, table, meta);
            Pinned(u, env.flowHash(meta.tuple), ip, env.now)
  {
    var h := env.flowHash(meta.tuple);
    if Cached(conn, env, h).Some? {
      var r := conn[Find(conn, h).value].rec;
      AmendPins(conn, h, Refresh, r.ip, r.stamp, env.now);
    } else {
      InsertPins(conn, h, NewRecord(env, meta, Maglev.Lookup(table, h).ip), Flows(env.ttls, env.now));
    }
  }

  lemma TrackPins(conn: seq<Slot>, env: Env, table: Maglev.LookupTable, meta: Meta)
    requires 0 < |conn| && SoundTable(table) && Room(conn, env, env.flowHash(meta.tuple))
    ensures var (ip, u) := Track(conn, env, table, meta);
            Pinned(u, env.flowHash(meta.tuple), ip, env.now)
  {
    SelectPins(conn, env, table, meta);
    var (ip, u) := Select(conn, env, table, meta);
    if FlagChange(meta.flags).Some? {
      AmendPins(u, env.flowHash(meta.tuple), FlagChange(meta.flags).value, ip, env.now, env.now);
    }
  }

  /** The entry of `h` has not expired at the time of `env`. */
  predicate Live(conn: seq<Slot>, env: Env, h: nat) {
    0 < |conn| && Find(conn, h).Some? && !Expired(Flows(env.ttls, env.now), conn[Find(conn, h).value].rec)
  }

  /** On any table content: once a packet of a flow has found room, a packet of the same
      5-tuple handled directly after it goes to the same backend, whatever has become of
      lookup tables and configuration, as long as the entry has not expired and the backend
      is not unhealthy. `ForwardingAffinity.FlowSticks` speaks of whole runs. */
  lemma NextPacketSticks(conn: seq<Slot>, env: Env, table: Maglev.LookupTable, meta: Meta,
                         later: Env, table': Maglev.LookupTable, meta': Meta)
    requires 0 < |conn| && SoundTable(table) && SoundTable(table') && meta'.tuple == meta.tuple
    requires later.flowHash == env.flowHash
    requires Room(conn, env, env.flowHash(meta.tuple))
    ensures var (ip, u) := Track(conn, env, table, meta);
            && (later.now == env.now && later.ttls == env.ttls ==> Live(u, later, env.flowHash(meta.tuple)))
            && (Live(u, later, env.flowHash(meta.tuple)) && NotUnhealthy(ip, later.health) ==>
                Track(u, later, table', meta').0 == ip)
  {
    TrackPins(conn, env, table, meta);
  }

  // ----- later fragments follow the first -----

  /** On any table content: directly after the first fragment of a datagram, a later one
      goes to the backend the first was given, while the mapping is not older than its time
      to live, unless the fragment table had no slot to give. */
  lemma NextFragmentFollows(frags: seq<Slot>, env: Env, d: Packet, backend: Ip, later: Env, d': Packet)
    requires 0 < |frags| && IsFragment(d) && ParseFragment(d).Some? && ParseFragment(d') == ParseFragment(d)
    requires later.fragmentHash == env.fragmentHash && later.fragmentTtl == env.fragmentTtl
    requires !Blocked(frags, env.fragmentHash(ParseFragment(d).value), Fragments(env.fragmentTtl, env.now))
    requires later.now - env.now <= env.fragmentTtl
    ensures FollowFragment(NoteFragment(frags, env, d, backend), later, d') == EncapTo(later, d', backend)
  {
    InsertPins(frags, env.fragmentHash(ParseFragment(d).value), FragmentTables.FragmentRecord(backend, env.now),
               Fragments(env.fragmentTtl, env.now));
  }

  // ----- what backends and senders get -----

  /** The packet reaches backend selection. */
  predicate Routed(a: Arrival) {
    !IsLaterFragment(a.packet) && Route(a.env, a.packet).Some?
  }

  /** The backend chosen for a routed packet takes it out of the tunnel as it was sent, up
      to the clamped MSS. */
  lemma BackendGetsThePacket(s: State, a: Arrival)
    requires Sized(s) && Sound(a.env) && Routed(a) && ProcessOne(s, a).1.Forwarded?
    ensures var (meta, table) := Route(a.env, a.packet).value;
            var ip := Track(s.conn, a.env, table, meta).0;
            && a.env.srcIp.V4? && ip.V4?
            && Gre.Decap(ProcessOne(s, a).1.packet) ==
               Some(Gre.Tunnelled(a.env.srcIp.v4, ip.v4, Gre.GRE_PROTO_IPV4, Clamp(a.packet, a.env.mtu.tcpMssClamp).0))
  {
    var (meta, table) := Route(a.env, a.packet).value;
    var out := Clamp(a.packet, a.env.mtu.tcpMssClamp).0;
    ClampKeepsFront(a.packet, a.env.mtu.tcpMssClamp, 0);
    TunnelRoundTrip(a.env, out, Track(s.conn, a.env, table, meta).0);
  }

  /** A later fragment arrives exactly as it was sent. */
  lemma BackendGetsTheFragment(s: State, a: Arrival)
    requires Sized(s) && Sound(a.env) && IsLaterFragment(a.packet) && ProcessOne(s, a).1.Forwarded?
    ensures var h := a.env.fragmentHash(ParseFragment(a.packet).value);
            var ip := Lookup(s.frags, h, Fragments(a.env.fragmentTtl, a.env.now));
            && a.env.srcIp.V4? && ip.Some? && ip.value.V4?
            && Gre.Decap(ProcessOne(s, a).1.packet) ==
               Some(Gre.Tunnelled(a.env.srcIp.v4, ip.value.v4, Gre.GRE_PROTO_IPV4, a.packet))
  {
    var h := a.env.fragmentHash(ParseFragment(a.packet).value);
    var ip := Lookup(s.frags, h, Fragments(a.env.fragmentTtl, a.env.now));
    TunnelRoundTrip(a.env, a.packet, ip.value);
  }

  lemma TunnelRoundTrip(env: Env, d: Packet, ip: Ip)
    requires d != [] && d[0] / 16 == 4 && EncapTo(env, d, ip).Forwarded?
    ensures env.srcIp.V4? && ip.V4?
    ensures Gre.Decap(EncapTo(env, d, ip).packet) == Some(Gre.Tunnelled(env.srcIp.v4, ip.v4, Gre.GRE_PROTO_IPV4, d))
  {
    Gre.DecapEncap(d, env.srcIp.v4, ip.v4);
  }

  /** The sender of an oversized packet gets an error from the VIP it sent to, with the MTU
      that fits the tunnel and the front of the packet as it would have been forwarded. */
  lemma SenderGetsTheError(s: State, a: Arrival)
    requires Sized(s) && Sound(a.env) && Routed(a) && ProcessOne(s, a).1.IcmpSent?
    ensures var tuple := Route(a.env, a.packet).value.0.tuple;
            var out := Clamp(a.packet, a.env.mtu.tcpMssClamp).0;
            Receive(ProcessOne(s, a).1.packet) ==
            Some(Notice(tuple.dst, tuple.src, a.env.mtu.effectiveInnerMtu, if 28 <= |out| then out[..28] else out))
  {
    SenderIsKept(a.packet, a.env.mtu.tcpMssClamp);
    ErrorIs(s, a);
    var out := Clamp(a.packet, a.env.mtu.tcpMssClamp).0;
    ReceiveGenerated(out, Route(a.env, a.packet).value.0.tuple.dst, a.env.mtu.effectiveInnerMtu);
  }

  lemma ErrorIs(s: State, a: Arrival)
    requires Sized(s) && Sound(a.env) && Routed(a) && ProcessOne(s, a).1.IcmpSent?
    ensures var tuple := Route(a.env, a.packet).value.0.tuple;
            && ProcessOne(s, a).1.packet ==
               IcmpPacket(Clamp(a.packet, a.env.mtu.tcpMssClamp).0, tuple.dst, a.env.mtu.effectiveInnerMtu)
            && 24 <= |a.packet| && tuple.src == AddressAt(a.packet, 12)
  {
  }

  lemma SenderIsKept(d: Packet, maxMss: uint16)
    requires 24 <= |d|
    ensures Sender(Clamp(d, maxMss).0) == AddressAt(d, 12)
  {
    ClampKeepsFront(d, maxMss, 12);
    ClampKeepsFront(d, maxMss, 13);
    ClampKeepsFront(d, maxMss, 14);
    ClampKeepsFront(d, maxMss, 15);
  }

  // ----- the table is always the product of a run of its operations -----

  /** The operations on the connection table that one routed packet makes. */
  function FlowOps(conn: seq<Slot>, env: Env, table: Maglev.LookupTable, meta: Meta): seq<Op>
    requires 0 < |conn| && SoundTable(table)
  {
    [FirstOp(conn, env, table, meta)] + FlagOps(env, meta)
  }

  function FirstOp(conn: seq<Slot>, env: Env, table: Maglev.LookupTable, meta: Meta): Op
    requires 0 < |conn| && SoundTable(table)
  {
    var h := env.flowHash(meta.tuple);
    if Cached(conn, env, h).Some? then Mark(h, Refresh, env.now)
    else Op.Put(h, NewRecord(env, meta, Maglev.Lookup(table, h).ip))
  }

  function FlagOps(env: Env, meta: Meta): (r: seq<Op>)
    ensures |r| <= 1
  {
    match FlagChange(meta.flags)
    case None => []
    case Some(c) => [Mark(env.flowHash(meta.tuple), c, env.now)]
  }

  lemma PlayOne(cap: nat, ttls: ConnTtls, ops: seq<Op>, op: Op)
    requires 0 < cap
    ensures Play(cap, ttls, ops + [op]) == Apply(Play(cap, ttls, ops), ttls, op)
  {
    assert (ops + [op])[..|ops|] == ops;
  }

  lemma TrackIsPlay(cap: nat, ops: seq<Op>, env: Env, table: Maglev.LookupTable, meta: Meta)
    requires 0 < cap && SoundTable(table)
    ensures var conn := Play(cap, env.ttls, ops);
            Track(conn, env, table, meta).1 == Play(cap, env.ttls, ops + FlowOps(conn, env, table, meta))
  {
    var conn := Play(cap, env.ttls, ops);
    var first, flag := FirstOp(conn, env, table, meta), FlagOps(env, meta);
    PlayOne(cap, env.ttls, ops, first);
    if flag == [] {
      assert ops + ([first] + flag) == ops + [first];
    } else {
      PlayOne(cap, env.ttls, ops + [first], flag[0]);
      assert ops + ([first] + flag) == ops + [first] + [flag[0]];
    }
  }

  function RunOps(s: State, arrivals: seq<Arrival>): seq<Op>
    requires Sized(s) && AllSound(arrivals)
  {
    if |arrivals| == 0 then []
    else
      var before, a := arrivals[..|arrivals| - 1], arrivals[|arrivals| - 1];
      RunOps(s, before) + StepOps(After(s, before), a)
  }

  function StepOps(s: State, a: Arrival): seq<Op>
    requires Sized(s) && Sound(a.env)
  {
    if !Routed(a) then []
    else
      var (meta, table) := Route(a.env, a.packet).value;
      FlowOps(s.conn, a.env, table, meta)
  }

  lemma StepIsPlay(s: State, a: Arrival, ops: seq<Op>)
    requires Sized(s) && Sound(a.env) && s.conn == Play(|s.conn|, a.env.ttls, ops)
    ensures ProcessOne(s, a).0.conn == Play(|s.conn|, a.env.ttls, ops + StepOps(s, a))
  {
    if Routed(a) {
      var (meta, table) := Route(a.env, a.packet).value;
      TrackIsPlay(|s.conn|, ops, a.env, table, meta);
    } else {
      assert ops + StepOps(s, a) == ops;
    }
  }

  /** One rewriter has one set of time-outs. */
  predicate SameRewriter(arrivals: seq<Arrival>, ttls: ConnTtls) {
    forall i | 0 <= i < |arrivals| :: arrivals[i].env.ttls == ttls
  }

  /** Whatever the packets, the connection table is the product of a run of inserts and
      marks; all theorems on such runs apply to it. */
  lemma {:induction false} RunIsPlay(s: State, arrivals: seq<Arrival>, ttls: ConnTtls)
    requires Sized(s) && s.conn == Play(|s.conn|, ttls, []) && AllSound(arrivals) && SameRewriter(arrivals, ttls)
    ensures After(s, arrivals).conn == Play(|s.conn|, ttls, RunOps(s, arrivals))
  {
    if 0 < |arrivals| {
      var before, a := arrivals[..|arrivals| - 1], arrivals[|arrivals| - 1];
      RunIsPlay(s, before, ttls);
      StepIsPlay(After(s, before), a, RunOps(s, before));
    }
  }

  /** The backend Maglev gives the flow of a packet, under the tables of its time. */
  predicate Picks(a: Arrival, h: nat, ip: Ip) {
    Sound(a.env) && Routed(a) && var (meta, table) := Route(a.env, a.packet).value;
                                 a.env.flowHash(meta.tuple) == h && Maglev.Lookup(table, h).ip == ip
  }

  predicate Picked(arrivals: seq<Arrival>, h: nat, ip: Ip) {
    exists i :: 0 <= i < |arrivals| && Picks(arrivals[i], h, ip)
  }

  lemma StepPuts(s: State, a: Arrival, j: nat)
    requires Sized(s) && Sound(a.env) && j < |StepOps(s, a)| && StepOps(s, a)[j].Put?
    ensures var op := StepOps(s, a)[j]; Picks(a, op.hash, op.rec.ip)
  {
    var (meta, table) := Route(a.env, a.packet).value;
    assert StepOps(s, a)[0] == FirstOp(s.conn, a.env, table, meta);
  }

  lemma {:induction false} PutsArePicks(s: State, arrivals: seq<Arrival>, op: Op)
    requires Sized(s) && AllSound(arrivals) && op in RunOps(s, arrivals) && op.Put?
    ensures Picked(arrivals, op.hash, op.rec.ip)
  {
    var before, a := arrivals[..|arrivals| - 1], arrivals[|arrivals| - 1];
    if op in RunOps(s, before) {
      PutsArePicks(s, before, op);
      var i :| 0 <= i < |before| && Picks(before[i], op.hash, op.rec.ip);
      assert Picks(arrivals[i], op.hash, op.rec.ip);
    } else {
      var steps := StepOps(After(s, before), a);
      var j :| 0 <= j < |steps| && steps[j] == op;
      StepPuts(After(s, before), a, j);
    }
  }

  /** No flow ever reaches a backend that was not picked for it: over every run of a fresh
      rewriter, with time-outs, reclaims and lost entries, the backend a packet is sent to
      is the one Maglev picks for that flow hash now or picked for an earlier packet. */
  lemma BackendWasPicked(s: State, arrivals: seq<Arrival>, a: Arrival, ttls: ConnTtls)
    requires Sized(s) && s.conn == Play(|s.conn|, ttls, []) && AllSound(arrivals) && SameRewriter(arrivals, ttls)
    requires Sound(a.env) && a.env.ttls == ttls && Routed(a)
    ensures var (meta, table) := Route(a.env, a.packet).value;
            var ip := Track(After(s, arrivals).conn, a.env, table, meta).0;
            Picks(a, a.env.flowHash(meta.tuple), ip) || Picked(arrivals, a.env.flowHash(meta.tuple), ip)
  {
    var (meta, table) := Route(a.env, a.packet).value;
    var h := a.env.flowHash(meta.tuple);
    if Cached(After(s, arrivals).conn, a.env, h).Some? {
      CachedWasPicked(s, arrivals, ttls, h, a.env.now);
    }
  }

  lemma CachedWasPicked(s: State, arrivals: seq<Arrival>, ttls: ConnTtls, h: nat, now: int)
    requires Sized(s) && s.conn == Play(|s.conn|, ttls, []) && AllSound(arrivals) && SameRewriter(arrivals, ttls)
    requires Lookup(After(s, arrivals).conn, h, Flows(ttls, now)).Some?
    ensures Picked(arrivals, h, Lookup(After(s, arrivals).conn, h, Flows(ttls, now)).value)
  {
    var ops := RunOps(s, arrivals);
    RunIsPlay(s, arrivals, ttls);
    LookupIsSound(|s.conn|, ttls, ops, h, now);
    var t := After(s, arrivals).conn;
    var a, b :| 0 <= a <= b < |ops| && MadeBy(ops, h, t[Find(t, h).value].rec, a, b);
    PutsArePicks(s, arrivals, ops[a]);
  }

  /** The insert that a packet makes into the fragment table, if it is a routed first
      fragment. */
  function FragmentOps(s: State, a: Arrival): seq<FragmentTables.Put>
    requires Sized(s) && Sound(a.env)
  {
    if !Routed(a) || !IsFragment(a.packet) || ParseFragment(a.packet).None? then []
    else
      var (meta, table) := Route(a.env, a.packet).value;
      var h := a.env.fragmentHash(ParseFragment(a.packet).value);
      [FragmentTables.Put(h, Track(s.conn, a.env, table, meta).0, a.env.now)]
  }

  function RunFragmentOps(s: State, arrivals: seq<Arrival>): seq<FragmentTables.Put>
    requires Sized(s) && AllSound(arrivals)
  {
    if |arrivals| == 0 then []
    else
      var before, a := arrivals[..|arrivals| - 1], arrivals[|arrivals| - 1];
      RunFragmentOps(s, before) + FragmentOps(After(s, before), a)
  }

  predicate SameFragmentTtl(arrivals: seq<Arrival>, ttl: nat) {
    forall i | 0 <= i < |arrivals| :: arrivals[i].env.fragmentTtl == ttl
  }

  lemma FragmentStepIsPlay(s: State, a: Arrival, ops: seq<FragmentTables.Put>)
    requires Sized(s) && Sound(a.env) && s.frags == FragmentTables.Play(|s.frags|, a.env.fragmentTtl, ops)
    ensures ProcessOne(s, a).0.frags == FragmentTables.Play(|s.frags|, a.env.fragmentTtl, ops + FragmentOps(s, a))
  {
    var more := FragmentOps(s, a);
    if more == [] {
      assert ops + more == ops;
    } else {
      assert (ops + more)[..|ops|] == ops && (ops + more)[|ops|] == more[0];
    }
  }

  lemma {:induction false} FragmentsArePlay(s: State, arrivals: seq<Arrival>, ttl: nat)
    requires Sized(s) && s.frags == FragmentTables.Play(|s.frags|, ttl, [])
    requires AllSound(arrivals) && SameFragmentTtl(arrivals, ttl)
    ensures After(s, arrivals).frags == FragmentTables.Play(|s.frags|, ttl, RunFragmentOps(s, arrivals))
  {
    if 0 < |arrivals| {
      var before, a := arrivals[..|arrivals| - 1], arrivals[|arrivals| - 1];
      FragmentsArePlay(s, before, ttl);
      FragmentStepIsPlay(After(s, before), a, RunFragmentOps(s, before));
    }
  }

  /** The packet is a first fragment with this hash, handled at `at` in the state after the
      packets before it, and sent to `ip`. */
  predicate Leads(s: State, a: Arrival, h: nat, ip: Ip, at: int)
    requires Sized(s)
  {
    Sound(a.env) && FragmentOps(s, a) == [FragmentTables.Put(h, ip, at)]
  }

  predicate Led(s: State, arrivals: seq<Arrival>, h: nat, ip: Ip, at: int)
    requires Sized(s) && AllSound(arrivals)
  {
    0 < |arrivals| &&
      (Leads(After(s, arrivals[..|arrivals| - 1]), arrivals[|arrivals| - 1], h, ip, at)
       || Led(s, arrivals[..|arrivals| - 1], h, ip, at))
  }

  lemma {:induction false} FragmentPutsAreLed(s: State, arrivals: seq<Arrival>, op: FragmentTables.Put)
    requires Sized(s) && AllSound(arrivals) && op in RunFragmentOps(s, arrivals)
    ensures Led(s, arrivals, op.hash, op.ip, op.now)
  {
    var before, a := arrivals[..|arrivals| - 1], arrivals[|arrivals| - 1];
    if op in RunFragmentOps(s, before) {
      FragmentPutsAreLed(s, before, op);
    } else {
      assert op in FragmentOps(After(s, before), a);
    }
  }

  /** Over every run of a fresh rewriter, a later fragment is sent only to the backend that
      a first fragment with the same hash was given, at most the time to live ago. */
  lemma LaterFragmentWasLed(s: State, arrivals: seq<Arrival>, h: nat, ttl: nat, now: nat)
    requires Sized(s) && s.frags == FragmentTables.Play(|s.frags|, ttl, [])
    requires AllSound(arrivals) && SameFragmentTtl(arrivals, ttl)
    requires Lookup(After(s, arrivals).frags, h, Fragments(ttl, now)).Some?
    ensures var ip := Lookup(After(s, arrivals).frags, h, Fragments(ttl, now)).value;
            exists at :: now - at <= ttl && Led(s, arrivals, h, ip, at)
  {
    var ops := RunFragmentOps(s, arrivals);
    FragmentsArePlay(s, arrivals, ttl);
    FragmentTables.LookupIsSound(|s.frags|, ttl, ops, h, now);
    var i :| 0 <= i < |ops| && ops[i].hash == h && now - ops[i].now <= ttl
             && Lookup(After(s, arrivals).frags, h, Fragments(ttl, now)) == Some(ops[i].ip);
    FragmentPutsAreLed(s, arrivals, ops[i]);
  }

  // ----- how many errors are sent -----

  /** The packet asks the limiter for an error. */
  predicate Asks(a: Arrival) {
    Routed(a) && ShouldGenerateIcmp(Clamp(a.packet, a.env.mtu.tcpMssClamp).0, a.env.mtu.networkMtu)
  }

  function AskTime(a: Arrival): (r: seq<RateLimiter.Time>)
    ensures |r| <= 1
  {
    if Asks(a) then [a.env.now] else []
  }

  /** The times at which the packets of a run ask. */
  function AskTimes(arrivals: seq<Arrival>): seq<RateLimiter.Time> {
    if |arrivals| == 0 then [] else AskTimes(arrivals[..|arrivals| - 1]) + AskTime(arrivals[|arrivals| - 1])
  }

  /** The errors a run sends in the second that starts at `from`. */
  function ErrorsSent(s: State, arrivals: seq<Arrival>, from: RateLimiter.Time): nat
    requires Sized(s) && AllSound(arrivals)
  {
    if |arrivals| == 0 then 0
    else
      var before, a := arrivals[..|arrivals| - 1], arrivals[|arrivals| - 1];
      ErrorsSent(s, before, from) + ErrorSent(After(s, before), a, from)
  }

  function ErrorSent(s: State, a: Arrival, from: RateLimiter.Time): nat
    requires Sized(s) && Sound(a.env)
  {
    if ProcessOne(s, a).1.IcmpSent? && from <= a.env.now < from + 1_000_000_000 then 1 else 0
  }

  lemma StepAsks(s: State, a: Arrival)
    requires Sized(s) && Sound(a.env)
    ensures ProcessOne(s, a).1.IcmpSent? <==> Asks(a) && s.limiter.Grants(a.env.now)
    ensures ProcessOne(s, a).0.limiter == if Asks(a) then s.limiter.Next(a.env.now) else s.limiter
  {
  }

  lemma StepGrants(s: State, a: Arrival, l: RateLimiter.Limiter, times: seq<RateLimiter.Time>, from: RateLimiter.Time)
    requires Sized(s) && Sound(a.env) && s.limiter == RateLimiter.After(l, times)
    ensures ProcessOne(s, a).0.limiter == RateLimiter.After(l, times + AskTime(a))
    ensures RateLimiter.Granted(l, times + AskTime(a), from) ==
            RateLimiter.Granted(l, times, from) + ErrorSent(s, a, from)
  {
    StepAsks(s, a);
    if AskTime(a) == [] {
      assert times + AskTime(a) == times;
    } else {
      assert (times + AskTime(a))[..|times|] == times;
    }
  }

  lemma {:induction false} ErrorsAreGrants(s: State, arrivals: seq<Arrival>, from: RateLimiter.Time)
    requires Sized(s) && AllSound(arrivals)
    ensures After(s, arrivals).limiter == RateLimiter.After(s.limiter, AskTimes(arrivals))
    ensures ErrorsSent(s, arrivals, from) == RateLimiter.Granted(s.limiter, AskTimes(arrivals), from)
  {
    if 0 < |arrivals| {
      var before, a := arrivals[..|arrivals| - 1], arrivals[|arrivals| - 1];
      ErrorsAreGrants(s, before, from);
      StepGrants(After(s, before), a, s.limiter, AskTimes(before), from);
    }
  }

  /** The clock never goes back, and does not start before the limiter. */
  ghost predicate Clocked(l: RateLimiter.Limiter, arrivals: seq<Arrival>) {
    && (forall i | 0 <= i < |arrivals| :: l.start <= arrivals[i].env.now)
    && (forall i, j | 0 <= i < j < |arrivals| :: arrivals[i].env.now <= arrivals[j].env.now)
  }

  lemma MonotoneAppend(l: RateLimiter.Limiter, times: seq<RateLimiter.Time>, t: RateLimiter.Time)
    requires RateLimiter.Monotone(l, times) && l.start <= t && forall x | x in times :: x <= t
    ensures RateLimiter.Monotone(l, times + [t])
  {
    forall i, j | 0 <= i < j < |times + [t]|
      ensures (times + [t])[i] <= (times + [t])[j]
    {
      assert times[i] in times;
    }
  }

  lemma {:induction false} AskTimesMonotone(l: RateLimiter.Limiter, arrivals: seq<Arrival>)
    requires Clocked(l, arrivals)
    ensures RateLimiter.Monotone(l, AskTimes(arrivals))
    ensures forall t | t in AskTimes(arrivals) :: 0 < |arrivals| && t <= arrivals[|arrivals| - 1].env.now
  {
    if 0 < |arrivals| {
      var before, a := arrivals[..|arrivals| - 1], arrivals[|arrivals| - 1];
      AskTimesMonotone(l, before);
      forall t | t in AskTimes(before)
        ensures t <= a.env.now
      {
        assert before[|before| - 1].env.now <= a.env.now;
      }
      if Asks(a) {
        MonotoneAppend(l, AskTimes(before), a.env.now);
      }
    }
  }

  /** Whatever arrives, a rewriter sends at most twice its configured number of errors in
      any one second. */
  lemma ErrorRateBound(s: State, arrivals: seq<Arrival>, from: RateLimiter.Time)
    requires Sized(s) && AllSound(arrivals) && s.limiter.count <= s.limiter.max && Clocked(s.limiter, arrivals)
    ensures ErrorsSent(s, arrivals, from) <= 2 * s.limiter.max
  {
    ErrorsAreGrants(s, arrivals, from);
    AskTimesMonotone(s.limiter, arrivals);
    RateLimiter.RateBound(s.limiter, AskTimes(arrivals), from);
  }
}
