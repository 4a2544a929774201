/**
 The rewriter thread: its tables, limiter and counters, updated in place by every packet,
 and the batch that is compacted in the slice it came in.
 */
module Rewriters {
  import opened Common
  import opened Entries
  import opened RobinHood
  import opened ConnTables
  import opened FragmentTables
  import opened RateLimiter
  import opened Icmp
  import opened Applier
  import opened Forwarding
  import Gre
  import Maglev
  import MssClamp

  class RewriterThread {
    const conn: ConnTable
    const frags: FragmentTable
    const limiter: IcmpRateLimiter
    var counts: Counters

    ghost predicate Valid()
      reads this, conn, conn.entries, frags.entries
    {
      conn.Valid() && frags.Valid() && conn.entries != frags.entries
    }

    ghost function Value(): State
      reads this, conn.entries, frags.entries, limiter
    {
      State(conn.Table(), frags.Table(), limiter.State(), counts)
    }

    /** The environment carries the parameters this thread was made with. */
    predicate Mine(env: Env) {
      env.ttls == conn.ttls && env.fragmentTtl == frags.ttl && Sound(env)
    }

    constructor (connSize: nat, ttls: ConnTtls, fragSize: nat, fragTtl: nat, icmpRate: nat, now: nat)
      requires PowerOfTwo(connSize) && PowerOfTwo(fragSize)
      ensures Valid() && fresh(conn) && fresh(conn.entries) && fresh(frags.entries) && fresh(limiter)
      ensures conn.ttls == ttls && frags.ttl == fragTtl
      ensures Value() == State(seq(connSize, _ => Empty), seq(fragSize, _ => Empty), Limiter(icmpRate, 0, now),
                               Counters(0, 0, 0, 0, 0, 0))
    {
      var c := new ConnTable(connSize, ttls);
      var f := new FragmentTable(fragSize, fragTtl);
      var l := new IcmpRateLimiter(icmpRate, now);
      conn, frags, limiter := c, f, l;
      counts := Counters(0, 0, 0, 0, 0, 0);
    }

    /** In place: packet after packet is read, and what is to be sent is written back to the
        front of the same slice. `healths[i]` is the health map as packet `i` finds it. The
        slice then holds what sending the packets in order into a fresh list would give. */
    method ProcessBatch(packets: array<Packet>, env: Env, healths: seq<Health>) returns (n: nat)
      requires Valid() && Mine(env) && |healths| == packets.Length
      modifies this, conn, conn.entries, frags.entries, limiter, packets
      ensures Valid()
      ensures var run := Arrivals(env, healths, old(packets[..]));
              && AllSound(run) && Sized(old(Value()))
              && Value() == Forwarding.After(old(Value()), run)
              && n == |Sent(old(Value()), run)| <= packets.Length
              && packets[..n] == Sent(old(Value()), run)
      ensures packets[n..] == old(packets[n..])
    {
      ghost var s := Value();
      ghost var was := packets[..];
      ghost var run := Arrivals(env, healths, was);
      AllSoundArrivals(env, healths, was);
      n := 0;
      for i := 0 to packets.Length
        invariant Valid() && Midway(packets[..], Value(), s, was, run, i, n)
      {
        MidwayStep(packets[..], Value(), s, was, run, i, n);
        n := Next(packets, env.(health := healths[i]), i, n);
      }
      assert run[..packets.Length] == run;
    }

    method Next(packets: array<Packet>, env: Env, i: nat, n: nat) returns (m: nat)
      requires Valid() && Mine(env) && n <= i < packets.Length
      modifies this, conn, conn.entries, frags.entries, limiter, packets
      ensures Valid()
      ensures (packets[..], Value(), m) == Turn(old(packets[..]), old(Value()), env, i, n)
    {
      var o := Handle(env, packets[i]);
      m := Keep(packets, n, o);
    }

    /** One packet, counted. */
    method Handle(env: Env, input: Packet) returns (o: Outcome)
      requires Valid() && Mine(env)
      modifies this, conn, conn.entries, frags.entries, limiter
      ensures Valid()
      ensures (Value(), o) == Counted(Forwarding.ProcessOne(old(Value()), Arrival(env, input)))
    {
      o := ProcessOne(env, input);
      counts := Count(counts, o);
    }

    method ProcessOne(env: Env, input: Packet) returns (o: Outcome)
      requires Valid() && Mine(env)
      modifies conn, conn.entries, frags.entries, limiter
      ensures Valid()
      ensures (Value(), o) == Forwarding.ProcessOne(old(Value()), Arrival(env, input))
    {
      if IsLaterFragment(input) {
        o := FollowFirst(env, input);
        return;
      }
      var meta := ParseMeta(input);
      if meta.None? {
        return Dropped;
      }
      var tuple := meta.value.tuple;
      var key := VipKey(tuple.dst, tuple.proto, tuple.dstPort);
      if key !in env.vips {
        return Dropped;
      }
      var out := ClampCopy(input, env.mtu.tcpMssClamp);
      if env.vips[key] !in env.tables {
        return Dropped;
      }
      o := ForwardRouted(env, input, out, meta.value, env.tables[env.vips[key]]);
    }

    method FollowFirst(env: Env, input: Packet) returns (o: Outcome)
      requires Valid() && Mine(env)
      ensures o == FollowFragment(frags.Table(), env, input)
    {
      var id := ParseFragment(input);
      if id.None? {
        return Dropped;
      }
      var backend := frags.Get(env.fragmentHash(id.value), env.now);
      if backend.None? {
        return Dropped;
      }
      o := Encapsulate(env, input, backend.value);
    }

    method ForwardRouted(env: Env, input: Packet, out: Packet, meta: Meta, table: Maglev.LookupTable)
      returns (o: Outcome)
      requires Valid() && Mine(env) && SoundTable(table) && out == MssClamp.Clamp(input, env.mtu.tcpMssClamp).0
      modifies conn, conn.entries, frags.entries, limiter
      ensures Valid()
      ensures (Value(), o) == Forward(old(Value()), env, input, meta, table)
    {
      var backend := SelectBackend(env, meta, table);
      ApplyTcpTransitions(env, meta);
      RecordFirstFragment(env, input, backend);
      o := Finish(env, out, meta, backend);
    }

    method SelectBackend(env: Env, meta: Meta, table: Maglev.LookupTable) returns (backend: Ip)
      requires Valid() && Mine(env) && SoundTable(table)
      modifies conn, conn.entries
      ensures conn.Valid() && (backend, conn.Table()) == Select(old(conn.Table()), env, table, meta)
    {
      var h := env.flowHash(meta.tuple);
      var cached := conn.Get(h, env.now);
      if cached.Some? && NotUnhealthy(cached.value, env.health) {
        conn.Touch(h, env.now);
        return cached.value;
      }
      backend := Maglev.Lookup(table, h).ip;
      var _ := conn.Insert(h, backend, meta.tuple.proto, InitialTcpState(meta.flags), env.now);
    }

    method ApplyTcpTransitions(env: Env, meta: Meta)
      requires Valid() && Mine(env)
      modifies conn.entries
      ensures conn.Valid() && conn.Table() == Transition(old(conn.Table()), env, meta)
    {
      if meta.flags.Some? {
        var h, f := env.flowHash(meta.tuple), meta.flags.value;
        if Rst(f) {
          conn.MarkClosing(h, env.now);
          return;
        }
        if Fin(f) {
          conn.MarkClosing(h, env.now);
          return;
        }
        if Ack(f) && !MssClamp.SynBit(f) {
          conn.MarkEstablished(h, env.now);
        }
      }
    }

    method RecordFirstFragment(env: Env, input: Packet, backend: Ip)
      requires Valid() && Mine(env)
      modifies frags.entries
      ensures frags.Table() == NoteFragment(old(frags.Table()), env, input, backend)
    {
      if IsFragment(input) {
        var id := ParseFragment(input);
        if id.Some? {
          frags.Insert(env.fragmentHash(id.value), backend, env.now);
        }
      }
    }

    method Finish(env: Env, out: Packet, meta: Meta, backend: Ip) returns (o: Outcome)
      modifies limiter
      ensures (limiter.State(), o) == Deliver(old(limiter.State()), env, out, meta, backend)
    {
      if ShouldGenerateIcmp(out, env.mtu.networkMtu) {
        var ok := limiter.Allow(env.now);
        if ok {
          var buf, len := GenerateIcmpFragNeeded(out, meta.tuple.dst, env.mtu.effectiveInnerMtu);
          return IcmpSent(buf[..len]);
        }
        return OversizedRateLimited;
      }
      o := Encapsulate(env, out, backend);
    }
  }

  /** The packets of a batch with what each of them finds. */
  function Arrivals(env: Env, healths: seq<Health>, packets: seq<Packet>): (r: seq<Arrival>)
    requires |healths| == |packets|
    ensures |r| == |packets|
    ensures forall i | 0 <= i < |packets| :: r[i] == Arrival(env.(health := healths[i]), packets[i])
  {
    seq(|packets|, i requires 0 <= i < |packets| => Arrival(env.(health := healths[i]), packets[i]))
  }

  lemma AllSoundArrivals(env: Env, healths: seq<Health>, packets: seq<Packet>)
    requires |healths| == |packets| && Sound(env)
    ensures AllSound(Arrivals(env, healths, packets))
    ensures forall i | 0 <= i <= |packets| :: AllSound(Arrivals(env, healths, packets)[..i])
  {
  }

  function Counted(r: (State, Outcome)): (State, Outcome) {
    (r.0.(counts := Count(r.0.counts, r.1)), r.1)
  }

  lemma RunStep(s: State, run: seq<Arrival>, i: nat)
    requires Sized(s) && i < |run| && AllSound(run[..i]) && AllSound(run[..i + 1])
    ensures Sound(run[i].env)
    ensures var (t, o) := Counted(Forwarding.ProcessOne(Forwarding.After(s, run[..i]), run[i]));
            && Forwarding.After(s, run[..i + 1]) == t && LastOutcome(s, run[..i + 1]) == o
            && Sent(s, run[..i + 1]) == Sent(s, run[..i]) + Emit(o)
  {
    assert run[..i + 1][i] == run[i];
    assert run[..i + 1][..i] == run[..i];
  }

  /** The slice holds `sent` and, behind it, what it held before. */
  predicate SliceIs(now: seq<Packet>, was: seq<Packet>, sent: seq<Packet>) {
    |now| == |was| && |sent| <= |was| && now[..|sent|] == sent && now[|sent|..] == was[|sent|..]
  }

  lemma SliceStep(now: seq<Packet>, was: seq<Packet>, sent: seq<Packet>, i: nat, o: Outcome)
    requires SliceIs(now, was, sent) && |sent| <= i < |was|
    ensures now[i] == was[i] && SliceIs(Kept(now, |sent|, o), was, sent + Emit(o))
  {
    StillThere(now, was, |sent|, i);
    KeptParts(now, was, |sent|, o);
  }

  /** The batch `was` is handled up to packet `i`, and `n` packets are to be sent. */
  ghost predicate Midway(now: seq<Packet>, v: State, s: State, was: seq<Packet>, run: seq<Arrival>, i: nat, n: nat)
    requires Sized(s) && i <= |run| && AllSound(run[..i])
  {
    var sent := Sent(s, run[..i]);
    n == |sent| <= i && v == Forwarding.After(s, run[..i]) && SliceIs(now, was, sent)
  }

  lemma MidwayStep(now: seq<Packet>, v: State, s: State, was: seq<Packet>, run: seq<Arrival>, i: nat, n: nat)
    requires Sized(s) && i < |run| == |was| && AllSound(run[..i]) && AllSound(run[..i + 1])
    requires run[i].packet == was[i] && Sound(run[i].env) && Midway(now, v, s, was, run, i, n)
    ensures var (next, w, m) := Turn(now, v, run[i].env, i, n);
            Midway(next, w, s, was, run, i + 1, m)
  {
    RunStep(s, run, i);
    SliceStep(now, was, Sent(s, run[..i]), i, LastOutcome(s, run[..i + 1]));
    assert Arrival(run[i].env, now[i]) == run[i];
  }

  /** Slice, state and number of packets to send after packet `i`. */
  function Turn(now: seq<Packet>, v: State, env: Env, i: nat, n: nat): (seq<Packet>, State, nat)
    requires Sized(v) && Sound(env) && n <= i < |now|
  {
    var (w, o) := Counted(Forwarding.ProcessOne(v, Arrival(env, now[i])));
    (Kept(now, n, o), w, n + |Emit(o)|)
  }

  /** The slice with a packet that is to be sent written at `n`. */
  function Kept(now: seq<Packet>, n: nat, o: Outcome): seq<Packet>
    requires n < |now|
  {
    if Emit(o) == [] then now else now[n := Emit(o)[0]]
  }

  lemma StillThere(now: seq<Packet>, was: seq<Packet>, n: nat, i: nat)
    requires n <= i < |now| == |was| && now[n..] == was[n..]
    ensures now[i] == was[i]
  {
    assert now[n..][i - n] == was[n..][i - n];
  }

  lemma KeptParts(now: seq<Packet>, was: seq<Packet>, n: nat, o: Outcome)
    requires n < |now| == |was| && now[n..] == was[n..]
    ensures var m := n + |Emit(o)|;
            Kept(now, n, o)[..m] == now[..n] + Emit(o) && Kept(now, n, o)[m..] == was[m..]
  {
    var m := n + |Emit(o)|;
    assert now[m..] == now[n..][m - n..] && was[m..] == was[n..][m - n..];
  }

  /** Write a packet that is to be sent to the front of the slice. */
  method Keep(packets: array<Packet>, n: nat, o: Outcome) returns (m: nat)
    requires n < packets.Length
    modifies packets
    ensures m == n + |Emit(o)| && packets[..] == Kept(old(packets[..]), n, o)
  {
    m := n;
    if o.Forwarded? || o.IcmpSent? {
      packets[m] := o.packet;
      m := m + 1;
    }
  }

  /** Clamp a copy of the packet. */
  method ClampCopy(input: Packet, maxMss: uint16) returns (out: Packet)
    ensures out == MssClamp.Clamp(input, maxMss).0
  {
    var data := new byte[|input|](i requires 0 <= i < |input| => input[i]);
    assert data[..] == input;
    var _ := MssClamp.ClampMss(data, maxMss);
    out := data[..];
  }

  /** Encapsulate a copy of the packet in a buffer of full size. */
  method Encapsulate(env: Env, input: Packet, backend: Ip) returns (o: Outcome)
    ensures o == EncapTo(env, input, backend)
  {
    if !env.srcIp.V4? || !backend.V4? {
      return Dropped;
    }
    var data := new byte[PACKET_BUF_SIZE](i requires 0 <= i => if i < |input| then input[i] else 0);
    assert data[..|input|] == input;
    var len := Gre.EncapsulateIpv4Buf(data, |input|, env.srcIp.v4, backend.v4);
    if len.Some? {
      return Forwarded(data[..len.value]);
    }
    return Dropped;
  }
}
