/**
 What becomes of a packet, from its bytes, what the rewriter reads and the state it is in:
 which packets are routed and by what key, which are answered with an error, and exactly
 which ones are forwarded.
 */
module ForwardingOutcomes {
  import opened Common
  import opened Entries
  import opened Checksums
  import opened RobinHood
  import opened ConnTables
  import opened Icmp
  import opened Forwarding
  import opened ForwardingRuns
  import opened ForwardingAffinity
  import opened MssClamp
  import Filters
  import Maglev

  /** The number in network order at `i`. */
  function Two(d: seq<byte>, i: nat): nat
    requires i + 2 <= |d|
  {
    256 * d[i] as int + d[i + 1] as int
  }

  function Four(d: seq<byte>, i: nat): (a: Ipv4)
    requires i + 4 <= |d|
  {
    256 * (256 * (256 * d[i] as int + d[i + 1] as int) + d[i + 2] as int) + d[i + 3] as int
  }

  /** Where the transport header starts. */
  function Transport(d: seq<byte>): nat
    requires d != []
  {
    4 * (d[0] % 16) as int
  }

  /** An IPv4 packet of TCP or UDP that reaches as far as its ports. */
  predicate HasPorts(d: seq<byte>) {
    24 <= |d| && d[0] / 16 == 4 && (d[9] == 6 || d[9] == 17) && Transport(d) + 4 <= |d|
  }

  function ProtoIn(d: seq<byte>): FlowProto
    requires HasPorts(d)
  {
    if d[9] == 6 then Tcp else Udp
  }

  /** Not the first fragment: the low 13 bits of the fragment field are not zero. */
  predicate InTheMiddle(d: seq<byte>) {
    20 <= |d| && Two(d, 6) % 8192 != 0
  }

  lemma LaterFragmentIs(d: Packet)
    ensures IsLaterFragment(d) <==> InTheMiddle(d)
    ensures IsFragment(d) <==> 20 <= |d| && (Two(d, 6) % 8192 != 0 || Two(d, 6) / 8192 % 2 == 1)
  {
  }

  lemma AddressIs(d: seq<byte>, i: nat)
    requires i + 4 <= |d|
    ensures AddressAt(d, i) == Four(d, i)
  {
  }

  /** The 5-tuple and the flags of a packet, and which packets have one. */
  lemma MetaExactly(d: Packet)
    ensures ParseMeta(d).Some? <==> HasPorts(d)
    ensures HasPorts(d) ==>
              var tcp := Transport(d);
              ParseMeta(d) == Some(Meta(FiveTuple(Four(d, 12), Four(d, 16), Two(d, tcp), Two(d, tcp + 2), ProtoIn(d)),
                                        if d[9] == 6 && tcp + 14 <= |d| then Some(d[tcp + 13]) else None))
  {
    if HasPorts(d) {
      AddressIs(d, 12);
      AddressIs(d, 16);
    }
  }

  /** Which datagram a fragment belongs to: both addresses and the identification. */
  lemma FragmentIdExactly(d: Packet)
    ensures ParseFragment(d).Some? <==> 20 <= |d| && d[0] / 16 == 4
    ensures ParseFragment(d).Some? ==> ParseFragment(d) == Some(FragmentId(Four(d, 12), Four(d, 16), Two(d, 4)))
  {
    if 20 <= |d| {
      AddressIs(d, 12);
      AddressIs(d, 16);
    }
  }

  /** The VIP, protocol and port a packet asks for. */
  function Asked(d: seq<byte>): VipKey
    requires HasPorts(d)
  {
    VipKey(Four(d, 16), ProtoIn(d), Two(d, Transport(d) + 2))
  }

  /** Exactly which packets reach backend selection: those with ports that are no later
      fragments, whose destination is a VIP with that port, to a pool with a table. */
  lemma RoutedExactly(a: Arrival)
    ensures Routed(a) <==>
            && HasPorts(a.packet) && !InTheMiddle(a.packet)
            && Asked(a.packet) in a.env.vips && a.env.vips[Asked(a.packet)] in a.env.tables
    ensures Routed(a) ==>
              && Route(a.env, a.packet) == Some((ParseMeta(a.packet).value, a.env.tables[a.env.vips[Asked(a.packet)]]))
  {
    MetaExactly(a.packet);
    LaterFragmentIs(a.packet);
  }

  /** The table that the packet's pool has. */
  function TableOf(a: Arrival): Maglev.LookupTable
    requires Routed(a)
  {
    Route(a.env, a.packet).value.1
  }

  function FlowHash(a: Arrival): nat
    requires Routed(a)
  {
    a.env.flowHash(Route(a.env, a.packet).value.0.tuple)
  }

  /** The backend the packet is given: the one its flow is found with, unless that has expired
      or is known to be unhealthy; otherwise the one in the slot of the table that its hash
      falls on. */
  lemma ChosenExactly(s: State, a: Arrival)
    requires Sized(s) && Sound(a.env) && Routed(a)
    ensures var (t, h) := (TableOf(a), FlowHash(a));
            && t.entries[h % |t.entries|] in t.entries
            && ChosenFor(s, a) ==
               match Find(s.conn, h)
               case None => t.backends[t.entries[h % |t.entries|]].ip
               case Some(i) =>
                 var r := s.conn[i].rec;
                 if || Expired(Flows(a.env.ttls, a.env.now), r)
                    || (r.ip in a.env.health && a.env.health[r.ip] == Unhealthy)
                 then t.backends[t.entries[h % |t.entries|]].ip
                 else r.ip
  {
  }

  /** The packet is longer than the link takes once it is encapsulated, says its length field,
      and must not be fragmented. The sum is that of 16-bit numbers. */
  predicate TooLong(d: seq<byte>, mtu: nat) {
    20 <= |d| && Two(d, 6) / 0x4000 % 2 == 1 && (Two(d, 2) + 24) % 0x1_0000 > mtu
  }

  lemma ClampKeepsLength(d: Packet, maxMss: uint16, mtu: uint16)
    requires HasPorts(d)
    ensures ShouldGenerateIcmp(Clamp(d, maxMss).0, mtu) <==> TooLong(d, mtu)
  {
    var r := Clamp(d, maxMss).0;
    ClampKeepsFront(d, maxMss, 0);
    ClampKeepsFront(d, maxMss, 2);
    ClampKeepsFront(d, maxMss, 3);
    ClampKeepsFront(d, maxMss, 6);
    ClampKeepsFront(d, maxMss, 7);
    DontFragmentIs(d[6], d[7]);
  }

  lemma DontFragmentIs(hi: byte, lo: byte)
    ensures hi / 64 % 2 == 1 <==> (256 * hi as int + lo as int) / 0x4000 % 2 == 1
  {
    assert (256 * hi as int + lo as int) / 0x4000 == hi as int / 64;
  }

  /** A packet leaves encapsulated exactly when both ends are IPv4 and it still fits a buffer of
      2048 bytes with 24 more. */
  lemma EncapExactly(env: Env, d: Packet, backend: Ip)
    ensures EncapTo(env, d, backend) != Dropped <==> env.srcIp.V4? && backend.V4? && |d| + 24 <= 2048
    ensures EncapTo(env, d, backend).Forwarded? || EncapTo(env, d, backend).Dropped?
  {
  }

  /** What becomes of a routed packet, in every state. */
  lemma RoutedOutcome(s: State, a: Arrival)
    requires Sized(s) && Sound(a.env) && Routed(a)
    ensures var o := ProcessOne(s, a).1;
            if TooLong(a.packet, a.env.mtu.networkMtu) then
              if s.limiter.Grants(a.env.now) then o.IcmpSent? else o.OversizedRateLimited?
            else if a.env.srcIp.V4? && ChosenFor(s, a).V4? && |a.packet| + 24 <= 2048 then o.Forwarded?
            else o.Dropped?
  {
    RoutedExactly(a);
    ClampKeepsLength(a.packet, a.env.mtu.tcpMssClamp, a.env.mtu.networkMtu);
    EncapExactly(a.env, Clamp(a.packet, a.env.mtu.tcpMssClamp).0, ChosenFor(s, a));
  }

  /** The mapping a later fragment finds: an entry for its datagram within the time to live. */
  predicate FindsMapping(s: State, a: Arrival, ip: Ip)
    requires Sized(s) && 20 <= |a.packet|
  {
    var h := a.env.fragmentHash(FragmentId(Four(a.packet, 12), Four(a.packet, 16), Two(a.packet, 4)));
    var found := Find(s.frags, h);
    found.Some? && a.env.now - s.frags[found.value].rec.stamp <= a.env.fragmentTtl && s.frags[found.value].rec.ip == ip
  }

  /** What becomes of a later fragment, in every state. */
  lemma LaterFragmentOutcome(s: State, a: Arrival)
    requires Sized(s) && Sound(a.env) && InTheMiddle(a.packet)
    ensures var o := ProcessOne(s, a).1;
            if && a.packet[0] / 16 == 4 && a.env.srcIp.V4? && |a.packet| + 24 <= 2048
               && exists ip: Ip :: ip.V4? && FindsMapping(s, a, ip)
            then o.Forwarded? else o.Dropped?
  {
    var d := a.packet;
    LaterFragmentIs(d);
    FragmentIdExactly(d);
    if ParseFragment(d).Some? {
      var h := a.env.fragmentHash(ParseFragment(d).value);
      var ip := Lookup(s.frags, h, Fragments(a.env.fragmentTtl, a.env.now));
      assert forall x: Ip :: FindsMapping(s, a, x) <==> ip == Some(x);
      if ip.Some? {
        EncapExactly(a.env, d, ip.value);
      }
    }
  }

  /** Everything else is dropped. */
  lemma OthersDropped(s: State, a: Arrival)
    requires Sized(s) && Sound(a.env) && !InTheMiddle(a.packet) && !Routed(a)
    ensures ProcessOne(s, a).1 == Dropped
  {
    LaterFragmentIs(a.packet);
  }

  /** Exactly which packets are forwarded, whatever the state. */
  lemma ForwardedExactly(s: State, a: Arrival)
    requires Sized(s) && Sound(a.env)
    ensures ProcessOne(s, a).1.Forwarded? <==>
            && a.env.srcIp.V4? && |a.packet| + 24 <= 2048
            && if InTheMiddle(a.packet)
               then a.packet[0] / 16 == 4 && exists ip: Ip :: ip.V4? && FindsMapping(s, a, ip)
               else Routed(a) && !TooLong(a.packet, a.env.mtu.networkMtu) && ChosenFor(s, a).V4?
  {
    if InTheMiddle(a.packet) {
      LaterFragmentOutcome(s, a);
    } else if Routed(a) {
      RoutedOutcome(s, a);
    } else {
      OthersDropped(s, a);
    }
  }

  lemma FitsTheLink(d: Packet, mtu: MtuConfig)
    requires NewMtuConfig(mtu.networkMtu) == Some(mtu)
    requires 20 <= |d| && Two(d, 2) == |d| <= mtu.effectiveInnerMtu as int
    ensures !TooLong(d, mtu.networkMtu) && |d| + 24 <= mtu.networkMtu
  {
    MtuConfigExactly(mtu.networkMtu);
  }

  /** What the tunnel's MTU promises: with the parameters of a network MTU up to the size of a
      buffer, every routed packet whose length field is its length and within the inner MTU is
      forwarded to its IPv4 backend, with or without the don't-fragment flag. */
  lemma WithinMtuIsForwarded(s: State, a: Arrival)
    requires Sized(s) && Sound(a.env) && Routed(a) && a.env.srcIp.V4? && ChosenFor(s, a).V4?
    requires NewMtuConfig(a.env.mtu.networkMtu) == Some(a.env.mtu) && a.env.mtu.networkMtu <= 2048
    requires 20 <= |a.packet| && Two(a.packet, 2) == |a.packet| <= a.env.mtu.effectiveInnerMtu as int
    ensures ProcessOne(s, a).1.Forwarded?
  {
    FitsTheLink(a.packet, a.env.mtu);
    RoutedOutcome(s, a);
  }

  // ----- first fragments -----

  /** Exactly which packets leave a mapping, and to what: a routed first fragment, for its
      datagram, to the backend it is given, at its time. */
  lemma LeadsExactly(s: State, a: Arrival, h: nat, ip: Ip, at: int)
    requires Sized(s) && Sound(a.env)
    ensures Leads(s, a, h, ip, at) <==>
            && Routed(a) && Two(a.packet, 6) / 8192 % 2 == 1
            && h == a.env.fragmentHash(FragmentId(Four(a.packet, 12), Four(a.packet, 16), Two(a.packet, 4)))
            && ip == ChosenFor(s, a) && at == a.env.now
  {
    RoutedExactly(a);
    LaterFragmentIs(a.packet);
    FragmentIdExactly(a.packet);
  }

  // ----- runs -----

  /** What becomes of each packet of a run. */
  function Outcomes(s: State, arrivals: seq<Arrival>): (r: seq<Outcome>)
    requires Sized(s) && AllSound(arrivals)
    ensures |r| == |arrivals|
  {
    if |arrivals| == 0 then []
    else Outcomes(s, arrivals[..|arrivals| - 1]) + [LastOutcome(s, arrivals)]
  }

  lemma {:induction false} OutcomesAre(s: State, arrivals: seq<Arrival>, k: nat)
    requires Sized(s) && AllSound(arrivals) && k < |arrivals|
    ensures Outcomes(s, arrivals)[k] == ProcessOne(At(s, arrivals, k), arrivals[k]).1
  {
    var before := arrivals[..|arrivals| - 1];
    if k < |before| {
      OutcomesAre(s, before, k);
      assert before[..k] == arrivals[..k];
    }
  }

  predicate Leaves(o: Outcome) {
    o.Forwarded? || o.IcmpSent?
  }

  /** What a run hands back to be sent: the packets of the outcomes that have one, each where as
      many of them come before it as in the run. */
  ghost predicate AllSent(outcomes: seq<Outcome>, sent: seq<Packet>) {
    && |sent| == Filters.Count(outcomes, Leaves)
    && forall k: nat | k < |outcomes| && Leaves(outcomes[k]) ::
         && Filters.Count(outcomes[..k], Leaves) < |sent|
         && sent[Filters.Count(outcomes[..k], Leaves)] == outcomes[k].packet
  }

  lemma SentNext(outcomes: seq<Outcome>, sent: seq<Packet>, o: Outcome)
    requires AllSent(outcomes, sent)
    ensures AllSent(outcomes + [o], sent + Emit(o))
  {
    var u := outcomes + [o];
    assert u[..|outcomes|] == outcomes;
    forall k: nat | k < |u| && Leaves(u[k])
      ensures var r := sent + Emit(o);
              Filters.Count(u[..k], Leaves) < |r| && r[Filters.Count(u[..k], Leaves)] == u[k].packet
    {
      assert u[..k] == outcomes[..k];
      if k == |outcomes| {
        assert outcomes[..k] == outcomes;
      }
    }
  }

  /** Nothing is lost, added or reordered between the outcomes and what is sent. */
  lemma {:induction false} SentExactly(s: State, arrivals: seq<Arrival>)
    requires Sized(s) && AllSound(arrivals)
    ensures AllSent(Outcomes(s, arrivals), Sent(s, arrivals))
  {
    if |arrivals| > 0 {
      var before := arrivals[..|arrivals| - 1];
      SentExactly(s, before);
      SentNext(Outcomes(s, before), Sent(s, before), LastOutcome(s, arrivals));
    }
  }

  /** The counters a run adds to, each the number of packets it is named after. */
  predicate Counted(was: Counters, now: Counters, outcomes: seq<Outcome>) {
    && now.received == was.received + |outcomes|
    && now.forwarded == was.forwarded + Filters.Count(outcomes, (o: Outcome) => o.Forwarded?)
    && now.icmpSent == was.icmpSent + Filters.Count(outcomes, (o: Outcome) => o.IcmpSent?)
    && now.rateLimited == was.rateLimited + Filters.Count(outcomes, (o: Outcome) => o.OversizedRateLimited?)
    && now.oversized == was.oversized + Filters.Count(outcomes, (o: Outcome) => o.IcmpSent? || o.OversizedRateLimited?)
    && now.dropped == was.dropped + Filters.Count(outcomes, (o: Outcome) => o.Dropped? || o.OversizedRateLimited?)
  }

  lemma CountNext(outcomes: seq<Outcome>, o: Outcome, keep: Outcome -> bool)
    ensures Filters.Count(outcomes + [o], keep) == Filters.Count(outcomes, keep) + if keep(o) then 1 else 0
  {
    assert (outcomes + [o])[..|outcomes|] == outcomes;
  }

  lemma CountedNext(was: Counters, now: Counters, outcomes: seq<Outcome>, o: Outcome)
    requires Counted(was, now, outcomes)
    ensures Counted(was, Forwarding.Count(now, o), outcomes + [o])
  {
    CountNext(outcomes, o, (o: Outcome) => o.Forwarded?);
    CountNext(outcomes, o, (o: Outcome) => o.IcmpSent?);
    CountNext(outcomes, o, (o: Outcome) => o.OversizedRateLimited?);
    CountNext(outcomes, o, (o: Outcome) => o.IcmpSent? || o.OversizedRateLimited?);
    CountNext(outcomes, o, (o: Outcome) => o.Dropped? || o.OversizedRateLimited?);
  }

  /** Exactly what the counters count. */
  lemma {:induction false} CountersExactly(s: State, arrivals: seq<Arrival>)
    requires Sized(s) && AllSound(arrivals)
    ensures Counted(s.counts, After(s, arrivals).counts, Outcomes(s, arrivals))
  {
    if |arrivals| > 0 {
      var before := arrivals[..|arrivals| - 1];
      CountersExactly(s, before);
      CountedNext(s.counts, After(s, before).counts, Outcomes(s, before), LastOutcome(s, arrivals));
    }
  }
}
