/**
 How long a rewriter remembers a flow, from the packets of that flow: which time-out counts
 is decided by the TCP flags they carried, and it runs from the last of them.
 */
module ForwardingTimes {
  import opened Common
  import opened Entries
  import opened RobinHood
  import opened ConnTables
  import opened ConnRuns
  import opened FlowTimes
  import opened Forwarding
  import opened ForwardingRuns
  import opened ForwardingAffinity
  import opened ForwardingOutcomes
  import Maglev

  /** A TCP packet that reaches as far as its flags. */
  predicate HasFlags(d: seq<byte>) {
    HasPorts(d) && d[9] == 6 && Transport(d) + 14 <= |d|
  }

  /** The bits of byte 13 of the TCP header, from the lowest: FIN, SYN, RST, PSH, ACK. */
  predicate FlagIsSet(d: seq<byte>, bit: nat)
    requires HasFlags(d) && bit in {1, 2, 4, 16}
  {
    d[Transport(d) + 13] as int / bit % 2 == 1
  }

  /** A packet with FIN or RST. */
  predicate Ends(d: seq<byte>) {
    HasFlags(d) && (FlagIsSet(d, 1) || FlagIsSet(d, 4))
  }

  /** A packet with ACK, neither of these, and no SYN. */
  predicate Acknowledges(d: seq<byte>) {
    HasFlags(d) && !Ends(d) && FlagIsSet(d, 16) && !FlagIsSet(d, 2)
  }

  /** A packet that does not find its flow and whose flags do not say that the flow is only
      being opened: an ACK, also with a SYN, or no flags at all. */
  predicate StartsLate(d: seq<byte>) {
    if HasFlags(d) then !Ends(d) && FlagIsSet(d, 16) else true
  }

  /** What a packet of the flow says about its TCP state. */
  predicate OpensFlow(s: State, a: Arrival, h: nat)
    requires Sized(s)
  {
    Acknowledges(a.packet) || (!FindsFlow(s, a, h) && StartsLate(a.packet))
  }

  /** The flags as the program takes them. */
  lemma FlagsExactly(d: Packet)
    requires HasPorts(d)
    ensures var flags := ParseMeta(d).value.flags;
            && (InitialTcpState(flags) == Closing <==> Ends(d))
            && (InitialTcpState(flags) == Established || InitialTcpState(flags) == NotTcp <==> StartsLate(d))
            && (FlagChange(flags) == Some(Close) <==> Ends(d))
            && (FlagChange(flags) == Some(Establish) <==> Acknowledges(d))
            && (FlagChange(flags).None? || FlagChange(flags).value in {Close, Establish})
  {
    MetaExactly(d);
  }

  lemma OneOp(op: Op, h: nat)
    ensures Closed([op], h) <==> Closes(op, h)
    ensures Opened([op], h) <==> Opens(op, h)
  {
    assert Closes([op][0], h) <==> Closes(op, h);
    assert Opens([op][0], h) <==> Opens(op, h);
  }

  lemma LifeConcat(a: seq<Op>, b: seq<Op>, h: nat)
    ensures Closed(a + b, h) <==> Closed(a, h) || Closed(b, h)
    ensures Opened(a + b, h) <==> Opened(a, h) || Opened(b, h)
  {
    var c := a + b;
    assert forall j | 0 <= j < |a| :: c[j] == a[j];
    assert forall j | 0 <= j < |b| :: c[|a| + j] == b[j];
  }

  /** What a packet of the flow tells about it, and that no other packet tells anything. */
  lemma StepTells(s: State, a: Arrival, h: nat)
    requires Sized(s) && Sound(a.env)
    ensures Closed(StepOps(s, a), h) <==> OfFlow(a, h) && Ends(a.packet)
    ensures Opened(StepOps(s, a), h) <==> OfFlow(a, h) && OpensFlow(s, a, h)
  {
    if Routed(a) {
      RoutedExactly(a);
      var (meta, table) := Route(a.env, a.packet).value;
      var first, flag := FirstOp(s.conn, a.env, table, meta), FlagOps(a.env, meta);
      FlagsExactly(a.packet);
      LifeConcat([first], flag, h);
      OneOp(first, h);
      if flag != [] {
        assert flag == [flag[0]];
        OneOp(flag[0], h);
      }
    }
  }

  /** The time of the last packet of the flow. */
  function LastPacket(arrivals: seq<Arrival>, h: nat): int {
    if |arrivals| == 0 then 0
    else if OfFlow(arrivals[|arrivals| - 1], h) then arrivals[|arrivals| - 1].env.now
    else LastPacket(arrivals[..|arrivals| - 1], h)
  }

  lemma {:induction false} SeenOfOthers(a: seq<Op>, b: seq<Op>, h: nat, tcp: bool)
    requires forall op | op in b :: op.hash != h
    ensures Seen(a + b, h, tcp) == Seen(a, h, tcp)
  {
    if b == [] {
      assert a + b == a;
    } else {
      assert (a + b)[..|a + b| - 1] == a + b[..|b| - 1];
      assert b[|b| - 1] in b;
      SeenOfOthers(a, b[..|b| - 1], h, tcp);
    }
  }

  lemma SeenNext(a: seq<Op>, op: Op, h: nat, tcp: bool, now: int)
    requires op.hash == h && Time(op) == now
    requires op.Put? || op.change == Refresh || Seen(a, h, tcp) == now
    ensures Seen(a + [op], h, tcp) == now
  {
    assert (a + [op])[..|a|] == a;
  }

  /** Every packet of the flow, found or not, counts as seen. */
  lemma StepSeen(s: State, a: Arrival, ops: seq<Op>, h: nat, tcp: bool)
    requires Sized(s) && Sound(a.env)
    ensures Seen(ops + StepOps(s, a), h, tcp) == if OfFlow(a, h) then a.env.now else Seen(ops, h, tcp)
  {
    if OfFlow(a, h) {
      var (meta, table) := Route(a.env, a.packet).value;
      var first, flag := FirstOp(s.conn, a.env, table, meta), FlagOps(a.env, meta);
      SeenNext(ops, first, h, tcp, a.env.now);
      if flag == [] {
        assert ops + ([first] + flag) == ops + [first];
      } else {
        SeenNext(ops + [first], flag[0], h, tcp, a.env.now);
        assert ops + ([first] + flag) == ops + [first] + [flag[0]];
      }
    } else {
      SeenOfOthers(ops, StepOps(s, a), h, tcp);
    }
  }

  lemma {:induction false} SeenIsLastPacket(s: State, arrivals: seq<Arrival>, h: nat, tcp: bool)
    requires Sized(s) && AllSound(arrivals)
    ensures Seen(RunOps(s, arrivals), h, tcp) == LastPacket(arrivals, h)
  {
    if |arrivals| > 0 {
      var before, a := arrivals[..|arrivals| - 1], arrivals[|arrivals| - 1];
      SeenIsLastPacket(s, before, h, tcp);
      StepSeen(After(s, before), a, RunOps(s, before), h, tcp);
    }
  }

  /** Some packet of the flow had FIN or RST. */
  ghost predicate Ended(arrivals: seq<Arrival>, h: nat) {
    exists k: nat :: k < |arrivals| && OfFlow(arrivals[k], h) && Ends(arrivals[k].packet)
  }

  /** Some packet of the flow told that the handshake is over. */
  predicate Open(s: State, arrivals: seq<Arrival>, h: nat)
    requires Sized(s) && AllSound(arrivals)
  {
    |arrivals| > 0 &&
    var before, a := arrivals[..|arrivals| - 1], arrivals[|arrivals| - 1];
    Open(s, before, h) || (OfFlow(a, h) && OpensFlow(After(s, before), a, h))
  }

  lemma EndedByLast(arrivals: seq<Arrival>, h: nat)
    requires |arrivals| > 0
    ensures var before, a := arrivals[..|arrivals| - 1], arrivals[|arrivals| - 1];
            Ended(arrivals, h) <==> Ended(before, h) || (OfFlow(a, h) && Ends(a.packet))
  {
    var before := arrivals[..|arrivals| - 1];
    assert forall k: nat | k < |before| :: before[k] == arrivals[k];
  }

  lemma {:induction false} RunTells(s: State, arrivals: seq<Arrival>, h: nat)
    requires Sized(s) && AllSound(arrivals)
    ensures Closed(RunOps(s, arrivals), h) <==> Ended(arrivals, h)
    ensures Opened(RunOps(s, arrivals), h) <==> Open(s, arrivals, h)
  {
    if |arrivals| > 0 {
      var before, a := arrivals[..|arrivals| - 1], arrivals[|arrivals| - 1];
      RunTells(s, before, h);
      StepTells(After(s, before), a, h);
      LifeConcat(RunOps(s, before), StepOps(After(s, before), a), h);
      EndedByLast(arrivals, h);
    }
  }

  lemma OnwardMore(t: seq<Slot>, ttls: ConnTtls, ops: seq<Op>, op: Op)
    requires 0 < |t|
    ensures Onward(t, ttls, ops + [op]) == Apply(Onward(t, ttls, ops), ttls, op)
  {
    assert (ops + [op])[..|ops|] == ops;
  }

  lemma FirstIsSelect(conn: seq<Slot>, env: Env, table: Maglev.LookupTable, meta: Meta)
    requires 0 < |conn| && SoundTable(table)
    ensures Apply(conn, env.ttls, FirstOp(conn, env, table, meta)) == Select(conn, env, table, meta).1
  {
  }

  lemma FlagIsTransition(conn: seq<Slot>, env: Env, meta: Meta)
    requires 0 < |conn|
    ensures Transition(conn, env, meta) ==
            if FlagOps(env, meta) == [] then conn else Apply(conn, env.ttls, FlagOps(env, meta)[0])
  {
  }

  lemma TrackIsOnward(t: seq<Slot>, conn: seq<Slot>, ops: seq<Op>, env: Env, table: Maglev.LookupTable, meta: Meta)
    requires 0 < |t| && 0 < |conn| && SoundTable(table) && conn == Onward(t, env.ttls, ops)
    ensures Track(conn, env, table, meta).1 == Onward(t, env.ttls, ops + FlowOps(conn, env, table, meta))
  {
    var first, flag := FirstOp(conn, env, table, meta), FlagOps(env, meta);
    FirstIsSelect(conn, env, table, meta);
    FlagIsTransition(Select(conn, env, table, meta).1, env, meta);
    OnwardMore(t, env.ttls, ops, first);
    if flag == [] {
      assert ops + ([first] + flag) == ops + [first];
    } else {
      OnwardMore(t, env.ttls, ops + [first], flag[0]);
      assert ops + ([first] + flag) == ops + [first] + [flag[0]];
    }
  }

  lemma StepIsOnward(t: seq<Slot>, s: State, a: Arrival, ops: seq<Op>)
    requires Sized(s) && Sound(a.env) && 0 < |t| && s.conn == Onward(t, a.env.ttls, ops)
    ensures ProcessOne(s, a).0.conn == Onward(t, a.env.ttls, ops + StepOps(s, a))
  {
    if Routed(a) {
      var (meta, table) := Route(a.env, a.packet).value;
      TrackIsOnward(t, s.conn, ops, a.env, table, meta);
    } else {
      assert ops + StepOps(s, a) == ops;
    }
  }

  lemma {:induction false} RunIsOnward(s: State, arrivals: seq<Arrival>, ttls: ConnTtls)
    requires Sized(s) && AllSound(arrivals) && SameRewriter(arrivals, ttls)
    ensures After(s, arrivals).conn == Onward(s.conn, ttls, RunOps(s, arrivals))
  {
    if |arrivals| > 0 {
      var before, a := arrivals[..|arrivals| - 1], arrivals[|arrivals| - 1];
      RunIsOnward(s, before, ttls);
      StepIsOnward(s.conn, After(s, before), a, RunOps(s, before));
    }
  }

  /** How long a flow is remembered. From its first packet on, as long as it stays stored in a
      table in order, a lookup finds it exactly while its last packet is not older than the
      closing time-out if one of its packets had FIN or RST, else than the established one if
      one told that the handshake is over, else than the handshake one; for UDP the UDP one. */
  lemma RememberedExactly(s: State, arrivals: seq<Arrival>, ttls: ConnTtls, h: nat, proto: FlowProto, now: int)
    requires Sized(s) && AllSound(arrivals) && SameRewriter(arrivals, ttls)
    requires Lives(s.conn, ttls, RunOps(s, arrivals), h) && RunOps(s, arrivals) != []
    requires AllOf(RunOps(s, arrivals), h, proto)
    ensures Lookup(After(s, arrivals).conn, h, Flows(ttls, now)).Some? <==>
            now - LastPacket(arrivals, h) <=
            match proto
            case Udp => ttls.udp
            case Other => ttls.other
            case Tcp =>
              if Ended(arrivals, h) then ttls.closing
              else if Open(s, arrivals, h) then ttls.established else ttls.handshake
  {
    RunIsOnward(s, arrivals, ttls);
    AnswersExactly(s.conn, ttls, RunOps(s, arrivals), h, proto, now);
    SeenIsLastPacket(s, arrivals, h, proto == Tcp);
    RunTells(s, arrivals, h);
  }
}
