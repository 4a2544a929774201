/**
 Affinity over whole runs of a rewriter: whatever other traffic comes in between, a flow
 stays with its backend, and fragments follow the first one of their datagram. Staying is
 a matter of the copies of that one flow, from any state; being found, and being told from
 a run of inserts, is a matter of the order of the table.
 */
module ForwardingAffinity {
  import opened Common
  import opened Entries
  import opened RobinHood
  import opened RobinHoodView
  import opened ConnTables
  import opened ConnRuns
  import opened BackendCopies
  import opened Applier
  import opened Forwarding
  import opened ForwardingRuns
  import FragmentTables
  import Maglev

  /** A rewriter that starts with an empty connection table, with its run so far. */
  ghost predicate FreshRun(s: State, arrivals: seq<Arrival>, ttls: ConnTtls) {
    && Sized(s) && s.conn == Play(|s.conn|, ttls, []) && AllSound(arrivals) && SameRewriter(arrivals, ttls)
  }

  /** Its connection table has stayed well formed: every insert that reused an expired slot
      met the condition of `RobinHoodView.InsertKeepsWellFormedExactly`. A run without
      reclaims is one such (`ConnRuns.QuietIsTidy`). */
  ghost predicate TidyRun(s: State, arrivals: seq<Arrival>, ttls: ConnTtls)
    requires FreshRun(s, arrivals, ttls)
  {
    Tidy(|s.conn|, ttls, RunOps(s, arrivals))
  }

  // ----- the backend of a flow -----

  /** The packet is routed and its flow has this hash. */
  predicate OfFlow(a: Arrival, h: nat) {
    Routed(a) && a.env.flowHash(Route(a.env, a.packet).value.0.tuple) == h
  }

  function ChosenFor(s: State, a: Arrival): Ip
    requires Sized(s) && Sound(a.env) && Routed(a)
  {
    var (meta, table) := Route(a.env, a.packet).value;
    Track(s.conn, a.env, table, meta).0
  }

  /** The packet finds its flow in the table, live and with a backend that may be used. */
  predicate FindsFlow(s: State, a: Arrival, h: nat)
    requires Sized(s)
  {
    Cached(s.conn, a.env, h).Some?
  }

  /** The insert that the packet makes when it does not find its flow leaves no copy of the
      flow with another backend. */
  predicate InsertClears(s: State, a: Arrival, h: nat)
    requires Sized(s) && Sound(a.env) && Routed(a)
  {
    var (meta, table) := Route(a.env, a.packet).value;
    Clears(s.conn, h, NewRecord(a.env, meta, Maglev.Lookup(table, h).ip), Flows(a.env.ttls, a.env.now))
  }

  /** Where the copies of the flow all name one backend, a packet of the flow goes there
      exactly when it finds the flow or the lookup table picks that backend again. */
  lemma PacketGoesExactly(s: State, a: Arrival, h: nat, ip: Ip)
    requires Sized(s) && Sound(a.env) && OfFlow(a, h) && Only(s.conn, h, ip)
    ensures ChosenFor(s, a) == ip <==> FindsFlow(s, a, h) || Picks(a, h, ip)
  {
    LookupIsOnly(s.conn, h, ip, Flows(a.env.ttls, a.env.now));
  }

  lemma TransitionKeepsOnly(conn: seq<Slot>, env: Env, meta: Meta, h: nat, ip: Ip)
    requires 0 < |conn|
    ensures Only(Transition(conn, env, meta), h, ip) <==> Only(conn, h, ip)
  {
    if FlagChange(meta.flags).Some? {
      AmendKeepsOnly(conn, env.flowHash(meta.tuple), FlagChange(meta.flags).value, env.now, h, ip);
    }
  }

  lemma TrackKeepsOnly(conn: seq<Slot>, env: Env, table: Maglev.LookupTable, meta: Meta, h: nat, ip: Ip)
    requires 0 < |conn| && SoundTable(table) && Only(conn, h, ip)
    requires env.flowHash(meta.tuple) == h ==> Track(conn, env, table, meta).0 == ip
    ensures Only(Track(conn, env, table, meta).1, h, ip)
  {
    var x := env.flowHash(meta.tuple);
    TransitionKeepsOnly(Select(conn, env, table, meta).1, env, meta, h, ip);
    if Cached(conn, env, x).Some? {
      AmendKeepsOnly(conn, x, Refresh, env.now, h, ip);
    } else {
      InsertKeepsOnly(conn, x, NewRecord(env, meta, Maglev.Lookup(table, x).ip), Flows(env.ttls, env.now), h, ip);
    }
  }

  /** A packet of another flow, or one that goes to that backend, leaves it so. */
  lemma PacketKeepsOnly(s: State, a: Arrival, h: nat, ip: Ip)
    requires Sized(s) && Sound(a.env) && Only(s.conn, h, ip) && (OfFlow(a, h) ==> ChosenFor(s, a) == ip)
    ensures Only(ProcessOne(s, a).0.conn, h, ip)
  {
    if Routed(a) {
      var (meta, table) := Route(a.env, a.packet).value;
      TrackKeepsOnly(s.conn, a.env, table, meta, h, ip);
    }
  }

  /** From any state, exactly when all copies of a flow name the backend of a packet of that
      flow once it is handled. */
  lemma PacketSettlesExactly(s: State, a: Arrival, h: nat)
    requires Sized(s) && Sound(a.env) && OfFlow(a, h)
    ensures Only(ProcessOne(s, a).0.conn, h, ChosenFor(s, a)) <==>
            if FindsFlow(s, a, h) then Only(s.conn, h, ChosenFor(s, a)) else InsertClears(s, a, h)
  {
    var (meta, table) := Route(a.env, a.packet).value;
    var ip := ChosenFor(s, a);
    TransitionKeepsOnly(Select(s.conn, a.env, table, meta).1, a.env, meta, h, ip);
    if FindsFlow(s, a, h) {
      AmendKeepsOnly(s.conn, h, Refresh, a.env.now, h, ip);
    } else {
      InsertClearsExactly(s.conn, h, NewRecord(a.env, meta, ip), Flows(a.env.ttls, a.env.now));
    }
  }

  // ----- over runs, from any state -----

  function Before(arrivals: seq<Arrival>, j: nat): (r: seq<Arrival>)
    requires j <= |arrivals| && AllSound(arrivals)
    ensures AllSound(r)
  {
    arrivals[..j]
  }

  /** The state that packet number `j` of the run finds. */
  function At(s: State, arrivals: seq<Arrival>, j: nat): (r: State)
    requires Sized(s) && AllSound(arrivals) && j <= |arrivals|
    ensures Sized(r)
  {
    After(s, Before(arrivals, j))
  }

  lemma NextAt(s: State, arrivals: seq<Arrival>, j: nat)
    requires Sized(s) && AllSound(arrivals) && j < |arrivals|
    ensures At(s, arrivals, j + 1).conn == ProcessOne(At(s, arrivals, j), arrivals[j]).0.conn
    ensures At(s, arrivals, j + 1).frags == ProcessOne(At(s, arrivals, j), arrivals[j]).0.frags
  {
    assert Before(arrivals, j + 1)[..j] == Before(arrivals, j);
  }

  /** The backend chosen for packet number `k` of the run. */
  function BackendOf(s: State, arrivals: seq<Arrival>, k: nat): Ip
    requires Sized(s) && AllSound(arrivals) && k < |arrivals| && Routed(arrivals[k])
  {
    ChosenFor(At(s, arrivals, k), arrivals[k])
  }

  /** Packet `j` is of the flow and does not find it. */
  predicate Misses(s: State, arrivals: seq<Arrival>, j: nat, h: nat)
    requires Sized(s) && AllSound(arrivals) && j < |arrivals|
  {
    OfFlow(arrivals[j], h) && !FindsFlow(At(s, arrivals, j), arrivals[j], h)
  }

  /** If packet `j` is of the flow, it finds the flow or the lookup table picks `ip`. */
  predicate Follows(s: State, arrivals: seq<Arrival>, j: nat, h: nat, ip: Ip)
    requires Sized(s) && AllSound(arrivals) && j < |arrivals|
  {
    Misses(s, arrivals, j, h) ==> Picks(arrivals[j], h, ip)
  }

  /** If packet `j` is of the flow, it is sent to `ip`. */
  predicate GoesTo(s: State, arrivals: seq<Arrival>, j: nat, h: nat, ip: Ip)
    requires Sized(s) && AllSound(arrivals) && j < |arrivals|
  {
    OfFlow(arrivals[j], h) ==> BackendOf(s, arrivals, j) == ip
  }

  /** All copies of the flow that packet `j` could find name `ip`. */
  predicate OnlyAt(s: State, arrivals: seq<Arrival>, j: nat, h: nat, ip: Ip)
    requires Sized(s) && AllSound(arrivals) && j <= |arrivals|
  {
    Only(At(s, arrivals, j).conn, h, ip)
  }

  lemma StepGoes(s: State, arrivals: seq<Arrival>, j: nat, h: nat, ip: Ip)
    requires Sized(s) && AllSound(arrivals) && j < |arrivals| && OnlyAt(s, arrivals, j, h, ip)
    ensures GoesTo(s, arrivals, j, h, ip) <==> Follows(s, arrivals, j, h, ip)
    ensures GoesTo(s, arrivals, j, h, ip) ==> OnlyAt(s, arrivals, j + 1, h, ip)
  {
    NextAt(s, arrivals, j);
    if OfFlow(arrivals[j], h) {
      PacketGoesExactly(At(s, arrivals, j), arrivals[j], h, ip);
    }
    if GoesTo(s, arrivals, j, h, ip) {
      PacketKeepsOnly(At(s, arrivals, j), arrivals[j], h, ip);
    }
  }

  /** What holds and is handed on from step to step holds all along. */
  lemma {:induction false} HandedOn(v: seq<bool>, from: nat, n: nat)
    requires from <= n < |v| && v[from] && forall j: nat | from <= j < n :: v[j] ==> v[j + 1]
    ensures v[n]
  {
    if from < n {
      HandedOn(v, from, n - 1);
    }
  }

  function OnlySoFar(s: State, arrivals: seq<Arrival>, h: nat, ip: Ip): (v: seq<bool>)
    requires Sized(s) && AllSound(arrivals)
    ensures |v| == |arrivals| + 1 && forall j: nat | j < |v| :: v[j] == OnlyAt(s, arrivals, j, h, ip)
  {
    seq(|arrivals| + 1, j requires 0 <= j <= |arrivals| => OnlyAt(s, arrivals, j, h, ip))
  }

  lemma OnlyStays(s: State, arrivals: seq<Arrival>, from: nat, n: nat, h: nat, ip: Ip)
    requires Sized(s) && AllSound(arrivals) && from <= n <= |arrivals| && OnlyAt(s, arrivals, from, h, ip)
    requires forall j: nat | from <= j < n :: GoesTo(s, arrivals, j, h, ip) || Follows(s, arrivals, j, h, ip)
    ensures OnlyAt(s, arrivals, n, h, ip)
  {
    var v := OnlySoFar(s, arrivals, h, ip);
    forall j: nat | from <= j < n && v[j]
      ensures v[j + 1]
    {
      StepGoes(s, arrivals, j, h, ip);
    }
    HandedOn(v, from, n);
  }

  /** When a flow stays with its backend, from any state in which its copies name one, for
      reclaims and losses of any kind, any traffic, tables, configurations and time-outs:
      all its packets are sent there exactly when each of them finds the flow stored, live
      and its backend not unhealthy, or else has that backend picked for it again. */
  lemma FlowSticksExactly(s: State, arrivals: seq<Arrival>, from: nat, n: nat, h: nat, ip: Ip)
    requires Sized(s) && AllSound(arrivals) && from <= n <= |arrivals| && OnlyAt(s, arrivals, from, h, ip)
    ensures (forall j: nat | from <= j < n :: GoesTo(s, arrivals, j, h, ip)) <==>
            (forall j: nat | from <= j < n :: Follows(s, arrivals, j, h, ip))
  {
    var all := forall j: nat | from <= j < n :: GoesTo(s, arrivals, j, h, ip);
    if all || forall j: nat | from <= j < n :: Follows(s, arrivals, j, h, ip) {
      forall j: nat | from <= j < n
        ensures GoesTo(s, arrivals, j, h, ip) && Follows(s, arrivals, j, h, ip)
      {
        OnlyStays(s, arrivals, from, j, h, ip);
        StepGoes(s, arrivals, j, h, ip);
      }
    }
  }

  /** After packet `k` and before packet `n` no packet of the flow misses it. */
  predicate KeepsFlow(s: State, arrivals: seq<Arrival>, k: nat, n: nat, h: nat)
    requires Sized(s) && n <= |arrivals| && AllSound(arrivals)
  {
    forall j: nat | k < j < n :: !Misses(s, arrivals, j, h)
  }

  /** Once packet `k` is handled, all copies of the flow name its backend. */
  predicate Settled(s: State, arrivals: seq<Arrival>, k: nat, h: nat)
    requires Sized(s) && AllSound(arrivals) && k < |arrivals| && OfFlow(arrivals[k], h)
  {
    OnlyAt(s, arrivals, k + 1, h, BackendOf(s, arrivals, k))
  }

  /** Two packets of one flow are sent to the same backend, whatever comes in between, as
      long as every packet of the flow after the first finds the flow stored, live and its
      backend not unhealthy, and the first left no copy that names another backend. */
  lemma FlowSticks(s: State, arrivals: seq<Arrival>, k: nat, n: nat, h: nat)
    requires Sized(s) && AllSound(arrivals) && k < n < |arrivals|
    requires OfFlow(arrivals[k], h) && OfFlow(arrivals[n], h) && Settled(s, arrivals, k, h)
    requires KeepsFlow(s, arrivals, k, n + 1, h)
    ensures BackendOf(s, arrivals, n) == BackendOf(s, arrivals, k)
  {
    var ip := BackendOf(s, arrivals, k);
    forall j: nat | k + 1 <= j < n + 1
      ensures Follows(s, arrivals, j, h, ip)
    {
      assert !Misses(s, arrivals, j, h);
    }
    FlowSticksExactly(s, arrivals, k + 1, n + 1, h, ip);
    assert GoesTo(s, arrivals, n, h, ip);
  }

  /** What the first packet leaves is decided by what it found: all copies with the backend
      it follows, or, for an insert, none with another backend but the entry it lost. */
  lemma SettledExactly(s: State, arrivals: seq<Arrival>, k: nat, h: nat)
    requires Sized(s) && AllSound(arrivals) && k < |arrivals| && OfFlow(arrivals[k], h)
    ensures Settled(s, arrivals, k, h) <==>
            if Misses(s, arrivals, k, h) then InsertClears(At(s, arrivals, k), arrivals[k], h)
            else OnlyAt(s, arrivals, k, h, BackendOf(s, arrivals, k))
  {
    NextAt(s, arrivals, k);
    PacketSettlesExactly(At(s, arrivals, k), arrivals[k], h);
  }

  /** It is so for the first packet of a flow that is not stored. */
  lemma NewFlowSettles(s: State, arrivals: seq<Arrival>, k: nat, h: nat)
    requires Sized(s) && AllSound(arrivals) && k < |arrivals| && OfFlow(arrivals[k], h)
    requires Absent(At(s, arrivals, k).conn, h)
    ensures Settled(s, arrivals, k, h)
  {
    var t := At(s, arrivals, k);
    assert Find(t.conn, h).Some? ==> Holds(t.conn, h, Find(t.conn, h).value);
    NextAt(s, arrivals, k);
    PacketKeepsOnly(t, arrivals[k], h, ChosenFor(t, arrivals[k]));
  }

  /** All copies of the flow that packet `j` could find name one backend. */
  predicate Agrees(s: State, arrivals: seq<Arrival>, j: nat, h: nat)
    requires Sized(s) && AllSound(arrivals) && j <= |arrivals|
  {
    Agree(At(s, arrivals, j).conn, h)
  }

  /** If packet `j` misses its flow, its insert leaves no copy with another backend. */
  predicate ClearsAt(s: State, arrivals: seq<Arrival>, j: nat, h: nat)
    requires Sized(s) && AllSound(arrivals) && j < |arrivals|
  {
    Misses(s, arrivals, j, h) ==> InsertClears(At(s, arrivals, j), arrivals[j], h)
  }

  predicate SettlesAt(s: State, arrivals: seq<Arrival>, j: nat, h: nat)
    requires Sized(s) && AllSound(arrivals) && j < |arrivals|
  {
    OfFlow(arrivals[j], h) ==> Settled(s, arrivals, j, h)
  }

  lemma FoundAgrees(s: State, a: Arrival, h: nat)
    requires Sized(s) && Sound(a.env) && OfFlow(a, h) && FindsFlow(s, a, h) && Agree(s.conn, h)
    ensures Only(s.conn, h, ChosenFor(s, a))
  {
    var ip := AgreedBackend(s.conn, h);
    LookupIsOnly(s.conn, h, ip, Flows(a.env.ttls, a.env.now));
  }

  lemma StepSettles(s: State, arrivals: seq<Arrival>, j: nat, h: nat)
    requires Sized(s) && AllSound(arrivals) && j < |arrivals| && Agrees(s, arrivals, j, h)
    ensures SettlesAt(s, arrivals, j, h) <==> ClearsAt(s, arrivals, j, h)
    ensures SettlesAt(s, arrivals, j, h) ==> Agrees(s, arrivals, j + 1, h)
  {
    NextAt(s, arrivals, j);
    var t := At(s, arrivals, j);
    if OfFlow(arrivals[j], h) {
      SettledExactly(s, arrivals, j, h);
      if FindsFlow(t, arrivals[j], h) {
        FoundAgrees(t, arrivals[j], h);
      }
      if Settled(s, arrivals, j, h) {
        OnlyAgrees(At(s, arrivals, j + 1).conn, h, BackendOf(s, arrivals, j));
      }
    } else {
      var ip := AgreedBackend(t.conn, h);
      PacketKeepsOnly(t, arrivals[j], h, ip);
      OnlyAgrees(At(s, arrivals, j + 1).conn, h, ip);
    }
  }

  lemma {:induction false} AgreementStays(s: State, arrivals: seq<Arrival>, n: nat, h: nat)
    requires Sized(s) && AllSound(arrivals) && n <= |arrivals| && Agree(s.conn, h)
    requires forall j: nat | j < n :: SettlesAt(s, arrivals, j, h) || ClearsAt(s, arrivals, j, h)
    ensures Agrees(s, arrivals, n, h)
  {
    if n > 0 {
      AgreementStays(s, arrivals, n - 1, h);
      StepSettles(s, arrivals, n - 1, h);
    }
  }

  /** From any state in which the copies of a flow agree, as on a fresh table: every packet of
      the flow leaves all of them with its own backend exactly when every insert for the flow
      leaves no copy with another one. */
  lemma AlwaysSettledExactly(s: State, arrivals: seq<Arrival>, h: nat)
    requires Sized(s) && AllSound(arrivals) && Agree(s.conn, h)
    ensures (forall j: nat | j < |arrivals| :: SettlesAt(s, arrivals, j, h)) <==>
            (forall j: nat | j < |arrivals| :: ClearsAt(s, arrivals, j, h))
  {
    var all := forall j: nat | j < |arrivals| :: SettlesAt(s, arrivals, j, h);
    if all || forall j: nat | j < |arrivals| :: ClearsAt(s, arrivals, j, h) {
      forall j: nat | j < |arrivals|
        ensures SettlesAt(s, arrivals, j, h) && ClearsAt(s, arrivals, j, h)
      {
        AgreementStays(s, arrivals, j, h);
        StepSettles(s, arrivals, j, h);
      }
    }
  }

  // ----- fresh rewriters, and tables in order -----

  /** No insert for `h` has left a copy with another backend: the only answer for the flow is
      the backend of its latest insert. */
  lemma LookupIsLatest(s: State, arrivals: seq<Arrival>, ttls: ConnTtls, env: Env, h: nat)
    requires FreshRun(s, arrivals, ttls) && Clear(|s.conn|, ttls, RunOps(s, arrivals), h)
    requires Live(After(s, arrivals).conn, env, h)
    ensures var last := LastPut(RunOps(s, arrivals), h);
            last.Some? && Lookup(After(s, arrivals).conn, h, Flows(env.ttls, env.now)) == Some(last.value.ip)
  {
    RunIsPlay(s, arrivals, ttls);
    ClearAnswersLatest(|s.conn|, ttls, RunOps(s, arrivals), h, Flows(env.ttls, env.now));
  }

  /** In a tidy run a packet finds its flow exactly when the flow is stored, live and its
      backend usable. */
  lemma FindsFlowExactly(s: State, arrivals: seq<Arrival>, ttls: ConnTtls, a: Arrival, h: nat)
    requires FreshRun(s, arrivals, ttls) && TidyRun(s, arrivals, ttls)
    ensures WellFormed(After(s, arrivals).conn)
    ensures var v := View(After(s, arrivals).conn);
            FindsFlow(After(s, arrivals), a, h) <==>
            h in v && !Expired(Flows(a.env.ttls, a.env.now), v[h]) && NotUnhealthy(v[h].ip, a.env.health)
  {
    RunIsPlay(s, arrivals, ttls);
    TidyWellFormed(|s.conn|, ttls, RunOps(s, arrivals));
    FindIsView(After(s, arrivals).conn, h);
  }

  lemma TrackInOrderSettles(conn: seq<Slot>, env: Env, table: Maglev.LookupTable, meta: Meta)
    requires 0 < |conn| && SoundTable(table) && WellFormed(Track(conn, env, table, meta).1)
    ensures var (ip, u) := Track(conn, env, table, meta);
            Only(u, env.flowHash(meta.tuple), ip)
  {
    var h := env.flowHash(meta.tuple);
    var (ip, u) := Track(conn, env, table, meta);
    if Room(conn, env, h) {
      TrackPins(conn, env, table, meta);
    } else {
      InsertThenFind(conn, h, NewRecord(env, meta, ip), Flows(env.ttls, env.now));
    }
    FindIsFullScan(u, h);
  }

  /** A packet settles its flow whenever the table is well formed once it is handled. */
  lemma OrderSettles(s: State, arrivals: seq<Arrival>, k: nat, h: nat)
    requires Sized(s) && AllSound(arrivals) && k < |arrivals| && OfFlow(arrivals[k], h)
    requires WellFormed(At(s, arrivals, k + 1).conn)
    ensures Settled(s, arrivals, k, h)
  {
    NextAt(s, arrivals, k);
    var (meta, table) := Route(arrivals[k].env, arrivals[k].packet).value;
    TrackInOrderSettles(At(s, arrivals, k).conn, arrivals[k].env, table, meta);
  }

  /** So does every packet up to which a run from an empty table has been tidy. */
  lemma TidySettles(s: State, arrivals: seq<Arrival>, ttls: ConnTtls, k: nat, h: nat)
    requires k < |arrivals| && AllSound(arrivals) && OfFlow(arrivals[k], h)
    requires FreshRun(s, Before(arrivals, k + 1), ttls) && TidyRun(s, Before(arrivals, k + 1), ttls)
    ensures Settled(s, arrivals, k, h)
  {
    FindsFlowExactly(s, Before(arrivals, k + 1), ttls, arrivals[k], h);
    OrderSettles(s, arrivals, k, h);
  }

  // ----- the backend of a datagram -----

  /** A rewriter that starts with an empty fragment table, with its run so far. */
  ghost predicate FreshFragments(s: State, arrivals: seq<Arrival>, ttl: nat) {
    && Sized(s) && s.frags == FragmentTables.Play(|s.frags|, ttl, [])
    && AllSound(arrivals) && SameFragmentTtl(arrivals, ttl)
  }

  ghost predicate TidyFragments(s: State, arrivals: seq<Arrival>, ttl: nat)
    requires FreshFragments(s, arrivals, ttl)
  {
    FragmentTables.Tidy(|s.frags|, ttl, RunFragmentOps(s, arrivals))
  }

  /** Exactly what becomes of a later fragment: it follows the latest first fragment with its
      hash while that mapping is stored and not older than its time to live, and is dropped
      otherwise. */
  lemma LaterFragmentExactly(s: State, arrivals: seq<Arrival>, ttl: nat, env: Env, d: Packet)
    requires FreshFragments(s, arrivals, ttl) && TidyFragments(s, arrivals, ttl)
    requires env.fragmentTtl == ttl && ParseFragment(d).Some?
    ensures var h := env.fragmentHash(ParseFragment(d).value);
            var last := FragmentTables.LastPut(RunFragmentOps(s, arrivals), h);
            && WellFormed(After(s, arrivals).frags)
            && (h in View(After(s, arrivals).frags) ==> last.Some?)
            && FollowFragment(After(s, arrivals).frags, env, d) ==
               if h in View(After(s, arrivals).frags) && env.now - last.value.now <= ttl
               then EncapTo(env, d, last.value.ip)
               else Dropped
  {
    var h := env.fragmentHash(ParseFragment(d).value);
    FragmentsArePlay(s, arrivals, ttl);
    FragmentTables.TidyPinsLatest(|s.frags|, ttl, RunFragmentOps(s, arrivals), h, env.now);
    FollowIsView(After(s, arrivals).frags, env, d);
  }

  lemma FollowIsView(frags: seq<Slot>, env: Env, d: Packet)
    requires 0 < |frags| && WellFormed(frags) && ParseFragment(d).Some?
    ensures var h, v := env.fragmentHash(ParseFragment(d).value), View(frags);
            FollowFragment(frags, env, d) ==
            if h in v && env.now - v[h].stamp <= env.fragmentTtl then EncapTo(env, d, v[h].ip) else Dropped
  {
    FindIsView(frags, env.fragmentHash(ParseFragment(d).value));
  }

  lemma {:induction false} LastFragmentConcat(a: seq<FragmentTables.Put>, b: seq<FragmentTables.Put>, h: nat)
    ensures FragmentTables.LastPut(a + b, h) ==
            if FragmentTables.LastPut(b, h).Some? then FragmentTables.LastPut(b, h) else FragmentTables.LastPut(a, h)
  {
    if b == [] {
      assert a + b == a;
    } else {
      assert (a + b)[..|a + b| - 1] == a + b[..|b| - 1];
      LastFragmentConcat(a, b[..|b| - 1], h);
    }
  }

  /** The latest insert for `h` that the first `n` packets made into the fragment table. */
  function LatestFragmentAt(s: State, arrivals: seq<Arrival>, n: nat, h: nat): Option<FragmentTables.Put>
    requires Sized(s) && AllSound(arrivals) && n <= |arrivals|
  {
    FragmentTables.LastPut(RunFragmentOps(s, Before(arrivals, n)), h)
  }

  lemma LatestFragmentStep(s: State, arrivals: seq<Arrival>, j: nat, h: nat)
    requires Sized(s) && AllSound(arrivals) && j < |arrivals|
    ensures var step := FragmentTables.LastPut(FragmentOps(After(s, Before(arrivals, j)), arrivals[j]), h);
            LatestFragmentAt(s, arrivals, j + 1, h) == if step.Some? then step else LatestFragmentAt(s, arrivals, j, h)
  {
    assert Before(arrivals, j + 1)[..j] == Before(arrivals, j);
    LastFragmentConcat(RunFragmentOps(s, Before(arrivals, j)),
                       FragmentOps(After(s, Before(arrivals, j)), arrivals[j]), h);
  }

  /** Packet `j` is a first fragment with this hash. */
  predicate LeadsAt(s: State, arrivals: seq<Arrival>, j: nat, h: nat)
    requires Sized(s) && AllSound(arrivals) && j < |arrivals|
  {
    FragmentTables.LastPut(FragmentOps(After(s, Before(arrivals, j)), arrivals[j]), h).Some?
  }

  /** No first fragment with this hash comes after packet `k`. */
  predicate LastOfItsHash(s: State, arrivals: seq<Arrival>, k: nat, h: nat)
    requires Sized(s) && AllSound(arrivals)
  {
    forall j: nat | k < j < |arrivals| :: !LeadsAt(s, arrivals, j, h)
  }

  lemma NoLead(s: State, arrivals: seq<Arrival>, j: nat, h: nat)
    requires Sized(s) && AllSound(arrivals) && j < |arrivals| && !LeadsAt(s, arrivals, j, h)
    ensures LatestFragmentAt(s, arrivals, j + 1, h) == LatestFragmentAt(s, arrivals, j, h)
  {
    LatestFragmentStep(s, arrivals, j, h);
  }

  /** A value that no step changes. */
  lemma {:induction false} Constant<T>(v: seq<T>, k: nat, n: nat)
    requires k < n < |v| && forall j: nat | k < j < n :: v[j + 1] == v[j]
    ensures v[n] == v[k + 1]
  {
    if k + 1 < n {
      Constant(v, k, n - 1);
    }
  }

  function LatestFragments(s: State, arrivals: seq<Arrival>, h: nat): (v: seq<Option<FragmentTables.Put>>)
    requires Sized(s) && AllSound(arrivals)
    ensures |v| == |arrivals| + 1 && forall j: nat | j < |v| :: v[j] == LatestFragmentAt(s, arrivals, j, h)
  {
    seq(|arrivals| + 1, j requires 0 <= j <= |arrivals| => LatestFragmentAt(s, arrivals, j, h))
  }

  lemma LatestFragmentStays(s: State, arrivals: seq<Arrival>, k: nat, h: nat)
    requires Sized(s) && AllSound(arrivals) && k < |arrivals| && LastOfItsHash(s, arrivals, k, h)
    ensures LatestFragmentAt(s, arrivals, |arrivals|, h) == LatestFragmentAt(s, arrivals, k + 1, h)
  {
    var n := |arrivals|;
    var v := LatestFragments(s, arrivals, h);
    forall j: nat | k < j < n
      ensures v[j + 1] == v[j]
    {
      NoLead(s, arrivals, j, h);
    }
    Constant(v, k, n);
  }

  lemma LeadIsLatest(s: State, arrivals: seq<Arrival>, k: nat, h: nat, ip: Ip, at: int)
    requires Sized(s) && AllSound(arrivals) && k < |arrivals|
    requires Leads(After(s, Before(arrivals, k)), arrivals[k], h, ip, at)
    ensures LatestFragmentAt(s, arrivals, k + 1, h) == Some(FragmentTables.Put(h, ip, at))
  {
    LatestFragmentStep(s, arrivals, k, h);
  }

  /** Every first fragment of the hash among the packets from number `from` goes to `ip`. */
  predicate LedOnlyTo(s: State, arrivals: seq<Arrival>, from: nat, h: nat, ip: Ip)
    requires Sized(s) && AllSound(arrivals)
  {
    forall j: nat | from <= j < |arrivals| :: LeadsOnlyTo(At(s, arrivals, j), arrivals[j], h, ip)
  }

  predicate LeadsOnlyTo(s: State, a: Arrival, h: nat, ip: Ip)
    requires Sized(s) && Sound(a.env)
  {
    forall op | op in FragmentOps(s, a) :: op.hash == h ==> op.ip == ip
  }

  lemma PacketKeepsMapping(s: State, a: Arrival, h: nat, ip: Ip)
    requires Sized(s) && Sound(a.env) && Only(s.frags, h, ip) && LeadsOnlyTo(s, a, h, ip)
    ensures Only(ProcessOne(s, a).0.frags, h, ip)
  {
    if FragmentOps(s, a) != [] {
      var op := FragmentOps(s, a)[0];
      assert op in FragmentOps(s, a);
      InsertKeepsOnly(s.frags, op.hash, FragmentTables.FragmentRecord(op.ip, op.now),
                      Fragments(a.env.fragmentTtl, op.now), h, ip);
    }
  }

  /** The mapping, as far as it is stored, after any number of packets. */
  function MappedSoFar(s: State, arrivals: seq<Arrival>, h: nat, ip: Ip): (v: seq<bool>)
    requires Sized(s) && AllSound(arrivals)
    ensures |v| == |arrivals| + 1 && forall j: nat | j < |v| :: v[j] == Only(At(s, arrivals, j).frags, h, ip)
  {
    seq(|arrivals| + 1, j requires 0 <= j <= |arrivals| => Only(At(s, arrivals, j).frags, h, ip))
  }

  lemma MappingStays(s: State, arrivals: seq<Arrival>, from: nat, h: nat, ip: Ip)
    requires Sized(s) && AllSound(arrivals) && from <= |arrivals| && Only(At(s, arrivals, from).frags, h, ip)
    requires LedOnlyTo(s, arrivals, from, h, ip)
    ensures Only(After(s, arrivals).frags, h, ip)
  {
    var v := MappedSoFar(s, arrivals, h, ip);
    forall j: nat | from <= j < |arrivals| && v[j]
      ensures v[j + 1]
    {
      assert LeadsOnlyTo(At(s, arrivals, j), arrivals[j], h, ip);
      PacketKeepsMapping(At(s, arrivals, j), arrivals[j], h, ip);
      NextAt(s, arrivals, j);
    }
    HandedOn(v, from, |arrivals|);
    assert Before(arrivals, |arrivals|) == arrivals;
  }

  /** The insert of a first fragment leaves no mapping of its hash to another backend. */
  predicate LeadClears(s: State, a: Arrival, h: nat, ip: Ip, at: int)
    requires Sized(s)
  {
    Clears(s.frags, h, FragmentTables.FragmentRecord(ip, at), Fragments(a.env.fragmentTtl, at))
  }

  lemma LeadSettlesExactly(s: State, a: Arrival, h: nat, ip: Ip, at: int)
    requires Sized(s) && Leads(s, a, h, ip, at)
    ensures Only(ProcessOne(s, a).0.frags, h, ip) <==> LeadClears(s, a, h, ip, at)
  {
    assert FragmentOps(s, a)[0] == FragmentTables.Put(h, ip, at);
    InsertClearsExactly(s.frags, h, FragmentTables.FragmentRecord(ip, at), Fragments(a.env.fragmentTtl, at));
  }

  /** A later fragment reaches no other backend: from any state, reclaims, losses, full tables
      and time-outs of any kind included, it goes to the backend of the first fragment or is
      dropped, when that first fragment left no mapping to another backend and no later first
      fragment of the same hash went to another one. */
  lemma FragmentGoesNowhereElse(s: State, arrivals: seq<Arrival>, k: nat, env: Env, d: Packet, ip: Ip, at: int)
    requires Sized(s) && AllSound(arrivals) && k < |arrivals| && ParseFragment(d).Some?
    requires var h := env.fragmentHash(ParseFragment(d).value);
             && Leads(At(s, arrivals, k), arrivals[k], h, ip, at)
             && LeadClears(At(s, arrivals, k), arrivals[k], h, ip, at)
             && LedOnlyTo(s, arrivals, k + 1, h, ip)
    ensures FollowFragment(After(s, arrivals).frags, env, d) in {EncapTo(env, d, ip), Dropped}
  {
    var h := env.fragmentHash(ParseFragment(d).value);
    LeadSettlesExactly(At(s, arrivals, k), arrivals[k], h, ip, at);
    NextAt(s, arrivals, k);
    MappingStays(s, arrivals, k + 1, h, ip);
    LookupIsOnly(After(s, arrivals).frags, h, ip, Fragments(env.fragmentTtl, env.now));
  }

  /** The clock did not run backwards: no packet of the run came after `now`. */
  predicate NoneLater(arrivals: seq<Arrival>, now: int) {
    forall j: nat | j < |arrivals| :: arrivals[j].env.now <= now
  }

  lemma {:induction false} InsertsArePast(s: State, arrivals: seq<Arrival>, now: int)
    requires Sized(s) && AllSound(arrivals) && NoneLater(arrivals, now)
    ensures FragmentTables.Past(RunFragmentOps(s, arrivals), now)
  {
    if arrivals != [] {
      var before := arrivals[..|arrivals| - 1];
      InsertsArePast(s, before, now);
      assert FragmentTables.Past(FragmentOps(After(s, before), arrivals[|arrivals| - 1]), now);
    }
  }

  /** Fragments follow the first one over whole runs. On a fresh rewriter, whatever packets
      and other datagrams come in between, a later fragment goes to the backend that the
      first fragment of its datagram was given, while the mapping is not older than its time
      to live, if every insert kept the table well formed and none found it full. */
  lemma FragmentFollowsFirst(s: State, arrivals: seq<Arrival>, ttl: nat, k: nat, env: Env, d: Packet, ip: Ip, at: int)
    requires FreshFragments(s, arrivals, ttl) && TidyFragments(s, arrivals, ttl)
    requires FragmentTables.NoneLost(|s.frags|, ttl, RunFragmentOps(s, arrivals))
    requires env.fragmentTtl == ttl && ParseFragment(d).Some? && k < |arrivals| && NoneLater(arrivals, env.now)
    requires Leads(After(s, Before(arrivals, k)), arrivals[k], env.fragmentHash(ParseFragment(d).value), ip, at)
    requires LastOfItsHash(s, arrivals, k, env.fragmentHash(ParseFragment(d).value)) && env.now - at <= ttl
    ensures FollowFragment(After(s, arrivals).frags, env, d) == EncapTo(env, d, ip)
  {
    var h := env.fragmentHash(ParseFragment(d).value);
    assert Before(arrivals, |arrivals|) == arrivals;
    LatestFragmentStays(s, arrivals, k, h);
    LeadIsLatest(s, arrivals, k, h, ip, at);
    LaterFragmentExactly(s, arrivals, ttl, env, d);
    FragmentsArePlay(s, arrivals, ttl);
    InsertsArePast(s, arrivals, env.now);
    FragmentTables.TidyPinsLatest(|s.frags|, ttl, RunFragmentOps(s, arrivals), h, env.now);
  }
}
