/**
 Whole runs of the connection table: any sequence of inserts, touches and TCP marks on
 an empty table, at any times.
 */
module ConnRuns {
  import opened Common
  import opened Entries
  import opened RobinHood
  import opened RobinHoodOrder
  import opened RobinHoodView
  import opened ConnTables

  datatype Op =
    | Put(hash: nat, rec: Record)
    | Mark(hash: nat, change: Change, at: int)

  /** The time of a call; an insert stamps its record with it. */
  function Time(op: Op): int {
    if op.Put? then op.rec.stamp else op.at
  }

  function PutResult(t: seq<Slot>, ttls: ConnTtls, op: Op): Insertion
    requires 0 < |t| && op.Put?
  {
    Insert(t, op.hash, op.rec, Flows(ttls, op.rec.stamp))
  }

  function Apply(t: seq<Slot>, ttls: ConnTtls, op: Op): (u: seq<Slot>)
    requires 0 < |t|
    ensures |u| == |t|
  {
    match op
    case Put(_, _) => PutResult(t, ttls, op).table
    case Mark(hash, change, at) => AmendStored(t, hash, change, at)
  }

  function Play(cap: nat, ttls: ConnTtls, ops: seq<Op>): (t: seq<Slot>)
    requires 0 < cap
    ensures |t| == cap
  {
    if ops == [] then seq(cap, _ => Empty)
    else Apply(Play(cap, ttls, ops[..|ops| - 1]), ttls, ops[|ops| - 1])
  }

  /** The operation does not reuse an expired slot of `t`. */
  predicate NoReclaim(t: seq<Slot>, ttls: ConnTtls, op: Op)
    requires 0 < |t|
  {
    op.Put? ==> PutResult(t, ttls, op).result != EvictedExpired
  }

  /** No insert of the run answers `EvictedExpired`. */
  predicate Quiet(cap: nat, ttls: ConnTtls, ops: seq<Op>)
    requires 0 < cap
  {
    ops != [] ==>
      var before := ops[..|ops| - 1];
      Quiet(cap, ttls, before) && NoReclaim(Play(cap, ttls, before), ttls, ops[|ops| - 1])
  }

  // ----- one insert -----

  /** Read your write, on any table content: unless the answer is `DroppedFull`, a
      lookup at the time of the insert returns the backend inserted. And it does so on
      `DroppedFull` too, exactly when the entry lost is not the new one. */
  lemma ReadYourWrite(t: seq<Slot>, ttls: ConnTtls, op: Op)
    requires 0 < |t| && op.Put?
    ensures var r := PutResult(t, ttls, op);
            var p := Flows(ttls, op.rec.stamp);
            && (r.result != DroppedFull ==> Lookup(r.table, op.hash, p) == Some(op.rec.ip))
            && (Lookup(r.table, op.hash, p) == Some(op.rec.ip) <==> !Blocked(t, op.hash, p))
            && (Blocked(t, op.hash, p) ==> Lookup(r.table, op.hash, p) == None && r.table == t)
  {
    InsertThenFind(t, op.hash, op.rec, Flows(ttls, op.rec.stamp));
  }

  lemma AmendRefinesMap(t: seq<Slot>, h: nat, c: Change, now: int)
    requires 0 < |t| && WellFormed(t)
    ensures var u := AmendStored(t, h, c, now);
            && WellFormed(u)
            && View(u) == if h in View(t) then View(t)[h := Amend(c, View(t)[h], now)] else View(t)
  {
    FindIsView(t, h);
    if h in View(t) {
      UpdateRecord(t, Find(t, h).value, Amend(c, View(t)[h], now));
    }
  }

  // ----- runs that keep the table well formed -----

  /** If the operation reuses an expired slot, then in a way that keeps the table well formed. */
  predicate TidyStep(t: seq<Slot>, ttls: ConnTtls, op: Op)
    requires 0 < |t|
  {
    op.Put? ==> Tidies(t, op.hash, op.rec, Flows(ttls, op.rec.stamp))
  }

  /** Every reclaim of the run keeps the table well formed. */
  predicate Tidy(cap: nat, ttls: ConnTtls, ops: seq<Op>)
    requires 0 < cap
  {
    ops != [] ==>
      var before := ops[..|ops| - 1];
      Tidy(cap, ttls, before) && TidyStep(Play(cap, ttls, before), ttls, ops[|ops| - 1])
  }

  lemma StepWellFormedExactly(t: seq<Slot>, ttls: ConnTtls, op: Op)
    requires 0 < |t| && WellFormed(t)
    ensures WellFormed(Apply(t, ttls, op)) <==> TidyStep(t, ttls, op)
  {
    match op
    case Put(h, rec) => InsertKeepsWellFormedExactly(t, h, rec, Flows(ttls, rec.stamp));
    case Mark(h, c, at) => AmendRefinesMap(t, h, c, at);
  }

  lemma {:induction false} TidyWellFormed(cap: nat, ttls: ConnTtls, ops: seq<Op>)
    requires 0 < cap && Tidy(cap, ttls, ops)
    ensures WellFormed(Play(cap, ttls, ops))
  {
    if ops == [] {
      EmptyIsWellFormed(cap);
    } else {
      var before := ops[..|ops| - 1];
      TidyWellFormed(cap, ttls, before);
      StepWellFormedExactly(Play(cap, ttls, before), ttls, ops[|ops| - 1]);
    }
  }

  /** Order and distinct hashes have held at every moment of the run. */
  predicate AlwaysWellFormed(cap: nat, ttls: ConnTtls, ops: seq<Op>)
    requires 0 < cap
  {
    forall k: nat | k <= |ops| :: WellFormedAfter(cap, ttls, ops, k)
  }

  /** After the first `k` operations the table is well formed. */
  predicate WellFormedAfter(cap: nat, ttls: ConnTtls, ops: seq<Op>, k: nat)
    requires 0 < cap && k <= |ops|
  {
    WellFormed(Play(cap, ttls, ops[..k]))
  }

  lemma SameAfter(cap: nat, ttls: ConnTtls, ops: seq<Op>, k: nat)
    requires 0 < cap && k < |ops|
    ensures WellFormedAfter(cap, ttls, ops[..|ops| - 1], k) <==> WellFormedAfter(cap, ttls, ops, k)
  {
    assert ops[..|ops| - 1][..k] == ops[..k];
  }

  lemma AfterAll(cap: nat, ttls: ConnTtls, ops: seq<Op>)
    requires 0 < cap
    ensures WellFormedAfter(cap, ttls, ops, |ops|) <==> WellFormed(Play(cap, ttls, ops))
  {
    assert ops[..|ops|] == ops;
  }

  lemma AlwaysBefore(cap: nat, ttls: ConnTtls, ops: seq<Op>)
    requires 0 < cap && ops != [] && AlwaysWellFormed(cap, ttls, ops)
    ensures AlwaysWellFormed(cap, ttls, ops[..|ops| - 1])
  {
    var before := ops[..|ops| - 1];
    forall k: nat | k <= |before|
      ensures WellFormedAfter(cap, ttls, before, k)
    {
      assert WellFormedAfter(cap, ttls, ops, k);
      SameAfter(cap, ttls, ops, k);
    }
  }

  lemma AlwaysAndLast(cap: nat, ttls: ConnTtls, ops: seq<Op>)
    requires 0 < cap && ops != [] && AlwaysWellFormed(cap, ttls, ops[..|ops| - 1])
    requires WellFormedAfter(cap, ttls, ops, |ops|)
    ensures AlwaysWellFormed(cap, ttls, ops)
  {
    forall k: nat | k <= |ops|
      ensures WellFormedAfter(cap, ttls, ops, k)
    {
      if k < |ops| {
        assert WellFormedAfter(cap, ttls, ops[..|ops| - 1], k);
        SameAfter(cap, ttls, ops, k);
      }
    }
  }

  /** The table has been in order at every moment exactly when every reclaim was tidy. */
  lemma {:induction false} TidyExactly(cap: nat, ttls: ConnTtls, ops: seq<Op>)
    requires 0 < cap
    ensures Tidy(cap, ttls, ops) <==> AlwaysWellFormed(cap, ttls, ops)
  {
    if ops == [] {
      assert ops[..0] == ops;
      TidyWellFormed(cap, ttls, ops);
      assert WellFormedAfter(cap, ttls, ops, 0);
    } else {
      var before := ops[..|ops| - 1];
      TidyExactly(cap, ttls, before);
      if Tidy(cap, ttls, before) {
        TidyWellFormed(cap, ttls, before);
        StepWellFormedExactly(Play(cap, ttls, before), ttls, ops[|ops| - 1]);
      }
      AfterAll(cap, ttls, ops);
      if AlwaysWellFormed(cap, ttls, ops) {
        AlwaysBefore(cap, ttls, ops);
        assert WellFormedAfter(cap, ttls, ops, |ops|);
      } else if Tidy(cap, ttls, ops) {
        AlwaysAndLast(cap, ttls, ops);
      }
    }
  }

  lemma {:induction false} QuietIsTidy(cap: nat, ttls: ConnTtls, ops: seq<Op>)
    requires 0 < cap && Quiet(cap, ttls, ops)
    ensures Tidy(cap, ttls, ops)
  {
    if ops != [] {
      QuietIsTidy(cap, ttls, ops[..|ops| - 1]);
    }
  }

  // ----- runs without a reclaim -----

  lemma QuietWellFormed(cap: nat, ttls: ConnTtls, ops: seq<Op>)
    requires 0 < cap && Quiet(cap, ttls, ops)
    ensures WellFormed(Play(cap, ttls, ops))
  {
    QuietIsTidy(cap, ttls, ops);
    TidyWellFormed(cap, ttls, ops);
  }

  /** After every run in which no slot examined by an insert was expired, the early-exit
      lookup agrees with a scan of the whole table, for every hash and every time. */
  lemma QuietLookupIsFullScan(cap: nat, ttls: ConnTtls, ops: seq<Op>, h: nat, p: Policy)
    requires 0 < cap && Quiet(cap, ttls, ops)
    ensures var t := Play(cap, ttls, ops);
            && (Lookup(t, h, p).None? <==> forall i: nat | Holds(t, h, i) :: Expired(p, t[i].rec))
            && (forall i: nat | Holds(t, h, i) && !Expired(p, t[i].rec) :: Lookup(t, h, p) == Some(t[i].rec.ip))
  {
    QuietWellFormed(cap, ttls, ops);
    FindIsFullScan(Play(cap, ttls, ops), h);
  }

  /** The rank of the TCP state stored for `h`, or -1 when `h` is not stored. */
  function StoredRank(t: seq<Slot>, h: nat): int {
    if Distinct(t) && h in View(t) then StateRank(View(t)[h].state) else -1
  }

  /** `h` is stored after every step of the run beyond the first `from`. */
  predicate Stays(cap: nat, ttls: ConnTtls, ops: seq<Op>, from: nat, h: nat)
    requires 0 < cap
  {
    from < |ops| ==> Stays(cap, ttls, ops[..|ops| - 1], from, h) && !Absent(Play(cap, ttls, ops), h)
  }

  /** One step of such a run: no stored flow falls back to an earlier TCP state. */
  lemma StepClimbs(t: seq<Slot>, ttls: ConnTtls, op: Op, h: nat)
    requires 0 < |t| && WellFormed(t) && NoReclaim(t, ttls, op) && !Absent(Apply(t, ttls, op), h)
    ensures StoredRank(Apply(t, ttls, op), h) >= StoredRank(t, h)
  {
    match op
    case Put(x, rec) => {
      InsertRefinesMap(t, x, rec, Flows(ttls, rec.stamp));
      if PutResult(t, ttls, op).result == DroppedFull {
        var r := PutResult(t, ttls, op);
        assert h in View(r.table) ==> View(r.table)[r.lost.hash := r.lost.rec][h] == View(r.table)[h];
      }
    }
    case Mark(x, c, at) => AmendRefinesMap(t, x, c, at);
  }

  /** Over a run without reclaims, from any point on, the TCP state of a flow never falls
      in the order Handshake, NotTcp, Established, Closing while it stays stored. */
  lemma {:induction false} QuietClimbs(cap: nat, ttls: ConnTtls, ops: seq<Op>, from: nat, h: nat)
    requires 0 < cap && from <= |ops| && Quiet(cap, ttls, ops) && Stays(cap, ttls, ops, from, h)
    ensures StoredRank(Play(cap, ttls, ops), h) >= StoredRank(Play(cap, ttls, ops[..from]), h)
  {
    if from < |ops| {
      var before := ops[..|ops| - 1];
      assert before[..from] == ops[..from];
      QuietWellFormed(cap, ttls, before);
      QuietClimbs(cap, ttls, before, from, h);
      StepClimbs(Play(cap, ttls, before), ttls, ops[|ops| - 1], h);
    } else {
      assert ops[..from] == ops;
    }
  }

  /** The last insert of `h` in the run, if any. */
  function LastPut(ops: seq<Op>, h: nat): (r: Option<Record>) {
    if ops == [] then None
    else
      var op := ops[|ops| - 1];
      if op.Put? && op.hash == h then Some(op.rec) else LastPut(ops[..|ops| - 1], h)
  }

  /** What one step means for the record of one flow. */
  predicate KeepsLatest(before: map<nat, Record>, after: map<nat, Record>, op: Op, h: nat) {
    h in after ==>
      if op.Put? && op.hash == h then after[h].ip == op.rec.ip
      else h in before && after[h].ip == before[h].ip
  }

  lemma PutLatest(t: seq<Slot>, ttls: ConnTtls, op: Op, h: nat)
    requires 0 < |t| && WellFormed(t) && op.Put? && TidyStep(t, ttls, op)
    ensures WellFormed(PutResult(t, ttls, op).table)
    ensures KeepsLatest(View(t), View(PutResult(t, ttls, op).table), op, h)
  {
    var r := PutResult(t, ttls, op);
    var p := Flows(ttls, op.rec.stamp);
    if r.result == EvictedExpired {
      ReclaimRefinesMap(t, op.hash, op.rec, p);
    } else {
      InsertRefinesMap(t, op.hash, op.rec, p);
      if r.result == DroppedFull && h in View(r.table) {
        assert h in View(r.table)[r.lost.hash := r.lost.rec];
        assert View(t)[op.hash := op.rec][h] == View(r.table)[h];
      }
    }
  }

  lemma StepLatest(t: seq<Slot>, ttls: ConnTtls, op: Op, h: nat)
    requires 0 < |t| && WellFormed(t) && TidyStep(t, ttls, op)
    ensures WellFormed(Apply(t, ttls, op)) && KeepsLatest(View(t), View(Apply(t, ttls, op)), op, h)
  {
    match op
    case Put(_, _) => PutLatest(t, ttls, op, h);
    case Mark(x, c, at) => AmendRefinesMap(t, x, c, at);
  }

  /** Over every run whose reclaims keep the table well formed, a flow that is still stored is
      pinned to the backend of the latest insert for it, whatever was displaced, reclaimed or
      dropped in between. `StaleBackendResurfaces` is a run with a reclaim that does not. */
  lemma {:induction false} TidyPinsLatest(cap: nat, ttls: ConnTtls, ops: seq<Op>, h: nat)
    requires 0 < cap && Tidy(cap, ttls, ops)
    ensures WellFormed(Play(cap, ttls, ops))
    ensures var v := View(Play(cap, ttls, ops));
            h in v ==> LastPut(ops, h).Some? && v[h].ip == LastPut(ops, h).value.ip
  {
    if ops == [] {
      EmptyIsWellFormed(cap);
    } else {
      var before := ops[..|ops| - 1];
      TidyPinsLatest(cap, ttls, before, h);
      StepLatest(Play(cap, ttls, before), ttls, ops[|ops| - 1], h);
    }
  }

  /** In particular over every run without a reclaim. */
  lemma QuietPinsLatest(cap: nat, ttls: ConnTtls, ops: seq<Op>, h: nat)
    requires 0 < cap && Quiet(cap, ttls, ops)
    ensures WellFormed(Play(cap, ttls, ops))
    ensures var v := View(Play(cap, ttls, ops));
            h in v ==> LastPut(ops, h).Some? && v[h].ip == LastPut(ops, h).value.ip
  {
    QuietIsTidy(cap, ttls, ops);
    TidyPinsLatest(cap, ttls, ops, h);
  }

  // ----- all runs -----

  /** The record was made by the run: its backend by an insert for that hash, its time
      stamp by that insert or a later call on the same hash. */
  predicate Backed(ops: seq<Op>, h: nat, r: Record) {
    exists a, b :: 0 <= a <= b < |ops| && MadeBy(ops, h, r, a, b)
  }

  predicate MadeBy(ops: seq<Op>, h: nat, r: Record, a: int, b: int)
    requires 0 <= a <= b < |ops|
  {
    && ops[a].Put? && ops[a].hash == h && ops[a].rec.ip == r.ip
    && ops[b].hash == h && Time(ops[b]) == r.stamp
  }

  predicate AllBacked(ops: seq<Op>, t: seq<Slot>) {
    forall i: nat | i < |t| && t[i].Full? :: Backed(ops, t[i].hash, t[i].rec)
  }

  lemma BackedGrows(ops: seq<Op>, op: Op, h: nat, r: Record)
    requires Backed(ops, h, r)
    ensures Backed(ops + [op], h, r)
  {
    var a, b :| 0 <= a <= b < |ops| && MadeBy(ops, h, r, a, b);
    assert MadeBy(ops + [op], h, r, a, b);
  }

  lemma {:induction false} RunBacked(ops: seq<Op>, w: Walk, p: Policy)
    requires Ready(w) && AllBacked(ops, w.table) && Backed(ops, w.cur.hash, w.cur.rec)
    ensures var r := Run(w, p);
            AllBacked(ops, r.table) && Backed(ops, r.cur.hash, r.cur.rec)
    decreases |w.table| - w.k
  {
    if !Stops(w, p) {
      RunBacked(ops, Round(w), p);
    }
  }

  lemma PutBacked(ops: seq<Op>, t: seq<Slot>, ttls: ConnTtls, op: Op)
    requires 0 < |t| && op.Put? && AllBacked(ops + [op], t)
    ensures AllBacked(ops + [op], PutResult(t, ttls, op).table)
  {
    var all := ops + [op];
    var p := Flows(ttls, op.rec.stamp);
    assert MadeBy(all, op.hash, op.rec, |ops|, |ops|);
    RunBacked(all, Start(t, op.hash, op.rec), p);
    var w := Run(Start(t, op.hash, op.rec), p);
    if w.k < |t| {
      var s := Settle(w.table[w.idx], w.cur, p);
      var a, b :| 0 <= a <= b < |all| && MadeBy(all, w.cur.hash, w.cur.rec, a, b);
      assert MadeBy(all, s.hash, s.rec, a, b);
    }
  }

  lemma MarkBacked(ops: seq<Op>, t: seq<Slot>, op: Op)
    requires 0 < |t| && op.Mark? && AllBacked(ops + [op], t)
    ensures AllBacked(ops + [op], AmendStored(t, op.hash, op.change, op.at))
  {
    var all := ops + [op];
    if Find(t, op.hash).Some? {
      var r := t[Find(t, op.hash).value].rec;
      var s := Amend(op.change, r, op.at);
      var a, b :| 0 <= a <= b < |all| && MadeBy(all, op.hash, r, a, b);
      assert MadeBy(all, op.hash, s, a, if s.stamp == r.stamp then b else |ops|);
    }
  }

  lemma {:induction false} PlayBacked(cap: nat, ttls: ConnTtls, ops: seq<Op>)
    requires 0 < cap
    ensures AllBacked(ops, Play(cap, ttls, ops))
  {
    if ops != [] {
      var before, op := ops[..|ops| - 1], ops[|ops| - 1];
      var t := Play(cap, ttls, before);
      assert ops == before + [op];
      PlayBacked(cap, ttls, before);
      forall i: nat | i < |t| && t[i].Full?
        ensures Backed(ops, t[i].hash, t[i].rec)
      {
        BackedGrows(before, op, t[i].hash, t[i].rec);
      }
      if op.Put? {
        PutBacked(before, t, ttls, op);
      } else {
        MarkBacked(before, t, op);
      }
    }
  }

  /** Soundness over all runs, reclaims included: a backend that a lookup returns was
      recorded by an insert for that same hash, and a call for that hash, not earlier
      than the insert, refreshed the entry within the time to live of its state. */
  lemma LookupIsSound(cap: nat, ttls: ConnTtls, ops: seq<Op>, h: nat, now: int)
    requires 0 < cap && Lookup(Play(cap, ttls, ops), h, Flows(ttls, now)).Some?
    ensures var t := Play(cap, ttls, ops);
            exists a, b :: 0 <= a <= b < |ops| && MadeBy(ops, h, t[Find(t, h).value].rec, a, b)
    ensures var t := Play(cap, ttls, ops);
            var r := t[Find(t, h).value].rec;
            && Lookup(t, h, Flows(ttls, now)) == Some(r.ip)
            && now - r.stamp <= TtlFor(ttls, r.proto, r.state)
  {
    PlayBacked(cap, ttls, ops);
  }

  // ----- what reclaims and full tables can do: concrete runs -----

  function Flow(n: Ipv4, now: int, s: TcpFlowState): Record {
    Record(V4(n), now, Tcp, s)
  }

  /** `DroppedFull` may lose an older flow: in a table of two the third flow is stored
      and found, and the second is gone. */
  lemma DroppedFullLosesOlderFlow(ttls: ConnTtls)
    ensures var t := [Full(0, Flow(1, 0, Established)), Full(1, Flow(2, 0, Established))];
            var r := Insert(t, 2, Flow(3, 0, Established), Flows(ttls, 0));
            && WellFormed(t)
            && r.result == DroppedFull
            && Lookup(r.table, 2, Flows(ttls, 0)) == Some(V4(3))
            && Lookup(t, 1, Flows(ttls, 0)) == Some(V4(2)) && Lookup(r.table, 1, Flows(ttls, 0)) == None
  {
    var t := [Full(0, Flow(1, 0, Established)), Full(1, Flow(2, 0, Established))];
    var p := Flows(ttls, 0);
    var s := Start(t, 2, Flow(3, 0, Established));
    assert OrderedAt(t, 0) && OrderedAt(t, 1);
    assert Round(s) == Walk(t, Full(2, Flow(3, 0, Established)), 1, 1, 1);
    assert Run(s, p) == Run(Round(s), p) == Run(Round(Round(s)), p) == Round(Round(s));
    var u := Round(Round(s)).table;
    assert u == [Full(0, Flow(1, 0, Established)), Full(2, Flow(3, 0, Established))];
    assert Find(u, 2) == FindFrom(u, 2, 1) == Some(1);
    assert FindFrom(u, 1, 1) == None;
    assert Find(t, 1) == Some(1);
  }

  /** Short TTLs for the runs below. */
  const TTLS := ConnTtls(30, 100, 10, 30, 30)

  /** A reclaim can hide a live flow: slot 1 has expired, the new flow moves in with
      distance 0 in front of a flow with distance 2, which is stored, live, and no
      longer found. */
  lemma ReclaimHidesLiveFlow()
    ensures var t := [Full(0, Flow(1, 20, Established)), Full(4, Flow(2, 0, Closing)),
                      Full(8, Flow(3, 20, Established)), Empty];
            var p := Flows(TTLS, 20);
            var r := Insert(t, 1, Flow(4, 20, Handshake), p);
            && WellFormed(t)
            && r.result == EvictedExpired
            && Lookup(t, 8, p) == Some(V4(3))
            && r.table[2] == t[2] && Lookup(r.table, 8, p) == None
  {
    var t := [Full(0, Flow(1, 20, Established)), Full(4, Flow(2, 0, Closing)),
              Full(8, Flow(3, 20, Established)), Empty];
    var p := Flows(TTLS, 20);
    assert OrderedAt(t, 0) && OrderedAt(t, 1) && OrderedAt(t, 2) && OrderedAt(t, 3);
    InsertLands(t, 1, Flow(4, 20, Handshake), 0, p);
    FindIsFullScan(t, 8);
    assert Holds(t, 8, 2);
    ReclaimKeepsKeyExactly(t, 1, 1, Flow(4, 20, Handshake), 8, 2);
  }

  const STALE_RUN: seq<Op> := [
    Put(0, Flow(1, 0, Established)), Put(4, Flow(2, 0, Closing)), Put(8, Flow(3, 0, Established)),
    Put(8, Flow(4, 20, Closing)), Put(12, Flow(5, 40, Established))]

  /** How far from home each insert of the run lands. */
  const STALE_STEPS: seq<nat> := [0, 1, 2, 1, 1]

  function StaleTable(n: nat): (t: seq<Slot>)
    requires n <= 5
    ensures |t| == 4
  {
    if n == 0 then [Empty, Empty, Empty, Empty]
    else StaleTable(n - 1)[STALE_STEPS[n - 1] := Full(STALE_RUN[n - 1].hash, STALE_RUN[n - 1].rec)]
  }

  /** An insert that lands after blocking slots writes that one slot. */
  lemma ApplyLands(t: seq<Slot>, ttls: ConnTtls, op: Op, j: nat)
    requires op.Put? && j < |t|
    requires var p := Flows(ttls, op.rec.stamp);
             && Takes(t[Pos(Home(op.hash, |t|), j, |t|)], Full(op.hash, op.rec), p)
             && forall i: nat | i < j :: BlocksAt(t, op.hash, i, p)
    ensures var i := Pos(Home(op.hash, |t|), j, |t|);
            Apply(t, ttls, op) == t[i := Settle(t[i], Full(op.hash, op.rec), Flows(ttls, op.rec.stamp))]
  {
    InsertLands(t, op.hash, op.rec, j, Flows(ttls, op.rec.stamp));
  }

  /** The insert number `n` meets `STALE_STEPS[n]` blocking slots and then lands. */
  lemma StaleStep(n: nat)
    requires n < 5
    ensures Apply(StaleTable(n), TTLS, STALE_RUN[n]) == StaleTable(n + 1)
  {
    var t, op := StaleTable(n), STALE_RUN[n];
    StaleSlots(n);
    assert forall i: nat | i < STALE_STEPS[n] :: BlocksAt(t, op.hash, i, Flows(TTLS, op.rec.stamp));
    ApplyLands(t, TTLS, op, STALE_STEPS[n]);
  }

  lemma StaleSlots(n: nat)
    requires n <= 5
    ensures var t := StaleTable(n);
            && t[0] == (if n == 0 then Empty else Full(0, Flow(1, 0, Established)))
            && t[1] == (if n < 2 then Empty else if n < 4 then Full(4, Flow(2, 0, Closing))
                        else if n == 4 then Full(8, Flow(4, 20, Closing)) else Full(12, Flow(5, 40, Established)))
            && t[2] == (if n < 3 then Empty else Full(8, Flow(3, 0, Established)))
            && t[3] == Empty
  {
    if n > 0 {
      StaleSlots(n - 1);
    }
  }

  /** A run after which a lookup returns a backend that is not the latest one inserted
      for the flow: the reclaim leaves the older copy of hash 8 behind, the newer copy
      expires first (it is closing) and is itself reclaimed. `LookupIsSound` can
      therefore not promise the latest insert. */
  lemma StaleBackendResurfaces()
    ensures LastPut(STALE_RUN, 8) == Some(Flow(4, 20, Closing))
    ensures Lookup(Play(4, TTLS, STALE_RUN), 8, Flows(TTLS, 40)) == Some(V4(3))
  {
    assert LastPut(STALE_RUN[..4], 8) == Some(Flow(4, 20, Closing));
    assert STALE_RUN[..0] == [] && STALE_RUN[..5] == STALE_RUN;
    for n := 0 to 5
      invariant Play(4, TTLS, STALE_RUN[..n]) == StaleTable(n)
    {
      StaleStep(n);
      assert STALE_RUN[..n + 1][..n] == STALE_RUN[..n];
    }
    StaleSlots(5);
    FindReaches(StaleTable(5), 8, 2, 0);
  }
}
