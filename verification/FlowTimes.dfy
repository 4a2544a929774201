/**
 How long a flow is answered for. Over the life of a flow, from its first insert on, with any
 other traffic, the time-out that counts is read off what was done to that flow: the insert
 with its protocol and TCP state, and the marks since.
 */
module FlowTimes {
  import opened Common
  import opened Entries
  import opened RobinHood
  import opened RobinHoodView
  import opened ConnTables
  import opened ConnRuns

  /** The table after more operations. */
  function Onward(t: seq<Slot>, ttls: ConnTtls, ops: seq<Op>): (u: seq<Slot>)
    requires 0 < |t|
    ensures |u| == |t|
  {
    if ops == [] then t else Apply(Onward(t, ttls, ops[..|ops| - 1]), ttls, ops[|ops| - 1])
  }

  /** A run that starts with the first insert for `h` and in which `h` stays stored, in a table
      that stays well formed; entries of other flows may be displaced, reclaimed and lost. */
  predicate Lives(t: seq<Slot>, ttls: ConnTtls, ops: seq<Op>, h: nat)
    requires 0 < |t|
  {
    if ops == [] then WellFormed(t) && Absent(t, h)
    else
      var before, op := ops[..|ops| - 1], ops[|ops| - 1];
      Lives(t, ttls, before, h) && LivesOn(Onward(t, ttls, before), ttls, op, h)
  }

  /** The operation leaves `h` stored, and if it is an insert for `h` finding it, in its slot. */
  predicate LivesOn(u: seq<Slot>, ttls: ConnTtls, op: Op, h: nat)
    requires 0 < |u|
  {
    && TidyStep(u, ttls, op) && !Absent(Apply(u, ttls, op), h)
    && (op.Put? && op.hash == h && !Absent(u, h) ==> PutResult(u, ttls, op).result != EvictedExpired)
  }

  /** The record of `h`, when the table is in order. */
  predicate Records(t: seq<Slot>, h: nat, r: Record) {
    0 < |t| && WellFormed(t) && h in View(t) && View(t)[h] == r
  }

  // ----- what one operation does to the record of one flow -----

  lemma PutOther(t: seq<Slot>, ttls: ConnTtls, op: Op, h: nat, r: Record)
    requires 0 < |t| && WellFormed(t) && op.Put? && op.hash != h && TidyStep(t, ttls, op)
    requires Records(PutResult(t, ttls, op).table, h, r)
    ensures Records(t, h, r)
  {
    var u := PutResult(t, ttls, op);
    var p := Flows(ttls, op.rec.stamp);
    if u.result == EvictedExpired {
      ReclaimRefinesMap(t, op.hash, op.rec, p);
    } else {
      InsertRefinesMap(t, op.hash, op.rec, p);
      if u.result == DroppedFull {
        assert h in View(u.table)[u.lost.hash := u.lost.rec];
        assert View(t)[op.hash := op.rec][h] == r;
      }
    }
  }

  lemma PutFirst(t: seq<Slot>, ttls: ConnTtls, op: Op, h: nat)
    requires 0 < |t| && WellFormed(t) && op.Put? && op.hash == h && TidyStep(t, ttls, op)
    requires Absent(t, h) && !Absent(PutResult(t, ttls, op).table, h)
    ensures Records(PutResult(t, ttls, op).table, h, op.rec)
  {
    var u := PutResult(t, ttls, op);
    InsertKeepsWellFormedExactly(t, h, op.rec, Flows(ttls, op.rec.stamp));
    InsertConserves(t, h, op.rec, Flows(ttls, op.rec.stamp));
    assert With(View(u.table), u.lost)[h] == op.rec;
  }

  lemma PutAgain(t: seq<Slot>, ttls: ConnTtls, op: Op, h: nat, r: Record)
    requires Records(t, h, r) && op.Put? && op.hash == h && PutResult(t, ttls, op).result != EvictedExpired
    ensures Records(PutResult(t, ttls, op).table, h, Merge(Flows(ttls, op.rec.stamp), r, op.rec))
  {
    InsertRefinesMap(t, h, op.rec, Flows(ttls, op.rec.stamp));
  }

  lemma MarkRecord(t: seq<Slot>, op: Op, h: nat, r: Record)
    requires Records(t, h, r) && op.Mark?
    ensures Records(AmendStored(t, op.hash, op.change, op.at), h,
                    if op.hash == h then Amend(op.change, r, op.at) else r)
  {
    AmendRefinesMap(t, op.hash, op.change, op.at);
  }

  // ----- reading the life of a flow -----

  predicate Closes(op: Op, h: nat) {
    op.hash == h && if op.Put? then op.rec.state == Closing else op.change == Close
  }

  predicate Opens(op: Op, h: nat) {
    op.hash == h && if op.Put? then op.rec.state == Established || op.rec.state == NotTcp else op.change == Establish
  }

  /** A FIN or RST has been seen. */
  predicate Closed(ops: seq<Op>, h: nat) {
    exists j | 0 <= j < |ops| :: Closes(ops[j], h)
  }

  /** The handshake is over. */
  predicate Opened(ops: seq<Op>, h: nat) {
    exists j | 0 <= j < |ops| :: Opens(ops[j], h)
  }

  /** Every insert for `h` has this protocol. */
  predicate AllOf(ops: seq<Op>, h: nat, proto: FlowProto) {
    forall j | 0 <= j < |ops| && ops[j].Put? && ops[j].hash == h :: ops[j].rec.proto == proto
  }

  /** When the flow was last seen: by an insert or a refresh, and if it is TCP by the first and
      every later close, and by an establishing packet unless it is closing. */
  function Seen(ops: seq<Op>, h: nat, tcp: bool): int {
    if ops == [] then 0
    else
      var before, op := ops[..|ops| - 1], ops[|ops| - 1];
      if op.hash != h then Seen(before, h, tcp)
      else if op.Put? then op.rec.stamp
      else if op.change == Refresh then op.at
      else if tcp && (op.change == Close || !Closed(before, h)) then op.at
      else Seen(before, h, tcp)
  }

  /** What the record of a flow says about its life. */
  predicate Tells(r: Record, ops: seq<Op>, h: nat, proto: FlowProto) {
    && r.proto == proto && r.stamp == Seen(ops, h, proto == Tcp)
    && (proto == Tcp ==> (r.state == Closing <==> Closed(ops, h)))
    && (proto == Tcp ==> (r.state == Handshake <==> !Closed(ops, h) && !Opened(ops, h)))
  }

  lemma ByLast(ops: seq<Op>, h: nat)
    requires ops != []
    ensures var before, op := ops[..|ops| - 1], ops[|ops| - 1];
            && (Closed(ops, h) <==> Closed(before, h) || Closes(op, h))
            && (Opened(ops, h) <==> Opened(before, h) || Opens(op, h))
  {
    var before, op := ops[..|ops| - 1], ops[|ops| - 1];
    if j :| 0 <= j < |before| && Closes(before[j], h) {
      assert Closes(ops[j], h);
    }
    if j :| 0 <= j < |before| && Opens(before[j], h) {
      assert Opens(ops[j], h);
    }
  }

  lemma TellsOn(r: Record, ttls: ConnTtls, ops: seq<Op>, h: nat, proto: FlowProto)
    requires ops != [] && AllOf(ops, h, proto) && Tells(r, ops[..|ops| - 1], h, proto)
    ensures Tells(NextOf(r, ttls, ops[|ops| - 1], h), ops, h, proto)
  {
    ByLast(ops, h);
  }

  lemma TellsFirst(ops: seq<Op>, h: nat, proto: FlowProto)
    requires |ops| == 1 && AllOf(ops, h, proto) && ops[0].Put? && ops[0].hash == h
    ensures Tells(ops[0].rec, ops, h, proto)
  {
    ByLast(ops, h);
  }

  function NextOf(r: Record, ttls: ConnTtls, op: Op, h: nat): Record {
    if op.hash != h then r
    else if op.Put? then Merge(Flows(ttls, op.rec.stamp), r, op.rec) else Amend(op.change, r, op.at)
  }

  /** The record that one more operation leaves, when the flow lives on. */
  lemma NextRecord(u: seq<Slot>, ttls: ConnTtls, op: Op, h: nat, r: Record)
    requires Records(u, h, r) && LivesOn(u, ttls, op, h)
    ensures Records(Apply(u, ttls, op), h, NextOf(r, ttls, op, h))
  {
    if op.Mark? {
      MarkRecord(u, op, h, r);
    } else if op.hash == h {
      PutAgain(u, ttls, op, h, r);
    } else {
      StepWellFormedExactly(u, ttls, op);
      PutOther(u, ttls, op, h, View(Apply(u, ttls, op))[h]);
    }
  }

  lemma FirstIsInsert(t: seq<Slot>, ttls: ConnTtls, op: Op, h: nat)
    requires 0 < |t| && WellFormed(t) && Absent(t, h) && LivesOn(t, ttls, op, h)
    ensures op.Put? && op.hash == h && Records(Apply(t, ttls, op), h, op.rec)
  {
    StepWellFormedExactly(t, ttls, op);
    if op.Mark? {
      AmendRefinesMap(t, op.hash, op.change, op.at);
    } else if op.hash != h {
      PutOther(t, ttls, op, h, View(Apply(t, ttls, op))[h]);
    } else {
      PutFirst(t, ttls, op, h);
    }
  }

  lemma {:induction false} LifeIsTold(t: seq<Slot>, ttls: ConnTtls, ops: seq<Op>, h: nat, proto: FlowProto)
    returns (r: Record)
    requires 0 < |t| && Lives(t, ttls, ops, h) && ops != [] && AllOf(ops, h, proto)
    ensures Records(Onward(t, ttls, ops), h, r) && Tells(r, ops, h, proto)
  {
    var before, op := ops[..|ops| - 1], ops[|ops| - 1];
    var u := Onward(t, ttls, before);
    if before == [] {
      FirstIsInsert(t, ttls, op, h);
      r := op.rec;
      TellsFirst(ops, h, proto);
    } else {
      var was := LifeIsTold(t, ttls, before, h, proto);
      NextRecord(u, ttls, op, h, was);
      TellsOn(was, ttls, ops, h, proto);
      r := NextOf(was, ttls, op, h);
    }
  }

  lemma AnswersWhileLive(t: seq<Slot>, h: nat, r: Record, p: Policy)
    requires Records(t, h, r)
    ensures Lookup(t, h, p) == if Expired(p, r) then None else Some(r.ip)
  {
    FindIsView(t, h);
  }

  /** The time-out that counts: for TCP the closing one once a FIN or RST has been seen, else
      the established one once the handshake is over, and else the handshake one. */
  function TimeOut(ttls: ConnTtls, ops: seq<Op>, h: nat, proto: FlowProto): nat {
    match proto
    case Udp => ttls.udp
    case Other => ttls.other
    case Tcp => if Closed(ops, h) then ttls.closing else if Opened(ops, h) then ttls.established else ttls.handshake
  }

  /** Over the life of a flow a lookup answers exactly while the flow was last seen within that
      time-out, whatever other flows do. */
  lemma AnswersExactly(t: seq<Slot>, ttls: ConnTtls, ops: seq<Op>, h: nat, proto: FlowProto, now: int)
    requires 0 < |t| && Lives(t, ttls, ops, h) && ops != [] && AllOf(ops, h, proto)
    ensures Lookup(Onward(t, ttls, ops), h, Flows(ttls, now)).Some? <==>
            now - Seen(ops, h, proto == Tcp) <= TimeOut(ttls, ops, h, proto)
  {
    var r := LifeIsTold(t, ttls, ops, h, proto);
    AnswersWhileLive(Onward(t, ttls, ops), h, r, Flows(ttls, now));
  }
}
