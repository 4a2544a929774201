/**
 Which backends the copies of one flow name. A reclaim can leave a flow stored twice, and
 a copy that names another backend than the latest insert is how a flow can change its
 backend; nothing here assumes that the table is in order.
 */
module BackendCopies {
  import opened Common
  import opened Entries
  import opened RobinHood
  import opened RobinHoodView
  import opened ConnTables
  import opened ConnRuns

  /** Every slot that holds `h` names the backend `ip`. */
  predicate Only(t: seq<Slot>, h: nat, ip: Ip) {
    forall i: nat | i < |t| && Holds(t, h, i) :: t[i].rec.ip == ip
  }

  /** The entry is a copy of `h` that names another backend. */
  function Stray(s: Slot, h: nat, ip: Ip): nat {
    if s.Full? && s.hash == h && s.rec.ip != ip then 1 else 0
  }

  /** The number of such copies. */
  function Strays(t: seq<Slot>, h: nat, ip: Ip): nat {
    if t == [] then 0 else Strays(t[..|t| - 1], h, ip) + Stray(t[|t| - 1], h, ip)
  }

  lemma {:induction false} OnlyIsNoStray(t: seq<Slot>, h: nat, ip: Ip)
    ensures Only(t, h, ip) <==> Strays(t, h, ip) == 0
  {
    if t != [] {
      var front := t[..|t| - 1];
      OnlyIsNoStray(front, h, ip);
      assert forall i: nat | i < |front| :: Holds(front, h, i) <==> Holds(t, h, i);
      assert Holds(t, h, |t| - 1) ==> t[|t| - 1].hash == h;
    }
  }

  lemma {:induction false} StraysUpdate(t: seq<Slot>, i: nat, s: Slot, h: nat, ip: Ip)
    requires i < |t|
    ensures Strays(t[i := s], h, ip) == Strays(t, h, ip) + Stray(s, h, ip) - Stray(t[i], h, ip)
  {
    var m := |t| - 1;
    if i < m {
      assert t[i := s][..m] == t[..m][i := s];
      StraysUpdate(t[..m], i, s, h, ip);
    } else {
      assert t[i := s][..m] == t[..m];
    }
  }

  lemma {:induction false} RunStrays(w: Walk, p: Policy, h: nat, ip: Ip)
    requires Ready(w)
    ensures var r := Run(w, p);
            Strays(r.table, h, ip) + Stray(r.cur, h, ip) == Strays(w.table, h, ip) + Stray(w.cur, h, ip)
    decreases |w.table| - w.k
  {
    if !Stops(w, p) {
      StraysUpdate(w.table, w.idx, w.cur, h, ip);
      RunStrays(Round(w), p, h, ip);
    }
  }

  /** Conservation, on any table and for every flow: the stray copies after an insert are
      those before it and the new entry, if it is one, less the entry lost, if that was. */
  lemma InsertStrays(t: seq<Slot>, x: nat, v: Record, p: Policy, h: nat, ip: Ip)
    requires 0 < |t|
    ensures var r := Insert(t, x, v, p);
            Strays(r.table, h, ip) == Strays(t, h, ip) + Stray(Full(x, v), h, ip) - Stray(r.lost, h, ip)
  {
    var w := Run(Start(t, x, v), p);
    RunStrays(Start(t, x, v), p, h, ip);
    if w.k < |t| {
      StraysUpdate(w.table, w.idx, Settle(w.table[w.idx], w.cur, p), h, ip);
    }
  }

  /** No insert but one for `h` itself brings in another backend for `h`. */
  lemma InsertKeepsOnly(t: seq<Slot>, x: nat, v: Record, p: Policy, h: nat, ip: Ip)
    requires 0 < |t| && Only(t, h, ip) && (x == h ==> v.ip == ip)
    ensures Only(Insert(t, x, v, p).table, h, ip)
  {
    OnlyIsNoStray(t, h, ip);
    InsertStrays(t, x, v, p, h, ip);
    OnlyIsNoStray(Insert(t, x, v, p).table, h, ip);
  }

  /** The insert takes away every copy that names another backend: there is none but the
      one it loses. */
  predicate Clears(t: seq<Slot>, h: nat, v: Record, p: Policy)
    requires 0 < |t|
  {
    Strays(t, h, v.ip) == Stray(Insert(t, h, v, p).lost, h, v.ip)
  }

  /** On any table, exactly when all copies name the new backend after an insert. */
  lemma InsertClearsExactly(t: seq<Slot>, h: nat, v: Record, p: Policy)
    requires 0 < |t|
    ensures Only(Insert(t, h, v, p).table, h, v.ip) <==> Clears(t, h, v, p)
  {
    InsertStrays(t, h, v, p, h, v.ip);
    OnlyIsNoStray(Insert(t, h, v, p).table, h, v.ip);
  }

  /** On a well-formed table an insert leaves such a copy exactly when it reclaims a slot
      while the flow is stored with another backend in another slot. */
  lemma InsertLeavesStrayExactly(t: seq<Slot>, h: nat, v: Record, p: Policy)
    requires 0 < |t| && WellFormed(t)
    ensures var r := Insert(t, h, v, p);
            !Clears(t, h, v, p) <==>
            r.result == EvictedExpired && exists i: nat :: Holds(t, h, i) && i != r.slot && t[i].rec.ip != v.ip
  {
    var r := Insert(t, h, v, p);
    InsertClearsExactly(t, h, v, p);
    if i: nat :| Holds(t, h, i) {
      InsertOfStored(t, h, v, p, i);
      assert r.result == EvictedExpired && i != r.slot ==> Holds(r.table, h, i);
    } else {
      InsertKeepsOnly(t, h, v, p, h, v.ip);
    }
  }

  /** A mark changes no backend. */
  lemma AmendKeepsOnly(t: seq<Slot>, x: nat, c: Change, now: int, h: nat, ip: Ip)
    requires 0 < |t|
    ensures Only(AmendStored(t, x, c, now), h, ip) <==> Only(t, h, ip)
  {
    var u := AmendStored(t, x, c, now);
    assert forall i: nat :: Holds(u, h, i) <==> Holds(t, h, i);
    assert forall i: nat | Holds(t, h, i) :: u[i].rec.ip == t[i].rec.ip;
  }

  /** Whatever the table, a lookup answers nothing else. */
  lemma LookupIsOnly(t: seq<Slot>, h: nat, ip: Ip, p: Policy)
    requires 0 < |t| && Only(t, h, ip)
    ensures Lookup(t, h, p) in {None, Some(ip)}
  {
  }

  lemma OnlyBothIsAbsent(t: seq<Slot>, h: nat)
    ensures Absent(t, h) <==> Only(t, h, V4(0)) && Only(t, h, V4(1))
  {
  }

  /** All copies of `h` name the same backend. */
  predicate Agree(t: seq<Slot>, h: nat) {
    forall i: nat, j: nat | i < |t| && j < |t| && Holds(t, h, i) && Holds(t, h, j) :: t[i].rec.ip == t[j].rec.ip
  }

  lemma AgreedBackend(t: seq<Slot>, h: nat) returns (ip: Ip)
    requires Agree(t, h)
    ensures Only(t, h, ip)
  {
    ip := V4(0);
    if i: nat :| Holds(t, h, i) {
      ip := t[i].rec.ip;
    }
  }

  lemma OnlyAgrees(t: seq<Slot>, h: nat, ip: Ip)
    requires Only(t, h, ip)
    ensures Agree(t, h)
  {
  }

  // ----- whole runs -----

  /** All copies of `h` name the backend of the latest insert for it. */
  predicate Latest(t: seq<Slot>, last: Option<Record>, h: nat) {
    if last.None? then Absent(t, h) else Only(t, h, last.value.ip)
  }

  /** If the operation is an insert for `h`, it leaves no copy with another backend. */
  predicate ClearStep(t: seq<Slot>, ttls: ConnTtls, op: Op, h: nat)
    requires 0 < |t|
  {
    op.Put? && op.hash == h ==> Clears(t, h, op.rec, Flows(ttls, op.rec.stamp))
  }

  /** No insert for `h` in the run leaves a copy with another backend. */
  predicate Clear(cap: nat, ttls: ConnTtls, ops: seq<Op>, h: nat)
    requires 0 < cap
  {
    ops != [] ==>
      var before := ops[..|ops| - 1];
      Clear(cap, ttls, before, h) && ClearStep(Play(cap, ttls, before), ttls, ops[|ops| - 1], h)
  }

  lemma StepKeepsOnly(t: seq<Slot>, ttls: ConnTtls, op: Op, h: nat, ip: Ip)
    requires 0 < |t| && Only(t, h, ip) && !(op.Put? && op.hash == h)
    ensures Only(Apply(t, ttls, op), h, ip)
  {
    match op
    case Put(x, rec) => InsertKeepsOnly(t, x, rec, Flows(ttls, rec.stamp), h, ip);
    case Mark(x, c, at) => AmendKeepsOnly(t, x, c, at, h, ip);
  }

  lemma StepLatestExactly(t: seq<Slot>, ttls: ConnTtls, op: Op, h: nat, last: Option<Record>)
    requires 0 < |t| && Latest(t, last, h)
    ensures var now := if op.Put? && op.hash == h then Some(op.rec) else last;
            Latest(Apply(t, ttls, op), now, h) <==> ClearStep(t, ttls, op, h)
  {
    if op.Put? && op.hash == h {
      InsertClearsExactly(t, h, op.rec, Flows(ttls, op.rec.stamp));
    } else if last.Some? {
      StepKeepsOnly(t, ttls, op, h, last.value.ip);
    } else {
      StepKeepsOnly(t, ttls, op, h, V4(0));
      StepKeepsOnly(t, ttls, op, h, V4(1));
      OnlyBothIsAbsent(Apply(t, ttls, op), h);
    }
  }

  /** At every moment of the run all copies of `h` have named its latest backend. */
  predicate AlwaysLatest(cap: nat, ttls: ConnTtls, ops: seq<Op>, h: nat)
    requires 0 < cap
  {
    forall k: nat | k <= |ops| :: Latest(Play(cap, ttls, ops[..k]), LastPut(ops[..k], h), h)
  }

  lemma AlwaysLatestByLast(cap: nat, ttls: ConnTtls, ops: seq<Op>, h: nat)
    requires 0 < cap && ops != []
    ensures AlwaysLatest(cap, ttls, ops, h) <==>
            AlwaysLatest(cap, ttls, ops[..|ops| - 1], h) && Latest(Play(cap, ttls, ops), LastPut(ops, h), h)
  {
    var before := ops[..|ops| - 1];
    assert ops[..|ops|] == ops;
    assert forall k: nat | k < |ops| :: before[..k] == ops[..k];
  }

  /** Over every run, reclaims of any kind and full tables included: at every moment all
      copies of a flow name its latest backend exactly when every insert for that flow left
      no copy with another one. */
  lemma {:induction false} AlwaysLatestExactly(cap: nat, ttls: ConnTtls, ops: seq<Op>, h: nat)
    requires 0 < cap
    ensures Clear(cap, ttls, ops, h) <==> AlwaysLatest(cap, ttls, ops, h)
  {
    if ops == [] {
      assert forall k: nat | k <= |ops| :: ops[..k] == ops;
    } else {
      var before := ops[..|ops| - 1];
      AlwaysLatestExactly(cap, ttls, before, h);
      AlwaysLatestByLast(cap, ttls, ops, h);
      assert before[..|before|] == before;
      if AlwaysLatest(cap, ttls, before, h) {
        StepLatestExactly(Play(cap, ttls, before), ttls, ops[|ops| - 1], h, LastPut(before, h));
      }
    }
  }

  lemma LatestAnswers(t: seq<Slot>, last: Option<Record>, h: nat, p: Policy)
    requires 0 < |t| && Latest(t, last, h)
    ensures Lookup(t, h, p).Some? ==> last.Some? && Lookup(t, h, p) == Some(last.value.ip)
  {
    assert Find(t, h).Some? ==> Holds(t, h, Find(t, h).value);
  }

  lemma ClearIsLatest(cap: nat, ttls: ConnTtls, ops: seq<Op>, h: nat)
    requires 0 < cap && Clear(cap, ttls, ops, h)
    ensures Latest(Play(cap, ttls, ops), LastPut(ops, h), h)
  {
    AlwaysLatestExactly(cap, ttls, ops, h);
    assert ops[..|ops|] == ops;
  }

  /** After such a run a lookup answers the backend of the latest insert, or nothing. */
  lemma ClearAnswersLatest(cap: nat, ttls: ConnTtls, ops: seq<Op>, h: nat, p: Policy)
    requires 0 < cap && Clear(cap, ttls, ops, h)
    ensures var answer := Lookup(Play(cap, ttls, ops), h, p);
            answer.Some? ==> LastPut(ops, h).Some? && answer == Some(LastPut(ops, h).value.ip)
  {
    ClearIsLatest(cap, ttls, ops, h);
    LatestAnswers(Play(cap, ttls, ops), LastPut(ops, h), h, p);
  }

  /** A run that keeps the table well formed is such a run for every flow. */
  lemma {:induction false} TidyIsClear(cap: nat, ttls: ConnTtls, ops: seq<Op>, h: nat)
    requires 0 < cap && Tidy(cap, ttls, ops)
    ensures Clear(cap, ttls, ops, h)
  {
    if ops != [] {
      var before, op := ops[..|ops| - 1], ops[|ops| - 1];
      TidyIsClear(cap, ttls, before, h);
      TidyWellFormed(cap, ttls, before);
      if op.Put? && op.hash == h {
        InsertLeavesStrayExactly(Play(cap, ttls, before), h, op.rec, Flows(ttls, op.rec.stamp));
      }
    }
  }
}
