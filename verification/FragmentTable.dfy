/**
 The table that pins the later fragments of a datagram to the backend of the first.
 It shares the probing of the connection table; an entry holds a backend and the time
 it was inserted, and a second insert of the same hash simply overwrites it.
 */
module FragmentTables {
  import opened Common
  import opened Entries
  import opened RobinHood
  import opened RobinHoodOrder
  import opened RobinHoodView
  import opened ConnTables

  function FragmentRecord(ip: Ip, now: int): Record {
    Record(ip, now, Other, NotTcp)
  }

  class FragmentTable {
    const entries: array<Slot>
    const ttl: nat

    ghost predicate Valid() {
      0 < entries.Length
    }

    ghost function Table(): seq<Slot>
      reads entries
    {
      entries[..]
    }

    constructor (capacity: nat, ttl: nat)
      requires PowerOfTwo(capacity)
      ensures Valid() && fresh(entries) && this.ttl == ttl
      ensures Table() == seq(capacity, _ => Empty)
    {
      this.ttl := ttl;
      entries := new Slot[capacity](_ => Empty);
      new;
      assert entries[..] == seq(capacity, _ => Empty);
    }

    method Get(hash: nat, now: int) returns (r: Option<Ip>)
      requires Valid()
      ensures r == Lookup(Table(), hash, Fragments(ttl, now))
    {
      var cap := entries.Length;
      var idx: nat := Home(hash, cap);
      for dist := 0 to cap
        invariant idx == Pos(Home(hash, cap), dist, cap)
        invariant Find(Table(), hash) == FindFrom(Table(), hash, dist)
      {
        var entry := entries[idx];
        if entry.Empty? {
          return None;
        }
        if Dist(entry.hash, idx, cap) < dist {
          return None;
        }
        if entry.hash == hash {
          return if now - entry.rec.stamp > ttl then None else Some(entry.rec.ip);
        }
        idx := Step(idx, cap);
      }
      return None;
    }

    method Insert(hash: nat, ip: Ip, now: int)
      requires Valid()
      modifies entries
      ensures Table() == RobinHood.Insert(old(Table()), hash, FragmentRecord(ip, now), Fragments(ttl, now)).table
    {
      var cap := entries.Length;
      var idx: nat := Home(hash, cap);
      var curHash, curRec := hash, FragmentRecord(ip, now);
      var dist: nat := 0;
      var p := Fragments(ttl, now);
      ghost var start := Start(Table(), hash, curRec);
      for k := 0 to cap
        invariant idx < cap
        invariant Run(Walk(Table(), Full(curHash, curRec), k, idx, dist), p) == Run(start, p)
      {
        ghost var w := Walk(Table(), Full(curHash, curRec), k, idx, dist);
        var entry := entries[idx];
        if entry.Empty? || now - entry.rec.stamp > ttl || entry.hash == curHash {
          assert Stops(w, p);
          entries[idx] := Full(curHash, curRec);
          assert Table() == w.table[idx := Settle(w.table[idx], w.cur, p)];
          return;
        }
        assert !Stops(w, p);
        var incumbent := Dist(entry.hash, idx, cap);
        if incumbent < dist {
          entries[idx] := Full(curHash, curRec);
          assert Table() == w.table[idx := w.cur];
          curHash, curRec := entry.hash, entry.rec;
          dist := incumbent;
        }
        idx := Step(idx, cap);
        dist := dist + 1;
        assert Walk(Table(), Full(curHash, curRec), k + 1, idx, dist) == Round(w);
      }
    }
  }

  // ----- whole runs -----

  datatype Put = Put(hash: nat, ip: Ip, now: int)

  function PutResult(t: seq<Slot>, ttl: nat, op: Put): Insertion
    requires 0 < |t|
  {
    RobinHood.Insert(t, op.hash, FragmentRecord(op.ip, op.now), Fragments(ttl, op.now))
  }

  function Play(cap: nat, ttl: nat, ops: seq<Put>): (t: seq<Slot>)
    requires 0 < cap
    ensures |t| == cap
  {
    if ops == [] then seq(cap, _ => Empty)
    else PutResult(Play(cap, ttl, ops[..|ops| - 1]), ttl, ops[|ops| - 1]).table
  }

  /** Read your write on any content: unless nothing gave way, the mapping just inserted
      is what a lookup in the same batch returns. */
  lemma ReadYourWrite(t: seq<Slot>, ttl: nat, op: Put)
    requires 0 < |t|
    ensures var r := PutResult(t, ttl, op);
            var p := Fragments(ttl, op.now);
            && (r.result != DroppedFull ==> Lookup(r.table, op.hash, p) == Some(op.ip))
            && (Lookup(r.table, op.hash, p) == Some(op.ip) <==> !Blocked(t, op.hash, p))
  {
    InsertThenFind(t, op.hash, FragmentRecord(op.ip, op.now), Fragments(ttl, op.now));
  }

  predicate Recorded(ops: seq<Put>, h: nat, r: Record) {
    exists a :: 0 <= a < |ops| && ops[a].hash == h && r == FragmentRecord(ops[a].ip, ops[a].now)
  }

  predicate AllRecorded(ops: seq<Put>, t: seq<Slot>) {
    forall i: nat | i < |t| && t[i].Full? :: Recorded(ops, t[i].hash, t[i].rec)
  }

  lemma {:induction false} RunRecorded(ops: seq<Put>, w: Walk, p: Policy)
    requires Ready(w) && AllRecorded(ops, w.table) && Recorded(ops, w.cur.hash, w.cur.rec)
    ensures var r := Run(w, p);
            AllRecorded(ops, r.table) && Recorded(ops, r.cur.hash, r.cur.rec)
    decreases |w.table| - w.k
  {
    if !Stops(w, p) {
      RunRecorded(ops, Round(w), p);
    }
  }

  lemma {:induction false} PlayRecorded(cap: nat, ttl: nat, ops: seq<Put>)
    requires 0 < cap
    ensures AllRecorded(ops, Play(cap, ttl, ops))
  {
    if ops != [] {
      var before, op := ops[..|ops| - 1], ops[|ops| - 1];
      var t := Play(cap, ttl, before);
      PlayRecorded(cap, ttl, before);
      forall i: nat | i < cap && t[i].Full?
        ensures Recorded(ops, t[i].hash, t[i].rec)
      {
        var a :| 0 <= a < |before| && before[a].hash == t[i].hash
                 && t[i].rec == FragmentRecord(before[a].ip, before[a].now);
        assert ops[a] == before[a];
      }
      RunRecorded(ops, Start(t, op.hash, FragmentRecord(op.ip, op.now)), Fragments(ttl, op.now));
    }
  }

  /** Soundness over all runs, reclaims included: a backend returned for a fragment was
      inserted for that very hash, at most `ttl` ago. */
  lemma LookupIsSound(cap: nat, ttl: nat, ops: seq<Put>, h: nat, now: int)
    requires 0 < cap && Lookup(Play(cap, ttl, ops), h, Fragments(ttl, now)).Some?
    ensures exists a :: 0 <= a < |ops| && ops[a].hash == h && now - ops[a].now <= ttl &&
                        Lookup(Play(cap, ttl, ops), h, Fragments(ttl, now)) == Some(ops[a].ip)
  {
    PlayRecorded(cap, ttl, ops);
    var t := Play(cap, ttl, ops);
    var r := t[Find(t, h).value].rec;
    var a :| 0 <= a < |ops| && ops[a].hash == h && r == FragmentRecord(ops[a].ip, ops[a].now);
  }

  // ----- runs that keep the table well formed -----

  /** No insert of the run reuses an expired slot. */
  predicate Quiet(cap: nat, ttl: nat, ops: seq<Put>)
    requires 0 < cap
  {
    ops != [] ==>
      var before := ops[..|ops| - 1];
      Quiet(cap, ttl, before) && PutResult(Play(cap, ttl, before), ttl, ops[|ops| - 1]).result != EvictedExpired
  }

  /** No insert of the run finds the table full. */
  predicate NoneLost(cap: nat, ttl: nat, ops: seq<Put>)
    requires 0 < cap
  {
    ops != [] ==>
      var before := ops[..|ops| - 1];
      NoneLost(cap, ttl, before) && PutResult(Play(cap, ttl, before), ttl, ops[|ops| - 1]).result != DroppedFull
  }

  /** The last insert of `h` in the run, if any. */
  function LastPut(ops: seq<Put>, h: nat): Option<Put> {
    if ops == [] then None
    else if ops[|ops| - 1].hash == h then Some(ops[|ops| - 1])
    else LastPut(ops[..|ops| - 1], h)
  }

  /** Every reclaim of the run keeps the table well formed. */
  predicate Tidy(cap: nat, ttl: nat, ops: seq<Put>)
    requires 0 < cap
  {
    ops != [] ==>
      var before := ops[..|ops| - 1];
      Tidy(cap, ttl, before) && TidyStep(Play(cap, ttl, before), ttl, ops[|ops| - 1])
  }

  predicate TidyStep(t: seq<Slot>, ttl: nat, op: Put)
    requires 0 < |t|
  {
    Tidies(t, op.hash, FragmentRecord(op.ip, op.now), Fragments(ttl, op.now))
  }

  lemma {:induction false} QuietIsTidy(cap: nat, ttl: nat, ops: seq<Put>)
    requires 0 < cap && Quiet(cap, ttl, ops)
    ensures Tidy(cap, ttl, ops)
  {
    if ops != [] {
      QuietIsTidy(cap, ttl, ops[..|ops| - 1]);
    }
  }

  /** Nothing but the insert's own mapping is new, and a mapping that is gone had expired,
      unless the table was full. */
  predicate KeepsLatest(before: map<nat, Record>, after: map<nat, Record>, ttl: nat, op: Put, full: bool, h: nat) {
    && (h in after ==>
          if op.hash == h then after[h] == FragmentRecord(op.ip, op.now) else h in before && after[h] == before[h])
    && (!full && op.hash == h ==> h in after)
    && (!full && h in before && op.now - before[h].stamp <= ttl ==> h in after)
  }

  lemma StepLatest(t: seq<Slot>, ttl: nat, op: Put, h: nat)
    requires 0 < |t| && WellFormed(t) && TidyStep(t, ttl, op)
    ensures var r := PutResult(t, ttl, op);
            WellFormed(r.table) && KeepsLatest(View(t), View(r.table), ttl, op, r.result == DroppedFull, h)
  {
    var rec, p := FragmentRecord(op.ip, op.now), Fragments(ttl, op.now);
    var r := PutResult(t, ttl, op);
    if r.result == EvictedExpired {
      ReclaimRefinesMap(t, op.hash, rec, p);
    } else {
      InsertRefinesMap(t, op.hash, rec, p);
      if r.result == DroppedFull && h in View(r.table) {
        assert h in View(r.table)[r.lost.hash := r.lost.rec];
        assert View(t)[op.hash := rec][h] == View(r.table)[h];
      }
    }
  }

  /** The inserts of the run lie before `now`. */
  predicate Past(ops: seq<Put>, now: int) {
    forall op | op in ops :: op.now <= now
  }

  /** Over every run whose reclaims keep the table well formed, a mapping that is stored is
      the latest one inserted for its hash, and the latest one is stored as long as it is
      within its time to live, unless the table was full once. */
  lemma {:induction false} TidyPinsLatest(cap: nat, ttl: nat, ops: seq<Put>, h: nat, now: int)
    requires 0 < cap && Tidy(cap, ttl, ops)
    ensures WellFormed(Play(cap, ttl, ops))
    ensures var v, last := View(Play(cap, ttl, ops)), LastPut(ops, h);
            && (h in v ==> last.Some? && v[h] == FragmentRecord(last.value.ip, last.value.now))
            && (NoneLost(cap, ttl, ops) && Past(ops, now) && last.Some? && now - last.value.now <= ttl ==> h in v)
  {
    if ops == [] {
      EmptyIsWellFormed(cap);
    } else {
      var before, op := ops[..|ops| - 1], ops[|ops| - 1];
      assert ops == before + [op];
      TidyPinsLatest(cap, ttl, before, h, now);
      StepLatest(Play(cap, ttl, before), ttl, op, h);
    }
  }

  /** Without a reclaim a mapping stays, expired or not, unless the table was full once. */
  lemma {:induction false} QuietKeepsAll(cap: nat, ttl: nat, ops: seq<Put>, h: nat)
    requires 0 < cap && Quiet(cap, ttl, ops)
    ensures WellFormed(Play(cap, ttl, ops))
    ensures NoneLost(cap, ttl, ops) && LastPut(ops, h).Some? ==> h in View(Play(cap, ttl, ops))
  {
    if ops == [] {
      EmptyIsWellFormed(cap);
    } else {
      var before, op := ops[..|ops| - 1], ops[|ops| - 1];
      QuietKeepsAll(cap, ttl, before, h);
      InsertRefinesMap(Play(cap, ttl, before), op.hash, FragmentRecord(op.ip, op.now), Fragments(ttl, op.now));
    }
  }

  /** Over a run without reclaims a mapping that is still stored is the latest one inserted
      for its hash, and every mapping is stored unless the table was full once. */
  lemma QuietPinsLatest(cap: nat, ttl: nat, ops: seq<Put>, h: nat)
    requires 0 < cap && Quiet(cap, ttl, ops)
    ensures WellFormed(Play(cap, ttl, ops))
    ensures var v, last := View(Play(cap, ttl, ops)), LastPut(ops, h);
            && (h in v ==> last.Some? && v[h] == FragmentRecord(last.value.ip, last.value.now))
            && (NoneLost(cap, ttl, ops) && last.Some? ==> h in v)
  {
    QuietIsTidy(cap, ttl, ops);
    TidyPinsLatest(cap, ttl, ops, h, 0);
    QuietKeepsAll(cap, ttl, ops, h);
  }

  /** The shared walk gives fragment tables the same exact account of a reclaim: the
      order breaks only right behind the slot reused, and exactly when the entry there
      is more than one place further from home than the entry that moved in; that entry
      then cannot be found where it is. */
  lemma FragmentReclaim(t: seq<Slot>, ttl: nat, op: Put)
    requires 0 < |t| && Ordered(t)
    ensures var r := PutResult(t, ttl, op);
            var q := Step(r.slot, |t|);
            var broken := r.result == EvictedExpired && Rank(r.table, r.slot) + 1 < Rank(t, q);
            && (Ordered(r.table) <==> !broken)
            && (broken ==> r.table[q] == t[q] && t[q].Full? && Find(r.table, t[q].hash) != Some(q))
  {
    var rec, p := FragmentRecord(op.ip, op.now), Fragments(ttl, op.now);
    var r := PutResult(t, ttl, op);
    InsertKeepsOrderExactly(t, op.hash, rec, p);
    if r.result == EvictedExpired && Rank(r.table, r.slot) + 1 < Rank(t, Step(r.slot, |t|)) {
      BrokenOrderHidesNext(t, op.hash, rec, p);
    }
  }
}
