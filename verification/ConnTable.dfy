/**
 The connection-tracking table: the array-based class and the value-level operations
 it implements.
 */
module ConnTables {
  import opened Arithmetic
  import opened Common
  import opened Entries
  import opened RobinHood
  import opened RobinHoodView

  /** What `get` answers: the backend, if the probe finds an entry that has not expired. */
  function Lookup(t: seq<Slot>, h: nat, p: Policy): Option<Ip>
    requires 0 < |t|
  {
    match Find(t, h)
    case None => None
    case Some(i) => if Expired(p, t[i].rec) then None else Some(t[i].rec.ip)
  }

  /** The change a cache hit or a TCP flag makes to a stored entry. */
  datatype Change = Refresh | Establish | Close

  function Amend(c: Change, r: Record, now: int): (s: Record)
    ensures s.ip == r.ip && s.proto == r.proto && s.stamp in {r.stamp, now}
    ensures StateRank(s.state) >= StateRank(r.state)
  {
    match c
    case Refresh => r.(stamp := now)
    case Establish => if r.proto == Tcp && r.state != Closing then r.(state := Established, stamp := now) else r
    case Close => if r.proto == Tcp then r.(state := Closing, stamp := now) else r
  }

  function AmendStored(t: seq<Slot>, h: nat, c: Change, now: int): (u: seq<Slot>)
    requires 0 < |t|
    ensures |u| == |t|
  {
    match Find(t, h)
    case None => t
    case Some(i) => t[i := Full(h, Amend(c, t[i].rec, now))]
  }

  /** The table with `f` applied to the record that a lookup would meet. */
  function UpdateStored(t: seq<Slot>, h: nat, f: Record -> Record): (u: seq<Slot>)
    requires 0 < |t|
    ensures |u| == |t|
  {
    match Find(t, h)
    case None => t
    case Some(i) => t[i := Full(h, f(t[i].rec))]
  }

  /** A walk from `w` ends in `spec`. */
  ghost predicate Comes(w: Walk, p: Policy, spec: Insertion) {
    Ready(w) && Finish(Run(w, p), p) == spec
  }

  lemma ComesToEnd(w: Walk, p: Policy, spec: Insertion)
    requires Comes(w, p, spec) && Stops(w, p)
    ensures spec == Finish(w, p)
  {
  }

  lemma ComesOn(w: Walk, p: Policy, spec: Insertion)
    requires Comes(w, p, spec) && !Stops(w, p)
    ensures Comes(Round(w), p, spec)
  {
  }

  ghost predicate PowerOfTwo(n: nat) {
    n == 1 || (0 < n && n % 2 == 0 && PowerOfTwo(n / 2))
  }

  /** Masking with the capacity less one: the home slot has the bits of the hash below the
      capacity, and no others. `p` is the weight of a bit. */
  lemma {:induction false} HomeIsMasked(h: nat, cap: nat, p: nat)
    requires PowerOfTwo(cap) && PowerOfTwo(p)
    ensures Home(h, cap) / p % 2 == if p < cap then h / p % 2 else 0
    decreases p
  {
    if p < cap {
      HalfOfRemainder(h, cap / 2);
      if p > 1 {
        HomeIsMasked(h / 2, cap / 2, p / 2);
        HalfTwice(h, p / 2);
        HalfTwice(Home(h, cap), p / 2);
      }
    } else {
      DivModUnique(Home(h, cap), p, 0, Home(h, cap));
    }
  }

  /** The first entry of an empty table stands in the slot its hash leaves as remainder. */
  lemma FirstInsertLands(cap: nat, h: nat, v: Record, p: Policy)
    requires 0 < cap
    ensures var t := seq(cap, _ => Empty);
            RobinHood.Insert(t, h, v, p) == Insertion(t[h % cap := Full(h, v)], Inserted, h % cap, Empty)
  {
    InsertLands(seq(cap, _ => Empty), h, v, 0, p);
  }

  class ConnTable {
    const entries: array<Slot>
    const ttls: ConnTtls
    var size: nat

    ghost predicate Valid()
      reads this, entries
    {
      0 < entries.Length && size == Occupied(entries[..])
    }

    ghost function Table(): seq<Slot>
      reads entries
    {
      entries[..]
    }

    constructor (capacity: nat, ttls: ConnTtls)
      requires PowerOfTwo(capacity)
      ensures Valid() && fresh(entries) && this.ttls == ttls
      ensures Table() == seq(capacity, _ => Empty)
    {
      this.ttls := ttls;
      entries := new Slot[capacity](_ => Empty);
      size := 0;
      new;
      assert entries[..] == seq(capacity, _ => Empty);
      NoneOccupied(entries[..]);
    }

    method Get(hash: nat, now: int) returns (r: Option<Ip>)
      requires Valid()
      ensures r == Lookup(Table(), hash, Flows(ttls, now))
    {
      var cap := entries.Length;
      var idx: nat := Home(hash, cap);
      for dist := 0 to cap
        invariant idx == Pos(Home(hash, cap), dist, cap)
        invariant Find(Table(), hash) == FindFrom(Table(), hash, dist)
      {
        var entry := entries[idx];
        if entry.Empty? {
          return None;
        }
        if Dist(entry.hash, idx, cap) < dist {
          return None;
        }
        if entry.hash == hash {
          return if Expired(Flows(ttls, now), entry.rec) then None else Some(entry.rec.ip);
        }
        idx := Step(idx, cap);
      }
      return None;
    }

    method Insert(hash: nat, ip: Ip, proto: FlowProto, state: TcpFlowState, now: int) returns (r: InsertResult)
      requires Valid()
      modifies this, entries
      ensures Valid()
      ensures var spec := RobinHood.Insert(old(Table()), hash, Record(ip, now, proto, state), Flows(ttls, now));
              Table() == spec.table && r == spec.result
    {
      var cap := entries.Length;
      var p := Flows(ttls, now);
      var idx: nat := Home(hash, cap);
      var cur := Full(hash, Record(ip, now, proto, state));
      var dist: nat := 0;
      ghost var spec := RobinHood.Insert(Table(), hash, cur.rec, p);
      InsertOccupied(Table(), hash, cur.rec, p);
      for k := 0 to cap
        invariant cur.Full? && idx < cap && size == old(size)
        invariant Comes(Walk(Table(), cur, k, idx, dist), p, spec)
      {
        ghost var w := Walk(Table(), cur, k, idx, dist);
        var entry := entries[idx];
        if Takes(entry, cur, p) {
          ComesToEnd(w, p, spec);
          r := Land(idx, cur, p);
          return;
        }
        ComesOn(w, p, spec);
        cur, dist := Carry(idx, cur, dist, k);
        idx := Step(idx, cap);
      }
      ComesToEnd(Walk(Table(), cur, cap, idx, dist), p, spec);
      return DroppedFull;
    }

    /** The three ways an insert ends in a slot: a free one, an expired one, its own. */
    method Land(idx: nat, cur: Slot, p: Policy) returns (r: InsertResult)
      requires idx < entries.Length && cur.Full? && p.Flows? && Takes(entries[idx], cur, p)
      modifies this, entries
      ensures var w := Walk(old(Table()), cur, 0, idx, 0);
              Table() == Finish(w, p).table && r == Finish(w, p).result
      ensures size == old(size) + (if r == Inserted then 1 else 0)
    {
      var entry := entries[idx];
      if entry.Empty? {
        Write(idx, cur);
        size := size + 1;
        return Inserted;
      }
      if Expired(p, entry.rec) {
        // The expired entry is replaced by another occupied one.
        Write(idx, cur);
        return EvictedExpired;
      }
      var newState := PromoteState(entry.rec.state, cur.rec.state);
      Write(idx, Full(entry.hash, Record(cur.rec.ip, cur.rec.stamp, cur.rec.proto, newState)));
      return Updated;
    }

    /** Past a slot that does not end the walk: an incumbent closer to its home than the
        entry in hand is swapped out and carried on. */
    method Carry(idx: nat, cur: Slot, dist: nat, ghost k: nat) returns (c: Slot, d: nat)
      requires cur.Full? && idx < entries.Length && k < entries.Length && entries[idx].Full?
      modifies entries
      ensures Walk(Table(), c, k + 1, Step(idx, entries.Length), d) == Round(Walk(old(Table()), cur, k, idx, dist))
    {
      var entry := entries[idx];
      var incumbent := Dist(entry.hash, idx, entries.Length);
      if incumbent < dist {
        Write(idx, cur);
        return entry, incumbent + 1;
      }
      return cur, dist + 1;
    }

    /** `entries[idx] = s`, seen as an update of the table's value. */
    method Write(idx: nat, s: Slot)
      requires idx < entries.Length
      modifies entries
      ensures Table() == old(Table())[idx := s]
    {
      entries[idx] := s;
    }

    method Touch(hash: nat, now: int)
      requires Valid()
      modifies entries
      ensures Valid() && Table() == AmendStored(old(Table()), hash, Refresh, now)
    {
      var cap := entries.Length;
      var idx: nat := Home(hash, cap);
      for dist := 0 to cap
        invariant idx == Pos(Home(hash, cap), dist, cap) && Table() == old(Table())
        invariant Find(Table(), hash) == FindFrom(Table(), hash, dist)
      {
        var entry := entries[idx];
        if entry.Empty? {
          return;
        }
        if Dist(entry.hash, idx, cap) < dist {
          return;
        }
        if entry.hash == hash {
          OccupiedUpdate(Table(), idx, Full(hash, entry.rec.(stamp := now)));
          Write(idx, Full(hash, entry.rec.(stamp := now)));
          return;
        }
        idx := Step(idx, cap);
      }
    }

    method MarkEstablished(hash: nat, now: int)
      requires Valid()
      modifies entries
      ensures Valid() && Table() == AmendStored(old(Table()), hash, Establish, now)
    {
      WithMatchingEntry(hash, (r: Record) =>
        if r.proto == Tcp && r.state != Closing then r.(state := Established, stamp := now) else r);
    }

    method MarkClosing(hash: nat, now: int)
      requires Valid()
      modifies entries
      ensures Valid() && Table() == AmendStored(old(Table()), hash, Close, now)
    {
      WithMatchingEntry(hash, (r: Record) => if r.proto == Tcp then r.(state := Closing, stamp := now) else r);
    }

    method WithMatchingEntry(hash: nat, f: Record -> Record)
      requires Valid()
      modifies entries
      ensures Valid() && Table() == UpdateStored(old(Table()), hash, f)
    {
      var cap := entries.Length;
      var idx: nat := Home(hash, cap);
      for dist := 0 to cap
        invariant idx == Pos(Home(hash, cap), dist, cap) && Table() == old(Table())
        invariant Find(Table(), hash) == FindFrom(Table(), hash, dist)
      {
        var entry := entries[idx];
        if entry.Empty? {
          return;
        }
        if Dist(entry.hash, idx, cap) < dist {
          return;
        }
        if entry.hash == hash {
          var amended := Full(hash, f(entry.rec));
          OccupiedUpdate(Table(), idx, amended);
          Write(idx, amended);
          return;
        }
        idx := Step(idx, cap);
      }
    }
  }

  lemma {:induction false} NoneOccupied(t: seq<Slot>)
    requires forall i: nat | i < |t| :: t[i].Empty?
    ensures Occupied(t) == 0
  {
    if t != [] {
      NoneOccupied(t[..|t| - 1]);
    }
  }
}
