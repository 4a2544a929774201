/**
 The open-addressed Robin Hood table that the connection table and the fragment
 table share: one array of slots, linear probing from a home slot, displacement of
 entries that sit closer to home, early exit on lookup, and reuse in place of slots
 whose entry has expired.

 Everything here is stated on the value of the slot array. `expired` and `merge` are
 parameters: each table supplies its own notion of expiry and its own rule for a
 second insert of the same hash.
 */
module RobinHood {
  import opened Common
  import opened Entries

  datatype Slot = Empty | Full(hash: nat, rec: Record)

  datatype InsertResult = Inserted | Updated | EvictedExpired | DroppedFull

  /** What one insert leaves behind. `slot` is where the walk ended and `lost` the
      entry that is no longer stored as it was: the expired one after
      `EvictedExpired`, the one merged into after `Updated`, the one left in hand after
      `DroppedFull`, none after `Inserted`. */
  datatype Insertion = Insertion(table: seq<Slot>, result: InsertResult, slot: nat, lost: Slot)

  // ----- positions on the ring -----

  function Home(h: nat, cap: nat): (r: nat)
    requires 0 < cap
    ensures r < cap
  {
    h % cap
  }

  function Step(i: nat, cap: nat): (r: nat)
    requires i < cap
    ensures r < cap
  {
    if i + 1 == cap then 0 else i + 1
  }

  function Prev(i: nat, cap: nat): (r: nat)
    requires i < cap
    ensures r < cap && Step(r, cap) == i
  {
    if i == 0 then cap - 1 else i - 1
  }

  /** The slot `k` places after `base`. */
  function Pos(base: nat, k: nat, cap: nat): (r: nat)
    requires base < cap && k <= cap
    ensures r < cap
  {
    if base + k < cap then base + k else base + k - cap
  }

  /** How far `i` is from the home slot of `h`. */
  function Dist(h: nat, i: nat, cap: nat): (r: nat)
    requires i < cap
    ensures r < cap && Pos(Home(h, cap), r, cap) == i
  {
    var home := Home(h, cap);
    if home <= i then i - home else i + cap - home
  }

  /** Distance from home of the entry in slot `i`, or -1 when the slot is empty. */
  function Rank(t: seq<Slot>, i: nat): (r: int)
    requires i < |t|
    ensures -1 <= r < |t|
  {
    if t[i].Empty? then -1 else Dist(t[i].hash, i, |t|)
  }

  // ----- the probe-order invariant -----

  predicate OrderedAt(t: seq<Slot>, i: nat)
    requires i < |t|
  {
    Rank(t, Step(i, |t|)) <= Rank(t, i) + 1
  }

  /** From a slot to the next the probe distance rises by at most one. */
  predicate Ordered(t: seq<Slot>) {
    forall i: nat | i < |t| :: OrderedAt(t, i)
  }

  predicate Holds(t: seq<Slot>, h: nat, i: nat) {
    i < |t| && t[i].Full? && t[i].hash == h
  }

  predicate Absent(t: seq<Slot>, h: nat) {
    forall i: nat | i < |t| :: !Holds(t, h, i)
  }

  predicate Distinct(t: seq<Slot>) {
    forall i: nat, j: nat | i < j < |t| && t[i].Full? && t[j].Full? :: t[i].hash != t[j].hash
  }

  predicate WellFormed(t: seq<Slot>) {
    Ordered(t) && Distinct(t)
  }

  // ----- lookup -----

  /** The early-exit probe for `h` from distance `k` on. */
  function FindFrom(t: seq<Slot>, h: nat, k: nat): (r: Option<nat>)
    requires 0 < |t| && k <= |t|
    ensures r.Some? ==> Holds(t, h, r.value)
    decreases |t| - k
  {
    if k == |t| then None
    else
      var i := Pos(Home(h, |t|), k, |t|);
      if t[i].Empty? || Dist(t[i].hash, i, |t|) < k then None
      else if t[i].hash == h then Some(i)
      else FindFrom(t, h, k + 1)
  }

  function Find(t: seq<Slot>, h: nat): (r: Option<nat>)
    requires 0 < |t|
    ensures r.Some? ==> Holds(t, h, r.value)
  {
    FindFrom(t, h, 0)
  }

  /** On an ordered table every slot on the way from home to an entry is at least as
      far from its own home as the probe is. */
  lemma {:induction false} PathRank(t: seq<Slot>, h: nat, i: nat, k: nat)
    requires i < |t| && Ordered(t) && k <= Dist(h, i, |t|) <= Rank(t, i)
    ensures k <= Rank(t, Pos(Home(h, |t|), k, |t|))
    decreases Dist(h, i, |t|) - k
  {
    if k < Dist(h, i, |t|) {
      var p := Pos(Home(h, |t|), k, |t|);
      assert Step(p, |t|) == Pos(Home(h, |t|), k + 1, |t|);
      PathRank(t, h, i, k + 1);
      assert OrderedAt(t, p);
    }
  }

  /** A probe that meets neither an early exit nor an earlier copy finds the entry. */
  lemma {:induction false} FindReaches(t: seq<Slot>, h: nat, i: nat, k: nat)
    requires Holds(t, h, i) && k <= Dist(h, i, |t|)
    requires forall j: nat | k <= j < Dist(h, i, |t|) ::
               j <= Rank(t, Pos(Home(h, |t|), j, |t|)) && !Holds(t, h, Pos(Home(h, |t|), j, |t|))
    ensures FindFrom(t, h, k) == Some(i)
    decreases Dist(h, i, |t|) - k
  {
    if k < Dist(h, i, |t|) {
      var p := Pos(Home(h, |t|), k, |t|);
      assert k <= Rank(t, p) && !Holds(t, h, p);
      FindReaches(t, h, i, k + 1);
    }
  }

  /** A slot on the path that sits closer to its home than the probe stops the probe. */
  lemma {:induction false} FindStops(t: seq<Slot>, h: nat, i: nat, k: nat)
    requires 0 < |t| && i < |t| && k <= Dist(h, i, |t|) && Rank(t, i) < Dist(h, i, |t|)
    ensures var r := FindFrom(t, h, k);
            r.Some? ==> Dist(h, r.value, |t|) < Dist(h, i, |t|)
    decreases |t| - k
  {
    var p := Pos(Home(h, |t|), k, |t|);
    assert Dist(h, p, |t|) == k;
    if k < Dist(h, i, |t|) && !t[p].Empty? && Dist(t[p].hash, p, |t|) >= k && t[p].hash != h {
      FindStops(t, h, i, k + 1);
    }
  }

  /** The early exit loses nothing: on a well-formed table the probe answers exactly
      as a scan of every slot would. */
  lemma FindIsFullScan(t: seq<Slot>, h: nat)
    requires 0 < |t| && WellFormed(t)
    ensures forall i: nat :: Find(t, h) == Some(i) <==> Holds(t, h, i)
    ensures Find(t, h).None? <==> Absent(t, h)
  {
    forall i: nat | Holds(t, h, i)
      ensures Find(t, h) == Some(i)
    {
      forall j: nat | j < Dist(h, i, |t|)
        ensures j <= Rank(t, Pos(Home(h, |t|), j, |t|)) && !Holds(t, h, Pos(Home(h, |t|), j, |t|))
      {
        PathRank(t, h, i, j);
        assert Pos(Home(h, |t|), j, |t|) != i;
      }
      FindReaches(t, h, i, 0);
    }
  }

  // ----- insert -----

  /** A walk in progress: the table, the entry in hand with its distance from home, and
      the slot to examine next after `k` others. */
  datatype Walk = Walk(table: seq<Slot>, cur: Slot, k: nat, idx: nat, dist: nat)

  predicate Ready(w: Walk) {
    w.cur.Full? && w.idx < |w.table| && w.k <= |w.table|
  }

  /** The walk ends at slot `s`: it is free, its entry has expired, or it is ours. */
  predicate Takes(s: Slot, cur: Slot, p: Policy)
    requires cur.Full?
  {
    s.Empty? || Expired(p, s.rec) || s.hash == cur.hash
  }

  predicate Stops(w: Walk, p: Policy)
    requires Ready(w)
  {
    w.k == |w.table| || Takes(w.table[w.idx], w.cur, p)
  }

  /** One slot further; an incumbent closer to its home than the entry in hand is
      swapped out and carried on. */
  function Round(w: Walk): (r: Walk)
    requires Ready(w) && w.k < |w.table| && w.table[w.idx].Full?
    ensures Ready(r) && |r.table| == |w.table| && r.k == w.k + 1 && r.idx == Step(w.idx, |w.table|)
  {
    var incumbent := Dist(w.table[w.idx].hash, w.idx, |w.table|);
    if incumbent < w.dist
    then Walk(w.table[w.idx := w.cur], w.table[w.idx], w.k + 1, Step(w.idx, |w.table|), incumbent + 1)
    else w.(k := w.k + 1, idx := Step(w.idx, |w.table|), dist := w.dist + 1)
  }

  function Run(w: Walk, p: Policy): (r: Walk)
    requires Ready(w)
    ensures Ready(r) && Stops(r, p) && |r.table| == |w.table| && w.k <= r.k
    decreases |w.table| - w.k
  {
    if Stops(w, p) then w else Run(Round(w), p)
  }

  /** What is written where the walk ends. Expiry is tested before the hash is. */
  function Settle(s: Slot, cur: Slot, p: Policy): (r: Slot)
    requires cur.Full?
    ensures r.Full? && r.hash == cur.hash
  {
    if s.Empty? || Expired(p, s.rec) then cur else Full(cur.hash, Merge(p, s.rec, cur.rec))
  }

  function Finish(w: Walk, p: Policy): (r: Insertion)
    requires Ready(w) && Stops(w, p)
    ensures |r.table| == |w.table| && r.slot < |w.table|
  {
    var s := w.table[w.idx];
    if w.k == |w.table| then Insertion(w.table, DroppedFull, w.idx, w.cur)
    else
      Insertion(w.table[w.idx := Settle(s, w.cur, p)],
                if s.Empty? then Inserted else if Expired(p, s.rec) then EvictedExpired else Updated,
                w.idx, s)
  }

  function Start(t: seq<Slot>, h: nat, v: Record): (r: Walk)
    requires 0 < |t|
    ensures Ready(r)
  {
    Walk(t, Full(h, v), 0, Home(h, |t|), 0)
  }

  function Insert(t: seq<Slot>, h: nat, v: Record, p: Policy): (r: Insertion)
    requires 0 < |t|
    ensures |r.table| == |t| && r.slot < |t|
  {
    Finish(Run(Start(t, h, v), p), p)
  }

  /** The slots a walk from `w` does not visit keep their content; those it passes were
      occupied. */
  lemma {:induction false} RunTouches(w: Walk, p: Policy, base: nat, j: nat)
    requires Ready(w) && base < |w.table| && j < |w.table| && w.idx == Pos(base, w.k, |w.table|)
    ensures var r := Run(w, p);
            var i := Pos(base, j, |w.table|);
            && r.idx == Pos(base, r.k, |w.table|)
            && (j < w.k || r.k <= j ==> r.table[i] == w.table[i])
            && (w.k <= j < r.k ==> w.table[i].Full?)
    decreases |w.table| - w.k
  {
    if !Stops(w, p) {
      assert Step(w.idx, |w.table|) == Pos(base, w.k + 1, |w.table|);
      RunTouches(Round(w), p, base, j);
    }
  }

  // ----- read your write -----

  /** The slot `j` places from the home of `h` does not take the entry for `h`: it is
      live, belongs to another hash, and is at least as far from its own home. */
  predicate BlocksAt(t: seq<Slot>, h: nat, j: nat, p: Policy)
    requires j < |t|
  {
    var i := Pos(Home(h, |t|), j, |t|);
    t[i].Full? && !Expired(p, t[i].rec) && t[i].hash != h && j <= Dist(t[i].hash, i, |t|)
  }

  predicate Blocked(t: seq<Slot>, h: nat, p: Policy) {
    forall j: nat | j < |t| :: BlocksAt(t, h, j, p)
  }

  /** The walk for a new entry that has changed nothing yet. */
  function Passed(t: seq<Slot>, h: nat, v: Record, j: nat): (r: Walk)
    requires 0 < |t| && j <= |t|
    ensures Ready(r)
  {
    Walk(t, Full(h, v), j, Pos(Home(h, |t|), j, |t|), j)
  }

  lemma RoundSkips(t: seq<Slot>, h: nat, v: Record, k: nat, p: Policy)
    requires k < |t| && BlocksAt(t, h, k, p)
    ensures !Stops(Passed(t, h, v, k), p) && Round(Passed(t, h, v, k)) == Passed(t, h, v, k + 1)
  {
  }

  /** Blocking slots are walked over without a change. */
  lemma {:induction false} RunSkips(t: seq<Slot>, h: nat, v: Record, k: nat, j: nat, p: Policy)
    requires 0 < |t| && k <= j <= |t|
    requires forall i: nat | k <= i < j :: BlocksAt(t, h, i, p)
    ensures Run(Passed(t, h, v, k), p) == Run(Passed(t, h, v, j), p)
    decreases j - k
  {
    if k < j {
      RoundSkips(t, h, v, k, p);
      RunSkips(t, h, v, k + 1, j, p);
    }
  }

  /** An insert that meets blocking slots only, and then one that takes the entry. */
  lemma InsertLands(t: seq<Slot>, h: nat, v: Record, j: nat, p: Policy)
    requires j < |t| && Takes(t[Pos(Home(h, |t|), j, |t|)], Full(h, v), p)
    requires forall i: nat | i < j :: BlocksAt(t, h, i, p)
    ensures Insert(t, h, v, p) == Finish(Passed(t, h, v, j), p)
  {
    assert Start(t, h, v) == Passed(t, h, v, 0);
    RunSkips(t, h, v, 0, j, p);
    assert Stops(Passed(t, h, v, j), p);
  }

  /** The first slot that does not block takes the new entry. */
  lemma RunPlaces(t: seq<Slot>, h: nat, v: Record, j: nat, p: Policy)
    requires j < |t| && !BlocksAt(t, h, j, p)
    ensures var r := Finish(Run(Passed(t, h, v, j), p), p);
            var i := Pos(Home(h, |t|), j, |t|);
            r.table[i] in {Full(h, v), Settle(t[i], Full(h, v), p)}
  {
    var w := Passed(t, h, v, j);
    if !Stops(w, p) {
      assert Step(w.idx, |t|) == Pos(Home(h, |t|), j + 1, |t|);
      RunTouches(Round(w), p, Home(h, |t|), j);
      RunIdx(Round(w), p, Home(h, |t|), j);
    }
  }

  /** The walk never comes back to a slot it has passed. */
  lemma RunIdx(w: Walk, p: Policy, base: nat, j: nat)
    requires Ready(w) && base < |w.table| && w.idx == Pos(base, w.k, |w.table|) && j < w.k
    ensures var r := Run(w, p);
            r.k < |w.table| ==> r.idx != Pos(base, j, |w.table|)
  {
    RunTouches(w, p, base, j);
  }

  lemma FirstOpen(t: seq<Slot>, h: nat, p: Policy) returns (j: nat)
    requires 0 < |t| && !Blocked(t, h, p)
    ensures j < |t| && !BlocksAt(t, h, j, p)
    ensures forall i: nat | i < j :: BlocksAt(t, h, i, p)
  {
    j := 0;
    while j < |t| && BlocksAt(t, h, j, p)
      invariant j <= |t|
      invariant forall i: nat | i < j :: BlocksAt(t, h, i, p)
    {
      j := j + 1;
    }
  }

  /** Read your write, for every table content whatever, expired slots and duplicates
      included. If some slot does not block, the new entry is found right after, with
      its value or with the value merged into the copy that was there. If every slot
      blocks, the table is untouched, the new entry is the one lost, and it is not
      found. Any result but `DroppedFull` therefore means found. */
  lemma InsertThenFind(t: seq<Slot>, h: nat, v: Record, p: Policy)
    requires 0 < |t|
    ensures var r := Insert(t, h, v, p);
            var f := Find(r.table, h);
            && (f.None? <==> Blocked(t, h, p))
            && (f.None? ==> r.result == DroppedFull && r.table == t && r.lost == Full(h, v))
            && (f.Some? ==> r.table[f.value] in {Full(h, v), Settle(t[f.value], Full(h, v), p)})
  {
    assert Start(t, h, v) == Passed(t, h, v, 0);
    if Blocked(t, h, p) {
      BlockedMisses(t, h, v, p);
    } else {
      var j := FirstOpen(t, h, p);
      OpenIsFound(t, h, v, p, j);
    }
  }

  lemma BlockedMisses(t: seq<Slot>, h: nat, v: Record, p: Policy)
    requires 0 < |t| && Blocked(t, h, p)
    ensures var r := Insert(t, h, v, p);
            Find(t, h).None? && r.result == DroppedFull && r.table == t && r.lost == Full(h, v)
  {
    assert Start(t, h, v) == Passed(t, h, v, 0);
    RunSkips(t, h, v, 0, |t|, p);
    forall i: nat | i < |t|
      ensures !Holds(t, h, i)
    {
      assert BlocksAt(t, h, Dist(h, i, |t|), p);
    }
  }

  lemma OpenIsFound(t: seq<Slot>, h: nat, v: Record, p: Policy, j: nat)
    requires j < |t| && !BlocksAt(t, h, j, p) && forall i: nat | i < j :: BlocksAt(t, h, i, p)
    ensures var r := Insert(t, h, v, p);
            var i := Pos(Home(h, |t|), j, |t|);
            Find(r.table, h) == Some(i) && r.table[i] in {Full(h, v), Settle(t[i], Full(h, v), p)}
  {
    var n := |t|;
    var base := Home(h, n);
    var r := Insert(t, h, v, p);
    assert Start(t, h, v) == Passed(t, h, v, 0);
    RunSkips(t, h, v, 0, j, p);
    RunPlaces(t, h, v, j, p);
    forall i: nat | i < j
      ensures i <= Rank(r.table, Pos(base, i, n)) && !Holds(r.table, h, Pos(base, i, n))
    {
      RunTouches(Passed(t, h, v, j), p, base, i);
      RunIdx(Passed(t, h, v, j), p, base, i);
      assert BlocksAt(t, h, i, p);
    }
    FindReaches(r.table, h, Pos(base, j, n), 0);
  }
}
