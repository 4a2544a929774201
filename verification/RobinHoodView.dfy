/**
 The table as a map from hash to record: what an insert adds, what it loses, and that
 a run without reclaims refines a map of bounded size.
 */
module RobinHoodView {
  import opened Entries
  import opened RobinHood
  import opened RobinHoodOrder

  /** `m` with one more entry, if there is one. */
  function With(m: map<nat, Record>, s: Slot): map<nat, Record> {
    if s.Empty? then m else m[s.hash := s.rec]
  }

  function ViewTo(t: seq<Slot>, n: nat): (m: map<nat, Record>)
    requires n <= |t| && Distinct(t)
    ensures forall h | h in m :: exists i: nat :: i < n && Holds(t, h, i)
    ensures forall h, i: nat | i < n && Holds(t, h, i) :: h in m && m[h] == t[i].rec
  {
    if n == 0 then map[]
    else
      assert t[n - 1].Full? ==> Holds(t, t[n - 1].hash, n - 1);
      With(ViewTo(t, n - 1), t[n - 1])
  }

  /** The records stored, by hash. */
  function View(t: seq<Slot>): (m: map<nat, Record>)
    requires Distinct(t)
    ensures forall h :: h in m <==> !Absent(t, h)
    ensures forall h, i: nat | Holds(t, h, i) :: h in m && m[h] == t[i].rec
  {
    ViewTo(t, |t|)
  }

  lemma EmptyIsWellFormed(cap: nat)
    requires 0 < cap
    ensures var t: seq<Slot> := seq(cap, _ => Empty);
            WellFormed(t) && forall h: nat :: h !in View(t)
  {
    var t: seq<Slot> := seq(cap, _ => Empty);
    forall i: nat | i < cap
      ensures OrderedAt(t, i)
    {
    }
  }

  /** Looking up a hash in the map is probing for it. */
  lemma FindIsView(t: seq<Slot>, h: nat)
    requires 0 < |t| && WellFormed(t)
    ensures Find(t, h).Some? <==> h in View(t)
    ensures h in View(t) ==> t[Find(t, h).value] == Full(h, View(t)[h])
  {
    FindIsFullScan(t, h);
  }

  /** Writing an entry for a new hash into slot `i`: what was there comes out. */
  lemma ViewReplace(t: seq<Slot>, i: nat, s: Slot)
    requires i < |t| && Distinct(t) && s.Full? && Absent(t, s.hash)
    ensures Distinct(t[i := s])
    ensures t[i].Full? ==> Absent(t[i := s], t[i].hash) && t[i].hash !in View(t[i := s])
    ensures With(View(t[i := s]), t[i]) == With(View(t), s)
  {
    var u := t[i := s];
    assert !Holds(t, s.hash, i);
    forall j: nat | j < |t| && j != i && t[j].Full?
      ensures u[j].hash != s.hash
    {
      assert !Holds(t, s.hash, j);
    }
    assert Distinct(u);
    ViewReplaceKeys(t, i, s);
  }

  lemma SameKeys(t: seq<Slot>, i: nat, s: Slot, h: nat)
    requires i < |t| && Distinct(t) && s.Full? && Absent(t, s.hash) && Distinct(t[i := s])
    ensures var a, b := With(View(t[i := s]), t[i]), With(View(t), s);
            (h in a <==> h in b) && (h in a ==> a[h] == b[h])
  {
    var u := t[i := s];
    assert Holds(u, s.hash, i) && !Holds(t, s.hash, i);
    assert t[i].Full? ==> Holds(t, t[i].hash, i);
    if h == s.hash || (t[i].Full? && h == t[i].hash) {
      assert h in With(View(u), t[i]) && h in With(View(t), s);
    } else if j: nat :| Holds(u, h, j) {
      assert Holds(t, h, j);
    } else if j: nat :| Holds(t, h, j) {
      assert Holds(u, h, j);
    }
  }

  lemma ViewReplaceKeys(t: seq<Slot>, i: nat, s: Slot)
    requires i < |t| && Distinct(t) && s.Full? && Absent(t, s.hash) && Distinct(t[i := s])
    ensures With(View(t[i := s]), t[i]) == With(View(t), s)
  {
    var u := t[i := s];
    var a, b := With(View(u), t[i]), With(View(t), s);
    forall h
      ensures h in a <==> h in b
      ensures h in a ==> a[h] == b[h]
    {
      SameKeys(t, i, s, h);
    }
  }

  /** The table holds each hash once and not the one in hand. */
  predicate Apart(w: Walk)
    requires Ready(w)
  {
    Distinct(w.table) && Absent(w.table, w.cur.hash)
  }

  /** Everything a walk has to place: the stored entries and the one in hand. */
  function Carried(w: Walk): map<nat, Record>
    requires Ready(w) && Apart(w)
  {
    With(View(w.table), w.cur)
  }

  lemma RoundConserves(w: Walk)
    requires Ready(w) && Apart(w) && w.k < |w.table| && w.table[w.idx].Full?
    ensures Apart(Round(w)) && Carried(Round(w)) == Carried(w)
  {
    ViewReplace(w.table, w.idx, w.cur);
  }

  lemma {:induction false} RunConserves(w: Walk, p: Policy)
    requires Ready(w) && Apart(w)
    ensures Apart(Run(w, p)) && Carried(Run(w, p)) == Carried(w)
    decreases |w.table| - w.k
  {
    if !Stops(w, p) {
      RoundConserves(w);
      RunConserves(Round(w), p);
    }
  }

  /** Conservation, expired slots or not. Inserting a hash that is not stored invents
      nothing and loses one entry at most: the entries now stored together with the lost
      one are the entries stored before together with the new one. */
  lemma InsertConserves(t: seq<Slot>, h: nat, v: Record, p: Policy)
    requires 0 < |t| && Distinct(t) && Absent(t, h)
    ensures var r := Insert(t, h, v, p);
            && r.result != Updated
            && Distinct(r.table)
            && (r.lost.Full? ==> r.lost.hash !in View(r.table))
            && With(View(r.table), r.lost) == View(t)[h := v]
  {
    var w := Run(Start(t, h, v), p);
    RunConserves(Start(t, h, v), p);
    if w.k < |t| {
      assert !Holds(w.table, w.cur.hash, w.idx);
      ViewReplace(w.table, w.idx, w.cur);
    }
  }

  /** The walk for a stored hash displaces nothing. */
  lemma StoredEndsWalk(t: seq<Slot>, h: nat, v: Record, p: Policy, i: nat)
    requires 0 < |t| && WellFormed(t) && Holds(t, h, i)
    ensures var w := Run(Start(t, h, v), p);
            && w.table == t && w.cur == Full(h, v) && w.k < |t|
            && t[w.idx].Full? && (Expired(p, t[w.idx].rec) || w.idx == i)
  {
    var n := |t|;
    assert !BlocksAt(t, h, Dist(h, i, n), p);
    var j := FirstOpen(t, h, p);
    assert Start(t, h, v) == Passed(t, h, v, 0);
    RunSkips(t, h, v, 0, j, p);
    PathRank(t, h, i, j);
    var q := Pos(Home(h, n), j, n);
    if q != i {
      assert Dist(h, q, n) == j && !Holds(t, h, q);
    }
    assert Stops(Passed(t, h, v, j), p);
  }

  /** A hash that is stored is reached before anything is displaced, unless an expired
      slot lies on the way. */
  lemma InsertOfStored(t: seq<Slot>, h: nat, v: Record, p: Policy, i: nat)
    requires 0 < |t| && WellFormed(t) && Holds(t, h, i)
    ensures var r := Insert(t, h, v, p);
            && r.lost == t[r.slot] && r.lost.Full?
            && if r.result == EvictedExpired then r.table == t[r.slot := Full(h, v)] && Expired(p, r.lost.rec)
               else r.result == Updated && r.slot == i && r.table == t[i := Full(h, Merge(p, t[i].rec, v))]
  {
    StoredEndsWalk(t, h, v, p, i);
  }

  /** The reclaim leaves a hash in two places exactly when the hash inserted was stored
      in a slot other than the one reclaimed. */
  lemma ReclaimDuplicatesExactly(t: seq<Slot>, h: nat, v: Record, p: Policy)
    requires 0 < |t| && WellFormed(t) && Insert(t, h, v, p).result == EvictedExpired
    ensures var r := Insert(t, h, v, p);
            Distinct(r.table) <==> forall i: nat | i < |t| && i != r.slot :: !Holds(t, h, i)
  {
    var r := Insert(t, h, v, p);
    if i: nat :| Holds(t, h, i) {
      InsertOfStored(t, h, v, p, i);
      assert r.table[i].Full? && r.table[i].hash == h && r.table[r.slot].hash == h;
    } else {
      InsertConserves(t, h, v, p);
    }
  }

  // ----- which keys an insert loses -----

  /** The probe for `x` in slot `q` crosses the slot reclaimed, further from home there than
      the entry that moved in. */
  predicate Crosses(r: Insertion, x: nat, q: nat)
    requires r.slot < |r.table| && q < |r.table|
  {
    var n := |r.table|;
    r.result == EvictedExpired && Dist(x, r.slot, n) < Dist(x, q, n) && Rank(r.table, r.slot) < Dist(x, r.slot, n)
  }

  /** The table is well formed when the walk ends, and the entry in hand is not in it unless
      the walk was for a stored hash and has changed nothing. */
  lemma WalkStaysWellFormed(t: seq<Slot>, h: nat, v: Record, p: Policy)
    requires 0 < |t| && WellFormed(t)
    ensures var w := Run(Start(t, h, v), p);
            && WellFormed(w.table)
            && (w.k < |t| ==> Reaches(w.table, w.cur.hash, w.idx))
            && (w.cur.hash == h || Absent(w.table, w.cur.hash))
  {
    WalkSummary(t, h, v, p);
    if i: nat :| Holds(t, h, i) {
      StoredEndsWalk(t, h, v, p, i);
    } else {
      RunConserves(Start(t, h, v), p);
    }
  }

  /** The slot that takes entry `cur` in `t` hides no key but those whose probe crosses it. */
  lemma FoundAfterTakingExactly(t: seq<Slot>, i: nat, cur: Slot, x: nat, q: nat)
    requires i < |t| && WellFormed(t) && cur.Full? && (cur.hash == x ==> Absent(t, x))
    requires Reaches(t, cur.hash, i) && Holds(t[i := cur], x, q)
    ensures Find(t[i := cur], x).Some? <==>
            !(Dist(x, i, |t|) < Dist(x, q, |t|) && Dist(cur.hash, i, |t|) < Dist(x, i, |t|))
  {
    if q == i {
      assert !Holds(t, x, i);
      PlacedIsFound(t, i, x, cur.rec);
    } else {
      assert Holds(t, x, q);
      ReclaimKeepsKeyExactly(t, i, cur.hash, cur.rec, x, q);
    }
  }

  /** Where an insert that reclaims leaves a key, that key is found exactly if its probe does
      not cross the slot. */
  lemma FoundAfterReclaimExactly(t: seq<Slot>, h: nat, v: Record, p: Policy, x: nat, q: nat)
    requires 0 < |t| && WellFormed(t) && x != h && Insert(t, h, v, p).result == EvictedExpired
    requires Holds(Insert(t, h, v, p).table, x, q)
    ensures var r := Insert(t, h, v, p);
            Find(r.table, x).Some? <==> !Crosses(r, x, q)
  {
    var w := Run(Start(t, h, v), p);
    WalkStaysWellFormed(t, h, v, p);
    assert Insert(t, h, v, p).table == w.table[w.idx := w.cur];
    FoundAfterTakingExactly(w.table, w.idx, w.cur, x, q);
  }

  function Occupied(t: seq<Slot>): (n: nat)
    ensures n <= |t|
  {
    if t == [] then 0 else Occupied(t[..|t| - 1]) + (if t[|t| - 1].Full? then 1 else 0)
  }

  lemma {:induction false} OccupiedUpdate(t: seq<Slot>, i: nat, s: Slot)
    requires i < |t|
    ensures Occupied(t[i := s]) == Occupied(t) + (if s.Full? then 1 else 0) - (if t[i].Full? then 1 else 0)
  {
    var m := |t| - 1;
    if i < m {
      assert t[i := s][..m] == t[..m][i := s];
      OccupiedUpdate(t[..m], i, s);
    } else {
      assert t[i := s][..m] == t[..m];
    }
  }

  lemma {:induction false} OccupiedFull(t: seq<Slot>)
    ensures Occupied(t) == |t| <==> forall i: nat | i < |t| :: t[i].Full?
  {
    if t != [] {
      var front := t[..|t| - 1];
      OccupiedFull(front);
      assert forall i: nat | i < |front| :: front[i] == t[i];
    }
  }

  lemma {:induction false} RunOccupied(w: Walk, p: Policy)
    requires Ready(w)
    ensures Occupied(Run(w, p).table) == Occupied(w.table)
    decreases |w.table| - w.k
  {
    if !Stops(w, p) {
      OccupiedUpdate(w.table, w.idx, w.cur);
      RunOccupied(Round(w), p);
    }
  }

  /** The number of occupied slots grows by one on `Inserted` and not otherwise;
      `DroppedFull` is answered only when every slot is occupied. */
  lemma InsertOccupied(t: seq<Slot>, h: nat, v: Record, p: Policy)
    requires 0 < |t|
    ensures var r := Insert(t, h, v, p);
            && Occupied(r.table) == Occupied(t) + (if r.result == Inserted then 1 else 0)
            && (r.result == DroppedFull ==> Occupied(t) == |t|)
  {
    var s := Start(t, h, v);
    var w := Run(s, p);
    RunOccupied(s, p);
    if w.k < |t| {
      OccupiedUpdate(w.table, w.idx, Settle(w.table[w.idx], w.cur, p));
    } else {
      assert s.idx == Pos(Home(h, |t|), 0, |t|);
      forall i: nat | i < |t|
        ensures t[i].Full?
      {
        RunTouches(s, p, Home(h, |t|), Dist(h, i, |t|));
      }
      OccupiedFull(t);
    }
  }

  /** A run without reclaims refines a map that holds at most `|t|` entries. As long as
      no insert answers `EvictedExpired`, the table stays well formed and every answer
      tells what happened to the map: an update of a key that was there, a new key, or,
      on a full table only, a new key at the price of one other entry. The lost entry
      may be the new one or an older flow. */
  lemma InsertRefinesMap(t: seq<Slot>, h: nat, v: Record, p: Policy)
    requires 0 < |t| && WellFormed(t) && Insert(t, h, v, p).result != EvictedExpired
    ensures var r := Insert(t, h, v, p);
            && WellFormed(r.table)
            && (r.result == Updated <==> h in View(t))
            && (r.result == Updated ==> View(r.table) == View(t)[h := Merge(p, View(t)[h], v)])
            && (r.result == Inserted ==> View(r.table) == View(t)[h := v])
            && (h !in View(t) ==> (r.result == DroppedFull <==> Occupied(t) == |t|))
            && (r.result == DroppedFull ==>
                  && r.lost.Full? && r.lost.hash !in View(r.table)
                  && View(r.table)[r.lost.hash := r.lost.rec] == View(t)[h := v])
  {
    var r := Insert(t, h, v, p);
    InsertKeepsOrderExactly(t, h, v, p);
    InsertOccupied(t, h, v, p);
    if i: nat :| Holds(t, h, i) {
      InsertOfStored(t, h, v, p, i);
      UpdateRecord(t, i, Merge(p, t[i].rec, v));
    } else {
      InsertConserves(t, h, v, p);
    }
  }

  /** What one insert does to every other key, displacements before a reclaim included. The key
      is no longer stored exactly if its entry is the one lost. Where it is stored, it is found
      exactly if its probe does not cross a slot reclaimed. */
  lemma InsertKeepsKeyExactly(t: seq<Slot>, h: nat, v: Record, p: Policy, x: nat)
    requires 0 < |t| && WellFormed(t) && x != h && !Absent(t, x)
    ensures var r := Insert(t, h, v, p);
            && (Absent(r.table, x) <==> r.lost.Full? && r.lost.hash == x)
            && (forall q: nat | Holds(r.table, x, q) :: Find(r.table, x).Some? <==> !Crosses(r, x, q))
  {
    var r := Insert(t, h, v, p);
    KeyLostExactly(t, h, v, p, x);
    forall q: nat | Holds(r.table, x, q)
      ensures Find(r.table, x).Some? <==> !Crosses(r, x, q)
    {
      if r.result == EvictedExpired {
        FoundAfterReclaimExactly(t, h, v, p, x, q);
      } else {
        InsertRefinesMap(t, h, v, p);
        FindIsFullScan(r.table, x);
      }
    }
  }

  lemma KeyLostExactly(t: seq<Slot>, h: nat, v: Record, p: Policy, x: nat)
    requires 0 < |t| && WellFormed(t) && x != h && !Absent(t, x)
    ensures var r := Insert(t, h, v, p);
            Absent(r.table, x) <==> r.lost.Full? && r.lost.hash == x
  {
    var r := Insert(t, h, v, p);
    if i: nat :| Holds(t, h, i) {
      InsertOfStored(t, h, v, p, i);
      var q: nat :| Holds(t, x, q);
      OverwriteLosesExactly(t, r.slot, r.table[r.slot], x, q);
    } else {
      InsertConserves(t, h, v, p);
      OneIsOut(View(r.table), View(t), r.lost, h, v, x);
    }
  }

  lemma OverwriteLosesExactly(t: seq<Slot>, i: nat, s: Slot, x: nat, q: nat)
    requires i < |t| && Distinct(t) && Holds(t, x, q) && !(s.Full? && s.hash == x)
    ensures Absent(t[i := s], x) <==> t[i].Full? && t[i].hash == x
  {
    var u := t[i := s];
    if q != i {
      assert Holds(u, x, q);
    } else {
      assert forall j: nat | Holds(u, x, j) :: Holds(t, x, j);
    }
  }

  lemma OneIsOut(after: map<nat, Record>, before: map<nat, Record>, lost: Slot, h: nat, v: Record, x: nat)
    requires (lost.Full? ==> lost.hash !in after) && With(after, lost) == before[h := v] && x in before
    ensures x !in after <==> lost.Full? && lost.hash == x
  {
    assert x in With(after, lost);
  }

  /** The insert keeps the table well formed: it reclaims nothing, or the entry behind the
      reclaimed slot is not too far from home and the hash is stored nowhere else. */
  predicate Tidies(t: seq<Slot>, h: nat, v: Record, p: Policy)
    requires 0 < |t|
  {
    var r := Insert(t, h, v, p);
    r.result == EvictedExpired ==>
      && Rank(t, Step(r.slot, |t|)) <= Rank(r.table, r.slot) + 1
      && forall i: nat | i < |t| && i != r.slot :: !Holds(t, h, i)
  }

  /** Exactly when one insert, with or without a reclaim, keeps the table well formed. */
  lemma InsertKeepsWellFormedExactly(t: seq<Slot>, h: nat, v: Record, p: Policy)
    requires 0 < |t| && WellFormed(t)
    ensures WellFormed(Insert(t, h, v, p).table) <==> Tidies(t, h, v, p)
  {
    InsertKeepsOrderExactly(t, h, v, p);
    if Insert(t, h, v, p).result == EvictedExpired {
      ReclaimDuplicatesExactly(t, h, v, p);
    } else {
      InsertRefinesMap(t, h, v, p);
    }
  }

  /** The entry that was lost had expired. */
  predicate Left(r: Insertion, before: map<nat, Record>, p: Policy) {
    r.lost.Full? && Expired(p, r.lost.rec) && r.lost.hash in before && before[r.lost.hash] == r.lost.rec
  }

  /** What such a reclaim does to the map: the expired entry gives way to the new one. */
  lemma ReclaimRefinesMap(t: seq<Slot>, h: nat, v: Record, p: Policy)
    requires 0 < |t| && WellFormed(t) && Insert(t, h, v, p).result == EvictedExpired && Tidies(t, h, v, p)
    ensures var r := Insert(t, h, v, p);
            && WellFormed(r.table) && Left(r, View(t), p)
            && View(r.table) == (View(t) - {r.lost.hash})[h := v]
  {
    InsertKeepsWellFormedExactly(t, h, v, p);
    if i: nat :| Holds(t, h, i) {
      ReclaimOfOwn(t, h, v, p, i);
    } else {
      ReclaimOfOther(t, h, v, p);
    }
  }

  lemma ReclaimOfOwn(t: seq<Slot>, h: nat, v: Record, p: Policy, i: nat)
    requires 0 < |t| && WellFormed(t) && Insert(t, h, v, p).result == EvictedExpired && Tidies(t, h, v, p)
    requires Holds(t, h, i) && WellFormed(Insert(t, h, v, p).table)
    ensures var r := Insert(t, h, v, p);
            Left(r, View(t), p) && View(r.table) == (View(t) - {r.lost.hash})[h := v]
  {
    InsertOfStored(t, h, v, p, i);
    var r := Insert(t, h, v, p);
    assert r.slot == i;
    UpdateRecord(t, i, v);
    assert t[i].hash == h;
  }

  lemma ReclaimOfOther(t: seq<Slot>, h: nat, v: Record, p: Policy)
    requires 0 < |t| && WellFormed(t) && Insert(t, h, v, p).result == EvictedExpired && Absent(t, h)
    requires WellFormed(Insert(t, h, v, p).table)
    ensures var r := Insert(t, h, v, p);
            Left(r, View(t), p) && View(r.table) == (View(t) - {r.lost.hash})[h := v]
  {
    var r := Insert(t, h, v, p);
    InsertConserves(t, h, v, p);
    InsertThenFind(t, h, v, p);
    FindIsView(r.table, h);
    TakeOut(View(r.table), View(t), r.lost, h, v);
  }

  lemma TakeOut(after: map<nat, Record>, before: map<nat, Record>, lost: Slot, h: nat, v: Record)
    requires lost.Full? && lost.hash !in after && h in after && With(after, lost) == before[h := v]
    ensures after == (before - {lost.hash})[h := v]
    ensures lost.hash in before && before[lost.hash] == lost.rec
  {
    assert lost.hash in With(after, lost) && With(after, lost)[lost.hash] == lost.rec;
    forall x
      ensures x in after <==> x in (before - {lost.hash})[h := v]
      ensures x in after ==> after[x] == (before - {lost.hash})[h := v][x]
    {
      assert x in With(after, lost) <==> x in before[h := v];
      assert x in before[h := v] ==> With(after, lost)[x] == before[h := v][x];
    }
  }

  /** Changing the record of a stored entry moves nothing. */
  lemma UpdateRecord(t: seq<Slot>, i: nat, v: Record)
    requires i < |t| && t[i].Full? && WellFormed(t)
    ensures var u := t[i := Full(t[i].hash, v)];
            WellFormed(u) && View(u) == View(t)[t[i].hash := v]
  {
    var u := t[i := Full(t[i].hash, v)];
    assert WellFormed(u) by {
      UpdateKeepsOrder(t, i, v);
    }
    assert Holds(u, t[i].hash, i);
    forall h
      ensures h in View(u) <==> h in View(t)
      ensures h in View(t) ==> View(u)[h] == View(t)[t[i].hash := v][h]
    {
      UpdateKeepsKey(t, i, v, h);
    }
  }

  lemma UpdateKeepsOrder(t: seq<Slot>, i: nat, v: Record)
    requires i < |t| && t[i].Full?
    ensures var u := t[i := Full(t[i].hash, v)];
            (Ordered(t) ==> Ordered(u)) && (Distinct(t) ==> Distinct(u))
  {
    var u := t[i := Full(t[i].hash, v)];
    if Ordered(t) {
      forall j: nat | j < |t|
        ensures OrderedAt(u, j)
      {
        assert OrderedAt(t, j);
      }
    }
  }

  lemma UpdateKeepsKey(t: seq<Slot>, i: nat, v: Record, h: nat)
    requires i < |t| && t[i].Full? && Distinct(t) && Distinct(t[i := Full(t[i].hash, v)])
    ensures var u := t[i := Full(t[i].hash, v)];
            (h in View(u) <==> h in View(t)) && (h in View(t) ==> View(u)[h] == View(t)[t[i].hash := v][h])
  {
    var u := t[i := Full(t[i].hash, v)];
    if j: nat :| Holds(t, h, j) {
      assert Holds(u, h, j);
    }
    if j: nat :| Holds(u, h, j) {
      assert Holds(t, h, j);
    }
  }

  /** Which entry `DroppedFull` loses: the new one exactly when no stored entry sits
      closer to its home than the walk has come, that is when the table is blocked. */
  lemma DroppedLosesNewExactly(t: seq<Slot>, h: nat, v: Record, p: Policy)
    requires 0 < |t| && WellFormed(t) && Insert(t, h, v, p).result == DroppedFull
    ensures var r := Insert(t, h, v, p);
            && (Absent(r.table, h) <==> Blocked(t, h, p))
            && (Blocked(t, h, p) <==> forall j: nat | j < |t| :: j <= Rank(t, Pos(Home(h, |t|), j, |t|)))
  {
    var r := Insert(t, h, v, p);
    InsertThenFind(t, h, v, p);
    InsertRefinesMap(t, h, v, p);
    FindIsFullScan(r.table, h);
    if forall j: nat | j < |t| :: j <= Rank(t, Pos(Home(h, |t|), j, |t|)) {
      assert Absent(t, h);
      if !Blocked(t, h, p) {
        var j := FirstOpen(t, h, p);
        assert Start(t, h, v) == Passed(t, h, v, 0);
        RunSkips(t, h, v, 0, j, p);
        assert !Holds(t, h, Pos(Home(h, |t|), j, |t|));
        assert j <= Rank(t, Pos(Home(h, |t|), j, |t|));
        assert Stops(Passed(t, h, v, j), p);
        assert false;
      }
    } else {
      var j: nat :| j < |t| && !(j <= Rank(t, Pos(Home(h, |t|), j, |t|)));
      assert !BlocksAt(t, h, j, p);
    }
  }
}
