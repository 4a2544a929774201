/**
 When an insert keeps the probe order and when it breaks it. The walk tests a slot for
 expiry before it tests for a match or compares distances, so reusing an expired slot
 may put an entry close to home in front of entries that are far from theirs.
 */
module RobinHoodOrder {
  import opened Common
  import opened Entries
  import opened RobinHood

  /** As far as the slot before is concerned, an entry for `x` may be placed at `i`. */
  predicate Reaches(t: seq<Slot>, x: nat, i: nat)
    requires i < |t|
  {
    Dist(x, i, |t|) == 0 || Dist(x, i, |t|) <= Rank(t, Prev(i, |t|)) + 1
  }

  lemma OrderedUpdate(t: seq<Slot>, i: nat, s: Slot)
    requires i < |t| && s.Full? && Ordered(t)
    requires Reaches(t, s.hash, i)
    ensures var u := t[i := s];
            Ordered(u) <==> Rank(t, Step(i, |t|)) <= Dist(s.hash, i, |t|) + 1
  {
    var u := t[i := s];
    var n := |t|;
    forall j: nat | j < n && j != i
      ensures OrderedAt(u, j)
    {
      assert OrderedAt(t, j);
      if Step(j, n) == i {
        assert j == Prev(i, n);
      }
    }
    if n == 1 {
      assert OrderedAt(u, i);
      assert OrderedAt(t, i);
    } else {
      assert OrderedAt(u, i) <==> Rank(t, Step(i, n)) <= Dist(s.hash, i, n) + 1;
    }
  }

  /** The table is ordered and, as far as the slot before is concerned, the entry in
      hand may be placed at the slot to be examined. */
  predicate Fits(w: Walk)
    requires Ready(w)
  {
    && Ordered(w.table) && w.dist <= w.k
    && (w.k < |w.table| ==>
          w.dist == Dist(w.cur.hash, w.idx, |w.table|) && Reaches(w.table, w.cur.hash, w.idx))
  }

  lemma RoundFits(w: Walk)
    requires Ready(w) && w.k < |w.table| && w.table[w.idx].Full? && Fits(w)
    ensures Fits(Round(w))
  {
    assert OrderedAt(w.table, w.idx);
    OrderedUpdate(w.table, w.idx, w.cur);
  }

  lemma {:induction false} RunFits(w: Walk, p: Policy)
    requires Ready(w) && Fits(w)
    ensures Fits(Run(w, p))
    decreases |w.table| - w.k
  {
    if !Stops(w, p) {
      RoundFits(w);
      RunFits(Round(w), p);
    }
  }

  /** What a walk from `t` for a new entry ends with: an ordered table in which the
      slot it ends on and the one behind are as they were. */
  lemma WalkSummary(t: seq<Slot>, h: nat, v: Record, p: Policy)
    requires 0 < |t| && Ordered(t)
    ensures var w := Run(Start(t, h, v), p);
            && Fits(w)
            && (w.k < |t| ==> w.table[w.idx] == t[w.idx])
            && (w.k < |t| && 1 < |t| ==> w.table[Step(w.idx, |t|)] == t[Step(w.idx, |t|)])
  {
    var n := |t|;
    var base := Home(h, n);
    var s := Start(t, h, v);
    assert s.idx == Pos(base, 0, n) && Dist(h, base, n) == 0;
    RunFits(s, p);
    var w := Run(s, p);
    if w.k < n {
      RunTouches(s, p, base, w.k);
      if w.k + 1 < n {
        RunTouches(s, p, base, w.k + 1);
        assert Step(w.idx, n) == Pos(base, w.k + 1, n);
      } else if 1 < n {
        assert Step(w.idx, n) == base == Pos(base, 0, n);
        HomeUntouched(t, h, v, p);
      }
    }
  }

  /** The home slot of the new entry is never given to it by displacement. */
  lemma HomeUntouched(t: seq<Slot>, h: nat, v: Record, p: Policy)
    requires 1 < |t| && !Stops(Start(t, h, v), p)
    ensures Run(Start(t, h, v), p).table[Home(h, |t|)] == t[Home(h, |t|)]
  {
    var s := Start(t, h, v);
    assert Round(s).idx == Pos(Home(h, |t|), 1, |t|) && Pos(Home(h, |t|), 0, |t|) == Home(h, |t|);
    RunTouches(Round(s), p, Home(h, |t|), 0);
  }

  /** The exact effect of one insert on an ordered table. Every result other than
      `EvictedExpired` keeps the order. A reclaim keeps it if and only if the slot
      behind the reclaimed one is empty or holds an entry at most one place further
      from home than the entry that moved in. */
  lemma InsertKeepsOrderExactly(t: seq<Slot>, h: nat, v: Record, p: Policy)
    requires 0 < |t| && Ordered(t)
    ensures var r := Insert(t, h, v, p);
            Ordered(r.table) <==>
              (r.result == EvictedExpired ==> Rank(t, Step(r.slot, |t|)) <= Rank(r.table, r.slot) + 1)
  {
    var n := |t|;
    var w := Run(Start(t, h, v), p);
    WalkSummary(t, h, v, p);
    if w.k < n {
      var s := Settle(w.table[w.idx], w.cur, p);
      OrderedUpdate(w.table, w.idx, s);
      assert OrderedAt(w.table, w.idx);
      if n == 1 {
        assert Step(w.idx, n) == w.idx;
      }
    }
  }

  /** Which keys survive a reclaim, key by key. `t` is well formed, slot `i` is given
      to an entry for `h`; any other key `x`, stored in slot `q`, is still found if and
      only if its probe does not cross `i` further from home than the new entry is. */
  lemma ReclaimKeepsKeyExactly(t: seq<Slot>, i: nat, h: nat, v: Record, x: nat, q: nat)
    requires i < |t| && q != i && x != h && WellFormed(t) && Holds(t, x, q)
    ensures var u := t[i := Full(h, v)];
            var crossed := Dist(x, i, |t|) < Dist(x, q, |t|) && Dist(h, i, |t|) < Dist(x, i, |t|);
            && (Find(u, x) == Some(q) <==> !crossed)
            && (crossed ==> Find(u, x).None?)
  {
    var u := t[i := Full(h, v)];
    var n := |t|;
    if Dist(x, i, n) < Dist(x, q, n) && Dist(h, i, n) < Dist(x, i, n) {
      FindStops(u, x, i, 0);
      assert forall j: nat | j < n && j != i && Holds(u, x, j) :: Holds(t, x, j);
    } else {
      forall j: nat | j < Dist(x, q, n)
        ensures j <= Rank(u, Pos(Home(x, n), j, n)) && !Holds(u, x, Pos(Home(x, n), j, n))
      {
        PathRank(t, x, q, j);
        assert Dist(x, Pos(Home(x, n), j, n), n) == j;
      }
      FindReaches(u, x, q, 0);
    }
  }

  lemma PathBefore(t: seq<Slot>, x: nat, i: nat, j: nat)
    requires i < |t| && Ordered(t) && Reaches(t, x, i) && j < Dist(x, i, |t|)
    ensures var q := Pos(Home(x, |t|), j, |t|);
            q != i && j <= Rank(t, q)
  {
    var prev := Prev(i, |t|);
    assert Dist(x, prev, |t|) == Dist(x, i, |t|) - 1;
    PathRank(t, x, prev, j);
  }

  /** An entry placed so is found there, if it is stored nowhere else. */
  lemma PlacedIsFound(t: seq<Slot>, i: nat, x: nat, v: Record)
    requires i < |t| && Ordered(t) && Reaches(t, x, i) && Absent(t, x)
    ensures Find(t[i := Full(x, v)], x) == Some(i)
  {
    var u, n := t[i := Full(x, v)], |t|;
    forall j: nat | j < Dist(x, i, n)
      ensures j <= Rank(u, Pos(Home(x, n), j, n)) && !Holds(u, x, Pos(Home(x, n), j, n))
    {
      PathBefore(t, x, i, j);
      assert !Holds(t, x, Pos(Home(x, n), j, n));
    }
    FindReaches(u, x, i, 0);
  }

  /** The other half of `InsertKeepsOrderExactly`: where the condition fails, the key
      stored right behind the reclaimed slot can no longer be found there. */
  lemma BrokenOrderHidesNext(t: seq<Slot>, h: nat, v: Record, p: Policy)
    requires 0 < |t| && Ordered(t)
    requires var r := Insert(t, h, v, p);
             r.result == EvictedExpired && Rank(r.table, r.slot) + 1 < Rank(t, Step(r.slot, |t|))
    ensures var r := Insert(t, h, v, p);
            var q := Step(r.slot, |t|);
            && r.table[q] == t[q] && t[q].Full?
            && Find(t, t[q].hash).Some?
            && Find(r.table, t[q].hash) != Some(q)
  {
    var n := |t|;
    var r := Insert(t, h, v, p);
    var q := Step(r.slot, n);
    WalkSummary(t, h, v, p);
    assert OrderedAt(t, r.slot);
    var x := t[q].hash;
    assert Dist(x, r.slot, n) == Dist(x, q, n) - 1;
    FindStops(r.table, x, r.slot, 0);
    FindSomeCopy(t, x, q, 0);
  }

  /** On an ordered table a stored hash is found, be it at another copy. */
  lemma {:induction false} FindSomeCopy(t: seq<Slot>, h: nat, i: nat, k: nat)
    requires Ordered(t) && Holds(t, h, i) && k <= Dist(h, i, |t|)
    ensures FindFrom(t, h, k).Some?
    decreases Dist(h, i, |t|) - k
  {
    PathRank(t, h, i, k);
    if k < Dist(h, i, |t|) {
      FindSomeCopy(t, h, i, k + 1);
    }
  }
}
