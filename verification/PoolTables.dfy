/**
 The table of a pool in the terms of whoever built it: which of the pool's backends are in
 it, how many slots each of them owns, which slots these are, and which one a flow reads.
 */
module PoolTables {
  import opened Common
  import opened Arithmetic
  import opened Permutation
  import opened Maglev
  import opened Applier
  import opened Filters

  // ----- which backends -----

  lemma {:induction false} ActiveKeeps(backends: seq<Backend>)
    ensures Keeps(backends, (b: Backend) => 0 < b.weight, Active(backends))
  {
    var keep := (b: Backend) => 0 < b.weight;
    if backends != [] {
      var head, rest := [backends[0]], backends[1..];
      ActiveKeeps(rest);
      assert head[..0] == [];
      assert Keeps([], keep, []);
      KeepsNext([], keep, [], backends[0]);
      KeepsConcat(head, keep, if keep(backends[0]) then head else [], rest, Active(rest));
      assert head + rest == backends;
    }
  }

  /** A backend that a pool may use: it is not drained, and it is not known to be unhealthy. */
  predicate Serves(b: Backend, health: Health) {
    !b.drain && !(b.ip in health && health[b.ip] == Unhealthy)
  }

  lemma {:induction false} UsableKeeps(backends: seq<Backend>, health: Health)
    ensures Keeps(backends, (b: Backend) => Serves(b, health), Usable(backends, health))
  {
    var keep := (b: Backend) => Serves(b, health);
    if backends != [] {
      var head, rest := [backends[0]], backends[1..];
      UsableKeeps(rest, health);
      assert head[..0] == [];
      assert Keeps([], keep, []);
      KeepsNext([], keep, [], backends[0]);
      KeepsConcat(head, keep, if keep(backends[0]) then head else [], rest, Usable(rest, health));
      assert head + rest == backends;
    }
  }

  /** What a table is built from keeps exactly the backends of positive weight, as often as
      the caller lists them and in that order. */
  lemma TableKeeps(hash: Hasher<Name>, backends: seq<Backend>, m: nat)
    requires IsPrime(m) && Table(hash, backends, m).Ok?
    ensures var t := Table(hash, backends, m).table;
            && Keeps(backends, (b: Backend) => 0 < b.weight, t.backends)
            && forall b :: multiset(t.backends)[b] == if 0 < b.weight then multiset(backends)[b] else 0
  {
    var t := Table(hash, backends, m).table;
    TableIsDraft(hash, backends, m);
    ActiveKeeps(backends);
    forall b
      ensures multiset(t.backends)[b] == if 0 < b.weight then multiset(backends)[b] else 0
    {
      KeepsMultiset(backends, (b: Backend) => 0 < b.weight, t.backends, b);
    }
  }

  /** The backends in the table of a pool: those of positive weight among the ones that serve,
      or, when none serves, among all; each as often as the pool lists it. */
  lemma PoolTableKeeps(hash: Hasher<Name>, pool: Pool, health: Health, m: nat, b: Backend)
    requires IsPrime(m) && PoolTable(hash, pool, health, m).Ok?
    ensures Keeps(Chosen(pool, health), (c: Backend) => 0 < c.weight, PoolTable(hash, pool, health, m).table.backends)
    ensures var t := PoolTable(hash, pool, health, m).table;
            multiset(t.backends)[b] ==
            if 0 < b.weight && (Serves(b, health) || forall c | c in pool.backends :: !Serves(c, health))
            then multiset(pool.backends)[b] else 0
  {
    TableKeeps(hash, Chosen(pool, health), m);
    UsableKeeps(pool.backends, health);
    KeepsMultiset(pool.backends, (b: Backend) => Serves(b, health), Usable(pool.backends, health), b);
  }

  // ----- how many slots -----

  lemma {:induction false} ActiveConcat(a: seq<Backend>, b: seq<Backend>)
    ensures Active(a + b) == Active(a) + Active(b)
  {
    if a == [] {
      assert a + b == b;
    } else {
      assert (a + b)[1..] == a[1..] + b;
      ActiveConcat(a[1..], b);
    }
  }

  lemma {:induction false} ActiveWeight(backends: seq<Backend>)
    ensures Weight(Active(backends)) == Weight(backends)
  {
    if backends != [] {
      var rest := backends[1..];
      ActiveWeight(rest);
      if 0 < backends[0].weight {
        assert Active(backends)[1..] == Active(rest);
      } else {
        assert Active(backends) == Active(rest);
      }
    }
  }

  /** Where a backend of positive weight stands in the table's list, and what stands before. */
  lemma ActivePlace(backends: seq<Backend>, i: nat) returns (k: nat)
    requires i < |backends| && 0 < backends[i].weight
    ensures k == Count(backends[..i], (b: Backend) => 0 < b.weight)
    ensures k < |Active(backends)| && Active(backends)[k] == backends[i]
    ensures WeightBefore(Active(backends), k) == Weight(backends[..i])
  {
    var before, rest := backends[..i], backends[i..];
    ActiveKeeps(before);
    k := |Active(before)|;
    assert backends == before + rest;
    ActiveConcat(before, rest);
    assert Active(rest) == [backends[i]] + Active(rest[1..]);
    assert Active(backends)[..k] == Active(before);
    ActiveWeight(before);
  }

  /** What a backend of weight `w` with `before` ahead of it owns of `m` slots when all weights
      together are `total`. */
  function FairShare(w: nat, before: nat, total: nat, m: nat): int
    requires 0 < w && before + w <= total
  {
    Share(w, before, m / total, m % total)
  }

  /** Whole passes give a backend its weight each, and the last, begun one what is left to it. */
  lemma FairShareInNumbers(w: nat, before: nat, total: nat, m: nat)
    requires 0 < w && before + w <= total
    ensures var (q, r) := (m / total, m % total);
            FairShare(w, before, total, m) ==
            q * w + (if r <= before then 0 else if r < before + w then r - before else w)
  {
  }

  lemma ShareIs(ws: seq<Backend>, m: nat, k: nat, w: nat, total: nat, before: nat)
    requires k < |ws| && 0 < Weight(ws) == total && ws[k].weight == w && WeightBefore(ws, k) == before
    requires 0 < w && before + w <= total
    ensures ShareOf(ws, m, k) == FairShare(w, before, total, m)
  {
  }

  /** The same weights before and in all, without the backends of weight zero. */
  lemma WeightsOf(backends: seq<Backend>, i: nat, k: nat)
    requires i < |backends| && k < |Active(backends)| && Active(backends)[k] == backends[i]
    requires WeightBefore(Active(backends), k) == Weight(backends[..i])
    ensures Weight(Active(backends)) == Weight(backends)
    ensures Weight(backends[..i]) + backends[i].weight <= Weight(backends)
  {
    ActiveWeight(backends);
    WeightSplit(backends, i);
  }

  /** The exact share over the caller's list. With W the sum of its weights and P the sum of
      those before backend `i`, it owns (m div W) * w + min(w, max(0, m mod W - P)) of the m
      slots, whatever the hashes and however many backends without weight are listed. */
  lemma PoolShare(hash: Hasher<Name>, backends: seq<Backend>, m: nat, i: nat) returns (k: nat)
    requires IsPrime(m) && Table(hash, backends, m).Ok? && i < |backends| && 0 < backends[i].weight
    ensures k == Count(backends[..i], (b: Backend) => 0 < b.weight)
    ensures var t := Table(hash, backends, m).table;
            var (w, total, before) := (backends[i].weight, Weight(backends), Weight(backends[..i]));
            && k < |t.backends| && t.backends[k] == backends[i] && before + w <= total
            && multiset(t.entries)[k] == FairShare(w, before, total, m)
  {
    k := ActivePlace(backends, i);
    TableShares(hash, backends, m, k);
    WeightsOf(backends, i, k);
    ShareIs(Active(backends), m, k, backends[i].weight, Weight(backends), Weight(backends[..i]));
  }

  /** A backend owns a slot exactly when the weights before it do not fill the table; with a
      table as large as the sum of the weights every backend of positive weight does. */
  lemma OwnsSlotExactly(hash: Hasher<Name>, backends: seq<Backend>, m: nat, i: nat) returns (k: nat)
    requires IsPrime(m) && Table(hash, backends, m).Ok? && i < |backends| && 0 < backends[i].weight
    ensures var t := Table(hash, backends, m).table;
            k < |t.backends| && t.backends[k] == backends[i] && (k in t.entries <==> Weight(backends[..i]) < m)
    ensures Weight(backends) <= m ==> k in Table(hash, backends, m).table.entries
  {
    k := PoolShare(hash, backends, m, i);
    ShareIsPositiveExactly(backends[i].weight, Weight(backends[..i]), Weight(backends), m);
  }

  lemma ShareIsPositiveExactly(w: nat, before: nat, total: nat, m: nat)
    requires 0 < w && before + w <= total && 0 < m
    ensures 0 < FairShare(w, before, total, m) <==> before < m
  {
    if m < total {
      assert m / total == 0 && m % total == m;
    } else {
      assert 1 <= m / total;
      Scaled(m / total, w);
    }
  }

  // ----- which slots -----

  /** The slot at place `j` in the preference order of a backend. */
  function SlotOf(hash: Hasher<Name>, b: Backend, j: nat, m: nat): nat
    requires 2 <= m
  {
    var name := Name(b.ip, b.port);
    (hash(name, 0) % m + j * (hash(name, 1) % (m - 1) + 1)) % m
  }

  /** It is the turn of backend `i` when the weights before it have had theirs in this pass. */
  predicate HasTurn(ws: seq<Backend>, t: nat, i: nat) {
    && 0 < Weight(ws) && i < |ws|
    && Weight(ws[..i]) <= t % Weight(ws) < Weight(ws[..i]) + ws[i].weight
  }

  /** `c` comes first in the order of `b` among the slots not yet claimed. */
  ghost predicate FirstChoice(hash: Hasher<Name>, b: Backend, claimed: seq<nat>, c: nat, m: nat)
    requires 2 <= m
  {
    && c !in claimed
    && exists j: nat :: j < m && SlotOf(hash, b, j, m) == c && ChoicesGone(hash, b, claimed, j, m)
  }

  predicate ChoicesGone(hash: Hasher<Name>, b: Backend, claimed: seq<nat>, j: nat, m: nat)
    requires 2 <= m
  {
    forall i: nat | i < j :: SlotOf(hash, b, i, m) in claimed
  }

  /** The slots claimed in the first `n` turns, and by whom. */
  ghost predicate Claims(hash: Hasher<Name>, ws: seq<Backend>, m: nat, slots: seq<nat>, owners: seq<nat>)
    requires 2 <= m
  {
    && |owners| == |slots|
    && forall t: nat | t < |slots| :: ClaimAt(hash, ws, m, slots, owners, t)
  }

  ghost predicate ClaimAt(hash: Hasher<Name>, ws: seq<Backend>, m: nat, slots: seq<nat>, owners: seq<nat>, t: nat)
    requires 2 <= m && t < |slots| == |owners|
  {
    && slots[t] < m && HasTurn(ws, t, owners[t])
    && FirstChoice(hash, ws[owners[t]], slots[..t], slots[t], m)
  }

  /** The board holds exactly these claims. */
  ghost predicate Holds(b: Board, slots: seq<nat>, owners: seq<nat>) {
    && |owners| == |slots|
    && (forall t: nat | t < |slots| :: slots[t] < |b| && b[slots[t]] == Some(owners[t]))
    && (forall c: nat | c < |b| && b[c].Some? :: c in slots)
  }

  lemma ClaimsNext(hash: Hasher<Name>, ws: seq<Backend>, m: nat, slots: seq<nat>, owners: seq<nat>, c: nat, i: nat)
    requires 2 <= m && Claims(hash, ws, m, slots, owners)
    requires c < m && HasTurn(ws, |slots|, i) && FirstChoice(hash, ws[i], slots, c, m)
    ensures Claims(hash, ws, m, slots + [c], owners + [i])
  {
    var s, o := slots + [c], owners + [i];
    forall t: nat | t < |s|
      ensures ClaimAt(hash, ws, m, s, o, t)
    {
      if t < |slots| {
        assert ClaimAt(hash, ws, m, slots, owners, t);
        assert s[..t] == slots[..t];
      } else {
        assert s[..t] == slots;
      }
    }
  }

  lemma PickIsFirstChoice(hash: Hasher<Name>, ws: seq<Backend>, m: nat, b: Board, i: nat, c: nat, j: nat,
                          slots: seq<nat>, owners: seq<nat>)
    requires 2 <= m == |b| && i < |ws| && FirstFreeAt(b, Orders(hash, ws, m)[i], c, j) && Holds(b, slots, owners)
    ensures FirstChoice(hash, ws[i], slots, c, m)
  {
    var o := Orders(hash, ws, m)[i];
    forall x: nat | x < j
      ensures SlotOf(hash, ws[i], x, m) in slots
    {
      assert b[Pref(o, x, m)].Some?;
    }
    assert SlotOf(hash, ws[i], j, m) == c && ChoicesGone(hash, ws[i], slots, j, m);
  }

  /** The draft after `n` turns, told as claims. */
  ghost predicate Told(hash: Hasher<Name>, ws: seq<Backend>, m: nat, n: nat, slots: seq<nat>, owners: seq<nat>)
    requires IsPrime(m) && 0 < Weight(ws) && n <= m
  {
    && |slots| == n && Claims(hash, ws, m, slots, owners)
    && Holds(Draft(ws, Orders(hash, ws, m), m, n), slots, owners)
  }

  lemma NothingTold(hash: Hasher<Name>, ws: seq<Backend>, m: nat)
    requires IsPrime(m) && 0 < Weight(ws)
    ensures Told(hash, ws, m, 0, [], [])
  {
  }

  lemma HoldsNext(b: Board, slots: seq<nat>, owners: seq<nat>, c: nat, i: nat)
    requires Holds(b, slots, owners) && c < |b| && c !in slots
    ensures Holds(b[c := Some(i)], slots + [c], owners + [i])
  {
  }

  /** One more pick of the draft. */
  lemma TellNext(hash: Hasher<Name>, ws: seq<Backend>, m: nat, n: nat, slots: seq<nat>, owners: seq<nat>)
    returns (c: nat, i: nat)
    requires IsPrime(m) && 0 < Weight(ws) && n < m && Told(hash, ws, m, n, slots, owners)
    ensures Told(hash, ws, m, n + 1, slots + [c], owners + [i])
  {
    var orders := Orders(hash, ws, m);
    var b := Draft(ws, orders, m, n);
    var j;
    c, j := PickIsFirstFree(ws, orders, m, n);
    i := Turn(ws, n);
    OwnerAtIs(ws, n % Weight(ws), i);
    PickIsFirstChoice(hash, ws, m, b, i, c, j, slots, owners);
    ClaimsNext(hash, ws, m, slots, owners, c, i);
    HoldsNext(b, slots, owners, c, i);
  }

  lemma {:induction false} DraftClaims(hash: Hasher<Name>, ws: seq<Backend>, m: nat, n: nat)
    returns (slots: seq<nat>, owners: seq<nat>)
    requires IsPrime(m) && 0 < Weight(ws) && n <= m
    ensures Told(hash, ws, m, n, slots, owners)
  {
    if n == 0 {
      slots, owners := [], [];
      NothingTold(hash, ws, m);
    } else {
      slots, owners := DraftClaims(hash, ws, m, n - 1);
      var c, i := TellNext(hash, ws, m, n - 1, slots, owners);
      slots, owners := slots + [c], owners + [i];
    }
  }

  /** What a table is, turn by turn, without the build: in turn number t the backend whose
      turn it is, as many turns running as its weight, claims the first slot of its own
      preference order that none has claimed, and after m turns the table says who did. */
  lemma TableByTurns(hash: Hasher<Name>, backends: seq<Backend>, m: nat) returns (slots: seq<nat>, owners: seq<nat>)
    requires IsPrime(m) && Table(hash, backends, m).Ok?
    ensures var t := Table(hash, backends, m).table;
            && |slots| == |t.entries| == m && Claims(hash, t.backends, m, slots, owners)
            && forall n: nat | n < m :: slots[n] < m && t.entries[slots[n]] == owners[n]
  {
    var ws := Active(backends);
    var t := Table(hash, backends, m).table;
    TableIsDraft(hash, backends, m);
    slots, owners := DraftClaims(hash, ws, m, m);
    forall n: nat | n < m
      ensures slots[n] < m && t.entries[slots[n]] == owners[n]
    {
      assert ClaimAt(hash, ws, m, slots, owners, n);
    }
  }

  // ----- which slot a flow reads -----

  /** Any m consecutive hashes that start at a multiple of m read every slot once, in order. */
  lemma EverySlotIsRead(t: LookupTable, q: nat, c: nat)
    requires t.entries != [] && (forall e | e in t.entries :: e < |t.backends|) && c < |t.entries|
    ensures t.entries[c] in t.entries && Lookup(t, q * |t.entries| + c) == t.backends[t.entries[c]]
  {
    DivModUnique(q * |t.entries| + c, |t.entries|, q, c);
  }
}
