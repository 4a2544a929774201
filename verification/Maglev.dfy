/**
 The Maglev lookup table: backends take turns, as many per pass as their weight, and at
 each turn claim the first slot still free in their preference order.
 */
module Maglev {
  import opened Common
  import opened Permutation
  import opened Arithmetic

  /** The hash input of a backend: address and port, as `ip:port`. */
  datatype Name = Name(ip: Ip, port: uint16)

  datatype LookupTable = LookupTable(entries: seq<nat>, backends: seq<Backend>)

  datatype BuildResult = Ok(table: LookupTable) | Err

  /** The backends with positive weight, in order. */
  function Active(backends: seq<Backend>): (r: seq<Backend>)
    ensures forall b | b in r :: b in backends && 0 < b.weight
    ensures r == [] <==> forall b | b in backends :: b.weight == 0
  {
    if backends == [] then []
    else (if 0 < backends[0].weight then [backends[0]] else []) + Active(backends[1..])
  }

  function Weight(ws: seq<Backend>): nat {
    if ws == [] then 0 else ws[0].weight + Weight(ws[1..])
  }

  /** The weight before backend `i`. */
  function WeightBefore(ws: seq<Backend>, i: nat): nat
    requires i <= |ws|
  {
    Weight(ws[..i])
  }

  /** The backend whose turn comes at place `x` of a pass. */
  function OwnerAt(ws: seq<Backend>, x: nat): (i: nat)
    requires x < Weight(ws)
    ensures i < |ws|
  {
    if x < ws[0].weight then 0 else 1 + OwnerAt(ws[1..], x - ws[0].weight)
  }

  /** The backend that makes pick number `t`. */
  function Turn(ws: seq<Backend>, t: nat): (i: nat)
    requires 0 < Weight(ws)
    ensures i < |ws|
  {
    OwnerAt(ws, t % Weight(ws))
  }

  lemma {:induction false} WeightSplit(ws: seq<Backend>, i: nat)
    requires i < |ws|
    ensures WeightBefore(ws, i + 1) == WeightBefore(ws, i) + ws[i].weight <= Weight(ws)
  {
    if i == 0 {
      assert ws[..1][1..] == [] && ws[..0] == [];
      assert Weight(ws[..1]) == ws[0].weight + Weight(ws[..1][1..]);
    } else {
      var rest := ws[1..];
      WeightSplit(rest, i - 1);
      assert ws[..i][1..] == rest[..i - 1] && ws[..i + 1][1..] == rest[..i];
    }
  }

  /** A pass gives each backend a run of consecutive turns as long as its weight. */
  lemma {:induction false} OwnerAtIs(ws: seq<Backend>, x: nat, i: nat)
    requires x < Weight(ws) && i < |ws|
    ensures OwnerAt(ws, x) == i <==> WeightBefore(ws, i) <= x < WeightBefore(ws, i) + ws[i].weight
  {
    var rest := ws[1..];
    if i == 0 {
      assert ws[..0] == [];
    } else {
      assert ws[..i][1..] == rest[..i - 1];
      if ws[0].weight <= x {
        OwnerAtIs(rest, x - ws[0].weight, i - 1);
      }
    }
  }

  // ----- the draft -----

  /** How many of the first `n` turns are those of backend `i`. */
  function TurnsOf(ws: seq<Backend>, i: nat, n: nat): nat
    requires 0 < Weight(ws)
  {
    if n == 0 then 0 else TurnsOf(ws, i, n - 1) + (if Turn(ws, n - 1) == i then 1 else 0)
  }

  type Board = seq<Option<nat>>

  /** How many slots are free. */
  function Free(b: Board): nat {
    multiset(b)[None]
  }

  /** How many slots backend `i` owns. */
  function Owned(b: Board, i: nat): nat {
    multiset(b)[Some(i)]
  }

  lemma ClaimCounts(b: Board, c: nat, i: nat)
    requires c < |b| && b[c].None?
    ensures Free(b[c := Some(i)]) == Free(b) - 1
    ensures forall k: nat :: Owned(b[c := Some(i)], k) == Owned(b, k) + (if k == i then 1 else 0)
  {
    assert b == b[..c] + [b[c]] + b[c + 1..];
    assert b[c := Some(i)] == b[..c] + [Some(i)] + b[c + 1..];
  }

  /** `c` is the first slot still free in the preference order `o`, at place `j`. */
  predicate FirstFreeAt(b: Board, o: Order, c: nat, j: nat) {
    && c < |b| && j < |b| && c == Pref(o, j, |b|) && b[c].None?
    && forall i: nat | i < j :: b[Pref(o, i, |b|)].Some?
  }

  /** The search from place `j` on. */
  function FirstFree(b: Board, o: Order, j: nat): (c: nat)
    requires j < |b| && exists i: nat :: j <= i < |b| && b[Pref(o, i, |b|)].None?
    ensures c < |b| && b[c].None?
    decreases |b| - j
  {
    if b[Pref(o, j, |b|)].None? then Pref(o, j, |b|) else FirstFree(b, o, j + 1)
  }

  lemma {:induction false} FirstFreeIs(b: Board, o: Order, c: nat, j: nat, from: nat)
    requires FirstFreeAt(b, o, c, j) && from <= j
    ensures FirstFree(b, o, from) == c
    decreases j - from
  {
    assert b[Pref(o, j, |b|)].None?;
    if from < j {
      FirstFreeIs(b, o, c, j, from + 1);
    }
  }

  /** As long as a slot is free, every backend still has one in its preference order. */
  lemma FreeSlotAhead(b: Board, o: Order)
    requires IsPrime(|b|) && 1 <= o.skip < |b| && 0 < Free(b)
    ensures exists j: nat :: j < |b| && b[Pref(o, j, |b|)].None?
  {
    assert None in b;
    var c: nat :| c < |b| && b[c].None?;
    var j := PrefBijective(o, c, |b|);
  }

  predicate ValidOrders(ws: seq<Backend>, orders: seq<Order>, m: nat) {
    |orders| == |ws| && forall i | 0 <= i < |orders| :: 1 <= orders[i].skip < m
  }

  lemma {:induction false} EmptyBoard(b: Board)
    requires forall c: nat | c < |b| :: b[c].None?
    ensures Free(b) == |b| && forall i: nat :: Owned(b, i) == 0
  {
    if b != [] {
      EmptyBoard(b[1..]);
      assert b == [b[0]] + b[1..];
    }
  }

  /** Backend `i` claims the first slot still free in its preference order `o`. */
  function Pick(b: Board, o: Order, i: nat): (r: Board)
    requires IsPrime(|b|) && 1 <= o.skip < |b| && 0 < Free(b)
    ensures |r| == |b| && Free(r) == Free(b) - 1
    ensures forall k: nat :: Owned(r, k) == Owned(b, k) + (if k == i then 1 else 0)
  {
    FreeSlotAhead(b, o);
    var c := FirstFree(b, o, 0);
    ClaimCounts(b, c, i);
    b[c := Some(i)]
  }

  /** The board after `n` picks, each by the backend whose turn it is. */
  function Draft(ws: seq<Backend>, orders: seq<Order>, m: nat, n: nat): (b: Board)
    requires IsPrime(m) && 0 < Weight(ws) && ValidOrders(ws, orders, m) && n <= m
    ensures |b| == m && Free(b) == m - n
    ensures forall i: nat :: Owned(b, i) == TurnsOf(ws, i, n)
  {
    if n == 0 then
      var b: Board := seq(m, _ => None);
      EmptyBoard(b);
      b
    else
      var i := Turn(ws, n - 1);
      Pick(Draft(ws, orders, m, n - 1), orders[i], i)
  }

  lemma {:induction false} OwnersExist(ws: seq<Backend>, orders: seq<Order>, m: nat, n: nat, c: nat)
    requires IsPrime(m) && 0 < Weight(ws) && ValidOrders(ws, orders, m) && n <= m && c < m
    ensures var b := Draft(ws, orders, m, n);
            b[c].Some? ==> b[c].value < |ws|
  {
    if 0 < n {
      OwnersExist(ws, orders, m, n - 1, c);
    }
  }

  // ----- exact shares -----

  function Min(a: int, b: int): int {
    if a < b then a else b
  }

  function Max(a: int, b: int): int {
    if a < b then b else a
  }

  /** The share of a backend of weight `w` with `before` ahead of it after `q` full
      passes and `r` turns of the next one. */
  function Share(w: nat, before: nat, q: nat, r: nat): int {
    q * w + Min(w, Max(0, r - before))
  }

  lemma NextPass(pass: nat, w: nat)
    ensures (pass + 1) * w == pass * w + w
  {
  }

  lemma ShareGrows(w: nat, before: nat, q: nat, r: nat, total: nat)
    requires r < total && before + w <= total
    ensures (if r + 1 < total then Share(w, before, q, r + 1) else Share(w, before, q + 1, 0)) ==
            Share(w, before, q, r) + (if before <= r < before + w then 1 else 0)
  {
    NextPass(q, w);
  }

  lemma TurnOfPass(ws: seq<Backend>, i: nat, q: nat, r: nat, t: nat)
    requires i < |ws| && r < Weight(ws) && t == q * Weight(ws) + r
    ensures Turn(ws, t) == i <==> WeightBefore(ws, i) <= r < WeightBefore(ws, i) + ws[i].weight
  {
    DivModUnique(t, Weight(ws), q, r);
    OwnerAtIs(ws, r, i);
  }

  /** After `q` passes and `r` turns each backend has had its share of turns. */
  lemma {:induction false} TurnsAreShare(ws: seq<Backend>, i: nat, q: nat, r: nat, n: nat)
    requires i < |ws| && r < Weight(ws) && n == q * Weight(ws) + r
    ensures TurnsOf(ws, i, n) == Share(ws[i].weight, WeightBefore(ws, i), q, r)
    decreases n
  {
    var w, before, total := ws[i].weight, WeightBefore(ws, i), Weight(ws);
    WeightSplit(ws, i);
    if 0 < r {
      TurnsAreShare(ws, i, q, r - 1, n - 1);
      TurnOfPass(ws, i, q, r - 1, n - 1);
      ShareGrows(w, before, q, r - 1, total);
    } else if 0 < q {
      NextPass(q - 1, total);
      TurnsAreShare(ws, i, q - 1, total - 1, n - 1);
      TurnOfPass(ws, i, q - 1, total - 1, n - 1);
      ShareGrows(w, before, q - 1, total - 1, total);
    }
  }

  /** With W the total weight, q = m div W, r = m mod W and P_i the weight before backend
      `i`: q * w_i + min(w_i, max(0, r - P_i)). */
  function ShareOf(ws: seq<Backend>, m: nat, i: nat): int
    requires 0 < Weight(ws) && i < |ws|
  {
    (m / Weight(ws)) * ws[i].weight + Min(ws[i].weight, Max(0, m % Weight(ws) - WeightBefore(ws, i)))
  }

  lemma TurnsExact(ws: seq<Backend>, i: nat, n: nat)
    requires 0 < Weight(ws) && i < |ws|
    ensures TurnsOf(ws, i, n) == ShareOf(ws, n, i)
  {
    TurnsAreShare(ws, i, n / Weight(ws), n % Weight(ws), n);
  }

  /** The exact Maglev share: of the m slots backend `i` owns `ShareOf(ws, m, i)`, whatever
      the hashes are. */
  lemma ExactShare(ws: seq<Backend>, orders: seq<Order>, m: nat, i: nat)
    requires IsPrime(m) && 0 < Weight(ws) && ValidOrders(ws, orders, m) && i < |ws|
    ensures Owned(Draft(ws, orders, m, m), i) == ShareOf(ws, m, i)
  {
    TurnsExact(ws, i, m);
  }

  /** With equal weights one, any two shares differ by one slot at most. */
  lemma EqualWeightsEvenShares(ws: seq<Backend>, orders: seq<Order>, m: nat, i: nat, j: nat)
    requires IsPrime(m) && 0 < Weight(ws) && ValidOrders(ws, orders, m) && i < |ws| && j < |ws|
    requires forall k | 0 <= k < |ws| :: ws[k].weight == 1
    ensures -1 <= Owned(Draft(ws, orders, m, m), i) - Owned(Draft(ws, orders, m, m), j) <= 1
  {
    ExactShare(ws, orders, m, i);
    ExactShare(ws, orders, m, j);
  }

  /** Each pick goes to the first slot still free in the owner's preference order, and
      stays there. */
  lemma PickIsFirstFree(ws: seq<Backend>, orders: seq<Order>, m: nat, n: nat) returns (c: nat, j: nat)
    requires IsPrime(m) && 0 < Weight(ws) && ValidOrders(ws, orders, m) && n < m
    ensures var before, after := Draft(ws, orders, m, n), Draft(ws, orders, m, n + 1);
            var i := Turn(ws, n);
            FirstFreeAt(before, orders[i], c, j) && after == before[c := Some(i)]
  {
    var b := Draft(ws, orders, m, n);
    var o := orders[Turn(ws, n)];
    FreeSlotAhead(b, o);
    j := 0;
    while b[Pref(o, j, m)].Some?
      invariant j < m
      invariant forall i: nat | i < j :: b[Pref(o, i, m)].Some?
      decreases m - j
    {
      j := j + 1;
    }
    c := Pref(o, j, m);
    FirstFreeIs(b, o, c, j, 0);
  }

  // ----- the table and its lookup -----

  function Orders(hash: Hasher<Name>, ws: seq<Backend>, m: nat): (r: seq<Order>)
    requires 2 <= m
    ensures ValidOrders(ws, r, m)
  {
    seq(|ws|, i requires 0 <= i < |ws| => OrderOf(hash, Name(ws[i].ip, ws[i].port), m))
  }

  lemma {:induction false} ActiveWeigh(backends: seq<Backend>)
    ensures Active(backends) != [] ==> 0 < Weight(Active(backends))
  {
  }

  /** What `build` computes, turn by turn; nothing when no backend has a weight. */
  function Table(hash: Hasher<Name>, backends: seq<Backend>, m: nat): (r: BuildResult)
    requires IsPrime(m)
    ensures r.Err? <==> forall b | b in backends :: b.weight == 0
  {
    var ws := Active(backends);
    if ws == [] then Err
    else
      ActiveWeigh(backends);
      var b := Draft(ws, Orders(hash, ws, m), m, m);
      assert forall c: nat | c < m :: b[c] in multiset(b);
      Ok(LookupTable(seq(m, c requires 0 <= c < m => b[c].value), ws))
  }

  /** Total over flow hashes: every slot of a built table holds a backend of the pool
      that takes traffic. */
  function Lookup(t: LookupTable, hash: nat): (b: Backend)
    requires t.entries != [] && forall e | e in t.entries :: e < |t.backends|
    ensures b in t.backends
  {
    var e := t.entries[hash % |t.entries|];
    assert e in t.entries;
    t.backends[e]
  }

  lemma {:induction false} EntriesOwned(b: Board, entries: seq<nat>, i: nat)
    requires |b| == |entries| && forall c: nat | c < |b| :: b[c] == Some(entries[c])
    ensures multiset(entries)[i] == Owned(b, i)
  {
    if b != [] {
      EntriesOwned(b[1..], entries[1..], i);
      assert b == [b[0]] + b[1..] && entries == [entries[0]] + entries[1..];
    }
  }

  /** A built table is the full board of the draft. */
  lemma TableIsDraft(hash: Hasher<Name>, backends: seq<Backend>, m: nat)
    requires IsPrime(m) && Table(hash, backends, m).Ok?
    ensures var t := Table(hash, backends, m).table;
            var ws := Active(backends);
            && 0 < Weight(ws) && t.backends == ws && |t.entries| == m
            && forall c: nat | c < m :: Draft(ws, Orders(hash, ws, m), m, m)[c] == Some(t.entries[c])
  {
    var ws := Active(backends);
    ActiveWeigh(backends);
    var b := Draft(ws, Orders(hash, ws, m), m, m);
    assert forall c: nat | c < m :: b[c] in multiset(b);
  }

  /** The shares of a built table, in the terms of its caller. */
  lemma TableShares(hash: Hasher<Name>, backends: seq<Backend>, m: nat, i: nat)
    requires IsPrime(m) && Table(hash, backends, m).Ok? && i < |Active(backends)|
    ensures var t := Table(hash, backends, m).table;
            var ws := Active(backends);
            && t.backends == ws && 0 < Weight(ws)
            && multiset(t.entries)[i] == ShareOf(ws, m, i)
  {
    var ws := Active(backends);
    TableIsDraft(hash, backends, m);
    EntriesOwned(Draft(ws, Orders(hash, ws, m), m, m), Table(hash, backends, m).table.entries, i);
    ExactShare(ws, Orders(hash, ws, m), m, i);
  }

  lemma TableIsUsable(hash: Hasher<Name>, backends: seq<Backend>, m: nat, flow: nat)
    requires IsPrime(m) && Table(hash, backends, m).Ok?
    ensures var t := Table(hash, backends, m).table;
            && |t.entries| == m && (forall e | e in t.entries :: e < |t.backends|)
            && Lookup(t, flow) in backends && 0 < Lookup(t, flow).weight
  {
    var ws := Active(backends);
    var t := Table(hash, backends, m).table;
    TableIsDraft(hash, backends, m);
    forall c | 0 <= c < m
      ensures t.entries[c] < |t.backends|
    {
      OwnersExist(ws, Orders(hash, ws, m), m, m, c);
    }
  }

  /** Each backend has come `next` places far in its order, and all those are taken. */
  predicate AllSkipped(b: Board, orders: seq<Order>, next: seq<nat>) {
    && |next| == |orders|
    && (forall k | 0 <= k < |next| :: next[k] <= |b|)
    && (forall k, j: nat | 0 <= k < |next| && j < next[k] :: Taken(b, orders[k], j))
  }

  predicate Taken(b: Board, o: Order, j: nat) {
    j < |b| && b[Pref(o, j, |b|)].Some?
  }

  lemma ClaimSkips(b: Board, orders: seq<Order>, next: seq<nat>, i: nat, c: nat)
    requires AllSkipped(b, orders, next) && i < |next| && next[i] < |b| && c == Pref(orders[i], next[i], |b|)
    ensures AllSkipped(b[c := Some(i)], orders, next[i := next[i] + 1])
  {
    var b', next' := b[c := Some(i)], next[i := next[i] + 1];
    forall k, j: nat | 0 <= k < |next| && j < next'[k]
      ensures Taken(b', orders[k], j)
    {
      assert j < next[k] ==> Taken(b, orders[k], j);
    }
  }

  lemma SkipTaken(b: Board, orders: seq<Order>, next: seq<nat>, i: nat)
    requires AllSkipped(b, orders, next) && i < |next| && Taken(b, orders[i], next[i])
    ensures AllSkipped(b, orders, next[i := next[i] + 1])
  {
    var next' := next[i := next[i] + 1];
    forall k, j: nat | 0 <= k < |next| && j < next'[k]
      ensures Taken(b, orders[k], j)
    {
      assert j < next[k] ==> Taken(b, orders[k], j);
    }
  }

  lemma FreeIsAhead(b: Board, orders: seq<Order>, next: seq<nat>, i: nat, j: nat)
    requires AllSkipped(b, orders, next) && i < |next| && j < |b| && b[Pref(orders[i], j, |b|)].None?
    ensures next[i] <= j
  {
    assert j < next[i] ==> Taken(b, orders[i], j);
  }

  lemma PickIs(ws: seq<Backend>, orders: seq<Order>, m: nat, n: nat, next: seq<nat>, c: nat)
    requires IsPrime(m) && 0 < Weight(ws) && ValidOrders(ws, orders, m) && n < m
    requires var b := Draft(ws, orders, m, n);
             var i := Turn(ws, n);
             AllSkipped(b, orders, next) && next[i] < m && c == Pref(orders[i], next[i], m) && b[c].None?
    ensures Draft(ws, orders, m, n + 1) == Draft(ws, orders, m, n)[c := Some(Turn(ws, n))]
  {
    var b := Draft(ws, orders, m, n);
    var i := Turn(ws, n);
    forall j: nat | j < next[i]
      ensures b[Pref(orders[i], j, m)].Some?
    {
      assert Taken(b, orders[i], j);
    }
    FirstFreeIs(b, orders[i], c, next[i], 0);
  }

  /** In pass number `pass` backend `i` uses its chances at consecutive turns. */
  lemma TurnAt(ws: seq<Backend>, pass: nat, base: nat, i: nat, t: nat)
    requires i < |ws| && base == pass * Weight(ws)
    requires base + WeightBefore(ws, i) <= t < base + WeightBefore(ws, i) + ws[i].weight
    ensures 0 < Weight(ws) && Turn(ws, t) == i
  {
    WeightSplit(ws, i);
    var x := t - base;
    DivModUnique(t, Weight(ws), pass, x);
    OwnerAtIs(ws, x, i);
  }

  /** The board is the draft's after `filled` picks, and the backends know how far they are. */
  ghost predicate Underway(active: seq<Backend>, params: seq<Order>, board: Board, next: seq<nat>, filled: nat) {
    && IsPrime(|board|) && 0 < Weight(active) && ValidOrders(active, params, |board|) && filled <= |board|
    && board == Draft(active, params, |board|, filled)
    && AllSkipped(board, params, next)
  }

  /** The place of backend `i` lies before some free slot. */
  lemma SearchEnds(active: seq<Backend>, params: seq<Order>, board: Board, next: seq<nat>, filled: nat, i: nat)
    returns (ahead: nat)
    requires Underway(active, params, board, next, filled) && filled < |board| && i < |next|
    ensures next[i] <= ahead < |board| && board[Pref(params[i], ahead, |board|)].None?
  {
    FreeSlotAhead(board, params[i]);
    ahead :| ahead < |board| && board[Pref(params[i], ahead, |board|)].None?;
    FreeIsAhead(board, params, next, i, ahead);
  }

  lemma SearchGoesOn(active: seq<Backend>, params: seq<Order>, board: Board, next: seq<nat>, filled: nat, i: nat)
    requires Underway(active, params, board, next, filled) && i < |next| && Taken(board, params[i], next[i])
    ensures Underway(active, params, board, next[i := next[i] + 1], filled)
  {
    SkipTaken(board, params, next, i);
  }

  lemma SearchFound(active: seq<Backend>, params: seq<Order>, board: Board, next: seq<nat>, filled: nat, i: nat, c: nat)
    requires Underway(active, params, board, next, filled) && filled < |board| && i == Turn(active, filled)
    requires next[i] < |board| && c == Pref(params[i], next[i], |board|) && board[c].None?
    ensures Underway(active, params, board[c := Some(i)], next[i := next[i] + 1], filled + 1)
  {
    PickIs(active, params, |board|, filled, next, c);
    ClaimSkips(board, params, next, i, c);
  }

  /** Search on from where backend `i` stopped, up to a free slot. */
  method Search(ghost active: seq<Backend>, params: seq<Order>, i: nat,
                entries: array<Option<nat>>, next: array<nat>, ghost filled: nat) returns (c: nat)
    requires Underway(active, params, entries[..], next[..], filled)
    requires filled < entries.Length && i < next.Length && i < |params|
    modifies next
    ensures Underway(active, params, entries[..], next[..], filled)
    ensures next[i] < entries.Length && c == Pref(params[i], next[i], entries.Length) && entries[c].None?
  {
    var m := entries.Length;
    ghost var board := entries[..];
    ghost var ahead := SearchEnds(active, params, board, next[..], filled, i);
    c := Pref(params[i], next[i], m);
    while entries[c].Some?
      invariant next[i] <= ahead && c == Pref(params[i], next[i], m)
      invariant Underway(active, params, board, next[..], filled)
      decreases ahead - next[i]
    {
      ghost var places := next[..];
      SearchGoesOn(active, params, board, places, filled, i);
      next[i] := next[i] + 1;
      assert next[..] == places[i := places[i] + 1];
      c := Pref(params[i], next[i], m);
    }
  }

  /** One chance of backend `i`: search on from where it stopped, claim, step past. */
  method Claim(ghost active: seq<Backend>, params: seq<Order>, i: nat,
               entries: array<Option<nat>>, next: array<nat>, ghost filled: nat)
    requires Underway(active, params, entries[..], next[..], filled)
    requires filled < entries.Length && i < next.Length && i == Turn(active, filled)
    modifies entries, next
    ensures Underway(active, params, entries[..], next[..], filled + 1)
  {
    var c := Search(active, params, i, entries, next, filled);
    ghost var board, places := entries[..], next[..];
    SearchFound(active, params, board, places, filled, i, c);
    entries[c] := Some(i);
    assert entries[..] == board[c := Some(i)];
    next[i] := next[i] + 1;
    assert next[..] == places[i := places[i] + 1];
  }

  /** The turns from number `start` on are those of backend `i`, as many as its weight. */
  predicate OwnTurns(active: seq<Backend>, i: nat, start: nat)
    requires i < |active|
  {
    && 0 < Weight(active)
    && forall t: nat | start <= t < start + active[i].weight :: Turn(active, t) == i
  }

  lemma OwnTurn(active: seq<Backend>, i: nat, start: nat, t: nat)
    requires i < |active| && OwnTurns(active, i, start) && start <= t < start + active[i].weight
    ensures Turn(active, t) == i
  {
  }

  /** The chances of backend `i` in one pass, cut short when the board is full. */
  method TakeChances(active: seq<Backend>, params: seq<Order>, i: nat, entries: array<Option<nat>>, next: array<nat>,
                     start: nat) returns (filled: nat)
    requires Underway(active, params, entries[..], next[..], start) && i < |active| && start < entries.Length
    requires OwnTurns(active, i, start)
    modifies entries, next
    ensures Underway(active, params, entries[..], next[..], filled)
    ensures filled < entries.Length ==> filled == start + active[i].weight
  {
    filled := start;
    while filled < start + active[i].weight && filled < entries.Length
      invariant start <= filled <= start + active[i].weight && filled <= entries.Length
      invariant Underway(active, params, entries[..], next[..], filled)
    {
      OwnTurn(active, i, start, filled);
      Claim(active, params, i, entries, next, filled);
      filled := filled + 1;
    }
  }

  /** Passes over the backends until the board is full. */
  method Fill(active: seq<Backend>, params: seq<Order>, entries: array<Option<nat>>, next: array<nat>)
    requires Underway(active, params, entries[..], next[..], 0)
    modifies entries, next
    ensures Underway(active, params, entries[..], next[..], entries.Length)
  {
    ghost var pass, base := 0, 0;
    var filled: nat := 0;
    label outer:
    while true
      invariant filled == base == pass * Weight(active) && base < entries.Length
      invariant Underway(active, params, entries[..], next[..], filled)
      decreases entries.Length - filled
    {
      for i := 0 to |active|
        invariant filled == base + WeightBefore(active, i) < entries.Length
        invariant Underway(active, params, entries[..], next[..], filled)
      {
        WeightSplit(active, i);
        forall t: nat | filled <= t < filled + active[i].weight
          ensures Turn(active, t) == i
        {
          TurnAt(active, pass, base, i, t);
        }
        filled := TakeChances(active, params, i, entries, next, filled);
        if filled == entries.Length {
          break outer;
        }
      }
      assert active[..|active|] == active;
      NextPass(pass, Weight(active));
      pass, base := pass + 1, base + Weight(active);
    }
  }

  /** The build as the program does it: each backend remembers in `next` how far it has
      come in its order. The inner search always ends on a free slot, the build ends with
      every slot claimed, and the table is the one the turn-by-turn draft defines. */
  method Build(hash: Hasher<Name>, backends: seq<Backend>, m: nat) returns (r: BuildResult)
    requires IsPrime(m)
    ensures r == Table(hash, backends, m)
  {
    var active := Active(backends);
    if active == [] {
      return Err;
    }
    var entries := new Option<nat>[m](_ => None);
    var params := Orders(hash, active, m);
    var next := new nat[|active|](_ => 0);
    ActiveWeigh(backends);
    assert entries[..] == Draft(active, params, m, 0);
    Fill(active, params, entries, next);
    var board := entries[..];
    assert forall c: nat | c < m :: board[c] in multiset(board);
    return Ok(LookupTable(seq(m, c requires 0 <= c < m => board[c].value), active));
  }
}
