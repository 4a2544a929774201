/**
 The preference order of a backend over the slots of a Maglev table: the sequence
 (offset + j * skip) mod m. When m is prime it visits every slot exactly once.
 */
module Permutation {
  import opened Arithmetic

  ghost predicate IsPrime(m: nat) {
    2 <= m && forall d: nat | 2 <= d < m :: m % d != 0
  }

  /** xxh3 of a backend's name under a seed; nothing is assumed about its values. */
  type Hasher<!N> = (N, nat) -> nat

  datatype Order = Order(offset: nat, skip: nat)

  /** Offset and skip as derived from the two hashes of the name. */
  function OrderOf<N>(hash: Hasher<N>, name: N, m: nat): (r: Order)
    requires 2 <= m
    ensures r.offset < m && 1 <= r.skip < m
  {
    Order(hash(name, 0) % m, hash(name, 1) % (m - 1) + 1)
  }

  /** The `j`-th slot in the preference order. */
  function Pref(o: Order, j: nat, m: nat): (c: nat)
    requires 0 < m
    ensures c < m
  {
    (o.offset + j * o.skip) % m
  }

  lemma MultipleMod(q: int, m: nat)
    requires 0 < m
    ensures (q * m) % m == 0
  {
    var z := q * m;
    var d := q - z / m;
    assert z == (z / m) * m + z % m;
    assert d * m == z % m;
    Scaled(d, m);
    Scaled(-d, m);
  }

  lemma ZeroModMultiple(z: int, m: nat) returns (q: int)
    requires 0 < m && z % m == 0
    ensures z == q * m
  {
    q := z / m;
  }

  /** Euclid's lemma for the case needed: a prime divides no product of two positive
      numbers below it. The second factor is replaced by the remainder of m by it. */
  lemma {:induction false} NoZeroProduct(m: nat, d: nat, s: nat)
    requires IsPrime(m) && 0 < d < m && 0 < s < m
    ensures (d * s) % m != 0
    decreases s
  {
    if s > 1 && (d * s) % m == 0 {
      var k := ZeroModMultiple(d * s, m);
      var q, r := m / s, m % s;
      assert 0 < r < s;
      calc {
        d * r;
        d * (m - q * s);
        d * m - q * (d * s);
        d * m - q * (k * m);
        (d - q * k) * m;
      }
      MultipleMod(d - q * k, m);
      NoZeroProduct(m, d, r);
    }
  }

  lemma SameMod(x: nat, y: nat, m: nat) returns (q: int)
    requires 0 < m && x % m == y % m
    ensures y - x == q * m
  {
    q := y / m - x / m;
  }

  lemma PrefInjective(o: Order, i: nat, j: nat, m: nat)
    requires IsPrime(m) && 1 <= o.skip < m && i < j < m
    ensures Pref(o, i, m) != Pref(o, j, m)
  {
    if Pref(o, i, m) == Pref(o, j, m) {
      var q := SameMod(o.offset + i * o.skip, o.offset + j * o.skip, m);
      assert (j - i) * o.skip == q * m;
      MultipleMod(q, m);
      NoZeroProduct(m, j - i, o.skip);
    }
  }

  ghost function Visited(o: Order, n: nat, m: nat): set<nat>
    requires 0 < m
  {
    if n == 0 then {} else Visited(o, n - 1, m) + {Pref(o, n - 1, m)}
  }

  lemma {:induction false} VisitedIs(o: Order, n: nat, m: nat, c: nat)
    requires 0 < m
    ensures c in Visited(o, n, m) <==> exists j: nat :: j < n && Pref(o, j, m) == c
  {
    if n > 0 {
      VisitedIs(o, n - 1, m, c);
      if c == Pref(o, n - 1, m) {
        assert n - 1 < n && Pref(o, n - 1, m) == c;
      }
    }
  }

  lemma {:induction false} VisitedExactly(o: Order, n: nat, m: nat)
    requires IsPrime(m) && 1 <= o.skip < m && n <= m
    ensures |Visited(o, n, m)| == n
    ensures forall c: nat :: c in Visited(o, n, m) <==> exists j: nat :: j < n && Pref(o, j, m) == c
  {
    forall c: nat
      ensures c in Visited(o, n, m) <==> exists j: nat :: j < n && Pref(o, j, m) == c
    {
      VisitedIs(o, n, m, c);
    }
    VisitedSize(o, n, m);
  }

  lemma {:induction false} VisitedSize(o: Order, n: nat, m: nat)
    requires IsPrime(m) && 1 <= o.skip < m && n <= m
    ensures |Visited(o, n, m)| == n
  {
    if n > 0 {
      VisitedSize(o, n - 1, m);
      NewSlot(o, n - 1, m);
    }
  }

  lemma NewSlot(o: Order, n: nat, m: nat)
    requires IsPrime(m) && 1 <= o.skip < m && n < m
    ensures Pref(o, n, m) !in Visited(o, n, m)
  {
    VisitedIs(o, n, m, Pref(o, n, m));
    if j: nat :| j < n && Pref(o, j, m) == Pref(o, n, m) {
      PrefInjective(o, j, n, m);
    }
  }

  ghost function Below(m: nat): (s: set<nat>)
    ensures |s| == m && forall c: nat :: c in s <==> c < m
  {
    if m == 0 then {} else Below(m - 1) + {m - 1}
  }

  lemma SubsetOfSameSize(a: set<nat>, b: set<nat>)
    requires a <= b && |a| == |b|
    ensures a == b
  {
    assert |b - a| == |b| - |a|;
  }

  /** For prime m and any skip in 1..m-1 the preference order is a bijection: each slot
      has exactly one place in it, below m. */
  lemma PrefBijective(o: Order, c: nat, m: nat) returns (j: nat)
    requires IsPrime(m) && 1 <= o.skip < m && c < m
    ensures j < m && Pref(o, j, m) == c
    ensures forall i: nat | i < m && Pref(o, i, m) == c :: i == j
  {
    VisitedExactly(o, m, m);
    forall v | v in Visited(o, m, m)
      ensures v in Below(m)
    {
    }
    SubsetOfSameSize(Visited(o, m, m), Below(m));
    assert c in Visited(o, m, m);
    j :| j < m && Pref(o, j, m) == c;
    forall i: nat | i < m && Pref(o, i, m) == c
      ensures i == j
    {
      if i < j {
        PrefInjective(o, i, j, m);
      } else if j < i {
        PrefInjective(o, j, i, m);
      }
    }
  }

  /** Primality is needed: every composite size has a skip for which, whatever the offset,
      some slot is never preferred, so a search for it would not end. */
  lemma CompositeSizeMissesSlots(m: nat) returns (skip: nat)
    requires 2 <= m && !IsPrime(m)
    ensures 1 <= skip < m
    ensures forall o: nat, j: nat | o < m :: Pref(Order(o, skip), j, m) != (o + 1) % m
  {
    skip :| 2 <= skip < m && m % skip == 0;
    forall o: nat, j: nat | o < m
      ensures Pref(Order(o, skip), j, m) != (o + 1) % m
    {
      NeverPreferred(o, skip, j, m, m / skip);
    }
  }

  lemma NeverPreferred(o: nat, skip: nat, j: nat, m: nat, b: int)
    requires 0 < m && 2 <= skip && m == skip * b
    ensures Pref(Order(o, skip), j, m) != (o + 1) % m
  {
    if (o + j * skip) % m == (o + 1) % m {
      var q := SameMod(o + 1, o + j * skip, m);
      NotOne(skip, j, q, b);
    }
  }

  lemma NotOne(skip: nat, j: int, q: int, b: int)
    requires 2 <= skip
    ensures j * skip - 1 != q * (skip * b)
  {
    Factored(j, q, b, skip);
    Scaled(j - q * b, skip);
    Scaled(-(j - q * b), skip);
  }

  lemma Factored(j: int, q: int, b: int, s: int)
    ensures (j - q * b) * s == j * s - q * (s * b)
  {
    assert q * (s * b) == (q * b) * s;
  }
}
