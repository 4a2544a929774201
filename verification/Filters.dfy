/** Lists that keep some elements of another list, in its order. */
module Filters {
  function Count<T>(s: seq<T>, keep: T -> bool): nat {
    if s == [] then 0 else Count(s[..|s| - 1], keep) + if keep(s[|s| - 1]) then 1 else 0
  }

  /** `r` is what is left of `s`: each element that is kept stands where as many kept ones
      stand before it as in `s`, and there are no others. */
  ghost predicate Keeps<T(!new)>(s: seq<T>, keep: T -> bool, r: seq<T>) {
    && |r| == Count(s, keep)
    && forall i: nat | i < |s| && keep(s[i]) :: Count(s[..i], keep) < |r| && r[Count(s[..i], keep)] == s[i]
  }

  lemma KeepsNext<T(!new)>(s: seq<T>, keep: T -> bool, r: seq<T>, x: T)
    requires Keeps(s, keep, r)
    ensures Keeps(s + [x], keep, r + if keep(x) then [x] else [])
  {
    var u := s + [x];
    assert u[..|s|] == s;
    forall i: nat | i < |u| && keep(u[i])
      ensures var q := r + if keep(x) then [x] else [];
              Count(u[..i], keep) < |q| && q[Count(u[..i], keep)] == u[i]
    {
      assert u[..i] == s[..i];
      if i == |s| {
        assert s[..i] == s;
      }
    }
  }

  lemma {:induction false} KeepsConcat<T(!new)>(s: seq<T>, keep: T -> bool, r: seq<T>, u: seq<T>, q: seq<T>)
    requires Keeps(s, keep, r) && Keeps(u, keep, q)
    ensures Keeps(s + u, keep, r + q)
    decreases |u|
  {
    if u == [] {
      assert s + u == s && r + q == r;
    } else {
      var front, x := u[..|u| - 1], u[|u| - 1];
      var last := if keep(x) then [x] else [];
      KeepsFront(u, keep, q);
      KeepsConcat(s, keep, r, front, q[..Count(front, keep)]);
      KeepsNext(s + front, keep, r + q[..Count(front, keep)], x);
      assert s + front + [x] == s + u;
      assert r + q[..Count(front, keep)] + last == r + q;
    }
  }

  lemma KeepsFront<T(!new)>(u: seq<T>, keep: T -> bool, q: seq<T>)
    requires u != [] && Keeps(u, keep, q)
    ensures var front, x := u[..|u| - 1], u[|u| - 1];
            && Count(front, keep) <= |q| && Keeps(front, keep, q[..Count(front, keep)])
            && q == q[..Count(front, keep)] + if keep(x) then [x] else []
  {
    var n := |u| - 1;
    var front := u[..n];
    assert keep(u[n]) ==> q[Count(u[..n], keep)] == u[n];
    forall i: nat | i < n && keep(front[i])
      ensures Count(front[..i], keep) < Count(front, keep) && q[Count(front[..i], keep)] == front[i]
    {
      assert front[..i] == u[..i];
      CountGrows(front, keep, i);
    }
  }

  lemma {:induction false} CountGrows<T>(s: seq<T>, keep: T -> bool, i: nat)
    requires i < |s| && keep(s[i])
    ensures Count(s[..i], keep) < Count(s, keep)
    decreases |s|
  {
    if i < |s| - 1 {
      assert s[..|s| - 1][..i] == s[..i];
      CountGrows(s[..|s| - 1], keep, i);
    }
  }

  /** The counts of its elements follow. */
  lemma {:induction false} KeepsMultiset<T(!new)>(s: seq<T>, keep: T -> bool, r: seq<T>, x: T)
    requires Keeps(s, keep, r)
    ensures multiset(r)[x] == if keep(x) then multiset(s)[x] else 0
    decreases |s|
  {
    if s != [] {
      var front, last := s[..|s| - 1], s[|s| - 1];
      KeepsFront(s, keep, r);
      KeepsMultiset(front, keep, r[..Count(front, keep)], x);
      assert s == front + [last];
    }
  }
}
