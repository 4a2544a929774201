/**
 Building the lookup tables of pools from a configuration and the current health, and
 the reverse index from backend address to pools.
 */
module Applier {
  import opened Common
  import opened Permutation
  import opened Maglev

  type PoolId = string

  datatype Pool = Pool(id: PoolId, backends: seq<Backend>)

  /** A VIP with the pools its services name. */
  datatype VipConfig = VipConfig(address: Ip, services: seq<PoolId>)

  datatype Config = Config(vips: seq<VipConfig>, pools: seq<Pool>)

  type Health = map<Ip, HealthStatus>

  type Tables = map<PoolId, LookupTable>

  /** Never probed counts as healthy. */
  predicate NotUnhealthy(ip: Ip, health: Health) {
    ip in health ==> health[ip] != Unhealthy
  }

  function Usable(backends: seq<Backend>, health: Health): (r: seq<Backend>)
    ensures forall b :: b in r <==> b in backends && !b.drain && NotUnhealthy(b.ip, health)
  {
    if backends == [] then []
    else (if !backends[0].drain && NotUnhealthy(backends[0].ip, health) then [backends[0]] else [])
         + Usable(backends[1..], health)
  }

  /** The backends a pool's table is built from: the usable ones, or all of them when none
      is usable. */
  function Chosen(pool: Pool, health: Health): seq<Backend> {
    var usable := Usable(pool.backends, health);
    if usable == [] then pool.backends else usable
  }

  function PoolTable(hash: Hasher<Name>, pool: Pool, health: Health, m: nat): BuildResult
    requires IsPrime(m)
  {
    Table(hash, Chosen(pool, health), m)
  }

  /** Enter the table of one pool; a pool whose build fails gets no entry. */
  function Enter(tables: Tables, id: PoolId, r: BuildResult): Tables {
    if r.Ok? then tables[id := r.table] else tables
  }

  /** Pools are built in order; a later pool of the same id replaces an earlier one. */
  function TablesFor(hash: Hasher<Name>, pools: seq<Pool>, health: Health, m: nat): Tables
    requires IsPrime(m)
  {
    if pools == [] then map[]
    else
      var last := pools[|pools| - 1];
      Enter(TablesFor(hash, pools[..|pools| - 1], health, m), last.id, PoolTable(hash, last, health, m))
  }

  method BuildLookupTablesForPools(hash: Hasher<Name>, pools: seq<Pool>, health: Health, m: nat)
    returns (tables: Tables)
    requires IsPrime(m)
    ensures tables == TablesFor(hash, pools, health, m)
  {
    tables := map[];
    for i := 0 to |pools|
      invariant tables == TablesFor(hash, pools[..i], health, m)
    {
      assert pools[..i + 1][..i] == pools[..i];
      var r := BuildPool(hash, pools[i], health, m);
      if r.Ok? {
        tables := tables[pools[i].id := r.table];
      }
    }
    assert pools[..|pools|] == pools;
  }

  method BuildPool(hash: Hasher<Name>, pool: Pool, health: Health, m: nat) returns (r: BuildResult)
    requires IsPrime(m)
    ensures r == PoolTable(hash, pool, health, m)
  {
    var active := Usable(pool.backends, health);
    if active == [] {
      r := Build(hash, pool.backends, m);
    } else {
      r := Build(hash, active, m);
    }
  }

  /** The build of a pool succeeds unless every backend it would use has weight zero. */
  predicate Buildable(pool: Pool, health: Health) {
    exists b :: b in Chosen(pool, health) && 0 < b.weight
  }

  /** Which pools a fresh build has a table for. */
  lemma {:induction false} TablesForKeys(hash: Hasher<Name>, pools: seq<Pool>, health: Health, m: nat, id: PoolId)
    requires IsPrime(m)
    ensures id in TablesFor(hash, pools, health, m) <==> exists p :: p in pools && p.id == id && Buildable(p, health)
  {
    if pools != [] {
      var front, last := pools[..|pools| - 1], pools[|pools| - 1];
      assert pools == front + [last];
      TablesForKeys(hash, front, health, m, id);
    }
  }

  predicate Contains(pool: Pool, ip: Ip) {
    exists b :: b in pool.backends && b.ip == ip
  }

  /** The ids of the pools that contain `ip`. */
  function PoolsWith(pools: seq<Pool>, ip: Ip): set<PoolId> {
    set p | p in pools && Contains(p, ip) :: p.id
  }

  ghost predicate IsIndex(index: map<Ip, set<PoolId>>, pools: seq<Pool>) {
    forall ip ::
      if ip in index then index[ip] == PoolsWith(pools, ip) && index[ip] != {} else PoolsWith(pools, ip) == {}
  }

  lemma {:induction false} UsableLocal(backends: seq<Backend>, health: Health, ip: Ip, status: HealthStatus)
    requires forall b | b in backends :: b.ip != ip
    ensures Usable(backends, health[ip := status]) == Usable(backends, health)
  {
    if backends != [] {
      UsableLocal(backends[1..], health, ip, status);
    }
  }

  lemma PoolTableLocal(hash: Hasher<Name>, pool: Pool, health: Health, ip: Ip, status: HealthStatus, m: nat)
    requires IsPrime(m) && !Contains(pool, ip)
    ensures PoolTable(hash, pool, health[ip := status], m) == PoolTable(hash, pool, health, m)
  {
    UsableLocal(pool.backends, health, ip, status);
  }

  /** Two maps agree on `id`. */
  predicate Same(a: Tables, b: Tables, id: PoolId) {
    if id in a then id in b && a[id] == b[id] else id !in b
  }

  lemma EnterSame(a: Tables, b: Tables, id: PoolId, pool: PoolId, ra: BuildResult, rb: BuildResult)
    requires Same(a, b, id) && (pool == id ==> ra == rb)
    ensures Same(Enter(a, pool, ra), Enter(b, pool, rb), id)
  {
  }

  /** A health change of one backend changes no table of a pool without it. */
  lemma {:induction false} HealthChangeIsLocal(
    hash: Hasher<Name>, pools: seq<Pool>, health: Health, ip: Ip, status: HealthStatus, m: nat, id: PoolId)
    requires IsPrime(m) && id !in PoolsWith(pools, ip)
    ensures Same(TablesFor(hash, pools, health, m), TablesFor(hash, pools, health[ip := status], m), id)
  {
    if pools != [] {
      var front, last := pools[..|pools| - 1], pools[|pools| - 1];
      HealthChangeIsLocal(hash, front, health, ip, status, m, id);
      var ra, rb := PoolTable(hash, last, health, m), PoolTable(hash, last, health[ip := status], m);
      if last.id == id {
        assert !Contains(last, ip);
        PoolTableLocal(hash, last, health, ip, status, m);
      }
      EnterSame(TablesFor(hash, front, health, m), TablesFor(hash, front, health[ip := status], m),
                id, last.id, ra, rb);
    }
  }

  function Selected(pools: seq<Pool>, ids: set<PoolId>): (r: seq<Pool>)
    ensures forall p :: p in r <==> p in pools && p.id in ids
  {
    if pools == [] then []
    else
      var before := Selected(pools[..|pools| - 1], ids);
      if pools[|pools| - 1].id in ids then before + [pools[|pools| - 1]] else before
  }

  /** Restricted to the pools of one id, a build gives that id the same table. */
  lemma {:induction false} SelectedAgree(
    hash: Hasher<Name>, pools: seq<Pool>, ids: set<PoolId>, health: Health, m: nat, id: PoolId)
    requires IsPrime(m) && id in ids
    ensures Same(TablesFor(hash, Selected(pools, ids), health, m), TablesFor(hash, pools, health, m), id)
  {
    if pools != [] {
      var front, last := pools[..|pools| - 1], pools[|pools| - 1];
      var r := PoolTable(hash, last, health, m);
      SelectedAgree(hash, front, ids, health, m, id);
      if last.id in ids {
        TablesForLast(hash, Selected(front, ids), last, health, m);
        EnterSame(TablesFor(hash, Selected(front, ids), health, m), TablesFor(hash, front, health, m),
                  id, last.id, r, r);
      }
    }
  }

  lemma TablesForLast(hash: Hasher<Name>, front: seq<Pool>, last: Pool, health: Health, m: nat)
    requires IsPrime(m)
    ensures TablesFor(hash, front + [last], health, m) ==
            Enter(TablesFor(hash, front, health, m), last.id, PoolTable(hash, last, health, m))
  {
    assert (front + [last])[..|front|] == front;
  }

  /** A build of selected pools enters nothing for other ids. */
  lemma SelectedOnly(hash: Hasher<Name>, pools: seq<Pool>, ids: set<PoolId>, health: Health, m: nat, id: PoolId)
    requires IsPrime(m) && id !in ids
    ensures id !in TablesFor(hash, Selected(pools, ids), health, m)
  {
    TablesForKeys(hash, Selected(pools, ids), health, m, id);
  }

  /** The reverse index: each backend address with the pools that contain it. */
  function IndexOf(pools: seq<Pool>): map<Ip, set<PoolId>> {
    map ip | ip in Addresses(pools) :: PoolsWith(pools, ip)
  }

  function Addresses(pools: seq<Pool>): set<Ip> {
    set p, b | p in pools && b in p.backends :: b.ip
  }

  lemma IndexOfHolds(pools: seq<Pool>, ip: Ip)
    ensures if ip in IndexOf(pools) then IndexOf(pools)[ip] == PoolsWith(pools, ip) != {}
            else PoolsWith(pools, ip) == {}
  {
    if ip in Addresses(pools) {
      var p, b :| p in pools && b in p.backends && b.ip == ip;
      assert Contains(p, ip);
      assert p.id in PoolsWith(pools, ip);
    } else {
      assert forall p, b | p in pools && b in p.backends :: b.ip in Addresses(pools);
    }
  }

  lemma IndexUnique(index: map<Ip, set<PoolId>>, pools: seq<Pool>)
    requires IsIndex(index, pools)
    ensures index == IndexOf(pools)
  {
    forall ip
      ensures ip in index <==> ip in IndexOf(pools)
      ensures ip in index ==> index[ip] == IndexOf(pools)[ip]
    {
      IndexOfHolds(pools, ip);
    }
  }

  method BuildBackendPoolIndex(config: Config) returns (index: map<Ip, set<PoolId>>)
    ensures index == IndexOf(config.pools)
  {
    index := map[];
    var pools := config.pools;
    for i := 0 to |pools|
      invariant IsIndex(index, pools[..i])
    {
      var pool := pools[i];
      assert pools[..i + 1] == pools[..i] + [pool];
      assert pool.backends[..0] == [];
      IndexEmpty(pools[..i], pool);
      for j := 0 to |pool.backends|
        invariant IsIndex(index, pools[..i] + [Pool(pool.id, pool.backends[..j])])
      {
        var ip := pool.backends[j].ip;
        IndexGrows(index, pools[..i], pool, j);
        index := index[ip := (if ip in index then index[ip] else {}) + {pool.id}];
      }
      assert pool.backends[..|pool.backends|] == pool.backends;
    }
    assert pools[..|pools|] == pools;
    IndexUnique(index, pools);
  }

  lemma IndexEmpty(pools: seq<Pool>, pool: Pool)
    ensures forall ip :: PoolsWith(pools + [Pool(pool.id, [])], ip) == PoolsWith(pools, ip)
  {
  }

  lemma IndexGrows(index: map<Ip, set<PoolId>>, pools: seq<Pool>, pool: Pool, j: nat)
    requires j < |pool.backends| && IsIndex(index, pools + [Pool(pool.id, pool.backends[..j])])
    ensures var ip := pool.backends[j].ip;
            IsIndex(index[ip := (if ip in index then index[ip] else {}) + {pool.id}],
                    pools + [Pool(pool.id, pool.backends[..j + 1])])
  {
    var ip := pool.backends[j].ip;
    var before, after := pools + [Pool(pool.id, pool.backends[..j])], pools + [Pool(pool.id, pool.backends[..j + 1])];
    forall x
      ensures PoolsWith(after, x) == PoolsWith(before, x) + (if x == ip then {pool.id} else {})
    {
      PoolsWithGrows(pools, pool, j, x);
    }
  }

  lemma PoolsWithGrows(pools: seq<Pool>, pool: Pool, j: nat, x: Ip)
    requires j < |pool.backends|
    ensures PoolsWith(pools + [Pool(pool.id, pool.backends[..j + 1])], x) ==
            PoolsWith(pools + [Pool(pool.id, pool.backends[..j])], x) +
            (if x == pool.backends[j].ip then {pool.id} else {})
  {
    PoolsWithLast(pools, Pool(pool.id, pool.backends[..j]), x);
    PoolsWithLast(pools, Pool(pool.id, pool.backends[..j + 1]), x);
    assert pool.backends[..j + 1] == pool.backends[..j] + [pool.backends[j]];
    ContainsLast(pool.id, pool.backends[..j], pool.backends[j], x);
  }

  lemma PoolsWithLast(pools: seq<Pool>, last: Pool, x: Ip)
    ensures PoolsWith(pools + [last], x) == PoolsWith(pools, x) + (if Contains(last, x) then {last.id} else {})
  {
    assert forall p :: p in pools + [last] <==> p in pools || p == last;
  }

  lemma ContainsLast(id: PoolId, bs: seq<Backend>, b: Backend, x: Ip)
    ensures Contains(Pool(id, bs + [b]), x) <==> Contains(Pool(id, bs), x) || b.ip == x
  {
    assert b in bs + [b];
    assert forall c :: c in bs ==> c in bs + [b];
  }
}
