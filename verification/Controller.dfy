/**
 The control-plane orchestrator: configuration, health changes with debounced table
 rebuilds, and the set of announced VIPs.
 */
module Controllers {
  import opened Common
  import opened Permutation
  import opened Maglev
  import opened Applier
  import Protocol = VipProtocol

  type Vip = Protocol.Vip
  type Command = Protocol.Command

  /** 50 milliseconds, in nanoseconds. */
  const DEBOUNCE_WINDOW := 50_000_000

  // ----- which VIPs are to be announced -----

  predicate AnyHealthy(pool: Pool, health: Health) {
    exists b :: b in pool.backends && NotUnhealthy(b.ip, health)
  }

  /** The last pool with the id decides; an unknown pool is not healthy. */
  predicate PoolHealthy(pools: seq<Pool>, id: PoolId, health: Health) {
    pools != [] &&
    var last := pools[|pools| - 1];
    if last.id == id then AnyHealthy(last, health) else PoolHealthy(pools[..|pools| - 1], id, health)
  }

  predicate Wanted(vip: VipConfig, pools: seq<Pool>, health: Health) {
    vip.address.V4? && exists id :: id in vip.services && PoolHealthy(pools, id, health)
  }

  /** The IPv4 VIPs with a service whose pool has a backend that is not unhealthy. */
  function Desired(config: Option<Config>, health: Health): set<Vip> {
    match config
    case None => {}
    case Some(c) => set vip | vip in c.vips && Wanted(vip, c.pools, health) :: vip.address.v4
  }

  /** Why a VIP is to be announced: it is configured with a service that names a pool, the
      last one of that id, with a backend that has no health entry or one that does not say
      unhealthy. */
  predicate Reason(c: Config, health: Health, v: Vip, vip: VipConfig, i: nat, b: Backend) {
    && vip in c.vips && vip.address == V4(v)
    && i < |c.pools| && c.pools[i].id in vip.services
    && (forall j | i < j < |c.pools| :: c.pools[j].id != c.pools[i].id)
    && b in c.pools[i].backends && !(b.ip in health && health[b.ip] == Unhealthy)
  }

  ghost predicate CalledFor(config: Option<Config>, health: Health, v: Vip) {
    config.Some? && exists vip, i: nat, b :: Reason(config.value, health, v, vip, i, b)
  }

  /** The pool that decides for an id, if there is one. */
  lemma {:induction false} LastPoolDecides(pools: seq<Pool>, id: PoolId, health: Health) returns (i: nat)
    ensures i == |pools| ==> !PoolHealthy(pools, id, health) && forall j | 0 <= j < |pools| :: pools[j].id != id
    ensures i != |pools| ==> i < |pools| && pools[i].id == id && (forall j | i < j < |pools| :: pools[j].id != id)
    ensures i != |pools| ==> (PoolHealthy(pools, id, health) <==> AnyHealthy(pools[i], health))
  {
    if pools == [] {
      i := 0;
    } else {
      var n := |pools| - 1;
      if pools[n].id == id {
        i := n;
      } else {
        i := LastPoolDecides(pools[..n], id, health);
        if i == n {
          i := |pools|;
        }
      }
    }
  }

  /** Exactly which VIPs are to be announced, from configuration and health entries alone. */
  lemma DesiredExactly(config: Option<Config>, health: Health, v: Vip)
    ensures v in Desired(config, health) <==> CalledFor(config, health, v)
  {
    if config.Some? {
      var c := config.value;
      if v in Desired(config, health) {
        var vip :| vip in c.vips && Wanted(vip, c.pools, health) && vip.address.v4 == v;
        var id :| id in vip.services && PoolHealthy(c.pools, id, health);
        var i := LastPoolDecides(c.pools, id, health);
        var b :| b in c.pools[i].backends && NotUnhealthy(b.ip, health);
        assert Reason(c, health, v, vip, i, b);
      }
      if vip, i: nat, b :| Reason(c, health, v, vip, i, b) {
        var k := LastPoolDecides(c.pools, c.pools[i].id, health);
        assert k == i;
        assert NotUnhealthy(b.ip, health);
        assert Wanted(vip, c.pools, health);
      }
    }
  }

  // ----- announcements, in order -----

  predicate Least(x: Vip, s: set<Vip>) {
    x in s && forall y | y in s :: x <= y
  }

  lemma {:induction false} LeastExists(s: set<Vip>)
    requires s != {}
    ensures exists x :: Least(x, s)
  {
    var y :| y in s;
    if s == {y} {
      assert Least(y, s);
    } else {
      var rest := s - {y};
      LeastExists(rest);
      var x :| Least(x, rest);
      assert s == rest + {y};
      assert Least(if x <= y then x else y, s);
    }
  }

  /** The elements in ascending order, as an ordered set lists them. */
  function Ascending(s: set<Vip>): (r: seq<Vip>)
    ensures Protocol.Elems(r) == s
  {
    if s == {} then []
    else
      var x := Smallest(s);
      var rest := Ascending(s - {x});
      assert Protocol.Elems([x] + rest) == {x} + Protocol.Elems(rest);
      [x] + rest
  }

  function Smallest(s: set<Vip>): (x: Vip)
    requires s != {}
    ensures Least(x, s)
  {
    LeastExists(s);
    var x :| Least(x, s);
    x
  }

  lemma {:induction false} AscendingInOrder(s: set<Vip>, i: nat, j: nat)
    requires i < j < |Ascending(s)|
    ensures Ascending(s)[i] < Ascending(s)[j]
    decreases |s|
  {
    var x := Smallest(s);
    var rest := Ascending(s - {x});
    assert Ascending(s) == [x] + rest;
    if i == 0 {
      assert rest[j - 1] in Protocol.Elems(rest);
    } else {
      AscendingInOrder(s - {x}, i - 1, j - 1);
    }
  }

  /** The commands a reconciliation gives the announcer. */
  function SyncCommands(announced: set<Vip>, desired: set<Vip>): seq<Command> {
    IfAny(desired - announced, Protocol.Announce(Ascending(desired - announced)))
    + IfAny(announced - desired, Protocol.Withdraw(Ascending(announced - desired)))
  }

  // ----- what the announcer has been told -----

  /** The commands given so far amount to the announced set. */
  predicate Tells(told: seq<Command>, announced: set<Vip>) {
    Protocol.ApplyAll({}, Protocol.Flatten(told)) == announced
  }

  function IfAny(s: set<Vip>, c: Command): seq<Command> {
    if s == {} then [] else [c]
  }

  lemma TellMore(told: seq<Command>, announced: set<Vip>, c: Command)
    requires Tells(told, announced)
    ensures Tells(told + [c], Protocol.ApplyAll(announced, Protocol.Updates(c)))
  {
    Protocol.FlattenConcat(told, [c]);
    assert Protocol.Flatten([c]) == Protocol.Updates(c) + Protocol.Flatten([c][1..]) == Protocol.Updates(c);
    Protocol.ApplyConcat({}, Protocol.Flatten(told), Protocol.Updates(c));
  }

  lemma TellAnnounce(told: seq<Command>, announced: set<Vip>, more: set<Vip>)
    requires Tells(told, announced)
    ensures Tells(told + IfAny(more, Protocol.Announce(Ascending(more))), announced + more)
  {
    if more == {} {
      assert told + [] == told && announced + more == announced;
    } else {
      TellMore(told, announced, Protocol.Announce(Ascending(more)));
      Protocol.ApplyReaches(announced, Ascending(more));
    }
  }

  lemma TellWithdraw(told: seq<Command>, announced: set<Vip>, fewer: set<Vip>)
    requires Tells(told, announced)
    ensures Tells(told + IfAny(fewer, Protocol.Withdraw(Ascending(fewer))), announced - fewer)
  {
    if fewer == {} {
      assert told + [] == told && announced - fewer == announced;
    } else {
      TellMore(told, announced, Protocol.Withdraw(Ascending(fewer)));
      Protocol.ApplyUnreaches(announced, Ascending(fewer));
    }
  }

  /** A reconciliation tells the announcer exactly what is missing and what is too much. */
  lemma SyncTells(told: seq<Command>, announced: set<Vip>, desired: set<Vip>)
    requires Tells(told, announced)
    ensures Tells(told + SyncCommands(announced, desired), desired)
  {
    var ann := IfAny(desired - announced, Protocol.Announce(Ascending(desired - announced)));
    var wd := IfAny(announced - desired, Protocol.Withdraw(Ascending(announced - desired)));
    TellAnnounce(told, announced, desired - announced);
    TellWithdraw(told + ann, announced + (desired - announced), announced - desired);
    assert announced + (desired - announced) - (announced - desired) == desired;
    assert told + SyncCommands(announced, desired) == told + ann + wd;
  }

  // ----- agreement of the shared tables with a fresh build -----

  /** What a build of the whole configuration on the given health would produce. */
  function FreshBuild(hash: Hasher<Name>, config: Config, health: Health, m: nat): Tables
    requires IsPrime(m)
  {
    TablesFor(hash, config.pools, health, m)
  }

  /** The shared map holds for `id` what a fresh build has for it; it may hold a leftover
      only for an id whose fresh build fails. */
  predicate Current(tables: Tables, ideal: Tables, id: PoolId) {
    id in ideal ==> id in tables && tables[id] == ideal[id]
  }

  /** Every backend of every pool takes traffic when it is up. */
  predicate PositiveWeights(config: Config) {
    forall p, b | p in config.pools && b in p.backends :: 0 < b.weight
  }

  /** With positive weights only a pool without backends fails to build, now and later. */
  lemma FreshKeysStable(hash: Hasher<Name>, config: Config, h1: Health, h2: Health, m: nat, id: PoolId)
    requires IsPrime(m) && PositiveWeights(config)
    ensures id in FreshBuild(hash, config, h1, m) ==> id in FreshBuild(hash, config, h2, m)
  {
    TablesForKeys(hash, config.pools, h1, m, id);
    TablesForKeys(hash, config.pools, h2, m, id);
    if id in FreshBuild(hash, config, h1, m) {
      var p :| p in config.pools && p.id == id && Buildable(p, h1);
      assert p.backends != [];
      assert p.backends[0] in p.backends;
      var chosen := Chosen(p, h2);
      assert chosen != [] && chosen[0] in chosen && chosen[0] in p.backends;
      assert Buildable(p, h2);
    }
  }

  /** What merging the rebuilt pools into the shared map gives. */
  lemma FlushAgrees(hash: Hasher<Name>, config: Config, tables: Tables, health: Health, m: nat, pending: set<PoolId>)
    requires IsPrime(m)
    requires forall id :: id !in pending ==> Current(tables, FreshBuild(hash, config, health, m), id)
    ensures var ideal := FreshBuild(hash, config, health, m);
            var merged := tables + TablesFor(hash, Selected(config.pools, pending), health, m);
            && (forall id :: Current(merged, ideal, id))
            && merged.Keys == tables.Keys + ideal.Keys
            && (merged == ideal <==> tables.Keys <= ideal.Keys)
  {
    var ideal := FreshBuild(hash, config, health, m);
    var part := TablesFor(hash, Selected(config.pools, pending), health, m);
    var merged := tables + part;
    forall id
      ensures Current(merged, ideal, id) && (id in merged <==> id in tables || id in ideal)
    {
      if id in pending {
        SelectedAgree(hash, config.pools, pending, health, m, id);
      } else {
        SelectedOnly(hash, config.pools, pending, health, m, id);
        assert Current(tables, ideal, id);
      }
    }
    MergedIsIdeal(tables, merged, ideal);
  }

  lemma MergedIsIdeal(tables: Tables, merged: Tables, ideal: Tables)
    requires merged.Keys == tables.Keys + ideal.Keys && forall id :: Current(merged, ideal, id)
    ensures merged == ideal <==> tables.Keys <= ideal.Keys
  {
    if tables.Keys <= ideal.Keys {
      assert merged.Keys == ideal.Keys;
      forall id | id in merged
        ensures merged[id] == ideal[id]
      {
        assert Current(merged, ideal, id);
      }
    }
  }

  // ----- the debounced rebuilds, on values -----

  /** The part of the controller that concerns the lookup tables. `changedAt` records when
      each pending pool's first change of the window arrived. */
  datatype Core = Core(tables: Tables, health: Health, config: Option<Config>, index: map<Ip, set<PoolId>>,
                       pending: set<PoolId>, since: Option<int>, changedAt: map<PoolId, int>)

  const INITIAL := Core(map[], map[], None, map[], {}, None, map[])

  /** Record a health change. Only pools with that backend become pending. */
  function NoteChange(c: Core, ip: Ip, status: HealthStatus, now: int): Core {
    var c := c.(health := c.health[ip := status]);
    if ip !in c.index then c
    else
      c.(pending := c.pending + c.index[ip],
         since := if c.since.None? then Some(now) else c.since,
         changedAt := map id | id in c.pending + c.index[ip] :: if id in c.changedAt then c.changedAt[id] else now)
  }

  function Settled(c: Core): Core {
    c.(pending := {}, since := None, changedAt := map[])
  }

  function Flushed(hash: Hasher<Name>, m: nat, c: Core): Core
    requires IsPrime(m)
  {
    if c.pending == {} then c.(since := None)
    else if c.config.None? then Settled(c)
    else Settled(c.(tables := c.tables + TablesFor(hash, Selected(c.config.value.pools, c.pending), c.health, m)))
  }

  predicate WindowOver(c: Core, now: int) {
    c.since.Some? && now - c.since.value >= DEBOUNCE_WINDOW
  }

  function MaybeFlushed(hash: Hasher<Name>, m: nat, c: Core, now: int): Core
    requires IsPrime(m)
  {
    if WindowOver(c, now) then Flushed(hash, m, c) else c
  }

  function Configured(hash: Hasher<Name>, m: nat, c: Core, config: Config): Core
    requires IsPrime(m)
  {
    Settled(c).(config := Some(config), tables := FreshBuild(hash, config, c.health, m), index := IndexOf(config.pools))
  }

  // ----- what every operation keeps -----

  predicate Dated(c: Core) {
    && (c.since.Some? <==> c.pending != {})
    && c.changedAt.Keys == c.pending
    && (forall id | id in c.pending :: c.since.value <= c.changedAt[id])
    && (c.since.Some? ==> exists id :: id in c.pending && c.changedAt[id] == c.since.value)
  }

  predicate Indexed(c: Core) {
    if c.config.None? then c.index == map[] && c.pending == {} else c.index == IndexOf(c.config.value.pools)
  }

  /** Every pool outside `pending` has the table a fresh build on current health would
      give, and with positive weights there is no other table. */
  ghost predicate UpToDate(hash: Hasher<Name>, m: nat, c: Core)
    requires IsPrime(m)
  {
    c.config.Some? ==>
      var ideal := FreshBuild(hash, c.config.value, c.health, m);
      && (forall id :: id !in c.pending ==> Current(c.tables, ideal, id))
      && (PositiveWeights(c.config.value) ==> c.tables.Keys <= ideal.Keys)
  }

  ghost predicate Good(hash: Hasher<Name>, m: nat, c: Core)
    requires IsPrime(m)
  {
    Dated(c) && Indexed(c) && UpToDate(hash, m, c)
  }

  lemma NoteChangeGood(hash: Hasher<Name>, m: nat, c: Core, ip: Ip, status: HealthStatus, now: int)
    requires IsPrime(m) && Good(hash, m, c) && (c.since.Some? ==> c.since.value <= now)
    ensures Good(hash, m, NoteChange(c, ip, status, now))
  {
    if c.config.Some? {
      NoteChangeUpToDate(hash, m, c, ip, status, now);
      IndexOfHolds(c.config.value.pools, ip);
    }
  }

  /** Which pools a health change makes pending: exactly those with a backend of that address. */
  lemma PendingExactly(hash: Hasher<Name>, m: nat, c: Core, ip: Ip, status: HealthStatus, now: int, id: PoolId)
    requires IsPrime(m) && Good(hash, m, c) && c.config.Some?
    ensures id in NoteChange(c, ip, status, now).pending <==>
            id in c.pending || exists p, b :: p in c.config.value.pools && p.id == id && b in p.backends && b.ip == ip
  {
    IndexOfHolds(c.config.value.pools, ip);
    if p, b :| p in c.config.value.pools && p.id == id && b in p.backends && b.ip == ip {
      assert Contains(p, ip);
      assert id in PoolsWith(c.config.value.pools, ip);
    }
  }

  /** A health change can only make the tables of pools with that backend stale. */
  lemma NoteChangeUpToDate(hash: Hasher<Name>, m: nat, c: Core, ip: Ip, status: HealthStatus, now: int)
    requires IsPrime(m) && Indexed(c) && UpToDate(hash, m, c) && c.config.Some?
    ensures UpToDate(hash, m, NoteChange(c, ip, status, now))
  {
    var config := c.config.value;
    var d := NoteChange(c, ip, status, now);
    var before, after := FreshBuild(hash, config, c.health, m), FreshBuild(hash, config, d.health, m);
    forall id | id !in d.pending
      ensures Current(d.tables, after, id)
    {
      assert Current(c.tables, before, id);
      IndexOfHolds(config.pools, ip);
      HealthChangeIsLocal(hash, config.pools, c.health, ip, status, m, id);
    }
    if PositiveWeights(config) {
      forall id | id in before
        ensures id in after
      {
        FreshKeysStable(hash, config, c.health, d.health, m, id);
      }
    }
  }

  lemma FlushedGood(hash: Hasher<Name>, m: nat, c: Core)
    requires IsPrime(m) && Good(hash, m, c)
    ensures Good(hash, m, Flushed(hash, m, c)) && Flushed(hash, m, c).pending == {}
  {
    if c.config.Some? && c.pending != {} {
      FlushAgrees(hash, c.config.value, c.tables, c.health, m, c.pending);
    }
  }

  lemma ConfiguredGood(hash: Hasher<Name>, m: nat, c: Core, config: Config)
    requires IsPrime(m)
    ensures Good(hash, m, Configured(hash, m, c, config))
  {
  }

  lemma {:induction false} NoneSelected(pools: seq<Pool>)
    ensures Selected(pools, {}) == []
  {
    if pools != [] {
      NoneSelected(pools[..|pools| - 1]);
    }
  }

  lemma FlushedTables(hash: Hasher<Name>, m: nat, c: Core)
    requires IsPrime(m) && c.config.Some?
    ensures Flushed(hash, m, c).tables ==
            c.tables + TablesFor(hash, Selected(c.config.value.pools, c.pending), c.health, m)
  {
    if c.pending == {} {
      NoneSelected(c.config.value.pools);
      assert c.tables + map[] == c.tables;
    }
  }

  /** Flushing against rebuilding from scratch. After a flush the shared map equals a fresh
      build of the whole configuration exactly when it held no table for a pool whose fresh
      build fails: such a leftover is kept by the merge. */
  lemma FlushIsRebuildExactly(hash: Hasher<Name>, m: nat, c: Core)
    requires IsPrime(m) && Good(hash, m, c) && c.config.Some?
    ensures var ideal := FreshBuild(hash, c.config.value, c.health, m);
            && (Flushed(hash, m, c).tables == ideal <==> c.tables.Keys <= ideal.Keys)
            && (PositiveWeights(c.config.value) ==> Flushed(hash, m, c).tables == ideal)
  {
    FlushAgrees(hash, c.config.value, c.tables, c.health, m, c.pending);
    FlushedTables(hash, m, c);
  }

  /** Exactly when a tick or a health change flushes: when some pending change is 50 ms old.
      So no younger change is flushed alone, and none is left that is as old. */
  lemma FlushesExactly(hash: Hasher<Name>, m: nat, c: Core, now: int)
    requires IsPrime(m) && Good(hash, m, c)
    ensures MaybeFlushed(hash, m, c, now) ==
            if exists id :: id in c.pending && now - c.changedAt[id] >= 50_000_000 then Flushed(hash, m, c) else c
  {
    if id :| id in c.pending && now - c.changedAt[id] >= 50_000_000 {
      assert c.since.value <= c.changedAt[id];
    }
  }

  /** Just after a tick, or a health change, no pending change is as old as the window. */
  lemma NothingPendingTooLong(hash: Hasher<Name>, m: nat, c: Core, now: int)
    requires IsPrime(m) && Good(hash, m, c)
    ensures var d := MaybeFlushed(hash, m, c, now);
            Good(hash, m, d) && forall id | id in d.pending :: now - d.changedAt[id] < 50_000_000
  {
    FlushedGood(hash, m, c);
  }

  // ----- runs -----

  datatype Input =
    | NewConfig(config: Config)
    | HealthEvent(ip: Ip, status: HealthStatus, now: int, later: int)
    | Tick(now: int)
    | FlushPending

  function Handle(hash: Hasher<Name>, m: nat, c: Core, i: Input): Core
    requires IsPrime(m)
  {
    match i
    case NewConfig(config) => Configured(hash, m, c, config)
    case HealthEvent(ip, status, now, later) => MaybeFlushed(hash, m, NoteChange(c, ip, status, now), later)
    case Tick(now) => MaybeFlushed(hash, m, c, now)
    case FlushPending => Flushed(hash, m, c)
  }

  function Play(hash: Hasher<Name>, m: nat, inputs: seq<Input>): Core
    requires IsPrime(m)
  {
    if inputs == [] then INITIAL else Handle(hash, m, Play(hash, m, inputs[..|inputs| - 1]), inputs[|inputs| - 1])
  }

  /** The clock never runs backwards over the run; `clock` is the last reading. */
  predicate Monotone(inputs: seq<Input>, clock: int) {
    inputs != [] ==>
      var i := inputs[|inputs| - 1];
      match i
      case HealthEvent(_, _, now, later) => now <= later <= clock && Monotone(inputs[..|inputs| - 1], now)
      case Tick(now) => now <= clock && Monotone(inputs[..|inputs| - 1], now)
      case _ => Monotone(inputs[..|inputs| - 1], clock)
  }

  /** Every reachable state: outside the pending pools the shared map is what a build from
      scratch would be, `since` is set iff pools are pending, and the window's start is not
      later than any pending change. */
  lemma {:induction false} RunGood(hash: Hasher<Name>, m: nat, inputs: seq<Input>, clock: int)
    requires IsPrime(m) && Monotone(inputs, clock)
    ensures var c := Play(hash, m, inputs);
            Good(hash, m, c) && (c.since.Some? ==> c.since.value <= clock)
  {
    if inputs != [] {
      var before, i := inputs[..|inputs| - 1], inputs[|inputs| - 1];
      var c := Play(hash, m, before);
      match i
      case NewConfig(config) => ConfiguredGood(hash, m, c, config);
      case HealthEvent(ip, status, now, later) => {
        RunGood(hash, m, before, now);
        NoteChangeGood(hash, m, c, ip, status, now);
        NothingPendingTooLong(hash, m, NoteChange(c, ip, status, now), later);
      }
      case Tick(now) => {
        RunGood(hash, m, before, now);
        NothingPendingTooLong(hash, m, c, now);
      }
      case FlushPending => {
        RunGood(hash, m, before, clock);
        FlushedGood(hash, m, c);
      }
    }
  }

  /** The latest configuration of a run. */
  function LastConfig(inputs: seq<Input>): Option<Config> {
    if inputs == [] then None
    else
      var i := inputs[|inputs| - 1];
      if i.NewConfig? then Some(i.config) else LastConfig(inputs[..|inputs| - 1])
  }

  /** The latest word on the health of a backend. */
  function LastStatus(inputs: seq<Input>, ip: Ip): Option<HealthStatus> {
    if inputs == [] then None
    else
      var i := inputs[|inputs| - 1];
      if i.HealthEvent? && i.ip == ip then Some(i.status) else LastStatus(inputs[..|inputs| - 1], ip)
  }

  /** What a controller knows of one backend. */
  function Known(c: Core, ip: Ip): Option<HealthStatus> {
    if ip in c.health then Some(c.health[ip]) else None
  }

  lemma FlushForgetsNothing(hash: Hasher<Name>, m: nat, c: Core, now: int)
    requires IsPrime(m)
    ensures Flushed(hash, m, c).config == c.config && Flushed(hash, m, c).health == c.health
    ensures MaybeFlushed(hash, m, c, now).config == c.config && MaybeFlushed(hash, m, c, now).health == c.health
  {
  }

  lemma HandleRemembers(hash: Hasher<Name>, m: nat, c: Core, i: Input, ip: Ip)
    requires IsPrime(m)
    ensures var d := Handle(hash, m, c, i);
            && d.config == (if i.NewConfig? then Some(i.config) else c.config)
            && Known(d, ip) == if i.HealthEvent? && i.ip == ip then Some(i.status) else Known(c, ip)
  {
    match i
    case NewConfig(_) =>
    case HealthEvent(x, status, now, later) => FlushForgetsNothing(hash, m, NoteChange(c, x, status, now), later);
    case Tick(now) => FlushForgetsNothing(hash, m, c, now);
    case FlushPending => FlushForgetsNothing(hash, m, c, 0);
  }

  /** The controller goes by the latest configuration and the latest word on each backend,
      whatever was configured or reported before and whatever has been flushed. */
  lemma {:induction false} RunRemembers(hash: Hasher<Name>, m: nat, inputs: seq<Input>, ip: Ip)
    requires IsPrime(m)
    ensures Play(hash, m, inputs).config == LastConfig(inputs)
    ensures Known(Play(hash, m, inputs), ip) == LastStatus(inputs, ip)
  {
    if inputs != [] {
      var before, i := inputs[..|inputs| - 1], inputs[|inputs| - 1];
      RunRemembers(hash, m, before, ip);
      HandleRemembers(hash, m, Play(hash, m, before), i, ip);
    }
  }

  // ----- a leftover -----

  /** Without positive weights the flush is not a rebuild. Take a pool that can be built
      until one more backend turns unhealthy, because the usable ones left have weight
      zero: a build from scratch then has no table for it, but after the flush the shared
      map still holds the old one. */
  lemma LeftoverSurvivesFlush(hash: Hasher<Name>, m: nat, pool: Pool, health: Health, ip: Ip)
    requires IsPrime(m) && Buildable(pool, health) && !Buildable(pool, health[ip := Unhealthy])
    ensures var config := Config([], [pool]);
            var before := Configured(hash, m, INITIAL.(health := health), config);
            var after := Flushed(hash, m, NoteChange(before, ip, Unhealthy, 0));
            && after.pending == {} && after.health == health[ip := Unhealthy]
            && pool.id in after.tables && pool.id !in FreshBuild(hash, config, after.health, m)
  {
    var before := Configured(hash, m, INITIAL.(health := health), Config([], [pool]));
    FreshOfOne(hash, m, pool, health);
    FreshOfOne(hash, m, pool, health[ip := Unhealthy]);
    FlushKeepsKeys(hash, m, NoteChange(before, ip, Unhealthy, 0));
  }

  lemma FreshOfOne(hash: Hasher<Name>, m: nat, pool: Pool, health: Health)
    requires IsPrime(m)
    ensures pool.id in FreshBuild(hash, Config([], [pool]), health, m) <==> Buildable(pool, health)
  {
    TablesForKeys(hash, [pool], health, m, pool.id);
    assert pool in [pool];
  }

  lemma FlushKeepsKeys(hash: Hasher<Name>, m: nat, c: Core)
    requires IsPrime(m)
    ensures var d := Flushed(hash, m, c);
            c.tables.Keys <= d.tables.Keys && d.pending == {} && d.health == c.health
  {
  }

  /** Such a pool: of its two backends only the second has a weight. */
  const LOPSIDED := Pool("p", [Backend(V4(1), 80, 0, false), Backend(V4(2), 80, 1, false)])

  lemma LopsidedPoolCanLoseItsTable()
    ensures Buildable(LOPSIDED, map[]) && !Buildable(LOPSIDED, map[V4(2) := Unhealthy])
  {
    assert LOPSIDED.backends[0] in LOPSIDED.backends && LOPSIDED.backends[1] in LOPSIDED.backends;
    assert LOPSIDED.backends[1] in Usable(LOPSIDED.backends, map[]);
    assert LOPSIDED.backends[1] in Chosen(LOPSIDED, map[]);
    assert LOPSIDED.backends[0] in Usable(LOPSIDED.backends, map[V4(2) := Unhealthy]);
  }

  // ----- the controller as a party of the announcement protocol -----

  /** A reconciliation is a `Sync` step of the protocol: the step is enabled when no other
      operation is in progress, and every enabled peer is sent the updates of the commands
      the controller gives the announcer. */
  lemma SyncIsProtocolStep(s: Protocol.State, desired: set<Vip>, p: nat)
    requires s.outbox == [] && p < |s.peers| && s.peers[p].phase != Protocol.Disabled
    ensures var step := Protocol.Sync(desired, Ascending(desired - s.announced), Ascending(s.announced - desired));
            && Protocol.Enabled(s, step)
            && Protocol.Do(s, step).announced == desired
            && Protocol.OutFor(Protocol.Do(s, step).outbox, p) == Protocol.Flatten(SyncCommands(s.announced, desired))
  {
    var ann := Protocol.Announce(Ascending(desired - s.announced));
    var wd := Protocol.Withdraw(Ascending(s.announced - desired));
    Protocol.OutForFanOut(s.peers, ann, p);
    Protocol.OutForFanOut(s.peers, wd, p);
    Protocol.OutForConcat(Protocol.FanOut(s.peers, ann), Protocol.FanOut(s.peers, wd), p);
    FlattenIfAny(desired - s.announced, ann);
    FlattenIfAny(s.announced - desired, wd);
    Protocol.FlattenConcat(IfAny(desired - s.announced, ann), IfAny(s.announced - desired, wd));
  }

  lemma FlattenIfAny(vips: set<Vip>, c: Command)
    requires c == Protocol.Announce(Ascending(vips)) || c == Protocol.Withdraw(Ascending(vips))
    ensures Protocol.Flatten(IfAny(vips, c)) == Protocol.Updates(c)
  {
    if vips != {} {
      assert [c][1..] == [];
    }
  }

  // ----- the controller -----

  class Controller {
    const hash: Hasher<Name>
    const tableSize: nat
    const hasBgp: bool
    var tables: Tables
    var health: Health
    var config: Option<Config>
    var index: map<Ip, set<PoolId>>
    var pending: set<PoolId>
    var pendingSince: Option<int>
    var announced: set<Vip>
    /** The commands given to the announcer so far. */
    ghost var told: seq<Command>
    ghost var changedAt: map<PoolId, int>

    ghost function Value(): Core
      reads this
    {
      Core(tables, health, config, index, pending, pendingSince, changedAt)
    }

    constructor (hash: Hasher<Name>, tableSize: nat, hasBgp: bool)
      requires IsPrime(tableSize)
      ensures Value() == INITIAL && announced == {} && told == [] && Tells(told, announced)
      ensures this.hash == hash && this.tableSize == tableSize && this.hasBgp == hasBgp
    {
      this.hash, this.tableSize, this.hasBgp := hash, tableSize, hasBgp;
      tables, health, config, index := map[], map[], None, map[];
      pending, pendingSince, changedAt := {}, None, map[];
      announced, told := {}, [];
    }

    method DesiredAnnouncedVips() returns (out: set<Vip>)
      ensures out == Desired(config, health)
    {
      out := {};
      if config.None? {
        return;
      }
      var c := config.value;
      var poolHealthy: map<PoolId, bool> := map[];
      for i := 0 to |c.pools|
        invariant forall id :: (id in poolHealthy && poolHealthy[id]) <==> PoolHealthy(c.pools[..i], id, health)
      {
        assert c.pools[..i + 1][..i] == c.pools[..i];
        poolHealthy := poolHealthy[c.pools[i].id := AnyHealthy(c.pools[i], health)];
      }
      assert c.pools[..|c.pools|] == c.pools;
      for i := 0 to |c.vips|
        invariant out == set vip | vip in c.vips[..i] && Wanted(vip, c.pools, health) :: vip.address.v4
      {
        var vip := c.vips[i];
        assert c.vips[..i + 1] == c.vips[..i] + [vip];
        if vip.address.V4? && exists id :: id in vip.services && id in poolHealthy && poolHealthy[id] {
          out := out + {vip.address.v4};
        }
      }
      assert c.vips[..|c.vips|] == c.vips;
    }

    /** Tell the announcer the difference to the desired set, and remember that set. */
    method SyncBgpAnnouncements()
      requires Tells(told, announced)
      modifies this`announced, this`told
      ensures Tells(told, announced)
      ensures if hasBgp then announced == Desired(config, health)
                              && told == old(told) + SyncCommands(old(announced), announced)
              else announced == old(announced) && told == old(told)
    {
      if !hasBgp {
        return;
      }
      var desired := DesiredAnnouncedVips();
      SyncTells(told, announced, desired);
      TellDifference(desired);
      announced := desired;
    }

    method TellDifference(desired: set<Vip>)
      modifies this`told
      ensures told == old(told) + SyncCommands(announced, desired)
    {
      var toAnnounce, toWithdraw := Ascending(desired - announced), Ascending(announced - desired);
      if toAnnounce != [] {
        told := told + [Protocol.Announce(toAnnounce)];
      }
      if toWithdraw != [] {
        told := told + [Protocol.Withdraw(toWithdraw)];
      }
    }

    /** Give every peer the whole announced set again. */
    method ReannounceAll()
      requires Tells(told, announced)
      modifies this`told
      ensures Tells(told, announced)
      ensures told == old(told) + (if hasBgp then IfAny(announced, Protocol.Announce(Ascending(announced))) else [])
    {
      if hasBgp {
        var vips := Ascending(announced);
        TellAnnounce(told, announced, announced);
        if vips != [] {
          told := told + [Protocol.Announce(vips)];
        }
      }
    }

    method WithdrawAll()
      requires Tells(told, announced) && (!hasBgp ==> announced == {})
      modifies this`told, this`announced
      ensures Tells(told, announced) && announced == {}
      ensures told == old(told) + IfAny(old(announced), Protocol.Withdraw(Ascending(old(announced))))
    {
      if hasBgp {
        var vips := Ascending(announced);
        TellWithdraw(told, announced, announced);
        announced := {};
        if vips != [] {
          told := told + [Protocol.Withdraw(vips)];
        }
      } else {
        announced := {};
      }
    }

    /** A new configuration: everything is rebuilt, whatever was pending is dropped. */
    method ApplyConfig(config: Config)
      requires IsPrime(tableSize) && Tells(told, announced)
      modifies this
      ensures Value() == Configured(hash, tableSize, old(Value()), config)
      ensures Tells(told, announced)
      ensures if hasBgp then announced == Desired(Some(config), health)
                              && told == old(told) + SyncCommands(old(announced), announced)
              else announced == old(announced) && told == old(told)
    {
      pending, pendingSince, changedAt := {}, None, map[];
      tables := BuildLookupTablesForPools(hash, config.pools, health, tableSize);
      index := BuildBackendPoolIndex(config);
      this.config := Some(config);
      assert Value() == Configured(hash, tableSize, old(Value()), config);
      SyncBgpAnnouncements();
    }

    /** A health change at time `now`; `later` is when the debounce window is checked. */
    method OnHealthChange(ip: Ip, status: HealthStatus, now: int, later: int)
      requires IsPrime(tableSize) && Tells(told, announced)
      modifies this
      ensures Value() == MaybeFlushed(hash, tableSize, NoteChange(old(Value()), ip, status, now), later)
      ensures Tells(told, announced)
      ensures if hasBgp then announced == Desired(config, health)
                              && told == old(told) + SyncCommands(old(announced), announced)
              else announced == old(announced) && told == old(told)
    {
      Note(ip, status, now);
      SyncBgpAnnouncements();
      MaybeFlush(later);
    }

    method Note(ip: Ip, status: HealthStatus, now: int)
      modifies this`health, this`pending, this`pendingSince, this`changedAt
      ensures Value() == NoteChange(old(Value()), ip, status, now)
    {
      health := health[ip := status];
      if ip in index {
        changedAt := map id | id in pending + index[ip] :: if id in changedAt then changedAt[id] else now;
        pending := pending + index[ip];
        if pendingSince.None? {
          pendingSince := Some(now);
        }
      }
    }

    method Tick(now: int)
      requires IsPrime(tableSize)
      modifies this`tables, this`pending, this`pendingSince, this`changedAt
      ensures Value() == MaybeFlushed(hash, tableSize, old(Value()), now)
    {
      MaybeFlush(now);
    }

    method MaybeFlush(now: int)
      requires IsPrime(tableSize)
      modifies this`tables, this`pending, this`pendingSince, this`changedAt
      ensures Value() == MaybeFlushed(hash, tableSize, old(Value()), now)
    {
      if pendingSince.Some? {
        if now - pendingSince.value >= DEBOUNCE_WINDOW {
          Flush();
        }
      }
    }

    method Flush()
      requires IsPrime(tableSize)
      modifies this`tables, this`pending, this`pendingSince, this`changedAt
      ensures Value() == Flushed(hash, tableSize, old(Value()))
    {
      if pending == {} {
        pendingSince := None;
        return;
      }
      if config.None? {
        pending, pendingSince, changedAt := {}, None, map[];
        return;
      }
      var affected := Selected(config.value.pools, pending);
      if affected != [] {
        var updates := BuildLookupTablesForPools(hash, affected, health, tableSize);
        tables := tables + updates;
      } else {
        assert tables + map[] == tables;
      }
      pending, pendingSince, changedAt := {}, None, map[];
    }
  }
}
