/**
 Controller and announcement protocol together: a run of the controller, with everything
 that sessions, routers and the network do in between, is a run of the protocol, and the
 routers end up with the VIPs that configuration and health call for.
 */
module ControlRuns {
  import opened Common
  import opened Permutation
  import opened Maglev
  import opened Applier
  import opened Controllers
  import Protocol = VipProtocol
  import Forwarding
  import Progress = VipProgress

  /** The controller's tables and the network of sessions. `withdrawn` tells whether
      everything has been withdrawn since the last reconciliation. */
  datatype Joint = Joint(core: Core, net: Protocol.State, withdrawn: bool)

  datatype Move =
    | Operate(input: Input)            // an operation of the controller
    | Withdraw                         // it withdraws everything
    | Pump                             // the event pump takes the next event
    | Network(step: Protocol.Step)     // a session, a router or the network moves

  /** The operations that reconcile the announcements. */
  predicate Reconciles(i: Input) {
    i.NewConfig? || i.HealthEvent?
  }

  function SyncStep(net: Protocol.State, desired: set<Vip>): Protocol.Step {
    Protocol.Sync(desired, Ascending(desired - net.announced), Ascending(net.announced - desired))
  }

  function PumpStep(net: Protocol.State): Protocol.Step {
    Protocol.PumpEvent(Ascending(net.announced))
  }

  /** One operation at a time: the next begins when the last has sent all its commands. */
  predicate Possible(j: Joint, move: Move) {
    match move
    case Operate(_) => j.net.outbox == []
    case Withdraw => j.net.outbox == []
    case Pump => Protocol.Enabled(j.net, PumpStep(j.net))
    case Network(step) => !step.Sync? && !step.PumpEvent? && Protocol.Enabled(j.net, step)
  }

  /** What a move is in the protocol, if anything. */
  function StepOf(hash: Hasher<Name>, m: nat, j: Joint, move: Move): Option<Protocol.Step>
    requires IsPrime(m)
  {
    match move
    case Operate(i) =>
      if Reconciles(i) then
        var core := Handle(hash, m, j.core, i);
        Some(SyncStep(j.net, Desired(core.config, core.health)))
      else None
    case Withdraw => Some(SyncStep(j.net, {}))
    case Pump => Some(PumpStep(j.net))
    case Network(step) => Some(step)
  }

  lemma StepIsEnabled(hash: Hasher<Name>, m: nat, j: Joint, move: Move)
    requires IsPrime(m) && Possible(j, move)
    ensures StepOf(hash, m, j, move).Some? ==> Protocol.Enabled(j.net, StepOf(hash, m, j, move).value)
  {
  }

  function Moved(hash: Hasher<Name>, m: nat, j: Joint, move: Move): Joint
    requires IsPrime(m) && Possible(j, move)
  {
    StepIsEnabled(hash, m, j, move);
    var step := StepOf(hash, m, j, move);
    Joint(if move.Operate? then Handle(hash, m, j.core, move.input) else j.core,
          if step.Some? then Protocol.Do(j.net, step.value) else j.net,
          if move.Withdraw? then true else if move.Operate? && Reconciles(move.input) then false else j.withdrawn)
  }

  predicate Runs(hash: Hasher<Name>, m: nat, j: Joint, moves: seq<Move>, k: Joint)
    requires IsPrime(m)
    decreases moves
  {
    if moves == [] then j == k
    else Possible(j, moves[0]) && Runs(hash, m, Moved(hash, m, j, moves[0]), moves[1..], k)
  }

  /** A run of controller and network is, seen from the network, a run of the protocol. */
  lemma {:induction false} IsProtocolRun(hash: Hasher<Name>, m: nat, j: Joint, moves: seq<Move>, k: Joint)
    returns (steps: seq<Protocol.Step>)
    requires IsPrime(m) && Runs(hash, m, j, moves, k)
    ensures Protocol.LeadsTo(j.net, steps, k.net)
    decreases moves
  {
    if moves == [] {
      steps := [];
    } else {
      steps := IsProtocolRun(hash, m, Moved(hash, m, j, moves[0]), moves[1..], k);
      StepIsEnabled(hash, m, j, moves[0]);
      var step := StepOf(hash, m, j, moves[0]);
      if step.Some? {
        Protocol.LeadsOne(j.net, step.value, steps, k.net);
        steps := [step.value] + steps;
      }
    }
  }

  /** What is announced is what configuration and health call for, unless all of it has been
      withdrawn since. */
  predicate Announced(j: Joint) {
    j.net.announced == if j.withdrawn then {} else Desired(j.core.config, j.core.health)
  }

  lemma MoveKeepsAnnounced(hash: Hasher<Name>, m: nat, j: Joint, move: Move)
    requires IsPrime(m) && Possible(j, move) && Announced(j)
    ensures Announced(Moved(hash, m, j, move))
  {
    if move.Operate? && !Reconciles(move.input) {
      FlushForgetsNothing(hash, m, j.core, if move.input.Tick? then move.input.now else 0);
    } else if move.Network? {
      NetworkKeepsAnnounced(j.net, move.step);
    }
  }

  lemma NetworkKeepsAnnounced(s: Protocol.State, step: Protocol.Step)
    requires !step.Sync? && Protocol.Enabled(s, step)
    ensures Protocol.Do(s, step).announced == s.announced
  {
  }

  lemma {:induction false} RunKeepsAnnounced(hash: Hasher<Name>, m: nat, j: Joint, moves: seq<Move>, k: Joint)
    requires IsPrime(m) && Runs(hash, m, j, moves, k) && Announced(j)
    ensures Announced(k)
    decreases moves
  {
    if moves != [] {
      MoveKeepsAnnounced(hash, m, j, moves[0]);
      RunKeepsAnnounced(hash, m, Moved(hash, m, j, moves[0]), moves[1..], k);
    }
  }

  /** The operations among the moves. */
  function Inputs(moves: seq<Move>): seq<Input> {
    if moves == [] then []
    else
      var last := moves[|moves| - 1];
      Inputs(moves[..|moves| - 1]) + if last.Operate? then [last.input] else []
  }

  function Resumed(hash: Hasher<Name>, m: nat, c: Core, inputs: seq<Input>): Core
    requires IsPrime(m)
    decreases inputs
  {
    if inputs == [] then c else Resumed(hash, m, Handle(hash, m, c, inputs[0]), inputs[1..])
  }

  lemma {:induction false} InputsHead(moves: seq<Move>)
    requires moves != []
    ensures Inputs(moves) == (if moves[0].Operate? then [moves[0].input] else []) + Inputs(moves[1..])
  {
    if |moves| > 1 {
      InputsHead(moves[..|moves| - 1]);
      assert moves[..|moves| - 1][1..] == moves[1..][..|moves| - 2];
    } else {
      assert moves[..0] == [] && moves[1..] == [];
    }
  }

  lemma {:induction false} RunIsResumed(hash: Hasher<Name>, m: nat, j: Joint, moves: seq<Move>, k: Joint)
    requires IsPrime(m) && Runs(hash, m, j, moves, k)
    ensures k.core == Resumed(hash, m, j.core, Inputs(moves))
    decreases moves
  {
    if moves != [] {
      var rest := Inputs(moves[1..]);
      InputsHead(moves);
      RunIsResumed(hash, m, Moved(hash, m, j, moves[0]), moves[1..], k);
      if moves[0].Operate? {
        assert ([moves[0].input] + rest)[1..] == rest;
      } else {
        assert Inputs(moves) == rest;
      }
    }
  }

  lemma PlayMore(hash: Hasher<Name>, m: nat, a: seq<Input>, i: Input)
    requires IsPrime(m)
    ensures Play(hash, m, a + [i]) == Handle(hash, m, Play(hash, m, a), i)
  {
    assert (a + [i])[..|a|] == a;
  }

  lemma {:induction false} ResumedIsPlay(hash: Hasher<Name>, m: nat, a: seq<Input>, b: seq<Input>)
    requires IsPrime(m)
    ensures Resumed(hash, m, Play(hash, m, a), b) == Play(hash, m, a + b)
    decreases b
  {
    if b == [] {
      assert a + b == a;
    } else {
      PlayMore(hash, m, a, b[0]);
      ResumedIsPlay(hash, m, a + [b[0]], b[1..]);
      assert a + [b[0]] + b[1..] == a + b;
    }
  }

  /** Seen from the controller, the run is a run of its operations. */
  lemma CoreIsPlay(hash: Hasher<Name>, m: nat, net: Protocol.State, moves: seq<Move>, k: Joint)
    requires IsPrime(m) && Runs(hash, m, Joint(INITIAL, net, false), moves, k)
    ensures k.core == Play(hash, m, Inputs(moves))
  {
    RunIsResumed(hash, m, Joint(INITIAL, net, false), moves, k);
    ResumedIsPlay(hash, m, [], Inputs(moves));
    assert [] + Inputs(moves) == Inputs(moves);
  }

  /** What configuration and health call for, unless all of it has been withdrawn since. */
  ghost predicate Due(k: Joint, v: Vip) {
    !k.withdrawn && CalledFor(k.core.config, k.core.health, v)
  }

  /** That is the latest configuration and the latest word on each backend. */
  lemma DueRemembers(hash: Hasher<Name>, m: nat, net: Protocol.State, moves: seq<Move>, k: Joint, ip: Ip)
    requires IsPrime(m) && Runs(hash, m, Joint(INITIAL, net, false), moves, k)
    ensures k.core.config == LastConfig(Inputs(moves)) && Known(k.core, ip) == LastStatus(Inputs(moves), ip)
  {
    CoreIsPlay(hash, m, net, moves, k);
    RunRemembers(hash, m, Inputs(moves), ip);
  }

  /** End to end, from configuration and health to the routers. In every interleaving of
      controller operations with everything that sessions, routers and the network do, an
      established peer will hold only VIPs called for, and exactly these once the event of
      its connect has been handled; when nothing is pending any more it holds them now. After
      a withdrawal of everything, none. */
  lemma RoutersFollowHealth(hash: Hasher<Name>, m: nat, net: Protocol.State, moves: seq<Move>, k: Joint, p: nat, v: Vip)
    requires IsPrime(m) && Protocol.Initial(net) && Runs(hash, m, Joint(INITIAL, net, false), moves, k)
    requires p < |k.net.peers| && k.net.peers[p].phase == Protocol.Established
    ensures v in Protocol.Outcome(k.net, p) ==> Due(k, v)
    ensures Protocol.Handled(k.net, p) ==> (v in Protocol.Outcome(k.net, p) <==> Due(k, v))
    ensures Protocol.Handled(k.net, p) && Protocol.Pending(k.net, p) == [] ==>
              (v in k.net.peers[p].routes <==> Due(k, v))
  {
    var steps := IsProtocolRun(hash, m, Joint(INITIAL, net, false), moves, k);
    Protocol.ConvergenceSafety(net, steps, k.net, p);
    AnnouncedIsDue(hash, m, net, moves, k, v);
  }

  lemma AnnouncedIsDue(hash: Hasher<Name>, m: nat, net: Protocol.State, moves: seq<Move>, k: Joint, v: Vip)
    requires IsPrime(m) && Protocol.Initial(net) && Runs(hash, m, Joint(INITIAL, net, false), moves, k)
    ensures v in k.net.announced <==> Due(k, v)
  {
    RunKeepsAnnounced(hash, m, Joint(INITIAL, net, false), moves, k);
    DesiredExactly(k.core.config, k.core.health, v);
  }

  // ----- the network is free to move -----

  function MoveOf(step: Protocol.Step): Move {
    if step.PumpEvent? then Pump else Network(step)
  }

  function MovesOf(steps: seq<Protocol.Step>): (moves: seq<Move>)
    ensures |moves| == |steps|
  {
    if steps == [] then [] else [MoveOf(steps[0])] + MovesOf(steps[1..])
  }

  /** Whatever sessions, routers, network and event pump do while the controller is at rest is a
      joint run that leaves the controller as it is. */
  lemma {:induction false} CalmStepsAreMoves(hash: Hasher<Name>, m: nat, j: Joint, steps: seq<Protocol.Step>,
                                             t: Protocol.State)
    requires IsPrime(m) && Protocol.LeadsTo(j.net, steps, t) && Progress.AllCalm(steps, j.net.announced)
    ensures Runs(hash, m, j, MovesOf(steps), j.(net := t))
    decreases steps
  {
    if steps != [] {
      assert Progress.Calm(steps[0], j.net.announced);
      var next := Protocol.Do(j.net, steps[0]);
      assert Moved(hash, m, j, MoveOf(steps[0])) == j.(net := next);
      CalmStepsAreMoves(hash, m, j.(net := next), steps[1..], t);
      assert MovesOf(steps)[1..] == MovesOf(steps[1..]);
    }
  }

  /** From every reachable state the routers can be brought to what configuration and health call
      for: without another operation of the controller, whatever has failed or been lost before,
      a peer that is neither disabled nor shut down can come to hold exactly the VIPs due. */
  lemma RoutersCanFollow(hash: Hasher<Name>, m: nat, net: Protocol.State, moves: seq<Move>, k: Joint, p: nat)
    returns (more: seq<Move>, u: Joint)
    requires IsPrime(m) && Protocol.Initial(net) && Runs(hash, m, Joint(INITIAL, net, false), moves, k)
    requires p < |k.net.peers| && Protocol.Up(k.net.peers[p]) && Protocol.Shutdown !in k.net.peers[p].queue
    ensures Runs(hash, m, k, more, u) && u.core == k.core && u.withdrawn == k.withdrawn && p < |u.net.peers|
    ensures forall v :: v in u.net.peers[p].routes <==> Due(k, v)
  {
    var steps := IsProtocolRun(hash, m, Joint(INITIAL, net, false), moves, k);
    var t := Progress.AlwaysCanConverge(net, steps, k.net, p);
    var calm :| Protocol.LeadsTo(k.net, calm, t) && Progress.AllCalm(calm, k.net.announced);
    CalmStepsAreMoves(hash, m, k, calm, t);
    more, u := MovesOf(calm), k.(net := t);
    forall v
      ensures v in u.net.peers[p].routes <==> Due(k, v)
    {
      AnnouncedIsDue(hash, m, net, moves, k, v);
    }
  }

  /** And every operation can begin: what the last one has still to send can always be sent. */
  lemma OperationCanBegin(hash: Hasher<Name>, m: nat, net: Protocol.State, moves: seq<Move>, k: Joint, i: Input)
    returns (more: seq<Move>, u: Joint)
    requires IsPrime(m) && Protocol.Initial(net) && Runs(hash, m, Joint(INITIAL, net, false), moves, k)
    ensures Runs(hash, m, k, more, u) && u.core == k.core && u.net.announced == k.net.announced
    ensures Possible(u, Operate(i)) && Possible(u, Withdraw)
  {
    var steps := IsProtocolRun(hash, m, Joint(INITIAL, net, false), moves, k);
    Protocol.InitialInv(net);
    Protocol.RunKeepsInv(net, steps, k.net);
    Progress.RunKeepsPlain(net, steps, k.net);
    if k.net.outbox == [] {
      more, u := [], k;
    } else {
      var t := Progress.FlushOutbox(k.net, k.net.outbox[0].0);
      var calm :| Protocol.LeadsTo(k.net, calm, t) && Progress.AllCalm(calm, k.net.announced);
      CalmStepsAreMoves(hash, m, k, calm, t);
      more, u := MovesOf(calm), k.(net := t);
    }
  }

  // ----- the commands are those the controller gives -----

  /** A re-announcement gives every enabled peer the whole announced set. */
  lemma ReannounceIsProtocolStep(s: Protocol.State, p: nat)
    requires Protocol.Enabled(s, PumpStep(s)) && s.events[0].Connected?
    requires p < |s.peers| && s.peers[p].phase != Protocol.Disabled
    ensures var t := Protocol.Do(s, PumpStep(s));
            && t.announced == s.announced
            && Protocol.OutFor(t.outbox, p) ==
               Protocol.Flatten(IfAny(s.announced, Protocol.Announce(Ascending(s.announced))))
  {
    var c := Protocol.Announce(Ascending(s.announced));
    Protocol.OutForFanOut(s.peers, c, p);
    FlattenIfAny(s.announced, c);
  }

  /** Withdrawing everything is a reconciliation with the empty set. */
  lemma WithdrawIsProtocolStep(s: Protocol.State, p: nat)
    requires s.outbox == [] && p < |s.peers| && s.peers[p].phase != Protocol.Disabled
    ensures Protocol.Enabled(s, SyncStep(s, {}))
    ensures var t := Protocol.Do(s, SyncStep(s, {}));
            && t.announced == {}
            && Protocol.OutFor(t.outbox, p) ==
               Protocol.Flatten(IfAny(s.announced, Protocol.Withdraw(Ascending(s.announced))))
  {
    SyncIsProtocolStep(s, {}, p);
    assert {} - s.announced == {} && s.announced - {} == s.announced;
    assert SyncCommands(s.announced, {}) == IfAny(s.announced, Protocol.Withdraw(Ascending(s.announced)));
  }

  /** A controller object in step with the joint state. */
  ghost predicate InStep(ctl: Controller, j: Joint)
    reads ctl
  {
    && ctl.hasBgp && IsPrime(ctl.tableSize)
    && ctl.Value() == j.core && ctl.announced == j.net.announced && Tells(ctl.told, ctl.announced)
  }

  /** The operations of the class make exactly the moves of the controller. */
  method MakeMove(ctl: Controller, move: Move, ghost j: Joint)
    requires InStep(ctl, j) && Possible(j, move) && !move.Network?
    requires move.Pump? ==> j.net.events[0].Connected?
    modifies ctl
    ensures InStep(ctl, Moved(ctl.hash, ctl.tableSize, j, move))
  {
    match move
    case Operate(i) =>
      match i {
        case NewConfig(config) => ctl.ApplyConfig(config);
        case HealthEvent(ip, status, now, later) => Change(ctl, ip, status, now, later);
        case Tick(now) => ctl.Tick(now);
        case FlushPending => ctl.Flush();
      }
    case Withdraw => ctl.WithdrawAll();
    case Pump => ctl.ReannounceAll();
  }

  method Change(ctl: Controller, ip: Ip, status: HealthStatus, now: int, later: int)
    requires ctl.hasBgp && IsPrime(ctl.tableSize) && Tells(ctl.told, ctl.announced)
    modifies ctl
    ensures ctl.Value() == Handle(ctl.hash, ctl.tableSize, old(ctl.Value()), HealthEvent(ip, status, now, later))
    ensures Tells(ctl.told, ctl.announced) && ctl.announced == Desired(ctl.Value().config, ctl.Value().health)
  {
    ctl.OnHealthChange(ip, status, now, later);
  }

  // ----- what the rewriters read -----

  /** Every slot of every table names a backend, which takes traffic. */
  predicate SoundTables(tables: Tables) {
    forall id | id in tables :: Forwarding.SoundTable(tables[id]) && TakesTraffic(tables[id])
  }

  predicate TakesTraffic(t: LookupTable) {
    forall e | e in t.entries :: e < |t.backends| ==> 0 < t.backends[e].weight
  }

  lemma BuiltIsSound(hash: Hasher<Name>, backends: seq<Backend>, m: nat)
    requires IsPrime(m) && Table(hash, backends, m).Ok?
    ensures Forwarding.SoundTable(Table(hash, backends, m).table) && TakesTraffic(Table(hash, backends, m).table)
  {
    TableIsUsable(hash, backends, m, 0);
  }

  lemma {:induction false} BuildIsSound(hash: Hasher<Name>, pools: seq<Pool>, health: Health, m: nat)
    requires IsPrime(m)
    ensures SoundTables(TablesFor(hash, pools, health, m))
  {
    if pools != [] {
      var last := pools[|pools| - 1];
      BuildIsSound(hash, pools[..|pools| - 1], health, m);
      if PoolTable(hash, last, health, m).Ok? {
        BuiltIsSound(hash, Chosen(last, health), m);
      }
    }
  }

  lemma FlushKeepsSound(hash: Hasher<Name>, m: nat, c: Core)
    requires IsPrime(m) && SoundTables(c.tables)
    ensures SoundTables(Flushed(hash, m, c).tables)
  {
    if c.config.Some? {
      BuildIsSound(hash, Selected(c.config.value.pools, c.pending), c.health, m);
    }
  }

  /** In every reachable state of the controller, leftovers included, every slot of every
      table names a backend of positive weight: what the rewriters ask of the tables. */
  lemma {:induction false} TablesAreSound(hash: Hasher<Name>, m: nat, inputs: seq<Input>)
    requires IsPrime(m)
    ensures SoundTables(Play(hash, m, inputs).tables)
    ensures forall env: Forwarding.Env | env.tables == Play(hash, m, inputs).tables :: Forwarding.Sound(env)
  {
    if inputs != [] {
      var before, i := inputs[..|inputs| - 1], inputs[|inputs| - 1];
      var c := Play(hash, m, before);
      TablesAreSound(hash, m, before);
      match i
      case NewConfig(config) => BuildIsSound(hash, config.pools, c.health, m);
      case HealthEvent(ip, status, now, later) => FlushKeepsSound(hash, m, NoteChange(c, ip, status, now));
      case Tick(_) => FlushKeepsSound(hash, m, c);
      case FlushPending => FlushKeepsSound(hash, m, c);
    }
  }
}
