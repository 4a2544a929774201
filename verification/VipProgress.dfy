/**
 That the announcement protocol can always finish: from every reachable state, if nothing
 fails from now on, the steps of the parties lead to a state in which the router holds
 exactly the announced VIPs.
 */
module VipProgress {
  import opened VipProtocol
  import opened Controllers

  /** No operation of the controller begins, and the event pump lists what is announced in
      ascending order. */
  predicate Calm(step: Step, announced: set<Vip>) {
    !step.Sync? && (step.PumpEvent? ==> step.all == Ascending(announced))
  }

  predicate AllCalm(steps: seq<Step>, announced: set<Vip>) {
    forall step | step in steps :: Calm(step, announced)
  }

  ghost predicate Leads(s: State, t: State) {
    exists steps :: LeadsTo(s, steps, t) && AllCalm(steps, s.announced)
  }

  lemma Stays(s: State)
    ensures Leads(s, s)
  {
    assert LeadsTo(s, [], s) && AllCalm([], s.announced);
  }

  lemma {:induction false} LeadsConcat(s: State, a: seq<Step>, m: State, b: seq<Step>, t: State)
    requires LeadsTo(s, a, m) && LeadsTo(m, b, t)
    ensures LeadsTo(s, a + b, t)
    decreases a
  {
    if a == [] {
      assert a + b == b;
    } else {
      LeadsConcat(Do(s, a[0]), a[1..], m, b, t);
      assert a + b == [a[0]] + (a[1..] + b);
      LeadsOne(s, a[0], a[1..] + b, t);
    }
  }

  lemma {:induction false} CalmKeepsAnnounced(s: State, steps: seq<Step>, t: State)
    requires LeadsTo(s, steps, t) && AllCalm(steps, s.announced)
    ensures t.announced == s.announced
    decreases steps
  {
    if steps != [] {
      assert Calm(steps[0], s.announced);
      CalmKeepsAnnounced(Do(s, steps[0]), steps[1..], t);
    }
  }

  lemma GoesOn(s: State, m: State, t: State)
    requires Leads(s, m) && Leads(m, t)
    ensures Leads(s, t)
  {
    var a :| LeadsTo(s, a, m) && AllCalm(a, s.announced);
    var b :| LeadsTo(m, b, t) && AllCalm(b, m.announced);
    LeadsConcat(s, a, m, b, t);
    CalmKeepsAnnounced(s, a, m);
    assert AllCalm(a + b, s.announced);
  }

  lemma OneStep(s: State, step: Step)
    requires Enabled(s, step) && Inv(s) && Calm(step, s.announced)
    ensures Leads(s, Do(s, step)) && Inv(Do(s, step))
  {
    assert [step][1..] == [];
    assert LeadsTo(s, [step], Do(s, step)) && AllCalm([step], s.announced);
    StepKeepsInv(s, step);
  }

  /** What the steps below leave alone: what is announced, and peer `p` but for its queue. */
  predicate Kept(s: State, t: State, p: nat) {
    && t.announced == s.announced && p < |s.peers| == |t.peers|
    && t.peers[p] == s.peers[p].(queue := t.peers[p].queue)
    && (Shutdown !in s.peers[p].queue ==> Shutdown !in t.peers[p].queue)
  }

  /** The operation in progress sends the rest of its commands. */
  lemma {:induction false} FlushOutbox(s: State, p: nat) returns (t: State)
    requires Inv(s) && p < |s.peers| && forall i | 0 <= i < |s.outbox| :: s.outbox[i].1 != Shutdown
    ensures Leads(s, t) && Inv(t) && t.outbox == [] && t.events == s.events && Kept(s, t, p)
    decreases |s.outbox|
  {
    if s.outbox == [] {
      t := s;
      Stays(s);
    } else {
      OneStep(s, SendOut);
      var u := Do(s, SendOut);
      t := FlushOutbox(u, p);
      GoesOn(s, u, t);
    }
  }

  lemma {:induction false} FanOutIsNoShutdown(peers: seq<Peer>, i: nat, c: Command)
    requires i <= |peers| && c != Shutdown
    ensures forall k | 0 <= k < |FanOutFrom(peers, i, c)| :: FanOutFrom(peers, i, c)[k].1 != Shutdown
    decreases |peers| - i
  {
    if i < |peers| {
      FanOutIsNoShutdown(peers, i + 1, c);
    }
  }

  /** The event pump takes one event, and the re-announcement is sent. */
  lemma PumpOne(s: State, p: nat) returns (t: State)
    requires Inv(s) && p < |s.peers| && s.outbox == [] && s.events != []
    ensures Leads(s, t) && Inv(t) && t.outbox == [] && t.events == s.events[1..] && Kept(s, t, p)
  {
    var all := Ascending(s.announced);
    OneStep(s, PumpEvent(all));
    FanOutIsNoShutdown(s.peers, 0, Announce(all));
    var u := Do(s, PumpEvent(all));
    t := FlushOutbox(u, p);
    GoesOn(s, u, t);
  }

  lemma {:induction false} PumpAll(s: State, p: nat) returns (t: State)
    requires Inv(s) && p < |s.peers| && s.outbox == []
    ensures Leads(s, t) && Inv(t) && t.outbox == [] && t.events == [] && Kept(s, t, p)
    decreases |s.events|
  {
    if s.events == [] {
      t := s;
      Stays(s);
    } else {
      var u := PumpOne(s, p);
      t := PumpAll(u, p);
      GoesOn(s, u, t);
    }
  }

  /** A session that is down drops its queue and connects. */
  lemma {:induction false} Connect(s: State, p: nat) returns (t: State)
    requires Inv(s) && p < |s.peers| && Up(s.peers[p]) && s.outbox == [] && Shutdown !in s.peers[p].queue
    ensures Leads(s, t) && Inv(t) && t.outbox == [] && t.announced == s.announced
    ensures |t.peers| == |s.peers| && t.peers[p].phase == Established && Shutdown !in t.peers[p].queue
    decreases match s.peers[p].phase
              case Backoff => |s.peers[p].queue| + 3 case Draining => |s.peers[p].queue| + 2
              case Connecting => 1 case _ => 0
  {
    var x := s.peers[p];
    if x.phase == Established {
      t := s;
      Stays(s);
    } else {
      var step := match x.phase
        case Backoff => Wake(p)
        case Draining => if x.queue != [] then DrainOne(p) else StartConnect(p)
        case _ => ConnectOk(p);
      OneStep(s, step);
      t := Connect(Do(s, step), p);
      GoesOn(s, Do(s, step), t);
    }
  }

  /** Whatever has happened, a peer that is neither disabled nor shut down can still be brought
      to hold exactly the announced VIPs: the operation in progress finishes, the session
      connects if it is down, the event pump catches up, and the session sends what it has. */
  lemma CanConverge(s: State, p: nat) returns (t: State)
    requires Inv(s) && p < |s.peers| && Up(s.peers[p]) && Shutdown !in s.peers[p].queue
    requires forall i | 0 <= i < |s.outbox| :: s.outbox[i].1 != Shutdown
    ensures Leads(s, t) && t.announced == s.announced && p < |t.peers|
    ensures t.peers[p].phase == Established && Handled(t, p) && Pending(t, p) == []
    ensures t.peers[p].routes == s.announced
  {
    var a := FlushOutbox(s, p);
    var b := Connect(a, p);
    GoesOn(s, a, b);
    var d := PumpAll(b, p);
    GoesOn(s, b, d);
    var steps;
    steps, t := SessionSettles(d, p);
    assert AllCalm(steps, d.announced);
    assert Leads(d, t);
    GoesOn(s, d, t);
    assert PeerInv(d, p);
  }

  /** No operation ever queues a shutdown in the outbox. */
  predicate OutboxIsPlain(s: State) {
    forall i | 0 <= i < |s.outbox| :: s.outbox[i].1 != Shutdown
  }

  lemma StepKeepsPlain(s: State, step: Step)
    requires Enabled(s, step) && OutboxIsPlain(s)
    ensures OutboxIsPlain(Do(s, step))
  {
    match step
    case Sync(_, ann, wd) => {
      FanOutIsNoShutdown(s.peers, 0, Announce(ann));
      FanOutIsNoShutdown(s.peers, 0, Withdraw(wd));
    }
    case PumpEvent(all) => FanOutIsNoShutdown(s.peers, 0, Announce(all));
    case _ =>
  }

  lemma {:induction false} RunKeepsPlain(s: State, steps: seq<Step>, t: State)
    requires LeadsTo(s, steps, t) && OutboxIsPlain(s)
    ensures OutboxIsPlain(t)
    decreases steps
  {
    if steps != [] {
      StepKeepsPlain(s, steps[0]);
      RunKeepsPlain(Do(s, steps[0]), steps[1..], t);
    }
  }

  /** So from every reachable state. */
  lemma AlwaysCanConverge(s: State, steps: seq<Step>, t: State, p: nat) returns (u: State)
    requires Initial(s) && LeadsTo(s, steps, t) && p < |t.peers| && Up(t.peers[p]) && Shutdown !in t.peers[p].queue
    ensures Leads(t, u) && p < |u.peers| && u.peers[p].phase == Established && Handled(u, p) && Pending(u, p) == []
    ensures u.peers[p].routes == u.announced == t.announced
  {
    InitialInv(s);
    RunKeepsInv(s, steps, t);
    RunKeepsPlain(s, steps, t);
    u := CanConverge(t, p);
  }

  // ----- stopping a peer -----

  /** The next step of a peer that is to stop. */
  function StopStep(x: Peer, p: nat): Step
    requires x.queue != []
  {
    match x.phase
    case Established => if x.sending != [] then SendUpdate(p) else TakeCommand(p)
    case Draining => DrainOne(p)
    case Connecting => ConnectFail(p)
    case _ => WakeByCommand(p)
  }

  lemma StopStepWorks(s: State, p: nat)
    requires Inv(s) && p < |s.peers| && Up(s.peers[p]) && Shutdown in s.peers[p].queue
    ensures Enabled(s, StopStep(s.peers[p], p))
    ensures var t := Do(s, StopStep(s.peers[p], p));
            && p < |t.peers| && (t.peers[p].phase == Stopped || (Up(t.peers[p]) && Shutdown in t.peers[p].queue))
  {
    assert PeerInv(s, p);
  }

  /** How much the peer has still to send or drop before the shutdown. */
  function Ahead(q: seq<Command>): nat {
    if q == [] then 0 else 2 + |Updates(q[0])| + Ahead(q[1..])
  }

  lemma {:induction false} Stop(s: State, p: nat) returns (t: State)
    requires Inv(s) && p < |s.peers| && Up(s.peers[p]) && Shutdown in s.peers[p].queue
    ensures Leads(s, t) && Inv(t) && p < |t.peers| && t.peers[p].phase == Stopped
    decreases Ahead(s.peers[p].queue) + |s.peers[p].sending| + if s.peers[p].phase == Connecting then 1 else 0
  {
    var step := StopStep(s.peers[p], p);
    StopStepWorks(s, p);
    OneStep(s, step);
    t := Do(s, step);
    if t.peers[p].phase != Stopped {
      t := Stop(Do(s, step), p);
      GoesOn(s, Do(s, step), t);
    }
  }

  /** A shutdown reaches the peer whatever its session is doing: behind what is queued it ends the
      task, and the router is left without routes. */
  lemma CanStop(s: State, p: nat) returns (t: State)
    requires Inv(s) && p < |s.peers| && Up(s.peers[p])
    ensures Leads(s, t) && p < |t.peers| && t.peers[p].phase == Stopped && t.peers[p].routes == {}
  {
    OneStep(s, AskShutdown(p));
    var u := Do(s, AskShutdown(p));
    assert u.peers[p].queue[|s.peers[p].queue|] == Shutdown;
    t := Stop(u, p);
    GoesOn(s, u, t);
    assert PeerInv(t, p);
  }
}
