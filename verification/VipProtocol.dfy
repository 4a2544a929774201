/**
 The announcement protocol between the controller, one session task per BGP peer and
 the peer's router, as interleaved steps.

 The controller's operations hold a mutex, but the commands of one operation are sent
 peer by peer while session tasks run; `outbox` holds what the current operation has
 still to send. A session drops commands while it is down, and the event pump answers
 each `Connected` event with a re-announcement to all peers. A router starts a session
 with no routes and drops them when the session ends.
 */
module VipProtocol {
  import opened Common

  type Vip = Ipv4

  datatype Command = Announce(vips: seq<Vip>) | Withdraw(vips: seq<Vip>) | Shutdown

  /** One UPDATE message: a host route, reachable or withdrawn. */
  datatype Update = Reach(vip: Vip) | Unreach(vip: Vip)

  datatype Phase = Draining | Connecting | Established | Backoff | Stopped | Disabled

  /** One peer: its command queue, the updates of the command being sent, the updates
      on their way to the router, and the routes the router holds. `epoch` numbers the
      sessions. */
  datatype Peer = Peer(phase: Phase, queue: seq<Command>, sending: seq<Update>, wire: seq<Update>,
                       routes: set<Vip>, epoch: nat)

  datatype Event = Connected(peer: nat, epoch: nat) | Other(peer: nat)

  datatype State = State(peers: seq<Peer>, events: seq<Event>, announced: set<Vip>, outbox: seq<(nat, Command)>)

  datatype Step =
    | Sync(desired: set<Vip>, toAnnounce: seq<Vip>, toWithdraw: seq<Vip>)  // config or health change, or withdraw_all
    | PumpEvent(all: seq<Vip>)   // the event pump takes the next event
    | SendOut                    // the operation in progress sends its next command
    | AskShutdown(p: nat)        // the speaker shuts one peer down
    | DrainOne(p: nat)           // a session that is down drops a queued command
    | StartConnect(p: nat)
    | ConnectOk(p: nat)
    | ConnectFail(p: nat)
    | Wake(p: nat)               // the backoff timer fires
    | WakeByCommand(p: nat)      // or a command cuts the backoff short, and is dropped
    | TakeCommand(p: nat)
    | SendUpdate(p: nat)
    | Deliver(p: nat)
    | Lose(p: nat)               // any failure of an established session

  // ----- updates -----

  function Elems(vs: seq<Vip>): set<Vip> {
    set v | v in vs
  }

  function Reaches(vs: seq<Vip>): seq<Update> {
    if vs == [] then [] else [Reach(vs[0])] + Reaches(vs[1..])
  }

  function Unreaches(vs: seq<Vip>): seq<Update> {
    if vs == [] then [] else [Unreach(vs[0])] + Unreaches(vs[1..])
  }

  function Updates(c: Command): seq<Update> {
    match c
    case Announce(vs) => Reaches(vs)
    case Withdraw(vs) => Unreaches(vs)
    case Shutdown => []
  }

  function Flatten(q: seq<Command>): seq<Update> {
    if q == [] then [] else Updates(q[0]) + Flatten(q[1..])
  }

  /** The updates that the current operation has still to send to peer `p`. */
  function OutFor(outbox: seq<(nat, Command)>, p: nat): seq<Update> {
    if outbox == [] then []
    else (if outbox[0].0 == p then Updates(outbox[0].1) else []) + OutFor(outbox[1..], p)
  }

  function ApplyOne(routes: set<Vip>, u: Update): set<Vip> {
    match u
    case Reach(v) => routes + {v}
    case Unreach(v) => routes - {v}
  }

  function ApplyAll(routes: set<Vip>, us: seq<Update>): set<Vip>
    decreases us
  {
    if us == [] then routes else ApplyAll(ApplyOne(routes, us[0]), us[1..])
  }

  // ----- the steps -----

  predicate Up(p: Peer) {
    p.phase != Stopped && p.phase != Disabled
  }

  /** Send `c` to every enabled peer from number `i` on, unless it names no VIP. */
  function FanOutFrom(peers: seq<Peer>, i: nat, c: Command): seq<(nat, Command)>
    requires i <= |peers|
    decreases |peers| - i
  {
    if i == |peers| then []
    else (if peers[i].phase != Disabled then [(i, c)] else []) + FanOutFrom(peers, i + 1, c)
  }

  function FanOut(peers: seq<Peer>, c: Command): seq<(nat, Command)>
    requires !c.Shutdown?
  {
    if c.vips == [] then [] else FanOutFrom(peers, 0, c)
  }

  predicate Enabled(s: State, step: Step) {
    match step
    case Sync(desired, ann, wd) =>
      s.outbox == [] && Elems(ann) == desired - s.announced && Elems(wd) == s.announced - desired
    case PumpEvent(all) => s.outbox == [] && s.events != [] && Elems(all) == s.announced
    case SendOut => s.outbox != [] && s.outbox[0].0 < |s.peers|
    case AskShutdown(p) => p < |s.peers| && Up(s.peers[p])
    case DrainOne(p) => p < |s.peers| && s.peers[p].phase == Draining && s.peers[p].queue != []
    case StartConnect(p) => p < |s.peers| && s.peers[p].phase == Draining && s.peers[p].queue == []
    case ConnectOk(p) => p < |s.peers| && s.peers[p].phase == Connecting
    case ConnectFail(p) => p < |s.peers| && s.peers[p].phase == Connecting
    case Wake(p) => p < |s.peers| && s.peers[p].phase == Backoff
    case WakeByCommand(p) => p < |s.peers| && s.peers[p].phase == Backoff && s.peers[p].queue != []
    case TakeCommand(p) =>
      p < |s.peers| && s.peers[p].phase == Established && s.peers[p].sending == [] && s.peers[p].queue != []
    case SendUpdate(p) => p < |s.peers| && s.peers[p].phase == Established && s.peers[p].sending != []
    case Deliver(p) => p < |s.peers| && s.peers[p].phase == Established && s.peers[p].wire != []
    case Lose(p) => p < |s.peers| && s.peers[p].phase == Established
  }

  /** The session is gone: nothing is being sent, and the router forgets the routes. */
  function Down(x: Peer, phase: Phase): Peer {
    x.(phase := phase, sending := [], wire := [], routes := {})
  }

  /** A session that is not up takes a command off its queue: a shutdown ends the task,
      anything else is dropped. */
  function DropHead(x: Peer, phase: Phase): Peer
    requires x.queue != []
  {
    x.(queue := x.queue[1..], phase := if x.queue[0] == Shutdown then Stopped else phase)
  }

  function Do(s: State, step: Step): State
    requires Enabled(s, step)
  {
    match step
    case Sync(desired, ann, wd) =>
      s.(announced := desired, outbox := FanOut(s.peers, Announce(ann)) + FanOut(s.peers, Withdraw(wd)))
    case PumpEvent(all) =>
      s.(events := s.events[1..],
         outbox := if s.events[0].Connected? then FanOut(s.peers, Announce(all)) else [])
    case SendOut =>
      var (p, c) := s.outbox[0];
      var x := s.peers[p];
      s.(outbox := s.outbox[1..], peers := if Up(x) then s.peers[p := x.(queue := x.queue + [c])] else s.peers)
    case AskShutdown(p) =>
      s.(peers := s.peers[p := s.peers[p].(queue := s.peers[p].queue + [Shutdown])])
    case DrainOne(p) => s.(peers := s.peers[p := DropHead(s.peers[p], Draining)])
    case StartConnect(p) => s.(peers := s.peers[p := s.peers[p].(phase := Connecting)])
    case ConnectOk(p) =>
      var x := s.peers[p];
      s.(peers := s.peers[p := Down(x, Established).(epoch := x.epoch + 1)],
         events := s.events + [Connected(p, x.epoch + 1)])
    case ConnectFail(p) => s.(peers := s.peers[p := s.peers[p].(phase := Backoff)])
    case Wake(p) => s.(peers := s.peers[p := s.peers[p].(phase := Draining)])
    case WakeByCommand(p) => s.(peers := s.peers[p := DropHead(s.peers[p], Draining)])
    case TakeCommand(p) =>
      var x := s.peers[p];
      if x.queue[0] == Shutdown
      then s.(peers := s.peers[p := Down(DropHead(x, Stopped), Stopped)], events := s.events + [Other(p)])
      else s.(peers := s.peers[p := x.(queue := x.queue[1..], sending := Updates(x.queue[0]))])
    case SendUpdate(p) =>
      var x := s.peers[p];
      s.(peers := s.peers[p := x.(sending := x.sending[1..], wire := x.wire + [x.sending[0]])])
    case Deliver(p) =>
      var x := s.peers[p];
      s.(peers := s.peers[p := x.(wire := x.wire[1..], routes := ApplyOne(x.routes, x.wire[0]))])
    case Lose(p) => s.(peers := s.peers[p := Down(s.peers[p], Backoff)], events := s.events + [Other(p)])
  }

  predicate Initial(s: State) {
    && s.events == [] && s.announced == {} && s.outbox == []
    && forall p | 0 <= p < |s.peers| ::
         s.peers[p] in {Peer(Draining, [], [], [], {}, 0), Peer(Disabled, [], [], [], {}, 0)}
  }

  /** The states a list of steps leads to. */
  predicate LeadsTo(s: State, steps: seq<Step>, t: State)
    decreases steps
  {
    if steps == [] then s == t
    else Enabled(s, steps[0]) && LeadsTo(Do(s, steps[0]), steps[1..], t)
  }

  // ----- algebra of updates -----

  lemma {:induction false} ApplyConcat(r: set<Vip>, a: seq<Update>, b: seq<Update>)
    ensures ApplyAll(r, a + b) == ApplyAll(ApplyAll(r, a), b)
    decreases a
  {
    if a == [] {
      assert a + b == b;
    } else {
      assert (a + b)[1..] == a[1..] + b;
      ApplyConcat(ApplyOne(r, a[0]), a[1..], b);
    }
  }

  lemma {:induction false} ApplyMonotone(r: set<Vip>, q: set<Vip>, us: seq<Update>)
    requires r <= q
    ensures ApplyAll(r, us) <= ApplyAll(q, us)
    decreases us
  {
    if us != [] {
      ApplyMonotone(ApplyOne(r, us[0]), ApplyOne(q, us[0]), us[1..]);
    }
  }

  lemma {:induction false} ApplyReaches(r: set<Vip>, vs: seq<Vip>)
    ensures ApplyAll(r, Reaches(vs)) == r + Elems(vs)
    decreases vs
  {
    if vs != [] {
      ApplyReaches(r + {vs[0]}, vs[1..]);
      assert Elems(vs) == {vs[0]} + Elems(vs[1..]);
    }
  }

  lemma {:induction false} ApplyUnreaches(r: set<Vip>, vs: seq<Vip>)
    ensures ApplyAll(r, Unreaches(vs)) == r - Elems(vs)
    decreases vs
  {
    if vs != [] {
      ApplyUnreaches(r - {vs[0]}, vs[1..]);
      assert Elems(vs) == {vs[0]} + Elems(vs[1..]);
    }
  }

  lemma {:induction false} FlattenConcat(a: seq<Command>, b: seq<Command>)
    ensures Flatten(a + b) == Flatten(a) + Flatten(b)
  {
    if a == [] {
      assert a + b == b;
    } else {
      assert (a + b)[1..] == a[1..] + b;
      FlattenConcat(a[1..], b);
    }
  }

  lemma {:induction false} OutForConcat(a: seq<(nat, Command)>, b: seq<(nat, Command)>, p: nat)
    ensures OutFor(a + b, p) == OutFor(a, p) + OutFor(b, p)
  {
    if a == [] {
      assert a + b == b;
    } else {
      assert (a + b)[1..] == a[1..] + b;
      OutForConcat(a[1..], b, p);
    }
  }

  lemma {:induction false} OutForFanOutFrom(peers: seq<Peer>, i: nat, c: Command, p: nat)
    requires i <= |peers| && p < |peers|
    ensures OutFor(FanOutFrom(peers, i, c), p) == if i <= p && peers[p].phase != Disabled then Updates(c) else []
    decreases |peers| - i
  {
    if i < |peers| {
      OutForFanOutFrom(peers, i + 1, c, p);
      var head := if peers[i].phase != Disabled then [(i, c)] else [];
      OutForConcat(head, FanOutFrom(peers, i + 1, c), p);
      if peers[i].phase != Disabled {
        assert head[1..] == [];
      }
    }
  }

  /** A fan-out gives every enabled peer the updates of its command. */
  lemma OutForFanOut(peers: seq<Peer>, c: Command, p: nat)
    requires !c.Shutdown? && p < |peers| && peers[p].phase != Disabled
    ensures OutFor(FanOut(peers, c), p) == Updates(c)
  {
    OutForFanOutFrom(peers, 0, c, p);
  }

  // ----- the invariant -----

  /** The updates that will still reach peer `p`, if nothing goes wrong: on the wire, in
      the command being sent, in the queue, and in the rest of the operation in progress. */
  function Pending(s: State, p: nat): seq<Update>
    requires p < |s.peers|
  {
    s.peers[p].wire + s.peers[p].sending + Queued(s, p)
  }

  function Queued(s: State, p: nat): seq<Update>
    requires p < |s.peers|
  {
    Flatten(s.peers[p].queue) + OutFor(s.outbox, p)
  }

  /** What the router of peer `p` will hold once all that is pending has been applied. */
  function Outcome(s: State, p: nat): set<Vip>
    requires p < |s.peers|
  {
    ApplyAll(s.peers[p].routes, Pending(s, p))
  }

  /** The `Connected` event of the peer's current session has been handled. */
  predicate Handled(s: State, p: nat)
    requires p < |s.peers|
  {
    Connected(p, s.peers[p].epoch) !in s.events
  }

  predicate PeerInv(s: State, p: nat)
    requires p < |s.peers|
  {
    var x := s.peers[p];
    && (x.phase != Established ==> x.sending == [] && x.wire == [] && x.routes == {})
    && (Up(x) ==> ApplyAll({}, Queued(s, p)) <= s.announced)
    && (x.phase == Established ==> Outcome(s, p) <= s.announced)
    && (x.phase == Established && Handled(s, p) ==> Outcome(s, p) == s.announced)
  }

  predicate Inv(s: State) {
    && (forall i | 0 <= i < |s.outbox| :: s.outbox[i].0 < |s.peers|)
    && forall p: nat | p < |s.peers| :: PeerInv(s, p)
  }

  /** New updates for a peer come behind everything pending, and have the same effect on
      what a fresh session would learn and on what the current one will. */
  lemma QueueGrows(s: State, t: State, p: nat, us: seq<Update>)
    requires p < |s.peers| == |t.peers| && t.peers[p] == s.peers[p]
    requires OutFor(t.outbox, p) == OutFor(s.outbox, p) + us
    ensures ApplyAll({}, Queued(t, p)) == ApplyAll(ApplyAll({}, Queued(s, p)), us)
    ensures Outcome(t, p) == ApplyAll(Outcome(s, p), us)
  {
    assert Queued(t, p) == Queued(s, p) + us;
    assert Pending(t, p) == Pending(s, p) + us;
    ApplyConcat({}, Queued(s, p), us);
    ApplyConcat(s.peers[p].routes, Pending(s, p), us);
  }

  lemma SyncPeer(s: State, desired: set<Vip>, ann: seq<Vip>, wd: seq<Vip>, p: nat)
    requires Enabled(s, Sync(desired, ann, wd)) && p < |s.peers| && PeerInv(s, p)
    ensures PeerInv(Do(s, Sync(desired, ann, wd)), p)
  {
    var t := Do(s, Sync(desired, ann, wd));
    if s.peers[p].phase != Disabled {
      var us := Reaches(ann) + Unreaches(wd);
      OutForFanOut(s.peers, Announce(ann), p);
      OutForFanOut(s.peers, Withdraw(wd), p);
      OutForConcat(FanOut(s.peers, Announce(ann)), FanOut(s.peers, Withdraw(wd)), p);
      QueueGrows(s, t, p, us);
      forall r: set<Vip>
        ensures ApplyAll(r, us) == (r + (desired - s.announced)) - (s.announced - desired)
      {
        ApplyConcat(r, Reaches(ann), Unreaches(wd));
        ApplyReaches(r, ann);
        ApplyUnreaches(r + Elems(ann), wd);
      }
    }
  }

  lemma PumpPeer(s: State, all: seq<Vip>, p: nat)
    requires Enabled(s, PumpEvent(all)) && p < |s.peers| && PeerInv(s, p)
    ensures PeerInv(Do(s, PumpEvent(all)), p)
  {
    var t := Do(s, PumpEvent(all));
    var x := s.peers[p];
    if s.events[0].Connected? {
      if x.phase != Disabled {
        OutForFanOut(s.peers, Announce(all), p);
        QueueGrows(s, t, p, Reaches(all));
        ApplyReaches(ApplyAll({}, Queued(s, p)), all);
        ApplyReaches(Outcome(s, p), all);
      }
    } else {
      assert s.events == [s.events[0]] + s.events[1..];
      assert Queued(t, p) == Queued(s, p);
    }
  }

  /** What is said of a peer hangs on what is queued for it, not on where. */
  lemma SameQueued(s: State, t: State, p: nat)
    requires p < |s.peers| && p < |t.peers| && PeerInv(s, p)
    requires t.peers[p] == s.peers[p].(queue := t.peers[p].queue) && Queued(t, p) == Queued(s, p)
    requires t.announced == s.announced && t.events == s.events
    ensures PeerInv(t, p)
  {
  }

  /** A command that goes from the outbox to the queue of its peer stays queued. */
  lemma MovesToQueue(s: State, p: nat)
    requires Enabled(s, SendOut) && p < |s.peers| && (s.outbox[0].0 == p ==> Up(s.peers[p]))
    ensures Queued(Do(s, SendOut), p) == Queued(s, p)
  {
    var (q, c) := s.outbox[0];
    if q == p {
      FlattenConcat(s.peers[p].queue, [c]);
      assert [c][1..] == [];
    }
  }

  lemma SendOutPeer(s: State, p: nat)
    requires Enabled(s, SendOut) && p < |s.peers| && PeerInv(s, p)
    ensures PeerInv(Do(s, SendOut), p)
  {
    if s.outbox[0].0 == p ==> Up(s.peers[p]) {
      MovesToQueue(s, p);
      SameQueued(s, Do(s, SendOut), p);
    }
  }

  lemma AskShutdownPeer(s: State, q: nat, p: nat)
    requires Enabled(s, AskShutdown(q)) && p < |s.peers| && PeerInv(s, p)
    ensures PeerInv(Do(s, AskShutdown(q)), p)
  {
    var t := Do(s, AskShutdown(q));
    if p == q {
      FlattenConcat(s.peers[p].queue, [Shutdown]);
      assert Flatten([Shutdown]) == [] + Flatten([Shutdown][1..]) == [];
    }
    assert Queued(t, p) == Queued(s, p);
  }

  /** Losing the oldest command can only lose routes for a session that starts later. */
  lemma HeadDropped(s: State, t: State, p: nat)
    requires p < |s.peers| && p < |t.peers| && s.peers[p].queue != []
    requires t.peers[p].queue == s.peers[p].queue[1..] && t.outbox == s.outbox
    ensures ApplyAll({}, Queued(t, p)) <= ApplyAll({}, Queued(s, p))
  {
    var head := Updates(s.peers[p].queue[0]);
    assert Queued(s, p) == head + Queued(t, p);
    ApplyConcat({}, head, Queued(t, p));
    ApplyMonotone({}, ApplyAll({}, head), Queued(t, p));
  }

  /** A step of one session leaves what is said of the other peers alone. */
  lemma OthersKept(s: State, t: State, p: nat, q: nat)
    requires p < |s.peers| == |t.peers| && q < |s.peers| && p != q && PeerInv(s, p)
    requires t.peers[p] == s.peers[p] && t.outbox == s.outbox && t.announced == s.announced
    requires t.events == s.events || exists e: Event :: e.peer == q && t.events == s.events + [e]
    ensures PeerInv(t, p)
  {
    assert Queued(t, p) == Queued(s, p);
    assert Handled(t, p) <==> Handled(s, p);
  }

  lemma DownPeer(s: State, step: Step, p: nat)
    requires step in {DrainOne(p), StartConnect(p), ConnectFail(p), Wake(p), WakeByCommand(p)}
    requires Enabled(s, step) && PeerInv(s, p)
    ensures PeerInv(Do(s, step), p)
  {
    var t := Do(s, step);
    if step.DrainOne? || step.WakeByCommand? {
      HeadDropped(s, t, p);
    } else {
      assert Queued(t, p) == Queued(s, p);
    }
  }

  lemma ConnectPeer(s: State, p: nat)
    requires Enabled(s, ConnectOk(p)) && PeerInv(s, p)
    ensures PeerInv(Do(s, ConnectOk(p)), p)
  {
    var t := Do(s, ConnectOk(p));
    assert Queued(t, p) == Queued(s, p) == Pending(t, p);
    assert t.events[|s.events|] == Connected(p, t.peers[p].epoch);
  }

  lemma TakePeer(s: State, p: nat)
    requires Enabled(s, TakeCommand(p)) && PeerInv(s, p)
    ensures PeerInv(Do(s, TakeCommand(p)), p)
  {
    var t := Do(s, TakeCommand(p));
    if s.peers[p].queue[0] != Shutdown {
      HeadDropped(s, t, p);
      assert Pending(t, p) == Pending(s, p);
    }
  }

  lemma SendPeer(s: State, p: nat)
    requires Enabled(s, SendUpdate(p)) && PeerInv(s, p)
    ensures PeerInv(Do(s, SendUpdate(p)), p)
  {
    var t := Do(s, SendUpdate(p));
    assert Queued(t, p) == Queued(s, p);
    assert Pending(t, p) == Pending(s, p);
  }

  lemma DeliverPeer(s: State, p: nat)
    requires Enabled(s, Deliver(p)) && PeerInv(s, p)
    ensures PeerInv(Do(s, Deliver(p)), p)
  {
    var t := Do(s, Deliver(p));
    assert Queued(t, p) == Queued(s, p);
    assert Pending(s, p)[0] == s.peers[p].wire[0];
    assert Pending(s, p)[1..] == Pending(t, p);
  }

  lemma LosePeer(s: State, p: nat)
    requires Enabled(s, Lose(p)) && PeerInv(s, p)
    ensures PeerInv(Do(s, Lose(p)), p)
  {
    assert Queued(Do(s, Lose(p)), p) == Queued(s, p);
  }

  /** Every step of one session keeps what is said of its own peer. */
  lemma OwnStep(s: State, step: Step)
    requires step.DrainOne? || step.StartConnect? || step.ConnectOk? || step.ConnectFail? || step.Wake? ||
             step.WakeByCommand? || step.TakeCommand? || step.SendUpdate? || step.Deliver? || step.Lose?
    requires Enabled(s, step) && PeerInv(s, step.p)
    ensures PeerInv(Do(s, step), step.p)
  {
    if step.ConnectOk? {
      ConnectPeer(s, step.p);
    } else if step.TakeCommand? {
      TakePeer(s, step.p);
    } else if step.SendUpdate? {
      SendPeer(s, step.p);
    } else if step.Deliver? {
      DeliverPeer(s, step.p);
    } else if step.Lose? {
      LosePeer(s, step.p);
    } else {
      DownPeer(s, step, step.p);
    }
  }

  lemma {:induction false} FanOutInRange(peers: seq<Peer>, i: nat, c: Command)
    requires i <= |peers|
    ensures forall k | 0 <= k < |FanOutFrom(peers, i, c)| :: FanOutFrom(peers, i, c)[k].0 < |peers|
    decreases |peers| - i
  {
    if i < |peers| {
      FanOutInRange(peers, i + 1, c);
    }
  }

  lemma OutboxInRange(s: State, step: Step)
    requires Enabled(s, step) && forall i | 0 <= i < |s.outbox| :: s.outbox[i].0 < |s.peers|
    ensures var t := Do(s, step);
            |t.peers| == |s.peers| && forall i | 0 <= i < |t.outbox| :: t.outbox[i].0 < |t.peers|
  {
    match step
    case Sync(desired, ann, wd) => {
      FanOutInRange(s.peers, 0, Announce(ann));
      FanOutInRange(s.peers, 0, Withdraw(wd));
    }
    case PumpEvent(all) => FanOutInRange(s.peers, 0, Announce(all));
    case _ =>
  }

  lemma PeerStep(s: State, step: Step, p: nat)
    requires Enabled(s, step) && Inv(s) && p < |s.peers| == |Do(s, step).peers|
    ensures PeerInv(Do(s, step), p)
  {
    match step
    case Sync(desired, ann, wd) => SyncPeer(s, desired, ann, wd, p);
    case PumpEvent(all) => PumpPeer(s, all, p);
    case SendOut => SendOutPeer(s, p);
    case AskShutdown(q) => AskShutdownPeer(s, q, p);
    case _ =>
      if step.p == p {
        OwnStep(s, step);
      } else {
        OthersKept(s, Do(s, step), p, step.p);
      }
  }

  /** Every step, of whichever party, keeps the invariant. */
  lemma StepKeepsInv(s: State, step: Step)
    requires Enabled(s, step) && Inv(s)
    ensures Inv(Do(s, step))
  {
    OutboxInRange(s, step);
    forall p: nat | p < |s.peers|
      ensures PeerInv(Do(s, step), p)
    {
      PeerStep(s, step, p);
    }
  }

  lemma {:induction false} RunKeepsInv(s: State, steps: seq<Step>, t: State)
    requires Inv(s) && LeadsTo(s, steps, t)
    ensures Inv(t)
    decreases steps
  {
    if steps != [] {
      StepKeepsInv(s, steps[0]);
      RunKeepsInv(Do(s, steps[0]), steps[1..], t);
    }
  }

  /** Convergence safety, over every interleaving of syncs, connects, failures, drops,
      deliveries, shutdowns and events, from the initial state. For a peer with an
      established session, what its router will hold once everything pending is applied
      is a subset of the announced VIPs, and exactly the announced VIPs once the event of
      that session's connect has been handled. When nothing is pending any more, that is
      what the router holds now. */
  lemma ConvergenceSafety(s: State, steps: seq<Step>, t: State, p: nat)
    requires Initial(s) && LeadsTo(s, steps, t) && p < |t.peers| && t.peers[p].phase == Established
    ensures Outcome(t, p) <= t.announced
    ensures Handled(t, p) ==> Outcome(t, p) == t.announced
    ensures Pending(t, p) == [] ==> t.peers[p].routes <= t.announced
    ensures Pending(t, p) == [] && Handled(t, p) ==> t.peers[p].routes == t.announced
  {
    InitialInv(s);
    RunKeepsInv(s, steps, t);
    assert PeerInv(t, p);
  }

  /** The event matters: a command given while the session is down is dropped, and right
      after the connect, with nothing pending, the router lacks an announced VIP. */
  lemma UnhandledSessionMayLag(v: Vip)
    ensures var s := State([Peer(Draining, [], [], [], {}, 0)], [], {}, []);
            var steps := [Sync({v}, [v], []), SendOut, DrainOne(0), StartConnect(0), ConnectOk(0)];
            var t := State([Peer(Established, [], [], [], {}, 1)], [Connected(0, 1)], {v}, []);
            && Initial(s) && LeadsTo(s, steps, t) && t.peers[0].phase == Established && !Handled(t, 0)
            && Pending(t, 0) == [] && t.peers[0].routes != t.announced
  {
    var s := State([Peer(Draining, [], [], [], {}, 0)], [], {}, []);
    var a := State(s.peers, [], {v}, [(0, Announce([v]))]);
    var t := State([Peer(Established, [], [], [], {}, 1)], [Connected(0, 1)], {v}, []);
    assert Elems([v]) == {v} && Elems([]) == {};
    assert FanOutFrom(s.peers, 0, Announce([v])) == [(0, Announce([v]))];
    CommandDropped(v);
    LeadsOne(s, Sync({v}, [v], []), [SendOut, DrainOne(0), StartConnect(0), ConnectOk(0)], t);
    assert Pending(t, 0) == [];
  }

  lemma CommandDropped(v: Vip)
    ensures LeadsTo(State([Peer(Draining, [], [], [], {}, 0)], [], {v}, [(0, Announce([v]))]),
                    [SendOut, DrainOne(0), StartConnect(0), ConnectOk(0)],
                    State([Peer(Established, [], [], [], {}, 1)], [Connected(0, 1)], {v}, []))
  {
    var c := Announce([v]);
    var x := Peer(Draining, [], [], [], {}, 0);
    var a := State([x], [], {v}, [(0, c)]);
    var b := State([x.(queue := [c])], [], {v}, []);
    var d := State([x], [], {v}, []);
    assert a.outbox[1..] == [] && x.queue + [c] == [c] && [c][1..] == [];
    assert Do(a, SendOut) == b;
    assert DropHead(b.peers[0], Draining) == x;
    assert Do(b, DrainOne(0)) == d;
    var t := State([Peer(Established, [], [], [], {}, 1)], [Connected(0, 1)], {v}, []);
    LateConnect(v);
    LeadsOne(b, DrainOne(0), [StartConnect(0), ConnectOk(0)], t);
    LeadsOne(a, SendOut, [DrainOne(0), StartConnect(0), ConnectOk(0)], t);
  }

  lemma LateConnect(v: Vip)
    ensures LeadsTo(State([Peer(Draining, [], [], [], {}, 0)], [], {v}, []), [StartConnect(0), ConnectOk(0)],
                    State([Peer(Established, [], [], [], {}, 1)], [Connected(0, 1)], {v}, []))
  {
    var d := State([Peer(Draining, [], [], [], {}, 0)], [], {v}, []);
    var e := State([Peer(Connecting, [], [], [], {}, 0)], [], {v}, []);
    var t := State([Peer(Established, [], [], [], {}, 1)], [Connected(0, 1)], {v}, []);
    assert Do(d, StartConnect(0)) == e;
    assert Do(e, ConnectOk(0)) == t;
    LeadsOne(e, ConnectOk(0), [], t);
    LeadsOne(d, StartConnect(0), [ConnectOk(0)], t);
  }

  lemma LeadsOne(s: State, step: Step, rest: seq<Step>, t: State)
    requires Enabled(s, step) && LeadsTo(Do(s, step), rest, t)
    ensures LeadsTo(s, [step] + rest, t)
  {
    assert ([step] + rest)[1..] == rest;
  }

  lemma InitialInv(s: State)
    requires Initial(s)
    ensures Inv(s)
  {
    forall p: nat | p < |s.peers|
      ensures PeerInv(s, p)
    {
      assert s.peers[p] in {Peer(Draining, [], [], [], {}, 0), Peer(Disabled, [], [], [], {}, 0)};
      assert Queued(s, p) == [] == Pending(s, p);
    }
  }

  // ----- convergence -----

  /** How many steps of its own an established session needs to empty what is pending. */
  function Work(x: Peer): nat {
    2 * |x.sending| + |x.wire| + QueueWork(x.queue)
  }

  function QueueWork(q: seq<Command>): nat {
    if q == [] then 0 else 1 + 2 * |Updates(q[0])| + QueueWork(q[1..])
  }

  /** Left alone, with no operation in progress and no shutdown queued, an established
      session empties everything pending in `Work` steps of its own, and then the router
      holds what the invariant promised. */
  lemma {:induction false} SessionSettles(s: State, p: nat) returns (steps: seq<Step>, t: State)
    requires p < |s.peers| && s.peers[p].phase == Established && s.outbox == [] && Shutdown !in s.peers[p].queue
    ensures LeadsTo(s, steps, t) && |steps| == Work(s.peers[p])
    ensures forall step | step in steps :: step in {Deliver(p), SendUpdate(p), TakeCommand(p)}
    ensures p < |t.peers| && t.peers[p].phase == Established && Pending(t, p) == []
    ensures t.announced == s.announced && t.events == s.events && t.peers[p].routes == Outcome(s, p)
    decreases Work(s.peers[p])
  {
    var x := s.peers[p];
    if x.wire != [] {
      steps, t := SettleBy(s, p, Deliver(p));
    } else if x.sending != [] {
      steps, t := SettleBy(s, p, SendUpdate(p));
    } else if x.queue != [] {
      steps, t := SettleBy(s, p, TakeCommand(p));
    } else {
      steps, t := [], s;
      assert Pending(s, p) == [];
    }
  }

  lemma SettleBy(s: State, p: nat, step: Step) returns (steps: seq<Step>, t: State)
    requires p < |s.peers| && s.peers[p].phase == Established && s.outbox == [] && Shutdown !in s.peers[p].queue
    requires step in {Deliver(p), SendUpdate(p), TakeCommand(p)} && Enabled(s, step)
    ensures LeadsTo(s, steps, t) && |steps| == Work(s.peers[p])
    ensures forall step | step in steps :: step in {Deliver(p), SendUpdate(p), TakeCommand(p)}
    ensures p < |t.peers| && t.peers[p].phase == Established && Pending(t, p) == []
    ensures t.announced == s.announced && t.events == s.events && t.peers[p].routes == Outcome(s, p)
    decreases Work(s.peers[p]), 0
  {
    var u := Do(s, step);
    StepWorks(s, p, step);
    var rest;
    rest, t := SessionSettles(u, p);
    steps := [step] + rest;
    assert steps[1..] == rest;
  }

  lemma StepWorks(s: State, p: nat, step: Step)
    requires p < |s.peers| && s.peers[p].phase == Established && s.outbox == [] && Shutdown !in s.peers[p].queue
    requires step in {Deliver(p), SendUpdate(p), TakeCommand(p)} && Enabled(s, step)
    ensures var u := Do(s, step);
            && |u.peers| == |s.peers| && Work(u.peers[p]) == Work(s.peers[p]) - 1
            && u.peers[p].phase == Established && u.outbox == [] && Shutdown !in u.peers[p].queue
            && u.announced == s.announced && u.events == s.events && Outcome(u, p) == Outcome(s, p)
  {
    if step == Deliver(p) {
      DeliverWorks(s, p);
    } else if step == SendUpdate(p) {
      assert Pending(Do(s, step), p) == Pending(s, p);
    } else {
      TakeWorks(s, p);
    }
  }

  lemma DeliverWorks(s: State, p: nat)
    requires Enabled(s, Deliver(p))
    ensures Outcome(Do(s, Deliver(p)), p) == Outcome(s, p)
  {
    assert Pending(s, p)[0] == s.peers[p].wire[0];
    assert Pending(s, p)[1..] == Pending(Do(s, Deliver(p)), p);
  }

  lemma TakeWorks(s: State, p: nat)
    requires Enabled(s, TakeCommand(p)) && Shutdown !in s.peers[p].queue
    ensures var u := Do(s, TakeCommand(p));
            && Outcome(u, p) == Outcome(s, p) && Work(u.peers[p]) == Work(s.peers[p]) - 1
            && Shutdown !in u.peers[p].queue
  {
    var u := Do(s, TakeCommand(p));
    assert s.peers[p].queue == [s.peers[p].queue[0]] + u.peers[p].queue;
    assert Pending(u, p) == Pending(s, p);
  }
}
