/**
 That the pipeline can always finish: from every reachable state, if nothing more is received,
 the steps of the threads bring every frame back to the free list. And where a packet is
 steered to.
 */
module PipelineProgress {
  import opened Common
  import opened Entries
  import opened Forwarding
  import opened Icmp
  import opened Pipeline
  import opened PipelineOrder
  import opened PipelinePool
  import ForwardingOutcomes
  import Gre

  lemma Stays(c: Config, s: Pipe)
    ensures Runs(c, s, s)
  {
    assert Leads(c, s, [], s);
  }

  /** A state the machine can be in; a draining muxer is at one of the queues. */
  ghost predicate Going(c: Config, s: Pipe) {
    Inv(c, s) && (s.mux.Draining? ==> s.mux.at < |s.lanes|)
  }

  lemma OneStep(c: Config, s: Pipe, step: Step)
    requires Going(c, s) && Enabled(c, s, step)
    ensures Runs(c, s, Do(c, s, step)) && Going(c, Do(c, s, step))
  {
    RunsStep(c, s, step);
    StepKeepsInv(c, s, step);
  }

  // ----- steering and rewriters -----

  /** Steering lets go of the frame in its hand. */
  lemma EmptyHand(c: Config, s: Pipe) returns (t: Pipe)
    requires Going(c, s)
    ensures Runs(c, s, t) && Going(c, t) && t.hand.Nothing?
  {
    t := s;
    Stays(c, s);
    if t.hand.Taken? {
      OneStep(c, t, Write);
      t := Do(c, t, Write);
    }
    if t.hand.Filled? {
      var u := t;
      OneStep(c, u, Steer);
      t := Do(c, u, Steer);
      RunsOn(c, s, u, t);
    }
  }

  /** What rewriter `i` still has to do. */
  function LaneWork(l: Lane): nat {
    5 * |l.rx| + 4 * |l.batch| + (match l.phase case Filling => 2 case Working => 1 case Carrying => 0)
  }

  predicate LaneRests(l: Lane) {
    l.rx == [] && l.batch == [] && l.phase == Filling
  }

  /** Nothing that the rewriter of lane `i` does concerns the others. */
  predicate OnlyLane(s: Pipe, t: Pipe, i: nat) {
    && |t.lanes| == |s.lanes| && t.hand == s.hand
    && forall j: nat | j < |s.lanes| && j != i :: LaneRests(s.lanes[j]) ==> LaneRests(t.lanes[j])
  }

  function NextOfLane(c: Config, s: Pipe, i: nat): (step: Step)
    requires i < |s.lanes| && !LaneRests(s.lanes[i])
  {
    var l := s.lanes[i];
    match l.phase
    case Filling =>
      if l.rx != [] && |l.batch| < BATCH_DRAIN_SIZE then Drain(i) else Begin(i)
    case Working =>
      if && l.batch != [] && l.batch[0] < |s.frames|
         && |s.frames[l.batch[0]].bytes| + Gre.ENCAP_OVERHEAD <= PACKET_BUF_SIZE
      then Encapsulate(i, 0) else Discard(i)
    case Carrying => Push(i)
  }

  lemma LaneStep(c: Config, s: Pipe, i: nat)
    requires Going(c, s) && i < |s.lanes| && !LaneRests(s.lanes[i])
    ensures var step := NextOfLane(c, s, i);
            Enabled(c, s, step) && OnlyLane(s, Do(c, s, step), i)
            && LaneWork(Do(c, s, step).lanes[i]) < LaneWork(s.lanes[i])
  {
    var l := s.lanes[i];
    assert LaneInv(c, s, i, l);
    if l.batch != [] {
      HeadIsFrame(s, i);
    }
  }

  lemma HeadIsFrame(s: Pipe, i: nat)
    requires Owned(s) && i < |s.lanes| && s.lanes[i].batch != []
    ensures s.lanes[i].batch[0] < |s.frames|
  {
    CountHeadLine(s.lanes[i], s.lanes[i].batch[0]);
    LaneIsApart(s, i, s.lanes[i].batch[0]);
  }

  /** The rewriter of lane `i` works off what it has. */
  lemma {:induction false} EmptyLane(c: Config, s: Pipe, i: nat) returns (t: Pipe)
    requires Going(c, s) && i < |s.lanes|
    ensures Runs(c, s, t) && Going(c, t) && OnlyLane(s, t, i) && LaneRests(t.lanes[i])
    decreases LaneWork(s.lanes[i])
  {
    if LaneRests(s.lanes[i]) {
      t := s;
      Stays(c, s);
    } else {
      var step := NextOfLane(c, s, i);
      LaneStep(c, s, i);
      OneStep(c, s, step);
      var u := Do(c, s, step);
      t := EmptyLane(c, u, i);
      RunsOn(c, s, u, t);
    }
  }

  lemma {:induction false} EmptyLanes(c: Config, s: Pipe, n: nat) returns (t: Pipe)
    requires Going(c, s) && n <= |s.lanes| && s.hand.Nothing?
    ensures Runs(c, s, t) && Going(c, t) && t.hand.Nothing? && forall i: nat | i < n :: LaneRests(t.lanes[i])
  {
    if n == 0 {
      t := s;
      Stays(c, s);
    } else {
      var u := EmptyLanes(c, s, n - 1);
      t := EmptyLane(c, u, n - 1);
      RunsOn(c, s, u, t);
    }
  }

  // ----- the muxer -----

  function AllTx(lanes: seq<Lane>): nat {
    if lanes == [] then 0 else AllTx(lanes[..|lanes| - 1]) + |lanes[|lanes| - 1].tx|
  }

  lemma {:induction false} AllTxUpdate(lanes: seq<Lane>, i: nat, l: Lane)
    requires i < |lanes|
    ensures AllTx(lanes[i := l]) == AllTx(lanes) - |lanes[i].tx| + |l.tx|
  {
    var n := |lanes| - 1;
    if i < n {
      assert lanes[i := l][..n] == lanes[..n][i := l];
      AllTxUpdate(lanes[..n], i, l);
    } else {
      assert lanes[i := l][..n] == lanes[..n];
    }
  }

  lemma {:induction false} AllTxHas(lanes: seq<Lane>, i: nat)
    requires i < |lanes|
    ensures |lanes[i].tx| <= AllTx(lanes)
  {
    if i < |lanes| - 1 {
      AllTxHas(lanes[..|lanes| - 1], i);
    }
  }

  lemma {:induction false} AllOutHas(lanes: seq<Lane>, i: nat)
    requires i < |lanes|
    ensures |lanes[i].out| <= AllOut(lanes)
  {
    if i < |lanes| - 1 {
      AllOutHas(lanes[..|lanes| - 1], i);
    }
  }

  lemma {:induction false} SomeTx(lanes: seq<Lane>) returns (i: nat)
    requires 0 < AllTx(lanes)
    ensures i < |lanes| && lanes[i].tx != []
  {
    var n := |lanes| - 1;
    if lanes[n].tx != [] {
      i := n;
    } else {
      i := SomeTx(lanes[..n]);
    }
  }

  lemma {:induction false} FirstOut(lanes: seq<Lane>) returns (i: nat)
    requires 0 < AllOut(lanes)
    ensures i < |lanes| && lanes[i].out != [] && forall j | 0 <= j < i :: lanes[j].out == []
  {
    var n := |lanes| - 1;
    if 0 < AllOut(lanes[..n]) {
      i := FirstOut(lanes[..n]);
    } else {
      i := n;
      forall j | 0 <= j < n
        ensures lanes[j].out == []
      {
        AllOutHas(lanes[..n], j);
      }
    }
  }

  /** Only the muxer is at work. */
  ghost predicate Quiet(c: Config, s: Pipe) {
    Going(c, s) && s.hand.Nothing? && forall i: nat | i < |s.lanes| :: LaneRests(s.lanes[i])
  }

  function NextDrain(c: Config, s: Pipe): Step
    requires s.mux.Draining? && s.mux.at < |s.lanes|
  {
    if c.batchSize <= AllOut(s.lanes) then MuxSend
    else if s.lanes[s.mux.at].tx != [] then MuxPop
    else if s.mux.at + 1 < |s.lanes| then MuxNext else MuxSend
  }

  lemma DrainStep(c: Config, s: Pipe)
    requires Quiet(c, s) && s.mux.Draining?
    ensures var step := NextDrain(c, s);
            && Enabled(c, s, step) && Runs(c, s, Do(c, s, step)) && Quiet(c, Do(c, s, step))
            && |Do(c, s, step).lanes| == |s.lanes|
    ensures NextDrain(c, s) == MuxPop ==> AllTx(Do(c, s, MuxPop).lanes) < AllTx(s.lanes)
  {
    var step := NextDrain(c, s);
    OneStep(c, s, step);
    if step == MuxPop {
      AllTxUpdate(s.lanes, s.mux.at, Do(c, s, step).lanes[s.mux.at]);
    }
  }

  /** Something waits at or behind the queue the muxer is at. */
  predicate Waits(s: Pipe) {
    s.mux.Draining? && exists i | s.mux.at <= i < |s.lanes| :: s.lanes[i].tx != []
  }

  /** It goes through the queues until it stops draining; if something waits there and its batch
      has room, it takes something. */
  lemma {:induction false} DrainQueues(c: Config, s: Pipe) returns (t: Pipe)
    requires Quiet(c, s) && s.mux.Draining?
    ensures Runs(c, s, t) && Quiet(c, t) && t.mux.Copying? && AllTx(t.lanes) <= AllTx(s.lanes)
    ensures AllOut(s.lanes) < c.batchSize && Waits(s) ==> AllTx(t.lanes) < AllTx(s.lanes)
    decreases |s.lanes| - s.mux.at, AllTx(s.lanes)
  {
    var step := NextDrain(c, s);
    DrainStep(c, s);
    var u := Do(c, s, step);
    if step == MuxSend {
      t := u;
    } else {
      assert step == MuxNext && Waits(s) ==> Waits(u);
      t := DrainQueues(c, u);
      RunsOn(c, s, u, t);
    }
  }

  /** It sends what it has, frees it and starts over. */
  lemma {:induction false} SendAll(c: Config, s: Pipe) returns (t: Pipe)
    requires Quiet(c, s) && s.mux.Copying?
    ensures Runs(c, s, t) && Quiet(c, t) && t.mux == Draining(0) && AllOut(t.lanes) == 0 && t.spent == []
    ensures AllTx(t.lanes) == AllTx(s.lanes)
    decreases AllOut(s.lanes), |s.spent|
  {
    if 0 < AllOut(s.lanes) {
      var i := FirstOut(s.lanes);
      OutIsFrame(s, i);
      OneStep(c, s, MuxCopy(i));
      var u := Do(c, s, MuxCopy(i));
      AllOutUpdate(s.lanes, i, u.lanes[i]);
      AllTxUpdate(s.lanes, i, u.lanes[i]);
      t := SendAll(c, u);
      RunsOn(c, s, u, t);
    } else if s.spent != [] {
      OneStep(c, s, MuxFree);
      t := SendAll(c, Do(c, s, MuxFree));
      RunsOn(c, s, Do(c, s, MuxFree), t);
    } else {
      OneStep(c, s, MuxRestart);
      t := Do(c, s, MuxRestart);
    }
  }

  lemma OutIsFrame(s: Pipe, i: nat)
    requires Owned(s) && i < |s.lanes| && s.lanes[i].out != []
    ensures s.lanes[i].out[0] < |s.frames|
  {
    var l := s.lanes[i];
    var k := l.out[0];
    assert l.Line() == [k] + (l.out[1..] + l.tx + l.batch + l.rx);
    CountConcat([k], l.out[1..] + l.tx + l.batch + l.rx, k);
    LaneIsApart(s, i, k);
  }

  /** Round after round until the queues are empty. */
  lemma {:induction false} EmptyQueues(c: Config, s: Pipe) returns (t: Pipe)
    requires Quiet(c, s) && s.mux == Draining(0) && AllOut(s.lanes) == 0 && s.spent == [] && 0 < c.batchSize
    ensures Runs(c, s, t) && Quiet(c, t) && t.mux == Draining(0) && t.spent == []
    ensures AllOut(t.lanes) == 0 && AllTx(t.lanes) == 0
    decreases AllTx(s.lanes)
  {
    if AllTx(s.lanes) == 0 {
      t := s;
      Stays(c, s);
    } else {
      var i := SomeTx(s.lanes);
      var u := DrainQueues(c, s);
      var v := SendAll(c, u);
      RunsOn(c, s, u, v);
      t := EmptyQueues(c, v);
      RunsOn(c, s, v, t);
    }
  }

  lemma {:induction false} NothingLoaded(lanes: seq<Lane>)
    requires AllOut(lanes) == 0 && AllTx(lanes) == 0 && forall i: nat | i < |lanes| :: LaneRests(lanes[i])
    ensures Load(lanes) == 0
  {
    if lanes != [] {
      NothingLoaded(lanes[..|lanes| - 1]);
    }
  }

  /** Nothing is on its way. */
  ghost predicate Rest(c: Config, s: Pipe) {
    && Quiet(c, s) && s.mux == Draining(0) && s.spent == []
    && forall i: nat | i < |s.lanes| :: s.lanes[i].tx == [] && s.lanes[i].out == []
  }

  /** From every reachable state the pipeline can run empty: no frame is stuck, no thread waits
      for another for ever, and in the end every frame is free and nothing on its way. */
  lemma EverythingComesHome(c: Config, s: Pipe) returns (t: Pipe)
    requires Going(c, s) && 0 < c.batchSize
    ensures Runs(c, s, t) && Rest(c, t) && |t.free| == c.frames
  {
    var a := EmptyHand(c, s);
    var b := EmptyLanes(c, a, |a.lanes|);
    RunsOn(c, s, a, b);
    var d := b;
    Stays(c, b);
    if b.mux.Draining? {
      d := DrainQueues(c, b);
    }
    RunsOn(c, s, b, d);
    var e := SendAll(c, d);
    RunsOn(c, s, d, e);
    t := EmptyQueues(c, e);
    RunsOn(c, s, e, t);
    NothingLoaded(t.lanes);
    FramesAddUp(t);
    forall i: nat | i < |t.lanes|
      ensures t.lanes[i].tx == [] && t.lanes[i].out == []
    {
      AllTxHas(t.lanes, i);
      AllOutHas(t.lanes, i);
    }
  }

  lemma {:induction false} RunKeepsGoing(c: Config, s: Pipe, steps: seq<Step>, t: Pipe)
    requires Going(c, s) && Leads(c, s, steps, t)
    ensures Going(c, t)
    decreases |steps|
  {
    if steps != [] {
      OneStep(c, s, steps[0]);
      RunKeepsGoing(c, Do(c, s, steps[0]), steps[1..], t);
    }
  }

  /** So in particular after every run from the start. */
  lemma AlwaysComesHome(c: Config, steps: seq<Step>, t: Pipe) returns (u: Pipe)
    requires 0 < c.lanes && 0 < c.batchSize && Leads(c, Initial(c), steps, t)
    ensures Runs(c, t, u) && Rest(c, u) && |u.free| == c.frames
  {
    InitialInv(c);
    RunKeepsGoing(c, Initial(c), steps, t);
    u := EverythingComesHome(c, t);
  }

  // ----- a packet on its way -----

  lemma {:induction false} NoneOut(lanes: seq<Lane>)
    requires forall i: nat | i < |lanes| :: lanes[i].out == []
    ensures AllOut(lanes) == 0
  {
    if lanes != [] {
      NoneOut(lanes[..|lanes| - 1]);
    }
  }

  /** What steering makes of it. */
  lemma TakeIn(c: Config, s: Pipe, p: Packet) returns (t: Pipe, q: nat, k: nat)
    requires Rest(c, s) && s.free != []
    ensures q == AssignQueue(c, p) < |s.lanes| && k == s.free[0] < |s.frames|
    ensures Runs(c, s, t) && Going(c, t)
    ensures t == s.(frames := s.frames[k := Frame(p, |s.log|)], log := s.log + [p], free := s.free[1..],
                    lanes := s.lanes[q := s.lanes[q].(rx := [k])])
  {
    OneStep(c, s, Receive(p));
    var a := Do(c, s, Receive(p));
    OneStep(c, a, Write);
    var b := Do(c, a, Write);
    RunsOn(c, s, a, b);
    OneStep(c, b, Steer);
    t := Do(c, b, Steer);
    RunsOn(c, s, b, t);
    q, k := AssignQueue(c, p), s.free[0];
    assert s.lanes[q].rx + [k] == [k];
  }

  /** The rewriter takes it off its queue and starts on it. */
  lemma StartOn(c: Config, s: Pipe, q: nat, k: nat) returns (t: Pipe)
    requires Going(c, s) && q < |s.lanes| && k < |s.frames|
    requires s.lanes[q].rx == [k] && s.lanes[q].batch == [] && s.lanes[q].phase == Filling
    ensures Runs(c, s, t) && Going(c, t)
    ensures t == s.(lanes := s.lanes[q := s.lanes[q].(rx := [], batch := [k], phase := Working)])
  {
    OneStep(c, s, Drain(q));
    var a := Do(c, s, Drain(q));
    assert a.lanes[q].batch == [k] && a.lanes[q].rx == [];
    OneStep(c, a, Begin(q));
    t := Do(c, a, Begin(q));
    RunsOn(c, s, a, t);
  }

  /** And encapsulates it and hands it on. */
  lemma WorkOn(c: Config, s: Pipe, q: nat, k: nat, dst: Ipv4) returns (t: Pipe)
    requires Going(c, s) && q < |s.lanes| && k < |s.frames|
    requires s.lanes[q].batch == [k] && s.lanes[q].phase == Working && s.lanes[q].tx == []
    requires |s.frames[k].bytes| + Gre.ENCAP_OVERHEAD <= PACKET_BUF_SIZE
    ensures Runs(c, s, t) && Going(c, t)
    ensures t == s.(frames := s.frames[k := s.frames[k].(bytes := Gre.Encap(s.frames[k].bytes, c.src, dst))],
                    lanes := s.lanes[q := s.lanes[q].(batch := [], phase := Filling, tx := [k])])
  {
    OneStep(c, s, Encapsulate(q, dst));
    var a := Do(c, s, Encapsulate(q, dst));
    OneStep(c, a, Push(q));
    t := Do(c, a, Push(q));
    RunsOn(c, s, a, t);
    assert t.lanes[q] == s.lanes[q].(batch := [], phase := Filling, tx := [k]);
  }

  /** The muxer passes by empty queues. */
  lemma {:induction false} PassBy(c: Config, s: Pipe, n: nat) returns (t: Pipe)
    requires Going(c, s) && s.mux.Draining? && s.mux.at <= n < |s.lanes|
    requires forall i: nat | s.mux.at <= i < n :: s.lanes[i].tx == []
    ensures Runs(c, s, t) && Going(c, t) && t == s.(mux := Draining(n))
    decreases n - s.mux.at
  {
    if s.mux.at == n {
      t := s;
      Stays(c, s);
    } else {
      OneStep(c, s, MuxNext);
      t := PassBy(c, Do(c, s, MuxNext), n);
      RunsOn(c, s, Do(c, s, MuxNext), t);
    }
  }

  /** It fetches the one frame and goes on to the last queue. */
  lemma Fetch(c: Config, s: Pipe, q: nat, k: nat) returns (t: Pipe)
    requires Going(c, s) && s.mux == Draining(0) && q < |s.lanes| && s.lanes[q].tx == [k] && 0 < c.batchSize
    requires forall i: nat | i < |s.lanes| :: s.lanes[i].out == [] && (i != q ==> s.lanes[i].tx == [])
    ensures Runs(c, s, t) && Going(c, t)
    ensures t == s.(mux := Copying, lanes := s.lanes[q := s.lanes[q].(tx := [], out := [k])])
  {
    var a := PassBy(c, s, q);
    NoneOut(a.lanes);
    OneStep(c, a, MuxPop);
    var b := Do(c, a, MuxPop);
    RunsOn(c, s, a, b);
    assert b.lanes[q] == s.lanes[q].(tx := [], out := [k]);
    var d := PassBy(c, b, |b.lanes| - 1);
    RunsOn(c, s, b, d);
    OneStep(c, d, MuxSend);
    t := Do(c, d, MuxSend);
    RunsOn(c, s, d, t);
  }

  /** It sends the frame and returns its index. */
  lemma SendOne(c: Config, s: Pipe, q: nat, k: nat) returns (t: Pipe)
    requires Going(c, s) && s.mux == Copying && s.spent == [] && k < |s.frames| && |s.free| < |s.frames|
    requires q < |s.lanes| && s.lanes[q].out == [k]
    requires forall i: nat | i < |s.lanes| && i != q :: s.lanes[i].out == []
    ensures Runs(c, s, t) && Going(c, t)
    ensures t == s.(mux := Draining(0), free := s.free + [k],
                    lanes := s.lanes[q := s.lanes[q].(out := [], sent := s.lanes[q].sent + [s.frames[k]])])
  {
    OneStep(c, s, MuxCopy(q));
    var a := Do(c, s, MuxCopy(q));
    assert a.spent == [k] && a.lanes[q].out == [];
    NoneOut(a.lanes);
    OneStep(c, a, MuxFree);
    var b := Do(c, a, MuxFree);
    RunsOn(c, s, a, b);
    OneStep(c, b, MuxRestart);
    t := Do(c, b, MuxRestart);
    RunsOn(c, s, b, t);
  }

  /** The machine after a packet has gone through. */
  function Through(s: Pipe, q: nat, k: nat, f: Frame, p: Packet): Pipe
    requires q < |s.lanes| && k < |s.frames| && s.free != []
  {
    s.(frames := s.frames[k := f], log := s.log + [p], free := s.free[1..] + [k],
       lanes := s.lanes[q := s.lanes[q].(sent := s.lanes[q].sent + [f])])
  }

  lemma RestAgain(c: Config, s: Pipe, q: nat, k: nat, f: Frame, p: Packet)
    requires Rest(c, s) && q < |s.lanes| && k < |s.frames| && s.free != [] && Going(c, Through(s, q, k, f, p))
    ensures Rest(c, Through(s, q, k, f, p))
  {
  }

  /** From the lane to the network. */
  lemma GoOut(c: Config, s: Pipe, a: Pipe, p: Packet, q: nat, k: nat, dst: Ipv4) returns (t: Pipe)
    requires Rest(c, s) && Going(c, a) && 0 < c.batchSize && |p| + Gre.ENCAP_OVERHEAD <= PACKET_BUF_SIZE
    requires q < |s.lanes| && k < |s.frames| && s.free != [] && |s.free| <= |s.frames|
    requires a == s.(frames := s.frames[k := Frame(p, |s.log|)], log := s.log + [p], free := s.free[1..],
                     lanes := s.lanes[q := s.lanes[q].(rx := [k])])
    ensures Runs(c, a, t) && Going(c, t) && t == Through(s, q, k, Frame(Gre.Encap(p, c.src, dst), |s.log|), p)
  {
    var b := StartOn(c, a, q, k);
    var d := WorkOn(c, b, q, k, dst);
    RunsOn(c, a, b, d);
    var e := Fetch(c, d, q, k);
    RunsOn(c, a, d, e);
    t := SendOne(c, e, q, k);
    RunsOn(c, a, e, t);
  }

  /** A packet can go all the way: when nothing else is on its way, one that fits a frame with
      24 bytes more can be received, steered to its lane, encapsulated for any backend, and
      handed to the network as the next of that lane, and its frame is free again. */
  lemma PacketGoesThrough(c: Config, s: Pipe, p: Packet, dst: Ipv4) returns (t: Pipe)
    requires Rest(c, s) && s.free != [] && 0 < c.batchSize && |p| + 24 <= 2048
    ensures Runs(c, s, t) && Rest(c, t) && |t.free| == |s.free| && t.log == s.log + [p]
    ensures var q := AssignQueue(c, p);
            && q < |s.lanes| == |t.lanes|
            && t.lanes[q].sent == s.lanes[q].sent + [Frame(Gre.Encap(p, c.src, dst), |s.log|)]
            && forall i: nat | i < |s.lanes| && i != q :: t.lanes[i].sent == s.lanes[i].sent
  {
    FramesAddUp(s);
    var a, q, k := TakeIn(c, s, p);
    t := GoOut(c, s, a, p, q, k, dst);
    RunsOn(c, s, a, t);
    RestAgain(c, s, q, k, Frame(Gre.Encap(p, c.src, dst), |s.log|), p);
  }

  // ----- where a packet is steered to -----

  /** IPv4 packets with ports go by their 5-tuple, IPv6 packets with ports right behind the fixed
      header by theirs, and everything else to the first lane. */
  lemma SteeredExactly(c: Config, d: Packet)
    requires 0 < c.lanes
    ensures AssignQueue(c, d) ==
            if ForwardingOutcomes.HasPorts(d) then c.flowHash(Key4(ParseMeta(d).value.tuple)) % c.lanes
            else if 44 <= |d| && d[0] / 16 == 6 && (d[6] == 6 || d[6] == 17) then
              c.flowHash(Key6(d[8..40], ForwardingOutcomes.Two(d, 40), ForwardingOutcomes.Two(d, 42),
                              if d[6] == 6 then Tcp else Udp)) % c.lanes
            else 0
  {
    ForwardingOutcomes.MetaExactly(d);
  }
}
