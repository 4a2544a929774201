/**
 What comes out of the pipeline: in every interleaving, the packets a lane has handed to
 the network are, in order, encapsulations of packets steered to that lane.
 */
module PipelineOrder {
  import opened Common
  import opened Forwarding
  import opened Icmp
  import opened Pipeline
  import Gre

  /** `out` is `p` encapsulated for some backend. */
  ghost predicate IsEncap(c: Config, out: Packet, p: Packet) {
    |p| + Gre.ENCAP_OVERHEAD <= PACKET_BUF_SIZE && exists dst: Ipv4 :: out == Gre.Encap(p, c.src, dst)
  }

  /** A frame of lane `i`: it carries a received packet that was steered there, as it came
      or, when `done`, encapsulated. */
  ghost predicate FrameOk(c: Config, f: Frame, log: seq<Packet>, limit: nat, i: nat, done: bool) {
    && 0 < c.lanes && f.tag < limit <= |log|
    && AssignQueue(c, log[f.tag]) == i
    && (if done then IsEncap(c, f.bytes, log[f.tag]) else f.bytes == log[f.tag])
  }

  /** Frames in the order of arrival, the first `done` of them encapsulated. */
  ghost predicate TrailOk(c: Config, log: seq<Packet>, limit: nat, i: nat, trail: seq<Frame>, done: nat) {
    && (forall j | 0 <= j < |trail| :: FrameOk(c, trail[j], log, limit, i, j < done))
    && (forall j, k | 0 <= j < k < |trail| :: trail[j].tag < trail[k].tag)
  }

  function FrameAt(frames: seq<Frame>, k: nat): Frame {
    if k < |frames| then frames[k] else Frame([], 0)
  }

  function Contents(frames: seq<Frame>, line: seq<nat>): (r: seq<Frame>)
    ensures |r| == |line| && forall j | 0 <= j < |line| :: r[j] == FrameAt(frames, line[j])
  {
    seq(|line|, j requires 0 <= j < |line| => FrameAt(frames, line[j]))
  }

  /** Everything that has gone into the lane and was not dropped: what was sent, then what
      is on its way. */
  function Trail(frames: seq<Frame>, l: Lane): seq<Frame> {
    l.sent + Contents(frames, l.Line())
  }

  /** Packets numbered below the limit may be in lanes; the last one may be in the hand. */
  function Limit(s: Pipe): nat {
    if s.hand.Filled? && s.log != [] then |s.log| - 1 else |s.log|
  }

  predicate Bounded(l: Lane) {
    && |l.rx| <= QUEUE_CAPACITY && |l.tx| <= QUEUE_CAPACITY && |l.batch| <= BATCH_DRAIN_SIZE
    && (l.phase == Filling || l.batch != [])
  }

  ghost predicate LaneInv(c: Config, s: Pipe, i: nat, l: Lane) {
    Bounded(l) && TrailOk(c, s.log, Limit(s), i, Trail(s.frames, l), |l.sent| + l.Done())
  }

  /** The frame in the hand holds the last packet received. */
  predicate HandInv(s: Pipe) {
    && (!s.hand.Nothing? ==> s.hand.idx < |s.frames|)
    && (s.hand.Filled? ==> s.log != [] && s.frames[s.hand.idx] == Frame(s.log[|s.log| - 1], |s.log| - 1))
  }

  ghost predicate LanesInv(c: Config, s: Pipe) {
    forall i: nat | i < |s.lanes| :: LaneInv(c, s, i, s.lanes[i])
  }

  ghost predicate Inv(c: Config, s: Pipe) {
    0 < c.lanes == |s.lanes| && |s.frames| == c.frames && Owned(s) && HandInv(s) && LanesInv(c, s)
  }

  // ----- trails -----

  lemma {:induction false} CountZero(line: seq<nat>, k: nat, j: nat)
    requires Times(line, k) == 0 && j < |line|
    ensures line[j] != k
  {
    if 0 < j {
      CountZero(line[1..], k, j - 1);
    }
  }

  /** A write to a frame that is not in the line does not show in it. */
  lemma ContentsElsewhere(frames: seq<Frame>, line: seq<nat>, k: nat, f: Frame)
    requires k < |frames| && Times(line, k) == 0
    ensures Contents(frames[k := f], line) == Contents(frames, line)
  {
    forall j: nat | j < |line|
      ensures line[j] != k
    {
      CountZero(line, k, j);
    }
  }

  lemma ContentsConcat(frames: seq<Frame>, a: seq<nat>, b: seq<nat>)
    ensures Contents(frames, a + b) == Contents(frames, a) + Contents(frames, b)
  {
  }

  /** The line around one index. */
  lemma ContentsAround(frames: seq<Frame>, a: seq<nat>, k: nat, b: seq<nat>)
    ensures Contents(frames, a + ([k] + b)) == Contents(frames, a) + ([FrameAt(frames, k)] + Contents(frames, b))
  {
  }

  /** Dropping a frame keeps the others in order. */
  lemma TrailDrop(c: Config, log: seq<Packet>, limit: nat, i: nat, a: seq<Frame>, f: Frame, b: seq<Frame>, done: nat)
    requires TrailOk(c, log, limit, i, a + ([f] + b), done) && |a| <= done <= |a| + 1
    ensures TrailOk(c, log, limit, i, a + b, |a|)
  {
    var t, u := a + ([f] + b), a + b;
    assert forall j: nat | j < |a| :: u[j] == t[j];
    assert forall j: nat | |a| <= j < |u| :: u[j] == t[j + 1];
  }

  /** Encapsulating the next frame. */
  lemma TrailEncap(c: Config, log: seq<Packet>, limit: nat, i: nat, a: seq<Frame>, f: Frame, b: seq<Frame>, dst: Ipv4)
    requires TrailOk(c, log, limit, i, a + ([f] + b), |a|) && |f.bytes| + Gre.ENCAP_OVERHEAD <= PACKET_BUF_SIZE
    ensures TrailOk(c, log, limit, i, a + ([Frame(Gre.Encap(f.bytes, c.src, dst), f.tag)] + b), |a| + 1)
  {
    var t := a + ([f] + b);
    var g := Frame(Gre.Encap(f.bytes, c.src, dst), f.tag);
    var u := a + ([g] + b);
    assert t[|a|] == f;
    assert forall j: nat | j < |t| && j != |a| :: u[j] == t[j];
  }

  /** The packet just received goes to the end. */
  lemma TrailAppend(c: Config, log: seq<Packet>, i: nat, trail: seq<Frame>, done: nat, f: Frame)
    requires log != [] && TrailOk(c, log, |log| - 1, i, trail, done) && done <= |trail|
    requires f.tag == |log| - 1 && FrameOk(c, f, log, |log|, i, false)
    ensures TrailOk(c, log, |log|, i, trail + [f], done)
  {
  }

  lemma TrailGrows(c: Config, log: seq<Packet>, limit: nat, log': seq<Packet>, limit': nat,
                   i: nat, trail: seq<Frame>, done: nat)
    requires TrailOk(c, log, limit, i, trail, done) && log <= log' && limit <= limit' <= |log'|
    ensures TrailOk(c, log', limit', i, trail, done)
  {
    forall j: nat | j < |trail|
      ensures FrameOk(c, trail[j], log', limit', i, j < done)
    {
      assert FrameOk(c, trail[j], log, limit, i, j < done);
    }
  }

  // ----- lanes -----

  /** A lane whose frames are not written and which no step of its own concerns. */
  lemma LaneKept(c: Config, s: Pipe, t: Pipe, i: nat, l: Lane)
    requires LaneInv(c, s, i, l) && s.log <= t.log && Limit(s) <= Limit(t)
    requires Contents(t.frames, l.Line()) == Contents(s.frames, l.Line())
    ensures LaneInv(c, t, i, l)
  {
    TrailGrows(c, s.log, Limit(s), t.log, Limit(t), i, Trail(s.frames, l), |l.sent| + l.Done());
  }

  /** A lane that only moves frames from one of its places to the next. */
  lemma LaneMoved(c: Config, s: Pipe, i: nat, l: Lane, m: Lane)
    requires LaneInv(c, s, i, l) && Bounded(m) && m.Line() == l.Line() && m.sent == l.sent && m.Done() == l.Done()
    ensures LaneInv(c, s, i, m)
  {
  }

  function Before(frames: seq<Frame>, l: Lane): seq<Frame> {
    l.sent + Contents(frames, l.out + l.tx)
  }

  function Behind(frames: seq<Frame>, l: Lane): seq<Frame>
    requires l.batch != []
  {
    Contents(frames, l.batch[1..] + l.rx)
  }

  /** The trail around the head of the batch. */
  lemma TrailAround(frames: seq<Frame>, l: Lane)
    requires l.batch != []
    ensures Trail(frames, l) == Before(frames, l) + ([FrameAt(frames, l.batch[0])] + Behind(frames, l))
    ensures Trail(frames, PopHead(l)) == Before(frames, l) + Behind(frames, l)
  {
    var a, b := l.out + l.tx, l.batch[1..] + l.rx;
    HeadLine(l);
    ContentsAround(frames, a, l.batch[0], b);
    ContentsConcat(frames, a, b);
  }

  /** The same after a write to that head, when it is nowhere else in the lane. */
  lemma TrailWritten(frames: seq<Frame>, l: Lane, g: Frame)
    requires l.batch != [] && l.batch[0] < |frames| && Times(l.Line(), l.batch[0]) == 1
    ensures Trail(frames[l.batch[0] := g], l) == Before(frames, l) + ([g] + Behind(frames, l))
  {
    var a, k, b := l.out + l.tx, l.batch[0], l.batch[1..] + l.rx;
    HeadLine(l);
    CountConcat(a, [k] + b, k);
    CountConcat([k], b, k);
    ContentsElsewhere(frames, a, k, g);
    ContentsElsewhere(frames, b, k, g);
    TrailAround(frames[k := g], l);
  }

  lemma LaneDrops(c: Config, s: Pipe, i: nat, l: Lane)
    requires LaneInv(c, s, i, l) && l.phase != Filling
    ensures LaneInv(c, s, i, PopHead(l))
  {
    TrailAround(s.frames, l);
    TrailDrop(c, s.log, Limit(s), i, Before(s.frames, l), FrameAt(s.frames, l.batch[0]), Behind(s.frames, l),
              |l.sent| + l.Done());
  }

  lemma LanePushes(c: Config, s: Pipe, i: nat, l: Lane)
    requires LaneInv(c, s, i, l) && l.phase == Carrying && |l.tx| < QUEUE_CAPACITY
    ensures LaneInv(c, s, i, PopHead(l).(tx := l.tx + [l.batch[0]]))
  {
    PushLine(l);
    LaneMoved(c, s, i, l, PopHead(l).(tx := l.tx + [l.batch[0]]));
  }

  lemma CopyTrail(frames: seq<Frame>, l: Lane, f: Frame)
    requires l.out != [] && FrameAt(frames, l.out[0]) == f
    ensures Trail(frames, l.(out := l.out[1..], sent := l.sent + [f])) == Trail(frames, l)
  {
    var m := l.(out := l.out[1..], sent := l.sent + [f]);
    CopyLine(l, f);
    ContentsConcat(frames, [l.out[0]], m.Line());
    assert Contents(frames, [l.out[0]]) == [f];
  }

  lemma LaneCopies(c: Config, s: Pipe, i: nat, l: Lane)
    requires LaneInv(c, s, i, l) && l.out != [] && l.out[0] < |s.frames|
    ensures LaneInv(c, s, i, l.(out := l.out[1..], sent := l.sent + [s.frames[l.out[0]]]))
  {
    CopyTrail(s.frames, l, s.frames[l.out[0]]);
  }

  lemma LaneEncapsulates(c: Config, s: Pipe, i: nat, l: Lane, dst: Ipv4)
    requires LaneInv(c, s, i, l) && l.phase == Working && l.batch[0] < |s.frames|
    requires |s.frames[l.batch[0]].bytes| + Gre.ENCAP_OVERHEAD <= PACKET_BUF_SIZE && Times(l.Line(), l.batch[0]) == 1
    ensures var k := l.batch[0];
            var f := s.frames[k];
            var t := s.(frames := s.frames[k := f.(bytes := Gre.Encap(f.bytes, c.src, dst))]);
            LaneInv(c, t, i, l.(phase := Carrying))
  {
    var k := l.batch[0];
    var f := s.frames[k];
    var m := l.(phase := Carrying);
    TrailAround(s.frames, l);
    TrailWritten(s.frames, m, Frame(Gre.Encap(f.bytes, c.src, dst), f.tag));
    TrailEncap(c, s.log, Limit(s), i, Before(s.frames, l), f, Behind(s.frames, l), dst);
  }

  lemma LaneReceives(c: Config, s: Pipe, i: nat, l: Lane)
    requires LaneInv(c, s, i, l) && HandInv(s) && s.hand.Filled? && |l.rx| < QUEUE_CAPACITY
    requires 0 < c.lanes && AssignQueue(c, s.frames[s.hand.idx].bytes) == i
    ensures LaneInv(c, s.(hand := Nothing), i, l.(rx := l.rx + [s.hand.idx]))
  {
    var k := s.hand.idx;
    var m := l.(rx := l.rx + [k]);
    SteerLine(l, k);
    ContentsConcat(s.frames, l.Line(), [k]);
    assert Contents(s.frames, [k]) == [s.frames[k]];
    assert Trail(s.frames, m) == Trail(s.frames, l) + [s.frames[k]];
    TrailAppend(c, s.log, i, Trail(s.frames, l), |l.sent| + l.Done(), s.frames[k]);
  }

  // ----- steps -----

  /** All lanes but one are as before. */
  lemma OthersKept(c: Config, s: Pipe, t: Pipe, i: nat)
    requires LanesInv(c, s) && i < |s.lanes| == |t.lanes| && t.lanes == s.lanes[i := t.lanes[i]]
    requires t.frames == s.frames && t.log == s.log && Limit(s) <= Limit(t)
    requires LaneInv(c, t, i, t.lanes[i])
    ensures LanesInv(c, t)
  {
    forall j: nat | j < |t.lanes| && j != i
      ensures LaneInv(c, t, j, t.lanes[j])
    {
      LaneKept(c, s, t, j, s.lanes[j]);
    }
  }

  /** Nothing changes for the lanes. */
  lemma AllKept(c: Config, s: Pipe, t: Pipe)
    requires LanesInv(c, s) && t.lanes == s.lanes && s.log <= t.log && Limit(s) <= Limit(t)
    requires forall i: nat | i < |s.lanes| ::
               Contents(t.frames, s.lanes[i].Line()) == Contents(s.frames, s.lanes[i].Line())
    ensures LanesInv(c, t)
  {
    forall i: nat | i < |t.lanes|
      ensures LaneInv(c, t, i, t.lanes[i])
    {
      LaneKept(c, s, t, i, s.lanes[i]);
    }
  }

  lemma WriteKeeps(c: Config, s: Pipe)
    requires Inv(c, s) && Enabled(c, s, Write)
    ensures LanesInv(c, Do(c, s, Write)) && HandInv(Do(c, s, Write))
  {
    var t := Do(c, s, Write);
    forall i: nat | i < |s.lanes|
      ensures Contents(t.frames, s.lanes[i].Line()) == Contents(s.frames, s.lanes[i].Line())
    {
      HandIsApart(s, i);
      ContentsElsewhere(s.frames, s.lanes[i].Line(), s.hand.idx, Frame(Written(s.hand.packet), |s.log|));
    }
    AllKept(c, s, t);
  }

  lemma SteerKeeps(c: Config, s: Pipe)
    requires Inv(c, s) && Enabled(c, s, Steer)
    ensures LanesInv(c, Steered(c, s))
  {
    var q := AssignQueue(c, s.frames[s.hand.idx].bytes);
    if |s.lanes[q].rx| < QUEUE_CAPACITY {
      LaneReceives(c, s, q, s.lanes[q]);
      LaneKept(c, s.(hand := Nothing), Steered(c, s), q, Steered(c, s).lanes[q]);
      OthersKept(c, s, Steered(c, s), q);
    } else {
      AllKept(c, s, Steered(c, s));
    }
  }

  lemma EncapsulateKeeps(c: Config, s: Pipe, i: nat, dst: Ipv4)
    requires Inv(c, s) && Enabled(c, s, Encapsulate(i, dst))
    ensures LanesInv(c, Encapsulated(c, s, i, dst))
  {
    var l, t := s.lanes[i], Encapsulated(c, s, i, dst);
    var k := l.batch[0];
    CountHeadLine(l, k);
    LaneIsApart(s, i, k);
    LaneEncapsulates(c, s, i, l, dst);
    LaneKept(c, s.(frames := t.frames), t, i, t.lanes[i]);
    forall j: nat | j < |s.lanes| && j != i
      ensures LaneInv(c, t, j, t.lanes[j])
    {
      ContentsElsewhere(s.frames, s.lanes[j].Line(), k, t.frames[k]);
      LaneKept(c, s, t, j, s.lanes[j]);
    }
  }

  /** The steps that change one lane and no frame. */
  lemma LaneStepKeeps(c: Config, s: Pipe, step: Step, i: nat)
    requires Inv(c, s) && Enabled(c, s, step)
    requires step in {Drain(i), Begin(i), Discard(i), Push(i), MuxCopy(i)} || (step == MuxPop && s.mux.at == i)
    ensures LanesInv(c, Do(c, s, step))
  {
    var l, t := s.lanes[i], Do(c, s, step);
    match step {
      case Drain(_) => DrainLine(l); LaneMoved(c, s, i, l, t.lanes[i]);
      case Begin(_) => LaneMoved(c, s, i, l, t.lanes[i]);
      case Discard(_) => LaneDrops(c, s, i, l);
      case Push(_) => if |l.tx| < QUEUE_CAPACITY { LanePushes(c, s, i, l); } else { LaneDrops(c, s, i, l); }
      case MuxCopy(_) => LaneCopies(c, s, i, l);
      case MuxPop => PopLine(l); LaneMoved(c, s, i, l, t.lanes[i]);
    }
    LaneKept(c, s, t, i, t.lanes[i]);
    OthersKept(c, s, t, i);
  }

  lemma StepKeepsLanes(c: Config, s: Pipe, step: Step)
    requires Inv(c, s) && Enabled(c, s, step)
    ensures LanesInv(c, Do(c, s, step)) && HandInv(Do(c, s, step))
  {
    match step
    case Receive(p) => ReceiveKeeps(c, s, p);
    case Write => WriteKeeps(c, s);
    case Steer => SteerKeeps(c, s);
    case Drain(i) => LaneStepKeeps(c, s, step, i);
    case Begin(i) => LaneStepKeeps(c, s, step, i);
    case Discard(i) => LaneStepKeeps(c, s, step, i);
    case Encapsulate(i, dst) => EncapsulateKeeps(c, s, i, dst); EncapsulateKeepsHand(c, s, i, dst);
    case Push(i) => LaneStepKeeps(c, s, step, i);
    case MuxPop => LaneStepKeeps(c, s, step, s.mux.at);
    case MuxNext => AllKept(c, s, Do(c, s, step));
    case MuxSend => AllKept(c, s, Do(c, s, step));
    case MuxCopy(i) => LaneStepKeeps(c, s, step, i);
    case MuxFree => AllKept(c, s, Do(c, s, step));
    case MuxRestart => AllKept(c, s, Do(c, s, step));
  }

  lemma ReceiveKeeps(c: Config, s: Pipe, p: seq<byte>)
    requires Inv(c, s) && Enabled(c, s, Receive(p))
    ensures LanesInv(c, Do(c, s, Receive(p))) && HandInv(Do(c, s, Receive(p)))
  {
    var t := Do(c, s, Receive(p));
    if s.free != [] {
      assert Owners(s, s.free[0]) == One(s.free[0] < |s.frames|);
    }
    AllKept(c, s, t);
  }

  lemma EncapsulateKeepsHand(c: Config, s: Pipe, i: nat, dst: Ipv4)
    requires Inv(c, s) && Enabled(c, s, Encapsulate(i, dst))
    ensures HandInv(Encapsulated(c, s, i, dst))
  {
    CountHeadLine(s.lanes[i], s.lanes[i].batch[0]);
    if !s.hand.Nothing? {
      HandIsApart(s, i);
    }
  }

  /** Every step keeps the invariant. */
  lemma StepKeepsInv(c: Config, s: Pipe, step: Step)
    requires Inv(c, s) && Enabled(c, s, step)
    ensures Inv(c, Do(c, s, step))
  {
    StepKeepsOwned(c, s, step);
    StepKeepsLanes(c, s, step);
  }

  /** The machine can get from `s` to `t` by these steps. */
  ghost predicate Leads(c: Config, s: Pipe, steps: seq<Step>, t: Pipe)
    decreases |steps|
  {
    if steps == [] then s == t else Enabled(c, s, steps[0]) && Leads(c, Do(c, s, steps[0]), steps[1..], t)
  }

  lemma {:induction false} RunKeepsInv(c: Config, s: Pipe, steps: seq<Step>, t: Pipe)
    requires Inv(c, s) && Leads(c, s, steps, t)
    ensures Inv(c, t)
    decreases |steps|
  {
    if steps != [] {
      StepKeepsInv(c, s, steps[0]);
      RunKeepsInv(c, Do(c, s, steps[0]), steps[1..], t);
    }
  }

  lemma InitialInv(c: Config)
    requires 0 < c.lanes
    ensures Inv(c, Initial(c))
  {
    InitialOwned(c);
  }

  // ----- the results -----

  /** Frame ownership. In every reachable state, in every interleaving, each frame is in
      exactly one place: on the free list, in steering's hand, in a queue or a batch, or
      waiting to be returned. */
  lemma EveryFrameHasOneOwner(c: Config, steps: seq<Step>, t: Pipe, x: nat)
    requires 0 < c.lanes && Leads(c, Initial(c), steps, t)
    ensures Owners(t, x) == One(x < c.frames)
  {
    InitialInv(c);
    RunKeepsInv(c, Initial(c), steps, t);
  }

  /** Order and content. In every reachable state, what lane `i` has handed to the network
      is, in the order of arrival, packets that were steered to it, each encapsulated as
      it was received. */
  lemma SentInOrder(c: Config, steps: seq<Step>, t: Pipe, i: nat, j: nat)
    requires 0 < c.lanes && Leads(c, Initial(c), steps, t) && i < |t.lanes| && j < |t.lanes[i].sent|
    ensures var f := t.lanes[i].sent[j];
            && f.tag < |t.log| && AssignQueue(c, t.log[f.tag]) == i && IsEncap(c, f.bytes, t.log[f.tag])
            && forall k | j < k < |t.lanes[i].sent| :: f.tag < t.lanes[i].sent[k].tag
  {
    InitialInv(c);
    RunKeepsInv(c, Initial(c), steps, t);
    assert LaneInv(c, t, i, t.lanes[i]);
    var l := t.lanes[i];
    assert forall k | 0 <= k < |l.sent| :: Trail(t.frames, l)[k] == l.sent[k];
  }

  /** Packets of one 5-tuple never swap: they are sent by one lane, and the one sent first
      arrived first. */
  lemma SameFlowNeverSwaps(c: Config, steps: seq<Step>, t: Pipe, i: nat, j: nat, i': nat, j': nat)
    requires 0 < c.lanes && Leads(c, Initial(c), steps, t)
    requires i < |t.lanes| && j < |t.lanes[i].sent| && i' < |t.lanes| && j' < |t.lanes[i'].sent|
    requires t.lanes[i].sent[j].tag < |t.log| && t.lanes[i'].sent[j'].tag < |t.log|
    requires ParseKey(t.log[t.lanes[i].sent[j].tag]) == ParseKey(t.log[t.lanes[i'].sent[j'].tag])
    ensures i == i' && (j < j' <==> t.lanes[i].sent[j].tag < t.lanes[i'].sent[j'].tag)
  {
    SentInOrder(c, steps, t, i, j);
    SentInOrder(c, steps, t, i', j');
  }

  /** The bytes of a frame change only in the hands of its one owner: steering filling it,
      or the rewriter at the head of whose batch it is. */
  lemma OnlyOwnerWrites(c: Config, s: Pipe, step: Step, k: nat)
    requires Inv(c, s) && Enabled(c, s, step) && k < |s.frames| && Do(c, s, step).frames[k] != s.frames[k]
    ensures Times(s.free, k) == 0 && Times(s.spent, k) == 0
    ensures (step.Write? && s.hand.idx == k && forall i: nat | i < |s.lanes| :: Times(s.lanes[i].Line(), k) == 0)
            || (step.Encapsulate? && s.lanes[step.lane].batch[0] == k && (s.hand.Nothing? || s.hand.idx != k)
                && forall i: nat | i < |s.lanes| && i != step.lane :: Times(s.lanes[i].Line(), k) == 0)
  {
    assert Owners(s, k) == 1;
    if step.Write? {
      forall i: nat | i < |s.lanes|
        ensures Times(s.lanes[i].Line(), k) == 0
      {
        HandIsApart(s, i);
      }
    } else {
      CountHeadLine(s.lanes[step.lane], k);
      LaneIsApart(s, step.lane, k);
      CountLanesHas(s.lanes, step.lane, k);
    }
  }
}
