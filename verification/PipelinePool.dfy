/**
 Whether the pool covers all frames in flight. It has two queues of 4096 frames per lane and
 two muxer batches. With a hash that reaches every lane it runs out exactly when the muxer's
 batch is not larger than the batches of all rewriters together; the frames set aside for a
 lane that no packet is steered to come on top.
 */
module PipelinePool {
  import opened Forwarding
  import opened Icmp
  import opened Pipeline
  import opened PipelineOrder
  import Gre

  /** The set-up of the program. */
  predicate Standard(c: Config) {
    0 < c.lanes && c.frames == QUEUE_CAPACITY * c.lanes * 2 + c.batchSize * 2
  }

  // ----- counting frames -----

  function AllLines(lanes: seq<Lane>): seq<nat> {
    if lanes == [] then [] else AllLines(lanes[..|lanes| - 1]) + lanes[|lanes| - 1].Line()
  }

  function Load(lanes: seq<Lane>): nat {
    if lanes == [] then 0 else Load(lanes[..|lanes| - 1]) + |lanes[|lanes| - 1].Line()|
  }

  lemma {:induction false} AllLinesFacts(lanes: seq<Lane>, x: nat)
    ensures |AllLines(lanes)| == Load(lanes) && Times(AllLines(lanes), x) == CountLanes(lanes, x)
  {
    if lanes != [] {
      var n := |lanes| - 1;
      AllLinesFacts(lanes[..n], x);
      CountConcat(AllLines(lanes[..n]), lanes[n].Line(), x);
    }
  }

  function Held(h: Hand): seq<nat> {
    if h.Nothing? then [] else [h.idx]
  }

  function Everything(s: Pipe): seq<nat> {
    s.free + (Held(s.hand) + (AllLines(s.lanes) + s.spent))
  }

  lemma EverythingTimes(s: Pipe, x: nat)
    ensures Times(Everything(s), x) == Owners(s, x)
  {
    AllLinesFacts(s.lanes, x);
    CountConcat(AllLines(s.lanes), s.spent, x);
    CountConcat(Held(s.hand), AllLines(s.lanes) + s.spent, x);
    CountConcat(s.free, Held(s.hand) + (AllLines(s.lanes) + s.spent), x);
  }

  lemma ExactlyOnce(q: seq<nat>, n: nat)
    requires forall x: nat :: Times(q, x) == One(x < n)
    ensures |q| == n
  {
    forall x: nat
      ensures multiset(q)[x] == Range(n)[x]
    {
      CountIsMultiplicity(q, x);
    }
    assert multiset(q) == Range(n);
  }

  /** The frames in all places add up to the pool. */
  lemma FramesAddUp(s: Pipe)
    requires Owned(s)
    ensures |s.free| + One(!s.hand.Nothing?) + Load(s.lanes) + |s.spent| == |s.frames|
  {
    forall x: nat
      ensures Times(Everything(s), x) == One(x < |s.frames|)
    {
      EverythingTimes(s, x);
    }
    ExactlyOnce(Everything(s), |s.frames|);
    AllLinesFacts(s.lanes, 0);
  }

  // ----- the lanes that packets are steered to -----

  ghost predicate LaneUsed(c: Config, i: nat) {
    0 < c.lanes && exists p: Packet :: AssignQueue(c, p) == i
  }

  /** How many of the first `n` lanes there are packets for. */
  ghost function Used(c: Config, n: nat): (u: nat)
    ensures u <= n
  {
    if n == 0 then 0 else Used(c, n - 1) + One(LaneUsed(c, n - 1))
  }

  ghost predicate EveryLaneUsed(c: Config) {
    forall i: nat | i < c.lanes :: LaneUsed(c, i)
  }

  lemma {:induction false} AllUsed(c: Config, n: nat)
    requires forall i: nat | i < n :: LaneUsed(c, i)
    ensures Used(c, n) == n
  {
    if n > 0 {
      AllUsed(c, n - 1);
    }
  }

  /** More than any header. */
  const FRONT := 100

  lemma FrontIsSteeredAlike(c: Config, p: Packet)
    requires 0 < c.lanes && FRONT <= |p|
    ensures AssignQueue(c, p[..FRONT]) == AssignQueue(c, p)
  {
    assert p[..FRONT][8..40] == p[8..40];
  }

  /** A packet that fits, encapsulated, and is steered to lane `i`. */
  predicate SteersTo(c: Config, i: nat, p: Packet) {
    0 < c.lanes && |p| + Gre.ENCAP_OVERHEAD <= PACKET_BUF_SIZE && AssignQueue(c, p) == i
  }

  /** A lane that is used at all is used by packets that can be encapsulated. */
  lemma UsedBySmall(c: Config, i: nat) returns (p: Packet)
    requires LaneUsed(c, i)
    ensures SteersTo(c, i, p)
  {
    p :| AssignQueue(c, p) == i;
    if FRONT < |p| {
      FrontIsSteeredAlike(c, p);
      p := p[..FRONT];
    }
  }

  /** What does not parse goes to the first lane. */
  lemma FirstLaneUsed(c: Config)
    requires 0 < c.lanes
    ensures LaneUsed(c, 0)
  {
    assert AssignQueue(c, []) == 0;
  }

  ghost predicate UnusedEmpty(c: Config, s: Pipe) {
    forall i: nat | i < |s.lanes| && !LaneUsed(c, i) :: s.lanes[i].Line() == []
  }

  lemma StaysEmpty(c: Config, s: Pipe, step: Step, i: nat)
    requires Enabled(c, s, step) && i < |s.lanes| && s.lanes[i].Line() == [] && !LaneUsed(c, i)
    ensures |Do(c, s, step).lanes| == |s.lanes| && Do(c, s, step).lanes[i].Line() == []
  {
    var l := s.lanes[i];
    assert l.rx == [] && l.batch == [] && l.tx == [] && l.out == [];
  }

  lemma StepKeepsUnusedEmpty(c: Config, s: Pipe, step: Step)
    requires UnusedEmpty(c, s) && Enabled(c, s, step)
    ensures UnusedEmpty(c, Do(c, s, step))
  {
    var t := Do(c, s, step);
    forall i: nat | i < |t.lanes| && !LaneUsed(c, i)
      ensures t.lanes[i].Line() == []
    {
      StaysEmpty(c, s, step, i);
    }
  }

  lemma {:induction false} RunKeepsUnusedEmpty(c: Config, s: Pipe, steps: seq<Step>, t: Pipe)
    requires UnusedEmpty(c, s) && Leads(c, s, steps, t)
    ensures UnusedEmpty(c, t)
    decreases |steps|
  {
    if steps != [] {
      StepKeepsUnusedEmpty(c, s, steps[0]);
      RunKeepsUnusedEmpty(c, Do(c, s, steps[0]), steps[1..], t);
    }
  }

  // ----- a muxer batch larger than all rewriter batches: never empty -----

  /** What the queues and batches of the lanes in use can hold, and the muxer's batch, falls
      short of the pool. */
  ghost predicate PoolCovers(c: Config) {
    Used(c, c.lanes) * (2 * 4096 + 64) < 2 * 4096 * c.lanes + c.batchSize
  }

  /** The muxer holds at most a batch. */
  predicate MuxBound(c: Config, s: Pipe) {
    AllOut(s.lanes) + |s.spent| <= c.batchSize && (s.mux.Draining? ==> s.spent == [])
  }

  lemma {:induction false} AllOutUpdate(lanes: seq<Lane>, i: nat, l: Lane)
    requires i < |lanes|
    ensures AllOut(lanes[i := l]) == AllOut(lanes) - |lanes[i].out| + |l.out|
  {
    var n := |lanes| - 1;
    if i < n {
      assert lanes[i := l][..n] == lanes[..n][i := l];
      AllOutUpdate(lanes[..n], i, l);
    } else {
      assert lanes[i := l][..n] == lanes[..n];
    }
  }

  lemma StepKeepsMuxBound(c: Config, s: Pipe, step: Step)
    requires MuxBound(c, s) && Enabled(c, s, step)
    ensures MuxBound(c, Do(c, s, step))
  {
    var t := Do(c, s, step);
    match step
    case Receive(p) =>
    case Write =>
    case Steer =>
      var q := AssignQueue(c, s.frames[s.hand.idx].bytes);
      AllOutUpdate(s.lanes, q, s.lanes[q].(rx := s.lanes[q].rx + [s.hand.idx]));
    case Drain(i) => AllOutUpdate(s.lanes, i, t.lanes[i]);
    case Begin(i) => AllOutUpdate(s.lanes, i, t.lanes[i]);
    case Discard(i) => AllOutUpdate(s.lanes, i, t.lanes[i]);
    case Encapsulate(i, _) => AllOutUpdate(s.lanes, i, t.lanes[i]);
    case Push(i) => AllOutUpdate(s.lanes, i, t.lanes[i]);
    case MuxPop => AllOutUpdate(s.lanes, s.mux.at, t.lanes[s.mux.at]);
    case MuxNext =>
    case MuxSend =>
    case MuxCopy(i) => AllOutUpdate(s.lanes, i, t.lanes[i]);
    case MuxFree =>
    case MuxRestart =>
  }

  lemma {:induction false} RunKeepsMuxBound(c: Config, s: Pipe, steps: seq<Step>, t: Pipe)
    requires MuxBound(c, s) && Leads(c, s, steps, t)
    ensures MuxBound(c, t)
    decreases |steps|
  {
    if steps != [] {
      StepKeepsMuxBound(c, s, steps[0]);
      RunKeepsMuxBound(c, Do(c, s, steps[0]), steps[1..], t);
    }
  }

  /** What a lane holds besides its part of the muxer's batch. */
  ghost predicate LaneFits(c: Config, i: nat, l: Lane) {
    |l.Line()| <= |l.out| + One(LaneUsed(c, i)) * (2 * QUEUE_CAPACITY + BATCH_DRAIN_SIZE)
  }

  lemma {:induction false} LoadBound(c: Config, lanes: seq<Lane>)
    requires forall i: nat | i < |lanes| :: LaneFits(c, i, lanes[i])
    ensures Load(lanes) <= AllOut(lanes) + Used(c, |lanes|) * (2 * QUEUE_CAPACITY + BATCH_DRAIN_SIZE)
  {
    if lanes != [] {
      LoadBound(c, lanes[..|lanes| - 1]);
      assert LaneFits(c, |lanes| - 1, lanes[|lanes| - 1]);
    }
  }

  lemma BoundedFits(c: Config, i: nat, l: Lane)
    requires Bounded(l) && (!LaneUsed(c, i) ==> l.Line() == [])
    ensures LaneFits(c, i, l)
  {
  }

  lemma LanesFit(c: Config, s: Pipe)
    requires Inv(c, s) && UnusedEmpty(c, s)
    ensures Load(s.lanes) <= AllOut(s.lanes) + Used(c, |s.lanes|) * (2 * QUEUE_CAPACITY + BATCH_DRAIN_SIZE)
  {
    forall i: nat | i < |s.lanes|
      ensures LaneFits(c, i, s.lanes[i])
    {
      assert LaneInv(c, s, i, s.lanes[i]);
      BoundedFits(c, i, s.lanes[i]);
    }
    LoadBound(c, s.lanes);
  }

  lemma {:induction false} NothingOut(lanes: seq<Lane>)
    requires forall i | 0 <= i < |lanes| :: lanes[i].out == []
    ensures AllOut(lanes) == 0
  {
    if lanes != [] {
      NothingOut(lanes[..|lanes| - 1]);
    }
  }

  lemma InitialIsEmpty(c: Config)
    ensures MuxBound(c, Initial(c)) && UnusedEmpty(c, Initial(c))
  {
    NothingOut(Initial(c).lanes);
  }

  /** What a state within these bounds has left on the free list. */
  lemma SomeFree(c: Config, s: Pipe)
    requires Standard(c) && PoolCovers(c) && Inv(c, s) && MuxBound(c, s) && UnusedEmpty(c, s)
    ensures s.hand.Nothing? ==> s.free != []
  {
    FramesAddUp(s);
    LanesFit(c, s);
  }

  /** Steering always finds a frame when the pool covers the lanes in use; with all of them in
      use, when the muxer's batch is larger than all rewriter batches together. */
  lemma PoolNeverRunsOut(c: Config, steps: seq<Step>, t: Pipe)
    requires Standard(c) && PoolCovers(c) && Leads(c, Initial(c), steps, t) && t.hand.Nothing?
    ensures t.free != []
  {
    InitialIsEmpty(c);
    RunKeepsMuxBound(c, Initial(c), steps, t);
    RunKeepsUnusedEmpty(c, Initial(c), steps, t);
    InitialInv(c);
    RunKeepsInv(c, Initial(c), steps, t);
    SomeFree(c, t);
  }

  // ----- otherwise: a run that empties the pool -----

  ghost predicate Runs(c: Config, s: Pipe, t: Pipe) {
    exists steps :: Leads(c, s, steps, t)
  }

  lemma RunsStep(c: Config, s: Pipe, step: Step)
    requires Enabled(c, s, step)
    ensures Runs(c, s, Do(c, s, step))
  {
    var t := Do(c, s, step);
    assert Leads(c, t, [], t);
    assert [step][1..] == [];
    assert Leads(c, s, [step], t);
  }

  lemma {:induction false} LeadsConcat(c: Config, s: Pipe, a: seq<Step>, m: Pipe, b: seq<Step>, t: Pipe)
    requires Leads(c, s, a, m) && Leads(c, m, b, t)
    ensures Leads(c, s, a + b, t)
    decreases |a|
  {
    if a == [] {
      assert a + b == b;
    } else {
      LeadsConcat(c, Do(c, s, a[0]), a[1..], m, b, t);
      assert (a + b)[1..] == a[1..] + b;
    }
  }

  lemma RunsOn(c: Config, s: Pipe, m: Pipe, t: Pipe)
    requires Runs(c, s, m) && Runs(c, m, t)
    ensures Runs(c, s, t)
  {
    var a :| Leads(c, s, a, m);
    var b :| Leads(c, m, b, t);
    LeadsConcat(c, s, a, m, b, t);
  }

  lemma RunsThen(c: Config, s: Pipe, m: Pipe, step: Step)
    requires Runs(c, s, m) && Enabled(c, m, step)
    ensures Runs(c, s, Do(c, m, step))
  {
    RunsStep(c, m, step);
    RunsOn(c, s, m, Do(c, m, step));
  }

  /** How many frames lane `i` can hold, the whole muxer batch drawn from the first lane. */
  ghost function Capacity(c: Config, i: nat): nat {
    One(LaneUsed(c, i)) * (2 * QUEUE_CAPACITY + BATCH_DRAIN_SIZE) + if i == 0 then c.batchSize else 0
  }

  /** A lane filled from the far end: nothing waits before a place that has room. */
  predicate Packed(c: Config, i: nat, l: Lane) {
    && l.phase == Filling
    && (l.rx != [] ==> |l.batch| == BATCH_DRAIN_SIZE)
    && (l.batch != [] ==> |l.tx| == QUEUE_CAPACITY)
    && |l.out| <= (if i == 0 then c.batchSize else 0)
    && (i == 0 && l.tx != [] ==> |l.out| == c.batchSize)
  }

  /** Nothing is on its way but, perhaps, in lane `i`. */
  ghost predicate Rests(c: Config, s: Pipe, i: nat) {
    && Inv(c, s) && s.hand == Nothing && s.mux == Draining(0) && s.spent == [] && i < |s.lanes|
    && forall j: nat | j < |s.lanes| && j != i :: Packed(c, j, s.lanes[j])
  }

  /** A packet comes in and is queued in its lane. */
  lemma Admit(c: Config, s: Pipe, i: nat, p: Packet) returns (t: Pipe)
    requires Rests(c, s, i) && s.free != [] && |s.lanes[i].rx| < QUEUE_CAPACITY && SteersTo(c, i, p)
    ensures Runs(c, s, t) && Rests(c, t, i) && |t.free| == |s.free| - 1
    ensures var k := s.free[0];
            k < |t.frames| && t.frames[k].bytes == p && t.lanes[i] == s.lanes[i].(rx := s.lanes[i].rx + [k])
  {
    var a := Do(c, s, Receive(p));
    StepKeepsInv(c, s, Receive(p));
    RunsStep(c, s, Receive(p));
    var b := Do(c, a, Write);
    StepKeepsInv(c, a, Write);
    RunsThen(c, s, a, Write);
    t := Do(c, b, Steer);
    StepKeepsInv(c, b, Steer);
    RunsThen(c, s, b, Steer);
  }

  /** It moves on into the batch. */
  lemma DrainOne(c: Config, s: Pipe, i: nat, k: nat) returns (t: Pipe)
    requires Rests(c, s, i) && s.lanes[i].phase == Filling
    requires s.lanes[i].rx == [k] && |s.lanes[i].batch| < BATCH_DRAIN_SIZE
    ensures Runs(c, s, t) && Rests(c, t, i) && t.free == s.free && t.frames == s.frames
    ensures t.lanes[i] == s.lanes[i].(rx := [], batch := s.lanes[i].batch + [k])
  {
    t := Do(c, s, Drain(i));
    StepKeepsInv(c, s, Drain(i));
    RunsStep(c, s, Drain(i));
  }

  /** It is encapsulated. */
  lemma WorkOne(c: Config, s: Pipe, i: nat, k: nat) returns (t: Pipe)
    requires Rests(c, s, i) && s.lanes[i].phase == Filling && s.lanes[i].rx == [] && s.lanes[i].batch == [k]
    requires k < |s.frames| && |s.frames[k].bytes| + Gre.ENCAP_OVERHEAD <= PACKET_BUF_SIZE
    ensures Runs(c, s, t) && Rests(c, t, i) && t.free == s.free && k < |t.frames|
    ensures t.lanes[i] == s.lanes[i].(phase := Carrying)
  {
    var a := Do(c, s, Begin(i));
    StepKeepsInv(c, s, Begin(i));
    RunsStep(c, s, Begin(i));
    t := Do(c, a, Encapsulate(i, 0));
    StepKeepsInv(c, a, Encapsulate(i, 0));
    RunsThen(c, s, a, Encapsulate(i, 0));
  }

  /** And moves on to the transmit queue. */
  lemma CarryOne(c: Config, s: Pipe, i: nat, k: nat) returns (t: Pipe)
    requires Rests(c, s, i) && s.lanes[i].phase == Filling && s.lanes[i].rx == [] && s.lanes[i].batch == [k]
    requires k < |s.frames| && |s.frames[k].bytes| + Gre.ENCAP_OVERHEAD <= PACKET_BUF_SIZE
    requires |s.lanes[i].tx| < QUEUE_CAPACITY
    ensures Runs(c, s, t) && Rests(c, t, i) && t.free == s.free
    ensures t.lanes[i] == s.lanes[i].(batch := [], tx := s.lanes[i].tx + [k])
  {
    var b := WorkOne(c, s, i, k);
    t := Do(c, b, Push(i));
    StepKeepsInv(c, b, Push(i));
    RunsThen(c, s, b, Push(i));
  }

  /** And from the first lane into the muxer's batch. */
  lemma PopOne(c: Config, s: Pipe, k: nat) returns (t: Pipe)
    requires Rests(c, s, 0) && s.lanes[0].tx == [k] && |s.lanes[0].out| < c.batchSize
    ensures Runs(c, s, t) && Rests(c, t, 0) && t.free == s.free
    ensures t.lanes[0] == s.lanes[0].(tx := [], out := s.lanes[0].out + [k])
  {
    OnlyFirstOut(s.lanes);
    t := Do(c, s, MuxPop);
    StepKeepsInv(c, s, MuxPop);
    RunsStep(c, s, MuxPop);
  }

  lemma {:induction false} OnlyFirstOut(lanes: seq<Lane>)
    requires lanes != [] && forall j: nat | 0 < j < |lanes| :: lanes[j].out == []
    ensures AllOut(lanes) == |lanes[0].out|
  {
    if |lanes| > 1 {
      OnlyFirstOut(lanes[..|lanes| - 1]);
    } else {
      assert lanes[..0] == [];
    }
  }

  /** One more packet fits into a packed lane that is not full. */
  lemma AddOne(c: Config, s: Pipe, i: nat) returns (t: Pipe)
    requires Rests(c, s, i) && Packed(c, i, s.lanes[i]) && s.free != []
    requires |s.lanes[i].Line()| < Capacity(c, i) && 0 < c.lanes
    ensures Runs(c, s, t) && Rests(c, t, i) && Packed(c, i, t.lanes[i]) && |t.free| == |s.free| - 1
  {
    var l, k := s.lanes[i], s.free[0];
    assert Bounded(l) by {
      assert LaneInv(c, s, i, l);
    }
    FirstLaneUsed(c);
    var p := UsedBySmall(c, i);
    t := Admit(c, s, i, p);
    if |l.batch| < BATCH_DRAIN_SIZE {
      t := AddFurther(c, s, t, i, k);
    }
  }

  lemma AddFurther(c: Config, s: Pipe, a: Pipe, i: nat, k: nat) returns (t: Pipe)
    requires Runs(c, s, a) && Rests(c, a, i) && i < |s.lanes| && Packed(c, i, s.lanes[i]) && Bounded(s.lanes[i])
    requires |s.lanes[i].batch| < BATCH_DRAIN_SIZE && |s.lanes[i].Line()| < Capacity(c, i)
    requires a.lanes[i] == s.lanes[i].(rx := s.lanes[i].rx + [k])
    requires k < |a.frames| && |a.frames[k].bytes| + Gre.ENCAP_OVERHEAD <= PACKET_BUF_SIZE
    ensures Runs(c, s, t) && Rests(c, t, i) && Packed(c, i, t.lanes[i]) && |t.free| == |a.free|
  {
    var l := s.lanes[i];
    t := DrainOne(c, a, i, k);
    RunsOn(c, s, a, t);
    if |l.tx| < QUEUE_CAPACITY {
      var b := t;
      t := CarryOne(c, b, i, k);
      RunsOn(c, s, b, t);
      if i == 0 && |l.out| < c.batchSize {
        var d := t;
        t := PopOne(c, d, k);
        RunsOn(c, s, d, t);
      }
    }
  }

  ghost predicate LaneFull(c: Config, i: nat, l: Lane) {
    Capacity(c, i) <= |l.Line()|
  }

  lemma {:induction false} FullLoad(c: Config, lanes: seq<Lane>)
    requires forall i: nat | i < |lanes| :: LaneFull(c, i, lanes[i])
    ensures Used(c, |lanes|) * (2 * QUEUE_CAPACITY + BATCH_DRAIN_SIZE) + (if lanes == [] then 0 else c.batchSize)
            <= Load(lanes)
  {
    if lanes != [] {
      FullLoad(c, lanes[..|lanes| - 1]);
      assert LaneFull(c, |lanes| - 1, lanes[|lanes| - 1]);
    }
  }

  lemma NothingLeft(used: nat, lanes: nat, batch: nat, load: nat, free: nat)
    requires free + load == QUEUE_CAPACITY * lanes * 2 + batch * 2
    requires used * (2 * QUEUE_CAPACITY + BATCH_DRAIN_SIZE) + batch <= load
    requires 2 * 4096 * lanes + batch <= used * (2 * 4096 + 64)
    ensures free == 0
  {
  }

  /** While a frame is free some lane has room. */
  lemma SomeRoom(c: Config, s: Pipe) returns (i: nat)
    requires Standard(c) && !PoolCovers(c) && Rests(c, s, 0) && s.free != []
    ensures i < |s.lanes| && !LaneFull(c, i, s.lanes[i])
  {
    FramesAddUp(s);
    if forall i: nat | i < |s.lanes| :: LaneFull(c, i, s.lanes[i]) {
      FullLoad(c, s.lanes);
      NothingLeft(Used(c, c.lanes), c.lanes, c.batchSize, Load(s.lanes), |s.free|);
    }
    i :| i < |s.lanes| && !LaneFull(c, i, s.lanes[i]);
  }

  /** From a packed state the pool can be emptied. */
  lemma {:induction false} EmptyThePool(c: Config, s: Pipe) returns (t: Pipe)
    requires Standard(c) && !PoolCovers(c)
    requires Rests(c, s, 0) && Packed(c, 0, s.lanes[0])
    ensures Runs(c, s, t) && t.hand.Nothing? && t.free == []
    decreases |s.free|
  {
    if s.free == [] {
      t := s;
      assert Leads(c, s, [], s);
    } else {
      var i := SomeRoom(c, s);
      var u := AddOne(c, s, i);
      t := EmptyThePool(c, u);
      RunsOn(c, s, u, t);
    }
  }

  /** The pool can run out: in some reachable state steering finds no frame. */
  ghost predicate CanRunOut(c: Config) {
    exists t :: Runs(c, Initial(c), t) && t.hand.Nothing? && t.free == []
  }

  /** Exactly when the pool can run out, for every number of lanes and every hash. */
  lemma PoolRunsOutExactly(c: Config)
    requires Standard(c)
    ensures CanRunOut(c) <==> !PoolCovers(c)
  {
    if PoolCovers(c) {
      forall t | Runs(c, Initial(c), t) && t.hand.Nothing?
        ensures t.free != []
      {
        var steps :| Leads(c, Initial(c), steps, t);
        PoolNeverRunsOut(c, steps, t);
      }
    } else {
      InitialInv(c);
      var t := EmptyThePool(c, Initial(c));
    }
  }

  /** With a hash that reaches every lane the muxer's batch decides; the default of 64 never
      suffices. */
  lemma BatchDecides(c: Config)
    requires Standard(c) && EveryLaneUsed(c)
    ensures CanRunOut(c) <==> c.batchSize <= 64 * c.lanes
  {
    PoolRunsOutExactly(c);
    AllUsed(c, c.lanes);
  }
}
