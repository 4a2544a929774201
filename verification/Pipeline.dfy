/**
 The zero-copy pipeline of the multi-threaded forwarder: one steering thread, a rewriter
 per lane and one muxer hand each other the indices of pool frames through bounded
 queues. The threads are modelled as a machine whose steps interleave in any order.

 A lane is everything that belongs to one rewriter: its receive queue, the rest of its
 batch, its transmit queue and the part of the muxer's batch that was drained from it
 (the muxer drains queue after queue, so its batch is those parts in order). The number
 that a frame carries besides its bytes, and the log of received packets it counts in,
 are history only.
 */
module Pipeline {
  import opened Common
  import opened Entries
  import opened Checksums
  import opened Forwarding
  import opened Icmp
  import Gre

  const QUEUE_CAPACITY := 4096
  const BATCH_DRAIN_SIZE := 64

  // ----- steering -----

  /** What a packet is assigned to a queue by: its 5-tuple, of either IP version. */
  datatype FlowKey =
    | Key4(tuple: FiveTuple)
    | Key6(addresses: seq<byte>, srcPort: uint16, dstPort: uint16, proto: FlowProto)

  function ParseV6(d: Packet): Option<FlowKey> {
    if |d| < 44 || d[0] / 16 != 6 || ProtoOf(d[6]).None? then None
    else Some(Key6(d[8..40], Word(d, 40), Word(d, 42), ProtoOf(d[6]).value))
  }

  function ParseKey(d: Packet): Option<FlowKey> {
    if |d| == 0 then None
    else if d[0] / 16 == 4 then
      match ParseMeta(d)
      case None => None
      case Some(meta) => Some(Key4(meta.tuple))
    else if d[0] / 16 == 6 then ParseV6(d)
    else None
  }

  /** The set-up: how many rewriters and frames, the size of the muxer's batch, the address
      of the forwarder and the flow hash. */
  datatype Config = Config(lanes: nat, frames: nat, batchSize: nat, src: Ipv4, flowHash: FlowKey -> nat)

  /** Packets that do not parse go to the first queue. */
  function AssignQueue(c: Config, d: Packet): (q: nat)
    requires 0 < c.lanes
    ensures q < c.lanes
  {
    match ParseKey(d)
    case None => 0
    case Some(key) => c.flowHash(key) % c.lanes
  }

  // ----- state -----

  datatype Frame = Frame(bytes: Packet, tag: nat)

  datatype Hand = Nothing | Taken(idx: nat, packet: seq<byte>) | Filled(idx: nat)

  datatype Phase = Filling | Working | Carrying

  datatype Lane = Lane(rx: seq<nat>, batch: seq<nat>, phase: Phase, tx: seq<nat>, out: seq<nat>, sent: seq<Frame>) {
    /** All frames in the lane, those furthest along first. */
    function Line(): seq<nat> {
      out + tx + batch + rx
    }

    /** How many of them are encapsulated already. */
    function Done(): nat {
      |out| + |tx| + if phase == Carrying then 1 else 0
    }
  }

  datatype MuxPhase = Draining(at: nat) | Copying

  datatype Pipe = Pipe(frames: seq<Frame>, free: seq<nat>, hand: Hand, lanes: seq<Lane>, mux: MuxPhase,
                       spent: seq<nat>, log: seq<Packet>)

  function Initial(c: Config): Pipe {
    Pipe(seq(c.frames, _ => Frame([], 0)), seq(c.frames, i => i), Nothing,
         seq(c.lanes, _ => Lane([], [], Filling, [], [], [])), Draining(0), [], [])
  }

  // ----- steps -----

  datatype Step =
    | Receive(packet: seq<byte>)       // steering takes a frame for a packet, or drops it
    | Write                            // and copies the packet into it
    | Steer                            // and hands it to a rewriter, or frees it
    | Drain(lane: nat)                 // a rewriter pops one index from its queue
    | Begin(lane: nat)                 // and starts on its batch
    | Discard(lane: nat)               // it drops the packet at the head of its batch
    | Encapsulate(lane: nat, dst: Ipv4) // or encapsulates it in place
    | Push(lane: nat)                  // and hands it to the muxer, or frees it
    | MuxPop                           // the muxer pops an index
    | MuxNext                          // it goes on to the next queue
    | MuxSend                          // it stops draining
    | MuxCopy(lane: nat)               // it copies a frame into its send buffer
    | MuxFree                          // after sending, it frees a frame
    | MuxRestart                       // it starts over

  /** Return an index to the free list; a failed push goes unnoticed. */
  function Freed(free: seq<nat>, capacity: nat, idx: nat): seq<nat> {
    if |free| < capacity then free + [idx] else free
  }

  /** Take the oldest index off the free list, if there is one. */
  function PopFree(free: seq<nat>): (seq<nat>, Option<nat>) {
    if free == [] then (free, None) else (free[1..], Some(free[0]))
  }

  /** What a frame holds of a packet: what does not fit is cut off. */
  function Written(src: seq<byte>): Packet {
    if |src| <= PACKET_BUF_SIZE then src else src[..PACKET_BUF_SIZE]
  }

  function AllOut(lanes: seq<Lane>): nat {
    if lanes == [] then 0 else AllOut(lanes[..|lanes| - 1]) + |lanes[|lanes| - 1].out|
  }

  /** The head of a batch that is being worked on. */
  predicate At(s: Pipe, i: nat, phase: Phase) {
    i < |s.lanes| && s.lanes[i].phase == phase && s.lanes[i].batch != [] && s.lanes[i].batch[0] < |s.frames|
  }

  predicate Enabled(c: Config, s: Pipe, step: Step) {
    match step
    case Receive(_) => s.hand.Nothing?
    case Write => s.hand.Taken? && s.hand.idx < |s.frames|
    case Steer => s.hand.Filled? && s.hand.idx < |s.frames| && 0 < c.lanes == |s.lanes|
    case Drain(i) =>
      i < |s.lanes| && var l := s.lanes[i]; l.phase == Filling && |l.batch| < BATCH_DRAIN_SIZE && l.rx != []
    case Begin(i) => At(s, i, Filling) && (|s.lanes[i].batch| == BATCH_DRAIN_SIZE || s.lanes[i].rx == [])
    case Discard(i) => At(s, i, Working)
    case Encapsulate(i, _) =>
      At(s, i, Working) && |s.frames[s.lanes[i].batch[0]].bytes| + Gre.ENCAP_OVERHEAD <= PACKET_BUF_SIZE
    case Push(i) => At(s, i, Carrying)
    case MuxPop =>
      s.mux.Draining? && s.mux.at < |s.lanes| && s.lanes[s.mux.at].tx != [] && AllOut(s.lanes) < c.batchSize
    case MuxNext => s.mux.Draining? && s.mux.at + 1 < |s.lanes| && s.lanes[s.mux.at].tx == []
    case MuxSend => s.mux.Draining? && s.mux.at < |s.lanes|
                    && (c.batchSize <= AllOut(s.lanes) || (s.mux.at + 1 == |s.lanes| && s.lanes[s.mux.at].tx == []))
    case MuxCopy(i) => s.mux.Copying? && i < |s.lanes| && s.lanes[i].out != [] && s.lanes[i].out[0] < |s.frames|
                       && forall j | 0 <= j < i :: s.lanes[j].out == []
    case MuxFree => s.mux.Copying? && AllOut(s.lanes) == 0 && s.spent != []
    case MuxRestart => s.mux.Copying? && AllOut(s.lanes) == 0 && s.spent == []
  }

  function PopHead(l: Lane): Lane
    requires l.batch != []
  {
    l.(batch := l.batch[1..], phase := if |l.batch| == 1 then Filling else Working)
  }

  function Steered(c: Config, s: Pipe): Pipe
    requires Enabled(c, s, Steer)
  {
    var q, idx := AssignQueue(c, s.frames[s.hand.idx].bytes), s.hand.idx;
    var l := s.lanes[q];
    if |l.rx| < QUEUE_CAPACITY then s.(hand := Nothing, lanes := s.lanes[q := l.(rx := l.rx + [idx])])
    else s.(hand := Nothing, free := Freed(s.free, |s.frames|, idx))
  }

  function Discarded(s: Pipe, i: nat): Pipe
    requires At(s, i, Working) || At(s, i, Carrying)
  {
    var l := s.lanes[i];
    s.(lanes := s.lanes[i := PopHead(l)], free := Freed(s.free, |s.frames|, l.batch[0]))
  }

  function Pushed(s: Pipe, i: nat): Pipe
    requires At(s, i, Carrying)
  {
    var l := s.lanes[i];
    if |l.tx| < QUEUE_CAPACITY then s.(lanes := s.lanes[i := PopHead(l).(tx := l.tx + [l.batch[0]])])
    else Discarded(s, i)
  }

  function Encapsulated(c: Config, s: Pipe, i: nat, dst: Ipv4): Pipe
    requires Enabled(c, s, Encapsulate(i, dst))
  {
    var l := s.lanes[i];
    var f := s.frames[l.batch[0]];
    s.(frames := s.frames[l.batch[0] := f.(bytes := Gre.Encap(f.bytes, c.src, dst))],
       lanes := s.lanes[i := l.(phase := Carrying)])
  }

  function Copied(s: Pipe, i: nat): Pipe
    requires i < |s.lanes| && s.lanes[i].out != [] && s.lanes[i].out[0] < |s.frames|
  {
    var l := s.lanes[i];
    s.(lanes := s.lanes[i := l.(out := l.out[1..], sent := l.sent + [s.frames[l.out[0]]])],
       spent := s.spent + [l.out[0]])
  }

  function Do(c: Config, s: Pipe, step: Step): Pipe
    requires Enabled(c, s, step)
  {
    match step
    case Receive(p) =>
      var (rest, idx) := PopFree(s.free);
      if idx.None? then s else s.(hand := Taken(idx.value, p), free := rest)
    case Write =>
      var bytes := Written(s.hand.packet);
      s.(frames := s.frames[s.hand.idx := Frame(bytes, |s.log|)], log := s.log + [bytes], hand := Filled(s.hand.idx))
    case Steer => Steered(c, s)
    case Drain(i) => var l := s.lanes[i]; s.(lanes := s.lanes[i := l.(batch := l.batch + [l.rx[0]], rx := l.rx[1..])])
    case Begin(i) => s.(lanes := s.lanes[i := s.lanes[i].(phase := Working)])
    case Discard(i) => Discarded(s, i)
    case Encapsulate(i, dst) => Encapsulated(c, s, i, dst)
    case Push(i) => Pushed(s, i)
    case MuxPop =>
      var l := s.lanes[s.mux.at];
      s.(lanes := s.lanes[s.mux.at := l.(out := l.out + [l.tx[0]], tx := l.tx[1..])])
    case MuxNext => s.(mux := Draining(s.mux.at + 1))
    case MuxSend => s.(mux := Copying)
    case MuxCopy(i) => Copied(s, i)
    case MuxFree => s.(spent := s.spent[1..], free := Freed(s.free, |s.frames|, s.spent[0]))
    case MuxRestart => s.(mux := Draining(0))
  }

  // ----- who owns a frame -----

  function One(b: bool): nat {
    if b then 1 else 0
  }

  function Times(q: seq<nat>, x: nat): nat {
    if q == [] then 0 else One(q[0] == x) + Times(q[1..], x)
  }

  lemma {:induction false} CountConcat(a: seq<nat>, b: seq<nat>, x: nat)
    ensures Times(a + b, x) == Times(a, x) + Times(b, x)
  {
    if a == [] {
      assert a + b == b;
    } else {
      assert (a + b)[1..] == a[1..] + b;
      CountConcat(a[1..], b, x);
    }
  }

  lemma CountPush(a: seq<nat>, k: nat, x: nat)
    ensures Times(a + [k], x) == Times(a, x) + One(k == x)
  {
    CountConcat(a, [k], x);
  }

  function CountLanes(lanes: seq<Lane>, x: nat): nat {
    if lanes == [] then 0 else CountLanes(lanes[..|lanes| - 1], x) + Times(lanes[|lanes| - 1].Line(), x)
  }

  /** In how many of the places an index can be in `x` is: the free list, steering's hand,
      the lanes, and the muxer's list of frames to return. */
  function Owners(s: Pipe, x: nat): nat {
    Times(s.free, x) + One(!s.hand.Nothing? && s.hand.idx == x) + CountLanes(s.lanes, x) + Times(s.spent, x)
  }

  /** Every frame is in exactly one place. */
  ghost predicate Owned(s: Pipe) {
    forall x: nat :: Owners(s, x) == One(x < |s.frames|)
  }

  lemma {:induction false} CountLanesUpdate(lanes: seq<Lane>, i: nat, l: Lane, x: nat)
    requires i < |lanes|
    ensures CountLanes(lanes[i := l], x) == CountLanes(lanes, x) + Times(l.Line(), x) - Times(lanes[i].Line(), x)
  {
    var n := |lanes| - 1;
    if i < n {
      assert lanes[i := l][..n] == lanes[..n][i := l];
      CountLanesUpdate(lanes[..n], i, l, x);
    } else {
      assert lanes[i := l][..n] == lanes[..n];
    }
  }

  lemma {:induction false} CountLanesHas(lanes: seq<Lane>, i: nat, x: nat)
    requires i < |lanes|
    ensures Times(lanes[i].Line(), x) <= CountLanes(lanes, x)
  {
    if i < |lanes| - 1 {
      CountLanesHas(lanes[..|lanes| - 1], i, x);
    }
  }

  lemma {:induction false} CountLanesHasTwo(lanes: seq<Lane>, i: nat, j: nat, x: nat)
    requires i < j < |lanes|
    ensures Times(lanes[i].Line(), x) + Times(lanes[j].Line(), x) <= CountLanes(lanes, x)
  {
    if j < |lanes| - 1 {
      CountLanesHasTwo(lanes[..|lanes| - 1], i, j, x);
    } else {
      CountLanesHas(lanes[..j], i, x);
    }
  }

  // ----- how each step moves the indices of a lane -----

  lemma DrainLine(l: Lane)
    requires l.rx != []
    ensures l.(batch := l.batch + [l.rx[0]], rx := l.rx[1..]).Line() == l.Line()
  {
    assert [l.rx[0]] + l.rx[1..] == l.rx;
  }

  lemma PushLine(l: Lane)
    requires l.batch != []
    ensures PopHead(l).(tx := l.tx + [l.batch[0]]).Line() == l.Line()
  {
    assert [l.batch[0]] + l.batch[1..] == l.batch;
  }

  lemma PopLine(l: Lane)
    requires l.tx != []
    ensures l.(out := l.out + [l.tx[0]], tx := l.tx[1..]).Line() == l.Line()
  {
    assert [l.tx[0]] + l.tx[1..] == l.tx;
  }

  /** The line around the head of the batch. */
  lemma HeadLine(l: Lane)
    requires l.batch != []
    ensures l.Line() == (l.out + l.tx) + ([l.batch[0]] + (l.batch[1..] + l.rx))
    ensures PopHead(l).Line() == (l.out + l.tx) + (l.batch[1..] + l.rx)
  {
    assert [l.batch[0]] + l.batch[1..] == l.batch;
  }

  lemma CopyLine(l: Lane, f: Frame)
    requires l.out != []
    ensures l.Line() == [l.out[0]] + l.(out := l.out[1..], sent := l.sent + [f]).Line()
  {
    assert [l.out[0]] + l.out[1..] == l.out;
  }

  lemma SteerLine(l: Lane, k: nat)
    ensures l.(rx := l.rx + [k]).Line() == l.Line() + [k]
  {
  }

  lemma CountHeadLine(l: Lane, x: nat)
    requires l.batch != []
    ensures Times(l.Line(), x) == Times(PopHead(l).Line(), x) + One(l.batch[0] == x)
  {
    var a, b := l.out + l.tx, l.batch[1..] + l.rx;
    HeadLine(l);
    CountConcat(a, [l.batch[0]] + b, x);
    CountConcat(a, b, x);
  }

  // ----- ownership is kept -----

  /** The indices below `n`. */
  function Range(n: nat): (r: multiset<nat>)
    ensures |r| == n && forall k: nat :: r[k] == One(k < n)
  {
    if n == 0 then multiset{} else Range(n - 1) + multiset{n - 1}
  }

  lemma {:induction false} CountIsMultiplicity(q: seq<nat>, x: nat)
    ensures Times(q, x) == multiset(q)[x]
  {
    if q != [] {
      assert q == [q[0]] + q[1..];
      CountIsMultiplicity(q[1..], x);
    }
  }

  /** Distinct indices below `n` are at most `n`. */
  lemma Pigeonhole(q: seq<nat>, n: nat)
    requires forall x: nat :: Times(q, x) <= One(x < n)
    ensures |q| <= n
  {
    forall x: nat
      ensures multiset(q)[x] <= Range(n)[x]
    {
      CountIsMultiplicity(q, x);
    }
    assert multiset(q) <= Range(n);
    assert Range(n) == multiset(q) + (Range(n) - multiset(q));
  }

  /** Whoever holds an index finds room on the free list: returning it never fails. */
  lemma FreeHasRoom(s: Pipe, k: nat)
    requires Owned(s) && Times(s.free, k) < Owners(s, k)
    ensures |s.free| < |s.frames| && Freed(s.free, |s.frames|, k) == s.free + [k]
  {
    forall x: nat
      ensures Times(s.free + [k], x) <= One(x < |s.frames|)
    {
      CountPush(s.free, k, x);
      assert Owners(s, x) == One(x < |s.frames|);
    }
    Pigeonhole(s.free + [k], |s.frames|);
  }

  lemma FreedCount(s: Pipe, k: nat, x: nat)
    requires Owned(s) && Times(s.free, k) < Owners(s, k)
    ensures Times(Freed(s.free, |s.frames|, k), x) == Times(s.free, x) + One(k == x)
  {
    FreeHasRoom(s, k);
    CountPush(s.free, k, x);
  }

  /** A frame in a lane is not on the free list. */
  lemma LaneHolds(s: Pipe, i: nat, k: nat)
    requires i < |s.lanes| && 0 < Times(s.lanes[i].Line(), k)
    ensures Times(s.free, k) < Owners(s, k)
  {
    CountLanesHas(s.lanes, i, k);
  }

  lemma DiscardOwners(s: Pipe, i: nat, x: nat)
    requires Owned(s) && (At(s, i, Working) || At(s, i, Carrying))
    ensures Owners(Discarded(s, i), x) == Owners(s, x) && |s.free| < |s.frames|
  {
    var l := s.lanes[i];
    var k := l.batch[0];
    CountHeadLine(l, k);
    CountHeadLine(l, x);
    LaneHolds(s, i, k);
    FreeHasRoom(s, k);
    FreedCount(s, k, x);
    CountLanesUpdate(s.lanes, i, PopHead(l), x);
  }

  lemma PushOwners(s: Pipe, i: nat, x: nat)
    requires Owned(s) && At(s, i, Carrying)
    ensures Owners(Pushed(s, i), x) == Owners(s, x)
  {
    var l := s.lanes[i];
    if |l.tx| < QUEUE_CAPACITY {
      PushLine(l);
      CountLanesUpdate(s.lanes, i, PopHead(l).(tx := l.tx + [l.batch[0]]), x);
    } else {
      DiscardOwners(s, i, x);
    }
  }

  lemma SteerOwners(c: Config, s: Pipe, x: nat)
    requires Owned(s) && Enabled(c, s, Steer)
    ensures Owners(Steered(c, s), x) == Owners(s, x) && |s.free| < |s.frames|
  {
    var q, k := AssignQueue(c, s.frames[s.hand.idx].bytes), s.hand.idx;
    var l := s.lanes[q];
    FreeHasRoom(s, k);
    if |l.rx| < QUEUE_CAPACITY {
      SteerLine(l, k);
      CountPush(l.Line(), k, x);
      CountLanesUpdate(s.lanes, q, l.(rx := l.rx + [k]), x);
    } else {
      FreedCount(s, k, x);
    }
  }

  lemma CopyOwners(s: Pipe, i: nat, x: nat)
    requires i < |s.lanes| && s.lanes[i].out != [] && s.lanes[i].out[0] < |s.frames|
    ensures Owners(Copied(s, i), x) == Owners(s, x)
  {
    var l := s.lanes[i];
    CopyLine(l, s.frames[l.out[0]]);
    CountLanesUpdate(s.lanes, i, Copied(s, i).lanes[i], x);
    CountPush(s.spent, l.out[0], x);
    CountConcat([l.out[0]], Copied(s, i).lanes[i].Line(), x);
  }

  lemma MuxFreeOwners(c: Config, s: Pipe, x: nat)
    requires Owned(s) && Enabled(c, s, MuxFree)
    ensures Owners(Do(c, s, MuxFree), x) == Owners(s, x) && |s.free| < |s.frames|
  {
    FreeHasRoom(s, s.spent[0]);
    FreedCount(s, s.spent[0], x);
  }

  /** A step of a lane that moves no index in or out. */
  lemma SameLine(s: Pipe, i: nat, l: Lane, x: nat)
    requires i < |s.lanes| && l.Line() == s.lanes[i].Line()
    ensures CountLanes(s.lanes[i := l], x) == CountLanes(s.lanes, x)
  {
    CountLanesUpdate(s.lanes, i, l, x);
  }

  lemma StepKeepsOwners(c: Config, s: Pipe, step: Step, x: nat)
    requires Owned(s) && Enabled(c, s, step)
    ensures Owners(Do(c, s, step), x) == Owners(s, x)
  {
    match step
    case Receive(p) =>
    case Write =>
    case Steer => SteerOwners(c, s, x);
    case Drain(i) => {
      DrainLine(s.lanes[i]);
      SameLine(s, i, Do(c, s, step).lanes[i], x);
    }
    case Begin(i) => SameLine(s, i, Do(c, s, step).lanes[i], x);
    case Discard(i) => DiscardOwners(s, i, x);
    case Encapsulate(i, _) => SameLine(s, i, Do(c, s, step).lanes[i], x);
    case Push(i) => PushOwners(s, i, x);
    case MuxPop => {
      PopLine(s.lanes[s.mux.at]);
      SameLine(s, s.mux.at, Do(c, s, step).lanes[s.mux.at], x);
    }
    case MuxNext =>
    case MuxSend =>
    case MuxCopy(i) => CopyOwners(s, i, x);
    case MuxFree => MuxFreeOwners(c, s, x);
    case MuxRestart =>
  }

  /** No step loses, duplicates or invents an index. */
  lemma StepKeepsOwned(c: Config, s: Pipe, step: Step)
    requires Owned(s) && Enabled(c, s, step)
    ensures Owned(Do(c, s, step))
  {
    forall x: nat
      ensures Owners(Do(c, s, step), x) == One(x < |s.frames|)
    {
      StepKeepsOwners(c, s, step, x);
    }
  }

  /** The index that a step returns to the free list, if any. */
  function Returns(c: Config, s: Pipe, step: Step): Option<nat>
    requires Enabled(c, s, step)
  {
    match step
    case Steer =>
      if |s.lanes[AssignQueue(c, s.frames[s.hand.idx].bytes)].rx| < QUEUE_CAPACITY then None else Some(s.hand.idx)
    case Discard(i) => Some(s.lanes[i].batch[0])
    case Push(i) => if |s.lanes[i].tx| < QUEUE_CAPACITY then None else Some(s.lanes[i].batch[0])
    case MuxFree => Some(s.spent[0])
    case _ => None
  }

  /** The push whose result `free` ignores never fails, and the index is back on the list. */
  lemma FreeNeverFails(c: Config, s: Pipe, step: Step)
    requires Owned(s) && Enabled(c, s, step) && Returns(c, s, step).Some?
    ensures |s.free| < |s.frames| && Do(c, s, step).free == s.free + [Returns(c, s, step).value]
  {
    match step
    case Steer => SteerOwners(c, s, 0);
    case Discard(i) => DiscardOwners(s, i, 0);
    case Push(i) => DiscardOwners(s, i, 0);
    case MuxFree => MuxFreeOwners(c, s, 0);
  }

  /** No other step puts anything on the free list. */
  lemma OnlyReturnsGrow(c: Config, s: Pipe, step: Step)
    requires Enabled(c, s, step) && Returns(c, s, step).None?
    ensures Do(c, s, step).free == if step.Receive? && s.free != [] then s.free[1..] else s.free
  {
  }

  // ----- exclusive access -----

  /** An index that steering holds is in no lane. */
  lemma HandIsApart(s: Pipe, i: nat)
    requires Owned(s) && !s.hand.Nothing? && i < |s.lanes|
    ensures s.hand.idx < |s.frames| && Times(s.lanes[i].Line(), s.hand.idx) == 0
  {
    CountLanesHas(s.lanes, i, s.hand.idx);
    assert Owners(s, s.hand.idx) == One(s.hand.idx < |s.frames|);
  }

  /** An index in one lane is a frame, is there once, and is in no other lane. */
  lemma LaneIsApart(s: Pipe, i: nat, k: nat)
    requires Owned(s) && i < |s.lanes| && 0 < Times(s.lanes[i].Line(), k)
    ensures k < |s.frames| && Times(s.lanes[i].Line(), k) == 1
    ensures forall j: nat | j < |s.lanes| && j != i :: Times(s.lanes[j].Line(), k) == 0
  {
    CountLanesHas(s.lanes, i, k);
    assert Owners(s, k) == One(k < |s.frames|);
    forall j: nat | j < |s.lanes| && j != i
      ensures Times(s.lanes[j].Line(), k) == 0
    {
      if i < j {
        CountLanesHasTwo(s.lanes, i, j, k);
      } else {
        CountLanesHasTwo(s.lanes, j, i, k);
      }
    }
  }

  // ----- the beginning -----

  lemma {:induction false} CountUpTo(n: nat, x: nat)
    ensures Times(seq(n, i => i), x) == One(x < n)
  {
    if 0 < n {
      CountUpTo(n - 1, x);
      CountPush(seq(n - 1, i => i), n - 1, x);
      assert seq(n, i => i) == seq(n - 1, i => i) + [n - 1];
    }
  }

  lemma {:induction false} NothingInLanes(lanes: seq<Lane>, x: nat)
    requires forall i | 0 <= i < |lanes| :: lanes[i].Line() == []
    ensures CountLanes(lanes, x) == 0
  {
    if lanes != [] {
      NothingInLanes(lanes[..|lanes| - 1], x);
    }
  }

  lemma InitialOwned(c: Config)
    ensures Owned(Initial(c))
  {
    forall x: nat
      ensures Owners(Initial(c), x) == One(x < c.frames)
    {
      CountUpTo(c.frames, x);
      NothingInLanes(Initial(c).lanes, x);
    }
  }
}
