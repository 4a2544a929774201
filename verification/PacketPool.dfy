/**
 The frame pool as the threads use it: frames written in place, and a bounded free list
 whose failed pushes go unnoticed.
 */
module PacketPools {
  import opened Common
  import opened Forwarding
  import opened Icmp
  import Pipeline

  class PacketPool {
    const frames: array<Packet>
    var freeList: seq<nat>

    /** All frames start on the free list, in order. */
    constructor (capacity: nat)
      ensures fresh(frames) && frames.Length == capacity
      ensures forall c: Pipeline.Config | c.frames == capacity :: freeList == Pipeline.Initial(c).free
    {
      frames := new Packet[capacity](_ => []);
      freeList := [];
      new;
      for i := 0 to capacity
        invariant freeList == seq(i, k => k)
      {
        Free(i);
        assert seq(i + 1, k => k) == seq(i, k => k) + [i];
      }
    }

    /** What `Receive` does to the free list of the machine. */
    method Alloc() returns (r: Option<nat>)
      modifies this`freeList
      ensures (freeList, r) == Pipeline.PopFree(old(freeList))
    {
      if freeList == [] {
        return None;
      }
      r := Some(freeList[0]);
      freeList := freeList[1..];
    }

    /** What steering, a rewriter or the muxer does to it; the push fails silently on a full
        list. */
    method Free(idx: nat)
      modifies this`freeList
      ensures freeList == Pipeline.Freed(old(freeList), frames.Length, idx)
    {
      if |freeList| < frames.Length {
        freeList := freeList + [idx];
      }
    }

    /** What `Write` does to the bytes of a frame. */
    method WriteFrom(idx: nat, src: seq<byte>)
      requires idx < frames.Length
      modifies frames
      ensures frames[..] == old(frames[..])[idx := Pipeline.Written(src)]
    {
      var n := if |src| < PACKET_BUF_SIZE then |src| else PACKET_BUF_SIZE;
      assert src[..|src|] == src;
      frames[idx] := src[..n];
    }
  }

  /** The bytes of the frames of the machine. */
  function BytesOf(frames: seq<Pipeline.Frame>): (r: seq<Packet>)
    ensures |r| == |frames| && forall k | 0 <= k < |frames| :: r[k] == frames[k].bytes
  {
    seq(|frames|, k requires 0 <= k < |frames| => frames[k].bytes)
  }

  /** The three operations of the pool are the effect of the machine's steps: a pool that
      agrees with the machine agrees with it after each step of steering. */
  lemma ReceiveIsAlloc(c: Pipeline.Config, s: Pipeline.Pipe, p: seq<byte>)
    requires s.hand.Nothing?
    ensures var t := Pipeline.Do(c, s, Pipeline.Receive(p));
            var (rest, idx) := Pipeline.PopFree(s.free);
            && t.free == rest && t.frames == s.frames
            && t.hand == if idx.None? then Pipeline.Nothing else Pipeline.Taken(idx.value, p)
  {
  }

  lemma WriteIsWriteFrom(c: Pipeline.Config, s: Pipeline.Pipe)
    requires s.hand.Taken? && s.hand.idx < |s.frames|
    ensures var t := Pipeline.Do(c, s, Pipeline.Write);
            && t.free == s.free
            && BytesOf(t.frames) == BytesOf(s.frames)[s.hand.idx := Pipeline.Written(s.hand.packet)]
  {
  }

  /** Taking a packet in as steering does: allocate and write, or drop. */
  method TakeIn(pool: PacketPool, src: seq<byte>, ghost c: Pipeline.Config, ghost s: Pipeline.Pipe)
    returns (idx: Option<nat>)
    requires pool.freeList == s.free && pool.frames[..] == BytesOf(s.frames) && s.hand.Nothing?
    requires forall k | k in s.free :: k < |s.frames|
    modifies pool`freeList, pool.frames
    ensures var a := Pipeline.Do(c, s, Pipeline.Receive(src));
            && (idx.None? <==> a.hand.Nothing?)
            && (idx.None? ==> pool.freeList == a.free && pool.frames[..] == BytesOf(a.frames))
            && (idx.Some? ==>
                  && a.hand == Pipeline.Taken(idx.value, src) && Pipeline.Enabled(c, a, Pipeline.Write)
                  && var b := Pipeline.Do(c, a, Pipeline.Write);
                     && pool.freeList == b.free && pool.frames[..] == BytesOf(b.frames)
                     && b.hand == Pipeline.Filled(idx.value))
  {
    idx := pool.Alloc();
    ReceiveIsAlloc(c, s, src);
    if idx.Some? {
      assert idx.value in s.free;
      pool.WriteFrom(idx.value, src);
      WriteIsWriteFrom(c, Pipeline.Do(c, s, Pipeline.Receive(src)));
    }
  }
}
