/**
 Clamping the TCP maximum segment size in SYN packets: the walk over the TCP options, the
 rewrite, and the incremental checksum update of equation 3 in section 3 of RFC 1624.
 */
module MssClamp {
  import opened Common
  import opened Checksums

  const TCP_OPT_END := 0
  const TCP_OPT_NOP := 1
  const TCP_OPT_MSS := 2
  const TCP_OPT_MSS_LEN := 4
  const TCP_FLAGS_OFFSET := 13

  datatype ClampResult = NotTcp | NotSyn | Clamped | Noop | MssMissing

  /** Length in bytes of the IP header, as its first byte says; any multiple of four up to
      60, also below the legal 20. */
  function Ihl(d: seq<byte>): (n: nat)
    requires d != []
    ensures n <= 60 && n % 4 == 0
  {
    d[0] % 16 * 4
  }

  predicate SynBit(flags: byte) {
    flags / 2 % 2 == 1
  }

  /** What stands before the options: `None` when the options are to be walked. */
  function Reject(d: seq<byte>): Option<ClampResult> {
    if |d| < 40 || d[0] / 16 != 4 || d[9] != 6 || |d| < Ihl(d) + 20 then Some(NotTcp)
    else if !SynBit(d[Ihl(d) + TCP_FLAGS_OFFSET]) then Some(NotSyn)
    else if DataOffset(d) < 20 || |d| < Ihl(d) + DataOffset(d) then Some(MssMissing)
    else None
  }

  function DataOffset(d: seq<byte>): nat
    requires |d| >= 40 && |d| >= Ihl(d) + 20
  {
    d[Ihl(d) + 12] / 16 * 4
  }

  function OptionsStart(d: seq<byte>): nat
    requires Reject(d).None?
  {
    Ihl(d) + 20
  }

  function OptionsEnd(d: seq<byte>): (e: nat)
    requires Reject(d).None?
    ensures OptionsStart(d) <= e <= |d|
  {
    Ihl(d) + DataOffset(d)
  }

  /** Where the walk over `d[off..end]` stops on an MSS option, if it does. */
  function FindMss(d: seq<byte>, off: nat, end: nat): (r: Option<nat>)
    requires end <= |d|
    ensures r.Some? ==> off <= r.value && r.value + 4 <= end && MssAt(d, r.value)
    decreases end - off
  {
    if off >= end || d[off] == TCP_OPT_END then None
    else if d[off] == TCP_OPT_NOP then FindMss(d, off + 1, end)
    else if off + 1 >= end || d[off + 1] < 2 then None
    else if d[off] == TCP_OPT_MSS && d[off + 1] == TCP_OPT_MSS_LEN then
      if off + 4 > end then None else Some(off)
    else FindMss(d, off + d[off + 1] as nat, end)
  }

  /** A maximum segment size option of the right length starts at `off`. */
  predicate MssAt(d: seq<byte>, off: nat) {
    off + 1 < |d| && d[off] == 2 && d[off + 1] == 4
  }

  /** An option other than the MSS starts at `off` and ends at `next`. */
  predicate OtherOption(d: seq<byte>, off: nat, next: nat) {
    && off < |d|
    && d[off] != 0
    && if d[off] == 1 then next == off + 1
       else off + 1 < |d| && 2 <= d[off + 1] && next == off + d[off + 1] as nat && !MssAt(d, off)
  }

  /** The options can be read one after the other from `from` up to exactly `to`, none of
      them an MSS. */
  ghost predicate Readable(d: seq<byte>, from: nat, to: nat)
    decreases to - from
  {
    from == to || exists next: nat :: from < next <= to && OtherOption(d, from, next) && Readable(d, next, to)
  }

  /** The walk finds exactly the first well-formed MSS option: the one that lies within the
      options and before which only other options can be read. */
  lemma {:induction false} FindMssExactly(d: seq<byte>, from: nat, end: nat, off: nat)
    requires from <= off && end <= |d|
    ensures FindMss(d, from, end) == Some(off) <==> off + 4 <= end && MssAt(d, off) && Readable(d, from, off)
    decreases off - from
  {
    if from < off {
      forall next: nat | from < next <= off && OtherOption(d, from, next)
        ensures FindMss(d, next, end) == Some(off) <==> off + 4 <= end && MssAt(d, off) && Readable(d, next, off)
      {
        FindMssExactly(d, next, end, off);
      }
    }
  }

  /** The checksum after the two old bytes give way to the two new ones. */
  function Incremental(stored: int, was: int, now: int): (c: int)
    requires 0 <= stored < 0x1_0000 && 0 <= was < 0x1_0000 && 0 <= now < 0x1_0000
    ensures 0 <= c < 0x1_0000
  {
    var sum := (0xFFFF - stored) + (0xFFFF - was) + now;
    0xFFFF - Fold(sum)
  }

  /** `d` with the 16-bit number `n` at `i`. */
  function Put16(d: seq<byte>, i: nat, n: uint16): (r: seq<byte>)
    requires i + 1 < |d|
    ensures |r| == |d| && Word(r, i) == n
    ensures forall k | 0 <= k < |d| && k != i && k != i + 1 :: r[k] == d[k]
  {
    d[i := Hi(n)][i + 1 := Lo(n)]
  }

  /** The packet with the MSS at `off` replaced and its checksum updated. */
  function Rewritten(d: seq<byte>, off: nat, maxMss: uint16): (r: seq<byte>)
    requires |d| >= 40 && Ihl(d) + 20 <= off && off + 4 <= |d|
    ensures |r| == |d|
  {
    var c := Incremental(Word(d, Ihl(d) + 16), Word(d, off + 2), maxMss);
    Put16(Put16(d, off + 2, maxMss), Ihl(d) + 16, c)
  }

  function Clamp(d: seq<byte>, maxMss: uint16): (r: (seq<byte>, ClampResult))
    ensures |r.0| == |d|
  {
    if Reject(d).Some? then (d, Reject(d).value)
    else
      match FindMss(d, OptionsStart(d), OptionsEnd(d))
      case None => (d, MssMissing)
      case Some(off) => if maxMss < Word(d, off + 2) then (Rewritten(d, off, maxMss), Clamped) else (d, Noop)
  }

  method ClampMss(data: array<byte>, maxMss: uint16) returns (r: ClampResult)
    modifies data
    ensures (data[..], r) == Clamp(old(data[..]), maxMss)
  {
    var len := data.Length;
    if len < 40 {
      return NotTcp;
    }
    if data[0] / 16 != 4 {
      return NotTcp;
    }
    if data[9] != 6 {
      return NotTcp;
    }
    var ihl: nat := data[0] % 16 * 4;
    if len < ihl + 20 {
      return NotTcp;
    }
    if !SynBit(data[ihl + TCP_FLAGS_OFFSET]) {
      return NotSyn;
    }
    var dataOffset: nat := data[ihl + 12] / 16 * 4;
    if dataOffset < 20 || len < ihl + dataOffset {
      return MssMissing;
    }
    r := WalkOptions(data, maxMss, ihl, ihl + dataOffset);
  }

  method WalkOptions(data: array<byte>, maxMss: uint16, ihl: nat, end: nat) returns (r: ClampResult)
    requires Reject(data[..]).None? && ihl == Ihl(data[..]) && end == OptionsEnd(data[..])
    modifies data
    ensures (data[..], r) == Clamp(old(data[..]), maxMss)
  {
    ghost var d := data[..];
    var offset: nat := ihl + 20;
    while offset < end
      invariant data[..] == d && ihl + 20 <= offset
      invariant FindMss(d, offset, end) == FindMss(d, ihl + 20, end)
      decreases end - offset
    {
      var kind := data[offset];
      if kind == TCP_OPT_END {
        break;
      }
      if kind == TCP_OPT_NOP {
        offset := offset + 1;
        continue;
      }
      if offset + 1 >= end {
        break;
      }
      var length := data[offset + 1] as nat;
      if length < 2 {
        break;
      }
      if kind == TCP_OPT_MSS && length == TCP_OPT_MSS_LEN {
        if offset + 4 > end {
          break;
        }
        r := RewriteMss(data, offset, ihl, maxMss);
        return;
      }
      offset := offset + length;
    }
    return MssMissing;
  }

  method RewriteMss(data: array<byte>, offset: nat, ihl: nat, maxMss: uint16) returns (r: ClampResult)
    requires data.Length >= 40 && ihl == Ihl(data[..]) && ihl + 20 <= offset && offset + 4 <= data.Length
    modifies data
    ensures (data[..], r) == if maxMss < Word(old(data[..]), offset + 2)
                             then (Rewritten(old(data[..]), offset, maxMss), Clamped) else (old(data[..]), Noop)
  {
    ghost var d := data[..];
    var current := Word(data[..], offset + 2);
    if current <= maxMss {
      return Noop;
    }
    Store16(data, offset + 2, maxMss);
    // Incremental update of the checksum.
    var stored := Word(data[..], ihl + 16);
    var c := FoldedComplement((0xFFFF - stored as int) + (0xFFFF - current as int) + maxMss as int);
    Store16(data, ihl + 16, c);
    return Clamped;
  }

  method Store16(data: array<byte>, i: nat, n: uint16)
    requires i + 1 < data.Length
    modifies data
    ensures data[..] == Put16(old(data[..]), i, n)
  {
    data[i] := Hi(n);
    data[i + 1] := Lo(n);
  }

  // ----- which packets are clamped -----

  /** An IPv4 packet with protocol 6 and room for both headers. */
  predicate IsTcp(d: seq<byte>) {
    40 <= |d| && d[0] / 16 == 4 && d[9] == 6 && 4 * (d[0] % 16) as int + 20 <= |d|
  }

  /** Its byte 13 of the TCP header has the SYN bit, the second lowest. */
  predicate IsSyn(d: seq<byte>) {
    IsTcp(d) && d[4 * (d[0] % 16) as int + 13] % 4 >= 2
  }

  /** The options, between the fixed part of the TCP header and its end as the data offset
      says, hold an MSS option at `off` with only other options readable before it. */
  ghost predicate MssStands(d: seq<byte>, off: nat) {
    IsSyn(d) &&
    var tcp := 4 * (d[0] % 16) as int;
    var end := tcp + 4 * (d[tcp + 12] / 16) as int;
    end <= |d| && tcp + 20 <= off && off + 4 <= end && d[off] == 2 && d[off + 1] == 4 && Readable(d, tcp + 20, off)
  }

  lemma RejectExactly(d: seq<byte>)
    ensures Reject(d) == Some(NotTcp) <==> !IsTcp(d)
    ensures Reject(d) == Some(NotSyn) <==> IsTcp(d) && !IsSyn(d)
    ensures Reject(d).Some? && IsSyn(d) ==> Reject(d) == Some(MssMissing) && forall off: nat :: !MssStands(d, off)
    ensures Reject(d).None? ==> IsSyn(d)
  {
  }

  lemma StandsWhereFound(d: seq<byte>, off: nat)
    requires Reject(d).None?
    ensures FindMss(d, OptionsStart(d), OptionsEnd(d)) == Some(off) <==> MssStands(d, off)
  {
    if OptionsStart(d) <= off {
      FindMssExactly(d, OptionsStart(d), OptionsEnd(d), off);
    }
  }

  /** Every answer, from the bytes of the packet alone, and what becomes of the packet: it is
      rewritten exactly when it is a SYN with an MSS option above the limit. */
  lemma ClampExactly(d: seq<byte>, maxMss: uint16)
    ensures var (r, res) := Clamp(d, maxMss);
            && (res == NotTcp <==> !IsTcp(d))
            && (res == NotSyn <==> IsTcp(d) && !IsSyn(d))
            && (res == MssMissing <==> IsSyn(d) && forall off: nat :: !MssStands(d, off))
            && (res == Noop <==> exists off: nat :: MssStands(d, off) && Word(d, off + 2) <= maxMss)
            && (res == Clamped <==> exists off: nat :: MssStands(d, off) && Word(d, off + 2) > maxMss)
            && (r == d || res == Clamped)
  {
    RejectExactly(d);
    if Reject(d).None? {
      var found := FindMss(d, OptionsStart(d), OptionsEnd(d));
      forall off: nat
        ensures found == Some(off) <==> MssStands(d, off)
      {
        StandsWhereFound(d, off);
      }
    } else {
      assert forall off: nat | MssStands(d, off) :: IsSyn(d);
    }
  }

  // ----- what clamping does to a packet -----

  /** Only four bytes can change: the two of the MSS and the two of the checksum. */
  lemma ClampChangesLittle(d: seq<byte>, maxMss: uint16, k: nat)
    requires k < |d|
    ensures var (r, res) := Clamp(d, maxMss);
            r[k] != d[k] ==>
              && Reject(d).None? && res == Clamped
              && var off := FindMss(d, OptionsStart(d), OptionsEnd(d)).value;
                 k in {off + 2, off + 3, Ihl(d) + 16, Ihl(d) + 17}
  {
  }

  /** A walk that stops at `off` reads nothing behind its first two bytes. */
  lemma {:induction false} FindMssFrame(d: seq<byte>, e: seq<byte>, from: nat, end: nat, off: nat)
    requires |e| == |d| && end <= |d| && FindMss(d, from, end) == Some(off)
    requires forall k | from <= k < off + 2 :: e[k] == d[k]
    ensures FindMss(e, from, end) == Some(off)
    decreases end - from
  {
    if d[from] == TCP_OPT_NOP {
      FindMssFrame(d, e, from + 1, end, off);
    } else if from != off {
      FindMssFrame(d, e, from + d[from + 1] as nat, end, off);
    }
  }

  /** What clamping does where an MSS stands. */
  lemma ClampIs(d: seq<byte>, maxMss: uint16, off: nat)
    requires MssStands(d, off)
    ensures Reject(d).None? && FindMss(d, OptionsStart(d), OptionsEnd(d)) == Some(off)
    ensures Clamp(d, maxMss) == if maxMss < Word(d, off + 2) then (Rewritten(d, off, maxMss), Clamped) else (d, Noop)
  {
    RejectExactly(d);
    StandsWhereFound(d, off);
  }

  lemma RewrittenStands(d: seq<byte>, maxMss: uint16, off: nat)
    requires Reject(d).None? && FindMss(d, OptionsStart(d), OptionsEnd(d)) == Some(off)
    requires OptionsStart(d) <= off && off + 4 <= |d|
    ensures var r := Rewritten(d, off, maxMss);
            MssStands(r, off) && Word(r, off + 2) == maxMss
  {
    var r := Rewritten(d, off, maxMss);
    RewriteKeepsHeader(d, maxMss, off);
    FindMssFrame(d, r, OptionsStart(d), OptionsEnd(d), off);
    StandsWhereFound(r, off);
  }

  /** After clamping, the MSS that stands is the smaller of the old one and the limit, at the
      same place; and clamping again finds nothing to do. */
  lemma ClampBounds(d: seq<byte>, maxMss: uint16, off: nat)
    requires MssStands(d, off)
    ensures var r := Clamp(d, maxMss).0;
            && MssStands(r, off)
            && Word(r, off + 2) == (if Word(d, off + 2) < maxMss then Word(d, off + 2) else maxMss)
            && Clamp(r, maxMss) == (r, Noop)
  {
    ClampIs(d, maxMss, off);
    if maxMss < Word(d, off + 2) {
      RewrittenStands(d, maxMss, off);
      ClampIs(Rewritten(d, off, maxMss), maxMss, off);
    }
  }

  lemma RewriteKeepsHeader(d: seq<byte>, maxMss: uint16, off: nat)
    requires Reject(d).None? && OptionsStart(d) <= off && off + 4 <= |d|
    ensures var r := Rewritten(d, off, maxMss);
            && Reject(r).None? && Ihl(r) == Ihl(d) && OptionsEnd(r) == OptionsEnd(d)
            && Word(r, off + 2) == maxMss
            && forall k | OptionsStart(d) <= k < off + 2 :: r[k] == d[k]
  {
    var r := Rewritten(d, off, maxMss);
    var ihl := Ihl(d);
    assert r[0] == d[0] && r[9] == d[9] && r[ihl + 12] == d[ihl + 12] && r[ihl + 13] == d[ihl + 13];
  }
}
