/**
 The full TCP checksum over pseudo-header and segment, and when the incremental update of
 the MSS clamp agrees with it.
 */
module TcpChecksum {
  import opened Common
  import opened Checksums
  import opened MssClamp

  /** The segment with its checksum field, if it reaches as far, zeroed. */
  function Blanked(segment: seq<byte>): (r: seq<byte>)
    ensures |r| == |segment|
  {
    if |segment| < 18 then segment else Put16(segment, 16, 0)
  }

  function PseudoSum(d: seq<byte>, ihl: nat): nat
    requires 20 <= |d| && ihl <= |d|
  {
    Word(d, 12) + Word(d, 14) + Word(d, 16) + Word(d, 18) + d[9] as int + (|d| - ihl)
  }

  function SegmentSum(d: seq<byte>, ihl: nat): nat
    requires ihl <= |d|
  {
    WordSum(Blanked(d[ihl..]))
  }

  function FullSum(d: seq<byte>, ihl: nat): (n: nat)
    requires 20 <= |d| && ihl <= |d|
  {
    PseudoSum(d, ihl) + SegmentSum(d, ihl)
  }

  function FullChecksum(d: seq<byte>, ihl: nat): (c: int)
    requires 20 <= |d| && ihl <= |d|
    ensures 0 <= c < 0x1_0000 && c == 0xFFFF - Fold(FullSum(d, ihl))
  {
    0xFFFF - Fold(FullSum(d, ihl))
  }

  /** The part of the word sum that the segment from word `j` on contributes. */
  ghost function Rest(d: seq<byte>, ihl: nat, j: nat): nat
    requires ihl + 2 * j <= |d|
  {
    WordSum(Blanked(d[ihl..])[2 * j..])
  }

  lemma RestStarts(d: seq<byte>, ihl: nat)
    requires ihl <= |d|
    ensures Rest(d, ihl, 0) == SegmentSum(d, ihl)
  {
    assert Blanked(d[ihl..])[0..] == Blanked(d[ihl..]);
  }

  lemma RestStep(d: seq<byte>, ihl: nat, j: nat)
    requires ihl + 2 * j + 1 < |d|
    ensures Rest(d, ihl, j) == (if j == 8 then 0 else Word(d, ihl + 2 * j)) + Rest(d, ihl, j + 1)
  {
    var b := Blanked(d[ihl..]);
    assert b[2 * j..][2..] == b[2 * (j + 1)..];
  }

  lemma RestEnds(d: seq<byte>, ihl: nat, j: nat)
    requires |d| - 1 <= ihl + 2 * j <= |d|
    ensures (|d| - ihl) % 2 != 0 <==> ihl + 2 * j == |d| - 1
    ensures Rest(d, ihl, j) == if ihl + 2 * j == |d| - 1 then 256 * (d[|d| - 1] as int) else 0
  {
    var b := Blanked(d[ihl..]);
    assert b[2 * j..] == if ihl + 2 * j < |d| then [d[|d| - 1]] else [];
  }

  /** Recomputation: the pseudo-header, and a loop that skips the checksum field. */
  method FullTcpChecksum(data: seq<byte>, ihl: nat) returns (c: int)
    requires 20 <= |data| && ihl <= |data|
    ensures c == FullChecksum(data, ihl)
  {
    var sum: nat := Word(data, 12);
    sum := sum + Word(data, 14);
    sum := sum + Word(data, 16);
    sum := sum + Word(data, 18);
    sum := sum + data[9];
    sum := sum + (|data| - ihl);
    sum := AddSegment(data, ihl, sum);
    c := FoldedComplement(sum);
  }

  method AddSegment(data: seq<byte>, ihl: nat, start: nat) returns (sum: nat)
    requires 20 <= |data| && ihl <= |data|
    ensures sum == start + SegmentSum(data, ihl)
  {
    sum := start;
    var i := ihl;
    ghost var j := 0;
    RestStarts(data, ihl);
    while i < |data| - 1
      invariant i == ihl + 2 * j <= |data|
      invariant sum + Rest(data, ihl, j) == start + SegmentSum(data, ihl)
    {
      RestStep(data, ihl, j);
      if i != ihl + 16 {
        sum := sum + Word(data, i);
      }
      i := i + 2;
      j := j + 1;
    }
    RestEnds(data, ihl, j);
    if (|data| - ihl) % 2 != 0 {
      sum := sum + 256 * (data[|data| - 1] as int);
    }
  }

  /** By how much the sum moves when a 16-bit number changes at an even or an odd offset:
      at an odd one, by the difference of the numbers with their bytes exchanged. */
  function Shift(even: bool, was: uint16, now: uint16): int {
    if even then now as int - was as int else Swapped(now) - Swapped(was)
  }

  lemma GainOfBytes(k: nat, a: byte, b: byte, hi: byte, lo: byte)
    ensures Gain(k, a, hi) + Gain(k + 1, b, lo) ==
            if k % 2 == 0 then 256 * (hi as int - a as int) + (lo as int - b as int)
            else (hi as int - a as int) + 256 * (lo as int - b as int)
  {
    assert k % 2 + (k + 1) % 2 == 1;
  }

  lemma GainTwo(k: nat, was: uint16, now: uint16)
    ensures Gain(k, Hi(was), Hi(now)) + Gain(k + 1, Lo(was), Lo(now)) == Shift(k % 2 == 0, was, now)
  {
    GainOfBytes(k, Hi(was), Lo(was), Hi(now), Lo(now));
  }

  lemma HiLoOfWord(s: seq<byte>, k: nat)
    requires k + 1 < |s|
    ensures Hi(Word(s, k)) == s[k] && Lo(Word(s, k)) == s[k + 1]
  {
  }

  lemma WordSumPut(s: seq<byte>, k: nat, n: uint16)
    requires k + 1 < |s|
    ensures WordSum(Put16(s, k, n)) == WordSum(s) + Shift(k % 2 == 0, Word(s, k), n)
  {
    WordSumUpdateTwo(s, k, Hi(n), Lo(n));
    HiLoOfWord(s, k);
    GainTwo(k, Word(s, k), n);
  }

  function Swapped(n: uint16): int {
    Hi(n) as int + 256 * (Lo(n) as int)
  }

  // ----- writing a 16-bit number into a segment -----

  lemma PutSuffix(d: seq<byte>, from: nat, i: nat, n: uint16)
    requires from <= i && i + 1 < |d|
    ensures Put16(d, i, n)[from..] == Put16(d[from..], i - from, n)
  {
  }

  lemma PutsCommute(s: seq<byte>, i: nat, n: uint16, j: nat, m: uint16)
    requires i + 1 < j && j + 1 < |s|
    ensures Put16(Put16(s, j, m), i, n) == Put16(Put16(s, i, n), j, m)
  {
  }

  lemma PutTwice(s: seq<byte>, i: nat, n: uint16, m: uint16)
    requires i + 1 < |s|
    ensures Put16(Put16(s, i, n), i, m) == Put16(s, i, m)
  {
  }

  /** A packet with a new MSS at `off` and a new checksum. */
  function Patched(d: seq<byte>, ihl: nat, off: nat, mss: uint16, c: uint16): (r: seq<byte>)
    requires ihl + 20 <= off && off + 4 <= |d|
    ensures |r| == |d|
  {
    Put16(Put16(d, off + 2, mss), ihl + 16, c)
  }

  /** The blanked segment only sees the new MSS. */
  lemma SegmentAfter(d: seq<byte>, ihl: nat, off: nat, mss: uint16, c: uint16)
    requires ihl + 20 <= off && off + 4 <= |d|
    ensures Blanked(Patched(d, ihl, off, mss, c)[ihl..]) == Put16(Blanked(d[ihl..]), off + 2 - ihl, mss)
    ensures Word(Blanked(d[ihl..]), off + 2 - ihl) == Word(d, off + 2)
  {
    var s, k := d[ihl..], off + 2 - ihl;
    PutSuffix(Put16(d, off + 2, mss), ihl, ihl + 16, c);
    PutSuffix(d, ihl, off + 2, mss);
    PutTwice(Put16(s, k, mss), 16, c, 0);
    PutsCommute(s, 16, 0, k, mss);
  }

  /** The pseudo-header is untouched unless the header length is zero, when the checksum
      field of the segment lies in the destination address. */
  lemma PseudoSumAfter(d: seq<byte>, ihl: nat, off: nat, mss: uint16, c: uint16)
    requires ihl + 20 <= off && off + 4 <= |d| && (ihl == 0 || 4 <= ihl)
    ensures PseudoSum(Patched(d, ihl, off, mss, c), ihl) ==
            PseudoSum(d, ihl) + if ihl == 0 then c as int - Word(d, 16) as int else 0
  {
    var r := Patched(d, ihl, off, mss, c);
    assert forall k | 0 <= k < 20 && (ihl != 0 || k < 16 || 18 <= k) :: r[k] == d[k];
    assert ihl == 0 ==> Word(r, 16) == c;
  }

  /** By how much the full sum moves. */
  function Moved(ihl: nat, off: nat, was: uint16, now: uint16, stored: uint16, c: uint16): int
    requires ihl <= off
  {
    Shift((off + 2 - ihl) % 2 == 0, was, now) + if ihl == 0 then c as int - stored as int else 0
  }

  lemma FullSumAfter(d: seq<byte>, ihl: nat, off: nat, mss: uint16, c: uint16)
    requires ihl + 20 <= off && off + 4 <= |d| && (ihl == 0 || 4 <= ihl)
    ensures FullSum(Patched(d, ihl, off, mss, c), ihl) ==
            FullSum(d, ihl) + Moved(ihl, off, Word(d, off + 2), mss, Word(d, ihl + 16), c)
  {
    PseudoSumAfter(d, ihl, off, mss, c);
    SegmentSumAfter(d, ihl, off, mss, c);
  }

  lemma SegmentSumAfter(d: seq<byte>, ihl: nat, off: nat, mss: uint16, c: uint16)
    requires ihl + 20 <= off && off + 4 <= |d|
    ensures SegmentSum(Patched(d, ihl, off, mss, c), ihl) ==
            SegmentSum(d, ihl) + Shift((off + 2 - ihl) % 2 == 0, Word(d, off + 2), mss)
  {
    SegmentAfter(d, ihl, off, mss, c);
    WordSumPut(Blanked(d[ihl..]), off + 2 - ihl, mss);
  }

  /** Exchanging the bytes is multiplying by 256 modulo 65535, so the two differences agree
      modulo 65535 exactly when 257 divides the change. */
  lemma SwapAgrees(a: uint16, b: uint16)
    ensures (Shift(false, a, b) - (b as int - a as int)) % 0xFFFF == 0 <==> (b as int - a as int) % 257 == 0
  {
    var delta := b as int - a as int;
    var h := Hi(b) as int - Hi(a) as int;
    assert Shift(false, a, b) - delta == 255 * delta - 0xFFFF * h;
    ModShift(255 * delta, h);
    Mod257(delta);
  }

  lemma ShiftAgrees(even: bool, a: uint16, b: uint16)
    ensures (Shift(even, a, b) - (b as int - a as int)) % 0xFFFF == 0 <==> even || (b as int - a as int) % 257 == 0
  {
    if !even {
      SwapAgrees(a, b);
    }
  }

  lemma Mod257(delta: int)
    ensures (255 * delta) % 0xFFFF == 0 <==> delta % 257 == 0
  {
    var q, r := delta / 257, delta % 257;
    assert 255 * delta == 0xFFFF * q + 255 * r;
    ModShift(255 * r, -q);
  }

  /** The stored checksum is the full one. */
  predicate Correct(d: seq<byte>) {
    |d| >= 20 && Ihl(d) + 18 <= |d| && Word(d, Ihl(d) + 16) == FullChecksum(d, Ihl(d))
  }

  /** What a receiver adds up (section 3.1 of RFC 9293): the pseudo-header of both addresses, a
      zero, the protocol and the length of the segment, and the segment with its checksum. */
  function Received(d: seq<byte>, ihl: nat): seq<byte>
    requires 20 <= |d| && ihl <= |d| && |d| - ihl < 0x1_0000
  {
    d[12..20] + [0, d[9]] + Be16(|d| - ihl) + d[ihl..]
  }

  lemma PseudoHeaderSum(d: seq<byte>, n: uint16)
    requires 20 <= |d|
    ensures WordSum(d[12..20] + [0, d[9]] + Be16(n)) ==
            Word(d, 12) + Word(d, 14) + Word(d, 16) + Word(d, 18) + d[9] as int + n
  {
    var s := d[12..20] + [0, d[9]] + Be16(n);
    assert s[10..] == Be16(n) && Be16(n)[2..] == [] && WordSum(Be16(n)) == n;
    assert s[8] == 0 && s[9] == d[9] && s[..8] == d[12..20];
    assert forall i: nat | i < 8 :: s[i] == d[12 + i];
    assert s[8..][2..] == s[10..] && Word(s[8..], 0) == d[9] as int;
    assert WordSum(s[8..]) == d[9] as int + n;
    assert s[6..][2..] == s[8..] && WordSum(s[6..]) == Word(d, 18) + d[9] as int + n;
    assert s[4..][2..] == s[6..] && WordSum(s[4..]) == Word(d, 16) + Word(d, 18) + d[9] as int + n;
    assert s[2..][2..] == s[4..];
  }

  /** The sum with and without the checksum field. */
  lemma ReceivedSum(d: seq<byte>, ihl: nat)
    requires 20 <= |d| && ihl + 18 <= |d| && |d| - ihl < 0x1_0000
    ensures WordSum(Received(d, ihl)) == FullSum(d, ihl) + Word(d, ihl + 16)
  {
    var segment := d[ihl..];
    WordSumConcat(d[12..20] + [0, d[9]] + Be16(|d| - ihl), segment);
    PseudoHeaderSum(d, |d| - ihl);
    assert segment == Put16(Put16(segment, 16, 0), 16, Word(segment, 16)) by {
      HiLoOfWord(segment, 16);
    }
    WordSumPut(Put16(segment, 16, 0), 16, Word(segment, 16));
  }

  lemma FoldsToOnes(n: nat, stored: uint16)
    requires 0 < n
    ensures stored == 0xFFFF - Fold(n) <==> 0xFFFF - Fold(n + stored) == 0 && stored != 0xFFFF
  {
    var q := (n - 1) / 0xFFFF;
    assert n == 0xFFFF * q + Fold(n);
    if stored == 0xFFFF - Fold(n) {
      FoldWithComplement(n);
    } else if Fold(n + stored) == 0xFFFF {
      FoldSame(n + stored, 0xFFFF * (q + 1));
      FoldOfMultiple(q);
    }
  }

  /** A segment carries the full checksum exactly when it verifies at the receiver, where the sum
      over pseudo-header and segment must come out as all ones; a stored 65535, which verifies
      like 0, is never written. */
  lemma VerifiesExactly(d: seq<byte>)
    requires 20 <= |d| && Ihl(d) + 18 <= |d| && |d| - Ihl(d) < 0x1_0000 && d[9] == 6
    ensures Correct(d) <==> Checksum(Received(d, Ihl(d))) == 0 && Word(d, Ihl(d) + 16) != 0xFFFF
  {
    FullSumPositive(d, Ihl(d));
    ReceivedSum(d, Ihl(d));
    FoldsToOnes(FullSum(d, Ihl(d)), Word(d, Ihl(d) + 16));
  }

  lemma FullSumPositive(d: seq<byte>, ihl: nat)
    requires 20 <= |d| && ihl <= |d| && 0 < d[9]
    ensures 0 < FullSum(d, ihl)
  {
  }

  lemma RightNumbers(before: nat, after: nat, stored: uint16, was: uint16, now: uint16, moved: int)
    requires 0 < before && 0 < after && stored == 0xFFFF - Fold(before) && after == before + moved
    ensures 0xFFFF - Fold(after) == Incremental(stored, was, now) <==> (moved - (now as int - was as int)) % 0xFFFF == 0
  {
    IncrementalIs(before, after, was, now);
  }

  /** When that is. */
  predicate Agrees(ihl: nat, off: nat, was: uint16, now: uint16) {
    if ihl == 0 then was == 0xFFFF && now == 0 else off % 2 == 0 || (now as int - was as int) % 257 == 0
  }

  lemma MovedExactly(ihl: nat, off: nat, was: uint16, now: uint16, stored: uint16, c: uint16, m: int)
    requires ihl % 4 == 0 && ihl <= off && now < was && c == Incremental(stored, was, now)
    requires m == Moved(ihl, off, was, now, stored, c)
    ensures (m - (now as int - was as int)) % 0xFFFF == 0 <==> Agrees(ihl, off, was, now)
  {
    SameParity(off, ihl);
    if ihl == 0 {
      NoHeader(off % 2 == 0, stored, was, now);
    } else {
      ShiftAgrees(off % 2 == 0, was, now);
    }
  }

  lemma SameParity(off: nat, ihl: nat)
    requires ihl % 4 == 0
    ensures (off + 2 - ihl) % 2 == off % 2
  {
    var q, e := ihl / 4, off / 2;
    assert ihl == 4 * q;
    assert off == 2 * e + off % 2;
    assert off + 2 - ihl == 2 * (e - (2 * q - 1)) + off % 2;
  }

  /** What clamping does, in these terms. */
  lemma ClampPatches(d: seq<byte>, maxMss: uint16, off: nat)
    requires Reject(d).None? && Clamp(d, maxMss).1 == Clamped
    requires FindMss(d, OptionsStart(d), OptionsEnd(d)) == Some(off)
    ensures var ihl := Ihl(d);
            var c := Incremental(Word(d, ihl + 16), Word(d, off + 2), maxMss);
            && ihl + 20 <= off && off + 4 <= |d| && 0 < d[9] && maxMss < Word(d, off + 2)
            && Clamp(d, maxMss).0 == Patched(d, ihl, off, maxMss, c)
            && Ihl(Clamp(d, maxMss).0) == ihl && Word(Clamp(d, maxMss).0, ihl + 16) == c
  {
    RewriteKeepsHeader(d, maxMss, off);
  }

  /** Incremental equals full, exactly. For every packet, of any length, with a correct
      checksum: after clamping the stored checksum equals full recomputation bit for bit if
      and only if the option starts at an even offset or 257 divides the change of the MSS.
      A packet that claims a header length of zero has its checksum field inside its own
      pseudo-header, and keeps a correct checksum only when the MSS goes from 65535 to 0. */
  lemma ClampChecksumExactly(d: seq<byte>, maxMss: uint16, off: nat)
    requires Reject(d).None? && Correct(d) && Clamp(d, maxMss).1 == Clamped
    requires FindMss(d, OptionsStart(d), OptionsEnd(d)) == Some(off)
    ensures Correct(Clamp(d, maxMss).0) <==> Agrees(Ihl(d), off, Word(d, off + 2), maxMss)
  {
    ClampPatches(d, maxMss, off);
    PatchedIsRight(d, Clamp(d, maxMss).0, Ihl(d), off, maxMss);
  }

  /** The full sum moves by the change of the MSS, modulo 65535, exactly when they agree. */
  lemma FullSumMoves(d: seq<byte>, ihl: nat, off: nat, mss: uint16, stored: uint16, was: uint16) returns (m: int)
    requires ihl + 20 <= off && off + 4 <= |d| && ihl % 4 == 0 && mss < was
    requires stored == Word(d, ihl + 16) && was == Word(d, off + 2)
    ensures FullSum(Patched(d, ihl, off, mss, Incremental(stored, was, mss)), ihl) == FullSum(d, ihl) + m
    ensures (m - (mss as int - was as int)) % 0xFFFF == 0 <==> Agrees(ihl, off, was, mss)
  {
    m := MovedBy(ihl, off, mss, stored, was);
    FullSumAfter(d, ihl, off, mss, Incremental(stored, was, mss));
  }

  lemma MovedBy(ihl: nat, off: nat, mss: uint16, stored: uint16, was: uint16) returns (m: int)
    requires ihl % 4 == 0 && ihl <= off && mss < was
    ensures m == Moved(ihl, off, was, mss, stored, Incremental(stored, was, mss))
    ensures (m - (mss as int - was as int)) % 0xFFFF == 0 <==> Agrees(ihl, off, was, mss)
  {
    m := Moved(ihl, off, was, mss, stored, Incremental(stored, was, mss));
    MovedExactly(ihl, off, was, mss, stored, Incremental(stored, was, mss), m);
  }

  lemma PatchedIsRight(d: seq<byte>, r: seq<byte>, ihl: nat, off: nat, mss: uint16)
    requires ihl + 20 <= off && off + 4 <= |d| && ihl % 4 == 0 && 0 < d[9] && mss < Word(d, off + 2)
    requires Word(d, ihl + 16) == FullChecksum(d, ihl)
    requires r == Patched(d, ihl, off, mss, Incremental(Word(d, ihl + 16), Word(d, off + 2), mss))
    ensures Word(r, ihl + 16) == FullChecksum(r, ihl) <==> Agrees(ihl, off, Word(d, off + 2), mss)
  {
    var was, stored := Word(d, off + 2), Word(d, ihl + 16);
    var m := FullSumMoves(d, ihl, off, mss, stored, was);
    assert r[9] == d[9];
    FullSumPositive(d, ihl);
    FullSumPositive(r, ihl);
    RightNumbers(FullSum(d, ihl), FullSum(r, ihl), stored, was, mss, m);
  }

  /** When the checksum enters its own sum, that sum moves by a multiple of the change that
      is 65535 times something only for the largest change. */
  lemma NoHeader(even: bool, stored: uint16, was: uint16, now: uint16)
    requires now < was
    ensures (Shift(even, was, now) - (now as int - was as int) +
             (Incremental(stored, was, now) - stored as int)) % 0xFFFF == 0
            <==> was == 0xFFFF && now == 0
  {
    var delta := now as int - was as int;
    var q := IncrementalMoves(stored, was, now);
    if even {
      ModShift(-delta, -q);
      Largest(-delta);
    } else {
      var h := Hi(now) as int - Hi(was) as int;
      SwappedDelta(was, now);
      assert Shift(false, was, now) - delta + (-delta + 0xFFFF * q) == 254 * delta - 0xFFFF * (h - q);
      ModShift(254 * delta, h - q);
      Mod254(delta);
      ModNegate(delta);
      Largest(-delta);
    }
  }

  lemma Largest(x: int)
    requires 0 < x <= 0xFFFF
    ensures x % 0xFFFF == 0 <==> x == 0xFFFF
  {
  }

  lemma SwappedDelta(was: uint16, now: uint16)
    ensures Shift(false, was, now) == 256 * (now as int - was as int) - 0xFFFF * (Hi(now) as int - Hi(was) as int)
  {
  }

  /** 43604 is the inverse of 254 modulo 65535. */
  lemma Mod254(delta: int)
    ensures (254 * delta) % 0xFFFF == 0 <==> delta % 0xFFFF == 0
  {
    var p, q := (254 * delta) / 0xFFFF, delta / 0xFFFF;
    if (254 * delta) % 0xFFFF == 0 {
      assert 254 * delta == 0xFFFF * p;
      assert 43604 * (254 * delta) == delta + 0xFFFF * (169 * delta);
      assert delta == 0xFFFF * (43604 * p - 169 * delta);
      MultipleIsZero(43604 * p - 169 * delta);
    } else if delta % 0xFFFF == 0 {
      assert 254 * delta == 0xFFFF * (254 * q);
      MultipleIsZero(254 * q);
    }
  }

  lemma MultipleIsZero(k: int)
    ensures (0xFFFF * k) % 0xFFFF == 0
  {
    ModShift(0, -k);
  }

  /** The incremental update moves the stored checksum by minus the change. */
  lemma IncrementalMoves(stored: uint16, was: uint16, now: uint16) returns (q: int)
    ensures Incremental(stored, was, now) - stored as int == -(now as int - was as int) + 0xFFFF * q
  {
    var sum := (0xFFFF - stored as int) + (0xFFFF - was as int) + now as int;
    if sum == 0 {
      q := -1;
    } else {
      FoldIs(sum);
      q := (sum - 1) / 0xFFFF - 1;
    }
  }

  lemma FoldIs(n: nat)
    requires 0 < n
    ensures Fold(n) == n - 0xFFFF * ((n - 1) / 0xFFFF)
  {
  }

  /** A packet whose stored checksum is filled in is correct. */
  lemma FilledIsCorrect(d: seq<byte>, ihl: nat)
    requires 20 <= |d| && 4 <= ihl && ihl + 18 <= |d|
    ensures FullChecksum(Put16(d, ihl + 16, FullChecksum(d, ihl)), ihl) == FullChecksum(d, ihl)
  {
    var c := FullChecksum(d, ihl);
    var r := Put16(d, ihl + 16, c);
    assert forall k | 0 <= k < 20 :: r[k] == d[k];
    PutSuffix(d, ihl, ihl + 16, c);
    PutTwice(d[ihl..], 16, c, 0);
  }

  const ODD_IP: seq<byte> := [0x45, 0, 0, 48, 0, 0, 0x40, 0, 64, 6, 0, 0, 10, 0, 0, 1, 10, 0, 0, 2]

  const ODD_TCP: seq<byte> := [0x30, 0x39, 0x01, 0xBB, 0, 0, 0, 1, 0, 0, 0, 0, 0x70, 0x02, 0xFF, 0xFF, 0, 0, 0, 0]

  const ODD_OPTIONS: seq<byte> := [1, 2, 4, 0x05, 0xB4, 0, 0, 0]

  /** A SYN of 48 bytes with the options NOP, MSS 1460 and end, so that the MSS option starts
      at offset 41; its TCP checksum is still to be filled in. */
  function OddSyn(): (d: seq<byte>)
    ensures |d| == 48 && d[..20] == Sealed(ODD_IP, 10) && d[20..40] == ODD_TCP && d[40..] == ODD_OPTIONS
  {
    Sealed(ODD_IP, 10) + ODD_TCP + ODD_OPTIONS
  }

  function FilledSyn(): (d: seq<byte>)
    ensures |d| == 48
  {
    Put16(OddSyn(), 36, FullChecksum(OddSyn(), 20))
  }

  /** After one NOP the update is wrong: this SYN has correct checksums, and clamping it to
      the value for an MTU of 1500 leaves an incorrect one. */
  lemma OddOffsetBreaksChecksum()
    ensures var d := FilledSyn();
            && Checksum(d[..20]) == 0 && Correct(d)
            && Clamp(d, 1436).1 == Clamped && !Correct(Clamp(d, 1436).0)
  {
    FilledSynIsCorrect();
    OddSynFields();
    OddSynBreaks(FilledSyn());
  }

  /** It does for every packet with these headers and options. */
  lemma OddSynBreaks(d: seq<byte>)
    requires |d| == 48 && d[0] == 0x45 && d[9] == 6 && d[32] == 0x70 && d[33] == 2
    requires d[40] == 1 && d[41] == 2 && d[42] == 4 && d[43] == 5 && d[44] == 0xB4
    requires Correct(d)
    ensures Clamp(d, 1436).1 == Clamped && !Correct(Clamp(d, 1436).0)
  {
    OddSynWalk(d);
    ClampChecksumExactly(d, 1436, 41);
  }

  lemma FilledSynIsCorrect()
    ensures Checksum(FilledSyn()[..20]) == 0 && Correct(FilledSyn())
  {
    SealedVerifies(ODD_IP, 10);
    assert FilledSyn()[..20] == OddSyn()[..20];
    assert OddSyn()[0] == OddSyn()[..20][0] == 0x45;
    assert Ihl(OddSyn()) == 20;
    FilledIsCorrect(OddSyn(), 20);
    assert FilledSyn()[0] == 0x45;
  }

  lemma OddSynFields()
    ensures var d := FilledSyn();
            && d[0] == 0x45 && d[9] == 6 && d[32] == 0x70 && d[33] == 2
            && d[40] == 1 && d[41] == 2 && d[42] == 4 && d[43] == 5 && d[44] == 0xB4
  {
    SealedKeeps(ODD_IP, 10, 0);
    SealedKeeps(ODD_IP, 10, 9);
    OddHeaders(OddSyn(), Sealed(ODD_IP, 10));
    OddOptions(OddSyn());
    FieldsFilled(OddSyn(), FullChecksum(OddSyn(), 20));
  }

  lemma FieldsFilled(o: seq<byte>, c: uint16)
    requires |o| == 48
    ensures var d := Put16(o, 36, c);
            && d[0] == o[0] && d[9] == o[9] && d[32] == o[32] && d[33] == o[33]
            && d[40] == o[40] && d[41] == o[41] && d[42] == o[42] && d[43] == o[43] && d[44] == o[44]
  {
  }

  lemma SealedKeeps(s: seq<byte>, k: nat, i: nat)
    requires k + 1 < |s| && i < |s| && i != k && i != k + 1
    ensures Sealed(s, k)[i] == s[i]
  {
  }

  lemma OddHeaders(o: seq<byte>, h: seq<byte>)
    requires |o| == 48 && |h| == 20 && o[..20] == h && h[0] == 0x45 && h[9] == 6 && o[20..40] == ODD_TCP
    ensures o[0] == 0x45 && o[9] == 6 && o[32] == 0x70 && o[33] == 2
  {
    assert o[0] == o[..20][0] && o[9] == o[..20][9];
    assert o[32] == o[20..40][12] && o[33] == o[20..40][13];
  }

  lemma OddOptions(o: seq<byte>)
    requires |o| == 48 && o[40..] == ODD_OPTIONS
    ensures o[40] == 1 && o[41] == 2 && o[42] == 4 && o[43] == 5 && o[44] == 0xB4
  {
    assert o[40] == o[40..][0] && o[41] == o[40..][1] && o[42] == o[40..][2];
    assert o[43] == o[40..][3] && o[44] == o[40..][4];
  }

  lemma OddSynWalk(d: seq<byte>)
    requires |d| == 48 && d[0] == 0x45 && d[9] == 6 && d[32] == 0x70 && d[33] == 2
    requires d[40] == 1 && d[41] == 2 && d[42] == 4 && d[43] == 5 && d[44] == 0xB4
    ensures Reject(d).None? && Ihl(d) == 20 && OptionsEnd(d) == 48
    ensures FindMss(d, 40, 48) == Some(41) && Word(d, 43) == 1460
  {
    assert FindMss(d, 40, 48) == FindMss(d, 41, 48);
  }

  /** The incremental update of the checksum of `before` is the checksum of `after` exactly
      when `after` differs from `before` by the change, modulo 65535. */
  lemma IncrementalIs(before: nat, after: nat, was: uint16, now: uint16)
    requires 0 < before && 0 < after
    ensures Incremental(0xFFFF - Fold(before), was, now) == 0xFFFF - Fold(after) <==>
            (after - before - (now as int - was as int)) % 0xFFFF == 0
  {
    var sum := Fold(before) + (0xFFFF - was as int) + now as int;
    FoldSame(sum, after);
    SumShift(before, sum - after, after - before - (now as int - was as int));
  }

  lemma SumShift(before: nat, y: int, x: int)
    requires 0 < before && y == Fold(before) + 0xFFFF - before - x
    ensures y % 0xFFFF == 0 <==> x % 0xFFFF == 0
  {
    var q := (before - 1) / 0xFFFF;
    assert y == -x - 0xFFFF * (q - 1);
    ModShift(-x, q - 1);
    ModNegate(x);
  }

  lemma ModNegate(x: int)
    ensures (-x) % 0xFFFF == 0 <==> x % 0xFFFF == 0
  {
    ModSame(0, x);
    ModSame(x, 0);
  }
}
