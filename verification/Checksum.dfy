/**
 The ones' complement checksum of RFC 1071 as the program computes it: big-endian
 16-bit words, an odd last byte in the high half, carries folded back until the sum fits
 16 bits, and the complement of that.
 */
module Checksums {
  import opened Common

  /** The high and the low byte of a 16-bit number. */
  function Hi(n: uint16): (b: byte) {
    n / 256
  }

  function Lo(n: uint16): (b: byte)
    ensures n == 256 * Hi(n) as int + b as int
  {
    n % 256
  }

  function Be16(n: uint16): (s: seq<byte>)
    ensures |s| == 2 && Word(s, 0) == n
  {
    [Hi(n), Lo(n)]
  }

  function Word(s: seq<byte>, i: nat): (w: uint16)
    requires i + 1 < |s|
  {
    256 * (s[i] as int) + s[i + 1] as int
  }

  /** The four octets of an address, high one first. */
  function Octets(a: Ipv4): (s: seq<byte>)
    ensures |s| == 4 && AddressAt(s, 0) == a
  {
    Be16(a / 0x1_0000) + Be16(a % 0x1_0000)
  }

  function AddressAt(s: seq<byte>, i: nat): (a: Ipv4)
    requires i + 3 < |s|
  {
    0x1_0000 * Word(s, i) as int + Word(s, i + 2) as int
  }

  /** The sum of the words, without folding. */
  function WordSum(s: seq<byte>): nat {
    if s == [] then 0
    else if |s| == 1 then 256 * (s[0] as int)
    else Word(s, 0) + WordSum(s[2..])
  }

  /** What is left of a sum when all carries have been folded back in: the remainder
      modulo 65535, with 65535 rather than 0 standing for a positive multiple. */
  function Fold(n: nat): (r: nat)
    ensures r <= 0xFFFF
  {
    if n == 0 then 0 else (n - 1) % 0xFFFF + 1
  }

  /** Adding the carry to the low half keeps it. */
  lemma FoldStep(n: nat)
    requires n > 0xFFFF
    ensures Fold(n % 0x1_0000 + n / 0x1_0000) == Fold(n)
  {
    var q := n / 0x1_0000;
    assert n % 0x1_0000 + q == n - 0xFFFF * q;
    ModShift(n - 1, q);
  }

  function Checksum(s: seq<byte>): (c: int)
    ensures 0 <= c < 0x1_0000
  {
    0xFFFF - Fold(WordSum(s))
  }

  lemma ModShift(x: int, q: int)
    ensures (x - 0xFFFF * q) % 0xFFFF == x % 0xFFFF
  {
    var d := x / 0xFFFF;
    assert x - 0xFFFF * q == 0xFFFF * (d - q) + x % 0xFFFF;
  }

  /** Two positive sums fold to the same value exactly when they are congruent. */
  lemma FoldSame(a: nat, b: nat)
    requires 0 < a && 0 < b
    ensures Fold(a) == Fold(b) <==> (a - b) % 0xFFFF == 0
  {
    ModSame(a - 1, b - 1);
  }

  lemma ModSame(x: int, y: int)
    ensures x % 0xFFFF == y % 0xFFFF <==> (x - y) % 0xFFFF == 0
  {
    assert x - y == 0xFFFF * (x / 0xFFFF - y / 0xFFFF) + (x % 0xFFFF - y % 0xFFFF);
  }

  /** A sum and its complement fold to all ones. */
  lemma FoldWithComplement(n: nat)
    ensures Fold(n) <= 0xFFFF && Fold(n + (0xFFFF - Fold(n))) == 0xFFFF
  {
    if 0 < n {
      var q := (n - 1) / 0xFFFF;
      assert n + (0xFFFF - Fold(n)) == 0xFFFF * (q + 1);
      FoldOfMultiple(q);
    }
  }

  lemma FoldOfMultiple(q: nat)
    ensures Fold(0xFFFF * (q + 1)) == 0xFFFF
  {
    FoldSame(0xFFFF * (q + 1), 0xFFFF);
    assert 0xFFFF * (q + 1) - 0xFFFF == 0xFFFF * q;
  }

  /** What a byte at `k` that becomes `now` adds to the sum: the difference, 256-fold in a
      high half. */
  function Gain(k: nat, was: byte, now: byte): int {
    if k % 2 == 0 then 256 * (now as int - was as int) else now as int - was as int
  }

  lemma {:induction false} WordSumUpdate(s: seq<byte>, k: nat, b: byte)
    requires k < |s|
    ensures WordSum(s[k := b]) == WordSum(s) + Gain(k, s[k], b)
  {
    if k >= 2 {
      assert s[k := b][2..] == s[2..][k - 2 := b];
      WordSumUpdate(s[2..], k - 2, b);
    } else if |s| > 1 {
      assert s[k := b][2..] == s[2..];
    }
  }

  lemma WordSumUpdateTwo(s: seq<byte>, k: nat, b: byte, c: byte)
    requires k + 1 < |s|
    ensures WordSum(s[k := b][k + 1 := c]) == WordSum(s) + Gain(k, s[k], b) + Gain(k + 1, s[k + 1], c)
  {
    WordSumUpdate(s, k, b);
    WordSumUpdate(s[k := b], k + 1, c);
  }

  lemma {:induction false} WordSumConcat(a: seq<byte>, b: seq<byte>)
    requires |a| % 2 == 0
    ensures WordSum(a + b) == WordSum(a) + WordSum(b)
  {
    if a == [] {
      assert a + b == b;
    } else {
      assert (a + b)[2..] == a[2..] + b;
      WordSumConcat(a[2..], b);
    }
  }

  /** The sum of up to 131070 bytes fits the 32-bit accumulator of the program. */
  lemma {:induction false} WordSumBound(s: seq<byte>)
    ensures WordSum(s) <= 0xFFFF * ((|s| + 1) / 2)
    ensures |s| <= 0x1_FFFE ==> WordSum(s) < 0x1_0000_0000
  {
    if |s| > 1 {
      WordSumBound(s[2..]);
    }
  }

  /** `s` with the checksum of `s` written into the two bytes at `k`. */
  function Sealed(s: seq<byte>, k: nat): (t: seq<byte>)
    requires k + 1 < |s|
    ensures |t| == |s|
  {
    s[k := Hi(Checksum(s))][k + 1 := Lo(Checksum(s))]
  }

  /** A packet sealed at an even offset over two zero bytes verifies: the checksum of the
      whole is zero. */
  lemma SealedVerifies(s: seq<byte>, k: nat)
    requires k + 1 < |s| && k % 2 == 0 && s[k] == 0 && s[k + 1] == 0
    ensures Checksum(Sealed(s, k)) == 0
  {
    var c := Checksum(s);
    var sum := WordSum(s);
    WordSumUpdateTwo(s, k, Hi(c), Lo(c));
    assert WordSum(Sealed(s, k)) == sum + Checksum(s);
    FoldWithComplement(sum);
  }

  /** The example of section 3 of RFC 1071, in numbers: these words add up to 0x2DDF0, the carry
      makes that 0xDDF2, and the complement is 0x220D. */
  lemma ExampleChecksum()
    ensures var s: seq<byte> := [0x00, 0x01, 0xF2, 0x03, 0xF4, 0xF5, 0xF6, 0xF7];
            WordSum(s) == 0x2DDF0 && Checksum(s) == 0x220D
  {
    var s: seq<byte> := [0x00, 0x01, 0xF2, 0x03, 0xF4, 0xF5, 0xF6, 0xF7];
    assert s[6..][2..] == [] && WordSum(s[6..]) == 0xF6F7;
    assert s[4..][2..] == s[6..] && WordSum(s[4..]) == 0xF4F5 + 0xF6F7;
    assert s[2..][2..] == s[4..] && WordSum(s[2..]) == 0xF203 + 0xF4F5 + 0xF6F7;
  }

  /** The loop over a non-empty buffer. */
  method IpChecksum(data: seq<byte>) returns (c: int)
    requires data != []
    ensures c == Checksum(data)
  {
    var sum: nat := 0;
    var i: nat := 0;
    assert data[0..] == data;
    while i < |data| - 1
      invariant i % 2 == 0 && i <= |data|
      invariant sum + WordSum(data[i..]) == WordSum(data)
    {
      assert data[i..][2..] == data[i + 2..];
      sum := sum + Word(data, i);
      i := i + 2;
    }
    if |data| % 2 != 0 {
      sum := sum + 256 * (data[|data| - 1] as int);
    }
    c := FoldedComplement(sum);
  }

  method FoldedComplement(total: nat) returns (c: int)
    ensures c == 0xFFFF - Fold(total) && 0 <= c < 0x1_0000
  {
    var sum := total;
    while sum > 0xFFFF
      invariant Fold(sum) == Fold(total)
    {
      FoldStep(sum);
      sum := sum % 0x1_0000 + sum / 0x1_0000;
    }
    c := 0xFFFF - sum;
  }
}
