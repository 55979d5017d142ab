/** One's-complement checksums, section 1 of RFC 1071 (internal/client/ipip.go: `ipChecksum`;
    internal/client/icmp.go: `icmpChecksum`). */
module Checksum {
  import opened Bytes

  type uint32 = x: int | 0 <= x < 0x1_0000_0000

  /** The most bytes whose word sum always fits the 32-bit accumulator. */
  const MAX_SUMMED: nat := 131072

  /** The sum of the 16-bit words, a last odd byte padded with zero. */
  function WordSum(b: seq<byte>): nat {
    if b == [] then 0
    else if |b| == 1 then Word(b[0], 0)
    else Word(b[0], b[1]) + WordSum(b[2..])
  }

  lemma {:induction false} WordSumBound(b: seq<byte>)
    ensures 2 * WordSum(b) <= 0xffff * (|b| + 1)
  {
    if |b| > 1 {
      WordSumBound(b[2..]);
    }
  }

  lemma WordSumFits(b: seq<byte>)
    requires |b| <= MAX_SUMMED
    ensures WordSum(b) < 0x1_0000_0000
  {
    WordSumBound(b);
  }

  /** The one's-complement value of a sum: itself modulo 65535, with 0 only for 0. */
  function Ones(n: nat): (r: nat)
    ensures r <= 0xffff && (r == 0 <==> n == 0) && r % 0xffff == n % 0xffff
  {
    if n == 0 then 0 else (n - 1) % 0xffff + 1
  }

  lemma OnesUnique(n: nat, r: nat)
    requires r <= 0xffff && (r == 0 <==> n == 0) && r % 0xffff == n % 0xffff
    ensures r == Ones(n)
  {
  }

  /** Summing and complementing again after storing the checksum gives zero. */
  predicate Verifies(b: seq<byte>) {
    Ones(WordSum(b)) == 0xffff
  }

  lemma {:induction false} WordSumSplit(a: seq<byte>, b: seq<byte>)
    requires |a| % 2 == 0
    ensures WordSum(a + b) == WordSum(a) + WordSum(b)
    decreases |a|
  {
    if a == [] {
      assert a + b == b;
    } else {
      assert (a + b)[2..] == a[2..] + b;
      WordSumSplit(a[2..], b);
    }
  }

  lemma WordSumOfTwo(hi: byte, lo: byte)
    ensures WordSum([hi, lo]) == Word(hi, lo)
  {
    assert [hi, lo][2..] == [];
  }

  lemma WordSumAround(a: seq<byte>, w: seq<byte>, z: seq<byte>)
    requires |a| % 2 == 0 && |w| == 2
    ensures WordSum(a + w + z) == WordSum(a) + Word(w[0], w[1]) + WordSum(z)
  {
    WordSumSplit(a + w, z);
    WordSumSplit(a, w);
    assert w == [w[0], w[1]];
    WordSumOfTwo(w[0], w[1]);
  }

  lemma ClearedField(b: seq<byte>, at: nat)
    requires at + 2 <= |b| && b[at] == 0 == b[at + 1]
    ensures b == b[..at] + [0, 0] + b[at + 2..]
  {
  }

  lemma WordSumReplaced(b: seq<byte>, at: nat, w: seq<byte>)
    requires at % 2 == 0 && at + 2 <= |b| && b[at] == 0 == b[at + 1] && |w| == 2
    ensures WordSum(b[..at] + w + b[at + 2..]) == WordSum(b) + Word(w[0], w[1])
  {
    ClearedField(b, at);
    WordSumAround(b[..at], [0, 0], b[at + 2..]);
    WordSumAround(b[..at], w, b[at + 2..]);
  }

  /** Storing the complement of the sum in a cleared even-offset field makes the buffer verify. */
  lemma StoringVerifies(b: seq<byte>, at: nat, w: seq<byte>)
    requires at % 2 == 0 && at + 2 <= |b| && b[at] == 0 == b[at + 1]
    requires |w| == 2 && Word(w[0], w[1]) == 0xffff - Ones(WordSum(b))
    ensures Verifies(b[..at] + w + b[at + 2..])
  {
    var s, c := WordSum(b), 0xffff - Ones(WordSum(b));
    WordSumReplaced(b, at, w);
    ComplementAdds(s);
    OnesUnique(s + c, 0xffff);
  }

  lemma ComplementAdds(s: nat)
    ensures (s + (0xffff - Ones(s))) % 0xffff == 0 && s + (0xffff - Ones(s)) > 0
  {
    if s > 0 {
      var q := (s - 1) / 0xffff;
      assert s - 1 == 0xffff * q + (s - 1) % 0xffff;
      assert s + (0xffff - Ones(s)) == 0xffff * (q + 1);
    }
  }

  /** What the packet builders do: sum up with the field cleared, then write the complement into it. */
  lemma FilledInVerifies(b: seq<byte>, at: nat)
    requires at % 2 == 0 && at + 2 <= |b| && b[at] == 0 == b[at + 1]
    ensures Verifies(b[..at] + Put16(0xffff - Ones(WordSum(b))) + b[at + 2..])
  {
    var n := 0xffff - Ones(WordSum(b));
    FieldHolds(n);
    StoringVerifies(b, at, Put16(n));
  }

  // ---- the loops ----

  lemma FoldStep(s: nat)
    requires s >= 0x1_0000
    ensures var s' := s % 0x1_0000 + s / 0x1_0000; 0 < s' < s && Ones(s') == Ones(s)
  {
    var s' := s % 0x1_0000 + s / 0x1_0000;
    assert s == 0x1_0000 * (s / 0x1_0000) + s % 0x1_0000;
    assert s == s' + 0xffff * (s / 0x1_0000);
    AddMultiple(s', s / 0x1_0000);
    OnesUnique(s', Ones(s));
  }

  lemma {:induction false} AddMultiple(s: nat, k: nat)
    ensures (s + 0xffff * k) % 0xffff == s % 0xffff
  {
    if k > 0 {
      AddMultiple(s, k - 1);
      assert s + 0xffff * k == s + 0xffff * (k - 1) + 0xffff;
    }
  }

  /** Folding the carries back in until 16 bits remain. */
  method FoldCarries(total: uint32) returns (r: nat)
    ensures r == Ones(total)
  {
    var sum: uint32 := total;
    while sum / 0x1_0000 > 0
      invariant Ones(sum) == Ones(total)
      decreases sum
    {
      FoldStep(sum);
      sum := sum % 0x1_0000 + sum / 0x1_0000;
    }
    OnesUnique(sum, sum);
    r := sum;
  }

  lemma NextWord(b: seq<byte>, i: nat)
    requires i + 1 < |b|
    ensures WordSum(b[i..]) == Word(b[i], b[i + 1]) + WordSum(b[i + 2..])
  {
    assert b[i..][2..] == b[i + 2..];
  }

  lemma LastWord(b: seq<byte>, i: nat)
    requires i <= |b| <= i + 1
    ensures WordSum(b[i..]) == if i < |b| then Word(b[i], 0) else 0
  {
  }

  /** Even-length part only: a last odd byte is not looked at. */
  method IpChecksum(hdr: seq<byte>) returns (c: nat)
    requires |hdr| <= MAX_SUMMED
    ensures c == 0xffff - Ones(WordSum(hdr[..|hdr| - |hdr| % 2]))
  {
    var even := |hdr| - |hdr| % 2;
    ghost var h := hdr[..even];
    WordSumFits(h);
    var sum: uint32 := 0;
    var i := 0;
    while i + 1 < |hdr|
      invariant 0 <= i <= even && i % 2 == 0
      invariant sum + WordSum(h[i..]) == WordSum(h)
    {
      NextWord(h, i);
      sum := sum + Word(hdr[i], hdr[i + 1]);
      i := i + 2;
    }
    assert h[even..] == [];
    var r := FoldCarries(sum);
    c := 0xffff - r;
  }

  method IcmpChecksum(b: seq<byte>) returns (c: nat)
    requires |b| <= MAX_SUMMED
    ensures c == 0xffff - Ones(WordSum(b))
  {
    WordSumFits(b);
    var sum: uint32 := 0;
    var i := 0;
    while i + 1 < |b|
      invariant 0 <= i <= |b| && i % 2 == 0
      invariant sum + WordSum(b[i..]) == WordSum(b)
    {
      NextWord(b, i);
      sum := sum + Word(b[i], b[i + 1]);
      i := i + 2;
    }
    LastWord(b, i);
    if |b| % 2 == 1 {
      sum := sum + Word(b[|b| - 1], 0);
    }
    var r := FoldCarries(sum);
    c := 0xffff - r;
  }

  // ---- address swap ----

  /** Exchanging two four-byte fields at even offsets does not change the sum. */
  lemma SwapKeepsSum(a: seq<byte>, s: seq<byte>, d: seq<byte>)
    requires |a| % 2 == 0 && |s| == 4 == |d|
    ensures WordSum(a + d + s) == WordSum(a + s + d)
  {
    WordSumSplit(a, d + s);
    WordSumSplit(a, s + d);
    WordSumSplit(d, s);
    WordSumSplit(s, d);
    assert a + d + s == a + (d + s) && a + s + d == a + (s + d);
  }
}
