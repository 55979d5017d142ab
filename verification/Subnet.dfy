/** IPv4 subnet arithmetic on address bytes (internal/account/lease.go: `nextIP`, `broadcastAddr`). */
module Subnet {
  import opened Bytes

  function Pow(b: nat, e: nat): (r: nat)
    ensures b > 0 ==> r > 0
  {
    if e == 0 then 1 else b * Pow(b, e - 1)
  }

  /** The number a byte string spells, most significant byte first. */
  function Value(s: seq<byte>): nat {
    if s == [] then 0 else Value(s[..|s| - 1]) * 256 + s[|s| - 1]
  }

  lemma {:induction false} ValueBound(s: seq<byte>)
    ensures Value(s) < Pow(256, |s|)
  {
    if s != [] {
      ValueBound(s[..|s| - 1]);
    }
  }

  lemma {:induction false} ValueSplit(a: seq<byte>, b: seq<byte>)
    ensures Value(a + b) == Value(a) * Pow(256, |b|) + Value(b)
  {
    if b == [] {
      assert a + b == a;
    } else {
      var n := |b| - 1;
      assert (a + b)[..|a + b| - 1] == a + b[..n];
      ValueSplit(a, b[..n]);
      calc {
        Value(a + b);
        Value(a + b[..n]) * 256 + b[n];
        (Value(a) * Pow(256, n) + Value(b[..n])) * 256 + b[n];
        Value(a) * Pow(256, n) * 256 + (Value(b[..n]) * 256 + b[n]);
        { MulReorder(Value(a), Pow(256, n)); }
        Value(a) * Pow(256, n + 1) + Value(b);
      }
    }
  }

  lemma MulReorder(x: int, p: int)
    ensures x * p * 256 == x * (256 * p)
  {
  }

  /** Addresses are told apart by their value. */
  lemma {:induction false} ValueInjective(a: seq<byte>, b: seq<byte>)
    requires |a| == |b| && Value(a) == Value(b)
    ensures a == b
  {
    if a != [] {
      var n := |a| - 1;
      assert Value(a) == Value(a[..n]) * 256 + a[n];
      assert Value(b) == Value(b[..n]) * 256 + b[n];
      ValueInjective(a[..n], b[..n]);
      assert a == a[..n] + [a[n]] && b == b[..n] + [b[n]];
    }
  }

  lemma CarryOut(x: nat, carry: nat, size: nat, total: nat)
    requires x < size && total == x + carry * size
    ensures total % size == x
  {
    var q, r := total / size, total % size;
    assert total == q * size + r;
    DivisionUnique(x, carry, r, q, size);
  }

  lemma {:induction false} DivisionUnique(r: nat, q: nat, r': nat, q': nat, size: nat)
    requires r < size && r' < size && r + q * size == r' + q' * size
    ensures r == r' && q == q'
    decreases q
  {
    OneLess(q, size);
    OneLess(q', size);
    if q > 0 && q' > 0 {
      DivisionUnique(r, q - 1, r', q' - 1, size);
    }
  }

  lemma OneLess(q: nat, size: nat)
    ensures q > 0 ==> q * size == (q - 1) * size + size
  {
  }

  /** Big-endian addition with the carry leaving at the top: modulo 256^len for any length and any
      step that is not negative. A negative step is ignored. */
  method NextIP(ip: seq<byte>, step: int) returns (out: seq<byte>)
    ensures |out| == |ip|
    ensures step >= 0 ==> Value(out) == (Value(ip) + step) % Pow(256, |ip|)
    ensures step < 0 ==> out == ip
  {
    out := ip;
    var rest := step;
    var i := |ip| - 1;
    while i >= 0 && rest > 0
      invariant -1 <= i < |ip| == |out|
      invariant step < 0 ==> out == ip && rest == step
      invariant step >= 0 ==> rest >= 0 && AddedFrom(ip, out, i + 1, rest, step)
    {
      AddAt(ip, out, i, rest, step);
      var v := out[i] + rest;
      out := out[i := v % 256];
      rest := v / 256;
      i := i - 1;
    }
    if step >= 0 {
      AddedUp(ip, out, i + 1, rest, step);
    }
  }

  /** From byte `k` on the sum is in `out`, with `rest` still to be carried. */
  predicate AddedFrom(ip: seq<byte>, out: seq<byte>, k: nat, rest: nat, step: nat) {
    && k <= |ip| == |out| && out[..k] == ip[..k]
    && Value(ip[k..]) + step == Value(out[k..]) + rest * Pow(256, |ip| - k)
  }

  lemma AddedUp(ip: seq<byte>, out: seq<byte>, k: nat, rest: nat, step: nat)
    requires AddedFrom(ip, out, k, rest, step) && (k == 0 || rest == 0)
    ensures Value(out) == (Value(ip) + step) % Pow(256, |ip|)
  {
    if rest == 0 {
      SameHead(ip, out, k, step);
    } else {
      assert out[0..] == out && ip[0..] == ip;
      ValueBound(out);
      CarryOut(Value(out), rest, Pow(256, |ip|), Value(ip) + step);
    }
  }

  lemma ValueFront(s: seq<byte>, i: nat)
    requires i < |s|
    ensures Value(s[i..]) == s[i] * Pow(256, |s| - 1 - i) + Value(s[i + 1..])
  {
    assert s[i..] == [s[i]] + s[i + 1..];
    ValueSplit([s[i]], s[i + 1..]);
    assert Value([s[i]]) == s[i];
  }

  /** One digit of the addition. */
  lemma AddAt(ip: seq<byte>, out: seq<byte>, i: nat, rest: nat, step: nat)
    requires i < |ip| && AddedFrom(ip, out, i + 1, rest, step)
    ensures AddedFrom(ip, out[i := (out[i] + rest) % 256], i, (out[i] + rest) / 256, step)
  {
    var b := out[i := (out[i] + rest) % 256];
    var p := Pow(256, |ip| - 1 - i);
    assert out[i] == out[..i + 1][i] == ip[i];
    assert b[..i] == out[..i + 1][..i] && ip[..i] == ip[..i + 1][..i];
    ValueFront(ip, i);
    ValueFront(b, i);
    assert b[i + 1..] == out[i + 1..];
    Digit(ip[i], rest, p);
  }

  lemma Digit(d: nat, rest: nat, p: nat)
    ensures d * p + rest * p == (d + rest) % 256 * p + (d + rest) / 256 * (256 * p)
  {
    var v := d + rest;
    assert d * p + rest * p == v * p;
    assert v == v % 256 + v / 256 * 256;
    Distribute(v % 256, v / 256, p);
  }

  lemma Distribute(lo: int, hi: int, p: int)
    ensures (lo + hi * 256) * p == lo * p + hi * (256 * p)
  {
  }

  lemma SameHeadAdds(ip: seq<byte>, out: seq<byte>, k: nat, step: nat)
    requires k <= |ip| == |out| && out[..k] == ip[..k]
    requires Value(ip[k..]) + step == Value(out[k..])
    ensures Value(out) == Value(ip) + step
  {
    ValueSplit(ip[..k], ip[k..]);
    ValueSplit(out[..k], out[k..]);
    assert ip[..k] + ip[k..] == ip && out[..k] + out[k..] == out;
  }

  lemma SameHead(ip: seq<byte>, out: seq<byte>, k: nat, step: nat)
    requires k <= |ip| == |out| && out[..k] == ip[..k]
    requires Value(ip[k..]) + step == Value(out[k..])
    ensures Value(out) == (Value(ip) + step) % Pow(256, |ip|)
  {
    SameHeadAdds(ip, out, k, step);
    ValueBound(out);
    SmallModulo(Value(out), Pow(256, |ip|));
  }

  lemma SmallModulo(x: nat, size: nat)
    requires x < size
    ensures x % size == x
  {
  }

  // ---- broadcast address ----

  /** Bitwise or of the low `n` bits. */
  function Or(a: nat, b: nat, n: nat): (r: nat)
    ensures r < Pow(2, n)
  {
    if n == 0 then 0 else 2 * Or(a / 2, b / 2, n - 1) + if a % 2 == 1 || b % 2 == 1 then 1 else 0
  }

  function OrByte(a: byte, b: byte): byte {
    assert Pow(2, 8) == 256;
    Or(a, b, 8)
  }

  /** Filling cleared low bits with ones adds them. */
  lemma {:induction false} OrFillsLowBits(a: nat, k: nat, n: nat)
    requires k <= n && a < Pow(2, n) && a % Pow(2, k) == 0
    ensures Or(a, Pow(2, k) - 1, n) == a + (Pow(2, k) - 1)
  {
    if k == 0 {
      OrZero(a, n);
    } else {
      var p := Pow(2, k - 1);
      assert Pow(2, k) == 2 * p;
      assert a == 2 * p * (a / (2 * p)) by { EuclidExact(a, 2 * p); }
      var h := p * (a / (2 * p));
      assert a == 2 * h by { MulAssoc(2, p, a / (2 * p)); }
      assert (2 * p - 1) / 2 == p - 1;
      assert h % p == 0 by { MultipleOf(a / (2 * p), p); }
      OrFillsLowBits(h, k - 1, n - 1);
    }
  }

  lemma EuclidExact(a: nat, m: nat)
    requires m > 0 && a % m == 0
    ensures a == m * (a / m)
  {
  }

  lemma MulAssoc(x: int, y: int, z: int)
    ensures x * y * z == x * (y * z)
  {
  }

  lemma {:induction false} MultipleOf(q: nat, m: nat)
    requires m > 0
    ensures (m * q) % m == 0
  {
    CarryOut(0, q, m, m * q);
  }

  lemma {:induction false} OrZero(a: nat, n: nat)
    requires a < Pow(2, n)
    ensures Or(a, 0, n) == a
  {
    if n > 0 {
      OrZero(a / 2, n - 1);
    }
  }

  lemma EightBits()
    ensures Pow(2, 8) == 256
  {
  }

  /** The host bits of byte `i` under a mask of `p` leading ones. */
  function HostBits(p: nat, i: nat): (k: nat)
    ensures k <= 8
  {
    if p >= 8 * (i + 1) then 0 else if p <= 8 * i then 8 else 8 * (i + 1) - p
  }

  function HostByte(p: nat, i: nat): byte {
    assert Pow(2, 8) == 256;
    assert Pow(2, HostBits(p, i)) <= Pow(2, 8) by { PowMonotone(HostBits(p, i), 8); }
    Pow(2, HostBits(p, i)) - 1
  }

  lemma {:induction false} PowMonotone(i: nat, j: nat)
    requires i <= j
    ensures Pow(2, i) <= Pow(2, j)
  {
    if i < j {
      PowMonotone(i, j - 1);
    }
  }

  /** `net.CIDRMask(p, 8*len)`. */
  function Mask(p: nat, len: nat): seq<byte> {
    seq(len, i requires 0 <= i < len => 255 - HostByte(p, i))
  }

  /** `ip` has no bit outside the mask: it is the subnet's network address. */
  predicate IsNetworkAddress(ip: seq<byte>, p: nat) {
    forall i :: 0 <= i < |ip| ==> ip[i] % Pow(2, HostBits(p, i)) == 0
  }

  function HostPart(p: nat, len: nat): seq<byte> {
    seq(len, i requires 0 <= i < len => HostByte(p, i))
  }

  lemma {:induction false} HostPartValue(p: nat, len: nat)
    requires p <= 8 * len
    ensures Value(HostPart(p, len)) == Pow(2, 8 * len - p) - 1
  {
    if len > 0 {
      HostPartLast(p, len);
      if p <= 8 * (len - 1) {
        var k := 8 * (len - 1) - p;
        HostPartValue(p, len - 1);
        EightMore(k);
        EightBits();
        assert HostBits(p, len - 1) == 8 && 8 * len - p == k + 8;
      } else {
        NoHostPart(p, len - 1);
        assert HostBits(p, len - 1) == 8 * len - p;
      }
    }
  }

  lemma EightMore(k: nat)
    ensures Pow(2, k + 8) == Pow(2, k) * 256
  {
    PowAdd(k, 8);
    EightBits();
  }

  lemma HostPartLast(p: nat, len: nat)
    requires len > 0
    ensures Value(HostPart(p, len)) == Value(HostPart(p, len - 1)) * 256 + (Pow(2, HostBits(p, len - 1)) - 1)
  {
    assert HostPart(p, len)[..len - 1] == HostPart(p, len - 1);
  }

  lemma {:induction false} NoHostPart(p: nat, len: nat)
    requires p >= 8 * len
    ensures Value(HostPart(p, len)) == 0
  {
    if len > 0 {
      assert HostPart(p, len)[..len - 1] == HostPart(p, len - 1);
      NoHostPart(p, len - 1);
    }
  }

  lemma {:induction false} PowAdd(i: nat, j: nat)
    ensures Pow(2, i + j) == Pow(2, i) * Pow(2, j)
  {
    if j > 0 {
      PowAdd(i, j - 1);
      assert Pow(2, i + j) == 2 * Pow(2, i + (j - 1));
      assert Pow(2, i) * Pow(2, j) == 2 * (Pow(2, i) * Pow(2, j - 1)) by { MulAssoc2(Pow(2, i), Pow(2, j - 1)); }
    }
  }

  lemma MulAssoc2(x: int, y: int)
    ensures x * (2 * y) == 2 * (x * y)
  {
  }

  lemma {:induction false} ValueAdds(a: seq<byte>, b: seq<byte>, c: seq<byte>)
    requires |a| == |b| == |c|
    requires forall i :: 0 <= i < |a| ==> c[i] == (a[i] as int) + (b[i] as int)
    ensures Value(c) == Value(a) + Value(b)
  {
    if a != [] {
      var n := |a| - 1;
      ValueAdds(a[..n], b[..n], c[..n]);
    }
  }

  lemma OrHostByte(b: byte, p: nat, i: nat)
    requires b % Pow(2, HostBits(p, i)) == 0
    ensures OrByte(b, HostByte(p, i)) == (b as int) + (HostByte(p, i) as int)
  {
    EightBits();
    OrFillsLowBits(b, HostBits(p, i), 8);
  }

  /** The last address of a subnet: its network address plus 2^(bits - p) - 1. */
  method BroadcastAddr(ip: seq<byte>, p: nat) returns (bc: seq<byte>)
    requires p <= 8 * |ip| && IsNetworkAddress(ip, p)
    ensures |bc| == |ip|
    ensures Value(bc) == Value(ip) + Pow(2, 8 * |ip| - p) - 1
  {
    var mask := Mask(p, |ip|);
    bc := seq(|ip|, _ => 0);
    for i := 0 to |ip|
      invariant |bc| == |ip|
      invariant forall j :: 0 <= j < i ==> bc[j] == (ip[j] as int) + (HostByte(p, j) as int)
    {
      OrHostByte(ip[i], p, i);
      bc := bc[i := OrByte(ip[i], 255 - mask[i])];
    }
    ValueAdds(ip, HostPart(p, |ip|), bc);
    HostPartValue(p, |ip|);
  }

  /** The powers the address code depends on. */
  lemma PowerTable()
    ensures Pow(2, 16) == 0x1_0000 && Pow(2, 17) == 0x2_0000
    ensures Pow(2, 31) == 0x8000_0000 && Pow(2, 32) == 0x1_0000_0000
    ensures Pow(256, 4) == 0x1_0000_0000
  {
    assert Pow(2, 7) == 128 && Pow(2, 8) == 256;
    PowAdd(8, 8);
    PowAdd(8, 7);
    PowAdd(16, 15);
    PowAdd(16, 16);
    PowAdd(16, 1);
  }
}
