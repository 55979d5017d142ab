/** IP-in-IP encapsulation (section 3.1 of RFC 2003, header layout of section 3.1 of RFC 791) and the
    echo reply an exit gives ("Echo or Echo Reply Message" of RFC 792)
    (internal/client/ipip.go, internal/client/icmp.go). */
module Packets {
  import opened Bytes
  import opened Checksum

  const HEADER: nat := 20
  const IPIP: byte := 4
  const ICMP: byte := 1
  const ECHO_REQUEST: byte := 8

  datatype Option<T> = None | Some(value: T)

  function SrcOf(p: seq<byte>): nat
    requires |p| >= HEADER
  {
    Get32(p[12], p[13], p[14], p[15])
  }

  function DstOf(p: seq<byte>): nat
    requires |p| >= HEADER
  {
    Get32(p[16], p[17], p[18], p[19])
  }

  // ---- encapsulation ----

  /** The outer header before its checksum, field by field. */
  function BlankHeader(tos: byte, length: nat, src: nat, dst: nat): (h: seq<byte>)
    ensures |h| == HEADER
  {
    [0x45, tos] + Put16(length) + [0, 0, 0, 0, 64, IPIP] + [0, 0] + (Put32(src) + Put32(dst))
  }

  function OuterHeader(tos: byte, length: nat, src: nat, dst: nat): (h: seq<byte>)
    ensures |h| == HEADER
  {
    var blank := BlankHeader(tos, length, src, dst);
    blank[..10] + Put16(0xffff - Ones(WordSum(blank))) + blank[12..]
  }

  function Encapsulated(inner: seq<byte>, src: nat, dst: nat): (p: seq<byte>)
    requires |inner| >= 2
    ensures |p| == HEADER + |inner|
  {
    OuterHeader(inner[1], HEADER + |inner|, src, dst) + inner
  }

  lemma OuterHeaderParts(tos: byte, length: nat, src: nat, dst: nat)
    ensures var h := OuterHeader(tos, length, src, dst);
            && h[0] == 0x45 && h[1] == tos && h[8] == 64 && h[9] == IPIP
            && h[2..4] == Put16(length) && h[12..16] == Put32(src) && h[16..20] == Put32(dst)
  {
    var blank, h := BlankHeader(tos, length, src, dst), OuterHeader(tos, length, src, dst);
    assert h[..10] == blank[..10] && h[12..] == blank[12..];
    assert blank[2..4] == Put16(length) && blank[12..16] == Put32(src) && blank[16..20] == Put32(dst);
    assert h[2..4] == blank[2..4] && h[12..16] == blank[12..16] && h[16..20] == blank[16..20];
  }

  lemma AddressAt(h: seq<byte>, at: nat, ip: nat)
    requires at + 4 <= |h| && h[at..at + 4] == Put32(ip) && ip < 0x1_0000_0000
    ensures Get32(h[at], h[at + 1], h[at + 2], h[at + 3]) == ip
  {
    Get32OfPut32(ip);
    assert h[at..at + 4] == [h[at], h[at + 1], h[at + 2], h[at + 3]];
  }

  lemma OuterHeaderFields(tos: byte, length: nat, src: nat, dst: nat)
    requires src < 0x1_0000_0000 && dst < 0x1_0000_0000
    ensures var h := OuterHeader(tos, length, src, dst);
            && h[0] == 0x45 && h[1] == tos && h[8] == 64 && h[9] == IPIP
            && Word(h[2], h[3]) == length % 0x1_0000
            && SrcOf(h) == src && DstOf(h) == dst
  {
    var h := OuterHeader(tos, length, src, dst);
    OuterHeaderParts(tos, length, src, dst);
    AddressAt(h, 12, src);
    AddressAt(h, 16, dst);
    WordOfPut16(length);
    assert h[2..4] == [h[2], h[3]];
  }

  lemma OuterHeaderVerifies(tos: byte, length: nat, src: nat, dst: nat)
    ensures Verifies(OuterHeader(tos, length, src, dst))
  {
    var blank := BlankHeader(tos, length, src, dst);
    assert blank[10] == 0 == blank[11];
    FilledInVerifies(blank, 10);
  }

  /** Copies bytes into a buffer. */
  method Copy(out: array<byte>, at: nat, s: seq<byte>)
    requires at + |s| <= out.Length
    modifies out
    ensures out[..at] == old(out[..at]) && out[at..at + |s|] == s && out[at + |s|..] == old(out[at + |s|..])
  {
    for i := 0 to |s|
      invariant out[..at] == old(out[..at])
      invariant out[at..at + i] == s[..i]
      invariant out[at + |s|..] == old(out[at + |s|..])
    {
      out[at + i] := s[i];
    }
  }

  /** Writes the outer header, its checksum last. */
  method WriteHeader(tos: byte, length: nat, localIP: nat, via: nat, out: array<byte>)
    requires out.Length >= HEADER
    modifies out
    ensures out[..HEADER] == OuterHeader(tos, length, localIP, via)
    ensures out[HEADER..] == old(out[HEADER..])
  {
    var blank := BlankHeader(tos, length, localIP, via);
    Copy(out, 0, blank);
    assert out[..HEADER] == blank;
    var c := IpChecksum(out[..HEADER]);
    assert blank[..HEADER - HEADER % 2] == blank;
    out[10] := c / 256;
    out[11] := c % 256;
    assert out[..10] == blank[..10] && out[12..HEADER] == blank[12..];
    assert out[..HEADER] == out[..10] + [out[10], out[11]] + out[12..HEADER];
  }

  method Encapsulate(inner: seq<byte>, localIP: nat, via: nat, out: array<byte>) returns (n: nat)
    requires |inner| >= 2 && out.Length >= HEADER + |inner|
    modifies out
    ensures n == HEADER + |inner|
    ensures out[..n] == Encapsulated(inner, localIP, via)
    ensures out[n..] == old(out[n..])
  {
    n := HEADER + |inner|;
    WriteHeader(inner[1], n, localIP, via, out);
    ghost var h := out[..HEADER];
    Copy(out, HEADER, inner);
    assert out[..HEADER] == h;
    assert out[..n] == out[..HEADER] + out[HEADER..n];
    assert out[n..] == old(out[HEADER..])[|inner|..];
  }

  /** Takes the outer header off a wrapped packet that is addressed to this node. */
  function Decapsulated(p: seq<byte>, localIP: nat): Option<seq<byte>> {
    if |p| < HEADER || p[0] / 16 != 4 || p[9] != IPIP || DstOf(p) != localIP then None else Some(p[HEADER..])
  }

  /** The packet is an IPv4 packet of protocol 4 to the node: it unwraps there, and nothing else does. */
  predicate WrappedFor(p: seq<byte>, localIP: nat) {
    |p| >= 20 && 0x40 <= p[0] < 0x50 && p[9] == 4 && Get32(p[16], p[17], p[18], p[19]) == localIP
  }

  lemma UnwrapsExactly(p: seq<byte>, localIP: nat)
    ensures Decapsulated(p, localIP) == if WrappedFor(p, localIP) then Some(p[20..]) else None
  {
  }

  /** Unwrapping gives the wrapped packet back byte for byte at the node it was wrapped for, and nothing
      anywhere else. */
  lemma WrapUnwrap(inner: seq<byte>, src: nat, dst: nat, localIP: nat)
    requires |inner| >= 2 && src < 0x1_0000_0000 && dst < 0x1_0000_0000
    ensures Decapsulated(Encapsulated(inner, src, dst), localIP)
            == if localIP == dst then Some(inner) else None
  {
    OuterHeaderFields(inner[1], HEADER + |inner|, src, dst);
    var h := OuterHeader(inner[1], HEADER + |inner|, src, dst);
    assert (h + inner)[HEADER..] == inner;
    assert (h + inner)[..HEADER] == h;
  }

  // ---- echo reply ----

  predicate IsEchoRequest(p: seq<byte>) {
    |p| >= HEADER + 8 && p[0] / 16 == 4 && p[9] == ICMP && p[20] == ECHO_REQUEST
  }

  /** The ICMP part of the reply before its checksum. */
  function BlankReply(p: seq<byte>): seq<byte>
    requires |p| >= HEADER + 8
  {
    [0, 0, 0, 0] + p[24..]
  }

  function EchoReply(p: seq<byte>): Option<seq<byte>> {
    if !IsEchoRequest(p) then None else
      var body := BlankReply(p);
      Some(p[..12] + p[16..20] + p[12..16] + ([0, 0] + Put16(0xffff - Ones(WordSum(body))) + p[24..]))
  }

  /** A copy of the packet with the addresses exchanged. */
  method CopySwapped(packet: seq<byte>) returns (out: array<byte>)
    requires |packet| >= HEADER + 8
    ensures fresh(out) && out[..] == packet[..12] + packet[16..20] + packet[12..16] + packet[20..]
  {
    out := new byte[|packet|];
    for i := 0 to |packet|
      invariant out[..i] == packet[..i]
    {
      out[i] := packet[i];
    }
    assert out[..] == packet;
    for i := 0 to 4
      invariant out[..12] == packet[..12] && out[20..] == packet[20..]
      invariant out[12..12 + i] == packet[16..16 + i] && out[16..16 + i] == packet[12..12 + i]
    {
      out[16 + i] := packet[12 + i];
      out[12 + i] := packet[16 + i];
    }
    assert out[..] == out[..12] + out[12..16] + out[16..20] + out[20..];
  }

  /** Turns the ICMP part into a reply and recomputes its checksum. */
  method StoreReply(out: array<byte>)
    requires HEADER + 8 <= out.Length <= MAX_SUMMED
    modifies out
    ensures out[..HEADER] == old(out[..HEADER])
    ensures var body := [0, 0, 0, 0] + old(out[24..]);
            out[HEADER..] == [0, 0] + Put16(0xffff - Ones(WordSum(body))) + old(out[24..])
  {
    out[20], out[21], out[22], out[23] := 0, 0, 0, 0;
    assert out[20..] == [0, 0, 0, 0] + old(out[24..]);
    var sum := IcmpChecksum(out[20..]);
    out[22] := sum / 256;
    out[23] := sum % 256;
    assert Put16(sum) == [sum / 256, sum % 256];
  }

  method IcmpEchoReply(packet: seq<byte>) returns (r: Option<seq<byte>>)
    requires |packet| <= MAX_SUMMED
    ensures r == EchoReply(packet)
  {
    if |packet| < 28 || packet[0] / 16 != 4 || packet[9] != ICMP {
      return None;
    }
    if packet[20] != ECHO_REQUEST {
      return None;
    }
    var out := CopySwapped(packet);
    ghost var head := packet[..12] + packet[16..20] + packet[12..16];
    assert out[..] == head + packet[20..];
    assert out[..HEADER] == head && out[24..] == packet[24..];
    StoreReply(out);
    assert out[..] == out[..HEADER] + out[HEADER..];
    r := Some(out[..]);
  }

  /** A reply is given to IPv4 packets of 28 bytes or more that hold an ICMP echo request, and to no other. */
  predicate AsksEcho(p: seq<byte>) {
    |p| >= 28 && 0x40 <= p[0] < 0x50 && p[9] == 1 && p[20] == 8
  }

  lemma RepliesExactly(p: seq<byte>)
    ensures EchoReply(p).Some? <==> AsksEcho(p)
  {
  }

  lemma EchoReplyParts(p: seq<byte>)
    requires IsEchoRequest(p)
    ensures var q := EchoReply(p).value;
            && |q| == |p| && q[..12] == p[..12] && q[24..] == p[24..]
            && q[..HEADER] == p[..12] + p[16..20] + p[12..16]
            && q[HEADER..] == BlankReply(p)[..2] + Put16(0xffff - Ones(WordSum(BlankReply(p)))) + BlankReply(p)[4..]
  {
  }

  lemma EchoReplyAddresses(p: seq<byte>)
    requires IsEchoRequest(p)
    ensures var q := EchoReply(p).value;
            |q| == |p| && SrcOf(q) == DstOf(p) && DstOf(q) == SrcOf(p) && q[20] == 0 && q[21] == 0
  {
    EchoReplyParts(p);
    var q := EchoReply(p).value;
    assert q[12] == q[..HEADER][12] && q[13] == q[..HEADER][13] && q[14] == q[..HEADER][14] && q[15] == q[..HEADER][15];
    assert q[16] == q[..HEADER][16] && q[17] == q[..HEADER][17] && q[18] == q[..HEADER][18] && q[19] == q[..HEADER][19];
    assert q[20] == q[HEADER..][0] && q[21] == q[HEADER..][1];
  }

  lemma EchoReplyHeader(p: seq<byte>)
    requires IsEchoRequest(p)
    ensures |EchoReply(p).value| == |p|
    ensures Verifies(EchoReply(p).value[..HEADER]) <==> Verifies(p[..HEADER])
  {
    EchoReplyParts(p);
    assert p[..HEADER] == p[..12] + p[12..16] + p[16..20];
    SwapKeepsSum(p[..12], p[12..16], p[16..20]);
  }

  /** The reply: the request with addresses exchanged, type and code 0, the same identifier, sequence
      number and data, a correct ICMP checksum for odd and even lengths, and a header that verifies
      exactly when the request's did. */
  lemma EchoReplyIsCorrect(p: seq<byte>)
    requires IsEchoRequest(p)
    ensures var q := EchoReply(p).value;
            && |q| == |p| && q[..12] == p[..12] && q[24..] == p[24..]
            && SrcOf(q) == DstOf(p) && DstOf(q) == SrcOf(p)
            && q[20] == 0 && q[21] == 0
            && Verifies(q[HEADER..])
            && (Verifies(q[..HEADER]) <==> Verifies(p[..HEADER]))
  {
    EchoReplyParts(p);
    EchoReplyAddresses(p);
    FilledInVerifies(BlankReply(p), 2);
    EchoReplyHeader(p);
  }
}
