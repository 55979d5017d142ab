/** The mesh path end to end: a packet from one device's interface to another's, through the two clients and
    the relay (internal/client/client.go: `tunToServer`, `handleInbound`; internal/server/hub.go: `Relay`;
    internal/protocol/frame.go). */
module MeshPath {
  import opened Bytes
  import opened Frames
  import P = Packets
  import PR = Peers
  import C = Clients
  import L = Leases
  import opened Quotas
  import opened Registry
  import opened Server
  import opened HubRuns
  import opened Relays
  import E = ExitPath

  /** Leased addresses lie in the one subnet all clients are told of. */
  lemma LeasedInSubnet<R>(s: State<R>, a: R, b: R)
    requires HubInv(s) && a in s.nodes && b in s.nodes && s.store.net.prefix <= 32
    requires s.store.net.base % s.store.net.Size() == 0
    ensures C.InSubnet(s.nodes[a].info.ip, s.store.net.prefix, s.nodes[b].info.ip)
  {
    var net := s.store.net;
    LeasedInBlock(s, a);
    LeasedInBlock(s, b);
    InOneBlock(net.base, s.nodes[a].info.ip, net.Size());
  }

  lemma LeasedInBlock<R>(s: State<R>, r: R)
    requires HubInv(s) && r in s.nodes
    ensures s.store.net.base <= s.nodes[r].info.ip < s.store.net.base + s.store.net.Size()
  {
    var info := s.nodes[r].info;
    assert Owns(s.store, info);
    L.StateInv(s.store, info.network);
    var leases := L.StateOf(s.store, info.network).leases;
    assert L.InBlock(s.store.net, |leases|, info.ip);
  }

  lemma InOneBlock(base: nat, ip: nat, size: nat)
    requires size > 0 && base % size == 0 && base <= ip < base + size
    ensures ip - ip % size == base
  {
    C.Quotient(base, size);
    C.Quotient(ip, size);
    C.SameQuotient(base / size, ip / size, 0, ip % size, size);
  }

  /** Any IPv4 packet that a frame can carry, from the interface of one device to the address of another that is
      online in its account, on a subnet as a CIDR gives it, with room in the account's pool: it leaves the
      sender's client unchanged, as one frame; it is relayed and delivered, on the sender's own charge; and the
      addressee's client hands it to its interface byte for byte if and only if its protocol is not IP-in-IP.
      Rules, modes, exit settings and grants of the two have no part in it. */
  lemma MeshTrip<R>(s: State<R>, a: R, b: R, ca: C.Setup, va: PR.View, cb: C.Setup,
                    p: seq<byte>, r: C.Outbound, limits: Limits, t: Times)
    requires HubInv(s) && MeshPacket(s, a, b, p) && C.IsV4(p) && |p| <= 0xffff
    requires s.store.net.prefix <= 32 && s.store.net.base % s.store.net.Size() == 0
    requires ca.localIP == s.nodes[a].info.ip && ca.prefix == s.store.net.prefix && cb.localIP == s.nodes[b].info.ip
    requires C.WellFormed(ca) && ca.Turns(va, p, r)
    requires HasRoom(s.quota, limits, OwnCharge(s.nodes[a].info), |p|, t.admit)
    ensures r == C.Sent(p)
    ensures FramesIn(Encode(Frame(DATA, p))) == [Frame(DATA, p)]
    ensures Outcome(s, a, p, limits, t, true) == Delivered(b, OwnCharge(s.nodes[a].info))
    ensures Arrived(s, Relayed(s, a, p, limits, t, true), a, b, |p|)
    ensures C.Handle(p, cb.localIP, cb.exit) == C.ToTun(p) <==> p[9] != 4
  {
    LeasedInSubnet(s, a, b);
    var k := C.FindRule(ca, P.DstOf(p));
    C.TurnsExactly(ca, va, p, r, k);
    E.FrameArrives(p);
    MeshRelay(s, a, b, p, limits, t);
    C.HandledExactly(p, cb.localIP, cb.exit);
  }
}
