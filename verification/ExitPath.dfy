/** The exit path end to end: an echo request from a consumer, wrapped, relayed, answered by the exit,
    relayed back (internal/client/client.go, internal/client/ipip.go, internal/client/icmp.go,
    internal/server/hub.go: `Relay`, internal/protocol/frame.go). */
module ExitPath {
  import opened Bytes
  import opened Checksum
  import P = Packets
  import opened Frames
  import PR = Peers
  import C = Clients
  import M = Membership
  import L = Leases
  import opened Quotas
  import opened Registry
  import opened Server
  import opened HubRuns
  import opened Relays

  /** A leased address fits 32 bits. */
  lemma NodeAddressFits<R>(s: State<R>, r: R)
    requires HubInv(s) && r in s.nodes
    ensures s.nodes[r].info.ip < 0x1_0000_0000
  {
    var info := s.nodes[r].info;
    assert Owns(s.store, info);
    L.StateInv(s.store, info.network);
    var leases := L.StateOf(s.store, info.network).leases;
    assert L.InBlock(s.store.net, |leases|, info.ip);
  }

  lemma HeadOf(h: seq<byte>, inner: seq<byte>)
    requires |h| == 20
    ensures DstOf(h + inner) == Get32(h[16], h[17], h[18], h[19]) && (h + inner)[9] == h[9]
  {
  }

  /** The relay reads a wrapped packet as exit-path traffic to the node it was wrapped for. */
  lemma WrappedSeen(inner: seq<byte>, src: nat, dst: nat)
    requires |inner| >= 20 && src < 0x1_0000_0000 && dst < 0x1_0000_0000
    ensures var p := P.Encapsulated(inner, src, dst);
            |p| >= 20 && Proxied(p) && DstOf(p) == dst
  {
    P.OuterHeaderFields(inner[1], 20 + |inner|, src, dst);
    var h := P.OuterHeader(inner[1], 20 + |inner|, src, dst);
    HeadOf(h, inner);
  }

  lemma WrappedRoute<R>(s: State<R>, from: R, to: R, inner: seq<byte>)
    requires HubInv(s) && Live(s, from) && Live(s, to) && |inner| >= 20
    requires s.nodes[from].info.network == s.nodes[to].info.network
    ensures var p := P.Encapsulated(inner, s.nodes[from].info.ip, s.nodes[to].info.ip);
            |p| >= 20 && Proxied(p) && RouteOf(s, from, p) == To(to)
  {
    NodeAddressFits(s, from);
    NodeAddressFits(s, to);
    WrappedSeen(inner, s.nodes[from].info.ip, s.nodes[to].info.ip);
    RouteInAccount(s, from, P.Encapsulated(inner, s.nodes[from].info.ip, s.nodes[to].info.ip));
  }

  /** Who pays for the two directions: the consumer, as long as it is not an exit itself. */
  lemma BothDirectionsBilled(a: NodeState, e: NodeState)
    requires e.egress && a.info.device != e.info.device
    ensures Attribute(a, e, true) == Charge(a.info.account, a.info.device, e.info.device)
    ensures Attribute(e, a, true) == Charge(a.info.account, a.info.device, e.info.device) <==> !a.egress
  {
  }

  /** A frame as written is the frame as read. */
  lemma FrameArrives(packet: seq<byte>)
    requires |packet| <= 0xffff
    ensures FramesIn(Encode(Frame(DATA, packet))) == [Frame(DATA, packet)]
    ensures LeftOver(Encode(Frame(DATA, packet))) == []
  {
    var f := Frame(DATA, packet);
    assert [f][..0] == [];
    assert Stream([f]) == Encode(f);
    StreamRoundTrip([f]);
  }

  /** An echo reply is no echo request. */
  lemma ReplyIsNoRequest(p: seq<byte>)
    requires P.IsEchoRequest(p)
    ensures P.EchoReply(P.EchoReply(p).value) == P.None
  {
    P.EchoReplyIsCorrect(p);
  }

  /** What an exit's client and a consumer's make of a wrapped request, whatever its settings. */
  lemma RequestHandled(p: seq<byte>, wrapped: seq<byte>, e: nat, exit: bool)
    requires P.IsEchoRequest(p) && P.Decapsulated(wrapped, e) == P.Some(p)
    ensures C.Handle(wrapped, e, exit)
            == if exit then C.ToServer(P.Encapsulated(P.EchoReply(p).value, e, P.SrcOf(p))) else C.ToTun(p)
  {
    P.EchoReplyIsCorrect(p);
  }

  /** And of a wrapped answer. */
  lemma AnswerHandled(q: seq<byte>, wrapped: seq<byte>, a: nat, exit: bool)
    requires P.EchoReply(q).None? && P.Decapsulated(wrapped, a) == P.Some(q)
    ensures C.Handle(wrapped, a, exit) == if exit then C.ToStack(q) else C.ToTun(q)
  {
  }

  /** The hub after the forward relay still has both nodes where they were. */
  lemma AfterRelay<R>(s: State<R>, src: R, packet: seq<byte>, limits: Limits, t: Times, writeOk: bool, r: R)
    requires HubInv(s) && src in s.nodes && Live(s, r)
    ensures var s' := Relayed(s, src, packet, limits, t, writeOk);
            HubInv(s') && Live(s', r) && s'.nodes[r].info == s.nodes[r].info && s'.nodes[r].egress == s.nodes[r].egress
  {
    RelayKeepsHub(s, src, packet, limits, t, writeOk);
    RelayedShape(s, src, packet, limits, t, writeOk);
  }

  lemma RoutedOutcome<R>(s: State<R>, from: R, to: R, p: seq<byte>, limits: Limits, t: Times)
    requires TablesKnown(s) && from in s.nodes && to in s.nodes && Proxied(p) && RouteOf(s, from, p) == To(to)
    requires HasRoom(s.quota, limits, Attribute(s.nodes[from], s.nodes[to], true), |p|, t.admit)
    ensures Outcome(s, from, p, limits, t, true) == Delivered(to, Attribute(s.nodes[from], s.nodes[to], true))
  {
    AdmittedExactly(s.quota, limits, Attribute(s.nodes[from], s.nodes[to], true), |p|, t.admit);
  }

  lemma DeliveredLog<R>(s: State<R>, src: R, packet: seq<byte>, limits: Limits, t: Times, dst: R, c: Charge)
    requires src in s.nodes && dst in s.nodes && TablesKnown(s)
    requires Outcome(s, src, packet, limits, t, true) == Delivered(dst, c)
    ensures Relayed(s, src, packet, limits, t, true).log == s.log + [DeliveryOf(s, src, dst, c, packet, limits, t)]
  {
  }

  /** One relay of a wrapped packet, with room for it and written: delivered, and booked as the attribution says. */
  lemma RelayWrapped<R>(s: State<R>, from: R, to: R, inner: seq<byte>, limits: Limits, t: Times)
    requires HubInv(s) && Live(s, from) && Live(s, to) && |inner| >= 20
    requires s.nodes[from].info.network == s.nodes[to].info.network
    requires var p := P.Encapsulated(inner, s.nodes[from].info.ip, s.nodes[to].info.ip);
             HasRoom(s.quota, limits, Attribute(s.nodes[from], s.nodes[to], true), |p|, t.admit)
    ensures var p := P.Encapsulated(inner, s.nodes[from].info.ip, s.nodes[to].info.ip);
            var c := Attribute(s.nodes[from], s.nodes[to], true);
            && Outcome(s, from, p, limits, t, true) == Delivered(to, c)
            && Relayed(s, from, p, limits, t, true).log == s.log + [DeliveryOf(s, from, to, c, p, limits, t)]
  {
    WrappedRoute(s, from, to, inner);
    var p := P.Encapsulated(inner, s.nodes[from].info.ip, s.nodes[to].info.ip);
    RoutedOutcome(s, from, to, p, limits, t);
    DeliveredLog(s, from, p, limits, t, to, Attribute(s.nodes[from], s.nodes[to], true));
  }

  /** The packets of the round trip: the wrapped request, the answer, the wrapped answer. */
  function Up(p: seq<byte>, a: nat, e: nat): seq<byte>
    requires P.IsEchoRequest(p)
  {
    P.Encapsulated(p, a, e)
  }

  function Answer(p: seq<byte>): seq<byte>
    requires P.IsEchoRequest(p)
  {
    P.EchoReply(p).value
  }

  function Down(p: seq<byte>, a: nat, e: nat): seq<byte>
    requires P.IsEchoRequest(p)
  {
    P.Encapsulated(Answer(p), e, a)
  }

  /** Each packet travels as one frame, unwrapping gives the request byte for byte, and the answer is the
      request turned around with both checksums right. */
  ghost predicate PacketsCorrect(p: seq<byte>, a: nat, e: nat)
    requires P.IsEchoRequest(p)
  {
    var up, down, q := Up(p, a, e), Down(p, a, e), Answer(p);
    && FramesIn(Encode(Frame(DATA, up))) == [Frame(DATA, up)]
    && P.Decapsulated(up, e) == P.Some(p)
    && FramesIn(Encode(Frame(DATA, down))) == [Frame(DATA, down)]
    && P.Decapsulated(down, a) == P.Some(q)
    && |q| == |p| && q[..12] == p[..12] && q[24..] == p[24..]
    && P.SrcOf(q) == P.DstOf(p) && P.DstOf(q) == a && q[20] == 0
    && Verifies(q[..20]) && Verifies(q[20..])
  }

  lemma EchoPackets(p: seq<byte>, a: nat, e: nat)
    requires P.IsEchoRequest(p) && |p| <= 65515 && P.SrcOf(p) == a && Verifies(p[..20])
    requires a < 0x1_0000_0000 && e < 0x1_0000_0000
    ensures PacketsCorrect(p, a, e)
  {
    P.EchoReplyIsCorrect(p);
    P.WrapUnwrap(p, a, e, e);
    P.WrapUnwrap(Answer(p), e, a, a);
    FrameArrives(Up(p, a, e));
    FrameArrives(Down(p, a, e));
  }

  /** The exit's client answers the wrapped request, and the consumer's client gives the answer to its
      interface. */
  predicate Answered(p: seq<byte>, ca: C.Setup, ce: C.Setup)
    requires P.IsEchoRequest(p)
  {
    && C.Handle(Up(p, ca.localIP, ce.localIP), ce.localIP, ce.exit) == C.ToServer(Down(p, ca.localIP, ce.localIP))
    && C.Handle(Down(p, ca.localIP, ce.localIP), ca.localIP, ca.exit) == C.ToTun(Answer(p))
  }

  /** They do if and only if the exit's client runs the network stack and the consumer's does not: a consumer
      that was started as an exit too, granted or not, hands the answer to its own stack. */
  lemma AnsweredExactly(p: seq<byte>, ca: C.Setup, ce: C.Setup)
    requires P.IsEchoRequest(p) && P.SrcOf(p) == ca.localIP
    requires ca.localIP < 0x1_0000_0000 && ce.localIP < 0x1_0000_0000
    ensures Answered(p, ca, ce) <==> ce.exit && !ca.exit
  {
    P.EchoReplyIsCorrect(p);
    ReplyIsNoRequest(p);
    P.WrapUnwrap(p, ca.localIP, ce.localIP, ce.localIP);
    P.WrapUnwrap(Answer(p), ce.localIP, ca.localIP, ca.localIP);
    RequestHandled(p, Up(p, ca.localIP, ce.localIP), ce.localIP, ce.exit);
    AnswerHandled(Answer(p), Down(p, ca.localIP, ce.localIP), ca.localIP, ca.exit);
  }

  // ---- the consumer's decision ----

  /** Rules, mode and peer table lead a packet to `dst` to the exit at `ip` and to no other. */
  ghost predicate LeadsOnlyTo(ca: C.Setup, va: PR.View, dst: nat, ip: nat) {
    && !C.SameNet(ca.localIP, dst, ca.prefix)
    && ca.Bound(dst)
    && forall via: string :: ca.BoundFor(va, dst, via) ==>
         forall a: nat :: C.Serves(ca.spelled, va, via, a) <==> a == ip
  }

  /** So the packet leaves wrapped for that exit. */
  lemma LeavesWrapped(ca: C.Setup, va: PR.View, ip: nat, p: seq<byte>, r: C.Outbound)
    requires |p| >= 20 && p[0] / 16 == 4 && ca.Turns(va, p, r) && LeadsOnlyTo(ca, va, P.DstOf(p), ip)
    ensures r == C.Sent(P.Encapsulated(p, ca.localIP, ip))
  {
    var via :| ca.BoundFor(va, P.DstOf(p), via) && ca.Leaves(va, p, via, r);
    assert C.Serves(ca.spelled, va, via, ip);
  }

  /** Consumer and exit, both online in one account. */
  ghost predicate Pair<R>(s: State<R>, a: R, e: R) {
    && HubInv(s) && Live(s, a) && Live(s, e)
    && s.nodes[a].info.network == s.nodes[e].info.network
    && s.nodes[a].info.device != s.nodes[e].info.device
    && s.nodes[e].egress && !s.nodes[a].egress
  }

  /** The consumer's account and device, on the exit's lane. */
  function ConsumerPays(a: NodeInfo, e: NodeInfo): Charge {
    Charge(a.account, a.device, e.device)
  }

  lemma PairAfterRelay<R>(s: State<R>, a: R, e: R, packet: seq<byte>, limits: Limits, t: Times)
    requires Pair(s, a, e)
    ensures var s' := Relayed(s, a, packet, limits, t, true);
            Pair(s', a, e) && s'.nodes[a].info == s.nodes[a].info && s'.nodes[e].info == s.nodes[e].info
  {
    AfterRelay(s, a, packet, limits, t, true, a);
    AfterRelay(s, a, packet, limits, t, true, e);
  }

  lemma RelayUp<R>(s: State<R>, a: R, e: R, inner: seq<byte>, limits: Limits, t: Times)
    requires Pair(s, a, e) && |inner| >= 20
    requires HasRoom(s.quota, limits, ConsumerPays(s.nodes[a].info, s.nodes[e].info), |inner| + 20, t.admit)
    ensures Outcome(s, a, P.Encapsulated(inner, s.nodes[a].info.ip, s.nodes[e].info.ip), limits, t, true)
            == Delivered(e, ConsumerPays(s.nodes[a].info, s.nodes[e].info))
  {
    BothDirectionsBilled(s.nodes[a], s.nodes[e]);
    RelayWrapped(s, a, e, inner, limits, t);
  }

  lemma RelayDown<R>(s: State<R>, a: R, e: R, inner: seq<byte>, limits: Limits, t: Times)
    requires Pair(s, a, e) && |inner| >= 20
    requires HasRoom(s.quota, limits, ConsumerPays(s.nodes[a].info, s.nodes[e].info), |inner| + 20, t.admit)
    ensures Outcome(s, e, P.Encapsulated(inner, s.nodes[e].info.ip, s.nodes[a].info.ip), limits, t, true)
            == Delivered(a, ConsumerPays(s.nodes[a].info, s.nodes[e].info))
  {
    BothDirectionsBilled(s.nodes[a], s.nodes[e]);
    RelayWrapped(s, e, a, inner, limits, t);
  }

  /** Both relays deliver, and both are billed to the consumer. */
  ghost predicate RelaysDeliver<R>(s: State<R>, a: R, e: R, p: seq<byte>, limits: Limits, t1: Times, t2: Times)
    requires a in s.nodes && e in s.nodes && TablesKnown(s) && P.IsEchoRequest(p)
  {
    var ipA, ipE := s.nodes[a].info.ip, s.nodes[e].info.ip;
    var c := ConsumerPays(s.nodes[a].info, s.nodes[e].info);
    var s1 := Relayed(s, a, Up(p, ipA, ipE), limits, t1, true);
    && Outcome(s, a, Up(p, ipA, ipE), limits, t1, true) == Delivered(e, c)
    && e in s1.nodes && TablesKnown(s1)
    && Outcome(s1, e, Down(p, ipA, ipE), limits, t2, true) == Delivered(a, c)
  }

  /** There is room for both packets, the second after the first is counted; `RoomForTwo` says when. */
  predicate BothFit(q: Quota, limits: Limits, c: Charge, n: nat, t1: Times, t2: Times) {
    && HasRoom(q, limits, c, n, t1.admit)
    && HasRoom(Inc(Rolled(q, t1.admit), limits, c, n, t1.inc), limits, c, n, t2.admit)
  }

  lemma FirstRelay<R>(s: State<R>, a: R, e: R, p: seq<byte>, limits: Limits, t: Times)
    requires Pair(s, a, e) && P.IsEchoRequest(p)
    requires HasRoom(s.quota, limits, ConsumerPays(s.nodes[a].info, s.nodes[e].info), |p| + 20, t.admit)
    ensures Outcome(s, a, Up(p, s.nodes[a].info.ip, s.nodes[e].info.ip), limits, t, true)
            == Delivered(e, ConsumerPays(s.nodes[a].info, s.nodes[e].info))
  {
    RelayUp(s, a, e, p, limits, t);
  }

  /** What a delivered packet makes of the counters. */
  lemma DeliveredQuota<R>(s: State<R>, src: R, packet: seq<byte>, limits: Limits, t: Times, dst: R, c: Charge, n: nat)
    requires src in s.nodes && TablesKnown(s) && |packet| == n
    requires Outcome(s, src, packet, limits, t, true) == Delivered(dst, c)
    ensures Relayed(s, src, packet, limits, t, true).quota == Inc(Rolled(s.quota, t.admit), limits, c, n, t.inc)
  {
  }

  lemma UpLength(p: seq<byte>, a: nat, e: nat)
    requires P.IsEchoRequest(p)
    ensures |Up(p, a, e)| == |p| + 20
  {
  }

  lemma SecondRelay<R>(s: State<R>, a: R, e: R, p: seq<byte>, limits: Limits, t: Times)
    requires Pair(s, a, e) && P.IsEchoRequest(p)
    requires HasRoom(s.quota, limits, ConsumerPays(s.nodes[a].info, s.nodes[e].info), |p| + 20, t.admit)
    ensures Outcome(s, e, Down(p, s.nodes[a].info.ip, s.nodes[e].info.ip), limits, t, true)
            == Delivered(a, ConsumerPays(s.nodes[a].info, s.nodes[e].info))
  {
    P.EchoReplyIsCorrect(p);
    RelayDown(s, a, e, Answer(p), limits, t);
  }

  lemma BetweenRelays<R>(s: State<R>, a: R, e: R, packet: seq<byte>, limits: Limits, t: Times)
    requires Pair(s, a, e)
    ensures var s' := Relayed(s, a, packet, limits, t, true);
            && Pair(s', a, e) && TablesKnown(s') && e in s'.nodes
            && s'.nodes[a].info.ip == s.nodes[a].info.ip && s'.nodes[e].info.ip == s.nodes[e].info.ip
            && ConsumerPays(s'.nodes[a].info, s'.nodes[e].info) == ConsumerPays(s.nodes[a].info, s.nodes[e].info)
  {
    PairAfterRelay(s, a, e, packet, limits, t);
  }

  lemma AnswerRelayed<R>(s: State<R>, a: R, e: R, p: seq<byte>, limits: Limits, t: Times, ipA: nat, ipE: nat, c: Charge)
    requires Pair(s, a, e) && P.IsEchoRequest(p) && s.nodes[a].info.ip == ipA && s.nodes[e].info.ip == ipE
    requires c == ConsumerPays(s.nodes[a].info, s.nodes[e].info) && HasRoom(s.quota, limits, c, |p| + 20, t.admit)
    ensures Outcome(s, e, Down(p, ipA, ipE), limits, t, true) == Delivered(a, c)
  {
    SecondRelay(s, a, e, p, limits, t);
  }

  /** After a first packet of that length and charge the answer goes through. */
  lemma ThenAnswer<R>(s: State<R>, a: R, e: R, up: seq<byte>, p: seq<byte>, limits: Limits, t1: Times, t2: Times)
    requires Pair(s, a, e) && P.IsEchoRequest(p) && |up| == |p| + 20
    requires var c := ConsumerPays(s.nodes[a].info, s.nodes[e].info);
             && Outcome(s, a, up, limits, t1, true) == Delivered(e, c)
             && HasRoom(Inc(Rolled(s.quota, t1.admit), limits, c, |p| + 20, t1.inc), limits, c, |p| + 20, t2.admit)
    ensures var s1 := Relayed(s, a, up, limits, t1, true);
            && e in s1.nodes && TablesKnown(s1)
            && Outcome(s1, e, Down(p, s.nodes[a].info.ip, s.nodes[e].info.ip), limits, t2, true)
               == Delivered(a, ConsumerPays(s.nodes[a].info, s.nodes[e].info))
  {
    DeliveredQuota(s, a, up, limits, t1, e, ConsumerPays(s.nodes[a].info, s.nodes[e].info), |p| + 20);
    BetweenRelays(s, a, e, up, limits, t1);
    AnswerRelayed(Relayed(s, a, up, limits, t1, true), a, e, p, limits, t2, s.nodes[a].info.ip, s.nodes[e].info.ip,
                  ConsumerPays(s.nodes[a].info, s.nodes[e].info));
  }

  lemma EchoRelays<R>(s: State<R>, a: R, e: R, p: seq<byte>, limits: Limits, t1: Times, t2: Times)
    requires Pair(s, a, e) && P.IsEchoRequest(p)
    requires BothFit(s.quota, limits, ConsumerPays(s.nodes[a].info, s.nodes[e].info), |p| + 20, t1, t2)
    ensures RelaysDeliver(s, a, e, p, limits, t1, t2)
  {
    FirstRelay(s, a, e, p, limits, t1);
    UpLength(p, s.nodes[a].info.ip, s.nodes[e].info.ip);
    ThenAnswer(s, a, e, Up(p, s.nodes[a].info.ip, s.nodes[e].info.ip), p, limits, t1, t2);
  }

  /** The clients of the two nodes have the addresses they were welcomed with. */
  predicate ClientsOf<R>(s: State<R>, a: R, e: R, ca: C.Setup, ce: C.Setup)
    requires a in s.nodes && e in s.nodes
  {
    ca.localIP == s.nodes[a].info.ip && ce.localIP == s.nodes[e].info.ip
  }

  /** The whole round trip, for any echo request `p` from consumer `a`'s address, of any length a frame can
      carry wrapped, to any destination outside the subnet that `a`'s rules or mode lead to exit `e` and no
      other, when there is room for both packets in pool and lane: `p` leaves `a`'s interface wrapped for `e`,
      both relays deliver and are billed to `a`, every packet is right, and `a`'s interface gets the answer if
      and only if `e`'s client runs an exit's stack and `a`'s does not. */
  lemma EchoThroughExit<R>(s: State<R>, a: R, e: R, ca: C.Setup, va: PR.View, ce: C.Setup,
                           p: seq<byte>, r: C.Outbound, limits: Limits, t1: Times, t2: Times)
    requires Pair(s, a, e) && ClientsOf(s, a, e, ca, ce)
    requires P.IsEchoRequest(p) && |p| <= 65515 && P.SrcOf(p) == ca.localIP && Verifies(p[..20])
    requires LeadsOnlyTo(ca, va, P.DstOf(p), ce.localIP) && ca.Turns(va, p, r)
    requires BothFit(s.quota, limits, ConsumerPays(s.nodes[a].info, s.nodes[e].info), |p| + 20, t1, t2)
    ensures r == C.Sent(Up(p, ca.localIP, ce.localIP))
    ensures RelaysDeliver(s, a, e, p, limits, t1, t2)
    ensures PacketsCorrect(p, ca.localIP, ce.localIP)
    ensures Answered(p, ca, ce) <==> ce.exit && !ca.exit
  {
    LeavesWrapped(ca, va, ce.localIP, p, r);
    EchoRelays(s, a, e, p, limits, t1, t2);
    NodeAddressFits(s, a);
    NodeAddressFits(s, e);
    EchoPackets(p, ca.localIP, ce.localIP);
    AnsweredExactly(p, ca, ce);
  }

  // ---- how such a pair comes about ----

  /** A device that has joined is live at the address it was given. */
  lemma JoinedIsLive<R>(s: State<R>, ref: R, h: Hello, saveOk: bool)
    requires HubInv(s) && Possible(s, Join(ref, h, saveOk))
    requires L.Answer(s.store, NetworkOf(h), h.device, saveOk).Leased?
    ensures var s' := Joined(s, ref, h, saveOk);
            && Live(s', ref) && s'.nodes[ref].egress == h.Egress()
            && s'.nodes[ref].info == InfoFor(h, L.Answer(s.store, NetworkOf(h), h.device, saveOk).ip)
  {
    JoinedShape(s, ref, h, saveOk);
  }

  /** Two live nodes of one network at one address are of one device. */
  lemma OneDevicePerAddress<R>(s: State<R>, a: R, b: R)
    requires HubInv(s) && a in s.nodes && b in s.nodes
    requires KeyOf(s.nodes[a].info) == KeyOf(s.nodes[b].info)
    ensures s.nodes[a].info.device == s.nodes[b].info.device
  {
    assert Owns(s.store, s.nodes[a].info) && Owns(s.store, s.nodes[b].info);
  }

  lemma JoinedNodes<R>(s: State<R>, ref: R, h: Hello, saveOk: bool, r: R)
    requires HubInv(s) && Possible(s, Join(ref, h, saveOk)) && r in s.nodes
    requires L.Answer(s.store, NetworkOf(h), h.device, saveOk).Leased?
    ensures var s' := Joined(s, ref, h, saveOk);
            && ref in s'.nodes && r in s'.nodes && s'.nodes[r].info == s.nodes[r].info
            && s'.nodes[ref].info == InfoFor(h, L.Answer(s.store, NetworkOf(h), h.device, saveOk).ip)
  {
    JoinedShape(s, ref, h, saveOk);
  }

  lemma JoinedApart<R>(s: State<R>, ref: R, h: Hello, saveOk: bool, r: R)
    requires HubInv(s) && Possible(s, Join(ref, h, saveOk)) && r in s.nodes
    requires L.Answer(s.store, NetworkOf(h), h.device, saveOk).Leased?
    requires s.nodes[r].info.device != h.device
    ensures KeyOf(InfoFor(h, L.Answer(s.store, NetworkOf(h), h.device, saveOk).ip)) != KeyOf(s.nodes[r].info)
  {
    JoinKeepsHub(s, ref, h, saveOk);
    JoinedNodes(s, ref, h, saveOk, r);
    if KeyOf(InfoFor(h, L.Answer(s.store, NetworkOf(h), h.device, saveOk).ip)) == KeyOf(s.nodes[r].info) {
      OneDevicePerAddress(Joined(s, ref, h, saveOk), ref, r);
    }
  }

  /** Another device's join leaves a live node where it is. */
  lemma JoinKeepsLive<R>(s: State<R>, ref: R, h: Hello, saveOk: bool, r: R)
    requires HubInv(s) && Possible(s, Join(ref, h, saveOk)) && Live(s, r)
    requires L.Answer(s.store, NetworkOf(h), h.device, saveOk).Leased?
    requires s.nodes[r].info.device != h.device
    ensures var s' := Joined(s, ref, h, saveOk);
            Live(s', r) && s'.nodes[r] == s.nodes[r]
  {
    JoinedApart(s, ref, h, saveOk, r);
    JoinEnters(s, ref, h, saveOk);
    JoinReplaces(s, ref, h, saveOk, r);
  }

  /** When a consumer and a granted exit of one account join, in any state of the hub in which both are given
      an address, they are a pair the round trip works for, and it is answered exactly when the consumer did
      not ask to be an exit itself: a client announces its own setting. */
  lemma TwoJoinsMakeAPair<R>(s: State<R>, a: R, ha: Hello, e: R, he: Hello, saveOk: bool, ca: C.Setup, ce: C.Setup,
                             p: seq<byte>)
    requires HubInv(s) && Possible(s, Join(a, ha, saveOk))
    requires ha.account == he.account && ha.device != he.device && he.asks && he.enabled && !(ha.asks && ha.enabled)
    requires L.Answer(s.store, NetworkOf(ha), ha.device, saveOk).Leased?
    requires Possible(Joined(s, a, ha, saveOk), Join(e, he, saveOk))
    requires L.Answer(Joined(s, a, ha, saveOk).store, NetworkOf(he), he.device, saveOk).Leased?
    ensures var s' := Joined(Joined(s, a, ha, saveOk), e, he, saveOk);
            && Pair(s', a, e)
            && ((ClientsOf(s', a, e, ca, ce) && ca.exit == ha.asks && ce.exit == he.asks
                 && P.IsEchoRequest(p) && P.SrcOf(p) == ca.localIP) ==> (Answered(p, ca, ce) <==> !ha.asks))
  {
    var s1 := Joined(s, a, ha, saveOk);
    JoinKeepsHub(s, a, ha, saveOk);
    JoinedIsLive(s, a, ha, saveOk);
    JoinKeepsHub(s1, e, he, saveOk);
    JoinedIsLive(s1, e, he, saveOk);
    JoinKeepsLive(s1, e, he, saveOk, a);
    var s' := Joined(s1, e, he, saveOk);
    NodeAddressFits(s', a);
    NodeAddressFits(s', e);
    if ClientsOf(s', a, e, ca, ce) && P.IsEchoRequest(p) && P.SrcOf(p) == ca.localIP {
      AnsweredExactly(p, ca, ce);
    }
  }

  // ---- membership and the data path ----

  /** The text names the exit: by its address, or by its host name when no other exit in the table bears it. */
  predicate NamesExit(ca: C.Setup, va: PR.View, via: string, exit: PR.PeerInfo) {
    match ca.spelled(via)
    case Some(a) => a == exit.ip
    case None => via == exit.hostname && forall a <- va :: va[a].egress && va[a].hostname == via ==> a == exit.ip
  }

  /** A table that has the exit leads there what rules or mode bind for texts that name it. */
  lemma TableLeads(ca: C.Setup, va: PR.View, dst: nat, exit: PR.PeerInfo)
    requires exit.egress && exit.ip in va && va[exit.ip] == exit
    requires !C.SameNet(ca.localIP, dst, ca.prefix) && ca.Bound(dst)
    requires forall via: string :: ca.BoundFor(va, dst, via) ==> NamesExit(ca, va, via, exit)
    ensures LeadsOnlyTo(ca, va, dst, exit.ip)
  {
    forall via: string, a: nat | ca.BoundFor(va, dst, via)
      ensures C.Serves(ca.spelled, va, via, a) <==> a == exit.ip
    {
      assert NamesExit(ca, va, via, exit);
    }
  }

  /** What the announcement of a node says, as the hub sends it to everyone else online. */
  function Announcement<R>(s: State<R>, e: R): PR.PeerInfo
    requires e in s.nodes
  {
    M.PeerOf(s.nodes[e].info, s.nodes[e].egress)
  }

  /** Whoever is online in the network hears the announcement. */
  lemma ConsumerIsTold<R>(s: State<R>, a: R, e: R)
    requires Pair(s, a, e)
    ensures a in M.Recipients(s.tables, s.nodes[e].info.network, s.nodes[e].info.ip)
  {
    var ka, ke := KeyOf(s.nodes[a].info), KeyOf(s.nodes[e].info);
    assert ka != ke by {
      if ka == ke {
        OneDevicePerAddress(s, a, e);
      }
    }
    LiveIsListed(s, a);
  }

  /** Membership and data path together: a consumer and then a granted exit of its account join, in any hub
      state; the announcement reaches the consumer and is laid into whatever table `v` its client had. Then
      any echo request that its rules or mode bind for texts naming the exit makes the whole trip, and is
      answered exactly when the consumer did not ask to be an exit itself. */
  lemma EchoAfterJoins<R>(s: State<R>, a: R, ha: Hello, e: R, he: Hello, saveOk: bool,
                          ca: C.Setup, v: PR.View, ce: C.Setup,
                          p: seq<byte>, r: C.Outbound, limits: Limits, t1: Times, t2: Times)
    requires HubInv(s) && Possible(s, Join(a, ha, saveOk))
    requires ha.account == he.account && ha.device != he.device && he.asks && he.enabled && !(ha.asks && ha.enabled)
    requires L.Answer(s.store, NetworkOf(ha), ha.device, saveOk).Leased?
    requires Possible(Joined(s, a, ha, saveOk), Join(e, he, saveOk))
    requires L.Answer(Joined(s, a, ha, saveOk).store, NetworkOf(he), he.device, saveOk).Leased?
    requires var s' := Joined(Joined(s, a, ha, saveOk), e, he, saveOk);
             a in s'.nodes && e in s'.nodes && TablesKnown(s') && ClientsOf(s', a, e, ca, ce)
             && P.IsEchoRequest(p)
             && BothFit(s'.quota, limits, ConsumerPays(s'.nodes[a].info, s'.nodes[e].info), |p| + 20, t1, t2)
    requires ca.exit == ha.asks && ce.exit == he.asks
    requires |p| <= 65515 && P.SrcOf(p) == ca.localIP && Verifies(p[..20])
    requires !C.SameNet(ca.localIP, P.DstOf(p), ca.prefix) && ca.Bound(P.DstOf(p))
    requires var exit := Announcement(Joined(Joined(s, a, ha, saveOk), e, he, saveOk), e);
             var va := PR.Apply(v, PR.PeerJoin(exit));
             && (forall via: string :: ca.BoundFor(va, P.DstOf(p), via) ==> NamesExit(ca, va, via, exit))
             && ca.Turns(va, p, r)
    ensures var s' := Joined(Joined(s, a, ha, saveOk), e, he, saveOk);
            && Pair(s', a, e) && a in M.Recipients(s'.tables, s'.nodes[e].info.network, s'.nodes[e].info.ip)
            && RelaysDeliver(s', a, e, p, limits, t1, t2)
    ensures r == C.Sent(Up(p, ca.localIP, ce.localIP)) && PacketsCorrect(p, ca.localIP, ce.localIP)
    ensures Answered(p, ca, ce) <==> !ha.asks
  {
    var s' := Joined(Joined(s, a, ha, saveOk), e, he, saveOk);
    var exit := Announcement(s', e);
    TwoJoinsMakeAPair(s, a, ha, e, he, saveOk, ca, ce, p);
    ConsumerIsTold(s', a, e);
    TableLeads(ca, PR.Apply(v, PR.PeerJoin(exit)), P.DstOf(p), exit);
    EchoThroughExit(s', a, e, ca, PR.Apply(v, PR.PeerJoin(exit)), ce, p, r, limits, t1, t2);
  }

  function GrantsOf<R>(nodes: map<R, NodeState>): map<R, bool> { map n | n in nodes :: nodes[n].egress }

  lemma PairAfterJoin<R>(s: State<R>, a: R, ha: Hello, e: R, saveOk: bool)
    requires HubInv(s) && Possible(s, Join(a, ha, saveOk)) && Live(s, e) && s.nodes[e].egress
    requires ha.account == s.nodes[e].info.account && ha.device != s.nodes[e].info.device
    requires !(ha.asks && ha.enabled) && L.Answer(s.store, NetworkOf(ha), ha.device, saveOk).Leased?
    ensures var s' := Joined(s, a, ha, saveOk);
            Pair(s', a, e) && s'.nodes[a].info.network == ha.account && s'.nodes[e] == s.nodes[e]
  {
    JoinKeepsHub(s, a, ha, saveOk);
    JoinedIsLive(s, a, ha, saveOk);
    JoinKeepsLive(s, a, ha, saveOk, e);
    SameNetwork(Joined(s, a, ha, saveOk), a, e);
  }

  /** What a Welcome says of a peer that is online. */
  lemma WelcomeTells<R>(s: State<R>, a: R, e: R)
    requires Pair(s, a, e)
    ensures var w := M.OthersOnline(s.tables, GrantsOf(s.nodes), s.nodes[a].info.network, s.nodes[a].info.ip);
            s.nodes[e].info.ip in w && w[s.nodes[e].info.ip] == Announcement(s, e)
  {
    var ka, ke := KeyOf(s.nodes[a].info), KeyOf(s.nodes[e].info);
    if ka == ke {
      OneDevicePerAddress(s, a, e);
    }
    LiveIsListed(s, e);
    M.WelcomeLists(s.tables, GrantsOf(s.nodes), ka.network, ka.ip, ke.ip);
  }

  /** The other way about: the exit is online when the consumer joins, and the Welcome tells of it. Laid over
      whatever table `v` the client had, it leads there, and the same holds. */
  lemma EchoAfterWelcome<R>(s: State<R>, a: R, ha: Hello, e: R, saveOk: bool, ca: C.Setup, v: PR.View, ce: C.Setup,
                            p: seq<byte>, r: C.Outbound, limits: Limits, t1: Times, t2: Times)
    requires HubInv(s) && Possible(s, Join(a, ha, saveOk)) && Live(s, e) && s.nodes[e].egress
    requires ha.account == s.nodes[e].info.account && ha.device != s.nodes[e].info.device
    requires !(ha.asks && ha.enabled) && L.Answer(s.store, NetworkOf(ha), ha.device, saveOk).Leased?
    requires var s' := Joined(s, a, ha, saveOk);
             a in s'.nodes && e in s'.nodes && ClientsOf(s', a, e, ca, ce) && P.IsEchoRequest(p)
             && BothFit(s'.quota, limits, ConsumerPays(s'.nodes[a].info, s'.nodes[e].info), |p| + 20, t1, t2)
    requires ca.exit == ha.asks && ce.exit
    requires |p| <= 65515 && P.SrcOf(p) == ca.localIP && Verifies(p[..20])
    requires !C.SameNet(ca.localIP, P.DstOf(p), ca.prefix) && ca.Bound(P.DstOf(p))
    requires var s' := Joined(s, a, ha, saveOk);
             var va := v + M.OthersOnline(s'.tables, GrantsOf(s'.nodes), ha.account, ca.localIP);
             && (forall via: string :: ca.BoundFor(va, P.DstOf(p), via) ==> NamesExit(ca, va, via, Announcement(s', e)))
             && ca.Turns(va, p, r)
    ensures var s' := Joined(s, a, ha, saveOk); Pair(s', a, e) && RelaysDeliver(s', a, e, p, limits, t1, t2)
    ensures r == C.Sent(Up(p, ca.localIP, ce.localIP)) && PacketsCorrect(p, ca.localIP, ce.localIP)
    ensures Answered(p, ca, ce) <==> !ha.asks
  {
    var s' := Joined(s, a, ha, saveOk);
    PairAfterJoin(s, a, ha, e, saveOk);
    WelcomeTells(s', a, e);
    var va := v + M.OthersOnline(s'.tables, GrantsOf(s'.nodes), ha.account, ca.localIP);
    TableLeads(ca, va, P.DstOf(p), Announcement(s', e));
    EchoThroughExit(s', a, e, ca, va, ce, p, r, limits, t1, t2);
  }
}
