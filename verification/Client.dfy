/** The client's packet decisions: which way a packet from the virtual interface goes, and what happens
    to a packet from the server (internal/client/client.go: `tunToServer`, `handleInbound`,
    `onNetStackOutput`; internal/client/ipip.go: `matchRoute`, `resolveVia`, `globalExit`,
    `isLocalVirtual`). */
module Clients {
  import opened Bytes
  import opened Subnet
  import opened Packets
  import opened Peers

  /** A compiled rule: packets into the CIDR leave through the exit `via` names. */
  datatype Route = Route(base: nat, prefix: nat, via: string)

  datatype Mode = Simple | Smart | Global

  /** Two addresses agree in their first `prefix` bits. */
  predicate SameNet(a: nat, b: nat, prefix: nat) {
    var size := Pow(2, if prefix <= 32 then 32 - prefix else 0);
    a / size == b / size
  }

  predicate Matches(r: Route, dst: nat) { SameNet(r.base, dst, r.prefix) }

  /** Whether a peer may serve as the exit a text names: by its address, if the text spells one, else by its
      host name. `spelled` is what the address parser makes of a text. */
  predicate Serves(spelled: string -> Option<nat>, peers: View, via: string, ip: nat) {
    && ip in peers && peers[ip].egress
    && (match spelled(via)
        case Some(a) => ip == a
        case None => peers[ip].hostname == via)
  }

  ghost predicate NoExit(spelled: string -> Option<nat>, peers: View, via: string) {
    forall ip: nat :: !Serves(spelled, peers, via, ip)
  }

  /** What becomes of a packet read from the virtual interface. */
  datatype Outbound = Skipped | Dropped | Sent(bytes: seq<byte>)

  /** What becomes of a packet received from the server. */
  datatype Inbound = ToTun(packet: seq<byte>) | ToServer(packet: seq<byte>) | ToStack(packet: seq<byte>)

  /** An exit answers echo requests itself and hands other wrapped packets to its network stack; any other
      client unwraps them for its own interface. */
  function Handle(packet: seq<byte>, localIP: nat, exit: bool): Inbound {
    match Decapsulated(packet, localIP)
    case None => ToTun(packet)
    case Some(inner) =>
      if !exit then ToTun(inner) else
        match EchoReply(inner)
        case Some(reply) => ToServer(Encapsulated(reply, localIP, DstOf(reply)))
        case None => ToStack(inner)
  }

  /** What a client was started with: an empty `exitDevice` names none, `exit` is its own setting, whether it
      runs an exit's network stack. */
  datatype Setup = Setup(localIP: nat, prefix: nat, mode: Mode, exitDevice: string, routes: seq<Route>, exit: bool,
                         spelled: string -> Option<nat>)
  {
    /** Rule `i` is the first that matches. */
    predicate FirstMatch(i: int, dst: nat) {
      0 <= i < |routes| && Matches(routes[i], dst) && forall j :: 0 <= j < i ==> !Matches(routes[j], dst)
    }

    predicate NoMatch(dst: nat) {
      forall j :: 0 <= j < |routes| ==> !Matches(routes[j], dst)
    }

    /** A packet to `dst` is bound for the exit `via`: by the first matching rule, or by global mode. */
    ghost predicate BoundFor(peers: View, dst: nat, via: string) {
      || (exists i :: FirstMatch(i, dst) && via == routes[i].via)
      || (mode == Global && NoMatch(dst) && IsGlobalExit(peers, via))
    }

    /** The default exit of global mode: the configured one, else the host name of an exit peer, else "". A
        host name that spells an address is then taken for the address. */
    ghost predicate IsGlobalExit(peers: View, via: string) {
      if exitDevice != "" then via == exitDevice
      else if exists ip :: ip in peers && peers[ip].egress
      then exists ip :: ip in peers && peers[ip].egress && via == peers[ip].hostname
      else via == ""
    }

    ghost predicate Bound(dst: nat) {
      mode == Global || exists i :: FirstMatch(i, dst)
    }

    /** How a packet bound for `via` leaves: wrapped for an online, authorised exit, or, when there is none,
        not at all. */
    ghost predicate Leaves(peers: View, packet: seq<byte>, via: string, r: Outbound)
      requires |packet| >= 2
    {
      if NoExit(spelled, peers, via) then r == Dropped
      else exists ip: nat :: Serves(spelled, peers, via, ip) && r == Sent(Encapsulated(packet, localIP, ip))
    }

    /** What may become of a packet from the virtual interface: never sent bare when bound for an exit. */
    ghost predicate Turns(peers: View, packet: seq<byte>, r: Outbound) {
      if |packet| < HEADER || packet[0] / 16 != 4 then r == Skipped
      else if SameNet(localIP, DstOf(packet), prefix) || !Bound(DstOf(packet)) then r == Sent(packet)
      else exists via :: BoundFor(peers, DstOf(packet), via) && Leaves(peers, packet, via, r)
    }
  }

  class Client {
    const setup: Setup
    const peers: PeerRegistry

    constructor (setup: Setup, peers: PeerRegistry)
      ensures this.setup == setup && this.peers == peers
    {
      this.setup, this.peers := setup, peers;
    }

    method MatchRoute(dst: nat) returns (found: bool, via: string)
      ensures found ==> exists i :: setup.FirstMatch(i, dst) && via == setup.routes[i].via
      ensures !found ==> setup.NoMatch(dst)
    {
      for i := 0 to |setup.routes|
        invariant forall j :: 0 <= j < i ==> !Matches(setup.routes[j], dst)
      {
        if Matches(setup.routes[i], dst) {
          assert setup.FirstMatch(i, dst);
          return true, setup.routes[i].via;
        }
      }
      return false, "";
    }

    /** An online peer that currently may serve as the named exit, if there is one. */
    method ResolveVia(via: string) returns (found: bool, ip: nat)
      ensures found ==> Serves(setup.spelled, peers.byIP, via, ip)
      ensures !found ==> NoExit(setup.spelled, peers.byIP, via)
    {
      match setup.spelled(via) {
        case Some(a) =>
          found := peers.ByIPEgress(a);
          ip := a;
        case None =>
          found, ip := peers.ResolveEgress(via);
      }
    }

    method GlobalExit() returns (via: string)
      ensures setup.IsGlobalExit(peers.byIP, via)
    {
      if setup.exitDevice != "" {
        return setup.exitDevice;
      }
      var list := peers.Snapshot();
      for i := 0 to |list|
        invariant forall j :: 0 <= j < i ==> !list[j].egress
      {
        if list[i].egress {
          assert list[i] in list;
          return list[i].hostname;
        }
      }
      assert forall p <- list :: !p.egress;
      return "";
    }

    method ChooseExit(dst: nat) returns (bound: bool, via: string)
      ensures bound <==> setup.Bound(dst)
      ensures bound ==> setup.BoundFor(peers.byIP, dst, via)
    {
      bound, via := MatchRoute(dst);
      if !bound && setup.mode == Global {
        via := GlobalExit();
        bound := true;
      }
    }

    /** One turn of the outbound loop. */
    method FromTun(packet: seq<byte>, encBuf: array<byte>) returns (r: Outbound)
      requires encBuf.Length >= HEADER + |packet|
      modifies encBuf
      ensures setup.Turns(peers.byIP, packet, r)
    {
      if |packet| < HEADER || packet[0] / 16 != 4 {
        return Skipped;
      }
      var dst := DstOf(packet);
      if !SameNet(setup.localIP, dst, setup.prefix) {
        var bound, via := ChooseExit(dst);
        if bound {
          var found, ip := ResolveVia(via);
          if !found {
            assert setup.Leaves(peers.byIP, packet, via, Dropped);
            return Dropped;
          }
          var n := Encapsulate(packet, setup.localIP, ip, encBuf);
          assert setup.Leaves(peers.byIP, packet, via, Sent(encBuf[..n]));
          return Sent(encBuf[..n]);
        }
      }
      return Sent(packet);
    }

    /** A packet relayed by the server. */
    method FromServer(packet: seq<byte>) returns (r: Inbound)
      requires |packet| <= 0xffff
      ensures r == Handle(packet, setup.localIP, setup.exit)
    {
      match Decapsulated(packet, setup.localIP) {
        case None => return ToTun(packet);
        case Some(inner) =>
          if !setup.exit {
            return ToTun(inner);
          }
          var reply := IcmpEchoReply(inner);
          if reply.Some? {
            var wrapped := NetStackOutput(reply.value);
            return ToServer(wrapped.value);
          }
          return ToStack(inner);
      }
    }

    /** Wraps an answer for the consumer it is addressed to; scraps without a destination are left. */
    method NetStackOutput(packet: seq<byte>) returns (wrapped: Option<seq<byte>>)
      ensures wrapped == if |packet| < HEADER then None else Some(Encapsulated(packet, setup.localIP, DstOf(packet)))
    {
      if |packet| < HEADER {
        return None;
      }
      var out := new byte[HEADER + |packet|];
      var n := Encapsulate(packet, setup.localIP, DstOf(packet), out);
      wrapped := Some(out[..n]);
    }
  }

  // ---- by address range and header bytes ----

  /** The addresses of the subnet of `2^(32-prefix)` addresses that `base` is in. */
  predicate InSubnet(base: nat, prefix: nat, ip: nat)
    requires prefix <= 32
  {
    var size := Pow(2, 32 - prefix);
    base - base % size <= ip <= base - base % size + size - 1
  }

  lemma Quotient(n: nat, size: nat)
    requires size > 0
    ensures n == n / size * size + n % size && n % size < size
  {
  }

  lemma SameQuotient(q: nat, q': nat, r: nat, r': nat, size: nat)
    requires r < size && r' < size
    ensures q == q' <==> q * size <= q' * size + r' <= q * size + size - 1
  {
    if q < q' {
      Multiples(q, q', size);
    } else if q' < q {
      Multiples(q', q, size);
    }
  }

  lemma Multiples(q: nat, q': nat, size: nat)
    requires q < q'
    ensures q * size + size <= q' * size
  {
    var more := q' - q - 1;
    assert q' * size == (q + 1) * size + more * size by { Distribute(q + 1, more, size); }
    Distribute(q, 1, size);
  }

  lemma Distribute(a: nat, b: nat, size: nat)
    ensures (a + b) * size == a * size + b * size
  {
  }

  lemma RangeOfQuotient(a: nat, b: nat, size: nat)
    requires size > 0
    ensures a / size == b / size <==> a - a % size <= b <= a - a % size + size - 1
  {
    Quotient(a, size);
    Quotient(b, size);
    SameQuotient(a / size, b / size, a % size, b % size, size);
  }

  /** Two addresses agree in their first bits if and only if one is in the other's range. */
  lemma SameNetIsRange(a: nat, b: nat, prefix: nat)
    requires prefix <= 32
    ensures SameNet(a, b, prefix) <==> InSubnet(a, prefix, b)
  {
    RangeOfQuotient(a, b, Pow(2, 32 - prefix));
  }

  /** The rules are compiled from CIDRs, and so is the client's own subnet. */
  predicate WellFormed(setup: Setup) {
    setup.prefix <= 32 && forall r <- setup.routes :: r.prefix <= 32
  }

  /** Rule `k` is the first whose range has the address; with all rules passed, `k` is their number. */
  predicate RuledBy(setup: Setup, k: nat, dst: nat)
    requires WellFormed(setup) && k <= |setup.routes|
  {
    && (k < |setup.routes| ==> InSubnet(setup.routes[k].base, setup.routes[k].prefix, dst))
    && forall j: nat :: j < k ==> !InSubnet(setup.routes[j].base, setup.routes[j].prefix, dst)
  }

  lemma FindRule(setup: Setup, dst: nat) returns (k: nat)
    requires WellFormed(setup)
    ensures k <= |setup.routes| && RuledBy(setup, k, dst)
  {
    k := 0;
    while k < |setup.routes| && !InSubnet(setup.routes[k].base, setup.routes[k].prefix, dst)
      invariant k <= |setup.routes|
      invariant forall j: nat :: j < k ==> !InSubnet(setup.routes[j].base, setup.routes[j].prefix, dst)
    {
      k := k + 1;
    }
  }

  lemma RulesAreRanges(setup: Setup, dst: nat)
    requires WellFormed(setup)
    ensures forall j: nat :: j < |setup.routes| ==>
              (Matches(setup.routes[j], dst) <==> InSubnet(setup.routes[j].base, setup.routes[j].prefix, dst))
  {
    forall j: nat | j < |setup.routes|
      ensures Matches(setup.routes[j], dst) <==> InSubnet(setup.routes[j].base, setup.routes[j].prefix, dst)
    {
      SameNetIsRange(setup.routes[j].base, dst, setup.routes[j].prefix);
    }
  }

  /** The first rule whose range has an address binds it, to the exit it names and no other; without one global
      mode binds it, to the exit that is configured, else to the host name of any exit that is listed. */
  lemma BindsExactly(setup: Setup, peers: View, dst: nat, k: nat, via: string)
    requires WellFormed(setup) && k <= |setup.routes| && RuledBy(setup, k, dst)
    ensures setup.Bound(dst) <==> k < |setup.routes| || setup.mode == Global
    ensures k < |setup.routes| ==> (setup.BoundFor(peers, dst, via) <==> via == setup.routes[k].via)
    ensures k == |setup.routes| && setup.mode == Global && setup.exitDevice != "" ==>
              (setup.BoundFor(peers, dst, via) <==> via == setup.exitDevice)
    ensures k == |setup.routes| && setup.mode == Global && setup.exitDevice == ""
            && (exists a <- peers :: peers[a].egress) ==>
              (setup.BoundFor(peers, dst, via) <==> exists a <- peers :: peers[a].egress && via == peers[a].hostname)
  {
    RulesAreRanges(setup, dst);
    if k < |setup.routes| {
      assert setup.FirstMatch(k, dst);
      forall i | setup.FirstMatch(i, dst)
        ensures i == k
      {
      }
    }
  }

  predicate IsV4(p: seq<byte>) { |p| >= 20 && 0x40 <= p[0] < 0x50 }

  /** What becomes of a packet from the interface: anything but IPv4 is skipped; a packet leaves unchanged if and
      only if it is for the subnet, or no rule's range has its destination and the mode is not global; any other
      leaves wrapped for an exit that is online and allowed to be one, or not at all. */
  lemma TurnsExactly(setup: Setup, peers: View, p: seq<byte>, r: Outbound, k: nat)
    requires WellFormed(setup) && setup.Turns(peers, p, r)
    requires |p| >= 20 ==> k <= |setup.routes| && RuledBy(setup, k, DstOf(p))
    ensures r == Skipped <==> !IsV4(p)
    ensures IsV4(p) ==>
              var local := InSubnet(setup.localIP, setup.prefix, DstOf(p));
              var bare := local || (k == |setup.routes| && setup.mode != Global);
              && (r == Sent(p) <==> bare)
              && (!bare ==>
                    r == Dropped
                    || exists ip <- peers :: peers[ip].egress && r == Sent(Encapsulated(p, setup.localIP, ip)))
  {
    if IsV4(p) {
      SameNetIsRange(setup.localIP, DstOf(p), setup.prefix);
      BindsExactly(setup, peers, DstOf(p), k, "");
    }
  }

  lemma BoundTurn(setup: Setup, peers: View, p: seq<byte>, r: Outbound, k: nat) returns (via: string)
    requires WellFormed(setup) && IsV4(p) && setup.Turns(peers, p, r) && k <= |setup.routes|
    requires RuledBy(setup, k, DstOf(p)) && !InSubnet(setup.localIP, setup.prefix, DstOf(p))
    requires k < |setup.routes| || setup.mode == Global
    ensures setup.BoundFor(peers, DstOf(p), via) && setup.Leaves(peers, p, via, r)
  {
    SameNetIsRange(setup.localIP, DstOf(p), setup.prefix);
    BindsExactly(setup, peers, DstOf(p), k, "");
    via :| setup.BoundFor(peers, DstOf(p), via) && setup.Leaves(peers, p, via, r);
  }

  lemma LeavesExactly(setup: Setup, peers: View, p: seq<byte>, via: string, r: Outbound)
    requires |p| >= 2 && setup.Leaves(peers, p, via, r)
    ensures r == Dropped <==> forall ip: nat :: !Serves(setup.spelled, peers, via, ip)
    ensures r != Dropped ==>
              exists ip: nat :: Serves(setup.spelled, peers, via, ip) && r == Sent(Encapsulated(p, setup.localIP, ip))
  {
  }

  /** A packet that leaves the subnet for the exit a rule or the configuration names is dropped if and only if no
      peer serves as that exit. */
  lemma DroppedExactly(setup: Setup, peers: View, p: seq<byte>, r: Outbound, k: nat, via: string)
    requires WellFormed(setup) && IsV4(p) && setup.Turns(peers, p, r) && k <= |setup.routes|
    requires RuledBy(setup, k, DstOf(p)) && !InSubnet(setup.localIP, setup.prefix, DstOf(p))
    requires if k < |setup.routes| then via == setup.routes[k].via
             else setup.mode == Global && via == setup.exitDevice != ""
    ensures r == Dropped <==> forall ip: nat :: !Serves(setup.spelled, peers, via, ip)
    ensures r != Dropped ==>
              exists ip: nat :: Serves(setup.spelled, peers, via, ip) && r == Sent(Encapsulated(p, setup.localIP, ip))
  {
    var other := BoundTurn(setup, peers, p, r, k);
    BindsExactly(setup, peers, DstOf(p), k, other);
    LeavesExactly(setup, peers, p, other, r);
  }

  /** What becomes of a packet from the server: what is not wrapped for this node goes to the interface as it is.
      What is wrapped for it is unwrapped; without an exit's stack it goes to the interface, with one it is
      answered if it asks for an echo and else handed to the stack. */
  lemma HandledExactly(packet: seq<byte>, localIP: nat, exit: bool)
    ensures var r, mine := Handle(packet, localIP, exit), WrappedFor(packet, localIP);
            && (r == ToTun(packet) <==> !mine)
            && (mine ==>
                  var inner := packet[20..];
                  && (r == ToTun(inner) <==> !exit)
                  && (r == ToStack(inner) <==> exit && !AsksEcho(inner))
                  && (r.ToServer? <==> exit && AsksEcho(inner)))
  {
    UnwrapsExactly(packet, localIP);
    if WrappedFor(packet, localIP) {
      RepliesExactly(packet[20..]);
    }
  }
}
