/** What one operation of the hub does, from any state its runs can reach: when a packet is routed, refused,
    lost or delivered and what each of these leaves behind; what a join and a change of grant make of a node
    (internal/server/hub.go: `Register`, `UpdateEgress`, `Relay`). */
module Relays {
  import opened Bytes
  import opened MapSum
  import opened Clock
  import opened Usage
  import L = Leases
  import opened Quotas
  import opened Registry
  import opened DeliveryLog
  import opened Server
  import opened HubRuns

  /** A live node: the one its key names. */
  predicate Live<R(==)>(s: State<R>, r: R) {
    && r in s.nodes
    && var key := KeyOf(s.nodes[r].info);
       key in s.tables.ipTable && s.tables.ipTable[key].ref == r
  }

  /** The live node of a network at an address. */
  predicate LiveAt<R(==)>(s: State<R>, network: string, ip: nat, r: R) {
    Live(s, r) && s.nodes[r].info.network == network && s.nodes[r].info.ip == ip
  }

  /** A live node is in the other index too. */
  lemma LiveIsListed<R>(s: State<R>, r: R)
    requires HubInv(s) && Live(s, r)
    ensures var info := s.nodes[r].info;
            info.ip in Nodes(s.tables, info.network) && Nodes(s.tables, info.network)[info.ip] == Entry(r, info)
  {
    var key := KeyOf(s.nodes[r].info);
    assert key.ip in Nodes(s.tables, key.network) <==> NetKey(key.network, key.ip) in s.tables.ipTable;
  }

  // ---- routing ----

  lemma TableIsLive<R>(s: State<R>, k: NetKey)
    requires HubInv(s) && k in s.tables.ipTable
    ensures LiveAt(s, k.network, k.ip, s.tables.ipTable[k].ref)
  {
  }

  /** A packet goes to `r` if and only if it has an IP header's length and `r` is the live node of the
      sender's network at its destination address; there is no route if and only if there is no such node. */
  lemma RoutedExactly<R>(s: State<R>, src: R, packet: seq<byte>, r: R)
    requires HubInv(s) && src in s.nodes
    ensures var route := RouteOf(s, src, packet);
            && (route == TooShort <==> |packet| < 20)
            && (route == To(r) <==> |packet| >= 20 && LiveAt(s, s.nodes[src].info.network, DstOf(packet), r))
            && (route == NoRoute <==>
                  |packet| >= 20 && forall x <- s.nodes :: !LiveAt(s, s.nodes[src].info.network, DstOf(packet), x))
  {
    RouteInAccount(s, src, packet);
    if |packet| >= 20 {
      var key := NetKey(s.nodes[src].info.network, DstOf(packet));
      if key in s.tables.ipTable {
        TableIsLive(s, key);
      }
    }
  }

  // ---- what becomes of a packet ----

  /** Who pays: the sender, on its exit lane if the packet is wrapped for an exit; but for a wrapped packet
      from an exit the device it goes to, unless that is an exit too. */
  predicate Pays(c: Charge, src: NodeState, dst: NodeState, packet: seq<byte>) {
    var wrapped := |packet| >= 40 && packet[9] == 4;
    && c.account == src.info.account == dst.info.account
    && (wrapped && dst.egress ==> c.device == src.info.device && c.exit == dst.info.device)
    && (wrapped && !dst.egress && src.egress ==> c.device == dst.info.device && c.exit == src.info.device)
    && (!wrapped || (!src.egress && !dst.egress) ==> c.device == src.info.device && c.exit == "")
  }

  /** A packet for a live node of the network is delivered to it, at the right charge, if and only if the
      charge has room and the write succeeds; without room it is blocked, whatever the write would do. */
  lemma OutcomeExactly<R>(s: State<R>, src: R, r: R, packet: seq<byte>, limits: Limits, t: Times, writeOk: bool,
                          c: Charge)
    requires HubInv(s) && src in s.nodes && |packet| >= 20
    requires LiveAt(s, s.nodes[src].info.network, DstOf(packet), r) && Pays(c, s.nodes[src], s.nodes[r], packet)
    ensures var room, o := HasRoom(s.quota, limits, c, |packet|, t.admit), Outcome(s, src, packet, limits, t, writeOk);
            && (o == Delivered(r, c) <==> room && writeOk)
            && (o == WriteError <==> room && !writeOk)
            && (o.Blocked? <==> !room)
            && !o.Failed?
  {
    RoutedExactly(s, src, packet, r);
    AdmittedExactly(s.quota, limits, c, |packet|, t.admit);
    ChargeIsOne(s, src, r, packet, c);
  }

  lemma ChargeIsOne<R>(s: State<R>, src: R, r: R, packet: seq<byte>, c: Charge)
    requires src in s.nodes && r in s.nodes && Pays(c, s.nodes[src], s.nodes[r], packet)
    ensures Attribute(s.nodes[src], s.nodes[r], Proxied(packet)) == c
  {
  }

  /** A packet that fails, is blocked or cannot be written leaves nodes, leases, tables, ledger and history
      alone, and every counter as a later reader sees it. */
  lemma UndeliveredChangesNothing<R>(s: State<R>, src: R, packet: seq<byte>, limits: Limits, t: Times, writeOk: bool,
                                     lane: Lane, later: nat)
    requires src in s.nodes && TablesKnown(s) && !Outcome(s, src, packet, limits, t, writeOk).Delivered?
    requires s.quota.day <= DayOf(t.admit) && t.admit <= later
    ensures var s' := Relayed(s, src, packet, limits, t, writeOk);
            && s'.nodes == s.nodes && s'.store == s.store && s'.tables == s.tables
            && s'.ledger == s.ledger && s'.saved == s.saved && s'.log == s.log && s'.savedLog == s.savedLog
            && Used(s'.quota, lane, later) == Used(s.quota, lane, later)
  {
    DayMonotone(t.admit, later);
  }

  /** Before and after the delivery of `n` bytes: the sender's receive meter and the addressee's send meter
      grow by them, nothing else about any node changes. */
  predicate MetersMove<R(==)>(nodes: map<R, NodeState>, nodes': map<R, NodeState>, src: R, dst: R, n: nat) {
    && nodes'.Keys == nodes.Keys
    && forall x <- nodes ::
         && nodes'[x].info == nodes[x].info && nodes'[x].egress == nodes[x].egress && nodes'[x].acl == nodes[x].acl
         && nodes'[x].rx == nodes[x].rx + (if x == src then n else 0)
         && nodes'[x].tx == nodes[x].tx + (if x == dst then n else 0)
  }

  lemma MeteredMoves<R>(nodes: map<R, NodeState>, src: R, dst: R, n: nat)
    requires src in nodes && dst in nodes
    ensures MetersMove(nodes, Metered(nodes, src, dst, n), src, dst, n)
  {
  }

  /** A delivered packet moves the two meters by its length, and nothing of leases and tables. */
  lemma DeliveredIsMetered<R>(s: State<R>, src: R, packet: seq<byte>, limits: Limits, t: Times)
    requires src in s.nodes && TablesKnown(s) && Outcome(s, src, packet, limits, t, true).Delivered?
    ensures var o, s' := Outcome(s, src, packet, limits, t, true), Relayed(s, src, packet, limits, t, true);
            && MetersMove(s.nodes, s'.nodes, src, o.dst, |packet|)
            && s'.store == s.store && s'.tables == s.tables && s'.saved == s.saved && s'.savedLog == s.savedLog
  {
    MeteredMoves(s.nodes, src, Outcome(s, src, packet, limits, t, true).dst, |packet|);
  }

  /** It moves the ledger's tx column by its length, in the bucket of its charge at the hour it is booked. */
  lemma DeliveredIsBooked<R>(s: State<R>, src: R, packet: seq<byte>, limits: Limits, t: Times, q: Query, from: int)
    requires src in s.nodes && TablesKnown(s) && Outcome(s, src, packet, limits, t, true).Delivered?
    ensures var c, s' := Outcome(s, src, packet, limits, t, true).charge, Relayed(s, src, packet, limits, t, true);
            && Total(s'.ledger, Rx, q, from) == Total(s.ledger, Rx, q, from)
            && Total(s'.ledger, Tx, q, from)
               == Total(s.ledger, Tx, q, from)
                  + if Selects(q, from, Bucket(c.account, c.device, c.exit, HourStart(t.add))) then |packet| else 0
  {
    var c := Outcome(s, src, packet, limits, t, true).charge;
    var b := Bucket(c.account, c.device, c.exit, HourStart(t.add));
    AddedTotal(s.ledger, b, 0, |packet|, Rx, q, from);
    AddedTotal(s.ledger, b, 0, |packet|, Tx, q, from);
  }

  /** And it moves exactly the counters it is charged to, if the payer has a limit of any kind. */
  lemma DeliveredIsCounted<R>(s: State<R>, src: R, packet: seq<byte>, limits: Limits, t: Times, lane: Lane)
    requires src in s.nodes && TablesKnown(s) && Outcome(s, src, packet, limits, t, true).Delivered?
    requires s.quota.day <= DayOf(t.admit) && t.admit <= t.inc
    ensures var c, s' := Outcome(s, src, packet, limits, t, true).charge, Relayed(s, src, packet, limits, t, true);
            var limited := limits.For(c.account).bytesPerDay > 0 || limits.For(c.account).egressBytesPerDay > 0;
            Used(s'.quota, lane, t.inc) == Used(s.quota, lane, t.inc) + if limited && On(c, lane) then |packet| else 0
  {
    DayMonotone(t.admit, t.inc);
  }

  lemma SameNetwork<R>(s: State<R>, a: R, b: R)
    requires HubInv(s) && a in s.nodes && b in s.nodes && s.nodes[a].info.account == s.nodes[b].info.account
    ensures s.nodes[a].info.network == s.nodes[b].info.network
  {
    assert Owns(s.store, s.nodes[a].info) && Owns(s.store, s.nodes[b].info);
  }

  /** A device's own charge, on its account's pool and no lane. */
  function OwnCharge(n: NodeInfo): Charge { Charge(n.account, n.device, "") }

  /** An unwrapped packet to a device online in the sender's account. */
  predicate MeshPacket<R(==)>(s: State<R>, src: R, r: R, packet: seq<byte>) {
    && src in s.nodes && Live(s, r) && s.nodes[r].info.account == s.nodes[src].info.account
    && |packet| >= 20 && DstOf(packet) == s.nodes[r].info.ip && (packet[9] != 4 || |packet| < 40)
  }

  /** It has arrived: both meters have moved, and the history has it between the two devices, at the sender's
      own charge. */
  predicate Arrived<R(==)>(s: State<R>, s': State<R>, src: R, r: R, n: nat)
    requires src in s.nodes && r in s.nodes
  {
    && MetersMove(s.nodes, s'.nodes, src, r, n)
    && |s'.log| == |s.log| + 1 && s'.log[..|s.log|] == s.log
    && var d := s'.log[|s.log|];
       && d.n == n && d.src == s.nodes[src].info.device && d.dst == s.nodes[r].info.device
       && d.charge == OwnCharge(s.nodes[src].info)
  }

  lemma MeshRelay<R>(s: State<R>, src: R, r: R, packet: seq<byte>, limits: Limits, t: Times)
    requires HubInv(s) && MeshPacket(s, src, r, packet)
    requires HasRoom(s.quota, limits, OwnCharge(s.nodes[src].info), |packet|, t.admit)
    ensures Outcome(s, src, packet, limits, t, true) == Delivered(r, OwnCharge(s.nodes[src].info))
    ensures Arrived(s, Relayed(s, src, packet, limits, t, true), src, r, |packet|)
  {
    SameNetwork(s, src, r);
    OutcomeExactly(s, src, r, packet, limits, t, true, OwnCharge(s.nodes[src].info));
    DeliveredIsMetered(s, src, packet, limits, t);
  }

  /** In any run: a packet to a device online in the sender's account, not wrapped, that has room in the
      account's pool and is written, reaches that device, whoever of the two is an exit. */
  lemma MeshPacketArrives<R>(net: L.Net, now: nat, es: seq<Event<R>>, src: R, r: R, packet: seq<byte>,
                             limits: Limits, t: Times)
    requires net.Valid() && net.prefix >= 1
    requires var s := Run(Initial<R>(net, now), es);
             && Possible(s, Relay(src, packet, limits, t, true)) && MeshPacket(s, src, r, packet)
             && HasRoom(s.quota, limits, OwnCharge(s.nodes[src].info), |packet|, t.admit)
    ensures var s, e := Run(Initial<R>(net, now), es), Relay(src, packet, limits, t, true);
            Arrived(s, Run(Initial<R>(net, now), es + [e]), src, r, |packet|)
  {
    RunKeepsHub(net, now, es);
    MeshRelay(Run(Initial<R>(net, now), es), src, r, packet, limits, t);
    RunOneMore(Initial<R>(net, now), es, Relay(src, packet, limits, t, true));
  }

  // ---- what becomes of a node ----

  /** A device that is given an address enters as the live node there, with what its hello says of it and
      empty meters, and is an exit if and only if it asked to be one and its record allows it. */
  predicate Entered<R(==)>(s: State<R>, ref: R, h: Hello, ip: nat) {
    && LiveAt(s, h.account, ip, ref)
    && var n := s.nodes[ref];
       && (n.egress <==> h.asks && h.enabled) && n.acl == h.acl && n.rx == n.tx == 0
       && n.info.device == h.device && n.info.account == h.account
       && n.info.hostname == h.hostname && n.info.os == h.os
  }

  lemma JoinedShape<R>(s: State<R>, ref: R, h: Hello, saveOk: bool)
    requires HubInv(s) && Possible(s, Join(ref, h, saveOk))
    requires L.Answer(s.store, NetworkOf(h), h.device, saveOk).Leased?
    ensures var s', info := Joined(s, ref, h, saveOk), InfoFor(h, L.Answer(s.store, NetworkOf(h), h.device, saveOk).ip);
            && s'.tables.ipTable == s.tables.ipTable[KeyOf(info) := Entry(ref, info)]
            && s'.nodes == s.nodes[ref := NodeState(info, h.Egress(), h.acl, 0, 0)]
  {
    RegisteredAgrees(s.tables, Entry(ref, InfoFor(h, L.Answer(s.store, NetworkOf(h), h.device, saveOk).ip)));
  }

  lemma NobodyJoins<R>(s: State<R>, ref: R, h: Hello, saveOk: bool)
    requires !L.Answer(s.store, NetworkOf(h), h.device, saveOk).Leased?
    ensures var s' := Joined(s, ref, h, saveOk); s'.nodes == s.nodes && s'.tables == s.tables
  {
  }

  /** A join enters its node and leaves every other node object alone; without an address nobody enters. */
  lemma JoinEnters<R>(s: State<R>, ref: R, h: Hello, saveOk: bool)
    requires HubInv(s) && Possible(s, Join(ref, h, saveOk))
    ensures var s', answer := Joined(s, ref, h, saveOk), L.Answer(s.store, h.account, h.device, saveOk);
            && (answer.Leased? ==> Entered(s', ref, h, answer.ip) && s'.nodes.Keys == s.nodes.Keys + {ref})
            && (!answer.Leased? ==> s'.nodes == s.nodes && s'.tables == s.tables)
            && forall r <- s.nodes :: s'.nodes[r] == s.nodes[r]
  {
    var answer := L.Answer(s.store, h.account, h.device, saveOk);
    if answer.Leased? {
      JoinedShape(s, ref, h, saveOk);
    } else {
      NobodyJoins(s, ref, h, saveOk);
    }
  }

  lemma Replaces<R>(s: State<R>, s': State<R>, info: NodeInfo, ref: R, n: NodeState, r: R)
    requires r in s.nodes && ref !in s.nodes
    requires s'.tables.ipTable == s.tables.ipTable[KeyOf(info) := Entry(ref, info)] && s'.nodes == s.nodes[ref := n]
    ensures Live(s', r) <==> Live(s, r) && KeyOf(s.nodes[r].info) != KeyOf(info)
  {
  }

  /** Of the live nodes only the one at the new one's address gives way. */
  lemma JoinReplaces<R>(s: State<R>, ref: R, h: Hello, saveOk: bool, r: R)
    requires HubInv(s) && Possible(s, Join(ref, h, saveOk)) && r in s.nodes
    ensures var answer := L.Answer(s.store, h.account, h.device, saveOk);
            Live(Joined(s, ref, h, saveOk), r)
            <==> Live(s, r) && (answer.Leased? ==> KeyOf(s.nodes[r].info) != NetKey(h.account, answer.ip))
  {
    var answer := L.Answer(s.store, h.account, h.device, saveOk);
    if answer.Leased? {
      JoinedShape(s, ref, h, saveOk);
      var info := InfoFor(h, answer.ip);
      Replaces(s, Joined(s, ref, h, saveOk), info, ref, NodeState(info, h.Egress(), h.acl, 0, 0), r);
    } else {
      NobodyJoins(s, ref, h, saveOk);
    }
  }

  lemma LeftShape<R>(s: State<R>, node: R)
    requires Agree(s.tables) && node in s.nodes
    ensures var s', key := Left(s, node), KeyOf(s.nodes[node].info);
            && s'.nodes == s.nodes
            && s'.tables.ipTable
               == if key in s.tables.ipTable && s.tables.ipTable[key].ref == node then s.tables.ipTable - {key}
                  else s.tables.ipTable
  {
    RemovedAgrees(s.tables, Entry(node, s.nodes[node].info));
  }

  lemma TakenOut<R>(s: State<R>, s': State<R>, node: R, r: R)
    requires node in s.nodes && s'.nodes == s.nodes
    requires var key := KeyOf(s.nodes[node].info);
             s'.tables.ipTable
             == if key in s.tables.ipTable && s.tables.ipTable[key].ref == node then s.tables.ipTable - {key}
                else s.tables.ipTable
    ensures Live(s', r) <==> Live(s, r) && r != node
  {
  }

  /** A leave takes its node out of the tables, if it is still there, and no other. */
  lemma LeaveTakesOut<R>(s: State<R>, node: R, r: R)
    requires Agree(s.tables) && node in s.nodes
    ensures var s' := Left(s, node); s'.nodes == s.nodes && (Live(s', r) <==> Live(s, r) && r != node)
  {
    LeftShape(s, node);
    TakenOut(s, Left(s, node), node, r);
  }

  /** A change of grant sets the grant and the access list of the one node at its key. */
  lemma GrantSets<R>(s: State<R>, key: NetKey, enabled: bool, acl: set<string>)
    requires TablesKnown(s) && key in s.tables.ipTable
    ensures var s', x := EgressSet(s, key, enabled, acl), s.tables.ipTable[key].ref;
            && s'.store == s.store && s'.tables == s.tables && s'.quota == s.quota && s'.ledger == s.ledger
            && s'.log == s.log && s'.nodes.Keys == s.nodes.Keys
            && (s'.nodes[x].egress <==> enabled) && s'.nodes[x].acl == acl
            && s'.nodes[x].info == s.nodes[x].info && s'.nodes[x].rx == s.nodes[x].rx && s'.nodes[x].tx == s.nodes[x].tx
            && forall r <- s.nodes :: r != x ==> s'.nodes[r] == s.nodes[r]
  {
  }
}
