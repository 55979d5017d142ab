/** The hub object: nodes, the two indexes, registration, broadcasts and the relay of data packets, each
    operation proved to be the corresponding step of the server machine (internal/server/hub.go). */
module Hubs {
  import opened Bytes
  import opened Clock
  import opened Usage
  import L = Leases
  import opened LeaseStores
  import opened Quotas
  import opened Registry
  import opened DeliveryLog
  import S = Server
  import P = Peers
  import M = Membership
  import A = Attribution

  datatype Message = Data(packet: seq<byte>) | Control(ctrl: P.Ctrl)

  /** One node object per connection; `sent` is what has been written to the connection. */
  class Node {
    const info: NodeInfo
    var egress: bool
    var acl: set<string>
    var rx: int
    var tx: int
    var quotaNotified: bool
    var sent: seq<Message>

    constructor (info: NodeInfo, egress: bool, acl: set<string>)
      ensures this.info == info && this.egress == egress && this.acl == acl
      ensures rx == 0 && tx == 0 && !quotaNotified && sent == []
    {
      this.info, this.egress, this.acl := info, egress, acl;
      rx, tx, quotaNotified, sent := 0, 0, false, [];
    }
  }

  function EntryOf(n: Node): Entry<Node> { Entry(n, n.info) }

  function Entries(nodes: map<nat, Node>): map<nat, Entry<Node>> { map ip | ip in nodes :: EntryOf(nodes[ip]) }

  function Nets(networks: map<string, map<nat, Node>>): map<string, map<nat, Entry<Node>>> {
    map n | n in networks :: Entries(networks[n])
  }

  function TablesOf(ipTable: map<NetKey, Node>, networks: map<string, map<nat, Node>>): Tables<Node> {
    Tables(map k | k in ipTable :: EntryOf(ipTable[k]), Nets(networks))
  }

  lemma NetsUpdate(networks: map<string, map<nat, Node>>, n: string, nodes: map<nat, Node>)
    ensures Nets(networks[n := nodes]) == Nets(networks)[n := Entries(nodes)]
  {
  }

  lemma EntriesRemove(nodes: map<nat, Node>, ip: nat, rest: map<nat, Node>)
    requires rest == nodes - {ip}
    ensures Entries(rest) == Entries(nodes) - {ip}
  {
  }

  lemma EntriesPut(nodes: map<nat, Node>, ip: nat, n: Node)
    ensures Entries(nodes[ip := n]) == Entries(nodes)[ip := EntryOf(n)]
  {
  }

  lemma TablesRemove(ipTable: map<NetKey, Node>, networks: map<string, map<nat, Node>>, key: NetKey)
    ensures TablesOf(ipTable - {key}, networks).ipTable == TablesOf(ipTable, networks).ipTable - {key}
  {
  }

  lemma TablesPut(ipTable: map<NetKey, Node>, networks: map<string, map<nat, Node>>, key: NetKey, n: Node)
    ensures TablesOf(ipTable[key := n], networks).ipTable == TablesOf(ipTable, networks).ipTable[key := EntryOf(n)]
  {
  }

  function InNet(networks: map<string, map<nat, Node>>, network: string): map<nat, Node> {
    if network in networks then networks[network] else map[]
  }

  lemma InNetEntries(ipTable: map<NetKey, Node>, networks: map<string, map<nat, Node>>, network: string)
    ensures Nodes(TablesOf(ipTable, networks), network) == Entries(InNet(networks, network))
  {
  }

  lemma RecipientsAre(ipTable: map<NetKey, Node>, networks: map<string, map<nat, Node>>, network: string, except: nat)
    ensures M.Recipients(TablesOf(ipTable, networks), network, except)
            == set ip | ip in InNet(networks, network) && ip != except :: InNet(networks, network)[ip]
  {
    InNetEntries(ipTable, networks, network);
    var nodes, t := InNet(networks, network), TablesOf(ipTable, networks);
    forall n | n in M.Recipients(t, network, except)
      ensures exists ip :: ip in nodes && ip != except && nodes[ip] == n
    {
      var ip :| ip in Nodes(t, network) && ip != except && Nodes(t, network)[ip].ref == n;
      assert nodes[ip] == n;
    }
    forall ip | ip in nodes && ip != except
      ensures nodes[ip] in M.Recipients(t, network, except)
    {
      assert Nodes(t, network)[ip].ref == nodes[ip];
    }
  }

  /** The peer entries of some nodes, under given grants. */
  ghost function PeersIn(nodes: map<nat, Node>, grants: map<Node, bool>, except: nat): P.View {
    map a | a in nodes && a != except :: M.PeerOf(nodes[a].info, nodes[a] in grants && grants[nodes[a]])
  }

  lemma PeersInOneMore(nodes: map<nat, Node>, grants: map<Node, bool>, except: nat, ip: nat, n: Node)
    ensures PeersIn(nodes[ip := n], grants, except)
            == if ip == except then PeersIn(nodes, grants, except)
               else PeersIn(nodes, grants, except)[ip := M.PeerOf(n.info, n in grants && grants[n])]
  {
  }

  lemma OthersAre(ipTable: map<NetKey, Node>, networks: map<string, map<nat, Node>>, grants: map<Node, bool>,
                  network: string, except: nat)
    ensures M.OthersOnline(TablesOf(ipTable, networks), grants, network, except)
            == PeersIn(InNet(networks, network), grants, except)
  {
    InNetEntries(ipTable, networks, network);
  }

  ghost function StateOf(n: Node): S.NodeState
    reads n`egress, n`acl, n`rx, n`tx
  {
    S.NodeState(n.info, n.egress, n.acl, n.rx, n.tx)
  }

  class Hub {
    const leases: LeaseStore
    const usage: UsageStore
    const quota: QuotaTrk
    var ipTable: map<NetKey, Node>
    var networks: map<string, map<nat, Node>>
    ghost var created: set<Node>
    ghost var log: seq<Delivery>
    ghost var clock: nat

    ghost function NodeStates(): map<Node, S.NodeState>
      reads this`created, created`egress, created`acl, created`rx, created`tx
    {
      map n | n in created :: StateOf(n)
    }

    /** The server machine's state this object graph stands for, between two restarts. */
    ghost function View(): S.State<Node>
      reads this, leases, usage, quota, created`egress, created`acl, created`rx, created`tx
    {
      S.State(leases.View(), TablesOf(ipTable, networks), NodeStates(),
              quota.View(), usage.buckets, map[], log, [], 0, clock)
    }

    ghost predicate Valid()
      reads this, leases
    {
      && leases.Valid()
      && (forall k <- ipTable :: ipTable[k] in created)
      && (forall n <- networks :: forall ip <- networks[n] ::
            networks[n][ip] in created && networks[n][ip].info.ip == ip)
    }

    constructor (leases: LeaseStore, usage: UsageStore, quota: QuotaTrk)
      requires leases.Valid()
      ensures Valid() && this.leases == leases && this.usage == usage && this.quota == quota
      ensures ipTable == map[] && networks == map[] && created == {}
    {
      this.leases, this.usage, this.quota := leases, usage, quota;
      ipTable, networks := map[], map[];
      created, log, clock := {}, [], 0;
    }

    method RemoveLocked(node: Node)
      requires Valid()
      modifies this`ipTable, this`networks
      ensures Valid()
      ensures TablesOf(ipTable, networks) == Removed(old(TablesOf(ipTable, networks)), EntryOf(node))
    {
      var key := KeyOf(node.info);
      if key in ipTable && ipTable[key] == node {
        TablesRemove(ipTable, networks, key);
        ipTable := ipTable - {key};
      }
      if node.info.network in networks {
        var nodes := networks[node.info.network];
        if node.info.ip in nodes && nodes[node.info.ip] == node {
          var rest: map<nat, Node> := nodes - {node.info.ip};
          EntriesRemove(nodes, node.info.ip, rest);
          NetsUpdate(networks, node.info.network, rest);
          networks := networks[node.info.network := rest];
        }
      }
    }

    /** Everyone this hub knows is in the node map of its view. */
    lemma ViewIsKnown()
      requires Valid()
      ensures S.TablesKnown(View())
    {
    }

    /** Enters a node in both indexes, an older node of the same device first taken out. */
    method Enter(node: Node)
      requires Valid() && node in created
      modifies this`ipTable, this`networks
      ensures Valid()
      ensures TablesOf(ipTable, networks) == Registered(old(TablesOf(ipTable, networks)), EntryOf(node))
    {
      var key := KeyOf(node.info);
      if key in ipTable && ipTable[key].info.device == node.info.device {
        RemoveLocked(ipTable[key]);
      }
      var nodes: map<nat, Node> := if node.info.network in networks then networks[node.info.network] else map[];
      EntriesPut(nodes, node.info.ip, node);
      NetsUpdate(networks, node.info.network, nodes[node.info.ip := node]);
      TablesPut(ipTable, networks, key, node);
      networks := networks[node.info.network := nodes[node.info.ip := node]];
      ipTable := ipTable[key := node];
    }

    lemma JoinParts(v: S.State<Node>, v': S.State<Node>, n: Node, h: S.Hello, ip: nat)
      requires L.Answer(v.store, S.NetworkOf(h), h.device, true) == L.Leased(ip)
               || L.Answer(v.store, S.NetworkOf(h), h.device, false) == L.Leased(ip)
      requires n.info == S.InfoFor(h, ip)
      requires v'.tables == Registered(v.tables, EntryOf(n))
      requires v'.nodes == v.nodes[n := S.NodeState(n.info, h.Egress(), h.acl, 0, 0)]
      requires v' == v.(store := v'.store, tables := v'.tables, nodes := v'.nodes)
      ensures forall saveOk: bool ::
                L.Answer(v.store, S.NetworkOf(h), h.device, saveOk) == L.Leased(ip)
                && v'.store == L.Allocated(v.store, S.NetworkOf(h), h.account, h.device, saveOk)
                ==> v' == S.Joined(v, n, h, saveOk)
    {
    }

    /** Creates and enters the node object of a new connection. */
    method NewNode(info: NodeInfo, egress: bool, acl: set<string>) returns (n: Node)
      requires Valid()
      modifies this`ipTable, this`networks, this`created
      ensures Valid()
      ensures fresh(n) && created == old(created) + {n} && n.info == info && n.sent == []
      ensures NodeStates() == old(NodeStates())[n := S.NodeState(info, egress, acl, 0, 0)]
      ensures TablesOf(ipTable, networks) == Registered(old(TablesOf(ipTable, networks)), Entry(n, info))
    {
      n := new Node(info, egress, acl);
      created := created + {n};
      Enter(n);
    }

    method Register(h: S.Hello, saveOk: bool) returns (node: Node?)
      requires Valid()
      modifies this`ipTable, this`networks, this`created, leases
      ensures Valid()
      ensures node != null ==> fresh(node) && created == old(created) + {node} && node.sent == []
      ensures node != null ==> View() == S.Joined(old(View()), node, h, saveOk)
      ensures node == null ==> created == old(created)
      ensures node == null ==> !L.Answer(old(leases.View()), S.NetworkOf(h), h.device, saveOk).Leased?
      ensures node == null ==> View() == old(View()).(store := leases.View())
      ensures leases.View() == L.Allocated(old(leases.View()), S.NetworkOf(h), h.account, h.device, saveOk)
    {
      ghost var v := View();
      var lease := leases.Allocate(S.NetworkOf(h), h.account, h.device, saveOk);
      if !lease.Leased? {
        return null;
      }
      var info := NodeInfo(h.device, h.account, S.NetworkOf(h), lease.ip, h.hostname, h.os);
      var n := NewNode(info, h.Egress(), h.acl);
      JoinParts(v, View(), n, h, lease.ip);
      return n;
    }

    /** The peers a Welcome lists: everyone online in the network but the joining node. */
    method WelcomePeers(node: Node) returns (peers: P.View)
      requires Valid()
      ensures peers == M.OthersOnline(TablesOf(ipTable, networks), Grants(), node.info.network, node.info.ip)
    {
      peers := map[];
      var nodes := InNet(networks, node.info.network);
      var rest := nodes;
      ghost var done: map<nat, Node> := map[];
      while rest != map[]
        invariant forall ip <- rest :: ip in nodes && rest[ip] == nodes[ip]
        invariant forall ip <- nodes :: ip in rest || (ip in done && done[ip] == nodes[ip])
        invariant forall ip <- done :: ip in nodes
        invariant peers == PeersIn(done, Grants(), node.info.ip)
        decreases |rest|
      {
        var ip :| ip in rest;
        var p := rest[ip];
        PeersInOneMore(done, Grants(), node.info.ip, ip, p);
        if p.info.ip != node.info.ip {
          peers := peers[ip := P.PeerInfo(p.info.ip, p.info.hostname, p.info.os, p.egress)];
        }
        done := done[ip := p];
        rest := rest - {ip};
      }
      assert done == nodes;
      OthersAre(ipTable, networks, Grants(), node.info.network, node.info.ip);
    }

    ghost function Grants(): map<Node, bool>
      reads this`created, created`egress
    {
      map n | n in created :: n.egress
    }

    /** Sends a control message to everyone online in the network but the node at `except`. */
    method BroadcastCtrl(network: string, m: P.Ctrl, except: nat)
      requires Valid()
      modifies created`sent
      ensures forall n <- created ::
                n.sent == old(n.sent)
                          + if n in M.Recipients(TablesOf(ipTable, networks), network, except)
                            then [Control(m)] else []
    {
      RecipientsAre(ipTable, networks, network, except);
      if network !in networks {
        return;
      }
      var nodes := networks[network];
      var targets := set ip | ip in nodes && ip != except :: nodes[ip];
      var rest := targets;
      while rest != {}
        invariant rest <= targets <= created
        invariant forall n <- created :: n.sent == old(n.sent) + if n in targets && n !in rest then [Control(m)] else []
        decreases rest
      {
        var n :| n in rest;
        n.sent := n.sent + [Control(m)];
        rest := rest - {n};
      }
    }

    /** Tells the others that a node has joined. */
    method NotifyPeerJoined(node: Node)
      requires Valid()
      modifies created`sent
      ensures forall n <- created ::
                n.sent == old(n.sent)
                          + if n in M.Recipients(TablesOf(ipTable, networks), node.info.network, node.info.ip)
                            then [Control(P.PeerJoin(M.PeerOf(node.info, node.egress)))] else []
    {
      var peer := P.PeerInfo(node.info.ip, node.info.hostname, node.info.os, node.egress);
      BroadcastCtrl(node.info.network, P.PeerJoin(peer), node.info.ip);
    }

    /** Takes a node out, if it is still there, and tells the others in any case. */
    method Unregister(node: Node)
      requires Valid() && node in created
      modifies this`ipTable, this`networks, created`sent
      ensures Valid() && View() == S.Left(old(View()), node)
      ensures forall n <- created ::
                n.sent == old(n.sent)
                          + if n in M.Recipients(TablesOf(ipTable, networks), node.info.network, node.info.ip)
                            then [Control(P.PeerLeave(node.info.ip))] else []
    {
      RemoveLocked(node);
      BroadcastCtrl(node.info.network, P.PeerLeave(node.info.ip), node.info.ip);
    }

    /** Changes the exit grant of one online node of the device, if there is one. */
    method UpdateEgress(device: string, enabled: bool, acl: set<string>) returns (ok: bool, ghost key: NetKey)
      requires Valid()
      modifies created`egress, created`acl
      ensures ok ==> key in ipTable && ipTable[key].info.device == device
      ensures ok ==> S.TablesKnown(old(View())) && View() == S.EgressSet(old(View()), key, enabled, acl)
      ensures !ok ==> View() == old(View()) && forall k <- ipTable :: ipTable[k].info.device != device
    {
      ViewIsKnown();
      var rest := ipTable.Keys;
      key := NetKey("", 0);
      while rest != {}
        invariant rest <= ipTable.Keys
        invariant forall k <- ipTable :: k in rest || ipTable[k].info.device != device
        decreases rest
      {
        var k :| k in rest;
        if ipTable[k].info.device == device {
          var n := ipTable[k];
          n.egress := enabled;
          n.acl := acl;
          key := k;
          return true, key;
        }
        rest := rest - {k};
      }
      return false, key;
    }

    /** Where a packet goes, under the exit access list. */
    method Lookup(packet: seq<byte>, src: Node) returns (route: S.Route<Node>)
      requires Valid() && src in created && S.TablesKnown(View())
      ensures route == S.RouteOf(View(), src, packet)
      ensures route.To? ==> route.dst in created
    {
      if |packet| < 20 {
        return S.TooShort;
      }
      var key := NetKey(src.info.network, Get32(packet[16], packet[17], packet[18], packet[19]));
      if key !in ipTable {
        return S.NoRoute;
      }
      var dst := ipTable[key];
      if dst.egress && dst.info.account != src.info.account && src.info.account !in dst.acl {
        return S.Denied;
      }
      return S.To(dst);
    }

    /** Who pays for it. */
    method Bill(packet: seq<byte>, src: Node, dst: Node) returns (c: Charge)
      ensures c == S.Attribute(StateOf(src), StateOf(dst), S.Proxied(packet))
    {
      var proxied := |packet| >= 40 && packet[9] == S.IPIP;
      var account, device, exit := src.info.account, src.info.device, "";
      if dst.egress {
        if proxied {
          exit := dst.info.device;
        }
      } else if src.egress && proxied {
        account, device := dst.info.account, dst.info.device;
        exit := src.info.device;
      }
      return Charge(account, device, exit);
    }

    /** A quota notice: the account's day total, the traffic the device served as an exit, and the limits. */
    ghost function NoticeFor(node: Node, now: nat): Message
      reads this, usage, quota
    {
      Control(A.NoticeOf(usage.buckets, quota.limits, node.info.account, node.info.device, now))
    }

    method SendQuotaNotice(node: Node, now: nat)
      modifies node`sent
      ensures node.sent == old(node.sent) + [NoticeFor(node, now)]
    {
      var since := Midnight(now);
      var t := usage.Totals(node.info.account, since);
      var e := usage.EgressTotals(node.info.device, since);
      var spec := quota.limits.For(node.info.account);
      var notice := P.QuotaNotice(t.rx + t.tx, spec.bytesPerDay, e.rx + e.tx, spec.egressBytesPerDay);
      node.sent := node.sent + [Control(notice)];
    }

    /** Counts a forwarded packet on both nodes. */
    method Meter(src: Node, dst: Node, n: nat)
      requires src in created && dst in created
      modifies src`rx, dst`tx
      ensures NodeStates() == S.Metered(old(NodeStates()), src, dst, n)
    {
      src.rx := src.rx + n;
      dst.tx := dst.tx + n;
    }

    /** Counts a forwarded packet in the quota counters and in the ledger. */
    method Book(c: Charge, n: nat, t: S.Times)
      modifies quota`day, quota`acctBy, quota`egressBy, usage
      ensures quota.View() == Inc(old(quota.View()), quota.limits, c, n, t.inc)
      ensures usage.buckets == Added(old(usage.buckets), Bucket(c.account, c.device, c.exit, HourStart(t.add)), 0, n)
    {
      quota.IncPacket(c, n, t.inc);
      usage.Add(c.account, c.device, c.exit, 0, n, t.add);
    }

    /** Writes the packet to its destination and counts it: on both nodes, in the quota counters, in the
        ledger. */
    method Forward(packet: seq<byte>, src: Node, dst: Node, c: Charge, t: S.Times)
      requires src in created && dst in created
      modifies quota`day, quota`acctBy, quota`egressBy, usage, dst`sent, src`rx, dst`tx
      ensures NodeStates() == S.Metered(old(NodeStates()), src, dst, |packet|)
      ensures quota.View() == Inc(old(quota.View()), quota.limits, c, |packet|, t.inc)
      ensures usage.buckets
              == Added(old(usage.buckets), Bucket(c.account, c.device, c.exit, HourStart(t.add)), 0, |packet|)
      ensures dst.sent == old(dst.sent) + [Data(packet)]
    {
      dst.sent := dst.sent + [Data(packet)];
      Meter(src, dst, |packet|);
      Book(c, |packet|, t);
    }

    /** Refuses a packet, announcing it to the sender the first time. */
    method Refuse(src: Node, now: nat)
      modifies src`quotaNotified, src`sent
      ensures src.quotaNotified
      ensures src.sent == old(src.sent) + if old(src.quotaNotified) then [] else [NoticeFor(src, now)]
      ensures NodeStates() == old(NodeStates())
    {
      if !src.quotaNotified {
        src.quotaNotified := true;
        SendQuotaNotice(src, now);
      }
    }

    method Admits(c: Charge, n: int, now: nat) returns (verdict: Verdict)
      modifies quota`day, quota`acctBy, quota`egressBy
      ensures verdict == Admit(old(quota.View()), quota.limits, c, n, now)
      ensures View() == old(View()).(quota := Rolled(old(quota.View()), now))
    {
      verdict := quota.AdmitPacket(c, n, now);
    }

    /** Lookup, attribution and admission; only the counters' day may change. */
    method Decide(packet: seq<byte>, src: Node, t: S.Times, writeOk: bool) returns (r: S.Result<Node>)
      requires Valid() && src in created && S.TablesKnown(View())
      modifies quota`day, quota`acctBy, quota`egressBy
      ensures r == S.Outcome(old(View()), src, packet, quota.limits, t, writeOk)
      ensures View()
              == old(View()).(quota := if r.Failed? then old(quota.View()) else Rolled(old(quota.View()), t.admit))
      ensures r.Delivered? ==> r.dst in created
    {
      var route := Lookup(packet, src);
      if !route.To? {
        return S.Failed(route);
      }
      var c := Bill(packet, src, route.dst);
      var verdict := Admits(c, |packet|, t.admit);
      if !verdict.Admitted? {
        return S.Blocked(verdict);
      }
      return if writeOk then S.Delivered(route.dst, c) else S.WriteError;
    }

    lemma EffectInParts(v: S.State<Node>, v': S.State<Node>, r: S.Result<Node>, src: Node, packet: seq<byte>,
                        limits: Limits, t: S.Times)
      requires r.Delivered? ==> src in v.nodes && r.dst in v.nodes
      requires v'.now == t.add
      requires v' == v.(nodes := v'.nodes, quota := v'.quota, ledger := v'.ledger, log := v'.log, now := t.add)
      requires v'.nodes == if r.Delivered? then S.Metered(v.nodes, src, r.dst, |packet|) else v.nodes
      requires v'.quota == if r.Failed? then v.quota
                           else if r.Delivered? then Inc(Rolled(v.quota, t.admit), limits, r.charge, |packet|, t.inc)
                           else Rolled(v.quota, t.admit)
      requires v'.ledger == if r.Delivered?
                            then Added(v.ledger, Bucket(r.charge.account, r.charge.device, r.charge.exit,
                                                        HourStart(t.add)), 0, |packet|)
                            else v.ledger
      requires v'.log == v.log + if r.Delivered? then [S.DeliveryOf(v, src, r.dst, r.charge, packet, limits, t)] else []
      ensures v' == S.Effect(v, r, src, packet, limits, t)
    {
    }

    /** Forwards an admitted packet and notes it in the history. */
    method Carry(packet: seq<byte>, src: Node, dst: Node, c: Charge, t: S.Times, ghost v: S.State<Node>)
      requires src in created && dst in created
      requires src in v.nodes && dst in v.nodes && View() == v.(quota := Rolled(v.quota, t.admit))
      modifies quota`day, quota`acctBy, quota`egressBy, usage, dst`sent, src`rx, dst`tx, this`log, this`clock
      ensures View() == S.Effect(v, S.Delivered(dst, c), src, packet, quota.limits, t)
      ensures dst.sent == old(dst.sent) + [Data(packet)]
    {
      Forward(packet, src, dst, c, t);
      log := log + [S.DeliveryOf(v, src, dst, c, packet, quota.limits, t)];
      clock := t.add;
      EffectInParts(v, View(), S.Delivered(dst, c), src, packet, quota.limits, t);
    }

    /** Lets a packet go, telling its sender when a quota is the reason. */
    method Drop(packet: seq<byte>, src: Node, r: S.Result<Node>, t: S.Times, ghost v: S.State<Node>)
      requires !r.Delivered?
      requires View() == v.(quota := if r.Failed? then v.quota else Rolled(v.quota, t.admit))
      modifies this`clock, src`quotaNotified, src`sent
      ensures View() == S.Effect(v, r, src, packet, quota.limits, t)
      ensures r.Blocked? ==> src.quotaNotified
      ensures src.sent == old(src.sent)
                          + if r.Blocked? && !old(src.quotaNotified) then [old(NoticeFor(src, t.admit))] else []
    {
      if r.Blocked? {
        Refuse(src, t.admit);
      }
      clock := t.add;
      EffectInParts(v, View(), r, src, packet, quota.limits, t);
    }

    /** Relays one data packet. A refusal by quota is announced to the sender once per connection. */
    method Relay(packet: seq<byte>, src: Node, t: S.Times, writeOk: bool) returns (r: S.Result<Node>)
      requires Valid() && src in created && S.TablesKnown(View())
      modifies quota`day, quota`acctBy, quota`egressBy, usage, this`log, this`clock
      modifies created`rx, created`tx, created`sent, src`quotaNotified
      ensures r == S.Outcome(old(View()), src, packet, quota.limits, t, writeOk)
      ensures r.Delivered? ==> r.dst in created
      ensures View() == S.Effect(old(View()), r, src, packet, quota.limits, t)
      ensures r.Delivered? ==> r.dst.sent == old(r.dst.sent) + [Data(packet)]
      ensures r.Blocked? ==> src.quotaNotified
      ensures r.Blocked? ==>
                src.sent == old(src.sent) + if old(src.quotaNotified) then [] else [old(NoticeFor(src, t.admit))]
      ensures forall n <- created :: (r.Delivered? && n == r.dst) || (r.Blocked? && n == src) || n.sent == old(n.sent)
    {
      ghost var v := View();
      r := Decide(packet, src, t, writeOk);
      if r.Delivered? {
        Carry(packet, src, r.dst, r.charge, t, v);
      } else {
        Drop(packet, src, r, t, v);
      }
    }
  }
}
