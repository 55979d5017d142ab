/** What every step of the server keeps of the hub: the two indexes agree, nodes own the addresses they
    hold, and traffic stays inside an account (internal/server/hub.go). */
module HubRuns {
  import L = Leases
  import LR = LeaseRuns
  import opened Quotas
  import opened Registry
  import opened Server

  // ---- joining ----

  lemma GrantedAccounts(net: L.Net, st: L.NetState, network: string, device: string)
    requires forall ip <- st.leases :: st.leases[ip].account == network
    ensures var st' := L.Granted(net, st, network, network, device);
            forall ip <- st'.leases :: st'.leases[ip].account == network
  {
  }

  lemma SavedAccounts(nets: map<string, L.NetState>)
    requires forall n <- nets :: forall ip <- nets[n].leases :: nets[n].leases[ip].account == n
    requires forall n <- nets :: forall ip <- nets[n].leases :: nets[n].leases[ip].network == n
    ensures forall l <- L.AllLeases(nets) :: l.account == l.network
  {
  }

  lemma GrantOwnNetwork(store: L.Store, network: string, device: string, saveOk: bool)
    requires L.StoreInv(store) && OwnNetworks(store)
    ensures OwnNetworks(L.Allocated(store, network, network, device, saveOk))
  {
    var store' := L.Allocated(store, network, network, device, saveOk);
    GrantedAccounts(store.net, L.StateOf(store, network), network, device);
    L.RequestInv(store, network, network, device, saveOk);
    if store'.file != store.file {
      SavedNetworks(store');
      SavedAccounts(store'.nets);
    }
  }

  lemma SavedNetworks(store: L.Store)
    requires L.StoreInv(store)
    ensures forall n <- store.nets :: forall ip <- store.nets[n].leases :: store.nets[n].leases[ip].network == n
  {
    forall n | n in store.nets
      ensures forall ip <- store.nets[n].leases :: store.nets[n].leases[ip].network == n
    {
      assert L.NetInv(store.net, n, store.nets[n]);
    }
  }

  /** The address a device is given is its own from then on. */
  lemma GrantedAddress(store: L.Store, network: string, account: string, device: string, saveOk: bool)
    requires L.StoreInv(store)
    requires L.Answer(store, network, device, saveOk).Leased?
    ensures LR.HasAddress(L.Allocated(store, network, account, device, saveOk), network, device,
                          L.Answer(store, network, device, saveOk).ip)
  {
  }

  lemma OwnsKept(store: L.Store, network: string, device: string, saveOk: bool, info: NodeInfo)
    requires L.StoreInv(store) && Owns(store, info)
    ensures Owns(L.Allocated(store, network, network, device, saveOk), info)
  {
    LR.RequestKeeps(store, network, network, device, saveOk, info.network, info.device, info.ip);
  }

  lemma StoreAfterJoin(store: L.Store, h: Hello, saveOk: bool, infos: set<NodeInfo>)
    requires L.StoreInv(store) && OwnNetworks(store) && forall i <- infos :: Owns(store, i)
    ensures var store' := L.Allocated(store, NetworkOf(h), h.account, h.device, saveOk);
            L.StoreInv(store') && OwnNetworks(store') && forall i <- infos :: Owns(store', i)
  {
    L.RequestInv(store, NetworkOf(h), h.account, h.device, saveOk);
    GrantOwnNetwork(store, h.account, h.device, saveOk);
    forall i | i in infos
      ensures Owns(L.Allocated(store, NetworkOf(h), h.account, h.device, saveOk), i)
    {
      OwnsKept(store, h.account, h.device, saveOk, i);
    }
  }

  lemma EnterTables<R>(s: State<R>, ref: R, n: NodeState)
    requires TablesKnown(s) && Agree(s.tables) && ref !in s.nodes
    ensures var s' := s.(tables := Registered(s.tables, Entry(ref, n.info)), nodes := s.nodes[ref := n]);
            TablesKnown(s') && Agree(s'.tables)
  {
    RegisteredAgrees(s.tables, Entry(ref, n.info));
  }

  /** A new entry of a new node object. */
  lemma EnterNode<R>(s: State<R>, store: L.Store, ref: R, n: NodeState)
    requires TablesKnown(s) && Agree(s.tables) && ref !in s.nodes
    requires L.StoreInv(store) && OwnNetworks(store) && Owns(store, n.info)
    requires forall r <- s.nodes :: Owns(store, s.nodes[r].info)
    ensures HubInv(s.(store := store, tables := Registered(s.tables, Entry(ref, n.info)), nodes := s.nodes[ref := n]))
  {
    EnterTables(s, ref, n);
  }

  lemma JoinKeepsHub<R>(s: State<R>, ref: R, h: Hello, saveOk: bool)
    requires HubInv(s) && Possible(s, Join(ref, h, saveOk))
    ensures HubInv(Joined(s, ref, h, saveOk))
  {
    var store' := L.Allocated(s.store, NetworkOf(h), h.account, h.device, saveOk);
    StoreAfterJoin(s.store, h, saveOk, set r | r in s.nodes :: s.nodes[r].info);
    assert forall r <- s.nodes :: Owns(store', s.nodes[r].info);
    var answer := L.Answer(s.store, NetworkOf(h), h.device, saveOk);
    if answer.Leased? {
      GrantedAddress(s.store, NetworkOf(h), h.account, h.device, saveOk);
      EnterNode(s, store', ref, NodeState(InfoFor(h, answer.ip), h.Egress(), h.acl, 0, 0));
    }
  }

  lemma RestartKeepsHub<R>(s: State<R>, reopened: Usage.Ledger, first: nat, now: nat)
    requires HubInv(s)
    ensures HubInv(Restarted(s, reopened, first, now))
  {
    L.ReopenInv(s.store);
    var store' := L.Reopened(s.store);
    forall n, ip | n in store'.nets && ip in store'.nets[n].leases
      ensures store'.nets[n].leases[ip].account == n
    {
      assert L.LeaseAt(s.store.file, n, ip) in s.store.file;
    }
    EmptyAgree<R>();
  }

  lemma LeaveKeepsHub<R>(s: State<R>, ref: R)
    requires HubInv(s) && ref in s.nodes
    ensures HubInv(Left(s, ref))
  {
    RemovedAgrees(s.tables, Entry(ref, s.nodes[ref].info));
  }

  /** Grants, meters, counters and ledgers are no concern of the hub. */
  lemma SameHub<R>(s: State<R>, s': State<R>)
    requires HubInv(s) && s'.store == s.store && s'.tables == s.tables
    requires s'.nodes.Keys == s.nodes.Keys && forall r <- s'.nodes :: s'.nodes[r].info == s.nodes[r].info
    ensures HubInv(s')
  {
  }

  lemma MeteredInfo<R>(nodes: map<R, NodeState>, src: R, dst: R, n: nat)
    requires src in nodes && dst in nodes
    ensures var nodes' := Metered(nodes, src, dst, n);
            && nodes'.Keys == nodes.Keys
            && forall r <- nodes' :: nodes'[r].info == nodes[r].info && nodes'[r].egress == nodes[r].egress
  {
  }

  lemma RelayedShape<R>(s: State<R>, src: R, packet: seq<Bytes.byte>, limits: Limits, t: Times, writeOk: bool)
    requires src in s.nodes && TablesKnown(s)
    ensures var s' := Relayed(s, src, packet, limits, t, writeOk);
            && s'.store == s.store && s'.tables == s.tables
            && s'.nodes.Keys == s.nodes.Keys
            && forall r <- s'.nodes :: s'.nodes[r].info == s.nodes[r].info && s'.nodes[r].egress == s.nodes[r].egress
  {
    var r := Outcome(s, src, packet, limits, t, writeOk);
    if r.Delivered? {
      MeteredInfo(s.nodes, src, r.dst, |packet|);
    }
  }

  lemma RelayKeepsHub<R>(s: State<R>, src: R, packet: seq<Bytes.byte>, limits: Limits, t: Times, writeOk: bool)
    requires HubInv(s) && src in s.nodes
    ensures HubInv(Relayed(s, src, packet, limits, t, writeOk))
  {
    RelayedShape(s, src, packet, limits, t, writeOk);
    SameHub(s, Relayed(s, src, packet, limits, t, writeOk));
  }

  lemma StepJoin<R>(s: State<R>, e: Event<R>)
    requires HubInv(s) && Possible(s, e) && e.Join?
    ensures HubInv(Step(s, e))
  {
    JoinKeepsHub(s, e.ref, e.hello, e.saveOk);
  }

  lemma StepRelay<R>(s: State<R>, e: Event<R>)
    requires HubInv(s) && Possible(s, e) && e.Relay?
    ensures HubInv(Step(s, e))
  {
    RelayKeepsHub(s, e.src, e.packet, e.limits, e.t, e.writeOk);
  }

  lemma StepTables<R>(s: State<R>, e: Event<R>)
    requires HubInv(s) && Possible(s, e) && (e.Leave? || e.Restart?)
    ensures HubInv(Step(s, e))
  {
    if e.Leave? {
      LeaveKeepsHub(s, e.node);
    } else {
      RestartKeepsHub(s, e.reopened, e.first, e.at);
    }
  }

  lemma EgressSetShape<R>(s: State<R>, key: NetKey, enabled: bool, acl: set<string>)
    requires TablesKnown(s) && key in s.tables.ipTable
    ensures var s' := EgressSet(s, key, enabled, acl);
            && s'.store == s.store && s'.tables == s.tables && s'.nodes.Keys == s.nodes.Keys
            && forall r <- s'.nodes :: s'.nodes[r].info == s.nodes[r].info
  {
  }

  lemma StepGrant<R>(s: State<R>, e: Event<R>)
    requires HubInv(s) && Possible(s, e) && e.SetEgress?
    ensures HubInv(Step(s, e))
  {
    EgressSetShape(s, e.key, e.enabled, e.acl);
    SameHub(s, EgressSet(s, e.key, e.enabled, e.acl));
  }

  lemma StepSave<R>(s: State<R>, e: Event<R>)
    requires HubInv(s) && Possible(s, e) && e.SaveUsage?
    ensures HubInv(Step(s, e))
  {
    SameHub(s, Step(s, e));
  }

  /** Every step keeps the hub invariant. */
  lemma StepKeepsHub<R>(s: State<R>, e: Event<R>)
    requires HubInv(s) && Possible(s, e)
    ensures HubInv(Step(s, e))
  {
    if e.Join? {
      StepJoin(s, e);
    } else if e.Relay? {
      StepRelay(s, e);
    } else if e.Leave? || e.Restart? {
      StepTables(s, e);
    } else if e.SetEgress? {
      StepGrant(s, e);
    } else {
      StepSave(s, e);
    }
  }

  lemma {:induction false} RunKeepsHub<R>(net: L.Net, now: nat, es: seq<Event<R>>)
    requires net.Valid() && net.prefix >= 1
    ensures HubInv(Run(Initial<R>(net, now), es))
  {
    if es == [] {
      L.StartInv(net);
      EmptyAgree<R>();
    } else {
      var init, e := es[..|es| - 1], es[|es| - 1];
      RunKeepsHub(net, now, init);
      var s := Run(Initial<R>(net, now), init);
      if Possible(s, e) {
        StepKeepsHub(s, e);
      }
    }
  }

  lemma RunOneMore<R>(s: State<R>, es: seq<Event<R>>, e: Event<R>)
    requires TablesKnown(Run(s, es)) && Possible(Run(s, es), e)
    ensures Run(s, es + [e]) == Step(Run(s, es), e)
  {
    assert (es + [e])[..|es|] == es;
  }

  // ---- what the invariant gives ----

  /** After any run both indexes hold the same nodes, each under the key it names and each the holder of
      its address, and a device has at most one live node per network. */
  lemma TablesAreExact<R>(net: L.Net, now: nat, es: seq<Event<R>>, a: NetKey, b: NetKey)
    requires net.Valid() && net.prefix >= 1
    ensures var t := Run(Initial<R>(net, now), es).tables;
            && Agree(t)
            && (a in t.ipTable ==>
                  LR.HasAddress(Run(Initial<R>(net, now), es).store, a.network, t.ipTable[a].info.device, a.ip))
            && ((a in t.ipTable && b in t.ipTable && a.network == b.network
                 && t.ipTable[a].info.device == t.ipTable[b].info.device) ==> a == b)
  {
    RunKeepsHub(net, now, es);
    var s := Run(Initial<R>(net, now), es);
    var t := s.tables;
    if a in t.ipTable {
      NodeHoldsAddress(s, a);
      if b in t.ipTable && a.network == b.network && t.ipTable[a].info.device == t.ipTable[b].info.device {
        NodeHoldsAddress(s, b);
        L.StateInv(s.store, a.network);
        assert L.Filled(s.store.net, a.network, L.StateOf(s.store, a.network).leases);
      }
    }
  }

  lemma NodeHoldsAddress<R>(s: State<R>, k: NetKey)
    requires HubInv(s) && k in s.tables.ipTable
    ensures LR.HasAddress(s.store, k.network, s.tables.ipTable[k].info.device, k.ip)
    ensures s.tables.ipTable[k].info.account == k.network
  {
    assert Owns(s.store, s.nodes[s.tables.ipTable[k].ref].info);
  }

  /** The late leave of a node another one has replaced changes neither index, nor anything else. */
  lemma LateLeaveChangesNothing<R>(s: State<R>, node: R)
    requires HubInv(s) && node in s.nodes
    requires var key := KeyOf(s.nodes[node].info); key in s.tables.ipTable ==> s.tables.ipTable[key].ref != node
    ensures Left(s, node) == s
  {
    RemovedAgrees(s.tables, Entry(node, s.nodes[node].info));
  }

  /** A packet only ever goes to a node of the sender's own account, so the exit access list is never
      the reason for a refusal. */
  lemma TrafficStaysInAccount<R>(net: L.Net, now: nat, es: seq<Event<R>>, src: R, packet: seq<Bytes.byte>)
    requires net.Valid() && net.prefix >= 1
    requires src in Run(Initial<R>(net, now), es).nodes
    ensures var s := Run(Initial<R>(net, now), es);
            && TablesKnown(s)
            && var r := RouteOf(s, src, packet);
            && !r.Denied?
            && (r.To? ==> r.dst in s.nodes && s.nodes[r.dst].info.account == s.nodes[src].info.account)
  {
    RunKeepsHub(net, now, es);
    RouteInAccount(Run(Initial<R>(net, now), es), src, packet);
  }

  lemma RouteInAccount<R>(s: State<R>, src: R, packet: seq<Bytes.byte>)
    requires HubInv(s) && src in s.nodes
    ensures var r := RouteOf(s, src, packet);
            && !r.Denied?
            && (r.To? ==> && r.dst in s.nodes && s.nodes[r.dst].info.account == s.nodes[src].info.account
                          && s.nodes[r.dst].info.ip == DstOf(packet))
  {
    assert Owns(s.store, s.nodes[src].info);
    if |packet| >= 20 {
      var key := NetKey(s.nodes[src].info.network, DstOf(packet));
      if key in s.tables.ipTable {
        NodeHoldsAddress(s, key);
      }
    }
  }
}
