/** The join/leave protocol between the hub and its clients, step by step as the hub's lock is taken and
    released and every message is written: does each client's peer table show who is online?
    (internal/server/server.go: `handleConn`; internal/server/hub.go: `Register`, `NotifyPeerJoined`,
    `Unregister`, `broadcastCtrl`; internal/client/client.go: `Run`, `handleCtrl`; internal/client/auth.go:
    `dialAndAuth`; internal/client/peers.go) */
module Membership {
  import opened Registry
  import opened Peers

  function PeerOf(info: NodeInfo, egress: bool): PeerInfo {
    PeerInfo(info.ip, info.hostname, info.os, egress)
  }

  /** Who a network's broadcast reaches: everyone online but the node at `except`. */
  function Recipients<R(==)>(t: Tables<R>, network: string, except: nat): set<R> {
    set ip | ip in Nodes(t, network) && ip != except :: Nodes(t, network)[ip].ref
  }

  /** Who is online besides the node at `ip`, as a Welcome lists them. */
  function OthersOnline<R(==)>(t: Tables<R>, egress: map<R, bool>, network: string, ip: nat): View {
    map a | a in Nodes(t, network) && a != ip ::
      var e := Nodes(t, network)[a];
      PeerOf(e.info, e.ref in egress && egress[e.ref])
  }

  // ---- the machine ----

  /** How far a connection is: registered, its Welcome written, a broadcast about it under way to the
      `targets` picked under the lock and not yet written to, or taken out of the tables. */
  datatype Phase<R> = Fresh | Greeted | Telling(m: Ctrl, targets: set<R>) | Out

  datatype Name = Name(hostname: string, os: string)

  /** One connection: its node, how far it is, the messages under way to it and its client's table. The rest
      is history: a `lost` connection got a message before its Welcome, which its client takes for the
      Welcome, and gives up; `untold` and `ungone` are the connections still to be told of this node's
      arrival or departure; `stale` are the entries the client brought along from an earlier connection
      that no message has touched since. */
  datatype Conn<R> = Conn(
    info: NodeInfo, egress: bool, phase: Phase<R>, queue: seq<Ctrl>, view: View,
    lost: bool, untold: set<R>, ungone: set<R>, stale: map<nat, Name>)

  datatype State<R> = State(tables: Tables<R>, conns: map<R, Conn<R>>)

  /** `had` is the table the client has when it connects, empty the first time. */
  datatype Event<R> =
    | Register(ref: R, info: NodeInfo, egress: bool, had: View)
    | Greet(node: R)
    | Announce(node: R)
    | Put(node: R, to: R)
    | Unlist(node: R)
    | Leave(node: R)
    | Grant(node: R, enabled: bool)
    | Deliver(node: R)

  predicate Possible<R(==)>(s: State<R>, e: Event<R>) {
    match e
    case Register(ref, _, _, _) => ref !in s.conns
    case Greet(node) => node in s.conns && s.conns[node].phase.Fresh?
    case Announce(node) => node in s.conns && s.conns[node].phase.Greeted?
    case Put(node, to) =>
      && node in s.conns && to in s.conns && node != to
      && s.conns[node].phase.Telling? && to in s.conns[node].phase.targets
    case Unlist(node) =>
      && node in s.conns && s.conns[node].phase.Telling?
      && s.conns[node].phase.m.PeerJoin? && s.conns[node].phase.targets == {}
    case Leave(node) => node in s.conns && s.conns[node].phase.Out?
    case Grant(node, _) => node in s.conns
    case Deliver(node) => node in s.conns && s.conns[node].queue != []
  }

  function NameOf(info: NodeInfo): Name { Name(info.hostname, info.os) }

  function Names(v: View): map<nat, Name> {
    map ip | ip in v :: Name(v[ip].hostname, v[ip].os)
  }

  /** A new connection: the Welcome's list is laid over the table the client has. */
  function Newcomer<R>(info: NodeInfo, egress: bool, had: View, welcome: View, others: set<R>): Conn<R> {
    Conn(info, egress, Fresh, [], had + welcome, false, others, {},
         map a | a in Names(had) && a !in welcome :: Names(had)[a])
  }

  function Grants<R>(s: State<R>): map<R, bool> { map r | r in s.conns :: s.conns[r].egress }

  function Registers<R(==)>(s: State<R>, ref: R, info: NodeInfo, egress: bool, had: View): State<R> {
    var t := Registered(s.tables, Entry(ref, info));
    var welcome := OthersOnline(t, Grants(s)[ref := egress], info.network, info.ip);
    State(t, s.conns[ref := Newcomer(info, egress, had, welcome, Recipients(t, info.network, info.ip))])
  }

  /** A broadcast about a node is put together under the lock. */
  function Tells<R(==)>(s: State<R>, node: R, m: Ctrl): State<R>
    requires node in s.conns
  {
    var c := s.conns[node];
    s.(conns := s.conns[node := c.(phase := Telling(m, Recipients(s.tables, c.info.network, c.info.ip)))])
  }

  /** What a write of message `m` leaves of the sender ... */
  function Told<R(==)>(c: Conn<R>, m: Ctrl, to: R): Conn<R>
    requires c.phase.Telling?
  {
    c.(phase := Telling(c.phase.m, c.phase.targets - {to}),
       untold := if m.PeerJoin? then c.untold - {to} else c.untold,
       ungone := if m.PeerLeave? then c.ungone - {to} else c.ungone)
  }

  /** ... and of the reader. */
  function Hears<R>(c: Conn<R>, m: Ctrl, a: nat): Conn<R> {
    c.(queue := c.queue + [m], lost := c.lost || c.phase.Fresh?, stale := c.stale - {a})
  }

  /** One write of a broadcast. */
  function Puts<R(==)>(s: State<R>, node: R, to: R): State<R>
    requires Possible(s, Put(node, to))
  {
    var m := s.conns[node].phase.m;
    s.(conns := s.conns[node := Told(s.conns[node], m, to)][to := Hears(s.conns[to], m, s.conns[node].info.ip)])
  }

  /** Whether the node is still the one its key names. */
  predicate Current<R(==)>(s: State<R>, node: R)
    requires node in s.conns
  {
    var key := KeyOf(s.conns[node].info);
    key in s.tables.ipTable && s.tables.ipTable[key].ref == node
  }

  function Unlists<R(==)>(s: State<R>, node: R): State<R>
    requires node in s.conns
  {
    var c := s.conns[node];
    var gone := if Current(s, node) then Recipients(s.tables, c.info.network, c.info.ip) else {};
    State(Removed(s.tables, Entry(node, c.info)), s.conns[node := c.(phase := Out, ungone := c.ungone + gone)])
  }

  function JoinOf(c: Conn): Ctrl { PeerJoin(PeerOf(c.info, c.egress)) }

  function Step<R(==)>(s: State<R>, e: Event<R>): State<R>
    requires Possible(s, e)
  {
    match e
    case Register(ref, info, egress, had) => Registers(s, ref, info, egress, had)
    case Greet(node) => s.(conns := s.conns[node := s.conns[node].(phase := Greeted)])
    case Announce(node) => Tells(s, node, JoinOf(s.conns[node]))
    case Put(node, to) => Puts(s, node, to)
    case Unlist(node) => Unlists(s, node)
    case Leave(node) => Tells(s, node, PeerLeave(s.conns[node].info.ip))
    case Grant(node, enabled) => s.(conns := s.conns[node := s.conns[node].(egress := enabled)])
    case Deliver(node) =>
      var c := s.conns[node];
      s.(conns := s.conns[node := c.(queue := c.queue[1..], view := Apply(c.view, c.queue[0]))])
  }

  // ---- what the clients should see ----

  function OnlineNames<R>(t: Tables<R>, network: string, ip: nat): map<nat, Name> {
    map a | a in Nodes(t, network) && a != ip :: NameOf(Nodes(t, network)[a].info)
  }

  /** What a client has under each address once its messages have arrived. */
  function Seen(c: Conn): map<nat, Name> {
    Names(ApplyAll(c.view, c.queue))
  }

  predicate Arriving<R(==)>(s: State<R>, r: R, network: string, a: nat) {
    a in Nodes(s.tables, network)
    && var x := Nodes(s.tables, network)[a].ref; x in s.conns && r in s.conns[x].untold
  }

  ghost predicate Departing<R>(s: State<R>, r: R, network: string, a: nat) {
    exists x :: x in s.conns && LeavesFrom(s.conns[x], r, network, a)
  }

  predicate LeavesFrom<R(==)>(c: Conn<R>, r: R, network: string, a: nat) {
    r in c.ungone && KeyOf(c.info) == NetKey(network, a)
  }

  /** News about an address are under way to a viewer: the arrival of the node online there, or a departure
      from it. */
  ghost predicate NewsDue<R>(s: State<R>, r: R, network: string, a: nat) {
    Arriving(s, r, network, a) || Departing(s, r, network, a)
  }

  predicate Shows<R>(nodes: map<nat, Entry<R>>, own: nat, seen: map<nat, Name>, a: nat) {
    && (a in seen <==> a in nodes && a != own)
    && (a in seen ==> seen[a] == NameOf(nodes[a].info))
  }

  /** Right at one address: an entry brought along is still there; where no news are due, the client has the
      node online there, by its names, and nothing where nobody else is. */
  ghost predicate RightAt<R>(s: State<R>, k: NetKey, a: nat)
    requires Known(s) && k in s.tables.ipTable
  {
    var r := s.tables.ipTable[k].ref;
    var seen, stale := Seen(s.conns[r]), s.conns[r].stale;
    if a in stale then a in seen && seen[a] == stale[a]
    else NewsDue(s, r, k.network, a) || Shows(Nodes(s.tables, k.network), k.ip, seen, a)
  }

  /** Every node in the tables is a connection. */
  ghost predicate Known<R>(s: State<R>) {
    forall k <- s.tables.ipTable ::
      var e := s.tables.ipTable[k]; e.ref in s.conns && s.conns[e.ref].info == e.info
  }

  predicate Says(info: NodeInfo, m: Ctrl) {
    || (m.PeerJoin? && m.peer.ip == info.ip && Name(m.peer.hostname, m.peer.os) == NameOf(info))
    || m == PeerLeave(info.ip)
  }

  /** A broadcast says where its node is, and goes to other connections of the network. */
  ghost predicate Fits<R>(s: State<R>, c: Conn<R>) {
    c.phase.Telling? ==>
      && Says(c.info, c.phase.m)
      && forall v <- c.phase.targets ::
           v in s.conns && s.conns[v].info.network == c.info.network && s.conns[v].info.ip != c.info.ip
  }

  ghost predicate Tidy<R>(s: State<R>) {
    && Known(s) && Agree(s.tables)
    && (forall x <- s.conns :: Fits(s, s.conns[x]))
    && (forall x <- s.conns :: s.conns[x].untold <= s.conns.Keys && s.conns[x].ungone <= s.conns.Keys)
  }

  ghost predicate Right<R>(s: State<R>, k: NetKey)
    requires Known(s) && k in s.tables.ipTable
  {
    s.conns[s.tables.ipTable[k].ref].lost || forall a: nat :: RightAt(s, k, a)
  }

  /** Every client that is not lost sees what it should. */
  ghost predicate Inv<R>(s: State<R>) {
    Tidy(s) && forall k <- s.tables.ipTable :: Right(s, k)
  }

  // ---- tables and messages ----

  lemma TableNode<R>(s: State<R>, network: string, a: nat)
    requires Known(s) && Agree(s.tables) && a in Nodes(s.tables, network)
    ensures var e := Nodes(s.tables, network)[a];
            e.ref in s.conns && s.conns[e.ref].info == e.info && KeyOf(e.info) == NetKey(network, a)
  {
    assert NetKey(network, a) in s.tables.ipTable;
  }

  lemma TableRef<R>(s: State<R>, k: NetKey)
    requires Known(s) && Agree(s.tables) && k in s.tables.ipTable
    ensures var r := s.tables.ipTable[k].ref; r in s.conns && KeyOf(s.conns[r].info) == k
    ensures k.ip in Nodes(s.tables, k.network) && Nodes(s.tables, k.network)[k.ip] == s.tables.ipTable[k]
  {
    assert k.ip in Nodes(s.tables, k.network) <==> NetKey(k.network, k.ip) in s.tables.ipTable;
  }

  /** A node gets a broadcast exactly when it is online in that network and not the excluded one. */
  lemma ReceivesExactly<R>(s: State<R>, k: NetKey, network: string, except: nat)
    requires Known(s) && Agree(s.tables) && k in s.tables.ipTable
    ensures s.tables.ipTable[k].ref in Recipients(s.tables, network, except) <==> k.network == network && k.ip != except
  {
    var r := s.tables.ipTable[k].ref;
    TableRef(s, k);
    if r in Recipients(s.tables, network, except) {
      var ip :| ip in Nodes(s.tables, network) && ip != except && Nodes(s.tables, network)[ip].ref == r;
      TableNode(s, network, ip);
    }
  }

  lemma RecipientsKnown<R>(s: State<R>, network: string, except: nat)
    requires Known(s) && Agree(s.tables)
    ensures forall v <- Recipients(s.tables, network, except) ::
              v in s.conns && s.conns[v].info.network == network && s.conns[v].info.ip != except
  {
    forall v | v in Recipients(s.tables, network, except)
      ensures v in s.conns && s.conns[v].info.network == network && s.conns[v].info.ip != except
    {
      var ip :| ip in Nodes(s.tables, network) && ip != except && Nodes(s.tables, network)[ip].ref == v;
      TableNode(s, network, ip);
    }
  }

  lemma JoinLookup<R>(t: Tables<R>, e: Entry<R>, network: string, a: nat)
    requires Agree(t)
    ensures var t' := Registered(t, e);
            && (a in Nodes(t', network) <==> a in Nodes(t, network) || NetKey(network, a) == KeyOf(e.info))
            && (a in Nodes(t', network) ==>
                  Nodes(t', network)[a] == if NetKey(network, a) == KeyOf(e.info) then e else Nodes(t, network)[a])
  {
    RegisteredAgrees(t, e);
    assert a in Nodes(t, network) <==> NetKey(network, a) in t.ipTable;
    assert a in Nodes(Registered(t, e), network) <==> NetKey(network, a) in Registered(t, e).ipTable;
  }

  lemma LeaveLookup<R>(t: Tables<R>, e: Entry<R>, network: string, a: nat)
    requires Agree(t)
    ensures var t', out := Removed(t, e), KeyOf(e.info) in t.ipTable && t.ipTable[KeyOf(e.info)].ref == e.ref;
            && (a in Nodes(t', network) <==> a in Nodes(t, network) && !(out && NetKey(network, a) == KeyOf(e.info)))
            && (a in Nodes(t', network) ==> Nodes(t', network)[a] == Nodes(t, network)[a])
  {
    RemovedAgrees(t, e);
    assert a in Nodes(t, network) <==> NetKey(network, a) in t.ipTable;
    assert a in Nodes(Removed(t, e), network) <==> NetKey(network, a) in Removed(t, e).ipTable;
  }

  // ---- registering ----

  /** A Welcome lists exactly the others online, each at its address with its names and its present grant. */
  lemma WelcomeLists<R>(t: Tables<R>, egress: map<R, bool>, network: string, ip: nat, a: nat)
    ensures var w := OthersOnline(t, egress, network, ip);
            && (a in w <==> a in Nodes(t, network) && a != ip)
            && (a in w ==>
                  var e := Nodes(t, network)[a];
                  && w[a].ip == e.info.ip && w[a].hostname == e.info.hostname && w[a].os == e.info.os
                  && (w[a].egress <==> e.ref in egress && egress[e.ref]))
  {
  }

  lemma WelcomeNames<R>(t: Tables<R>, egress: map<R, bool>, network: string, ip: nat)
    ensures Names(OthersOnline(t, egress, network, ip)) == OnlineNames(t, network, ip)
  {
  }

  /** What a client sees after its Welcome: who is online, and what the list leaves of its table. */
  lemma NewcomerSees<R>(info: NodeInfo, egress: bool, had: View, welcome: View, others: set<R>)
    ensures Seen(Newcomer(info, egress, had, welcome, others)) == Names(had) + Names(welcome)
  {
  }

  lemma RegistersSplit<R>(s: State<R>, ref: R, info: NodeInfo, egress: bool, had: View)
    requires Tidy(s) && ref !in s.conns
    ensures var s' := Registers(s, ref, info, egress, had);
            && Agree(s'.tables) && s'.tables.ipTable == s.tables.ipTable[KeyOf(info) := Entry(ref, info)]
            && s'.conns.Keys == s.conns.Keys + {ref} && (forall r <- s.conns :: s'.conns[r] == s.conns[r])
            && s'.conns[ref].info == info && !s'.conns[ref].phase.Telling? && s'.conns[ref].ungone == {}
            && s'.conns[ref].untold == Recipients(s'.tables, info.network, info.ip)
  {
    RegisteredAgrees(s.tables, Entry(ref, info));
  }

  /** A client's table is right after the Welcome if and only if every address it had is online, and none is
      its own. */
  lemma WelcomeRightExactly<R>(s: State<R>, ref: R, info: NodeInfo, egress: bool, had: View)
    ensures var s' := Registers(s, ref, info, egress, had);
            Seen(s'.conns[ref]) == OnlineNames(s'.tables, info.network, info.ip)
            <==> forall a <- had :: a in Nodes(s'.tables, info.network) && a != info.ip
  {
    var t := Registered(s.tables, Entry(ref, info));
    var welcome := OthersOnline(t, Grants(s)[ref := egress], info.network, info.ip);
    NewcomerSees(info, egress, had, welcome, Recipients(t, info.network, info.ip));
    WelcomeNames(t, Grants(s)[ref := egress], info.network, info.ip);
    OverlayExactly(had, OnlineNames(t, info.network, info.ip));
  }

  lemma OverlayExactly(had: View, online: map<nat, Name>)
    ensures Names(had) + online == online <==> forall a <- had :: a in online
  {
    if a :| a in had && a !in online {
      assert a in Names(had) + online;
    } else {
      assert (Names(had) + online).Keys == online.Keys;
    }
  }

  // ---- what a step leaves alone ----

  /** The same node online at an address, or none. */
  predicate SameAt<R(==)>(t: Tables<R>, t': Tables<R>, network: string, a: nat) {
    && (a in Nodes(t', network) <==> a in Nodes(t, network))
    && (a in Nodes(t', network) ==> Nodes(t', network)[a] == Nodes(t, network)[a])
  }

  /** Every connection is still there, with at least the same viewers to tell. */
  ghost predicate Grows<R>(s: State<R>, s': State<R>, r: R) {
    forall x <- s.conns ::
      && x in s'.conns && s'.conns[x].info == s.conns[x].info
      && (r in s.conns[x].untold ==> r in s'.conns[x].untold)
      && (r in s.conns[x].ungone ==> r in s'.conns[x].ungone)
  }

  lemma NewsKept<R>(s: State<R>, s': State<R>, r: R, network: string, a: nat)
    requires Grows(s, s', r) && SameAt(s.tables, s'.tables, network, a) && NewsDue(s, r, network, a)
    ensures NewsDue(s', r, network, a)
  {
    if Departing(s, r, network, a) {
      var x :| x in s.conns && LeavesFrom(s.conns[x], r, network, a);
      assert x in s'.conns && LeavesFrom(s'.conns[x], r, network, a);
    }
  }

  /** A viewer for whom nothing has changed at an address. */
  lemma RightKept<R>(s: State<R>, s': State<R>, k: NetKey, a: nat)
    requires Known(s) && Known(s') && k in s.tables.ipTable && k in s'.tables.ipTable
    requires s'.tables.ipTable[k] == s.tables.ipTable[k]
    requires var r := s.tables.ipTable[k].ref;
             && Seen(s'.conns[r]) == Seen(s.conns[r]) && s'.conns[r].stale == s.conns[r].stale
             && Grows(s, s', r)
    requires SameAt(s.tables, s'.tables, k.network, a) && RightAt(s, k, a)
    ensures RightAt(s', k, a)
  {
    var r := s.tables.ipTable[k].ref;
    if NewsDue(s, r, k.network, a) {
      NewsKept(s, s', r, k.network, a);
    }
  }

  lemma FitsKept<R>(s: State<R>, s': State<R>, c: Conn<R>)
    requires Fits(s, c) && forall x <- s.conns :: x in s'.conns && s'.conns[x].info == s.conns[x].info
    ensures Fits(s', c)
  {
  }

  // ---- registering, continued ----

  lemma RegisterTidy<R>(s: State<R>, ref: R, info: NodeInfo, egress: bool, had: View)
    requires Tidy(s) && ref !in s.conns
    ensures Tidy(Registers(s, ref, info, egress, had))
  {
    var s' := Registers(s, ref, info, egress, had);
    RegistersSplit(s, ref, info, egress, had);
    assert Known(s');
    RecipientsKnown(s', info.network, info.ip);
    forall x | x in s'.conns
      ensures Fits(s', s'.conns[x])
    {
      if x != ref {
        FitsKept(s, s', s.conns[x]);
      }
    }
  }

  lemma NewcomerRight<R>(s: State<R>, ref: R, info: NodeInfo, egress: bool, had: View, a: nat)
    requires Tidy(s) && ref !in s.conns && Known(Registers(s, ref, info, egress, had))
    requires KeyOf(info) in Registers(s, ref, info, egress, had).tables.ipTable
    ensures RightAt(Registers(s, ref, info, egress, had), KeyOf(info), a)
  {
    var t := Registered(s.tables, Entry(ref, info));
    var welcome := OthersOnline(t, Grants(s)[ref := egress], info.network, info.ip);
    RegisteredAgrees(s.tables, Entry(ref, info));
    NewcomerAt(t, info, egress, had, welcome, Recipients(t, info.network, info.ip), a);
    WelcomeNames(t, Grants(s)[ref := egress], info.network, info.ip);
  }

  lemma NewcomerAt<R>(t: Tables<R>, info: NodeInfo, egress: bool, had: View, welcome: View, others: set<R>, a: nat)
    ensures var c := Newcomer(info, egress, had, welcome, others);
            if a in c.stale then a in Seen(c) && Seen(c)[a] == c.stale[a]
            else (a in Seen(c) <==> a in Names(welcome)) && (a in Seen(c) ==> Seen(c)[a] == Names(welcome)[a])
  {
    NewcomerSees(info, egress, had, welcome, others);
  }

  /** Everyone else is still to be told of the newcomer ... */
  lemma NewcomerIsNews<R>(s: State<R>, ref: R, info: NodeInfo, egress: bool, had: View, k: NetKey)
    requires Tidy(s) && ref !in s.conns && Tidy(Registers(s, ref, info, egress, had))
    requires k in s.tables.ipTable && k != KeyOf(info) && k.network == info.network
    ensures NewsDue(Registers(s, ref, info, egress, had), s.tables.ipTable[k].ref, k.network, info.ip)
  {
    var s' := Registers(s, ref, info, egress, had);
    RegistersSplit(s, ref, info, egress, had);
    JoinLookup(s.tables, Entry(ref, info), info.network, info.ip);
    ReceivesExactly(s', k, info.network, info.ip);
    assert Arriving(s', s.tables.ipTable[k].ref, k.network, info.ip);
  }

  /** ... and sees the rest as before. */
  lemma OthersStayRight<R>(s: State<R>, ref: R, info: NodeInfo, egress: bool, had: View, k: NetKey, a: nat)
    requires Tidy(s) && ref !in s.conns && Tidy(Registers(s, ref, info, egress, had))
    requires k in s.tables.ipTable && k != KeyOf(info) && RightAt(s, k, a)
    requires k in Registers(s, ref, info, egress, had).tables.ipTable
    ensures RightAt(Registers(s, ref, info, egress, had), k, a)
  {
    var s' := Registers(s, ref, info, egress, had);
    RegistersSplit(s, ref, info, egress, had);
    JoinLookup(s.tables, Entry(ref, info), k.network, a);
    if NetKey(k.network, a) != KeyOf(info) {
      RightKept(s, s', k, a);
    } else {
      NewcomerIsNews(s, ref, info, egress, had, k);
      StaleOrNews(s, s', k, a);
    }
  }

  lemma StaleOrNews<R>(s: State<R>, s': State<R>, k: NetKey, a: nat)
    requires Known(s) && Known(s') && k in s.tables.ipTable && k in s'.tables.ipTable
    requires s'.tables.ipTable[k] == s.tables.ipTable[k]
    requires var r := s.tables.ipTable[k].ref;
             && Seen(s'.conns[r]) == Seen(s.conns[r]) && s'.conns[r].stale == s.conns[r].stale
             && NewsDue(s', r, k.network, a)
    requires RightAt(s, k, a)
    ensures RightAt(s', k, a)
  {
  }

  lemma RegisterKeeps<R>(s: State<R>, ref: R, info: NodeInfo, egress: bool, had: View)
    requires Inv(s) && ref !in s.conns
    ensures Inv(Registers(s, ref, info, egress, had))
  {
    var s' := Registers(s, ref, info, egress, had);
    RegisterTidy(s, ref, info, egress, had);
    RegistersSplit(s, ref, info, egress, had);
    forall k | k in s'.tables.ipTable
      ensures Right(s', k)
    {
      if k == KeyOf(info) {
        forall a: nat ensures RightAt(s', k, a) { NewcomerRight(s, ref, info, egress, had, a); }
      } else if !s.conns[s.tables.ipTable[k].ref].lost {
        assert Right(s, k);
        forall a: nat ensures RightAt(s', k, a) { OthersStayRight(s, ref, info, egress, had, k, a); }
      }
    }
  }

  // ---- steps that concern one connection only ----

  /** A connection that differs in nothing a viewer could see. */
  predicate SameTo<R>(c0: Conn<R>, c: Conn<R>) {
    && c.info == c0.info && Seen(c) == Seen(c0) && c.lost == c0.lost && c.stale == c0.stale
    && c.untold == c0.untold && c.ungone == c0.ungone
  }

  lemma UnseenTidy<R>(s: State<R>, node: R, c: Conn<R>)
    requires Tidy(s) && node in s.conns && SameTo(s.conns[node], c) && Fits(s, c)
    ensures Tidy(s.(conns := s.conns[node := c]))
  {
    var s' := s.(conns := s.conns[node := c]);
    forall x | x in s'.conns
      ensures Fits(s', s'.conns[x])
    {
      FitsKept(s, s', s'.conns[x]);
    }
  }

  lemma UnseenRight<R>(s: State<R>, node: R, c: Conn<R>, k: NetKey)
    requires Tidy(s) && node in s.conns && SameTo(s.conns[node], c) && Known(s.(conns := s.conns[node := c]))
    requires k in s.tables.ipTable && Right(s, k)
    ensures Right(s.(conns := s.conns[node := c]), k)
  {
    var s' := s.(conns := s.conns[node := c]);
    if !s.conns[s.tables.ipTable[k].ref].lost {
      forall a: nat ensures RightAt(s', k, a) { RightKept(s, s', k, a); }
    }
  }

  lemma Unseen<R>(s: State<R>, node: R, c: Conn<R>)
    requires Inv(s) && node in s.conns && SameTo(s.conns[node], c) && Fits(s, c)
    ensures Inv(s.(conns := s.conns[node := c]))
  {
    UnseenTidy(s, node, c);
    forall k | k in s.tables.ipTable
      ensures Right(s.(conns := s.conns[node := c]), k)
    {
      UnseenRight(s, node, c, k);
    }
  }

  lemma TellsKeeps<R>(s: State<R>, node: R, m: Ctrl)
    requires Inv(s) && node in s.conns && Says(s.conns[node].info, m)
    ensures Inv(Tells(s, node, m))
  {
    var c := s.conns[node];
    RecipientsKnown(s, c.info.network, c.info.ip);
    Unseen(s, node, c.(phase := Telling(m, Recipients(s.tables, c.info.network, c.info.ip))));
  }

  lemma DeliverKeeps<R>(s: State<R>, node: R)
    requires Inv(s) && Possible(s, Deliver(node))
    ensures Inv(Step(s, Deliver(node)))
  {
    var c := s.conns[node];
    ApplyFirst(c.view, c.queue);
    Unseen(s, node, c.(queue := c.queue[1..], view := Apply(c.view, c.queue[0])));
  }

  // ---- leaving the tables ----

  lemma UnlistsSplit<R>(s: State<R>, node: R)
    requires Tidy(s) && node in s.conns
    ensures var s', c := Unlists(s, node), s.conns[node];
            && Agree(s'.tables)
            && s'.tables.ipTable == (if Current(s, node) then s.tables.ipTable - {KeyOf(c.info)} else s.tables.ipTable)
            && s'.conns.Keys == s.conns.Keys && (forall r <- s.conns :: r != node ==> s'.conns[r] == s.conns[r])
            && s'.conns[node].info == c.info && Seen(s'.conns[node]) == Seen(c) && s'.conns[node].stale == c.stale
            && s'.conns[node].lost == c.lost && s'.conns[node].untold == c.untold && s'.conns[node].phase.Out?
            && s'.conns[node].ungone
               == c.ungone + if Current(s, node) then Recipients(s.tables, c.info.network, c.info.ip) else {}
  {
    RemovedAgrees(s.tables, Entry(node, s.conns[node].info));
  }

  lemma UnlistTidy<R>(s: State<R>, node: R)
    requires Tidy(s) && node in s.conns
    ensures Tidy(Unlists(s, node))
  {
    var s' := Unlists(s, node);
    UnlistsSplit(s, node);
    RecipientsKnown(s, s.conns[node].info.network, s.conns[node].info.ip);
    forall x | x in s'.conns
      ensures Fits(s', s'.conns[x])
    {
      if x != node {
        FitsKept(s, s', s.conns[x]);
      }
    }
  }

  /** Everyone else online is still to be told that the node is gone. */
  lemma GoneIsNews<R>(s: State<R>, node: R, k: NetKey)
    requires Tidy(s) && node in s.conns && Current(s, node) && Tidy(Unlists(s, node))
    requires k in s.tables.ipTable && k.network == s.conns[node].info.network && k.ip != s.conns[node].info.ip
    ensures NewsDue(Unlists(s, node), s.tables.ipTable[k].ref, k.network, s.conns[node].info.ip)
  {
    UnlistsSplit(s, node);
    ReceivesExactly(s, k, s.conns[node].info.network, s.conns[node].info.ip);
    assert LeavesFrom(Unlists(s, node).conns[node], s.tables.ipTable[k].ref, k.network, s.conns[node].info.ip);
  }

  lemma UnlistRight<R>(s: State<R>, node: R, k: NetKey, a: nat)
    requires Tidy(s) && node in s.conns && Tidy(Unlists(s, node))
    requires k in s.tables.ipTable && k in Unlists(s, node).tables.ipTable && RightAt(s, k, a)
    ensures RightAt(Unlists(s, node), k, a)
  {
    var s', info := Unlists(s, node), s.conns[node].info;
    UnlistsSplit(s, node);
    LeaveLookup(s.tables, Entry(node, info), k.network, a);
    if Current(s, node) && NetKey(k.network, a) == KeyOf(info) {
      GoneIsNews(s, node, k);
      StaleOrNews(s, s', k, a);
    } else {
      UnlistElsewhere(s, node, k, a);
    }
  }

  lemma UnlistGrows<R>(s: State<R>, node: R, r: R)
    requires node in s.conns
    ensures Grows(s, Unlists(s, node), r)
  {
  }

  lemma UnlistElsewhere<R>(s: State<R>, node: R, k: NetKey, a: nat)
    requires Tidy(s) && node in s.conns && Tidy(Unlists(s, node))
    requires k in s.tables.ipTable && k in Unlists(s, node).tables.ipTable && RightAt(s, k, a)
    requires SameAt(s.tables, Unlists(s, node).tables, k.network, a)
    ensures RightAt(Unlists(s, node), k, a)
  {
    UnlistsSplit(s, node);
    UnlistGrows(s, node, s.tables.ipTable[k].ref);
    RightKept(s, Unlists(s, node), k, a);
  }

  lemma UnlistKeeps<R>(s: State<R>, node: R)
    requires Inv(s) && node in s.conns
    ensures Inv(Unlists(s, node))
  {
    var s' := Unlists(s, node);
    UnlistTidy(s, node);
    UnlistsSplit(s, node);
    forall k | k in s'.tables.ipTable
      ensures Right(s', k)
    {
      assert Right(s, k);
      if !s.conns[s.tables.ipTable[k].ref].lost {
        forall a: nat ensures RightAt(s', k, a) { UnlistRight(s, node, k, a); }
      }
    }
  }

  // ---- one write ----

  lemma PutTidy<R>(s: State<R>, node: R, to: R)
    requires Tidy(s) && Possible(s, Put(node, to))
    ensures Tidy(Puts(s, node, to))
  {
    var s' := Puts(s, node, to);
    forall x | x in s'.conns
      ensures Fits(s', s'.conns[x])
    {
      FitsKept(s, s', s.conns[x]);
    }
  }

  lemma NewsNames(seen: map<nat, Name>, m: Ctrl, info: NodeInfo, a: nat)
    requires Says(info, m)
    ensures var seen' := if m.PeerJoin? then seen[m.peer.ip := Name(m.peer.hostname, m.peer.os)] else seen - {info.ip};
            && (a == info.ip ==> (a in seen' <==> m.PeerJoin?) && (a in seen' ==> seen'[a] == NameOf(info)))
            && (a != info.ip ==> (a in seen' <==> a in seen) && (a in seen' ==> seen'[a] == seen[a]))
  {
  }

  /** The reader has the message's news about the node's address, and the rest as before. */
  lemma {:induction false} HearsSees<R>(c: Conn<R>, m: Ctrl, info: NodeInfo, a: nat)
    requires Says(info, m)
    ensures var seen, seen' := Seen(c), Seen(Hears(c, m, info.ip));
            && (a == info.ip ==> (a in seen' <==> m.PeerJoin?) && (a in seen' ==> seen'[a] == NameOf(info)))
            && (a != info.ip ==> (a in seen' <==> a in seen) && (a in seen' ==> seen'[a] == seen[a]))
            && (a in Hears(c, m, info.ip).stale <==> a != info.ip && a in c.stale)
            && (a in Hears(c, m, info.ip).stale ==> Hears(c, m, info.ip).stale[a] == c.stale[a])
  {
    ApplyOneMore(c.view, c.queue, m);
    MessageNames(ApplyAll(c.view, c.queue), m);
    NewsNames(Seen(c), m, info, a);
  }

  lemma MessageNames(v: View, m: Ctrl)
    ensures m.PeerJoin? ==> Names(Apply(v, m)) == Names(v)[m.peer.ip := Name(m.peer.hostname, m.peer.os)]
    ensures m.PeerLeave? ==> Names(Apply(v, m)) == Names(v) - {m.ip}
  {
  }

  /** News for other viewers, or about other addresses, are as before. */
  lemma OtherNews<R>(s: State<R>, node: R, to: R, r: R, network: string, a: nat)
    requires Tidy(s) && Possible(s, Put(node, to)) && NewsDue(s, r, network, a)
    requires r != to || NetKey(network, a) != KeyOf(s.conns[node].info)
    ensures NewsDue(Puts(s, node, to), r, network, a)
  {
    var s' := Puts(s, node, to);
    if Arriving(s, r, network, a) {
      TableNode(s, network, a);
      assert Arriving(s', r, network, a);
    } else {
      var x :| x in s.conns && LeavesFrom(s.conns[x], r, network, a);
      assert LeavesFrom(s'.conns[x], r, network, a);
    }
  }

  /** Everything but what the reader has about the node's address stays right. */
  lemma PutElsewhere<R>(s: State<R>, node: R, to: R, k: NetKey, a: nat)
    requires Tidy(s) && Possible(s, Put(node, to)) && Known(Puts(s, node, to))
    requires k in s.tables.ipTable && RightAt(s, k, a)
    requires s.tables.ipTable[k].ref != to || NetKey(k.network, a) != KeyOf(s.conns[node].info)
    ensures RightAt(Puts(s, node, to), k, a)
  {
    var r, s' := s.tables.ipTable[k].ref, Puts(s, node, to);
    var info := s.conns[node].info;
    TableRef(s, k);
    assert Fits(s, s.conns[node]);
    if r == to {
      HearsSees(s.conns[to], s.conns[node].phase.m, info, a);
    } else {
      assert Seen(s'.conns[r]) == Seen(s.conns[r]) && s'.conns[r].stale == s.conns[r].stale;
    }
    if NewsDue(s, r, k.network, a) {
      OtherNews(s, node, to, r, k.network, a);
    }
  }

  /** Besides this message, the reader is due the arrival of the node online at the same address, or a
      departure from it. */
  ghost predicate MoreNewsDue<R>(s: State<R>, node: R, to: R)
    requires Possible(s, Put(node, to))
  {
    var info, m := s.conns[node].info, s.conns[node].phase.m;
    var nodes := Nodes(s.tables, info.network);
    || (info.ip in nodes
        && var x := nodes[info.ip].ref; x in s.conns && to in s.conns[x].untold && !(x == node && m.PeerJoin?))
    || exists x :: x in s.conns && LeavesFrom(s.conns[x], to, info.network, info.ip) && !(x == node && m.PeerLeave?)
  }

  lemma MoreNewsRemain<R>(s: State<R>, node: R, to: R)
    requires Possible(s, Put(node, to))
    ensures var info := s.conns[node].info;
            MoreNewsDue(s, node, to) <==> NewsDue(Puts(s, node, to), to, info.network, info.ip)
  {
    var s', info, m := Puts(s, node, to), s.conns[node].info, s.conns[node].phase.m;
    if x :| x in s.conns && LeavesFrom(s.conns[x], to, info.network, info.ip) && !(x == node && m.PeerLeave?) {
      assert LeavesFrom(s'.conns[x], to, info.network, info.ip);
    }
    if x :| x in s'.conns && LeavesFrom(s'.conns[x], to, info.network, info.ip) {
      assert LeavesFrom(s.conns[x], to, info.network, info.ip);
    }
  }

  /** The write misleads its reader about the node's address in no way: what it says is so, or more news
      about the address are due to the reader. */
  ghost predicate PutSafe<R>(s: State<R>, node: R, to: R)
    requires Possible(s, Put(node, to))
  {
    var info, nodes := s.conns[node].info, Nodes(s.tables, s.conns[node].info.network);
    || MoreNewsDue(s, node, to)
    || if s.conns[node].phase.m.PeerJoin? then info.ip in nodes && NameOf(nodes[info.ip].info) == NameOf(info)
       else info.ip !in nodes
  }

  /** What is right at the node's address after the write. */
  lemma PutAt<R>(s: State<R>, node: R, to: R, k: NetKey)
    requires Tidy(s) && Possible(s, Put(node, to)) && Known(Puts(s, node, to))
    requires k in s.tables.ipTable && s.tables.ipTable[k].ref == to
    ensures k.network == s.conns[node].info.network
    ensures RightAt(Puts(s, node, to), k, s.conns[node].info.ip) <==> PutSafe(s, node, to)
  {
    var info := s.conns[node].info;
    TableRef(s, k);
    assert Fits(s, s.conns[node]);
    HearsSees(s.conns[to], s.conns[node].phase.m, info, info.ip);
    MoreNewsRemain(s, node, to);
  }

  /** Whether the reader of a write is online with its Welcome first and nothing else before it. */
  predicate Attentive<R(==)>(s: State<R>, to: R)
    requires to in s.conns
  {
    Current(s, to) && !s.conns[to].lost && !s.conns[to].phase.Fresh?
  }

  lemma PutRight<R>(s: State<R>, node: R, to: R, k: NetKey)
    requires Inv(s) && Possible(s, Put(node, to)) && Known(Puts(s, node, to)) && k in s.tables.ipTable
    requires s.tables.ipTable[k].ref == to && Attentive(s, to) ==> PutSafe(s, node, to)
    ensures Right(Puts(s, node, to), k)
  {
    var s', r := Puts(s, node, to), s.tables.ipTable[k].ref;
    assert Right(s, k);
    TableRef(s, k);
    if !s'.conns[r].lost {
      forall a: nat
        ensures RightAt(s', k, a)
      {
        if r == to && NetKey(k.network, a) == KeyOf(s.conns[node].info) {
          PutAt(s, node, to, k);
        } else {
          PutElsewhere(s, node, to, k, a);
        }
      }
    }
  }

  /** One write of a broadcast, of an arrival or a departure, keeps every client's table right if and only if
      its reader pays it no attention, or it is safe: the late message of a node that has been replaced, or
      whose address is taken again, misleads. No other step can. */
  lemma PutKeepsExactly<R>(s: State<R>, node: R, to: R)
    requires Inv(s) && Possible(s, Put(node, to))
    ensures Inv(Step(s, Put(node, to))) <==> (Attentive(s, to) ==> PutSafe(s, node, to))
  {
    PutTidy(s, node, to);
    if Attentive(s, to) && !PutSafe(s, node, to) {
      var k := KeyOf(s.conns[to].info);
      PutAt(s, node, to, k);
      assert !Right(Puts(s, node, to), k);
    } else {
      forall k | k in s.tables.ipTable
        ensures Right(Puts(s, node, to), k)
      {
        PutRight(s, node, to, k);
      }
    }
  }

  lemma OthersKeep<R>(s: State<R>, e: Event<R>)
    requires Inv(s) && Possible(s, e) && !e.Put?
    ensures Inv(Step(s, e))
  {
    match e
    case Register(ref, info, egress, had) => RegisterKeeps(s, ref, info, egress, had);
    case Greet(node) => Unseen(s, node, s.conns[node].(phase := Greeted));
    case Announce(node) => TellsKeeps(s, node, JoinOf(s.conns[node]));
    case Unlist(node) => UnlistKeeps(s, node);
    case Leave(node) => TellsKeeps(s, node, PeerLeave(s.conns[node].info.ip));
    case Grant(node, enabled) => Unseen(s, node, s.conns[node].(egress := enabled));
    case Deliver(node) => DeliverKeeps(s, node);
  }
}
