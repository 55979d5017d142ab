/** The whole server as a state machine: leases, hub tables, node meters, quota counters and ledger, with
    the history of forwarded packets (internal/server/hub.go, internal/server/server.go). */
module Server {
  import opened Bytes
  import opened Clock
  import opened Usage
  import opened LedgerText
  import opened LedgerFile
  import L = Leases
  import opened Quotas
  import opened Registry
  import opened DeliveryLog

  /** A node object: what never changes about it, its exit grant, and its meters. */
  datatype NodeState = NodeState(info: NodeInfo, egress: bool, acl: set<string>, rx: int, tx: int)

  /** `nodes` are all node objects of this process, also those no longer in the tables. `saved` is the
      ledger as last written; `log` and `savedLog` are the deliveries the two ledgers hold, and the
      first `start` of `log` happened before this process. */
  datatype State<R> = State(
    store: L.Store, tables: Tables<R>, nodes: map<R, NodeState>,
    quota: Quota, ledger: Ledger, saved: Ledger,
    log: seq<Delivery>, savedLog: seq<Delivery>, start: nat, now: nat)

  // ---- relaying a packet ----

  const IPIP: byte := 4

  function DstOf(packet: seq<byte>): nat
    requires |packet| >= 20
  {
    Get32(packet[16], packet[17], packet[18], packet[19])
  }

  /** Wrapped in an outer IP header: an exit-path packet. */
  predicate Proxied(packet: seq<byte>) {
    |packet| >= 40 && packet[9] == IPIP
  }

  predicate AclAllow(acl: set<string>, account: string) { account in acl }

  /** Who pays: the sender, except that an exit's wrapped answer is on the consumer it goes to. */
  function Attribute(src: NodeState, dst: NodeState, proxied: bool): Charge {
    if dst.egress then
      Charge(src.info.account, src.info.device, if proxied then dst.info.device else "")
    else if src.egress && proxied then
      Charge(dst.info.account, dst.info.device, src.info.device)
    else
      Charge(src.info.account, src.info.device, "")
  }

  datatype Route<R> = TooShort | NoRoute | Denied | To(dst: R)

  function RouteOf<R>(s: State<R>, src: R, packet: seq<byte>): Route<R>
    requires src in s.nodes && TablesKnown(s)
  {
    if |packet| < 20 then TooShort else
      var key := NetKey(s.nodes[src].info.network, DstOf(packet));
      if key !in s.tables.ipTable then NoRoute else
        var dst := s.nodes[s.tables.ipTable[key].ref];
        if dst.egress && dst.info.account != s.nodes[src].info.account && !AclAllow(dst.acl, s.nodes[src].info.account)
        then Denied else To(s.tables.ipTable[key].ref)
  }

  /** The clock readings of one relay: at admission, at counting, at booking. */
  datatype Times = Times(admit: nat, inc: nat, add: nat)

  datatype Result<R> =
    | Failed(route: Route<R>)
    | Blocked(verdict: Verdict)
    | WriteError
    | Delivered(dst: R, charge: Charge)

  function Outcome<R>(s: State<R>, src: R, packet: seq<byte>, limits: Limits, t: Times, writeOk: bool): Result<R>
    requires src in s.nodes && TablesKnown(s)
  {
    var route := RouteOf(s, src, packet);
    if !route.To? then Failed(route) else
      var c := Attribute(s.nodes[src], s.nodes[route.dst], Proxied(packet));
      var v := Admit(s.quota, limits, c, |packet|, t.admit);
      if !v.Admitted? then Blocked(v) else if !writeOk then WriteError else Delivered(route.dst, c)
  }

  function Metered<R(==)>(nodes: map<R, NodeState>, src: R, dst: R, n: nat): map<R, NodeState>
    requires src in nodes && dst in nodes
  {
    var m := nodes[src := nodes[src].(rx := nodes[src].rx + n)];
    m[dst := m[dst].(tx := m[dst].tx + n)]
  }

  function DeliveryOf<R>(s: State<R>, src: R, dst: R, c: Charge, packet: seq<byte>, limits: Limits, t: Times): Delivery
    requires src in s.nodes && dst in s.nodes
  {
    var counted := limits.For(c.account).Limited() && DayOf(t.inc) == DayOf(t.add);
    Delivery(c, |packet|, t.add, s.nodes[src].info.device, s.nodes[dst].info.device,
             s.nodes[src].egress, s.nodes[dst].egress, Proxied(packet), counted, counted)
  }

  /** What each outcome leaves behind: a refused or failed relay only the turn of the day. */
  function Effect<R(==)>(s: State<R>, r: Result<R>, src: R, packet: seq<byte>, limits: Limits, t: Times): State<R>
    requires r.Delivered? ==> src in s.nodes && r.dst in s.nodes
  {
    match r
    case Failed(_) => s.(now := t.add)
    case Blocked(_) => s.(quota := Rolled(s.quota, t.admit), now := t.add)
    case WriteError => s.(quota := Rolled(s.quota, t.admit), now := t.add)
    case Delivered(dst, c) =>
      var d := DeliveryOf(s, src, dst, c, packet, limits, t);
      s.(nodes := Metered(s.nodes, src, dst, |packet|),
         quota := Inc(Rolled(s.quota, t.admit), limits, c, |packet|, t.inc),
         ledger := Added(s.ledger, BucketOf(d), 0, |packet|),
         log := s.log + [d], now := t.add)
  }

  function Relayed<R(==)>(s: State<R>, src: R, packet: seq<byte>, limits: Limits, t: Times, writeOk: bool): State<R>
    requires src in s.nodes && TablesKnown(s)
  {
    Effect(s, Outcome(s, src, packet, limits, t, writeOk), src, packet, limits, t)
  }

  // ---- joining and leaving ----

  /** `asks` is what the client announces, its own setting; `enabled` is what the device record allows. */
  datatype Hello = Hello(device: string, account: string, hostname: string, os: string,
                         asks: bool, enabled: bool, acl: set<string>)
  {
    predicate Egress() { asks && enabled }
  }

  /** A joining device's network is its account's own. */
  function NetworkOf(h: Hello): string { h.account }

  ghost function InfoFor(h: Hello, ip: nat): NodeInfo {
    NodeInfo(h.device, h.account, NetworkOf(h), ip, h.hostname, h.os)
  }

  ghost function Joined<R>(s: State<R>, ref: R, h: Hello, saveOk: bool): State<R> {
    var store' := L.Allocated(s.store, NetworkOf(h), h.account, h.device, saveOk);
    match L.Answer(s.store, NetworkOf(h), h.device, saveOk)
    case Leased(ip) =>
      s.(store := store', tables := Registered(s.tables, Entry(ref, InfoFor(h, ip))),
         nodes := s.nodes[ref := NodeState(InfoFor(h, ip), h.Egress(), h.acl, 0, 0)])
    case Exhausted => s.(store := store')
    case SaveFailed => s.(store := store')
  }

  function Left<R(==)>(s: State<R>, ref: R): State<R>
    requires ref in s.nodes
  {
    s.(tables := Removed(s.tables, Entry(ref, s.nodes[ref].info)))
  }

  function EgressSet<R(==)>(s: State<R>, key: NetKey, enabled: bool, acl: set<string>): State<R>
    requires key in s.tables.ipTable && TablesKnown(s)
  {
    var ref := s.tables.ipTable[key].ref;
    s.(nodes := s.nodes[ref := s.nodes[ref].(egress := enabled, acl := acl)])
  }

  // ---- restarting ----

  ghost function Restarted<R>(s: State<R>, reopened: Ledger, first: nat, now: nat): State<R> {
    var store' := L.Reopened(s.store);
    var leases := L.AllLeases(store'.nets);
    State(store', Tables(map[], map[]), map[], Backfilled(leases, reopened, first, now),
          reopened, s.saved, Refilled(s.savedLog, leases), s.savedLog, |s.savedLog|, now)
  }

  // ---- events and runs ----

  datatype Event<R> =
    | Join(ref: R, hello: Hello, saveOk: bool)
    | Leave(node: R)
    | SetEgress(key: NetKey, device: string, enabled: bool, acl: set<string>)
    | Relay(src: R, packet: seq<byte>, limits: Limits, t: Times, writeOk: bool)
    | SaveUsage
    | Restart(file: File, reopened: Ledger, first: nat, at: nat)

  /** What the surroundings guarantee of an event: node objects are new when they join, ids are not
      empty and hold no bar, the clock does not run backward, and a restart reads the saved file. */
  ghost predicate Possible<R>(s: State<R>, e: Event<R>) {
    match e
    case Join(ref, h, _) => ref !in s.nodes && h.device != "" && BarFree(h.device) && BarFree(h.account)
    case Leave(node) => node in s.nodes
    case SetEgress(key, device, _, _) => key in s.tables.ipTable && s.tables.ipTable[key].info.device == device
    case Relay(src, _, _, t, _) => src in s.nodes && s.now <= t.admit <= t.inc <= t.add <= MAX_INT64
    case SaveUsage => true
    case Restart(file, reopened, first, at) =>
      s.now <= first <= at <= MAX_INT64 && Saves(s.saved, file) && Opens(file, reopened)
  }

  ghost function Step<R>(s: State<R>, e: Event<R>): State<R>
    requires Possible(s, e) && TablesKnown(s)
  {
    match e
    case Join(ref, h, saveOk) => Joined(s, ref, h, saveOk)
    case Leave(node) => Left(s, node)
    case SetEgress(key, _, enabled, acl) => EgressSet(s, key, enabled, acl)
    case Relay(src, packet, limits, t, writeOk) => Relayed(s, src, packet, limits, t, writeOk)
    case SaveUsage => s.(saved := s.ledger, savedLog := s.log)
    case Restart(_, reopened, first, at) => Restarted(s, reopened, first, at)
  }

  function Initial<R>(net: L.Net, now: nat): State<R> {
    State(L.Start(net), Tables(map[], map[]), map[], Quota(DayOf(now), map[], map[]),
          map[], map[], [], [], 0, now)
  }

  /** The state after a run of events; an event that is not possible where it comes does not happen. */
  ghost function Run<R>(s: State<R>, es: seq<Event<R>>): State<R> {
    if es == [] then s else
      var s' := Run(s, es[..|es| - 1]);
      var e := es[|es| - 1];
      if TablesKnown(s') && Possible(s', e) then Step(s', e) else s'
  }

  // ---- the hub invariant ----

  /** Every table entry is a node object of this process. */
  predicate TablesKnown<R>(s: State<R>) {
    forall k <- s.tables.ipTable ::
      var e := s.tables.ipTable[k]; e.ref in s.nodes && s.nodes[e.ref].info == e.info
  }

  /** A node owns the lease of its address, in the network named after its account. */
  ghost predicate Owns(store: L.Store, info: NodeInfo) {
    var leases := L.StateOf(store, info.network).leases;
    && info.ip in leases && leases[info.ip].device == info.device
    && info.network == info.account
    && info.device != "" && BarFree(info.device) && BarFree(info.account)
  }

  /** Networks are named after their owners, in memory and on disk. */
  ghost predicate OwnNetworks(store: L.Store) {
    && (forall n <- store.nets :: forall ip <- store.nets[n].leases :: store.nets[n].leases[ip].account == n)
    && (forall l <- store.file :: l.account == l.network)
  }

  ghost predicate HubInv<R>(s: State<R>) {
    && L.StoreInv(s.store) && OwnNetworks(s.store)
    && TablesKnown(s) && Agree(s.tables)
    && (forall r <- s.nodes :: Owns(s.store, s.nodes[r].info))
  }
}
