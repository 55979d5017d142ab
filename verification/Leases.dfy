/** Virtual address leases, one address space per network (internal/account/lease.go).
    An address is its 32-bit value; `Subnet` relates values to address bytes. */
module Leases {
  import opened Subnet

  /** Scans for a free address give up after this many steps. */
  const TRIES: nat := 65536

  const SPACE: nat := 0x1_0000_0000

  datatype Net = Net(base: nat, prefix: nat)
  {
    function Size(): (n: nat)
      ensures n >= 1
    {
      Pow(2, if prefix <= 32 then 32 - prefix else 0)
    }

    /** What parsing a CIDR yields: a masked base inside the 32-bit space. */
    ghost predicate Valid() {
      prefix <= 32 && base + Size() <= SPACE
    }

    predicate Contains(ip: nat) { base <= ip < base + Size() }

    function Broadcast(): nat { base + Size() - 1 }

    /** How many addresses lie strictly between the network and the broadcast address. */
    function Usable(): nat { if Size() < 2 then 0 else Size() - 2 }
  }

  /** `nextIP(ip, 1)` on four bytes. */
  function Next(ip: nat): nat { (ip + 1) % SPACE }

  datatype Lease = Lease(network: string, account: string, device: string, ip: nat)

  datatype NetState = NetState(next: nat, leases: map<nat, Lease>)

  function Fresh(net: Net): NetState { NetState(Next(net.base), map[]) }

  // ---- the scan for a free address ----

  datatype Scan = Free(ip: nat) | Full(next: nat)

  function ScanFree(net: Net, leases: map<nat, Lease>, next: nat, tries: nat): Scan
    decreases tries, next
  {
    if tries == 0 || !net.Contains(next) then Full(next)
    else if next == net.Broadcast() || next in leases then ScanFree(net, leases, Next(next), tries - 1)
    else Free(next)
  }

  /** Where reopening puts the cursor: the first free address after base+1, or where the scan gives up. */
  function Skip(leases: map<nat, Lease>, next: nat, tries: nat): nat
    decreases tries, next
  {
    if tries == 0 || next !in leases then next else Skip(leases, Next(next), tries - 1)
  }

  // ---- one network ----

  ghost predicate Holds(st: NetState, device: string) {
    exists ip :: ip in st.leases && st.leases[ip].device == device
  }

  ghost function HolderOf(st: NetState, device: string): (ip: nat)
    requires Holds(st, device)
    ensures ip in st.leases && st.leases[ip].device == device
  {
    var ip :| ip in st.leases && st.leases[ip].device == device;
    ip
  }

  datatype Outcome = Leased(ip: nat) | Exhausted | SaveFailed

  /** The address a request gets, before the lease file is written. */
  ghost function Choose(net: Net, st: NetState, device: string): Outcome {
    if Holds(st, device) then Leased(HolderOf(st, device)) else
      match ScanFree(net, st.leases, st.next, TRIES)
      case Free(ip) => Leased(ip)
      case Full(_) => Exhausted
  }

  ghost function Granted(net: Net, st: NetState, network: string, account: string, device: string): NetState {
    if Holds(st, device) then
      var ip := HolderOf(st, device);
      NetState(st.next, st.leases[ip := st.leases[ip].(account := account)])
    else
      match ScanFree(net, st.leases, st.next, TRIES)
      case Free(ip) => NetState(Next(ip), st.leases[ip := Lease(network, account, device, ip)])
      case Full(next) => NetState(next, st.leases)
  }

  /** `ip` is one of the first `m` addresses after the network address. */
  predicate InBlock(net: Net, m: nat, ip: nat) {
    net.base + 1 <= ip < net.base + 1 + m
  }

  /** Leases fill the subnet from the bottom ... */
  ghost predicate Packed(net: Net, leases: map<nat, Lease>) {
    && |leases| <= net.Usable()
    && forall ip: nat :: ip in leases <==> InBlock(net, |leases|, ip)
  }

  /** ... name their key, and give no device two addresses. */
  ghost predicate Filled(net: Net, network: string, leases: map<nat, Lease>) {
    && Packed(net, leases)
    && (forall ip <- leases :: leases[ip].ip == ip && leases[ip].network == network)
    && (forall a, b | a in leases && b in leases && leases[a].device == leases[b].device :: a == b)
  }

  /** The first address not leased yet (the broadcast address once all are). */
  function Frontier(net: Net, leases: map<nat, Lease>): nat {
    net.base + 1 + |leases|
  }

  /** The cursor; it wraps to 0 only past the end of the 32-bit space. */
  function Cursor(st: NetState): nat {
    if st.next == 0 then SPACE else st.next
  }

  /** The cursor never runs ahead of the frontier, except past a broadcast address it has skipped. */
  ghost predicate CursorOk(net: Net, st: NetState) {
    && st.next < SPACE
    && net.base + 1 <= Cursor(st)
    && (Cursor(st) <= Frontier(net, st.leases)
        || (|st.leases| == net.Usable() && Cursor(st) == net.base + net.Size()))
  }

  ghost predicate NetInv(net: Net, network: string, st: NetState) {
    Filled(net, network, st.leases) && CursorOk(net, st)
  }

  lemma HalfSpace(net: Net)
    requires net.Valid() && net.prefix >= 1
    ensures net.Size() <= 0x8000_0000
  {
    PowMonotone(32 - net.prefix, 31);
    PowerTable();
  }

  lemma FreshInv(net: Net, network: string)
    requires net.Valid() && net.prefix >= 1
    ensures NetInv(net, network, Fresh(net))
  {
    HalfSpace(net);
  }

  /** From a cursor at or below the frontier the scan finds exactly the frontier, when it is usable and
      within reach. */
  lemma {:induction false} ScanFindsFrontier(net: Net, leases: map<nat, Lease>, next: nat, tries: nat)
    requires net.Valid() && Packed(net, leases)
    requires net.base + 1 <= next <= Frontier(net, leases)
    requires |leases| < net.Usable()
    ensures ScanFree(net, leases, next, tries)
            == if Frontier(net, leases) - next < tries then Free(Frontier(net, leases)) else Full(next + tries)
    decreases tries
  {
    if tries > 0 && next < Frontier(net, leases) {
      assert InBlock(net, |leases|, next);
      ScanFindsFrontier(net, leases, next + 1, tries - 1);
    } else if tries > 0 {
      assert !InBlock(net, |leases|, next);
    }
  }

  /** With every usable address leased the scan finds nothing. */
  lemma {:induction false} ScanFindsNothing(net: Net, leases: map<nat, Lease>, next: nat, tries: nat)
    requires net.Valid() && net.prefix >= 1 && Packed(net, leases) && |leases| == net.Usable()
    requires next < SPACE
    requires net.base + 1 <= (if next == 0 then SPACE else next) <= net.base + net.Size()
    ensures var r := ScanFree(net, leases, next, tries);
            && r.Full? && r.next < SPACE
            && net.base + 1 <= (if r.next == 0 then SPACE else r.next) <= net.base + net.Size()
    decreases tries
  {
    HalfSpace(net);
    if tries > 0 && net.Contains(next) {
      assert next == net.Broadcast() || InBlock(net, |leases|, next);
      ScanFindsNothing(net, leases, Next(next), tries - 1);
    }
  }

  /** A new lease at the frontier. */
  lemma FillOneMore(net: Net, network: string, leases: map<nat, Lease>, l: Lease)
    requires Filled(net, network, leases) && |leases| < net.Usable()
    requires l.ip == Frontier(net, leases) && l.network == network
    requires forall ip <- leases :: leases[ip].device != l.device
    ensures l.ip !in leases && |leases[l.ip := l]| == |leases| + 1
    ensures Filled(net, network, leases[l.ip := l])
  {
    assert !InBlock(net, |leases|, l.ip);
  }

  lemma ChangeAccount(net: Net, network: string, leases: map<nat, Lease>, ip: nat, account: string)
    requires Filled(net, network, leases) && ip in leases
    ensures |leases[ip := leases[ip].(account := account)]| == |leases|
    ensures Filled(net, network, leases[ip := leases[ip].(account := account)])
  {
    var l' := leases[ip := leases[ip].(account := account)];
    assert l'.Keys == leases.Keys;
    assert |l'| == |l'.Keys|;
  }

  /** A request is refused exactly when every usable address is taken or the cursor lags 65536 or more
      behind the frontier; a new lease is always the frontier. */
  lemma RefusedExactly(net: Net, network: string, st: NetState, device: string)
    requires net.Valid() && net.prefix >= 1 && NetInv(net, network, st)
    ensures Choose(net, st, device).Exhausted? <==>
              && !Holds(st, device)
              && (|st.leases| == net.Usable() || Frontier(net, st.leases) - Cursor(st) >= TRIES)
    ensures !Holds(st, device) && Choose(net, st, device).Leased? ==>
              Choose(net, st, device) == Leased(Frontier(net, st.leases))
  {
    HalfSpace(net);
    if !Holds(st, device) {
      if |st.leases| < net.Usable() {
        ScanFindsFrontier(net, st.leases, st.next, TRIES);
      } else {
        ScanFindsNothing(net, st.leases, st.next, TRIES);
      }
    }
  }

  /** A repeated request: the same lease, perhaps under another account. */
  lemma GrantHeld(net: Net, network: string, st: NetState, account: string, device: string)
    requires NetInv(net, network, st) && Holds(st, device)
    ensures var st' := Granted(net, st, network, account, device);
            && Filled(net, network, st'.leases) && |st'.leases| == |st.leases| && st'.next == st.next
            && (forall ip <- st.leases :: ip in st'.leases && st'.leases[ip].device == st.leases[ip].device)
            && forall ip <- st.leases :: st'.leases[ip].account
                 == if st.leases[ip].device == device then account else st.leases[ip].account
  {
    ChangeAccount(net, network, st.leases, HolderOf(st, device), account);
  }

  /** What a successful scan makes of a request. */
  lemma ScannedFree(net: Net, network: string, st: NetState, account: string, device: string, f: nat)
    requires !Holds(st, device) && ScanFree(net, st.leases, st.next, TRIES) == Free(f)
    ensures Choose(net, st, device) == Leased(f)
    ensures Granted(net, st, network, account, device)
            == NetState(Next(f), st.leases[f := Lease(network, account, device, f)])
  {
  }

  lemma CursorBelow(net: Net, st: NetState)
    requires net.Valid() && CursorOk(net, st) && |st.leases| < net.Usable()
    ensures net.base + 1 <= st.next == Cursor(st) <= Frontier(net, st.leases)
    ensures Next(Frontier(net, st.leases)) == Frontier(net, st.leases) + 1
  {
  }

  /** A new lease: one more, at the frontier, with the cursor behind it. */
  lemma GrantFresh(net: Net, network: string, st: NetState, account: string, device: string)
    requires net.Valid() && NetInv(net, network, st) && !Holds(st, device)
    requires |st.leases| < net.Usable() && Frontier(net, st.leases) - Cursor(st) < TRIES
    ensures var st', f := Granted(net, st, network, account, device), Frontier(net, st.leases);
            && Choose(net, st, device) == Leased(f)
            && st' == NetState(f + 1, st.leases[f := Lease(network, account, device, f)])
            && f !in st.leases && |st'.leases| == |st.leases| + 1
            && Filled(net, network, st'.leases)
  {
    var f := Frontier(net, st.leases);
    CursorBelow(net, st);
    ScanFindsFrontier(net, st.leases, st.next, TRIES);
    ScannedFree(net, network, st, account, device, f);
    FillOneMore(net, network, st.leases, Lease(network, account, device, f));
  }

  /** A refusal only moves the cursor. */
  lemma GrantRefused(net: Net, network: string, st: NetState, account: string, device: string)
    requires net.Valid() && net.prefix >= 1 && NetInv(net, network, st) && !Holds(st, device)
    requires |st.leases| == net.Usable() || Frontier(net, st.leases) - Cursor(st) >= TRIES
    ensures var st' := Granted(net, st, network, account, device);
            st'.leases == st.leases && CursorOk(net, st')
  {
    HalfSpace(net);
    if |st.leases| < net.Usable() {
      ScanFindsFrontier(net, st.leases, st.next, TRIES);
    } else {
      ScanFindsNothing(net, st.leases, st.next, TRIES);
    }
  }

  lemma GrantKeepsShape(net: Net, network: string, st: NetState, account: string, device: string)
    requires net.Valid() && net.prefix >= 1 && NetInv(net, network, st)
    ensures NetInv(net, network, Granted(net, st, network, account, device))
  {
    if Holds(st, device) {
      GrantHeld(net, network, st, account, device);
    } else if |st.leases| < net.Usable() && Frontier(net, st.leases) - Cursor(st) < TRIES {
      GrantFresh(net, network, st, account, device);
    } else {
      GrantRefused(net, network, st, account, device);
    }
  }

  /** Reopening puts the cursor on the frontier, or 65536 addresses above the first one when the
      frontier is farther up. */
  lemma {:induction false} SkipReaches(net: Net, leases: map<nat, Lease>, next: nat, tries: nat)
    requires net.Valid() && net.prefix >= 1 && Packed(net, leases) && leases != map[]
    requires net.base + 1 <= next <= Frontier(net, leases)
    ensures Skip(leases, next, tries)
            == if Frontier(net, leases) - next <= tries then Frontier(net, leases) else next + tries
    decreases tries
  {
    if tries > 0 {
      assert next in leases <==> InBlock(net, |leases|, next);
      if next in leases {
        BelowBroadcast(net, leases, next);
        SkipReaches(net, leases, next + 1, tries - 1);
      }
    }
  }

  lemma BelowBroadcast(net: Net, leases: map<nat, Lease>, ip: nat)
    requires net.Valid() && Packed(net, leases) && ip in leases
    ensures net.base < ip < net.Broadcast() && Next(ip) == ip + 1
  {
    assert InBlock(net, |leases|, ip);
  }

  function Reset(net: Net, leases: map<nat, Lease>): NetState {
    NetState(Skip(leases, Next(net.base), TRIES), leases)
  }

  lemma SkipNothing(next: nat)
    ensures Skip(map[], next, TRIES) == next
  {
  }

  lemma NextOfBase(net: Net, leases: map<nat, Lease>)
    requires net.Valid() && Packed(net, leases) && leases != map[]
    ensures Next(net.base) == net.base + 1 && Frontier(net, leases) < SPACE
  {
  }

  /** How far the cursor lags behind the frontier after reopening. */
  lemma ResetCursor(net: Net, leases: map<nat, Lease>)
    requires net.Valid() && net.prefix >= 1 && Packed(net, leases)
    ensures Reset(net, leases).next < SPACE
    ensures net.base + 1 <= Cursor(Reset(net, leases))
    ensures Frontier(net, leases) - Cursor(Reset(net, leases)) == if |leases| <= TRIES then 0 else |leases| - TRIES
  {
    HalfSpace(net);
    if leases == map[] {
      SkipNothing(Next(net.base));
    } else {
      NextOfBase(net, leases);
      SkipReaches(net, leases, net.base + 1, TRIES);
    }
  }

  lemma ResetInv(net: Net, network: string, leases: map<nat, Lease>)
    requires net.Valid() && net.prefix >= 1 && Filled(net, network, leases)
    ensures NetInv(net, network, Reset(net, leases))
  {
    ResetCursor(net, leases);
  }

  // ---- the whole store ----

  /** `file` is the lease list on disk, as last written. */
  datatype Store = Store(net: Net, nets: map<string, NetState>, file: set<Lease>)

  function StateOf(s: Store, network: string): NetState {
    if network in s.nets then s.nets[network] else Fresh(s.net)
  }

  function AllLeases(nets: map<string, NetState>): set<Lease> {
    set network, ip | network in nets && ip in nets[network].leases :: nets[network].leases[ip]
  }

  /** A fresh lease is written to disk at once; a repeated request writes nothing. A failed write still
      leaves the lease in memory. */
  ghost function Allocated(s: Store, network: string, account: string, device: string, saveOk: bool): Store {
    var st := StateOf(s, network);
    var nets' := s.nets[network := Granted(s.net, st, network, account, device)];
    var writes := !Holds(st, device) && Choose(s.net, st, device).Leased? && saveOk;
    Store(s.net, nets', if writes then AllLeases(nets') else s.file)
  }

  ghost function Answer(s: Store, network: string, device: string, saveOk: bool): Outcome {
    var st := StateOf(s, network);
    var c := Choose(s.net, st, device);
    if c.Leased? && !Holds(st, device) && !saveOk then SaveFailed else c
  }

  predicate Functional(file: set<Lease>) {
    forall a, b | a in file && b in file && a.network == b.network && a.ip == b.ip :: a == b
  }

  function AddressesIn(file: set<Lease>, network: string): set<nat> {
    set l | l in file && l.network == network :: l.ip
  }

  ghost function LeaseAt(file: set<Lease>, network: string, ip: nat): (l: Lease)
    requires ip in AddressesIn(file, network)
    ensures l in file && l.network == network && l.ip == ip
  {
    var l :| l in file && l.network == network && l.ip == ip;
    l
  }

  ghost function LeasesIn(file: set<Lease>, network: string): map<nat, Lease> {
    map ip | ip in AddressesIn(file, network) :: LeaseAt(file, network, ip)
  }

  ghost function Loaded(net: Net, file: set<Lease>): map<string, NetState> {
    map network | network in (set l | l in file :: l.network) :: Reset(net, LeasesIn(file, network))
  }

  ghost function Reopened(s: Store): Store {
    Store(s.net, Loaded(s.net, s.file), s.file)
  }

  ghost predicate StoreInv(s: Store) {
    && s.net.Valid() && s.net.prefix >= 1
    && (forall network <- s.nets :: NetInv(s.net, network, s.nets[network]))
    && Functional(s.file)
    && (forall network: string :: Filled(s.net, network, LeasesIn(s.file, network)))
  }

  // ---- writing and reading the lease file ----

  lemma SavedFileIsFunctional(net: Net, nets: map<string, NetState>)
    requires forall network <- nets :: Filled(net, network, nets[network].leases)
    ensures Functional(AllLeases(nets))
  {
  }

  lemma SavedAddresses(net: Net, nets: map<string, NetState>, network: string, ip: nat)
    requires forall n <- nets :: Filled(net, n, nets[n].leases)
    ensures ip in AddressesIn(AllLeases(nets), network) <==> network in nets && ip in nets[network].leases
  {
    if network in nets && ip in nets[network].leases {
      assert nets[network].leases[ip] in AllLeases(nets);
    }
  }

  lemma SameMap<K, V>(l: map<K, V>, r: map<K, V>)
    requires (forall k :: k in l <==> k in r) && forall k <- r :: l[k] == r[k]
    ensures l == r
  {
  }

  /** Reading back what was written gives every network its leases. */
  lemma SaveThenLoad(net: Net, nets: map<string, NetState>, network: string)
    requires forall n <- nets :: Filled(net, n, nets[n].leases)
    ensures LeasesIn(AllLeases(nets), network) == if network in nets then nets[network].leases else map[]
  {
    var l, r := LeasesIn(AllLeases(nets), network), if network in nets then nets[network].leases else map[];
    forall ip: nat
      ensures ip in l <==> ip in r
    {
      SavedAddresses(net, nets, network, ip);
    }
    forall ip | ip in r
      ensures l[ip] == r[ip]
    {
      SavedLease(net, nets, network, ip);
    }
    SameMap(l, r);
  }

  lemma SavedLease(net: Net, nets: map<string, NetState>, network: string, ip: nat)
    requires forall n <- nets :: Filled(net, n, nets[n].leases)
    requires network in nets && ip in nets[network].leases && ip in AddressesIn(AllLeases(nets), network)
    ensures LeaseAt(AllLeases(nets), network, ip) == nets[network].leases[ip]
  {
    SavedFileIsFunctional(net, nets);
    assert nets[network].leases[ip] in AllLeases(nets);
  }

  lemma NothingIsFilled(net: Net, network: string)
    ensures Filled(net, network, map[])
  {
  }

  lemma SavedFileIsFilled(net: Net, nets: map<string, NetState>)
    requires forall n <- nets :: Filled(net, n, nets[n].leases)
    ensures forall network: string :: Filled(net, network, LeasesIn(AllLeases(nets), network))
  {
    forall network: string
      ensures Filled(net, network, LeasesIn(AllLeases(nets), network))
    {
      SaveThenLoad(net, nets, network);
      NothingIsFilled(net, network);
    }
  }

  // ---- runs ----

  datatype Event = Request(network: string, account: string, device: string, saveOk: bool) | Reopen

  ghost function Step(s: Store, e: Event): Store {
    match e
    case Request(network, account, device, saveOk) => Allocated(s, network, account, device, saveOk)
    case Reopen => Reopened(s)
  }

  ghost function Run(s: Store, es: seq<Event>): Store {
    if es == [] then s else Step(Run(s, es[..|es| - 1]), es[|es| - 1])
  }

  function Start(net: Net): Store { Store(net, map[], {}) }

  lemma StartInv(net: Net)
    requires net.Valid() && net.prefix >= 1
    ensures StoreInv(Start(net))
  {
    forall network: string
      ensures Filled(net, network, LeasesIn({}, network))
    {
      assert LeasesIn({}, network) == map[];
    }
  }

  lemma StateInv(s: Store, network: string)
    requires StoreInv(s)
    ensures NetInv(s.net, network, StateOf(s, network))
  {
    FreshInv(s.net, network);
  }

  lemma RequestKeepsNets(s: Store, network: string, account: string, device: string, saveOk: bool)
    requires StoreInv(s)
    ensures var nets := Allocated(s, network, account, device, saveOk).nets;
            forall n <- nets :: NetInv(s.net, n, nets[n])
  {
    StateInv(s, network);
    GrantKeepsShape(s.net, network, StateOf(s, network), account, device);
  }

  lemma SavedFileInv(net: Net, nets: map<string, NetState>)
    requires forall n <- nets :: NetInv(net, n, nets[n])
    ensures Functional(AllLeases(nets))
    ensures forall network: string :: Filled(net, network, LeasesIn(AllLeases(nets), network))
  {
    SavedFileIsFunctional(net, nets);
    SavedFileIsFilled(net, nets);
  }

  lemma RequestInv(s: Store, network: string, account: string, device: string, saveOk: bool)
    requires StoreInv(s)
    ensures StoreInv(Allocated(s, network, account, device, saveOk))
  {
    RequestKeepsNets(s, network, account, device, saveOk);
    SavedFileInv(s.net, Allocated(s, network, account, device, saveOk).nets);
  }

  lemma ReopenInv(s: Store)
    requires StoreInv(s)
    ensures StoreInv(Reopened(s))
  {
    var s' := Reopened(s);
    forall network | network in s'.nets
      ensures NetInv(s'.net, network, s'.nets[network])
    {
      ResetInv(s.net, network, LeasesIn(s.file, network));
    }
  }

  lemma {:induction false} RunInv(net: Net, es: seq<Event>)
    requires net.Valid() && net.prefix >= 1
    ensures StoreInv(Run(Start(net), es)) && Run(Start(net), es).net == net
  {
    if es == [] {
      StartInv(net);
    } else {
      var init, e := es[..|es| - 1], es[|es| - 1];
      RunInv(net, init);
      var s := Run(Start(net), init);
      match e
      case Request(network, account, device, saveOk) => RequestInv(s, network, account, device, saveOk);
      case Reopen => ReopenInv(s);
    }
  }
}
