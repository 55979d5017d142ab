/** What every run of requests and reopenings keeps, and where the promises of the lease store end
    (internal/account/lease.go). */
module LeaseRuns {
  import opened Subnet
  import opened Leases

  // ---- safety ----

  /** In every reachable store, devices and addresses of a network correspond one to one, and every
      address lies strictly between the network and the broadcast address. */
  lemma LeasesAreSafe(net: Net, es: seq<Event>, network: string)
    requires net.Valid() && net.prefix >= 1
    requires network in Run(Start(net), es).nets
    ensures var leases := Run(Start(net), es).nets[network].leases;
            && (forall ip <- leases :: net.base < ip < net.Broadcast() && leases[ip].ip == ip)
            && (forall a, b | a in leases && b in leases :: leases[a].device == leases[b].device <==> a == b)
  {
    RunInv(net, es);
    var st := Run(Start(net), es).nets[network];
    assert NetInv(net, network, st);
  }

  // ---- completeness ----

  lemma SizeBelow(net: Net, p: nat, size: nat)
    requires net.Valid() && p <= net.prefix && Pow(2, 32 - p) == size
    ensures net.Size() <= size
  {
    PowMonotone(32 - net.prefix, 32 - p);
  }

  lemma SizeAbove(net: Net, p: nat, size: nat)
    requires net.Valid() && net.prefix <= p <= 32 && Pow(2, 32 - p) == size
    ensures net.Size() >= size
  {
    PowMonotone(32 - p, 32 - net.prefix);
  }

  /** The cursor can still reach the frontier within one scan. */
  ghost predicate Reaches(net: Net, st: NetState) {
    |st.leases| < net.Usable() ==> Frontier(net, st.leases) - Cursor(st) < TRIES
  }

  lemma GrantReaches(net: Net, network: string, st: NetState, account: string, device: string)
    requires net.Valid() && net.prefix >= 1 && NetInv(net, network, st) && Reaches(net, st)
    ensures Reaches(net, Granted(net, st, network, account, device))
  {
    if Holds(st, device) {
      GrantHeld(net, network, st, account, device);
    } else if |st.leases| < net.Usable() {
      GrantFresh(net, network, st, account, device);
    } else {
      GrantRefused(net, network, st, account, device);
    }
  }

  lemma ResetReaches(net: Net, leases: map<nat, Lease>)
    requires net.Valid() && net.prefix >= 15 && Packed(net, leases)
    ensures Reaches(net, Reset(net, leases))
  {
    PowerTable();
    SizeBelow(net, 15, 0x2_0000);
    ResetCursor(net, leases);
  }

  ghost predicate AllReach(s: Store) {
    forall network <- s.nets :: Reaches(s.net, s.nets[network])
  }

  lemma StateReaches(s: Store, network: string)
    requires StoreInv(s) && AllReach(s)
    ensures Reaches(s.net, StateOf(s, network))
  {
    HalfSpace(s.net);
  }

  lemma RequestReaches(s: Store, network: string, account: string, device: string, saveOk: bool)
    requires StoreInv(s) && AllReach(s)
    ensures AllReach(Allocated(s, network, account, device, saveOk))
  {
    StateInv(s, network);
    StateReaches(s, network);
    GrantReaches(s.net, network, StateOf(s, network), account, device);
  }

  lemma ReopenReaches(s: Store)
    requires StoreInv(s) && s.net.prefix >= 15
    ensures AllReach(Reopened(s))
  {
    forall network | network in Reopened(s).nets
      ensures Reaches(s.net, Reopened(s).nets[network])
    {
      ResetReaches(s.net, LeasesIn(s.file, network));
    }
  }

  lemma StepReaches(s: Store, e: Event)
    requires StoreInv(s) && s.net.prefix >= 15 && AllReach(s)
    ensures AllReach(Step(s, e))
  {
    match e
    case Request(network, account, device, saveOk) => RequestReaches(s, network, account, device, saveOk);
    case Reopen => ReopenReaches(s);
  }

  lemma {:induction false} RunReaches(net: Net, es: seq<Event>)
    requires net.Valid() && net.prefix >= 15
    ensures AllReach(Run(Start(net), es))
  {
    if es != [] {
      RunReaches(net, es[..|es| - 1]);
      RunInv(net, es[..|es| - 1]);
      StepReaches(Run(Start(net), es[..|es| - 1]), es[|es| - 1]);
    }
  }

  /** For prefixes /15 and longer, after any run: a new device is refused exactly when every usable
      address of its network is leased. */
  lemma RefusedOnlyWhenFull(net: Net, es: seq<Event>, network: string, device: string, saveOk: bool)
    requires net.Valid() && net.prefix >= 15
    ensures var s := Run(Start(net), es);
            var st := StateOf(s, network);
            Answer(s, network, device, saveOk).Exhausted? <==>
              !Holds(st, device) && forall ip: nat :: net.base < ip < net.Broadcast() ==> ip in st.leases
  {
    RunInv(net, es);
    RunReaches(net, es);
    var s := Run(Start(net), es);
    var st := StateOf(s, network);
    StateInv(s, network);
    RefusedExactly(net, network, st, device);
    HalfSpace(net);
    assert Reaches(net, st);
    var f := Frontier(net, st.leases);
    assert f in st.leases <==> InBlock(net, |st.leases|, f);
    if |st.leases| == net.Usable() {
      forall ip: nat | net.base < ip < net.Broadcast()
        ensures ip in st.leases
      {
        assert InBlock(net, |st.leases|, ip);
      }
    } else {
      assert net.base < f < net.Broadcast() && f !in st.leases;
    }
  }

  /** For prefixes /16 and longer the cursor alone tells what is leased: everything from base+1 up to
      it, except the broadcast address. */
  lemma LeasedUpToCursor(net: Net, es: seq<Event>, network: string, ip: nat)
    requires net.Valid() && net.prefix >= 16
    ensures var st := StateOf(Run(Start(net), es), network);
            ip in st.leases <==> net.base + 1 <= ip < Cursor(st) && ip != net.Broadcast()
  {
    RunInv(net, es);
    RunCaughtUp(net, es);
    StateInv(Run(Start(net), es), network);
    var st := StateOf(Run(Start(net), es), network);
    assert CaughtUp(net, st) by { HalfSpace(net); }
    assert ip in st.leases <==> InBlock(net, |st.leases|, ip);
  }

  ghost predicate CaughtUp(net: Net, st: NetState) {
    Cursor(st) == Frontier(net, st.leases)
    || (|st.leases| == net.Usable() && Cursor(st) == net.base + net.Size())
  }

  lemma GrantCaughtUp(net: Net, network: string, st: NetState, account: string, device: string)
    requires net.Valid() && net.prefix >= 1 && NetInv(net, network, st) && CaughtUp(net, st)
    ensures CaughtUp(net, Granted(net, st, network, account, device))
  {
    if Holds(st, device) {
      GrantHeld(net, network, st, account, device);
    } else if |st.leases| < net.Usable() {
      GrantFresh(net, network, st, account, device);
    } else {
      GrantPast(net, network, st, account, device);
    }
  }

  lemma ScannedFull(net: Net, network: string, st: NetState, account: string, device: string, next: nat)
    requires !Holds(st, device) && ScanFree(net, st.leases, st.next, TRIES) == Full(next)
    ensures Granted(net, st, network, account, device) == NetState(next, st.leases)
  {
  }

  /** With the subnet full a cursor that has caught up is on the broadcast address or behind it. */
  lemma PastEnd(net: Net, st: NetState)
    requires net.Valid() && net.prefix >= 1 && CursorOk(net, st) && CaughtUp(net, st)
    requires |st.leases| == net.Usable()
    ensures st.next == net.Broadcast() || st.next == Next(net.Broadcast())
    ensures Cursor(NetState(Next(net.Broadcast()), st.leases)) == net.base + net.Size()
  {
    HalfSpace(net);
  }

  lemma {:induction false} GrantPast(net: Net, network: string, st: NetState, account: string, device: string)
    requires net.Valid() && net.prefix >= 1 && NetInv(net, network, st) && CaughtUp(net, st)
    requires !Holds(st, device) && |st.leases| == net.Usable()
    ensures Granted(net, st, network, account, device) == NetState(Next(net.Broadcast()), st.leases)
    ensures Cursor(NetState(Next(net.Broadcast()), st.leases)) == net.base + net.Size()
  {
    PastEnd(net, st);
    ScanEndsPast(net, st.leases, st.next, TRIES);
    ScannedFull(net, network, st, account, device, Next(net.Broadcast()));
  }

  /** A scan from the broadcast address, or from behind it, ends behind it. */
  lemma ScanEndsPast(net: Net, leases: map<nat, Lease>, next: nat, tries: nat)
    requires net.Valid() && net.prefix >= 1 && tries >= 2
    requires next == net.Broadcast() || next == Next(net.Broadcast())
    ensures ScanFree(net, leases, next, tries) == Full(Next(net.Broadcast()))
  {
    HalfSpace(net);
    assert ScanFree(net, leases, Next(net.Broadcast()), tries - 1) == Full(Next(net.Broadcast()));
  }

  lemma {:induction false} RunCaughtUp(net: Net, es: seq<Event>)
    requires net.Valid() && net.prefix >= 16
    ensures forall network <- Run(Start(net), es).nets :: CaughtUp(net, Run(Start(net), es).nets[network])
  {
    if es != [] {
      var init, e := es[..|es| - 1], es[|es| - 1];
      RunCaughtUp(net, init);
      RunInv(net, init);
      var s := Run(Start(net), init);
      PowerTable();
      SizeBelow(net, 16, 0x1_0000);
      match e
      case Request(network, account, device, saveOk) =>
        StateInv(s, network);
        GrantCaughtUp(net, network, StateOf(s, network), account, device);
      case Reopen =>
        forall network | network in Reopened(s).nets
          ensures CaughtUp(net, Reopened(s).nets[network])
        {
          ResetCursor(net, LeasesIn(s.file, network));
        }
    }
  }

  // ---- where completeness ends: prefixes shorter than /15 ----

  /** Device names of growing length. */
  function Name(i: nat): string { seq(i, _ => 'd') }

  lemma NamesDiffer(i: nat, j: nat)
    requires Name(i) == Name(j)
    ensures i == j
  {
    assert |Name(i)| == i && |Name(j)| == j;
  }

  /** `m` new devices ask one network for an address, one after the other. */
  function Crowd(network: string, m: nat): (es: seq<Event>)
    ensures |es| == m
  {
    seq(m, i requires 0 <= i < m => Request(network, network, Name(i), true))
  }

  /** One network after the crowd: the first `m` addresses are leased to it, and the cursor is on the
      next one. */
  ghost predicate NetCrowded(net: Net, network: string, st: NetState, m: nat) {
    && Filled(net, network, st.leases) && |st.leases| == m
    && st.next == Next(net.base + m)
    && (forall ip <- st.leases :: exists i: nat :: i < m && st.leases[ip].device == Name(i))
  }

  ghost predicate Crowded(s: Store, network: string, m: nat) {
    && NetCrowded(s.net, network, StateOf(s, network), m)
    && s.nets.Keys == (if m == 0 then {} else {network})
    && s.file == AllLeases(s.nets)
  }

  lemma CrowdNotHeld(net: Net, network: string, st: NetState, m: nat)
    requires NetCrowded(net, network, st, m)
    ensures !Holds(st, Name(m))
  {
    forall ip | ip in st.leases
      ensures st.leases[ip].device != Name(m)
    {
      var i: nat :| i < m && st.leases[ip].device == Name(i);
      if Name(i) == Name(m) {
        NamesDiffer(i, m);
      }
    }
  }

  lemma CrowdedInv(net: Net, network: string, st: NetState, m: nat)
    requires net.Valid() && m < net.Usable() && NetCrowded(net, network, st, m)
    ensures NetInv(net, network, st) && Cursor(st) == Frontier(net, st.leases) == net.base + 1 + m
    ensures Next(net.base + m + 1) == net.base + m + 2
  {
  }

  lemma OneMoreInNet(net: Net, network: string, st: NetState, m: nat)
    requires net.Valid() && m < net.Usable() && NetCrowded(net, network, st, m)
    ensures Choose(net, st, Name(m)).Leased? && !Holds(st, Name(m))
    ensures NetCrowded(net, network, Granted(net, st, network, network, Name(m)), m + 1)
  {
    CrowdNotHeld(net, network, st, m);
    CrowdedInv(net, network, st, m);
    GrantFresh(net, network, st, network, Name(m));
    NamesOneMore(st.leases, Frontier(net, st.leases), Lease(network, network, Name(m), Frontier(net, st.leases)), m);
  }

  lemma NamesOneMore(leases: map<nat, Lease>, f: nat, l: Lease, m: nat)
    requires forall ip <- leases :: exists i: nat :: i < m && leases[ip].device == Name(i)
    requires l.device == Name(m)
    ensures var leases' := leases[f := l];
            forall ip <- leases' :: exists i: nat :: i < m + 1 && leases'[ip].device == Name(i)
  {
    var leases' := leases[f := l];
    forall ip | ip in leases'
      ensures exists i: nat :: i < m + 1 && leases'[ip].device == Name(i)
    {
      if ip == f {
        assert leases'[ip].device == Name(m);
      } else {
        var i: nat :| i < m && leases[ip].device == Name(i);
      }
    }
  }

  lemma OneMore(s: Store, network: string, m: nat)
    requires s.net.Valid() && m < s.net.Usable() && Crowded(s, network, m)
    ensures Crowded(Allocated(s, network, network, Name(m), true), network, m + 1)
  {
    OneMoreInNet(s.net, network, StateOf(s, network), m);
  }

  lemma CrowdOneMore(network: string, m: nat)
    requires m > 0
    ensures Crowd(network, m) == Crowd(network, m - 1) + [Request(network, network, Name(m - 1), true)]
  {
  }

  lemma {:induction false} CrowdFills(net: Net, network: string, m: nat)
    requires net.Valid() && m <= net.Usable()
    ensures Run(Start(net), Crowd(network, m)).net == net
    ensures Crowded(Run(Start(net), Crowd(network, m)), network, m)
  {
    if m > 0 {
      CrowdFills(net, network, m - 1);
      CrowdOneMore(network, m);
      RunOneMore(Start(net), Crowd(network, m - 1), Request(network, network, Name(m - 1), true));
      OneMore(Run(Start(net), Crowd(network, m - 1)), network, m - 1);
    } else {
      assert AllLeases(map[]) == {};
    }
  }

  /** After a crowd of `m` and a reopening, the next new device is refused exactly when the subnet is
      full or `m` is 131072 or more: past that size free addresses are out of the scan's reach. */
  lemma ReopenedCrowd(net: Net, network: string, m: nat, saveOk: bool)
    requires net.Valid() && net.prefix >= 1 && 0 < m <= net.Usable()
    ensures var s := Run(Start(net), Crowd(network, m) + [Reopen]);
            && |StateOf(s, network).leases| == m
            && (Answer(s, network, Name(m), saveOk).Exhausted? <==> m == net.Usable() || m >= 2 * TRIES)
  {
    CrowdFills(net, network, m);
    var s0 := Run(Start(net), Crowd(network, m));
    var es := Crowd(network, m) + [Reopen];
    assert es[..|es| - 1] == Crowd(network, m);
    var s := Run(Start(net), es);
    assert s == Reopened(s0);
    var leases := StateOf(s0, network).leases;
    SaveThenLoad(net, s0.nets, network);
    var first := net.base + 1;
    assert InBlock(net, m, first);
    assert leases[first] in s0.file;
    assert StateOf(s, network) == Reset(net, leases);
    ResetCursor(net, leases);
    ResetInv(net, network, leases);
    CrowdNotHeld(net, network, StateOf(s0, network), m);
    assert !Holds(StateOf(s, network), Name(m));
    RefusedExactly(net, network, StateOf(s, network), Name(m));
  }

  /** So for every prefix from /1 to /14 some run refuses a device although addresses are free. */
  lemma ShortPrefixesRefuseEarly(net: Net, network: string)
    requires net.Valid() && 1 <= net.prefix <= 14
    ensures exists es: seq<Event>, device: string ::
              && Answer(Run(Start(net), es), network, device, true).Exhausted?
              && |StateOf(Run(Start(net), es), network).leases| < net.Usable()
  {
    PowerTable();
    PowAdd(17, 1);
    SizeAbove(net, 14, 0x4_0000);
    var m := 2 * TRIES;
    ReopenedCrowd(net, network, m, true);
    assert Answer(Run(Start(net), Crowd(network, m) + [Reopen]), network, Name(m), true).Exhausted?;
  }

  /** A /0 subnet is not safe: once every usable address is leased, the cursor wraps around and the
      network address itself is handed out. */
  lemma ZeroPrefixLeasesNetworkAddress(net: Net, network: string)
    requires net == Net(0, 0)
    ensures exists es: seq<Event>, device: string ::
              Answer(Run(Start(net), es), network, device, true) == Leased(net.base)
  {
    var m := net.Usable();
    ZeroNetIsValid(net);
    CrowdFills(net, network, m);
    var s := Run(Start(net), Crowd(network, m));
    WrappedChoice(net, network, StateOf(s, network), m);
    assert Answer(s, network, Name(m), true) == Leased(net.base);
  }

  lemma ZeroNetIsValid(net: Net)
    requires net == Net(0, 0)
    ensures net.Valid()
  {
    PowerTable();
  }

  lemma WrappedChoice(net: Net, network: string, st: NetState, m: nat)
    requires net == Net(0, 0) && m == net.Usable() && NetCrowded(net, network, st, m)
    ensures Choose(net, st, Name(m)) == Leased(0)
  {
    PowerTable();
    CrowdNotHeld(net, network, st, m);
    WrapsToZero(net, st.leases, TRIES);
  }

  lemma WrapsToZero(net: Net, leases: map<nat, Lease>, tries: nat)
    requires net == Net(0, 0) && Packed(net, leases) && tries >= 2
    ensures ScanFree(net, leases, net.Broadcast(), tries) == Free(0)
  {
    PowerTable();
    assert !InBlock(net, |leases|, 0);
    assert ScanFree(net, leases, 0, tries - 1) == Free(0);
  }

  // ---- stability ----

  ghost predicate HasAddress(s: Store, network: string, device: string, ip: nat) {
    var leases := StateOf(s, network).leases;
    ip in leases && leases[ip].device == device
  }

  /** What a request is answered: a device that has an address is told it, and nothing is written; any other gets
      the lowest free address if that is in reach and can be saved, and else is refused, for the one reason or
      the other. */
  lemma AnswersExactly(s: Store, network: string, account: string, device: string, saveOk: bool)
    requires StoreInv(s)
    ensures var st, a := StateOf(s, network), Answer(s, network, device, saveOk);
            var reach := |st.leases| < s.net.Usable() && Frontier(s.net, st.leases) - Cursor(st) < TRIES;
            && (Holds(st, device) ==> a.Leased? && HasAddress(s, network, device, a.ip)
                                      && Allocated(s, network, account, device, saveOk).file == s.file)
            && (!Holds(st, device) ==>
                  && (a == Leased(Frontier(s.net, st.leases)) <==> reach && saveOk)
                  && (a == SaveFailed <==> reach && !saveOk)
                  && (a == Exhausted <==> !reach))
  {
    StateInv(s, network);
    RefusedExactly(s.net, network, StateOf(s, network), device);
  }

  ghost predicate OnDisk(s: Store, network: string, device: string, ip: nat) {
    var leases := LeasesIn(s.file, network);
    ip in leases && leases[ip].device == device
  }

  /** Disk and memory name the same devices at the same addresses. */
  ghost predicate Synced(s: Store) {
    forall network: string, device: string, ip: nat ::
      HasAddress(s, network, device, ip) <==> OnDisk(s, network, device, ip)
  }

  /** A reopening keeps exactly the addresses that are on disk. */
  lemma ReopenKeeps(s: Store, network: string, device: string, ip: nat)
    requires StoreInv(s)
    ensures HasAddress(Reopened(s), network, device, ip) <==> OnDisk(s, network, device, ip)
  {
    if ip in AddressesIn(s.file, network) {
      assert LeaseAt(s.file, network, ip) in s.file;
    }
    if network !in Reopened(s).nets {
      assert AddressesIn(s.file, network) == {};
    }
  }

  /** A request is about one network only. */
  lemma OtherNets(s: Store, network: string, account: string, device: string, saveOk: bool, n: string)
    ensures StateOf(Allocated(s, network, account, device, saveOk), n)
            == if n == network then Granted(s.net, StateOf(s, n), network, account, device) else StateOf(s, n)
  {
  }

  lemma GrantKeepsHolders(net: Net, network: string, st: NetState, account: string, device: string, ip: nat)
    requires net.Valid() && net.prefix >= 1 && NetInv(net, network, st) && ip in st.leases
    ensures var leases := Granted(net, st, network, account, device).leases;
            ip in leases && leases[ip].device == st.leases[ip].device
  {
    if Holds(st, device) {
      GrantHeld(net, network, st, account, device);
    } else if |st.leases| < net.Usable() && Frontier(net, st.leases) - Cursor(st) < TRIES {
      GrantFresh(net, network, st, account, device);
    } else {
      GrantRefused(net, network, st, account, device);
    }
  }

  /** A request changes nobody's address. */
  lemma RequestKeeps(s: Store, network: string, account: string, device: string, saveOk: bool,
                     n: string, d: string, ip: nat)
    requires StoreInv(s) && HasAddress(s, n, d, ip)
    ensures HasAddress(Allocated(s, network, account, device, saveOk), n, d, ip)
  {
    OtherNets(s, network, account, device, saveOk, n);
    if n == network {
      StateInv(s, network);
      GrantKeepsHolders(s.net, network, StateOf(s, network), account, device, ip);
    }
  }

  predicate SavesOk(es: seq<Event>) {
    forall e <- es :: e.Request? ==> e.saveOk
  }

  lemma GrantAddsNothing(net: Net, network: string, st: NetState, account: string, device: string, ip: nat)
    requires Holds(st, device) || Choose(net, st, device).Exhausted?
    ensures var leases := Granted(net, st, network, account, device).leases;
            && (ip in leases <==> ip in st.leases)
            && (ip in leases ==> leases[ip].device == st.leases[ip].device)
  {
  }

  /** Without a new lease a request adds no address. */
  lemma NothingNew(s: Store, network: string, account: string, device: string, n: string, d: string, ip: nat)
    requires StoreInv(s)
    requires Holds(StateOf(s, network), device) || Choose(s.net, StateOf(s, network), device).Exhausted?
    ensures HasAddress(Allocated(s, network, account, device, true), n, d, ip) <==> HasAddress(s, n, d, ip)
  {
    OtherNets(s, network, account, device, true, n);
    GrantAddsNothing(s.net, network, StateOf(s, network), account, device, ip);
  }

  lemma SaveSyncs(s: Store)
    requires StoreInv(s) && s.file == AllLeases(s.nets)
    ensures Synced(s)
  {
    forall n: string, d: string, ip: nat
      ensures HasAddress(s, n, d, ip) <==> OnDisk(s, n, d, ip)
    {
      SaveThenLoad(s.net, s.nets, n);
    }
  }

  lemma RequestSyncs(s: Store, network: string, account: string, device: string)
    requires StoreInv(s) && Synced(s)
    ensures Synced(Allocated(s, network, account, device, true))
  {
    var s' := Allocated(s, network, account, device, true);
    RequestInv(s, network, account, device, true);
    var st := StateOf(s, network);
    if !Holds(st, device) && Choose(s.net, st, device).Leased? {
      SaveSyncs(s');
    } else {
      forall n: string, d: string, ip: nat
        ensures HasAddress(s', n, d, ip) <==> OnDisk(s', n, d, ip)
      {
        assert HasAddress(s, n, d, ip) <==> OnDisk(s, n, d, ip);
        NothingNew(s, network, account, device, n, d, ip);
      }
    }
  }

  lemma ReopenSyncs(s: Store)
    requires StoreInv(s)
    ensures Synced(Reopened(s))
  {
    forall n: string, d: string, ip: nat
      ensures HasAddress(Reopened(s), n, d, ip) <==> OnDisk(Reopened(s), n, d, ip)
    {
      ReopenKeeps(s, n, d, ip);
    }
  }

  lemma {:induction false} RunSyncs(net: Net, es: seq<Event>)
    requires net.Valid() && net.prefix >= 1 && SavesOk(es)
    ensures Synced(Run(Start(net), es))
  {
    if es == [] {
      assert forall network: string :: LeasesIn({}, network) == map[];
    } else {
      var init, e := es[..|es| - 1], es[|es| - 1];
      RunSyncs(net, init);
      RunInv(net, init);
      match e
      case Request(network, account, device, saveOk) =>
        assert e in es;
        RequestSyncs(Run(Start(net), init), network, account, device);
      case Reopen => ReopenSyncs(Run(Start(net), init));
    }
  }

  // ---- exactly which addresses survive ----

  /** A request that grants a new lease and writes the file. */
  ghost predicate Grants(s: Store, e: Event) {
    && e.Request? && e.saveOk && !Holds(StateOf(s, e.network), e.device)
    && Choose(s.net, StateOf(s, e.network), e.device).Leased?
  }

  /** At some point of the run a new lease, this one or any later one of any network, was saved while the
      device had the address. */
  ghost predicate Secured(net: Net, es: seq<Event>, network: string, device: string, ip: nat) {
    exists k :: 0 <= k < |es| && SecuredAt(net, es, k, network, device, ip)
  }

  ghost predicate SecuredAt(net: Net, es: seq<Event>, k: nat, network: string, device: string, ip: nat)
    requires k < |es|
  {
    && Grants(Run(Start(net), es[..k]), es[k])
    && HasAddress(Run(Start(net), es[..k + 1]), network, device, ip)
  }

  lemma WhatIsWritten(s: Store, e: Event)
    ensures Step(s, e).file == if Grants(s, e) then AllLeases(Step(s, e).nets) else s.file
  {
  }

  lemma StepKeepsAddress(s: Store, e: Event, network: string, device: string, ip: nat)
    requires StoreInv(s) && e.Request? && HasAddress(s, network, device, ip)
    ensures HasAddress(Step(s, e), network, device, ip)
  {
    RequestKeeps(s, e.network, e.account, e.device, e.saveOk, network, device, ip);
  }

  lemma StepSecured(net: Net, es: seq<Event>, k: nat, e: Event, network: string, device: string, ip: nat)
    requires k < |es|
    ensures SecuredAt(net, es + [e], k, network, device, ip) <==> SecuredAt(net, es, k, network, device, ip)
  {
    assert (es + [e])[..k] == es[..k] && (es + [e])[..k + 1] == es[..k + 1];
  }

  lemma LastSecured(net: Net, es: seq<Event>, e: Event, network: string, device: string, ip: nat)
    ensures SecuredAt(net, es + [e], |es|, network, device, ip) <==>
              && Grants(Run(Start(net), es), e)
              && HasAddress(Run(Start(net), es + [e]), network, device, ip)
  {
    assert (es + [e])[..|es|] == es && (es + [e])[..|es| + 1] == es + [e];
  }

  lemma SecuredOneMore(net: Net, es: seq<Event>, e: Event, network: string, device: string, ip: nat)
    ensures Secured(net, es + [e], network, device, ip) <==>
              || Secured(net, es, network, device, ip)
              || (Grants(Run(Start(net), es), e) && HasAddress(Run(Start(net), es + [e]), network, device, ip))
  {
    LastSecured(net, es, e, network, device, ip);
    if Secured(net, es + [e], network, device, ip) {
      var k :| 0 <= k < |es + [e]| && SecuredAt(net, es + [e], k, network, device, ip);
      if k < |es| {
        StepSecured(net, es, k, e, network, device, ip);
      }
    }
    if Secured(net, es, network, device, ip) {
      var k :| 0 <= k < |es| && SecuredAt(net, es, k, network, device, ip);
      StepSecured(net, es, k, e, network, device, ip);
    }
  }

  /** What is on file is in memory, step by step. */
  lemma StepOnDisk(s: Store, e: Event, network: string, device: string, ip: nat)
    requires StoreInv(s) && StoreInv(Step(s, e))
    requires OnDisk(s, network, device, ip) ==> HasAddress(s, network, device, ip)
    ensures OnDisk(Step(s, e), network, device, ip) <==>
              OnDisk(s, network, device, ip) || (Grants(s, e) && HasAddress(Step(s, e), network, device, ip))
    ensures OnDisk(Step(s, e), network, device, ip) ==> HasAddress(Step(s, e), network, device, ip)
  {
    WhatIsWritten(s, e);
    if Grants(s, e) {
      SaveSyncs(Step(s, e));
      if OnDisk(s, network, device, ip) {
        StepKeepsAddress(s, e, network, device, ip);
      }
    } else if e.Request? {
      if OnDisk(s, network, device, ip) {
        StepKeepsAddress(s, e, network, device, ip);
      }
    } else {
      ReopenKeeps(s, network, device, ip);
    }
  }

  /** An address is on file exactly when it was secured. */
  lemma {:induction false} OnDiskExactly(net: Net, es: seq<Event>, network: string, device: string, ip: nat)
    requires net.Valid() && net.prefix >= 1
    ensures OnDisk(Run(Start(net), es), network, device, ip) <==> Secured(net, es, network, device, ip)
    ensures OnDisk(Run(Start(net), es), network, device, ip) ==> HasAddress(Run(Start(net), es), network, device, ip)
  {
    if es == [] {
      assert LeasesIn({}, network) == map[];
    } else {
      var init, e := es[..|es| - 1], es[|es| - 1];
      assert es == init + [e];
      OnDiskExactly(net, init, network, device, ip);
      RunInv(net, init);
      RunInv(net, es);
      RunOneMore(Start(net), init, e);
      StepOnDisk(Run(Start(net), init), e, network, device, ip);
      SecuredOneMore(net, init, e, network, device, ip);
    }
  }

  /** A device has its address after a reopening if and only if the address was secured before: the request
      that granted it, or some later granting request, was saved. */
  lemma SurvivesExactly(net: Net, es: seq<Event>, network: string, device: string, ip: nat)
    requires net.Valid() && net.prefix >= 1
    ensures HasAddress(Run(Start(net), es + [Reopen]), network, device, ip) <==> Secured(net, es, network, device, ip)
  {
    RunInv(net, es);
    RunOneMore(Start(net), es, Reopen);
    ReopenKeeps(Run(Start(net), es), network, device, ip);
    OnDiskExactly(net, es, network, device, ip);
  }

  ghost predicate Held(net: Net, es: seq<Event>, j: nat, network: string, device: string, ip: nat)
    requires j <= |es|
  {
    HasAddress(Run(Start(net), es[..j]), network, device, ip)
  }

  /** Every reopening from `m` on finds the address secured. */
  ghost predicate ReopensSecured(net: Net, es: seq<Event>, m: nat, network: string, device: string, ip: nat) {
    forall r :: m <= r < |es| && es[r].Reopen? ==> Secured(net, es[..r], network, device, ip)
  }

  lemma ReopenSecured(net: Net, es: seq<Event>, m: nat, r: nat, network: string, device: string, ip: nat)
    requires ReopensSecured(net, es, m, network, device, ip) && m <= r < |es| && es[r].Reopen?
    ensures Secured(net, es[..r], network, device, ip)
  {
  }

  lemma HeldOneMore(net: Net, es: seq<Event>, j: nat, network: string, device: string, ip: nat)
    requires net.Valid() && net.prefix >= 1 && j < |es| && Held(net, es, j, network, device, ip)
    ensures Held(net, es, j + 1, network, device, ip) <==>
              (es[j].Reopen? ==> Secured(net, es[..j], network, device, ip))
  {
    assert es[..j + 1] == es[..j] + [es[j]];
    if es[j].Reopen? {
      SurvivesExactly(net, es[..j], network, device, ip);
    } else {
      RunInv(net, es[..j]);
      RunOneMore(Start(net), es[..j], es[j]);
      StepKeepsAddress(Run(Start(net), es[..j]), es[j], network, device, ip);
    }
  }

  /** What every step keeps lasts. */
  lemma {:induction false} Lasts(p: nat -> bool, m: nat, j: nat)
    requires m <= j && p(m) && forall i: nat :: m <= i < j && p(i) ==> p(i + 1)
    ensures p(j)
    decreases j
  {
    if m < j {
      Lasts(p, m, j - 1);
    }
  }

  lemma HeldOn(net: Net, es: seq<Event>, m: nat, j: nat, network: string, device: string, ip: nat, p: nat -> bool)
    requires net.Valid() && net.prefix >= 1 && m <= j < |es| && p(j)
    requires forall i: nat :: i <= |es| ==> (p(i) <==> Held(net, es, i, network, device, ip))
    requires ReopensSecured(net, es, m, network, device, ip)
    ensures p(j + 1)
  {
    if es[j].Reopen? {
      ReopenSecured(net, es, m, j, network, device, ip);
    }
    HeldOneMore(net, es, j, network, device, ip);
  }

  lemma {:induction false} HeldUpTo(net: Net, es: seq<Event>, m: nat, j: nat, network: string, device: string, ip: nat,
                                    p: nat -> bool)
    requires net.Valid() && net.prefix >= 1 && m <= j <= |es| && p(m)
    requires forall i: nat :: i <= |es| ==> (p(i) <==> Held(net, es, i, network, device, ip))
    requires ReopensSecured(net, es, m, network, device, ip)
    ensures p(j)
  {
    forall i: nat | m <= i < j && p(i)
      ensures p(i + 1)
    {
      HeldOn(net, es, m, i, network, device, ip, p);
    }
    Lasts(p, m, j);
  }

  /** An address held at some point of a run stays its device's to the end if and only if it is secured
      before every reopening on the way, whichever saves failed. */
  lemma AddressesAreStable(net: Net, es: seq<Event>, m: nat, network: string, device: string, ip: nat)
    requires net.Valid() && net.prefix >= 1 && m <= |es| && Held(net, es, m, network, device, ip)
    ensures (forall j :: m <= j <= |es| ==> Held(net, es, j, network, device, ip))
            <==> ReopensSecured(net, es, m, network, device, ip)
  {
    if ReopensSecured(net, es, m, network, device, ip) {
      ghost var p := (i: nat) => i <= |es| && Held(net, es, i, network, device, ip);
      forall j: nat | m <= j <= |es|
        ensures Held(net, es, j, network, device, ip)
      {
        HeldUpTo(net, es, m, j, network, device, ip, p);
        assert p(j);
      }
    }
    if forall j :: m <= j <= |es| ==> Held(net, es, j, network, device, ip) {
      forall r | m <= r < |es| && es[r].Reopen?
        ensures Secured(net, es[..r], network, device, ip)
      {
        assert Held(net, es, r + 1, network, device, ip);
        HeldOneMore(net, es, r, network, device, ip);
      }
    }
  }

  // ---- one failed save ----

  /** The first request ever gets the first address. */
  lemma FirstLease(net: Net, network: string, device: string, saveOk: bool)
    requires net.Valid() && 1 <= net.prefix <= 30
    ensures var first := net.base + 1;
            && Answer(Start(net), network, device, saveOk) == (if saveOk then Leased(first) else SaveFailed)
            && Allocated(Start(net), network, network, device, saveOk).nets
               == map[network := NetState(first + 1, map[first := Lease(network, network, device, first)])]
            && (!saveOk ==> Allocated(Start(net), network, network, device, saveOk).file == {})
  {
    PowerTable();
    SizeAbove(net, 30, 4) by { assert Pow(2, 2) == 4; }
    FreshInv(net, network);
    GrantFresh(net, network, Fresh(net), network, device);
  }

  /** Asking again is answered from memory and writes nothing. */
  lemma AskedAgain(s: Store, network: string, device: string, ip: nat)
    requires network in s.nets && s.nets[network].leases.Keys == {ip} && s.nets[network].leases[ip].device == device
    ensures Answer(s, network, device, true) == Leased(ip)
    ensures Allocated(s, network, network, device, true).file == s.file
  {
    assert Holds(s.nets[network], device);
  }

  /** One failed save breaks it: the device is refused, asks again and is answered from memory, and
      after a reopening its address goes to another device. */
  lemma FailedSaveLosesAddress(net: Net, network: string)
    requires net.Valid() && 1 <= net.prefix <= 30
    ensures var before := [Request(network, network, "a", false)];
            var after := [Request(network, network, "a", true), Reopen];
            && Answer(Run(Start(net), before), network, "a", true) == Leased(net.base + 1)
            && Answer(Run(Start(net), before + after), network, "b", true) == Leased(net.base + 1)
  {
    var e0, e1 := Request(network, network, "a", false), Request(network, network, "a", true);
    var s1 := Step(Start(net), e0);
    FirstLease(net, network, "a", false);
    AskedAgain(s1, network, "a", net.base + 1);
    var s2 := Step(s1, e1);
    RunOfThree(Start(net), e0, e1, Reopen);
    assert [e0] + [e1, Reopen] == [e0, e1, Reopen];
    assert Reopened(s2) == Start(net);
    FirstLease(net, network, "b", true);
  }

  lemma RunOneMore(s: Store, es: seq<Event>, e: Event)
    ensures Run(s, es + [e]) == Step(Run(s, es), e)
  {
    assert (es + [e])[..|es|] == es;
  }

  lemma RunOfThree(s: Store, e0: Event, e1: Event, e2: Event)
    ensures Run(s, [e0]) == Step(s, e0)
    ensures Run(s, [e0, e1, e2]) == Step(Step(Step(s, e0), e1), e2)
  {
    ThreeInARow(e0, e1, e2);
    RunOneMore(s, [], e0);
    RunOneMore(s, [e0], e1);
    RunOneMore(s, [e0, e1], e2);
  }

  lemma ThreeInARow<T>(a: T, b: T, c: T)
    ensures [] + [a] == [a] && [a] + [b] == [a, b] && [a, b] + [c] == [a, b, c]
  {
  }
}
