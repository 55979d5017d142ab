/** Who is billed for exit traffic, over whole runs (internal/server/hub.go: the attribution in `Relay`;
    internal/account/usage.go: `EgressTotals`, `EgressLaneTotals`). */
module Attribution {
  import opened Bytes
  import opened MapSum
  import opened Clock
  import opened Usage
  import L = Leases
  import opened Quotas
  import opened DeliveryLog
  import opened Server
  import opened HubRuns
  import opened MeterRuns
  import P = Peers

  // ---- what each delivery is ----

  /** Wrapped traffic from a consumer to an exit. */
  predicate ToExit(d: Delivery) { d.proxied && d.dstExit }

  /** Wrapped traffic from an exit back to a consumer. */
  predicate FromExit(d: Delivery) { d.proxied && d.srcExit && !d.dstExit }

  /** The consumer and the exit of an exit-path packet. */
  function ConsumerOf(d: Delivery): string { if ToExit(d) then d.src else d.dst }

  function ExitOf(d: Delivery): string { if ToExit(d) then d.dst else d.src }

  predicate ExitPath(d: Delivery) { ToExit(d) || FromExit(d) }

  /** The charge of a delivery follows from its path. */
  ghost predicate Rightly(d: Delivery) {
    && d.src != "" && d.dst != ""
    && (if ExitPath(d) then d.charge.device == ConsumerOf(d) && d.charge.exit == ExitOf(d)
        else d.charge.device == d.src && d.charge.exit == "")
  }

  ghost predicate AllRightly(log: seq<Delivery>) {
    forall d <- log :: Rightly(d)
  }

  lemma DeliveredRightly<R>(s: State<R>, src: R, packet: seq<byte>, limits: Limits, t: Times, writeOk: bool)
    requires HubInv(s) && src in s.nodes && Outcome(s, src, packet, limits, t, writeOk).Delivered?
    ensures var r := Outcome(s, src, packet, limits, t, writeOk);
            Rightly(DeliveryOf(s, src, r.dst, r.charge, packet, limits, t))
  {
    var r := Outcome(s, src, packet, limits, t, writeOk);
    assert Owns(s.store, s.nodes[src].info) && Owns(s.store, s.nodes[r.dst].info);
  }

  ghost predicate BothRightly<R>(s: State<R>) {
    AllRightly(s.log) && AllRightly(s.savedLog)
  }

  lemma StepRightly<R>(s: State<R>, e: Event<R>)
    requires TablesKnown(s) && BothRightly(s) && Possible(s, e)
    requires e.Relay? ==>
               var r := Outcome(s, e.src, e.packet, e.limits, e.t, e.writeOk);
               r.Delivered? ==> Rightly(DeliveryOf(s, e.src, r.dst, r.charge, e.packet, e.limits, e.t))
    ensures BothRightly(Step(s, e))
  {
    if e.Restart? {
      var leases := L.AllLeases(L.Reopened(s.store).nets);
      forall d | d in Refilled(s.savedLog, leases)
        ensures Rightly(d)
      {
        RefilledFrom(s.savedLog, leases, d);
        var d0 :| && d0 in s.savedLog && d.charge == d0.charge && d.src == d0.src && d.dst == d0.dst
                  && d.srcExit == d0.srcExit && d.dstExit == d0.dstExit && d.proxied == d0.proxied;
        assert Rightly(d0);
      }
    }
  }

  lemma {:induction false} RunRightly<R>(net: L.Net, start: nat, es: seq<Event<R>>)
    requires net.Valid() && net.prefix >= 1
    ensures BothRightly(Run(Initial<R>(net, start), es))
  {
    if es != [] {
      var init, e := es[..|es| - 1], es[|es| - 1];
      RunRightly(net, start, init);
      RunKeepsHub(net, start, init);
      var s := Run(Initial<R>(net, start), init);
      if Possible(s, e) {
        if e.Relay? && Outcome(s, e.src, e.packet, e.limits, e.t, e.writeOk).Delivered? {
          DeliveredRightly(s, e.src, e.packet, e.limits, e.t, e.writeOk);
        }
        StepRightly(s, e);
      }
    }
  }

  // ---- lanes and exits as sums over paths ----

  /** The proxied bytes of a device to exits and back from exits. */
  function ConsumedBy(log: seq<Delivery>, device: string, from: int): nat {
    if log == [] then 0 else
      var d := log[|log| - 1];
      ConsumedBy(log[..|log| - 1], device, from)
      + (if ToExit(d) && d.src == device && HourStart(d.at) >= from then d.n else 0)
      + (if FromExit(d) && d.dst == device && HourStart(d.at) >= from then d.n else 0)
  }

  /** The proxied bytes that went through a device as the exit. */
  function ServedBy(log: seq<Delivery>, device: string, from: int): nat {
    if log == [] then 0 else
      var d := log[|log| - 1];
      ServedBy(log[..|log| - 1], device, from)
      + (if ToExit(d) && d.dst == device && HourStart(d.at) >= from then d.n else 0)
      + (if FromExit(d) && d.src == device && HourStart(d.at) >= from then d.n else 0)
  }

  lemma {:induction false} LaneIsConsumption(log: seq<Delivery>, device: string, from: int)
    requires AllRightly(log)
    ensures LogTotal(log, LaneOf(device), from) == ConsumedBy(log, device, from)
  {
    if log != [] {
      assert log[|log| - 1] in log;
      LaneIsConsumption(log[..|log| - 1], device, from);
    }
  }

  lemma {:induction false} ExitIsService(log: seq<Delivery>, device: string, from: int)
    requires AllRightly(log) && device != ""
    ensures LogTotal(log, ViaExit(device), from) == ServedBy(log, device, from)
  {
    if log != [] {
      assert log[|log| - 1] in log;
      ExitIsService(log[..|log| - 1], device, from);
    }
  }

  /** After any run, a device's exit lane is what it sent wrapped to exits plus what exits sent wrapped
      back to it; an exit's total is the same seen from the exit. Unwrapped traffic is in neither. */
  lemma LanesFollowPaths<R>(net: L.Net, start: nat, es: seq<Event<R>>, device: string, from: int)
    requires net.Valid() && net.prefix >= 1
    ensures var s := Run(Initial<R>(net, start), es);
            && Total(s.ledger, Tx, LaneOf(device), from) == ConsumedBy(s.log, device, from)
            && (device != "" ==> Total(s.ledger, Tx, ViaExit(device), from) == ServedBy(s.log, device, from))
  {
    RunRightly(net, start, es);
    RunKeepsLog(net, start, es);
    var s := Run(Initial<R>(net, start), es);
    LedgerTotals(s.log, LaneOf(device), from);
    LedgerTotals(s.log, ViaExit(device), from);
    LaneIsConsumption(s.log, device, from);
    if device != "" {
      ExitIsService(s.log, device, from);
    }
  }

  /** The device was an exit in all of its deliveries. */
  predicate AlwaysExit(log: seq<Delivery>, device: string) {
    forall d <- log :: (d.src == device ==> d.srcExit) && (d.dst == device ==> d.dstExit)
  }

  predicate NeverExitToExit(log: seq<Delivery>) {
    forall d <- log :: !(d.proxied && d.srcExit && d.dstExit)
  }

  lemma {:induction false} ExitsConsumeNothing(log: seq<Delivery>, device: string, from: int)
    requires AlwaysExit(log, device) && NeverExitToExit(log)
    ensures ConsumedBy(log, device, from) == 0
  {
    if log != [] {
      assert log[|log| - 1] in log;
      ExitsConsumeNothing(log[..|log| - 1], device, from);
    }
  }

  /** Serving costs an exit nothing: while its grant stands and no consumer is itself an exit, its own
      lane stays empty whatever it serves. */
  lemma ServingIsFree<R>(net: L.Net, start: nat, es: seq<Event<R>>, exit: string, from: int)
    requires net.Valid() && net.prefix >= 1
    requires AlwaysExit(Run(Initial<R>(net, start), es).log, exit)
    requires NeverExitToExit(Run(Initial<R>(net, start), es).log)
    ensures Total(Run(Initial<R>(net, start), es).ledger, Tx, LaneOf(exit), from) == 0
  {
    LanesFollowPaths(net, start, es, exit, from);
    ExitsConsumeNothing(Run(Initial<R>(net, start), es).log, exit, from);
  }

  predicate NeverExit(log: seq<Delivery>, device: string) {
    forall d <- log :: (d.src == device ==> !d.srcExit) && (d.dst == device ==> !d.dstExit)
  }

  lemma {:induction false} ConsumersServeNothing(log: seq<Delivery>, device: string, from: int)
    requires NeverExit(log, device)
    ensures ServedBy(log, device, from) == 0
  {
    if log != [] {
      assert log[|log| - 1] in log;
      ConsumersServeNothing(log[..|log| - 1], device, from);
    }
  }

  /** Session summaries and quota notices report a device's `EgressTotals`. For a device that is never an
      exit that figure is 0, whatever is on its exit lane. */
  lemma NoticesShowServedNotConsumed<R>(net: L.Net, start: nat, es: seq<Event<R>>, device: string, from: int)
    requires net.Valid() && net.prefix >= 1 && device != ""
    requires NeverExit(Run(Initial<R>(net, start), es).log, device)
    ensures Total(Run(Initial<R>(net, start), es).ledger, Tx, ViaExit(device), from) == 0
    ensures Total(Run(Initial<R>(net, start), es).ledger, Tx, LaneOf(device), from)
            == ConsumedBy(Run(Initial<R>(net, start), es).log, device, from)
  {
    LanesFollowPaths(net, start, es, device, from);
    ConsumersServeNothing(Run(Initial<R>(net, start), es).log, device, from);
  }

  /** What a quota notice tells a device: its account's day and limit, what it served as an exit that day and the
      limit of its lane. */
  ghost function NoticeOf(l: Ledger, limits: Limits, account: string, device: string, now: nat): P.Ctrl {
    var spec := limits.For(account);
    P.QuotaNotice(DayTotal(l, OfAccount(account), now), spec.bytesPerDay,
                  DayTotal(l, ViaExit(device), now), spec.egressBytesPerDay)
  }

  /** After any run a notice tells the bytes of all packets charged to the account that day, and of all wrapped
      packets the device passed on as an exit. */
  lemma NoticeTellsTheDay<R>(net: L.Net, start: nat, es: seq<Event<R>>, limits: Limits, account: string,
                             device: string, now: nat)
    requires net.Valid() && net.prefix >= 1 && device != "" && Run(Initial<R>(net, start), es).now <= now
    ensures var s := Run(Initial<R>(net, start), es);
            var n := NoticeOf(s.ledger, limits, account, device, now);
            && n.used == Known(s.log, Pool(account), DayOf(now), true) + Known(s.log, Pool(account), DayOf(now), false)
            && n.egressUsed == ServedBy(s.log, device, HourStart(Midnight(now)))
            && n.limit == limits.For(account).bytesPerDay && n.egressLimit == limits.For(account).egressBytesPerDay
  {
    var s, from := Run(Initial<R>(net, start), es), HourStart(Midnight(now));
    RunKeepsLog(net, start, es);
    LanesFollowPaths(net, start, es, device, from);
    LedgerTotals(s.log, OfAccount(account), from);
    LedgerTotals(s.log, ViaExit(device), from);
    forall d | d in s.log
      ensures DayOf(d.at) <= DayOf(now)
    {
      DayMonotone(d.at, now);
    }
    DayOnLane(s.log, Pool(account), now);
  }

  // ---- an exit's total by consumer ----

  function DeviceOf(b: Bucket): string { b.device }

  ghost function ServedTo(l: Ledger, exit: string, from: int, consumer: string): int {
    Sum(map b | b in l && b.egress == exit && b.hour >= from && b.device == consumer :: l[b].tx)
  }

  /** An exit's total is the sum over its consumers of what each consumed through it. */
  lemma ExitTotalByConsumer(l: Ledger, exit: string, from: int, consumers: set<string>)
    requires forall b <- l :: b.egress == exit && b.hour >= from ==> b.device in consumers
    ensures Total(l, Tx, ViaExit(exit), from) == Sum(map c | c in consumers :: ServedTo(l, exit, from, c))
  {
    var m := Selection(l, Tx, ViaExit(exit), from);
    SumByGroup(m, DeviceOf, consumers);
    forall c | c in consumers
      ensures Sum(GroupOf(m, DeviceOf, c)) == ServedTo(l, exit, from, c)
    {
      assert GroupOf(m, DeviceOf, c)
             == map b | b in l && b.egress == exit && b.hour >= from && b.device == c :: l[b].tx;
    }
    assert GroupSums(m, DeviceOf, consumers) == map c | c in consumers :: ServedTo(l, exit, from, c);
  }
}
