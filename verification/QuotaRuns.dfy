/** The quota counters over whole runs: what they are compared with the ledger, and across restarts
    (internal/server/quota.go, internal/server/hub.go: `Relay`, internal/account/usage.go). */
module QuotaRuns {
  import opened Bytes
  import opened Clock
  import opened Usage
  import opened LedgerText
  import opened LedgerFile
  import L = Leases
  import LR = LeaseRuns
  import Registry
  import opened Quotas
  import opened DeliveryLog
  import opened Server
  import opened HubRuns
  import opened MeterRuns

  // ---- counters as functions of the history ----

  /** Each counter, read now, is the sum of today's deliveries it knows of. */
  ghost predicate UsedInv<R>(s: State<R>) {
    && s.quota.day <= DayOf(s.now)
    && forall lane: Lane :: Used(s.quota, lane, s.now) == Known(s.log, lane, DayOf(s.now), true)
  }

  lemma UsedLater<R>(s: State<R>, lane: Lane, t: nat)
    requires LogInv(s) && UsedInv(s) && s.now <= t
    ensures Used(s.quota, lane, t) == Known(s.log, lane, DayOf(t), true)
  {
    DayMonotone(s.now, t);
    if DayOf(s.now) < DayOf(t) {
      forall d | d in s.log
        ensures DayOf(d.at) < DayOf(t)
      {
        DayMonotone(d.at, s.now);
      }
      NothingThatDay(s.log, lane, DayOf(t), true);
    }
  }

  lemma RolledTwice(q: Quota, lane: Lane, s: nat, t: nat)
    requires q.day <= DayOf(s) <= DayOf(t)
    ensures Rolled(q, s).day == DayOf(s) && Used(Rolled(q, s), lane, t) == Used(q, lane, t)
  {
  }

  /** A counter read at `t`, after a packet was counted at `s`. */
  lemma IncCounts(q: Quota, limits: Limits, c: Charge, n: nat, s: nat, t: nat, lane: Lane)
    requires q.day <= DayOf(s) <= DayOf(t)
    ensures Inc(q, limits, c, n, s).day == DayOf(s)
    ensures Used(Inc(q, limits, c, n, s), lane, t)
            == if DayOf(s) < DayOf(t) then 0
               else Used(q, lane, t) + if On(c, lane) && limits.For(c.account).Limited() then n else 0
  {
  }

  lemma TimesInOrder(now: nat, t: Times)
    requires now <= t.admit <= t.inc <= t.add
    ensures DayOf(now) <= DayOf(t.admit) <= DayOf(t.inc) <= DayOf(t.add)
  {
    DayMonotone(now, t.admit);
    DayMonotone(t.admit, t.inc);
    DayMonotone(t.inc, t.add);
  }

  /** Counting and booking one packet. */
  lemma BookKeepsUsed<R>(s: State<R>, q': Quota, limits: Limits, d: Delivery, t: Times, lane: Lane)
    requires LogInv(s) && UsedInv(s) && s.now <= t.admit <= t.inc <= t.add == d.at
    requires q' == Inc(Rolled(s.quota, t.admit), limits, d.charge, d.n, t.inc)
    requires d.inPool == d.inLane == (limits.For(d.charge.account).Limited() && DayOf(t.inc) == DayOf(t.add))
    ensures q'.day <= DayOf(t.add)
    ensures Used(q', lane, t.add) == Known(s.log + [d], lane, DayOf(t.add), true)
  {
    TimesInOrder(s.now, t);
    RolledTwice(s.quota, lane, t.admit, t.add);
    IncCounts(Rolled(s.quota, t.admit), limits, d.charge, d.n, t.inc, t.add, lane);
    AppendLog(s.log, d);
    UsedLater(s, lane, t.add);
    if DayOf(t.inc) < DayOf(t.add) {
      forall x | x in s.log
        ensures DayOf(x.at) < DayOf(t.add)
      {
        DayMonotone(x.at, t.inc);
      }
      NothingThatDay(s.log, lane, DayOf(t.add), true);
    }
  }

  lemma RelayKeepsUsed<R>(s: State<R>, src: R, packet: seq<byte>, limits: Limits, t: Times, writeOk: bool)
    requires TablesKnown(s) && LogInv(s) && UsedInv(s) && Possible(s, Relay(src, packet, limits, t, writeOk))
    ensures UsedInv(Relayed(s, src, packet, limits, t, writeOk))
  {
    var s', r := Relayed(s, src, packet, limits, t, writeOk), Outcome(s, src, packet, limits, t, writeOk);
    TimesInOrder(s.now, t);
    forall lane: Lane
      ensures s'.quota.day <= DayOf(s'.now)
      ensures Used(s'.quota, lane, s'.now) == Known(s'.log, lane, DayOf(s'.now), true)
    {
      if r.Delivered? {
        BookKeepsUsed(s, s'.quota, limits, DeliveryOf(s, src, r.dst, r.charge, packet, limits, t), t, lane);
      } else {
        UsedLater(s, lane, t.add);
        RolledTwice(s.quota, lane, t.admit, t.add);
      }
    }
    assert s'.quota.day <= DayOf(s'.now) by {
      if r.Delivered? {
        BookKeepsUsed(s, s'.quota, limits, DeliveryOf(s, src, r.dst, r.charge, packet, limits, t), t, Pool(""));
      }
    }
  }

  // ---- refills ----

  lemma LaterDayIsEmpty(log: seq<Delivery>, lane: Lane, first: nat, now: nat)
    requires DayOf(first) < DayOf(now) && forall d <- log :: d.at <= first
    ensures DayTotal(LedgerOf(log), LaneQuery(lane), now) == 0
  {
    DayTotalIsKnown(log, lane, first, now);
    forall d | d in log
      ensures DayOf(d.at) < DayOf(now)
    {
      DayMonotone(d.at, first);
    }
    NothingThatDay(log, lane, DayOf(now), true);
    NothingThatDay(log, lane, DayOf(now), false);
  }

  /** The ledger's sum since midnight is what the counter knows of and what it does not. */
  lemma DayTotalIsKnown(log: seq<Delivery>, lane: Lane, last: nat, now: nat)
    requires last <= now && forall d <- log :: d.at <= last
    ensures DayTotal(LedgerOf(log), LaneQuery(lane), now)
            == Known(log, lane, DayOf(now), true) + Known(log, lane, DayOf(now), false)
  {
    LedgerTotals(log, LaneQuery(lane), HourStart(Midnight(now)));
    forall d | d in log
      ensures DayOf(d.at) <= DayOf(now)
    {
      DayMonotone(d.at, now);
    }
    DayOnLane(log, lane, now);
  }

  lemma SameMidnight(s: nat, t: nat)
    requires DayOf(s) == DayOf(t)
    ensures Midnight(s) == Midnight(t)
  {
  }

  /** A refilled counter, read from the restart on: the ledger's sum when a lease names its key, else 0. */
  lemma BackfilledCounter(log: seq<Delivery>, leases: set<L.Lease>, first: nat, at: nat, lane: Lane, now: nat)
    requires first <= at <= now && forall d <- log :: d.at <= first
    ensures Used(Backfilled(leases, LedgerOf(log), first, at), lane, now)
            == if Refills(leases, lane) then DayTotal(LedgerOf(log), LaneQuery(lane), now) else 0
  {
    DayMonotone(first, at);
    DayMonotone(at, now);
    if DayOf(first) == DayOf(now) {
      SameMidnight(at, now);
    } else {
      LaterDayIsEmpty(log, lane, first, now);
    }
  }

  /** A restart reads back exactly the leases on file. */
  lemma ReopenedLeases(store: L.Store)
    requires L.Functional(store.file)
    ensures L.AllLeases(L.Reopened(store).nets) == store.file
  {
    var nets := L.Reopened(store).nets;
    forall l | l in store.file
      ensures l in L.AllLeases(nets)
    {
      assert l.ip in L.AddressesIn(store.file, l.network);
      assert nets[l.network].leases[l.ip] == l;
    }
  }

  lemma RestartCounter<R>(s: State<R>, file: File, reopened: Ledger, first: nat, at: nat, lane: Lane, now: nat)
    requires L.StoreInv(s.store) && LogInv(s) && Possible(s, Restart(file, reopened, first, at)) && at <= now
    ensures Used(Restarted(s, reopened, first, at).quota, lane, now)
            == if Refills(s.store.file, lane) then DayTotal(s.saved, LaneQuery(lane), now) else 0
  {
    RestartKeepsLog(s, file, reopened, first, at);
    ReopenedLeases(s.store);
    BackfilledCounter(s.savedLog, s.store.file, first, at, lane, now);
  }

  lemma RestartUsed<R>(s: State<R>, file: File, reopened: Ledger, first: nat, at: nat, lane: Lane)
    requires L.StoreInv(s.store) && LogInv(s) && Possible(s, Restart(file, reopened, first, at))
    ensures Used(Restarted(s, reopened, first, at).quota, lane, at)
            == Known(Refilled(s.savedLog, s.store.file), lane, DayOf(at), true)
  {
    RestartCounter(s, file, reopened, first, at, lane, at);
    DayTotalIsKnown(s.savedLog, lane, s.now, at);
    RefilledKnown(s.savedLog, s.store.file, lane, DayOf(at));
  }

  lemma RestartKeepsUsed<R>(s: State<R>, file: File, reopened: Ledger, first: nat, at: nat)
    requires L.StoreInv(s.store) && LogInv(s) && Possible(s, Restart(file, reopened, first, at))
    ensures UsedInv(Restarted(s, reopened, first, at))
  {
    ReopenedLeases(s.store);
    DayMonotone(first, at);
    forall lane: Lane
      ensures Used(Restarted(s, reopened, first, at).quota, lane, at)
              == Known(Refilled(s.savedLog, s.store.file), lane, DayOf(at), true)
    {
      RestartUsed(s, file, reopened, first, at, lane);
    }
  }

  // ---- agreement, in every run ----

  lemma StepKeepsUsed<R>(s: State<R>, e: Event<R>)
    requires HubInv(s) && LogInv(s) && UsedInv(s) && Possible(s, e)
    ensures UsedInv(Step(s, e))
  {
    if e.Relay? {
      RelayKeepsUsed(s, e.src, e.packet, e.limits, e.t, e.writeOk);
    } else if e.Restart? {
      RestartKeepsUsed(s, e.file, e.reopened, e.first, e.at);
    } else {
      OthersKeepUsed(s, e);
    }
  }

  lemma OthersKeepUsed<R>(s: State<R>, e: Event<R>)
    requires TablesKnown(s) && UsedInv(s) && Possible(s, e) && !e.Relay? && !e.Restart?
    ensures UsedInv(Step(s, e))
  {
    OthersCountNothing(s, e);
  }

  lemma OthersCountNothing<R>(s: State<R>, e: Event<R>)
    requires TablesKnown(s) && Possible(s, e) && !e.Relay? && !e.Restart?
    ensures var s' := Step(s, e);
            s'.quota == s.quota && s'.ledger == s.ledger && s'.log == s.log && s'.now == s.now
  {
  }

  lemma {:induction false} RunKeepsUsed<R>(net: L.Net, start: nat, es: seq<Event<R>>)
    requires net.Valid() && net.prefix >= 1
    ensures UsedInv(Run(Initial<R>(net, start), es))
  {
    if es != [] {
      var init, e := es[..|es| - 1], es[|es| - 1];
      RunKeepsUsed(net, start, init);
      RunKeepsHub(net, start, init);
      RunKeepsLog(net, start, init);
      if Possible(Run(Initial<R>(net, start), init), e) {
        StepKeepsUsed(Run(Initial<R>(net, start), init), e);
      }
    }
  }

  /** The bytes of the day on the lane that its counter does not know of: forwarded while the payer had
      no limit, counted on one day and booked on the next, or dropped at a restart that found no lease
      naming the lane's key. */
  function Uncounted(log: seq<Delivery>, lane: Lane, now: nat): nat {
    Known(log, lane, DayOf(now), false)
  }

  lemma StateAgrees<R>(s: State<R>, lane: Lane, now: nat)
    requires LogInv(s) && UsedInv(s) && s.now <= now
    ensures DayTotal(s.ledger, LaneQuery(lane), now) == Used(s.quota, lane, now) + Uncounted(s.log, lane, now)
  {
    UsedLater(s, lane, now);
    DayTotalIsKnown(s.log, lane, s.now, now);
  }

  /** After any run, at any later time and for every account pool and exit lane: the ledger sum since
      midnight exceeds the counter (0 when it is of another day) by exactly the uncounted bytes. */
  lemma CountersAgree<R>(net: L.Net, start: nat, es: seq<Event<R>>, lane: Lane, now: nat)
    requires net.Valid() && net.prefix >= 1
    requires Run(Initial<R>(net, start), es).now <= now
    ensures var s := Run(Initial<R>(net, start), es);
            DayTotal(s.ledger, LaneQuery(lane), now) == Used(s.quota, lane, now) + Uncounted(s.log, lane, now)
  {
    RunKeepsLog(net, start, es);
    RunKeepsUsed(net, start, es);
    StateAgrees(Run(Initial<R>(net, start), es), lane, now);
  }

  ghost predicate Agrees<R>(s: State<R>, lane: Lane, now: nat) {
    Used(s.quota, lane, now) == DayTotal(s.ledger, LaneQuery(lane), now)
  }

  /** Counter and ledger are equal exactly when the counter knows of every packet of the day. */
  lemma AgreesExactly<R>(net: L.Net, start: nat, es: seq<Event<R>>, lane: Lane, now: nat)
    requires net.Valid() && net.prefix >= 1
    requires Run(Initial<R>(net, start), es).now <= now
    ensures var s := Run(Initial<R>(net, start), es);
            Agrees(s, lane, now) <==>
              forall d <- s.log :: On(d.charge, lane) && DayOf(d.at) == DayOf(now) && d.n > 0 ==> Knows(d, lane)
  {
    CountersAgree(net, start, es, lane, now);
    NothingMissed(Run(Initial<R>(net, start), es).log, lane, DayOf(now));
  }

  /** What the ledger holds of the day on a lane, but for the bytes its counter does not know of. */
  ghost function Charged<R>(s: State<R>, lane: Lane, now: nat): int {
    DayTotal(s.ledger, LaneQuery(lane), now) - Uncounted(s.log, lane, now)
  }

  /** After any run, at any later time: a packet is admitted if and only if what the ledger has charged since
      midnight to its account's pool, and if it goes through an exit to its device's lane, leaves room for it
      within the limits. */
  lemma AdmittedByLedger<R>(net: L.Net, start: nat, es: seq<Event<R>>, limits: Limits, c: Charge, n: nat, now: nat)
    requires net.Valid() && net.prefix >= 1
    requires Run(Initial<R>(net, start), es).now <= now
    ensures var s, spec := Run(Initial<R>(net, start), es), limits.For(c.account);
            Admit(s.quota, limits, c, n, now).Admitted?
            <==> && Room(Charged(s, Pool(c.account), now), n, spec.bytesPerDay)
                 && (c.exit != "" ==> Room(Charged(s, Exit(c.device), now), n, spec.egressBytesPerDay))
  {
    CountersAgree(net, start, es, Pool(c.account), now);
    CountersAgree(net, start, es, Exit(c.device), now);
    AdmittedExactly(Run(Initial<R>(net, start), es).quota, limits, c, n, now);
  }

  // ---- which steps break the agreement ----

  /** A relay keeps a lane's agreement if and only if the packet is not charged to the lane, or its payer
      has a limit and it is counted and booked on one day. */
  lemma RelayAgreesExactly<R>(s: State<R>, src: R, packet: seq<byte>, limits: Limits, t: Times, lane: Lane)
    requires HubInv(s) && LogInv(s) && UsedInv(s) && Possible(s, Relay(src, packet, limits, t, true))
    requires Outcome(s, src, packet, limits, t, true).Delivered? && Agrees(s, lane, t.add)
    ensures var c := Outcome(s, src, packet, limits, t, true).charge;
            Agrees(Relayed(s, src, packet, limits, t, true), lane, t.add)
            <==> !On(c, lane) || (limits.For(c.account).Limited() && DayOf(t.inc) == DayOf(t.add))
  {
    StateAgrees(s, lane, t.add);
    RelayedAgrees(s, src, packet, limits, t, lane);
    RelayUncounted(s, src, packet, limits, t, lane);
    var c := Outcome(s, src, packet, limits, t, true).charge;
    AgreesAfter(s, Relayed(s, src, packet, limits, t, true), lane, t.add,
                if !On(c, lane) || (limits.For(c.account).Limited() && DayOf(t.inc) == DayOf(t.add)) then 0
                else |packet|);
  }

  lemma AgreesAfter<R>(s: State<R>, s': State<R>, lane: Lane, now: nat, missed: nat)
    requires DayTotal(s.ledger, LaneQuery(lane), now) == Used(s.quota, lane, now) + Uncounted(s.log, lane, now)
    requires DayTotal(s'.ledger, LaneQuery(lane), now) == Used(s'.quota, lane, now) + Uncounted(s'.log, lane, now)
    requires Uncounted(s'.log, lane, now) == Uncounted(s.log, lane, now) + missed
    requires Agrees(s, lane, now)
    ensures Agrees(s', lane, now) <==> missed == 0
  {
  }

  lemma RelayedAgrees<R>(s: State<R>, src: R, packet: seq<byte>, limits: Limits, t: Times, lane: Lane)
    requires HubInv(s) && LogInv(s) && UsedInv(s) && Possible(s, Relay(src, packet, limits, t, true))
    ensures var s' := Relayed(s, src, packet, limits, t, true);
            DayTotal(s'.ledger, LaneQuery(lane), t.add) == Used(s'.quota, lane, t.add) + Uncounted(s'.log, lane, t.add)
  {
    RelayedLog(s, src, packet, limits, t);
    RelayedNow(s, src, packet, limits, t);
    RelayKeepsUsed(s, src, packet, limits, t, true);
    StateAgrees(Relayed(s, src, packet, limits, t, true), lane, t.add);
  }

  lemma RelayedNow<R>(s: State<R>, src: R, packet: seq<byte>, limits: Limits, t: Times)
    requires src in s.nodes && TablesKnown(s)
    ensures Relayed(s, src, packet, limits, t, true).now == t.add
  {
  }

  lemma RelayedLog<R>(s: State<R>, src: R, packet: seq<byte>, limits: Limits, t: Times)
    requires HubInv(s) && LogInv(s) && Possible(s, Relay(src, packet, limits, t, true))
    ensures LogInv(Relayed(s, src, packet, limits, t, true))
  {
    if Outcome(s, src, packet, limits, t, true).Delivered? {
      RelayedCharge(s, src, packet, limits, t, true);
    }
    RelayKeepsLog(s, src, packet, limits, t, true);
  }

  lemma RelayUncounted<R>(s: State<R>, src: R, packet: seq<byte>, limits: Limits, t: Times, lane: Lane)
    requires TablesKnown(s) && src in s.nodes && Outcome(s, src, packet, limits, t, true).Delivered?
    ensures var c := Outcome(s, src, packet, limits, t, true).charge;
            Uncounted(Relayed(s, src, packet, limits, t, true).log, lane, t.add)
            == Uncounted(s.log, lane, t.add)
               + if !On(c, lane) || (limits.For(c.account).Limited() && DayOf(t.inc) == DayOf(t.add)) then 0
                 else |packet|
    ensures |packet| >= 20
  {
    var r := Outcome(s, src, packet, limits, t, true);
    AppendLog(s.log, DeliveryOf(s, src, r.dst, r.charge, packet, limits, t));
  }

  /** A restart makes a lane agree, whatever was before, if and only if a lease on file names the lane's
      key or the lane has no traffic that day. */
  lemma RestartAgreesExactly<R>(s: State<R>, file: File, reopened: Ledger, first: nat, at: nat, lane: Lane, now: nat)
    requires L.StoreInv(s.store) && LogInv(s) && Possible(s, Restart(file, reopened, first, at)) && at <= now
    ensures Agrees(Restarted(s, reopened, first, at), lane, now)
            <==> Refills(s.store.file, lane) || DayTotal(s.saved, LaneQuery(lane), now) == 0
  {
    RestartCounter(s, file, reopened, first, at, lane, now);
    RestartKeepsLog(s, file, reopened, first, at);
  }

  /** No other step can break it. */
  lemma OthersKeepAgreement<R>(s: State<R>, e: Event<R>, lane: Lane, now: nat)
    requires TablesKnown(s) && Possible(s, e) && !e.Relay? && !e.Restart?
    ensures Agrees(Step(s, e), lane, now) <==> Agrees(s, lane, now)
  {
    OthersCountNothing(s, e);
  }

  // ---- restarts ----

  ghost function JustSaved<R>(s: State<R>): State<R> {
    s.(saved := s.ledger, savedLog := s.log)
  }

  lemma SaveAndRestart<R>(s: State<R>, es: seq<Event<R>>, e: Event<R>)
    requires e.Restart? && TablesKnown(Run(s, es)) && Possible(JustSaved(Run(s, es)), e)
    ensures Run(s, es + [SaveUsage, e]) == Step(JustSaved(Run(s, es)), e)
  {
    var e1: Event<R> := SaveUsage;
    assert (es + [e1])[..|es + [e1]| - 1] == es;
    assert Run(s, es + [e1]) == JustSaved(Run(s, es));
    assert (es + [e1, e])[..|es + [e1, e]| - 1] == es + [e1];
  }

  /** A counter as a save and restart leave it. */
  ghost function AfterRestart<R>(s: State<R>, lane: Lane, now: nat): int {
    if Refills(s.store.file, lane) then DayTotal(s.ledger, LaneQuery(lane), now) else 0
  }

  /** After any run, saving and restarting sets each counter to the ledger's sum when a lease on file
      names its key, and to 0 when none does. */
  lemma RestartRefills<R>(net: L.Net, start: nat, es: seq<Event<R>>, e: Event<R>, lane: Lane, now: nat)
    requires net.Valid() && net.prefix >= 1 && e.Restart?
    requires Possible(JustSaved(Run(Initial<R>(net, start), es)), e) && e.at <= now
    ensures var s, s' := Run(Initial<R>(net, start), es), Run(Initial<R>(net, start), es + [SaveUsage, e]);
            Used(s'.quota, lane, now) == AfterRestart(s, lane, now)
  {
    RunKeepsHub(net, start, es);
    RunKeepsLog(net, start, es);
    var s := Run(Initial<R>(net, start), es);
    SaveAndRestart(Initial<R>(net, start), es, e);
    RestartCounter(JustSaved(s), e.file, e.reopened, e.first, e.at, lane, now);
  }

  /** The restart leaves the counters a charge is held against as they are. */
  ghost predicate SameCounters<R>(s: State<R>, c: Charge, now: nat) {
    && Used(s.quota, Pool(c.account), now) == AfterRestart(s, Pool(c.account), now)
    && (c.OnLane() ==> Used(s.quota, Exit(c.device), now) == AfterRestart(s, Exit(c.device), now))
  }

  /** Two counter sets answer every admission question about a charge alike exactly when its own counters
      are equal. */
  lemma AdmitTells(q: Quota, q': Quota, c: Charge, now: nat)
    ensures (forall limits: Limits, n: nat :: Admit(q', limits, c, n, now) == Admit(q, limits, c, n, now))
            <==> && Used(q', Pool(c.account), now) == Used(q, Pool(c.account), now)
                 && (c.OnLane() ==> Used(q', Exit(c.device), now) == Used(q, Exit(c.device), now))
  {
    var u, u' := Used(q, Pool(c.account), now), Used(q', Pool(c.account), now);
    var v, v' := Used(q, Exit(c.device), now), Used(q', Exit(c.device), now);
    if u != u' {
      var limits := Limits(QuotaSpec(1, 0), map[]);
      var n: nat := 2 + (if u < 0 then -u else 0) + (if u' < 0 then -u' else 0);
      assert Admit(q', limits, c, n, now) != Admit(q, limits, c, n, now);
    } else if c.OnLane() && v != v' {
      var limits := Limits(QuotaSpec(0, 1), map[]);
      var n: nat := 2 + (if v < 0 then -v else 0) + (if v' < 0 then -v' else 0);
      assert Admit(q', limits, c, n, now) != Admit(q, limits, c, n, now);
    }
  }

  /** A restart is invisible to the quota decisions about a charge, for every limit, packet size and later
      time, exactly when each of its counters equals the ledger's sum, or is 0 where no lease on file
      names its key. */
  lemma RestartIsInvisible<R>(net: L.Net, start: nat, es: seq<Event<R>>, e: Event<R>, c: Charge, now: nat)
    requires net.Valid() && net.prefix >= 1 && e.Restart?
    requires Possible(JustSaved(Run(Initial<R>(net, start), es)), e) && e.at <= now
    ensures var s, s' := Run(Initial<R>(net, start), es), Run(Initial<R>(net, start), es + [SaveUsage, e]);
            (forall limits: Limits, n: nat :: Admit(s'.quota, limits, c, n, now) == Admit(s.quota, limits, c, n, now))
            <==> SameCounters(s, c, now)
  {
    var s, s' := Run(Initial<R>(net, start), es), Run(Initial<R>(net, start), es + [SaveUsage, e]);
    RestartRefills(net, start, es, e, Pool(c.account), now);
    RestartRefills(net, start, es, e, Exit(c.device), now);
    AdmitTells(s.quota, s'.quota, c, now);
  }

  // ---- runs in which nothing is uncounted ----

  /** A lease on file names the account, and one names the device, of every packet. */
  ghost predicate PayersOnFile(log: seq<Delivery>, file: set<L.Lease>) {
    forall d <- log :: Refills(file, Pool(d.charge.account)) && Refills(file, Exit(d.charge.device))
  }

  /** Forwarded packets have a limit above them and are counted and booked on one day; restarts find a
      lease on file for every payer. */
  ghost predicate Careful<R>(s: State<R>, e: Event<R>)
    requires TablesKnown(s) && Possible(s, e)
  {
    && (e.Relay? ==>
          var r := Outcome(s, e.src, e.packet, e.limits, e.t, e.writeOk);
          r.Delivered? ==> e.limits.For(r.charge.account).Limited() && DayOf(e.t.inc) == DayOf(e.t.add))
    && (e.Restart? ==> PayersOnFile(s.savedLog, s.store.file))
  }

  ghost predicate CarefulRun<R>(s: State<R>, es: seq<Event<R>>) {
    es != [] ==>
      var init, e := es[..|es| - 1], es[|es| - 1];
      && CarefulRun(s, init)
      && (TablesKnown(Run(s, init)) && Possible(Run(s, init), e) ==> Careful(Run(s, init), e))
  }

  ghost predicate AllKnown(log: seq<Delivery>) {
    forall d <- log :: d.inPool && d.inLane
  }

  lemma RelayKnows<R>(s: State<R>, src: R, packet: seq<byte>, limits: Limits, t: Times, writeOk: bool)
    requires TablesKnown(s) && src in s.nodes && AllKnown(s.log)
    requires var r := Outcome(s, src, packet, limits, t, writeOk);
             r.Delivered? ==> limits.For(r.charge.account).Limited() && DayOf(t.inc) == DayOf(t.add)
    ensures AllKnown(Relayed(s, src, packet, limits, t, writeOk).log)
    ensures Relayed(s, src, packet, limits, t, writeOk).savedLog == s.savedLog
  {
  }

  lemma RestartKnows(log: seq<Delivery>, file: set<L.Lease>)
    requires PayersOnFile(log, file)
    ensures AllKnown(Refilled(log, file))
  {
    forall d | d in Refilled(log, file)
      ensures d.inPool && d.inLane
    {
      RefilledFrom(log, file, d);
    }
  }

  lemma OthersKnow<R>(s: State<R>, e: Event<R>)
    requires TablesKnown(s) && Possible(s, e) && !e.Relay? && !e.Restart?
    ensures Step(s, e).log == s.log && (Step(s, e).savedLog == s.savedLog || Step(s, e).savedLog == s.log)
  {
  }

  lemma StepKnows<R>(s: State<R>, e: Event<R>)
    requires L.StoreInv(s.store) && TablesKnown(s) && Possible(s, e) && Careful(s, e)
    requires AllKnown(s.log) && AllKnown(s.savedLog)
    ensures AllKnown(Step(s, e).log) && AllKnown(Step(s, e).savedLog)
  {
    if e.Restart? {
      ReopenedLeases(s.store);
      RestartKnows(s.savedLog, s.store.file);
    } else if e.Relay? {
      RelayKnows(s, e.src, e.packet, e.limits, e.t, e.writeOk);
    } else {
      OthersKnow(s, e);
    }
  }

  lemma {:induction false} CarefulRunsKnow<R>(net: L.Net, start: nat, es: seq<Event<R>>)
    requires net.Valid() && net.prefix >= 1 && CarefulRun(Initial<R>(net, start), es)
    ensures AllKnown(Run(Initial<R>(net, start), es).log) && AllKnown(Run(Initial<R>(net, start), es).savedLog)
  {
    if es != [] {
      var init, e := es[..|es| - 1], es[|es| - 1];
      CarefulRunsKnow(net, start, init);
      RunKeepsHub(net, start, init);
      if Possible(Run(Initial<R>(net, start), init), e) {
        StepKnows(Run(Initial<R>(net, start), init), e);
      }
    }
  }

  /** In a careful run every counter equals the ledger's sum at every later time. */
  lemma CarefulRunsAgree<R>(net: L.Net, start: nat, es: seq<Event<R>>, lane: Lane, now: nat)
    requires net.Valid() && net.prefix >= 1 && CarefulRun(Initial<R>(net, start), es)
    requires Run(Initial<R>(net, start), es).now <= now
    ensures Agrees(Run(Initial<R>(net, start), es), lane, now)
  {
    CarefulRunsKnow(net, start, es);
    AgreesExactly(net, start, es, lane, now);
  }

  lemma {:induction false} NobodyOnLane(log: seq<Delivery>, lane: Lane, day: nat, counted: bool)
    requires forall d <- log :: !On(d.charge, lane)
    ensures Known(log, lane, day, counted) == 0
  {
    if log != [] {
      assert log[|log| - 1] in log;
      NobodyOnLane(log[..|log| - 1], lane, day, counted);
    }
  }

  lemma LaneSurvives<R>(s: State<R>, lane: Lane, now: nat)
    requires LogInv(s) && Agrees(s, lane, now) && s.now <= now && PayersOnFile(s.log, s.store.file)
    ensures Used(s.quota, lane, now) == AfterRestart(s, lane, now)
  {
    if !Refills(s.store.file, lane) {
      DayTotalIsKnown(s.log, lane, s.now, now);
      NobodyOnLane(s.log, lane, DayOf(now), true);
      NobodyOnLane(s.log, lane, DayOf(now), false);
    }
  }

  /** So after a careful run with every payer's lease on file, no restart changes any quota decision. */
  lemma CarefulRestartIsInvisible<R>(net: L.Net, start: nat, es: seq<Event<R>>, e: Event<R>, c: Charge, now: nat,
                                     limits: Limits, n: nat)
    requires net.Valid() && net.prefix >= 1 && e.Restart? && CarefulRun(Initial<R>(net, start), es)
    requires Possible(JustSaved(Run(Initial<R>(net, start), es)), e) && e.at <= now
    requires PayersOnFile(Run(Initial<R>(net, start), es).log, Run(Initial<R>(net, start), es).store.file)
    ensures Admit(Run(Initial<R>(net, start), es + [SaveUsage, e]).quota, limits, c, n, now)
            == Admit(Run(Initial<R>(net, start), es).quota, limits, c, n, now)
  {
    var s := Run(Initial<R>(net, start), es);
    RunKeepsLog(net, start, es);
    CarefulRunsAgree(net, start, es, Pool(c.account), now);
    CarefulRunsAgree(net, start, es, Exit(c.device), now);
    LaneSurvives(s, Pool(c.account), now);
    LaneSurvives(s, Exit(c.device), now);
    RestartIsInvisible(net, start, es, e, c, now);
  }

  // ---- every payer holds a lease ----

  ghost predicate Covered(store: L.Store, c: Charge) {
    exists ip: nat :: LR.HasAddress(store, c.account, c.device, ip)
  }

  ghost predicate CoverInv<R>(s: State<R>) {
    && LR.Synced(s.store)
    && (forall d <- s.log :: Covered(s.store, d.charge))
    && (forall d <- s.savedLog :: Covered(s.store, d.charge))
  }

  lemma RelayCovered<R>(s: State<R>, src: R, packet: seq<byte>, limits: Limits, t: Times, writeOk: bool)
    requires HubInv(s) && src in s.nodes && Outcome(s, src, packet, limits, t, writeOk).Delivered?
    ensures Covered(s.store, Outcome(s, src, packet, limits, t, writeOk).charge)
  {
    var r := Outcome(s, src, packet, limits, t, writeOk);
    var a, b := s.nodes[src].info, s.nodes[r.dst].info;
    assert Owns(s.store, a) && Owns(s.store, b);
    assert LR.HasAddress(s.store, a.account, a.device, a.ip);
    assert LR.HasAddress(s.store, b.account, b.device, b.ip);
  }

  lemma RelayKeepsCover<R>(s: State<R>, src: R, packet: seq<byte>, limits: Limits, t: Times, writeOk: bool)
    requires TablesKnown(s) && CoverInv(s) && src in s.nodes
    requires var r := Outcome(s, src, packet, limits, t, writeOk); r.Delivered? ==> Covered(s.store, r.charge)
    ensures CoverInv(Relayed(s, src, packet, limits, t, writeOk))
  {
  }

  lemma JoinKeepsCover<R>(s: State<R>, ref: R, h: Hello)
    requires L.StoreInv(s.store) && CoverInv(s)
    ensures CoverInv(Joined(s, ref, h, true))
  {
    var s' := Joined(s, ref, h, true);
    LR.RequestSyncs(s.store, NetworkOf(h), h.account, h.device);
    forall c: Charge | Covered(s.store, c)
      ensures Covered(s'.store, c)
    {
      var ip: nat :| LR.HasAddress(s.store, c.account, c.device, ip);
      LR.RequestKeeps(s.store, NetworkOf(h), h.account, h.device, true, c.account, c.device, ip);
    }
  }

  lemma ReopenKeepsCover(store: L.Store, c: Charge)
    requires L.StoreInv(store) && LR.Synced(store) && Covered(store, c)
    ensures Covered(L.Reopened(store), c)
  {
    var ip: nat :| LR.HasAddress(store, c.account, c.device, ip);
    assert LR.OnDisk(store, c.account, c.device, ip);
    LR.ReopenKeeps(store, c.account, c.device, ip);
  }

  lemma RestartKeepsCover<R>(s: State<R>, reopened: Ledger, first: nat, now: nat)
    requires L.StoreInv(s.store) && CoverInv(s)
    ensures CoverInv(Restarted(s, reopened, first, now))
  {
    var s' := Restarted(s, reopened, first, now);
    LR.ReopenSyncs(s.store);
    forall d | d in s.savedLog
      ensures Covered(s'.store, d.charge)
    {
      ReopenKeepsCover(s.store, d.charge);
    }
    forall d | d in s'.log
      ensures Covered(s'.store, d.charge)
    {
      RefilledFrom(s.savedLog, L.AllLeases(s'.store.nets), d);
    }
  }

  lemma StepKeepsCover<R>(s: State<R>, e: Event<R>)
    requires HubInv(s) && CoverInv(s) && Possible(s, e) && (e.Join? ==> e.saveOk)
    ensures CoverInv(Step(s, e))
  {
    if e.Join? {
      JoinKeepsCover(s, e.ref, e.hello);
    } else if e.Relay? {
      if Outcome(s, e.src, e.packet, e.limits, e.t, e.writeOk).Delivered? {
        RelayCovered(s, e.src, e.packet, e.limits, e.t, e.writeOk);
      }
      RelayKeepsCover(s, e.src, e.packet, e.limits, e.t, e.writeOk);
    } else if e.Restart? {
      RestartKeepsCover(s, e.reopened, e.first, e.at);
    }
  }

  lemma {:induction false} RunCovered<R>(net: L.Net, start: nat, es: seq<Event<R>>)
    requires net.Valid() && net.prefix >= 1 && forall e <- es :: e.Join? ==> e.saveOk
    ensures CoverInv(Run(Initial<R>(net, start), es))
  {
    if es == [] {
      LR.RunSyncs(net, []);
    } else {
      var init, e := es[..|es| - 1], es[|es| - 1];
      assert e in es;
      RunCovered(net, start, init);
      RunKeepsHub(net, start, init);
      if Possible(Run(Initial<R>(net, start), init), e) {
        StepKeepsCover(Run(Initial<R>(net, start), init), e);
      }
    }
  }

  lemma CoveredOnFile(store: L.Store, c: Charge)
    requires OwnNetworks(store) && LR.Synced(store) && Covered(store, c)
    ensures Refills(store.file, Pool(c.account)) && Refills(store.file, Exit(c.device))
  {
    var ip: nat :| LR.HasAddress(store, c.account, c.device, ip);
    assert LR.OnDisk(store, c.account, c.device, ip);
    var l := L.LeaseAt(store.file, c.account, ip);
    assert l in store.file && l.account == c.account && l.device == c.device;
  }

  /** While lease files get written, every payer the ledger names, in memory or as saved, has its lease on
      file: a billed device is a node, and a node owns a lease. */
  lemma SavedLeasesCoverPayers<R>(net: L.Net, start: nat, es: seq<Event<R>>)
    requires net.Valid() && net.prefix >= 1 && forall e <- es :: e.Join? ==> e.saveOk
    ensures var s := Run(Initial<R>(net, start), es);
            PayersOnFile(s.log, s.store.file) && PayersOnFile(s.savedLog, s.store.file)
  {
    RunCovered(net, start, es);
    RunKeepsHub(net, start, es);
    var s := Run(Initial<R>(net, start), es);
    forall d | d in s.log || d in s.savedLog
      ensures Refills(s.store.file, Pool(d.charge.account)) && Refills(s.store.file, Exit(d.charge.device))
    {
      CoveredOnFile(s.store, d.charge);
    }
  }

  // ---- one failed lease save forgets a quota ----

  /** A join whose lease cannot be saved leaves only the lease in memory. */
  lemma RefusedJoin(s: State<nat>, net: L.Net, h: Hello)
    requires net.Valid() && 1 <= net.prefix <= 30 && s.store == L.Start(net)
    ensures var s' := Joined(s, 0, h, false);
            && s' == s.(store := s'.store) && s'.store.file == {}
            && s'.store.nets.Keys == {h.account} && s'.store.nets[h.account].leases.Keys == {net.base + 1}
            && s'.store.nets[h.account].leases[net.base + 1].device == h.device
  {
    LR.FirstLease(net, h.account, h.device, false);
  }

  /** Asking again is answered from memory, and nothing is written. */
  lemma SecondJoin(s: State<nat>, h: Hello, ip: nat)
    requires s.tables == Registry.Tables(map[], map[]) && s.nodes == map[] && s.store.file == {}
    requires h.account in s.store.nets && s.store.nets[h.account].leases.Keys == {ip}
    requires s.store.nets[h.account].leases[ip].device == h.device
    ensures var s' := Joined(s, 1, h, true);
            && s'.store.file == {}
            && s' == s.(store := s'.store, tables := s'.tables, nodes := s'.nodes)
            && s'.nodes == map[1 := NodeState(InfoFor(h, ip), h.Egress(), h.acl, 0, 0)]
            && s'.tables.ipTable == map[Registry.NetKey(h.account, ip) := Registry.Entry(1, InfoFor(h, ip))]
  {
    LR.AskedAgain(s.store, h.account, h.device, ip);
    Registry.EmptyAgree<nat>();
    Registry.RegisteredAgrees(s.tables, Registry.Entry(1, InfoFor(h, ip)));
  }

  lemma TwoJoins(net: L.Net, start: nat, h: Hello)
    requires net.Valid() && 1 <= net.prefix <= 30 && !h.Egress()
    ensures var s := Joined(Joined<nat>(Initial(net, start), 0, h, false), 1, h, true);
            Alone(s, h, net.base + 1) && s.store.file == {} && s.now == start
  {
    RefusedJoin(Initial(net, start), net, h);
    SecondJoin(Joined(Initial(net, start), 0, h, false), h, net.base + 1);
  }

  lemma RunOfTwo(net: L.Net, start: nat, h: Hello)
    requires net.Valid() && 1 <= net.prefix <= 30 && h.device != "" && BarFree(h.device) && BarFree(h.account)
    ensures Run<nat>(Initial(net, start), [Join(0, h, false), Join(1, h, true)])
            == Joined(Joined(Initial(net, start), 0, h, false), 1, h, true)
  {
    var e0, e1: Event<nat> := Join(0, h, false), Join(1, h, true);
    var s0: State<nat> := Initial(net, start);
    RefusedJoin(s0, net, h);
    RunOneMore(s0, [], e0);
    assert [] + [e0] == [e0];
    RunOneMore(s0, [e0], e1);
    assert [e0] + [e1] == [e0, e1];
  }

  /** The device whose lease could not be saved is refused, asks again and is in, with nothing on file. */
  lemma JoinedUnsaved(net: L.Net, start: nat, h: Hello)
    requires net.Valid() && 1 <= net.prefix <= 30 && h.device != "" && BarFree(h.device) && BarFree(h.account)
    requires !h.Egress()
    ensures var s := Run<nat>(Initial(net, start), [Join(0, h, false), Join(1, h, true)]);
            Alone(s, h, net.base + 1) && s.store.file == {} && s.now == start
  {
    TwoJoins(net, start, h);
    RunOfTwo(net, start, h);
  }

  /** The one node there is, alone with fresh counters. */
  ghost predicate Alone(s: State<nat>, h: Hello, ip: nat) {
    && s.log == [] && s.ledger == map[] && s.quota == Quota(DayOf(s.now), map[], map[])
    && s.nodes == map[1 := NodeState(InfoFor(h, ip), false, h.acl, 0, 0)]
    && s.tables.ipTable == map[Registry.NetKey(h.account, ip) := Registry.Entry(1, InfoFor(h, ip))]
  }

  lemma AloneIsKnown(s: State<nat>, h: Hello, ip: nat)
    requires Alone(s, h, ip)
    ensures TablesKnown(s)
  {
  }

  lemma FirstRoute(s: State<nat>, h: Hello, ip: nat, packet: seq<byte>)
    requires Alone(s, h, ip) && TablesKnown(s) && |packet| >= 20 && DstOf(packet) == ip
    ensures RouteOf(s, 1, packet) == To(1)
  {
  }

  lemma FirstOutcome(s: State<nat>, h: Hello, ip: nat, packet: seq<byte>, limits: Limits, t: Times)
    requires Alone(s, h, ip) && TablesKnown(s) && |packet| >= 20 && DstOf(packet) == ip && !Proxied(packet)
    requires limits.For(h.account).bytesPerDay >= |packet| && t.admit == s.now
    ensures Outcome(s, 1, packet, limits, t, true) == Delivered(1, Charge(h.account, h.device, ""))
  {
    FirstRoute(s, h, ip, packet);
  }

  /** The first packet of such a device, sent to its own address, is delivered, counted and booked. */
  lemma FirstPacket(s: State<nat>, h: Hello, ip: nat, packet: seq<byte>, limits: Limits, t: Times)
    requires Alone(s, h, ip) && TablesKnown(s) && |packet| >= 20 && DstOf(packet) == ip && !Proxied(packet)
    requires limits.For(h.account).bytesPerDay >= |packet| && t == Times(s.now, s.now, s.now)
    ensures var s' := Relayed(s, 1, packet, limits, t, true);
            && s'.store == s.store && s'.now == s.now
            && Used(s'.quota, Pool(h.account), s.now) == |packet|
            && s'.ledger == map[Bucket(h.account, h.device, "", HourStart(s.now)) := Counters(0, |packet|)]
            && |s'.log| == 1 && s'.log[0].inPool
  {
    FirstOutcome(s, h, ip, packet, limits, t);
  }

  /** Some file gives the ledger back. */
  ghost predicate Savable(l: Ledger) {
    exists file :: Saves(l, file) && Opens(file, l)
  }

  lemma OneRowFile(b: Bucket, n: nat)
    requires CleanIds(b) && IsInt64(b.hour) && n > 0
    ensures Savable(map[b := Counters(0, n)])
  {
    KeyRoundTrip(b);
    var l := map[b := Counters(0, n)];
    var file := map[PrintKey(b) := Counters(0, n)];
    assert Saves(l, file) && Opens(file, l);
  }

  /** All of it on one day, under a limit: the device joins although its lease was never written, uses up
      its quota, and a save and restart set its counter back to 0 while the ledger still has the bytes. */
  lemma FailedSaveForgetsQuota(net: L.Net, start: nat, h: Hello, packet: seq<byte>, limits: Limits)
    requires net.Valid() && 1 <= net.prefix <= 30 && start <= MAX_INT64
    requires h.device != "" && BarFree(h.device) && BarFree(h.account) && !h.Egress()
    requires |packet| >= 20 && DstOf(packet) == net.base + 1 && !Proxied(packet)
    requires limits.For(h.account).bytesPerDay >= |packet|
    ensures var es := [Join(0, h, false), Join(1, h, true), Relay(1, packet, limits, Times(start, start, start), true)];
            var s := Run<nat>(Initial(net, start), es);
            && Used(s.quota, Pool(h.account), start) == |packet| == DayTotal(s.ledger, OfAccount(h.account), start)
            && exists e: Event<nat> ::
                 && e.Restart? && e.at == start && Possible(JustSaved(s), e)
                 && Used(Run(Initial(net, start), es + [SaveUsage, e]).quota, Pool(h.account), start) == 0
  {
    var e2: Event<nat> := Relay(1, packet, limits, Times(start, start, start), true);
    var es := [Join(0, h, false), Join(1, h, true), e2];
    PacketUnsaved(net, start, h, packet, limits, es);
    OneRowFile(Bucket(h.account, h.device, "", HourStart(start)), |packet|);
    RestartForgets(net, start, es, Pool(h.account));
  }

  /** With no lease on file a restart resets every counter. */
  lemma RestartForgets(net: L.Net, start: nat, es: seq<Event<nat>>, lane: Lane)
    requires net.Valid() && net.prefix >= 1 && start <= MAX_INT64
    requires var s := Run<nat>(Initial(net, start), es);
             TablesKnown(s) && s.store.file == {} && s.now == start && Savable(s.ledger)
    ensures var s := Run<nat>(Initial(net, start), es);
            exists e: Event<nat> ::
              && e.Restart? && e.at == start && Possible(JustSaved(s), e)
              && Used(Run(Initial(net, start), es + [SaveUsage, e]).quota, lane, start) == 0
  {
    var e := RestartOf(Run<nat>(Initial(net, start), es));
    RestartRefills(net, start, es, e, lane, start);
  }

  lemma RestartOf(s: State<nat>) returns (e: Event<nat>)
    requires s.now <= MAX_INT64 && Savable(s.ledger)
    ensures e.Restart? && e.at == s.now && Possible(JustSaved(s), e)
  {
    var file :| Saves(s.ledger, file) && Opens(file, s.ledger);
    e := Restart(file, s.ledger, s.now, s.now);
  }

  lemma PacketUnsaved(net: L.Net, start: nat, h: Hello, packet: seq<byte>, limits: Limits, es: seq<Event<nat>>)
    requires net.Valid() && 1 <= net.prefix <= 30 && start <= MAX_INT64
    requires h.device != "" && BarFree(h.device) && BarFree(h.account) && !h.Egress()
    requires |packet| >= 20 && DstOf(packet) == net.base + 1 && !Proxied(packet)
    requires limits.For(h.account).bytesPerDay >= |packet|
    requires es == [Join(0, h, false), Join(1, h, true), Relay(1, packet, limits, Times(start, start, start), true)]
    ensures var s := Run<nat>(Initial(net, start), es);
            && TablesKnown(s) && s.store.file == {} && s.now == start
            && Used(s.quota, Pool(h.account), start) == |packet| == DayTotal(s.ledger, OfAccount(h.account), start)
            && s.ledger == map[Bucket(h.account, h.device, "", HourStart(start)) := Counters(0, |packet|)]
  {
    ThirdEvent(net, start, h, packet, limits, es);
    RunKeepsHub(net, start, es);
    RunKeepsLog(net, start, es);
    RunKeepsUsed(net, start, es);
    OneRowTotal(Run<nat>(Initial(net, start), es), h.account);
  }

  lemma ThirdEvent(net: L.Net, start: nat, h: Hello, packet: seq<byte>, limits: Limits, es: seq<Event<nat>>)
    requires net.Valid() && 1 <= net.prefix <= 30 && start <= MAX_INT64
    requires h.device != "" && BarFree(h.device) && BarFree(h.account) && !h.Egress()
    requires |packet| >= 20 && DstOf(packet) == net.base + 1 && !Proxied(packet)
    requires limits.For(h.account).bytesPerDay >= |packet|
    requires es == [Join(0, h, false), Join(1, h, true), Relay(1, packet, limits, Times(start, start, start), true)]
    ensures var s := Run<nat>(Initial(net, start), es);
            && s.store.file == {} && s.now == start
            && Used(s.quota, Pool(h.account), start) == |packet|
            && s.ledger == map[Bucket(h.account, h.device, "", HourStart(start)) := Counters(0, |packet|)]
            && |s.log| == 1 && s.log[0].inPool
  {
    var es0: seq<Event<nat>> := [Join(0, h, false), Join(1, h, true)];
    var s0: State<nat> := Initial(net, start);
    JoinedUnsaved(net, start, h);
    AloneIsKnown(Run(s0, es0), h, net.base + 1);
    FirstPacket(Run(s0, es0), h, net.base + 1, packet, limits, Times(start, start, start));
    RunWithRelay(s0, es0, 1, packet, limits, Times(start, start, start));
    assert es0 + [es[2]] == es;
  }

  lemma RunWithRelay(s0: State<nat>, es: seq<Event<nat>>, src: nat, packet: seq<byte>, limits: Limits, t: Times)
    requires TablesKnown(Run(s0, es)) && Possible(Run(s0, es), Relay(src, packet, limits, t, true))
    ensures Run(s0, es + [Relay(src, packet, limits, t, true)]) == Relayed(Run(s0, es), src, packet, limits, t, true)
  {
    RunOneMore(s0, es, Relay(src, packet, limits, t, true));
  }

  lemma OneRowTotal(s: State<nat>, account: string)
    requires LogInv(s) && UsedInv(s) && |s.log| == 1 && s.log[0].inPool
    ensures Used(s.quota, Pool(account), s.now) == DayTotal(s.ledger, OfAccount(account), s.now)
  {
    StateAgrees(s, Pool(account), s.now);
    assert s.log[..0] == [];
    assert Known([], Pool(account), DayOf(s.now), false) == 0;
  }
}
