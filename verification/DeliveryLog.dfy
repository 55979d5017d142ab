/** The history of forwarded packets, and what ledger and counters are as functions of it. */
module DeliveryLog {
  import opened Clock
  import opened Usage
  import opened LedgerText
  import opened LedgerFile
  import L = Leases
  import opened Quotas

  /** One forwarded packet: who pays, how much, when it was booked, between which devices, whether the
      ends were exits and the packet was wrapped. `inPool` and `inLane` tell whether the two counters of
      the running process know of it: it was counted, on the day it was booked, for an account with a
      limit, or it came in with a refill. */
  datatype Delivery = Delivery(
    charge: Charge, n: nat, at: nat,
    src: string, dst: string, srcExit: bool, dstExit: bool, proxied: bool,
    inPool: bool, inLane: bool)

  predicate Knows(d: Delivery, lane: Lane) {
    if lane.Pool? then d.inPool else d.inLane
  }

  function BucketOf(d: Delivery): Bucket {
    Bucket(d.charge.account, d.charge.device, d.charge.exit, HourStart(d.at))
  }

  /** The ledger the deliveries leave behind. */
  function LedgerOf(log: seq<Delivery>): Ledger {
    if log == [] then map[] else
      var d := log[|log| - 1];
      Added(LedgerOf(log[..|log| - 1]), BucketOf(d), 0, d.n)
  }

  function Volume(log: seq<Delivery>): nat {
    if log == [] then 0 else Volume(log[..|log| - 1]) + log[|log| - 1].n
  }

  function LogTotal(log: seq<Delivery>, q: Query, from: int): nat {
    if log == [] then 0 else
      var d := log[|log| - 1];
      LogTotal(log[..|log| - 1], q, from) + if Selects(q, from, BucketOf(d)) then d.n else 0
  }

  /** Every ledger sum is the sum over the matching deliveries: all in the tx column, none in rx. */
  lemma {:induction false} LedgerTotals(log: seq<Delivery>, q: Query, from: int)
    ensures Total(LedgerOf(log), Tx, q, from) == LogTotal(log, q, from)
    ensures Total(LedgerOf(log), Rx, q, from) == 0
  {
    if log != [] {
      var init, d := log[..|log| - 1], log[|log| - 1];
      LedgerTotals(init, q, from);
      AddedTotal(LedgerOf(init), BucketOf(d), 0, d.n, Tx, q, from);
      AddedTotal(LedgerOf(init), BucketOf(d), 0, d.n, Rx, q, from);
    }
  }

  lemma {:induction false} LedgerVolume(log: seq<Delivery>)
    ensures Grand(LedgerOf(log), Tx) == Volume(log) && Grand(LedgerOf(log), Rx) == 0
  {
    if log != [] {
      var init, d := log[..|log| - 1], log[|log| - 1];
      LedgerVolume(init);
      AddedGrand(LedgerOf(init), BucketOf(d), 0, d.n, Tx);
      AddedGrand(LedgerOf(init), BucketOf(d), 0, d.n, Rx);
    }
  }

  predicate CleanCharge(c: Charge) {
    BarFree(c.account) && BarFree(c.device) && BarFree(c.exit)
  }

  predicate CleanLog(log: seq<Delivery>) {
    forall d <- log :: CleanCharge(d.charge) && d.at <= MAX_INT64
  }

  lemma {:induction false} LedgerIsClean(log: seq<Delivery>)
    requires CleanLog(log)
    ensures CleanLedger(LedgerOf(log)) && forall b <- LedgerOf(log) :: LedgerOf(log)[b].rx == 0
  {
    if log != [] {
      LedgerIsClean(log[..|log| - 1]);
      assert log[|log| - 1] in log;
    }
  }

  /** A ledger made of deliveries survives saving and opening unchanged. */
  lemma LedgerSurvives(log: seq<Delivery>, file: File, l: Ledger)
    requires CleanLog(log) && Saves(LedgerOf(log), file) && Opens(file, l)
    ensures l == LedgerOf(log)
  {
    LedgerIsClean(log);
    ReopenIsIdentity(LedgerOf(log), file, l);
  }

  // ---- the counters ----

  function LaneQuery(lane: Lane): Query {
    match lane
    case Pool(account) => OfAccount(account)
    case Exit(device) => LaneOf(device)
  }

  /** The bytes of a day on a lane that the lane's counter knows of, or does not know of. */
  function Known(log: seq<Delivery>, lane: Lane, day: nat, counted: bool): nat {
    if log == [] then 0 else
      var d := log[|log| - 1];
      Known(log[..|log| - 1], lane, day, counted)
      + if On(d.charge, lane) && DayOf(d.at) == day && Knows(d, lane) == counted then d.n else 0
  }

  /** A quota query from midnight on adds up exactly the day's deliveries on the lane. */
  lemma {:induction false} DayOnLane(log: seq<Delivery>, lane: Lane, now: nat)
    requires forall d <- log :: DayOf(d.at) <= DayOf(now)
    ensures LogTotal(log, LaneQuery(lane), HourStart(Midnight(now)))
            == Known(log, lane, DayOf(now), true) + Known(log, lane, DayOf(now), false)
  {
    if log != [] {
      var init, d := log[..|log| - 1], log[|log| - 1];
      assert d in log;
      DayOnLane(init, lane, now);
      HourBucketsFollowDays(d.at, now);
    }
  }

  lemma {:induction false} NothingThatDay(log: seq<Delivery>, lane: Lane, day: nat, counted: bool)
    requires forall d <- log :: DayOf(d.at) < day
    ensures Known(log, lane, day, counted) == 0
  {
    if log != [] {
      assert log[|log| - 1] in log;
      NothingThatDay(log[..|log| - 1], lane, day, counted);
    }
  }

  /** The counter has missed nothing exactly when it knows of every packet of the day. */
  lemma {:induction false} NothingMissed(log: seq<Delivery>, lane: Lane, day: nat)
    ensures Known(log, lane, day, false) == 0 <==>
              forall d <- log :: On(d.charge, lane) && DayOf(d.at) == day && d.n > 0 ==> Knows(d, lane)
  {
    if log != [] {
      var init, last := log[..|log| - 1], log[|log| - 1];
      NothingMissed(init, lane, day);
      assert last in log && forall d <- init :: d in log;
      assert forall d <- log :: d in init || d == last;
    }
  }

  /** After a refill each counter knows of all of its packets, or, if no lease names its key, of none. */
  function Refilled(log: seq<Delivery>, leases: set<L.Lease>): seq<Delivery> {
    seq(|log|, i requires 0 <= i < |log| =>
      log[i].(inPool := Refills(leases, Pool(log[i].charge.account)),
              inLane := Refills(leases, Exit(log[i].charge.device))))
  }

  lemma {:induction false} RefilledSame(log: seq<Delivery>, leases: set<L.Lease>, q: Query, from: int)
    ensures LedgerOf(Refilled(log, leases)) == LedgerOf(log)
    ensures LogTotal(Refilled(log, leases), q, from) == LogTotal(log, q, from)
    ensures Volume(Refilled(log, leases)) == Volume(log)
  {
    if log != [] {
      assert Refilled(log, leases)[..|log| - 1] == Refilled(log[..|log| - 1], leases);
      RefilledSame(log[..|log| - 1], leases, q, from);
    }
  }

  /** Where a refilled packet comes from. */
  lemma RefilledFrom(log: seq<Delivery>, leases: set<L.Lease>, d: Delivery)
    requires d in Refilled(log, leases)
    ensures exists e :: && e in log && d.charge == e.charge && d.at == e.at && d.n == e.n
                        && d.src == e.src && d.dst == e.dst
                        && d.srcExit == e.srcExit && d.dstExit == e.dstExit && d.proxied == e.proxied
    ensures d.inPool == Refills(leases, Pool(d.charge.account)) && d.inLane == Refills(leases, Exit(d.charge.device))
  {
    var i :| 0 <= i < |log| && Refilled(log, leases)[i] == d;
    assert log[i] in log;
  }

  /** What a lane's counter knows of after a refill. */
  lemma {:induction false} RefilledKnown(log: seq<Delivery>, leases: set<L.Lease>, lane: Lane, day: nat)
    ensures Known(Refilled(log, leases), lane, day, Refills(leases, lane))
            == Known(log, lane, day, true) + Known(log, lane, day, false)
    ensures Known(Refilled(log, leases), lane, day, !Refills(leases, lane)) == 0
  {
    if log != [] {
      assert Refilled(log, leases)[..|log| - 1] == Refilled(log[..|log| - 1], leases);
      RefilledKnown(log[..|log| - 1], leases, lane, day);
    }
  }
}
