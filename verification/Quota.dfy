/** The daily quota counters: two lanes, cleared at midnight, refilled from the ledger at start
    (internal/server/quota.go). */
module Quotas {
  import opened MapSum
  import opened Clock
  import opened Usage
  import opened Leases
  import opened LeaseStores

  /** Limits of 0 or less mean "unlimited". */
  datatype QuotaSpec = QuotaSpec(bytesPerDay: int, egressBytesPerDay: int)
  {
    predicate Limited() { bytesPerDay > 0 || egressBytesPerDay > 0 }
  }

  /** The accounts' limits as the tier table resolves them, and the fallback. */
  datatype Limits = Limits(defaults: QuotaSpec, byAccount: map<string, QuotaSpec>)
  {
    function For(account: string): QuotaSpec {
      if account in byAccount then byAccount[account] else defaults
    }
  }

  lemma LimitsOf(limits: Limits, account: string)
    ensures account in limits.byAccount ==> limits.For(account) == limits.byAccount[account]
    ensures account !in limits.byAccount ==> limits.For(account) == limits.defaults
  {
  }

  /** Who pays for a packet; `exit` is the exit device it went through, "" when it did not. */
  datatype Charge = Charge(account: string, device: string, exit: string)
  {
    predicate OnLane() { exit != "" }
  }

  datatype Quota = Quota(day: nat, acctBy: map<string, int>, egressBy: map<string, int>)

  /** The two daily counters a packet can be held against. */
  datatype Lane = Pool(account: string) | Exit(device: string)

  predicate On(c: Charge, lane: Lane) {
    match lane
    case Pool(account) => c.account == account
    case Exit(device) => c.device == device && c.OnLane()
  }

  function Counter(q: Quota, lane: Lane): int {
    match lane
    case Pool(account) => Get(q.acctBy, account)
    case Exit(device) => Get(q.egressBy, device)
  }

  /** Counters of another day are void. */
  function Rolled(q: Quota, now: nat): Quota {
    if DayOf(now) != q.day then Quota(DayOf(now), map[], map[]) else q
  }

  /** A counter as a reader at time `now` sees it. */
  function Used(q: Quota, lane: Lane, now: nat): int {
    Counter(Rolled(q, now), lane)
  }

  datatype Verdict = Admitted | PoolBlocked(wanted: int, limit: int) | LaneBlocked(wanted: int, limit: int)

  function Admit(q: Quota, limits: Limits, c: Charge, n: int, now: nat): Verdict {
    var spec := limits.For(c.account);
    var pool, lane := Used(q, Pool(c.account), now) + n, Used(q, Exit(c.device), now) + n;
    if spec.bytesPerDay > 0 && pool > spec.bytesPerDay then PoolBlocked(pool, spec.bytesPerDay)
    else if c.OnLane() && spec.egressBytesPerDay > 0 && lane > spec.egressBytesPerDay then
      LaneBlocked(lane, spec.egressBytesPerDay)
    else Admitted
  }

  /** `n` more bytes stay within a limit, where 0 or less is none. */
  predicate Room(used: int, n: int, limit: int) { limit <= 0 || used + n <= limit }

  /** The packet has room in the payer's pool and, when it went through an exit, on the device's lane. */
  predicate HasRoom(q: Quota, limits: Limits, c: Charge, n: int, now: nat) {
    && Room(Used(q, Pool(c.account), now), n, limits.For(c.account).bytesPerDay)
    && (c.exit != "" ==> Room(Used(q, Exit(c.device), now), n, limits.For(c.account).egressBytesPerDay))
  }

  /** A packet is admitted if and only if it has room. The pool is looked at first; a refusal tells the total
      the lane would come to, and its limit. */
  lemma AdmittedExactly(q: Quota, limits: Limits, c: Charge, n: int, now: nat)
    ensures var pool, lane := Used(q, Pool(c.account), now), Used(q, Exit(c.device), now);
            var spec, v := limits.For(c.account), Admit(q, limits, c, n, now);
            && (v.Admitted? <==> HasRoom(q, limits, c, n, now))
            && (v == PoolBlocked(pool + n, spec.bytesPerDay) <==> !Room(pool, n, spec.bytesPerDay))
            && (v == LaneBlocked(lane + n, spec.egressBytesPerDay)
                <==> Room(pool, n, spec.bytesPerDay) && c.exit != "" && !Room(lane, n, spec.egressBytesPerDay))
  {
  }

  /** Counting a forwarded packet; accounts without any limit are not counted. */
  function Inc(q: Quota, limits: Limits, c: Charge, n: int, now: nat): Quota {
    var r := Rolled(q, now);
    if !limits.For(c.account).Limited() then r
    else Quota(r.day, r.acctBy[c.account := Get(r.acctBy, c.account) + n],
               if c.OnLane() then r.egressBy[c.device := Get(r.egressBy, c.device) + n] else r.egressBy)
  }

  lemma IncGrows(q: Quota, limits: Limits, c: Charge, n: nat, now: nat, lane: Lane, later: nat)
    requires q.day <= DayOf(now) && now <= later && 0 <= Used(q, lane, now)
    ensures Used(Inc(q, limits, c, n, now), lane, later) <= Used(q, lane, now) + n
  {
    DayMonotone(now, later);
  }

  lemma UsedShrinks(q: Quota, lane: Lane, now: nat, later: nat)
    requires q.day <= DayOf(now) && now <= later && 0 <= Used(q, lane, now)
    ensures 0 <= Used(Rolled(q, now), lane, later) <= Used(q, lane, now)
  {
    DayMonotone(now, later);
  }

  /** Room for both of two packets of one charge at once is room for one after the other, counted in between,
      whichever midnights pass. */
  lemma RoomForTwo(q: Quota, limits: Limits, c: Charge, n: nat, now: nat, inc: nat, next: nat)
    requires q.day <= DayOf(now) && now <= inc <= next
    requires 0 <= Used(q, Pool(c.account), now) && 0 <= Used(q, Exit(c.device), now)
    requires HasRoom(q, limits, c, n + n, now)
    ensures HasRoom(q, limits, c, n, now)
    ensures HasRoom(Inc(Rolled(q, now), limits, c, n, inc), limits, c, n, next)
  {
    DayMonotone(now, inc);
    UsedShrinks(q, Pool(c.account), now, inc);
    UsedShrinks(q, Exit(c.device), now, inc);
    IncGrows(Rolled(q, now), limits, c, n, inc, Pool(c.account), next);
    IncGrows(Rolled(q, now), limits, c, n, inc, Exit(c.device), next);
  }

  // ---- backfill ----

  function Owners(leases: set<Lease>): set<string> { set l | l in leases :: l.account }

  function Devices(leases: set<Lease>): set<string> { set l | l in leases :: l.device }

  /** A counter restarted from the ledger: both columns since midnight. */
  ghost function DayTotal(l: Ledger, q: Query, now: nat): int {
    Total(l, Rx, q, HourStart(Midnight(now))) + Total(l, Tx, q, HourStart(Midnight(now)))
  }

  /** Whether a refill from these leases visits the lane's key. */
  predicate Refills(leases: set<Lease>, lane: Lane) {
    match lane
    case Pool(account) => account in Owners(leases)
    case Exit(device) => device in Devices(leases)
  }

  /** The clock is read twice, first for the counters' day and then for the ledger's midnight. */
  ghost function Backfilled(leases: set<Lease>, l: Ledger, first: nat, now: nat): Quota {
    Quota(DayOf(first),
          map a | a in Owners(leases) :: DayTotal(l, OfAccount(a), now),
          map d | d in Devices(leases) :: DayTotal(l, LaneOf(d), now))
  }

  class QuotaTrk {
    var limits: Limits
    var day: nat
    var acctBy: map<string, int>
    var egressBy: map<string, int>

    function View(): Quota
      reads this
    {
      Quota(day, acctBy, egressBy)
    }

    /** Counters start from what the ledger has for the owners of the leases. */
    constructor (limits: Limits, usage: UsageStore, leases: LeaseStore, first: nat, now: nat)
      ensures View() == Backfilled(AllLeases(leases.nets), usage.buckets, first, now)
      ensures this.limits == limits
    {
      this.limits := limits;
      day := DayOf(first);
      acctBy, egressBy := map[], map[];
      new;
      Backfill(usage, leases, first, now);
    }

    method Backfill(usage: UsageStore, leases: LeaseStore, ghost first: nat, now: nat)
      requires day == DayOf(first) && acctBy == map[] && egressBy == map[]
      modifies this`acctBy, this`egressBy
      ensures View() == Backfilled(AllLeases(leases.nets), usage.buckets, first, now)
    {
      var list := leases.Array();
      ghost var done: set<Lease> := {};
      for i := 0 to |list|
        invariant day == DayOf(first)
        invariant forall l :: l in done <==> l in list[..i]
        invariant View() == Backfilled(done, usage.buckets, first, now)
      {
        Fill(list[i], usage, first, now, done);
        done := done + {list[i]};
        assert list[..i + 1] == list[..i] + [list[i]];
      }
      assert list[..|list|] == list;
      assert done == AllLeases(leases.nets);
    }

    method Fill(l: Lease, usage: UsageStore, ghost first: nat, now: nat, ghost done: set<Lease>)
      requires View() == Backfilled(done, usage.buckets, first, now)
      modifies this`acctBy, this`egressBy
      ensures View() == Backfilled(done + {l}, usage.buckets, first, now)
    {
      ghost var target := Backfilled(done + {l}, usage.buckets, first, now);
      OneMoreOwner(done, l, usage.buckets, first, now);
      OneMoreDevice(done, l, usage.buckets, first, now);
      FillPool(l.account, usage, now, target.acctBy);
      FillLane(l.device, usage, now, target.egressBy);
    }

    method FillPool(account: string, usage: UsageStore, now: nat, ghost target: map<string, int>)
      requires target == if account in acctBy then acctBy
                         else acctBy[account := DayTotal(usage.buckets, OfAccount(account), now)]
      modifies this`acctBy
      ensures acctBy == target
    {
      if account !in acctBy {
        var t := usage.Totals(account, Midnight(now));
        acctBy := acctBy[account := t.rx + t.tx];
      }
    }

    method FillLane(device: string, usage: UsageStore, now: nat, ghost target: map<string, int>)
      requires target == if device in egressBy then egressBy
                         else egressBy[device := DayTotal(usage.buckets, LaneOf(device), now)]
      modifies this`egressBy
      ensures egressBy == target
    {
      if device !in egressBy {
        var e := usage.EgressLaneTotals(device, Midnight(now));
        egressBy := egressBy[device := e.rx + e.tx];
      }
    }

    static lemma OneMoreOwner(done: set<Lease>, l: Lease, ledger: Ledger, first: nat, now: nat)
      ensures Backfilled(done + {l}, ledger, first, now).acctBy ==
              if l.account in Owners(done) then Backfilled(done, ledger, first, now).acctBy
              else Backfilled(done, ledger, first, now).acctBy[l.account := DayTotal(ledger, OfAccount(l.account), now)]
    {
      assert Owners(done + {l}) == Owners(done) + {l.account};
      if l.account in Owners(done) {
        assert Owners(done + {l}) == Owners(done);
      }
    }

    static lemma OneMoreDevice(done: set<Lease>, l: Lease, ledger: Ledger, first: nat, now: nat)
      ensures Backfilled(done + {l}, ledger, first, now).egressBy ==
              if l.device in Devices(done) then Backfilled(done, ledger, first, now).egressBy
              else Backfilled(done, ledger, first, now).egressBy[l.device := DayTotal(ledger, LaneOf(l.device), now)]
    {
      assert Devices(done + {l}) == Devices(done) + {l.device};
      if l.device in Devices(done) {
        assert Devices(done + {l}) == Devices(done);
      }
    }

    method Rollover(now: nat)
      modifies this`day, this`acctBy, this`egressBy
      ensures View() == Rolled(old(View()), now)
    {
      var today := DayOf(now);
      if today != day {
        day := today;
        acctBy := map[];
        egressBy := map[];
      }
    }

    method AdmitPacket(c: Charge, n: int, now: nat) returns (v: Verdict)
      modifies this`day, this`acctBy, this`egressBy
      ensures View() == Rolled(old(View()), now)
      ensures v == Admit(old(View()), limits, c, n, now)
    {
      Rollover(now);
      var spec := limits.For(c.account);
      if spec.bytesPerDay > 0 {
        var used := Get(acctBy, c.account);
        if used + n > spec.bytesPerDay {
          return PoolBlocked(used + n, spec.bytesPerDay);
        }
      }
      if c.OnLane() && spec.egressBytesPerDay > 0 {
        var used := Get(egressBy, c.device);
        if used + n > spec.egressBytesPerDay {
          return LaneBlocked(used + n, spec.egressBytesPerDay);
        }
      }
      return Admitted;
    }

    method IncPacket(c: Charge, n: int, now: nat)
      modifies this`day, this`acctBy, this`egressBy
      ensures View() == Inc(old(View()), limits, c, n, now)
    {
      Rollover(now);
      var spec := limits.For(c.account);
      if spec.bytesPerDay <= 0 && spec.egressBytesPerDay <= 0 {
        return;
      }
      acctBy := acctBy[c.account := Get(acctBy, c.account) + n];
      if c.OnLane() {
        egressBy := egressBy[c.device := Get(egressBy, c.device) + n];
      }
    }
  }
}
