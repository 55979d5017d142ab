/** Relay takes the quota lock twice, once to admit a packet and once to count it, and writes the packet
    in between. How far can concurrent connections overshoot a limit? (internal/server/hub.go: `Relay`;
    internal/server/quota.go: `admit`, `inc`) */
module QuotaRace {
  import opened MapSum
  import opened Clock
  import opened Quotas

  function LimitOn(limits: Limits, c: Charge, lane: Lane): int {
    if lane.Pool? then limits.For(c.account).bytesPerDay else limits.For(c.account).egressBytesPerDay
  }

  datatype Packet = Packet(charge: Charge, n: nat)

  /** `flight` holds, per connection, the packet it has been admitted for and not yet counted. */
  datatype State = State(q: Quota, flight: map<nat, Packet>)

  /** The lock-scope steps of the connections, in any order. A step reads its own clock and the limits
      in force at that moment. */
  datatype Event =
    | AdmitStep(conn: nat, packet: Packet, limits: Limits, now: nat)
    | WriteFails(conn: nat)
    | IncStep(conn: nat, limits: Limits, now: nat)

  /** A connection handles one packet at a time. */
  predicate Enabled(s: State, e: Event) {
    if e.AdmitStep? then e.conn !in s.flight else e.conn in s.flight
  }

  function Step(s: State, e: Event): State
    requires Enabled(s, e)
  {
    match e
    case AdmitStep(conn, p, limits, now) =>
      State(Rolled(s.q, now),
            if Admit(s.q, limits, p.charge, p.n, now).Admitted? then s.flight[conn := p] else s.flight)
    case WriteFails(conn) => State(s.q, s.flight - {conn})
    case IncStep(conn, limits, now) =>
      var p := s.flight[conn];
      State(Inc(s.q, limits, p.charge, p.n, now), s.flight - {conn})
  }

  /** The bytes in flight on a lane, per connection. */
  function Pending(flight: map<nat, Packet>, lane: Lane): map<nat, int> {
    map c | c in flight && On(flight[c].charge, lane) :: flight[c].n
  }

  ghost function InFlight(flight: map<nat, Packet>, lane: Lane): int {
    Sum(Pending(flight, lane))
  }

  /** What the run is assumed to respect on `lane`: packets of at most `top` bytes, a positive limit of
      at most `limit` at every admission, at most `k` connections in flight. */
  predicate Respects(s: State, e: Event, lane: Lane, limit: int, top: nat, k: nat)
    requires Enabled(s, e)
  {
    && (e.AdmitStep? && On(e.packet.charge, lane) ==>
          e.packet.n <= top && 0 < LimitOn(e.limits, e.packet.charge, lane) <= limit)
    && |Pending(Step(s, e).flight, lane)| <= k
  }

  predicate Legal(s: State, es: seq<Event>, lane: Lane, limit: int, top: nat, k: nat) {
    es != [] ==>
      var n := |es| - 1;
      && Legal(s, es[..n], lane, limit, top, k)
      && Enabled(Run(s, es[..n]), es[n])
      && Respects(Run(s, es[..n]), es[n], lane, limit, top, k)
  }

  /** The state after a run; a step that is not enabled does nothing. */
  function Run(s: State, es: seq<Event>): State {
    if es == [] then s else
      var s' := Run(s, es[..|es| - 1]);
      var e := es[|es| - 1];
      if Enabled(s', e) then Step(s', e) else s'
  }

  /** Counted and in-flight bytes together stay within `room`. */
  ghost predicate Bounded(s: State, lane: Lane, top: nat, room: int) {
    && 0 <= Counter(s.q, lane)
    && (forall c <- s.flight :: On(s.flight[c].charge, lane) ==> s.flight[c].n <= top)
    && Counter(s.q, lane) + InFlight(s.flight, lane) <= room
  }

  lemma RemoveFlight(flight: map<nat, Packet>, conn: nat, lane: Lane)
    requires conn in flight
    ensures InFlight(flight, lane)
            == InFlight(flight - {conn}, lane) + if On(flight[conn].charge, lane) then flight[conn].n else 0
  {
    var m := Pending(flight, lane);
    assert Pending(flight - {conn}, lane) == m - {conn};
    if conn in m {
      SumRemove(m, conn);
    } else {
      assert m - {conn} == m;
    }
  }

  /** At most `j` packets of at most `top` bytes. */
  lemma FlightBounds(flight: map<nat, Packet>, lane: Lane, top: nat, j: nat)
    requires forall c <- flight :: On(flight[c].charge, lane) ==> flight[c].n <= top
    requires |Pending(flight, lane)| <= j
    ensures 0 <= InFlight(flight, lane) <= j * top
  {
    SumBounds(Pending(flight, lane), top);
    Scale(|Pending(flight, lane)|, j, top);
  }

  lemma Scale(a: nat, b: nat, top: nat)
    requires a <= b
    ensures a * top <= b * top
  {
  }

  lemma RolledCounter(q: Quota, lane: Lane, now: nat)
    requires 0 <= Counter(q, lane)
    ensures 0 <= Counter(Rolled(q, now), lane) <= Counter(q, lane)
  {
  }

  lemma IncCounter(q: Quota, lane: Lane, limits: Limits, p: Packet, now: nat)
    requires 0 <= Counter(q, lane)
    ensures 0 <= Counter(Inc(q, limits, p.charge, p.n, now), lane)
              <= Counter(q, lane) + if On(p.charge, lane) then p.n else 0
  {
    RolledCounter(q, lane, now);
  }

  lemma AddFlight(flight: map<nat, Packet>, conn: nat, p: Packet, lane: Lane)
    requires conn !in flight
    ensures InFlight(flight[conn := p], lane) == InFlight(flight, lane) + if On(p.charge, lane) then p.n else 0
    ensures |Pending(flight[conn := p], lane)| == |Pending(flight, lane)| + if On(p.charge, lane) then 1 else 0
  {
    RemoveFlight(flight[conn := p], conn, lane);
    assert flight[conn := p] - {conn} == flight;
    if On(p.charge, lane) {
      assert Pending(flight[conn := p], lane) == Pending(flight, lane)[conn := p.n];
    } else {
      assert Pending(flight[conn := p], lane) == Pending(flight, lane);
    }
  }

  /** An admitted packet fits the limit together with what is counted. */
  lemma AdmittedFits(q: Quota, limits: Limits, p: Packet, now: nat, lane: Lane)
    requires On(p.charge, lane) && LimitOn(limits, p.charge, lane) > 0
    requires Admit(q, limits, p.charge, p.n, now).Admitted?
    ensures Counter(Rolled(q, now), lane) + p.n <= LimitOn(limits, p.charge, lane)
  {
  }

  lemma AdmitKeepsBound(s: State, conn: nat, p: Packet, limits: Limits, now: nat,
                        lane: Lane, limit: int, top: nat, room: int)
    requires Bounded(s, lane, top, room) && conn !in s.flight
    requires On(p.charge, lane) ==>
               p.n <= top && 0 < LimitOn(limits, p.charge, lane) <= limit && InFlight(s.flight, lane) <= room - limit
    requires Admit(s.q, limits, p.charge, p.n, now).Admitted?
    ensures Bounded(State(Rolled(s.q, now), s.flight[conn := p]), lane, top, room)
  {
    RolledCounter(s.q, lane, now);
    AddFlight(s.flight, conn, p, lane);
    if On(p.charge, lane) {
      AdmittedFits(s.q, limits, p, now, lane);
    }
  }

  lemma StepKeepsBound(s: State, e: Event, lane: Lane, limit: int, top: nat, k: nat, room: int)
    requires k >= 1 && room == limit + (k - 1) * top
    requires Bounded(s, lane, top, room) && Enabled(s, e) && Respects(s, e, lane, limit, top, k)
    ensures Bounded(Step(s, e), lane, top, room)
  {
    match e
    case AdmitStep(conn, p, limits, now) =>
      if Admit(s.q, limits, p.charge, p.n, now).Admitted? {
        AddFlight(s.flight, conn, p, lane);
        if On(p.charge, lane) {
          FlightBounds(s.flight, lane, top, k - 1);
        }
        AdmitKeepsBound(s, conn, p, limits, now, lane, limit, top, room);
      } else {
        RolledCounter(s.q, lane, now);
      }
    case WriteFails(conn) => RemoveFlight(s.flight, conn, lane);
    case IncStep(conn, limits, now) =>
      RemoveFlight(s.flight, conn, lane);
      IncCounter(s.q, lane, limits, s.flight[conn], now);
  }

  /** In any interleaving of at most `k` connections with packets of at most `top` bytes, with limits
      changing, writes failing and days turning over at any point: what is counted plus what is in
      flight never exceeds the largest limit by more than (k-1)*top. */
  lemma {:induction false} OvershootBound(s: State, es: seq<Event>, lane: Lane, limit: int, top: nat, k: nat)
    requires k >= 1 && s.flight == map[] && 0 <= Counter(s.q, lane) <= limit
    requires Legal(s, es, lane, limit, top, k)
    ensures Bounded(Run(s, es), lane, top, limit + (k - 1) * top)
  {
    if es == [] {
      assert Pending(s.flight, lane) == map[];
      Scale(0, k - 1, top);
    } else {
      var n := |es| - 1;
      OvershootBound(s, es[..n], lane, limit, top, k);
      StepKeepsBound(Run(s, es[..n]), es[n], lane, limit, top, k, limit + (k - 1) * top);
    }
  }

  /** One connection at a time never exceeds the limit. */
  lemma SingleConnectionNeverExceeds(s: State, es: seq<Event>, lane: Lane, limit: int, top: nat)
    requires s.flight == map[] && 0 <= Counter(s.q, lane) <= limit
    requires Legal(s, es, lane, limit, top, 1)
    ensures Counter(Run(s, es).q, lane) <= limit
  {
    OvershootBound(s, es, lane, limit, top, 1);
    var flight := Run(s, es).flight;
    FlightBounds(flight, lane, top, |Pending(flight, lane)|);
  }

  // ---- the bound is exact ----

  /** `k` connections are admitted one after the other before any of them counts its packet. */
  function Admissions(k: nat, p: Packet, limits: Limits, now: nat): (es: seq<Event>)
    ensures |es| == k
  {
    if k == 0 then [] else Admissions(k - 1, p, limits, now) + [AdmitStep(k - 1, p, limits, now)]
  }

  function Crowd(k: nat, p: Packet): (m: map<nat, Packet>)
    ensures forall c: nat :: c in m <==> c < k
  {
    if k == 0 then map[] else Crowd(k - 1, p)[k - 1 := p]
  }

  lemma {:induction false} CrowdSize(k: nat, p: Packet, lane: Lane)
    requires On(p.charge, lane)
    ensures |Pending(Crowd(k, p), lane)| == k && InFlight(Crowd(k, p), lane) == k * p.n
  {
    if k > 0 {
      CrowdSize(k - 1, p, lane);
      AddFlight(Crowd(k - 1, p), k - 1, p, lane);
      OneTimeMore(k - 1, p.n);
    }
  }

  lemma {:induction false} MoreRoom(s: State, es: seq<Event>, lane: Lane, limit: int, top: nat, k: nat, k': nat)
    requires Legal(s, es, lane, limit, top, k) && k <= k'
    ensures Legal(s, es, lane, limit, top, k')
  {
    if es != [] {
      MoreRoom(s, es[..|es| - 1], lane, limit, top, k, k');
    }
  }

  lemma {:induction false} AdmissionsRun(q: Quota, k: nat, p: Packet, limits: Limits, now: nat)
    requires Admit(q, limits, p.charge, p.n, now).Admitted? && DayOf(now) == q.day
    ensures Run(State(q, map[]), Admissions(k, p, limits, now)) == State(q, Crowd(k, p))
  {
    if k > 0 {
      AdmissionsRun(q, k - 1, p, limits, now);
      assert Admissions(k, p, limits, now)[..k - 1] == Admissions(k - 1, p, limits, now);
    }
  }

  lemma LegalOneMore(s: State, es: seq<Event>, e: Event, lane: Lane, limit: int, top: nat, k: nat)
    requires Legal(s, es, lane, limit, top, k)
    requires Enabled(Run(s, es), e) && Respects(Run(s, es), e, lane, limit, top, k)
    ensures Legal(s, es + [e], lane, limit, top, k)
  {
    assert (es + [e])[..|es|] == es;
  }

  lemma {:induction false} AdmissionsLegal(q: Quota, k: nat, p: Packet, limits: Limits, now: nat, lane: Lane)
    requires Admit(q, limits, p.charge, p.n, now).Admitted? && DayOf(now) == q.day
    requires On(p.charge, lane) && LimitOn(limits, p.charge, lane) > 0
    ensures Legal(State(q, map[]), Admissions(k, p, limits, now), lane, LimitOn(limits, p.charge, lane), p.n, k)
  {
    if k > 0 {
      var s, limit := State(q, map[]), LimitOn(limits, p.charge, lane);
      AdmissionsLegal(q, k - 1, p, limits, now, lane);
      var init, e := Admissions(k - 1, p, limits, now), AdmitStep(k - 1, p, limits, now);
      MoreRoom(s, init, lane, limit, p.n, k - 1, k);
      AdmissionsRun(q, k - 1, p, limits, now);
      OneMoreFits(q, k, p, limits, now, lane);
      LegalOneMore(s, init, e, lane, limit, p.n, k);
    }
  }

  lemma OneMoreFits(q: Quota, k: nat, p: Packet, limits: Limits, now: nat, lane: Lane)
    requires k > 0 && Admit(q, limits, p.charge, p.n, now).Admitted?
    requires On(p.charge, lane) && LimitOn(limits, p.charge, lane) > 0
    ensures var s, e := State(q, Crowd(k - 1, p)), AdmitStep(k - 1, p, limits, now);
            Enabled(s, e) && Respects(s, e, lane, LimitOn(limits, p.charge, lane), p.n, k)
  {
    CrowdSize(k, p, lane);
    assert Crowd(k, p) == Crowd(k - 1, p)[k - 1 := p];
  }

  /** The `k` connections count their packets, the last admitted first. */
  function Countings(k: nat, limits: Limits, now: nat): (es: seq<Event>)
    ensures |es| == k
  {
    if k == 0 then [] else [IncStep(k - 1, limits, now)] + Countings(k - 1, limits, now)
  }

  /** What `k` counted packets make of the counters. */
  function CountedTimes(q: Quota, k: nat, p: Packet, limits: Limits, now: nat): Quota
    decreases k
  {
    if k == 0 then q else CountedTimes(Inc(q, limits, p.charge, p.n, now), k - 1, p, limits, now)
  }

  lemma CrowdWithout(k: nat, p: Packet)
    requires k > 0
    ensures k - 1 in Crowd(k, p) && Crowd(k, p)[k - 1] == p && Crowd(k, p) - {k - 1} == Crowd(k - 1, p)
  {
  }

  /** Runs compose. */
  lemma {:induction false} RunFrom(s: State, es: seq<Event>, fs: seq<Event>)
    ensures Run(s, es + fs) == Run(Run(s, es), fs)
  {
    if fs == [] {
      assert es + fs == es;
    } else {
      var n := |fs| - 1;
      RunFrom(s, es, fs[..n]);
      assert (es + fs)[..|es + fs| - 1] == es + fs[..n];
    }
  }

  lemma RunOne(s: State, e: Event)
    requires Enabled(s, e)
    ensures Run(s, [e]) == Step(s, e)
  {
    assert [e][..0] == [];
  }

  lemma {:induction false} CountingsRun(q: Quota, k: nat, p: Packet, limits: Limits, now: nat)
    ensures Run(State(q, Crowd(k, p)), Countings(k, limits, now)) == State(CountedTimes(q, k, p, limits, now), map[])
    decreases k
  {
    if k > 0 {
      var s, e := State(q, Crowd(k, p)), IncStep(k - 1, limits, now);
      CrowdWithout(k, p);
      RunOne(s, e);
      RunFrom(s, [e], Countings(k - 1, limits, now));
      CountingsRun(Inc(q, limits, p.charge, p.n, now), k - 1, p, limits, now);
    }
  }

  lemma LastApart<T>(es: seq<T>, fs: seq<T>)
    requires fs != []
    ensures es + fs == es + fs[..|fs| - 1] + [fs[|fs| - 1]]
  {
  }

  lemma {:induction false} LegalFrom(s: State, es: seq<Event>, fs: seq<Event>, lane: Lane, limit: int, top: nat, k: nat)
    requires Legal(s, es, lane, limit, top, k) && Legal(Run(s, es), fs, lane, limit, top, k)
    ensures Legal(s, es + fs, lane, limit, top, k)
  {
    if fs == [] {
      assert es + fs == es;
    } else {
      var init, e := fs[..|fs| - 1], fs[|fs| - 1];
      LegalFrom(s, es, init, lane, limit, top, k);
      RunFrom(s, es, init);
      LegalOneMore(s, es + init, e, lane, limit, top, k);
      LastApart(es, fs);
    }
  }

  lemma LegalOne(s: State, e: Event, lane: Lane, limit: int, top: nat, k: nat)
    requires Enabled(s, e) && Respects(s, e, lane, limit, top, k)
    ensures Legal(s, [e], lane, limit, top, k)
  {
    assert [e][..0] == [];
  }

  lemma {:induction false} CountingsLegal(q: Quota, j: nat, p: Packet, limits: Limits, now: nat,
                                          lane: Lane, limit: int, k: nat)
    requires j <= k && On(p.charge, lane)
    ensures Legal(State(q, Crowd(j, p)), Countings(j, limits, now), lane, limit, p.n, k)
    decreases j
  {
    if j > 0 {
      var s, e := State(q, Crowd(j, p)), IncStep(j - 1, limits, now);
      CrowdWithout(j, p);
      CrowdSize(j - 1, p, lane);
      LegalOne(s, e, lane, limit, p.n, k);
      RunOne(s, e);
      CountingsLegal(Inc(q, limits, p.charge, p.n, now), j - 1, p, limits, now, lane, limit, k);
      LegalFrom(s, [e], Countings(j - 1, limits, now), lane, limit, p.n, k);
    }
  }

  lemma {:induction false} CountedCounter(q: Quota, k: nat, p: Packet, limits: Limits, now: nat, lane: Lane)
    requires DayOf(now) == q.day && On(p.charge, lane) && limits.For(p.charge.account).Limited()
    ensures Counter(CountedTimes(q, k, p, limits, now), lane) == Counter(q, lane) + k * p.n
    decreases k
  {
    if k > 0 {
      CountedCounter(Inc(q, limits, p.charge, p.n, now), k - 1, p, limits, now, lane);
      OneTimeMore(k - 1, p.n);
    }
  }

  /** From a counter one packet below the limit of either lane, `k` connections of `top` bytes each reach
      the bound in flight, if the other lane has room for one packet; and once all have counted the counter
      itself stands at it. */
  lemma BoundIsReached(q: Quota, k: nat, charge: Charge, top: nat, limits: Limits, now: nat, lane: Lane)
    requires k >= 1 && On(charge, lane) && DayOf(now) == q.day
    requires LimitOn(limits, charge, lane) > 0 && Counter(q, lane) == LimitOn(limits, charge, lane) - top >= 0
    requires Room(Counter(q, Pool(charge.account)), top, limits.For(charge.account).bytesPerDay) || lane.Pool?
    requires Room(Counter(q, Exit(charge.device)), top, limits.For(charge.account).egressBytesPerDay)
             || charge.exit == "" || lane.Exit?
    ensures var limit := LimitOn(limits, charge, lane);
            var es := Admissions(k, Packet(charge, top), limits, now);
            var s := Run(State(q, map[]), es);
            var s' := Run(State(q, map[]), es + Countings(k, limits, now));
            && Legal(State(q, map[]), es + Countings(k, limits, now), lane, limit, top, k)
            && Counter(s.q, lane) + InFlight(s.flight, lane) == limit + (k - 1) * top
            && s'.flight == map[] && Counter(s'.q, lane) == limit + (k - 1) * top
  {
    var p := Packet(charge, top);
    AdmittedExactly(q, limits, charge, top, now);
    AdmissionsLegal(q, k, p, limits, now, lane);
    AdmissionsRun(q, k, p, limits, now);
    CrowdSize(k, p, lane);
    OneTimeMore(k - 1, top);
    RunFrom(State(q, map[]), Admissions(k, p, limits, now), Countings(k, limits, now));
    CountingsRun(q, k, p, limits, now);
    CountedCounter(q, k, p, limits, now, lane);
    CountingsLegal(q, k, p, limits, now, lane, LimitOn(limits, charge, lane), k);
    LegalFrom(State(q, map[]), Admissions(k, p, limits, now), Countings(k, limits, now), lane,
              LimitOn(limits, charge, lane), top, k);
  }
}
