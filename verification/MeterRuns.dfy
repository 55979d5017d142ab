/** Metering over whole runs of the server: conservation of bytes, agreement of the quota counters with the
    ledger, and restarts that quota decisions do not notice
    (internal/server/hub.go: `Relay`; internal/server/quota.go; internal/account/usage.go). */
module MeterRuns {
  import opened Bytes
  import opened MapSum
  import opened Clock
  import opened Usage
  import opened LedgerText
  import opened LedgerFile
  import L = Leases
  import opened Quotas
  import opened Registry
  import opened DeliveryLog
  import opened Server
  import opened HubRuns

  // ---- ledger and history ----

  ghost predicate LogInv<R>(s: State<R>) {
    && s.ledger == LedgerOf(s.log) && s.saved == LedgerOf(s.savedLog)
    && CleanLog(s.log) && CleanLog(s.savedLog)
    && (forall d <- s.log :: d.at <= s.now) && (forall d <- s.savedLog :: d.at <= s.now)
    && s.start <= |s.log|
  }

  lemma AttributeIsClean(src: NodeState, dst: NodeState, proxied: bool)
    requires BarFree(src.info.account) && BarFree(src.info.device)
    requires BarFree(dst.info.account) && BarFree(dst.info.device)
    ensures CleanCharge(Attribute(src, dst, proxied))
  {
  }

  lemma AppendLog(log: seq<Delivery>, d: Delivery)
    ensures LedgerOf(log + [d]) == Added(LedgerOf(log), BucketOf(d), 0, d.n)
    ensures Volume(log + [d]) == Volume(log) + d.n
    ensures forall lane: Lane, day: nat, counted: bool ::
              Known(log + [d], lane, day, counted)
              == Known(log, lane, day, counted)
                 + if On(d.charge, lane) && DayOf(d.at) == day && Knows(d, lane) == counted then d.n else 0
  {
    assert (log + [d])[..|log|] == log;
  }

  lemma RelayedCharge<R>(s: State<R>, src: R, packet: seq<byte>, limits: Limits, t: Times, writeOk: bool)
    requires HubInv(s) && src in s.nodes && Outcome(s, src, packet, limits, t, writeOk).Delivered?
    ensures CleanCharge(Outcome(s, src, packet, limits, t, writeOk).charge)
  {
    var r := Outcome(s, src, packet, limits, t, writeOk);
    assert Owns(s.store, s.nodes[src].info) && Owns(s.store, s.nodes[r.dst].info);
    AttributeIsClean(s.nodes[src], s.nodes[r.dst], Proxied(packet));
  }

  lemma BookKeepsLog<R>(s: State<R>, s': State<R>, d: Delivery)
    requires LogInv(s) && CleanCharge(d.charge) && s.now <= d.at <= MAX_INT64
    requires s'.log == s.log + [d] && s'.ledger == Added(s.ledger, BucketOf(d), 0, d.n)
    requires s'.saved == s.saved && s'.savedLog == s.savedLog && s'.start == s.start && s'.now == d.at
    ensures LogInv(s')
  {
    AppendLog(s.log, d);
  }

  lemma RelayKeepsLog<R>(s: State<R>, src: R, packet: seq<byte>, limits: Limits, t: Times, writeOk: bool)
    requires TablesKnown(s) && LogInv(s) && Possible(s, Relay(src, packet, limits, t, writeOk))
    requires var r := Outcome(s, src, packet, limits, t, writeOk); r.Delivered? ==> CleanCharge(r.charge)
    ensures LogInv(Relayed(s, src, packet, limits, t, writeOk))
  {
    var r := Outcome(s, src, packet, limits, t, writeOk);
    if r.Delivered? {
      BookKeepsLog(s, Relayed(s, src, packet, limits, t, writeOk),
                   DeliveryOf(s, src, r.dst, r.charge, packet, limits, t));
    }
  }

  lemma RestartKeepsLog<R>(s: State<R>, file: File, reopened: Ledger, first: nat, now: nat)
    requires LogInv(s) && Possible(s, Restart(file, reopened, first, now))
    ensures LogInv(Restarted(s, reopened, first, now))
    ensures reopened == s.saved
  {
    LedgerSurvives(s.savedLog, file, reopened);
    ReplayKeepsLog(s, first, now);
  }

  /** A process that starts from the saved ledger. */
  lemma ReplayKeepsLog<R>(s: State<R>, first: nat, now: nat)
    requires LogInv(s) && s.now <= now
    ensures LogInv(Restarted(s, s.saved, first, now))
  {
    var leases := L.AllLeases(L.Reopened(s.store).nets);
    RefilledSame(s.savedLog, leases, OfAccount(""), 0);
    RefilledClean(s.savedLog, leases, now);
  }

  lemma RefilledClean(log: seq<Delivery>, leases: set<L.Lease>, now: nat)
    requires CleanLog(log) && forall d <- log :: d.at <= now
    ensures CleanLog(Refilled(log, leases)) && forall d <- Refilled(log, leases) :: d.at <= now
  {
    forall d | d in Refilled(log, leases)
      ensures CleanCharge(d.charge) && d.at <= MAX_INT64 && d.at <= now
    {
      RefilledFrom(log, leases, d);
    }
  }

  lemma StepKeepsLog<R>(s: State<R>, e: Event<R>)
    requires HubInv(s) && LogInv(s) && Possible(s, e)
    ensures LogInv(Step(s, e))
  {
    if e.Relay? {
      if Outcome(s, e.src, e.packet, e.limits, e.t, e.writeOk).Delivered? {
        RelayedCharge(s, e.src, e.packet, e.limits, e.t, e.writeOk);
      }
      RelayKeepsLog(s, e.src, e.packet, e.limits, e.t, e.writeOk);
    } else if e.Restart? {
      RestartKeepsLog(s, e.file, e.reopened, e.first, e.at);
    } else {
      OthersKeepLog(s, e);
    }
  }

  /** Joining, leaving, granting and saving forward nothing. */
  lemma OthersKeepLog<R>(s: State<R>, e: Event<R>)
    requires TablesKnown(s) && LogInv(s) && Possible(s, e) && !e.Relay? && !e.Restart?
    ensures LogInv(Step(s, e))
  {
  }

  lemma {:induction false} RunKeepsLog<R>(net: L.Net, now: nat, es: seq<Event<R>>)
    requires net.Valid() && net.prefix >= 1
    ensures LogInv(Run(Initial<R>(net, now), es))
  {
    if es != [] {
      var init, e := es[..|es| - 1], es[|es| - 1];
      RunKeepsLog(net, now, init);
      RunKeepsHub(net, now, init);
      if Possible(Run(Initial<R>(net, now), init), e) {
        StepKeepsLog(Run(Initial<R>(net, now), init), e);
      }
    }
  }

  // ---- conservation ----

  /** All devices, or one. */
  predicate Everyone(device: string) { true }

  function Only(device: string): string -> bool { d => d == device }

  function Received<R>(nodes: map<R, NodeState>, who: string -> bool): map<R, int> {
    map r | r in nodes && who(nodes[r].info.device) :: nodes[r].rx
  }

  function Sent<R>(nodes: map<R, NodeState>, who: string -> bool): map<R, int> {
    map r | r in nodes && who(nodes[r].info.device) :: nodes[r].tx
  }

  /** The bytes forwarded from the chosen devices, and to them. */
  function VolumeFrom(log: seq<Delivery>, who: string -> bool): nat {
    if log == [] then 0 else
      var d := log[|log| - 1];
      VolumeFrom(log[..|log| - 1], who) + if who(d.src) then d.n else 0
  }

  function VolumeTo(log: seq<Delivery>, who: string -> bool): nat {
    if log == [] then 0 else
      var d := log[|log| - 1];
      VolumeTo(log[..|log| - 1], who) + if who(d.dst) then d.n else 0
  }

  lemma {:induction false} EveryonesVolume(log: seq<Delivery>)
    ensures VolumeFrom(log, Everyone) == VolumeTo(log, Everyone) == Volume(log)
  {
    if log != [] {
      EveryonesVolume(log[..|log| - 1]);
    }
  }

  /** The node meters of this process add up to the bytes it forwarded, from the devices and to them. */
  ghost predicate MetersInv<R>(s: State<R>, who: string -> bool) {
    && s.start <= |s.log|
    && Sum(Received(s.nodes, who)) == VolumeFrom(s.log[s.start..], who)
    && Sum(Sent(s.nodes, who)) == VolumeTo(s.log[s.start..], who)
  }

  lemma ReceivedSum<R>(nodes: map<R, NodeState>, nodes': map<R, NodeState>, src: R, n: nat, who: string -> bool)
    requires src in nodes && nodes'.Keys == nodes.Keys && forall x <- nodes :: nodes'[x].info == nodes[x].info
    requires forall x <- nodes :: nodes'[x].rx == nodes[x].rx + if x == src then n else 0
    ensures Sum(Received(nodes', who)) == Sum(Received(nodes, who)) + if who(nodes[src].info.device) then n else 0
  {
    if who(nodes[src].info.device) {
      assert Received(nodes', who) == Received(nodes, who)[src := nodes[src].rx + n];
      SumUpdate(Received(nodes, who), src, nodes[src].rx + n);
    } else {
      assert Received(nodes', who) == Received(nodes, who);
    }
  }

  lemma SentSum<R>(nodes: map<R, NodeState>, nodes': map<R, NodeState>, dst: R, n: nat, who: string -> bool)
    requires dst in nodes && nodes'.Keys == nodes.Keys && forall x <- nodes :: nodes'[x].info == nodes[x].info
    requires forall x <- nodes :: nodes'[x].tx == nodes[x].tx + if x == dst then n else 0
    ensures Sum(Sent(nodes', who)) == Sum(Sent(nodes, who)) + if who(nodes[dst].info.device) then n else 0
  {
    if who(nodes[dst].info.device) {
      assert Sent(nodes', who) == Sent(nodes, who)[dst := nodes[dst].tx + n];
      SumUpdate(Sent(nodes, who), dst, nodes[dst].tx + n);
    } else {
      assert Sent(nodes', who) == Sent(nodes, who);
    }
  }

  lemma MeteredSums<R>(nodes: map<R, NodeState>, src: R, dst: R, n: nat, who: string -> bool)
    requires src in nodes && dst in nodes
    ensures Sum(Received(Metered(nodes, src, dst, n), who))
            == Sum(Received(nodes, who)) + if who(nodes[src].info.device) then n else 0
    ensures Sum(Sent(Metered(nodes, src, dst, n), who))
            == Sum(Sent(nodes, who)) + if who(nodes[dst].info.device) then n else 0
  {
    ReceivedSum(nodes, Metered(nodes, src, dst, n), src, n, who);
    SentSum(nodes, Metered(nodes, src, dst, n), dst, n, who);
  }

  lemma NewNodeSums<R>(nodes: map<R, NodeState>, ref: R, n: NodeState, who: string -> bool)
    requires ref !in nodes && n.rx == 0 && n.tx == 0
    ensures Sum(Received(nodes[ref := n], who)) == Sum(Received(nodes, who))
    ensures Sum(Sent(nodes[ref := n], who)) == Sum(Sent(nodes, who))
  {
    if who(n.info.device) {
      assert Received(nodes[ref := n], who) == Received(nodes, who)[ref := 0];
      assert Sent(nodes[ref := n], who) == Sent(nodes, who)[ref := 0];
      SumUpdate(Received(nodes, who), ref, 0);
      SumUpdate(Sent(nodes, who), ref, 0);
    } else {
      assert Received(nodes[ref := n], who) == Received(nodes, who);
      assert Sent(nodes[ref := n], who) == Sent(nodes, who);
    }
  }

  lemma VolumeSince(log: seq<Delivery>, d: Delivery, start: nat, who: string -> bool)
    requires start <= |log|
    ensures VolumeFrom((log + [d])[start..], who) == VolumeFrom(log[start..], who) + if who(d.src) then d.n else 0
    ensures VolumeTo((log + [d])[start..], who) == VolumeTo(log[start..], who) + if who(d.dst) then d.n else 0
  {
    assert (log + [d])[start..] == log[start..] + [d];
    assert (log[start..] + [d])[..|log[start..]|] == log[start..];
  }

  lemma DeliveryKeepsMeters<R>(s: State<R>, s': State<R>, d: Delivery, who: string -> bool)
    requires MetersInv(s, who) && s'.start == s.start && s'.log == s.log + [d]
    requires Sum(Received(s'.nodes, who)) == Sum(Received(s.nodes, who)) + if who(d.src) then d.n else 0
    requires Sum(Sent(s'.nodes, who)) == Sum(Sent(s.nodes, who)) + if who(d.dst) then d.n else 0
    ensures MetersInv(s', who)
  {
    VolumeSince(s.log, d, s.start, who);
  }

  lemma RelayKeepsMeters<R>(s: State<R>, src: R, packet: seq<byte>, limits: Limits, t: Times, writeOk: bool,
                            who: string -> bool)
    requires TablesKnown(s) && MetersInv(s, who) && src in s.nodes
    ensures MetersInv(Relayed(s, src, packet, limits, t, writeOk), who)
  {
    var r := Outcome(s, src, packet, limits, t, writeOk);
    if r.Delivered? {
      MeteredSums(s.nodes, src, r.dst, |packet|, who);
      DeliveryKeepsMeters(s, Relayed(s, src, packet, limits, t, writeOk),
                          DeliveryOf(s, src, r.dst, r.charge, packet, limits, t), who);
    }
  }

  lemma StepKeepsMeters<R>(s: State<R>, e: Event<R>, who: string -> bool)
    requires TablesKnown(s) && MetersInv(s, who) && Possible(s, e)
    ensures MetersInv(Step(s, e), who)
  {
    match e
    case Join(ref, h, saveOk) =>
      var answer := L.Answer(s.store, NetworkOf(h), h.device, saveOk);
      if answer.Leased? {
        NewNodeSums(s.nodes, ref, NodeState(InfoFor(h, answer.ip), h.Egress(), h.acl, 0, 0), who);
      }
    case Leave(_) =>
    case SetEgress(key, _, enabled, acl) => GrantKeepsMeters(s, key, enabled, acl, who);
    case Relay(src, packet, limits, t, writeOk) => RelayKeepsMeters(s, src, packet, limits, t, writeOk, who);
    case SaveUsage =>
    case Restart(_, reopened, first, at) => FreshMeters(s, reopened, first, at, who);
  }

  lemma GrantKeepsMeters<R>(s: State<R>, key: NetKey, enabled: bool, acl: set<string>, who: string -> bool)
    requires TablesKnown(s) && MetersInv(s, who) && key in s.tables.ipTable
    ensures MetersInv(EgressSet(s, key, enabled, acl), who)
  {
    var s' := EgressSet(s, key, enabled, acl);
    assert Received(s'.nodes, who) == Received(s.nodes, who) && Sent(s'.nodes, who) == Sent(s.nodes, who);
  }

  lemma FreshMeters<R>(s: State<R>, reopened: Ledger, first: nat, now: nat, who: string -> bool)
    ensures MetersInv(Restarted(s, reopened, first, now), who)
  {
    var s' := Restarted(s, reopened, first, now);
    assert s'.log[s'.start..] == [];
    assert Received(s'.nodes, who) == map[] && Sent(s'.nodes, who) == map[];
  }

  lemma {:induction false} RunKeepsMeters<R>(net: L.Net, now: nat, es: seq<Event<R>>, who: string -> bool)
    requires net.Valid() && net.prefix >= 1
    ensures MetersInv(Run(Initial<R>(net, now), es), who)
  {
    if es == [] {
      assert Received<R>(map[], who) == map[] && Sent<R>(map[], who) == map[];
    } else {
      var init, e := es[..|es| - 1], es[|es| - 1];
      RunKeepsMeters(net, now, init, who);
      RunKeepsHub(net, now, init);
      if Possible(Run(Initial<R>(net, now), init), e) {
        StepKeepsMeters(Run(Initial<R>(net, now), init), e, who);
      }
    }
  }

  /** After any run: the ledger's tx column adds up to the payload bytes of all forwarded packets it has
      not lost in a restart, its rx column to nothing; the node meters add up, in both directions, to
      those forwarded since the start of the process; and those of one device's nodes to what was forwarded
      from it and to it. */
  lemma BytesAreConserved<R>(net: L.Net, now: nat, es: seq<Event<R>>, device: string)
    requires net.Valid() && net.prefix >= 1
    ensures var s := Run(Initial<R>(net, now), es);
            && Grand(s.ledger, Tx) == Volume(s.log) && Grand(s.ledger, Rx) == 0
            && s.start <= |s.log|
            && Sum(Received(s.nodes, Everyone)) == Sum(Sent(s.nodes, Everyone)) == Volume(s.log[s.start..])
            && Sum(Received(s.nodes, Only(device))) == VolumeFrom(s.log[s.start..], Only(device))
            && Sum(Sent(s.nodes, Only(device))) == VolumeTo(s.log[s.start..], Only(device))
  {
    var s := Run(Initial<R>(net, now), es);
    RunKeepsLog(net, now, es);
    RunKeepsMeters(net, now, es, Everyone);
    RunKeepsMeters(net, now, es, Only(device));
    LedgerVolume(s.log);
    EveryonesVolume(s.log[s.start..]);
  }
}
