/** Who is an exit, over whole runs: asking is not enough, and a device that is never allowed is never billed
    as one (internal/server/hub.go: `Register`, `UpdateEgress`, `Relay`). */
module ExitGrants {
  import opened Bytes
  import opened Usage
  import L = Leases
  import opened Quotas
  import opened Registry
  import opened DeliveryLog
  import opened Server
  import opened HubRuns
  import opened Relays
  import opened MeterRuns
  import opened Attribution

  // ---- the last word on a node ----

  /** The event decides whether node `r` is an exit: its join, or a change of grant that finds it. */
  predicate Decides<R(==)>(s: State<R>, e: Event<R>, r: R) {
    match e
    case Join(ref, _, _) => ref == r
    case SetEgress(key, _, _, _) => key in s.tables.ipTable && s.tables.ipTable[key].ref == r
    case _ => false
  }

  /** What it decides: at the join that the device asked and its record allows it, later what was granted. */
  predicate Allows<R>(e: Event<R>) {
    match e
    case Join(_, h, _) => h.asks && h.enabled
    case SetEgress(_, _, enabled, _) => enabled
    case _ => false
  }

  /** The last event of the run that happened and decided about the node allowed it. */
  ghost predicate LastAllowed<R>(s0: State<R>, es: seq<Event<R>>, r: R) {
    es != [] &&
      var init, e := es[..|es| - 1], es[|es| - 1];
      var s := Run(s0, init);
      if TablesKnown(s) && Possible(s, e) && Decides(s, e, r) then Allows(e) else LastAllowed(s0, init, r)
  }

  /** What one event makes of a node that is there after it. */
  lemma DecidedNode<R>(s: State<R>, e: Event<R>, r: R)
    requires HubInv(s) && Possible(s, e) && r in Step(s, e).nodes
    ensures Decides(s, e, r) ==> (Step(s, e).nodes[r].egress <==> Allows(e))
    ensures !Decides(s, e, r) ==> r in s.nodes && Step(s, e).nodes[r].egress == s.nodes[r].egress
  {
    match e
    case Join(ref, h, saveOk) => JoinEnters(s, ref, h, saveOk);
    case Leave(_) =>
    case SetEgress(key, _, enabled, acl) => GrantSets(s, key, enabled, acl);
    case Relay(src, packet, limits, t, writeOk) => RelayedShape(s, src, packet, limits, t, writeOk);
    case SaveUsage =>
    case Restart(_, _, _, _) =>
  }

  /** After any run a node is an exit if and only if the last event that decided about it allowed it: at its
      join, that its device asked to be one and its record allows it; later, what was granted to it. */
  lemma {:induction false} ExitExactly<R>(net: L.Net, now: nat, es: seq<Event<R>>, r: R)
    requires net.Valid() && net.prefix >= 1 && r in Run(Initial<R>(net, now), es).nodes
    ensures Run(Initial<R>(net, now), es).nodes[r].egress <==> LastAllowed(Initial<R>(net, now), es, r)
  {
    if es != [] {
      var init, e := es[..|es| - 1], es[|es| - 1];
      var s := Run(Initial<R>(net, now), init);
      RunKeepsHub(net, now, init);
      if Possible(s, e) {
        DecidedNode(s, e, r);
      }
      if r in s.nodes {
        ExitExactly(net, now, init, r);
      }
    }
  }

  // ---- devices that are never allowed ----

  /** No join of the device finds it both asking and allowed, and no grant is given to it. */
  ghost predicate NeverAllowed<R>(es: seq<Event<R>>, device: string) {
    forall e <- es ::
      && (e.Join? && e.hello.device == device ==> !(e.hello.asks && e.hello.enabled))
      && (e.SetEgress? && e.device == device ==> !e.enabled)
  }

  /** No node of the device is an exit, and none ever was in a delivery. */
  ghost predicate NoExit<R>(s: State<R>, device: string) {
    && (forall r <- s.nodes :: s.nodes[r].info.device == device ==> !s.nodes[r].egress)
    && NeverExit(s.log, device) && NeverExit(s.savedLog, device)
  }

  lemma OneMoreDelivery(log: seq<Delivery>, d: Delivery, device: string)
    requires NeverExit(log, device) && (d.src == device ==> !d.srcExit) && (d.dst == device ==> !d.dstExit)
    ensures NeverExit(log + [d], device)
  {
  }

  lemma RelayedHistory<R>(s: State<R>, src: R, packet: seq<byte>, limits: Limits, t: Times, writeOk: bool)
    requires TablesKnown(s) && src in s.nodes
    ensures var o, s' := Outcome(s, src, packet, limits, t, writeOk), Relayed(s, src, packet, limits, t, writeOk);
            && s'.savedLog == s.savedLog
            && (!o.Delivered? ==> s'.log == s.log)
            && (o.Delivered? ==>
                  var d := DeliveryOf(s, src, o.dst, o.charge, packet, limits, t);
                  && s'.log == s.log + [d]
                  && d.src == s.nodes[src].info.device && d.srcExit == s.nodes[src].egress
                  && d.dst == s.nodes[o.dst].info.device && d.dstExit == s.nodes[o.dst].egress)
  {
  }

  lemma RelayKeepsNoExit<R>(s: State<R>, src: R, packet: seq<byte>, limits: Limits, t: Times, writeOk: bool,
                            device: string)
    requires TablesKnown(s) && src in s.nodes && NoExit(s, device)
    ensures NoExit(Relayed(s, src, packet, limits, t, writeOk), device)
  {
    RelayedShape(s, src, packet, limits, t, writeOk);
    RelayedHistory(s, src, packet, limits, t, writeOk);
    var o := Outcome(s, src, packet, limits, t, writeOk);
    if o.Delivered? {
      OneMoreDelivery(s.log, DeliveryOf(s, src, o.dst, o.charge, packet, limits, t), device);
    }
  }

  lemma RestartKeepsNoExit<R>(s: State<R>, reopened: Ledger, first: nat, now: nat, device: string)
    requires NoExit(s, device)
    ensures NoExit(Restarted(s, reopened, first, now), device)
  {
    var leases := L.AllLeases(L.Reopened(s.store).nets);
    forall d | d in Refilled(s.savedLog, leases)
      ensures (d.src == device ==> !d.srcExit) && (d.dst == device ==> !d.dstExit)
    {
      RefilledFrom(s.savedLog, leases, d);
    }
  }

  lemma JoinKeepsNoExit<R>(s: State<R>, ref: R, h: Hello, saveOk: bool, device: string)
    requires HubInv(s) && Possible(s, Join(ref, h, saveOk)) && NoExit(s, device)
    requires h.device == device ==> !(h.asks && h.enabled)
    ensures NoExit(Joined(s, ref, h, saveOk), device)
  {
    JoinEnters(s, ref, h, saveOk);
    JoinKeepsHistory(s, ref, h, saveOk);
  }

  lemma JoinKeepsHistory<R>(s: State<R>, ref: R, h: Hello, saveOk: bool)
    ensures var s' := Joined(s, ref, h, saveOk); s'.log == s.log && s'.savedLog == s.savedLog
  {
  }

  lemma GrantKeepsNoExit<R>(s: State<R>, key: NetKey, enabled: bool, acl: set<string>, device: string)
    requires TablesKnown(s) && key in s.tables.ipTable && NoExit(s, device)
    requires s.tables.ipTable[key].info.device == device ==> !enabled
    ensures NoExit(EgressSet(s, key, enabled, acl), device)
  {
    GrantSets(s, key, enabled, acl);
  }

  lemma {:induction false} RunNoExit<R>(net: L.Net, now: nat, es: seq<Event<R>>, device: string)
    requires net.Valid() && net.prefix >= 1 && NeverAllowed(es, device)
    ensures NoExit(Run(Initial<R>(net, now), es), device)
  {
    if es != [] {
      var init, e := es[..|es| - 1], es[|es| - 1];
      assert e in es && forall x <- init :: x in es;
      RunNoExit(net, now, init, device);
      RunKeepsHub(net, now, init);
      var s := Run(Initial<R>(net, now), init);
      if Possible(s, e) {
        if e.Join? {
          JoinKeepsNoExit(s, e.ref, e.hello, e.saveOk, device);
        } else if e.SetEgress? {
          GrantKeepsNoExit(s, e.key, e.enabled, e.acl, device);
        } else if e.Relay? {
          RelayKeepsNoExit(s, e.src, e.packet, e.limits, e.t, e.writeOk, device);
        } else if e.Restart? {
          RestartKeepsNoExit(s, e.reopened, e.first, e.at, device);
        }
      }
    }
  }

  /** Over any run: a device that never joins allowed and is never granted it is never an exit, no packet is
      ever billed as going through it, and its exit total is 0, however often it asks. */
  lemma NeverAllowedNeverBilled<R>(net: L.Net, now: nat, es: seq<Event<R>>, device: string, from: int)
    requires net.Valid() && net.prefix >= 1 && device != "" && NeverAllowed(es, device)
    ensures var s := Run(Initial<R>(net, now), es);
            && (forall r <- s.nodes :: s.nodes[r].info.device == device ==> !s.nodes[r].egress)
            && (forall d <- s.log :: d.charge.exit != device)
            && Total(s.ledger, Tx, ViaExit(device), from) == 0
  {
    var s := Run(Initial<R>(net, now), es);
    RunNoExit(net, now, es, device);
    RunRightly(net, now, es);
    forall d | d in s.log
      ensures d.charge.exit != device
    {
      assert Rightly(d);
    }
    NoticesShowServedNotConsumed(net, now, es, device, from);
  }
}
