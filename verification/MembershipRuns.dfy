/** Whole runs of the join/leave protocol: what each client sees, what a reconnect leaves in its table, and a
    node whose Welcome is never written. */
module MembershipRuns {
  import opened Registry
  import opened Peers
  import opened Membership

  // ---- runs ----

  ghost predicate Fair<R>(s: State<R>, e: Event<R>) {
    Possible(s, e) && (e.Put? && Attentive(s, e.to) ==> PutSafe(s, e.node, e.to))
  }

  ghost function Run<R>(s: State<R>, es: seq<Event<R>>): State<R> {
    if es == [] then s else
      var s' := Run(s, es[..|es| - 1]);
      if Fair(s', es[|es| - 1]) then Step(s', es[|es| - 1]) else s'
  }

  function Start<R>(): State<R> { State(Tables(map[], map[]), map[]) }

  lemma {:induction false} RunKeeps<R>(es: seq<Event<R>>)
    ensures Inv(Run(Start<R>(), es))
  {
    if es == [] {
      EmptyAgree<R>();
    } else {
      RunKeeps(es[..|es| - 1]);
      var s, e := Run(Start<R>(), es[..|es| - 1]), es[|es| - 1];
      if Fair(s, e) {
        if e.Put? {
          PutKeepsExactly(s, e.node, e.to);
        } else {
          OthersKeep(s, e);
        }
      }
    }
  }

  /** No news about any address of the network are due to the viewer. */
  ghost predicate Quiet<R>(s: State<R>, r: R, network: string) {
    forall a: nat :: !NewsDue(s, r, network, a)
  }

  /** After any run in which no attentive reader is misled: a client that got its Welcome first has, once its
      messages have arrived and no news are due to it, exactly the others online in its network, and besides
      them the entries it brought along that nobody has told it about. */
  lemma ViewsAreExact<R>(es: seq<Event<R>>, k: NetKey)
    ensures var s := Run(Start<R>(), es);
            && Known(s)
            && (k in s.tables.ipTable ==>
                  var c := s.conns[s.tables.ipTable[k].ref];
                  !c.lost && Quiet(s, s.tables.ipTable[k].ref, k.network) ==>
                    Seen(c) == OnlineNames(s.tables, k.network, k.ip) + c.stale)
  {
    RunKeeps(es);
    var s := Run(Start<R>(), es);
    if k in s.tables.ipTable {
      assert Right(s, k);
      var r := s.tables.ipTable[k].ref;
      if !s.conns[r].lost && Quiet(s, r, k.network) {
        QuietIsExact(s, k);
      }
    }
  }

  lemma QuietIsExact<R>(s: State<R>, k: NetKey)
    requires Known(s) && k in s.tables.ipTable && Quiet(s, s.tables.ipTable[k].ref, k.network)
    requires forall a: nat :: RightAt(s, k, a)
    ensures var c := s.conns[s.tables.ipTable[k].ref];
            Seen(c) == OnlineNames(s.tables, k.network, k.ip) + c.stale
  {
    var c := s.conns[s.tables.ipTable[k].ref];
    var seen, online := Seen(c), OnlineNames(s.tables, k.network, k.ip) + c.stale;
    forall a: nat
      ensures a in seen <==> a in online
      ensures a in seen ==> seen[a] == online[a]
    {
      assert RightAt(s, k, a) && !NewsDue(s, s.tables.ipTable[k].ref, k.network, a);
    }
  }

  // ---- a reconnect ----

  lemma RunOneMore<R>(s: State<R>, es: seq<Event<R>>, e: Event<R>)
    requires Fair(Run(s, es), e)
    ensures Run(s, es + [e]) == Step(Run(s, es), e)
  {
    assert (es + [e])[..|es|] == es;
  }

  lemma Lookup<R>(t: Tables<R>, network: string, a: nat)
    requires Agree(t)
    ensures a in Nodes(t, network) <==> NetKey(network, a) in t.ipTable
    ensures a in Nodes(t, network) ==> Nodes(t, network)[a] == t.ipTable[NetKey(network, a)]
  {
  }

  /** One node online, joined by another of its network. */
  lemma TwoOnline<R>(t: Tables<R>, egress: map<R, bool>, b: Entry<R>, a: Entry<R>)
    requires Agree(t) && t.ipTable == map[KeyOf(b.info) := b, KeyOf(a.info) := a]
    requires b.info.network == a.info.network && b.info.ip != a.info.ip
    ensures b.info.ip in OthersOnline(t, egress, a.info.network, a.info.ip)
    ensures Recipients(t, a.info.network, a.info.ip) == {b.ref}
  {
    Lookup(t, a.info.network, b.info.ip);
    forall ip: nat
      ensures ip in Nodes(t, a.info.network) <==> ip == b.info.ip || ip == a.info.ip
    {
      Lookup(t, a.info.network, ip);
    }
  }

  /** A node alone tells nobody and sees nobody. */
  lemma OneOnline<R>(t: Tables<R>, a: Entry<R>)
    requires Agree(t) && t.ipTable == map[KeyOf(a.info) := a]
    ensures Recipients(t, a.info.network, a.info.ip) == {}
    ensures OnlineNames(t, a.info.network, a.info.ip) == map[]
  {
    forall ip: nat
      ensures ip in Nodes(t, a.info.network) ==> ip == a.info.ip
    {
      Lookup(t, a.info.network, ip);
    }
  }

  /** Connection `r` is through with its announcement. */
  predicate Announced<R(==)>(s: State<R>, r: R, info: NodeInfo) {
    && r in s.conns && s.conns[r].info == info
    && s.conns[r].phase.Telling? && s.conns[r].phase.m.PeerJoin? && s.conns[r].phase.targets == {}
  }

  /** One device online and announced. */
  ghost predicate Alone(s: State<nat>, b: NodeInfo) {
    && Agree(s.tables) && s.tables.ipTable == map[KeyOf(b) := Entry(0, b)]
    && s.conns.Keys == {0} && Announced(s, 0, b)
  }

  /** A second one with it, its announcement as far as `phase`; its client lists the first. */
  ghost predicate Joined(s: State<nat>, b: NodeInfo, a: NodeInfo) {
    && Agree(s.tables) && s.tables.ipTable == map[KeyOf(b) := Entry(0, b), KeyOf(a) := Entry(1, a)]
    && s.conns.Keys == {0, 1} && Announced(s, 0, b)
    && s.conns[1].info == a && b.ip in s.conns[1].view && s.conns[1].queue == []
  }

  lemma FirstJoins(b: NodeInfo)
    ensures Alone(Run(Start<nat>(), [Register(0, b, false, map[]), Greet(0), Announce(0)]), b)
  {
    var s0: State<nat> := Start();
    var e1, e2, e3: Event<nat> := Register(0, b, false, map[]), Greet(0), Announce(0);
    EmptyAgree<nat>();
    RegisteredAgrees(s0.tables, Entry(0, b));
    RunOneMore(s0, [], e1);
    RunOneMore(s0, [] + [e1], e2);
    RunOneMore(s0, [] + [e1] + [e2], e3);
    assert [] + [e1] + [e2] + [e3] == [e1, e2, e3];
    OneOnline(Run(s0, [] + [e1] + [e2]).tables, Entry(0, b));
  }

  lemma SecondRegisters(s: State<nat>, b: NodeInfo, a: NodeInfo)
    requires Alone(s, b) && b.network == a.network && b.ip != a.ip
    ensures var s' := Step(s, Register(1, a, false, map[]));
            Joined(s', b, a) && s'.conns[1].phase == Fresh && Recipients(s'.tables, a.network, a.ip) == {0}
  {
    var t := Registered(s.tables, Entry(1, a));
    RegisteredAgrees(s.tables, Entry(1, a));
    TwoOnline(t, Grants(s)[1 := false], Entry(0, b), Entry(1, a));
    JoinedSecond(s, b, a, t, OthersOnline(t, Grants(s)[1 := false], a.network, a.ip), Recipients(t, a.network, a.ip));
  }

  lemma JoinedSecond(s: State<nat>, b: NodeInfo, a: NodeInfo, t: Tables<nat>, welcome: View, others: set<nat>)
    requires Alone(s, b) && Agree(t) && t.ipTable == map[KeyOf(b) := Entry(0, b), KeyOf(a) := Entry(1, a)]
    requires b.ip in welcome
    ensures var c := Newcomer(a, false, map[], welcome, others);
            Joined(State(t, s.conns[1 := c]), b, a) && c.phase == Fresh
  {
  }

  lemma SecondAnnounces(s: State<nat>, b: NodeInfo, a: NodeInfo)
    requires Joined(s, b, a) && s.conns[1].phase == Fresh && Recipients(s.tables, a.network, a.ip) == {0}
    ensures Possible(s, Greet(1)) && Possible(Step(s, Greet(1)), Announce(1))
    ensures var s' := Step(Step(s, Greet(1)), Announce(1));
            Joined(s', b, a) && s'.conns[1].phase == Telling(JoinOf(s'.conns[1]), {0})
  {
  }

  lemma SecondIsTold(s: State<nat>, b: NodeInfo, a: NodeInfo)
    requires Joined(s, b, a) && s.conns[1].phase == Telling(JoinOf(s.conns[1]), {0})
    ensures Fair(s, Put(1, 0))
    ensures Joined(Step(s, Put(1, 0)), b, a) && Announced(Step(s, Put(1, 0)), 1, a)
  {
    Lookup(s.tables, a.network, a.ip);
  }

  lemma BothGo(s: State<nat>, b: NodeInfo, a: NodeInfo)
    requires Joined(s, b, a) && Announced(s, 1, a) && b.ip != a.ip
    ensures Possible(s, Unlist(1)) && Possible(Step(s, Unlist(1)), Unlist(0))
    ensures var s' := Step(Step(s, Unlist(1)), Unlist(0));
            && Agree(s'.tables) && s'.tables.ipTable == map[] && s'.conns.Keys == {0, 1}
            && s'.conns[1].view == s.conns[1].view && s'.conns[1].queue == [] && s'.conns[1].info == a
  {
    var s1 := Step(s, Unlist(1));
    RemovedAgrees(s.tables, Entry(1, a));
    RemovedAgrees(s1.tables, Entry(0, b));
    assert s1.tables.ipTable == map[KeyOf(b) := Entry(0, b)];
  }

  lemma BackAgain(s: State<nat>, b: nat, a: NodeInfo, had: View)
    requires Agree(s.tables) && s.tables.ipTable == map[] && 2 !in s.conns && b in had
    ensures var s' := Step(s, Register(2, a, false, had));
            b in Seen(s'.conns[2]) && OnlineNames(s'.tables, a.network, a.ip) == map[]
  {
    var t := Registered(s.tables, Entry(2, a));
    RegisteredAgrees(s.tables, Entry(2, a));
    OneOnline(t, Entry(2, a));
    NewcomerSees(a, false, had, OthersOnline(t, Grants(s)[2 := false], a.network, a.ip),
                 Recipients(t, a.network, a.ip));
  }

  lemma RunTwoMore<R>(s: State<R>, es: seq<Event<R>>, e1: Event<R>, e2: Event<R>)
    requires Fair(Run(s, es), e1) && Fair(Step(Run(s, es), e1), e2)
    ensures Run(s, es + [e1, e2]) == Step(Step(Run(s, es), e1), e2)
  {
    TwoAtTheEnd(es, e1, e2);
    RunOneMore(s, es, e1);
    RunOneMore(s, es + [e1], e2);
  }

  lemma TwoAtTheEnd<T>(es: seq<T>, a: T, b: T)
    ensures (es + [a]) + [b] == es + [a, b]
  {
  }

  lemma SecondIsOnline(b: NodeInfo, a: NodeInfo) returns (es: seq<Event<nat>>)
    requires b.network == a.network && b.ip != a.ip
    ensures Joined(Run(Start(), es), b, a) && Announced(Run(Start(), es), 1, a)
  {
    var s0: State<nat> := Start();
    es := [Register(0, b, false, map[]), Greet(0), Announce(0)];
    FirstJoins(b);
    SecondRegisters(Run(s0, es), b, a);
    RunOneMore(s0, es, Register(1, a, false, map[]));
    es := es + [Register(1, a, false, map[])];
    SecondAnnounces(Run(s0, es), b, a);
    RunTwoMore(s0, es, Greet(1), Announce(1));
    es := es + [Greet(1), Announce(1)];
    SecondIsTold(Run(s0, es), b, a);
    RunOneMore(s0, es, Put(1, 0));
    es := es + [Put(1, 0)];
  }

  lemma BothAreGone(b: NodeInfo, a: NodeInfo) returns (es: seq<Event<nat>>)
    requires b.network == a.network && b.ip != a.ip
    ensures var s := Run(Start(), es);
            && Agree(s.tables) && s.tables.ipTable == map[] && s.conns.Keys == {0, 1}
            && s.conns[1].info == a && s.conns[1].queue == [] && b.ip in s.conns[1].view
  {
    var s0: State<nat> := Start();
    es := SecondIsOnline(b, a);
    BothGo(Run(s0, es), b, a);
    RunTwoMore(s0, es, Unlist(1), Unlist(0));
    es := es + [Unlist(1), Unlist(0)];
  }

  lemma ComesBack(s: State<nat>, es: seq<Event<nat>>, b: nat, a: NodeInfo, had: View)
    requires Agree(Run(s, es).tables) && Run(s, es).tables.ipTable == map[]
    requires 2 !in Run(s, es).conns && b in had
    ensures var s' := Run(s, es + [Register(2, a, false, had)]);
            2 in s'.conns && b in Seen(s'.conns[2]) && OnlineNames(s'.tables, a.network, a.ip) == map[]
  {
    BackAgain(Run(s, es), b, a, had);
    RunOneMore(s, es, Register(2, a, false, had));
  }

  /** A client keeps its table when it connects again. In this run a client comes back after another device
      has left: no message is late and none misleads, nobody else is online, and its table still lists the
      other device. */
  lemma ReconnectKeepsGone(b: NodeInfo, a: NodeInfo) returns (es: seq<Event<nat>>)
    requires b.network == a.network && b.ip != a.ip
    ensures var s := Run(Start(), es);
            && 1 in s.conns && s.conns[1].info == a && s.conns[1].queue == []
            && var s' := Run(Start(), es + [Register(2, a, false, s.conns[1].view)]);
            && 2 in s'.conns && b.ip in Seen(s'.conns[2]) && OnlineNames(s'.tables, a.network, a.ip) == map[]
  {
    es := BothAreGone(b, a);
    ComesBack(Start(), es, b.ip, a, Run(Start(), es).conns[1].view);
  }

  // ---- a Welcome that cannot be written ----

  /** A node online that waits for its Welcome. */
  predicate Waits<R(==)>(s: State<R>, node: R, info: NodeInfo) {
    node in s.conns && Current(s, node) && s.conns[node].phase.Fresh? && s.conns[node].info == info
  }

  lemma StillWaits<R>(s: State<R>, e: Event<R>, node: R, info: NodeInfo)
    requires Tidy(s) && Possible(s, e) && Waits(s, node, info)
    requires e != Greet(node) && (e.Register? ==> KeyOf(e.info) != KeyOf(info))
    ensures Waits(Step(s, e), node, info)
  {
    match e
    case Register(ref, x, egress, had) => RegistersSplit(s, ref, x, egress, had);
    case Unlist(x) => UnlistsSplit(s, x);
    case Greet(_) =>
    case Announce(_) =>
    case Put(_, _) =>
    case Leave(_) =>
    case Grant(_, _) =>
    case Deliver(_) =>
  }

  lemma WaitsOneMore<R>(es: seq<Event<R>>, e: Event<R>, node: R, info: NodeInfo)
    requires Waits(Run(Start<R>(), es), node, info)
    requires e != Greet(node) && (e.Register? ==> KeyOf(e.info) != KeyOf(info))
    ensures Waits(Run(Start<R>(), es + [e]), node, info)
  {
    assert (es + [e])[..|es|] == es;
    RunKeeps(es);
    if Fair(Run(Start<R>(), es), e) {
      StillWaits(Run(Start<R>(), es), e, node, info);
    }
  }

  /** The server gives up on a connection whose Welcome it cannot write, without taking its node out. Until
      that device registers again, or another at its address, the node stays online whatever happens. */
  lemma {:induction false} UngreetedStays<R>(before: seq<Event<R>>, after: seq<Event<R>>, node: R, info: NodeInfo)
    requires Waits(Run(Start<R>(), before), node, info)
    requires forall e <- after :: e != Greet(node) && (e.Register? ==> KeyOf(e.info) != KeyOf(info))
    ensures Waits(Run(Start<R>(), before + after), node, info)
    decreases |after|
  {
    if after == [] {
      assert before + after == before;
    } else {
      var init, e := after[..|after| - 1], after[|after| - 1];
      assert e in after && forall d <- init :: d in after;
      UngreetedStays(before, init, node, info);
      WaitsOneMore(before + init, e, node, info);
      assert before + after == before + init + [e];
    }
  }
}
