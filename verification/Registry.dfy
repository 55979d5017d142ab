/** The hub's two indexes of online nodes (internal/server/hub.go: `Register`, `removeLocked`).
    `R` is whatever tells node objects apart: references in the hub object, numbers in traces. */
module Registry {

  datatype NodeInfo = NodeInfo(device: string, account: string, network: string, ip: nat, hostname: string, os: string)

  datatype Entry<R> = Entry(ref: R, info: NodeInfo)

  datatype NetKey = NetKey(network: string, ip: nat)

  datatype Tables<R> = Tables(ipTable: map<NetKey, Entry<R>>, networks: map<string, map<nat, Entry<R>>>)

  function KeyOf(info: NodeInfo): NetKey { NetKey(info.network, info.ip) }

  function Nodes<R>(t: Tables<R>, network: string): map<nat, Entry<R>> {
    if network in t.networks then t.networks[network] else map[]
  }

  /** Taking a node out of both indexes, where they still name it. */
  function Removed<R(==)>(t: Tables<R>, e: Entry<R>): Tables<R> {
    var key, nodes := KeyOf(e.info), Nodes(t, e.info.network);
    Tables(if key in t.ipTable && t.ipTable[key].ref == e.ref then t.ipTable - {key} else t.ipTable,
           if e.info.ip in nodes && nodes[e.info.ip].ref == e.ref
           then t.networks[e.info.network := nodes - {e.info.ip}] else t.networks)
  }

  /** Entering a node; an older node of the same device is taken out first. */
  function Registered<R(==)>(t: Tables<R>, e: Entry<R>): Tables<R> {
    var key := KeyOf(e.info);
    var t1 := if key in t.ipTable && t.ipTable[key].info.device == e.info.device
              then Removed(t, t.ipTable[key]) else t;
    Tables(t1.ipTable[key := e], t1.networks[e.info.network := Nodes(t1, e.info.network)[e.info.ip := e]])
  }

  /** Both indexes hold the same entries, each under the key its node names. */
  ghost predicate Agree<R>(t: Tables<R>) {
    && (forall k <- t.ipTable :: KeyOf(t.ipTable[k].info) == k)
    && (forall network: string, ip: nat {:trigger ip in Nodes(t, network)} ::
          ip in Nodes(t, network) <==> NetKey(network, ip) in t.ipTable)
    && (forall network: string, ip: nat {:trigger Nodes(t, network)[ip]} :: ip in Nodes(t, network) ==>
          Nodes(t, network)[ip] == t.ipTable[NetKey(network, ip)])
  }

  lemma EmptyAgree<R>()
    ensures Agree<R>(Tables(map[], map[]))
  {
  }

  lemma NodesOf<R>(t: Tables<R>, network: string, nodes: map<nat, Entry<R>>, n: string)
    ensures Nodes(Tables(t.ipTable, t.networks[network := nodes]), n)
            == if n == network then nodes else Nodes(t, n)
  {
  }

  /** Leaving: the node's entry goes from both indexes, or, if another node has taken its place,
      neither changes. */
  lemma RemovedAgrees<R>(t: Tables<R>, e: Entry<R>)
    requires Agree(t)
    ensures Agree(Removed(t, e))
    ensures var key := KeyOf(e.info);
            Removed(t, e).ipTable
            == if key in t.ipTable && t.ipTable[key].ref == e.ref then t.ipTable - {key} else t.ipTable
    ensures !(KeyOf(e.info) in t.ipTable && t.ipTable[KeyOf(e.info)].ref == e.ref) ==> Removed(t, e) == t
  {
    var key, nodes := KeyOf(e.info), Nodes(t, e.info.network);
    assert e.info.ip in nodes <==> key in t.ipTable;
    if key in t.ipTable && t.ipTable[key].ref == e.ref {
      var t' := Removed(t, e);
      forall network: string, ip: nat
        ensures ip in Nodes(t', network) <==> NetKey(network, ip) in t'.ipTable
        ensures ip in Nodes(t', network) ==> Nodes(t', network)[ip] == t'.ipTable[NetKey(network, ip)]
      {
        NodesOf(t, e.info.network, nodes - {e.info.ip}, network);
        assert ip in Nodes(t, network) <==> NetKey(network, ip) in t.ipTable;
      }
    }
  }

  lemma PutAgrees<R>(t: Tables<R>, e: Entry<R>)
    requires Agree(t)
    ensures Agree(Tables(t.ipTable[KeyOf(e.info) := e],
                         t.networks[e.info.network := Nodes(t, e.info.network)[e.info.ip := e]]))
  {
    var nodes := Nodes(t, e.info.network)[e.info.ip := e];
    var t' := Tables(t.ipTable[KeyOf(e.info) := e], t.networks[e.info.network := nodes]);
    forall network: string, ip: nat
      ensures ip in Nodes(t', network) <==> NetKey(network, ip) in t'.ipTable
      ensures ip in Nodes(t', network) ==> Nodes(t', network)[ip] == t'.ipTable[NetKey(network, ip)]
    {
      NodesOf(t, e.info.network, nodes, network);
      assert ip in Nodes(t, network) <==> NetKey(network, ip) in t.ipTable;
    }
  }

  /** Joining: the key's entry becomes the new node's in both indexes, whether or not it replaces one. */
  lemma RegisteredAgrees<R>(t: Tables<R>, e: Entry<R>)
    requires Agree(t)
    ensures Agree(Registered(t, e))
    ensures Registered(t, e).ipTable == t.ipTable[KeyOf(e.info) := e]
  {
    var key := KeyOf(e.info);
    if key in t.ipTable && t.ipTable[key].info.device == e.info.device {
      RemovedAgrees(t, t.ipTable[key]);
      PutAgrees(Removed(t, t.ipTable[key]), e);
      assert (t.ipTable - {key})[key := e] == t.ipTable[key := e];
    } else {
      PutAgrees(t, e);
    }
  }
}
