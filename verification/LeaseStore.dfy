/** The lease store object: its scans, its reload loop and its file (internal/account/lease.go). */
module LeaseStores {
  import opened Bytes
  import opened Subnet
  import opened Leases

  /** The byte arithmetic of the source on four address bytes is the arithmetic on address values. */
  method NextAddress(ip: seq<byte>) returns (next: seq<byte>)
    requires |ip| == 4
    ensures |next| == 4 && Value(next) == Next(Value(ip))
  {
    PowerTable();
    next := NextIP(ip, 1);
  }

  method LastAddress(ip: seq<byte>, p: nat) returns (bc: seq<byte>)
    requires |ip| == 4 && p <= 32 && IsNetworkAddress(ip, p)
    ensures |bc| == 4 && Value(bc) == Net(Value(ip), p).Broadcast()
  {
    bc := BroadcastAddr(ip, p);
  }

  /** No device holds two addresses of the network. */
  ghost predicate OneEach(st: NetState) {
    forall a, b | a in st.leases && b in st.leases && st.leases[a].device == st.leases[b].device :: a == b
  }

  // ---- the list on file ----

  function FileOf(list: seq<Lease>): set<Lease> { set l | l in list }

  function Networks(list: seq<Lease>): set<string> { set l | l in list :: l.network }

  /** The leases of a network by address; of two entries for one address the later one wins. */
  function Listed(list: seq<Lease>, n: string): map<nat, Lease> {
    if list == [] then map[] else
      var l := list[|list| - 1];
      var leases := Listed(list[..|list| - 1], n);
      if l.network == n then leases[l.ip := l] else leases
  }

  lemma {:induction false} ListedFrom(list: seq<Lease>, n: string, ip: nat)
    ensures ip in Listed(list, n) ==>
              var l := Listed(list, n)[ip]; l in list && l.network == n && l.ip == ip
    ensures ip in Listed(list, n) <==> exists l :: l in list && l.network == n && l.ip == ip
  {
    if list != [] {
      var init, l := list[..|list| - 1], list[|list| - 1];
      ListedFrom(init, n, ip);
      assert forall a :: a in list <==> a in init || a == l;
    }
  }

  /** On a file without such doubles the order does not matter. */
  lemma ListedIsFile(list: seq<Lease>, n: string)
    requires Functional(FileOf(list))
    ensures Listed(list, n) == LeasesIn(FileOf(list), n)
  {
    var l, r := Listed(list, n), LeasesIn(FileOf(list), n);
    forall ip: nat
      ensures ip in l <==> ip in r
      ensures ip in l ==> l[ip] == r[ip]
    {
      ListedFrom(list, n, ip);
    }
  }

  lemma ListedOneMore(list: seq<Lease>, i: nat, n: string)
    requires i < |list|
    ensures Listed(list[..i + 1], n)
            == if list[i].network == n then Listed(list[..i], n)[list[i].ip := list[i]] else Listed(list[..i], n)
    ensures Networks(list[..i + 1]) == Networks(list[..i]) + {list[i].network}
  {
    assert list[..i + 1][..i] == list[..i];
    assert list[..i + 1] == list[..i] + [list[i]];
  }

  lemma {:induction false} NotListed(list: seq<Lease>, n: string)
    requires n !in Networks(list)
    ensures Listed(list, n) == map[]
  {
    if list != [] {
      assert list[|list| - 1] in list && forall l <- list[..|list| - 1] :: l in list;
      NotListed(list[..|list| - 1], n);
    }
  }

  class LeaseStore {
    const net: Net
    var nets: map<string, NetState>
    var file: set<Lease>

    ghost function View(): Store
      reads this
    {
      Store(net, nets, file)
    }

    ghost predicate Valid()
      reads this
    {
      net.Valid() && forall network <- nets :: OneEach(nets[network])
    }

    /** The reloaded leases of a list. */
    ghost predicate LoadedFrom(list: seq<Lease>)
      reads this
    {
      && nets.Keys == Networks(list)
      && forall n <- nets :: nets[n].leases == Listed(list, n)
    }

    /** Reload: group the file's leases by network, then move every cursor past the leased block. */
    constructor Open(net: Net, list: seq<Lease>)
      requires net.Valid()
      ensures this.net == net && file == FileOf(list)
      ensures nets == map n | n in Networks(list) :: Reset(net, Listed(list, n))
      ensures Functional(FileOf(list)) ==> View() == Reopened(Store(net, map[], FileOf(list)))
    {
      this.net := net;
      this.file := set l | l in list;
      nets := map[];
      new;
      Load(list);
      ghost var read := nets;
      RecomputeNext();
      if Functional(FileOf(list)) {
        AllReset(list, nets);
      }
    }

    method Load(list: seq<Lease>)
      requires nets == map[]
      modifies this`nets
      ensures LoadedFrom(list)
    {
      for i := 0 to |list|
        invariant LoadedFrom(list[..i])
      {
        InsertLease(list, i);
      }
      assert list[..|list|] == list;
    }

    lemma AllReset(list: seq<Lease>, nets: map<string, NetState>)
      requires Functional(FileOf(list))
      requires nets == map n | n in Networks(list) :: Reset(net, Listed(list, n))
      ensures nets == Loaded(net, FileOf(list))
    {
      forall n | n in nets
        ensures nets[n] == Reset(net, LeasesIn(FileOf(list), n))
      {
        ListedIsFile(list, n);
      }
      assert Networks(list) == set l | l in FileOf(list) :: l.network;
    }

    method InsertLease(list: seq<Lease>, i: nat)
      requires i < |list| && LoadedFrom(list[..i])
      modifies this`nets
      ensures LoadedFrom(list[..i + 1])
    {
      var l := list[i];
      var st := if l.network in nets then nets[l.network] else Fresh(net);
      forall n: string
        ensures Listed(list[..i + 1], n)
                == if n == l.network then Listed(list[..i], n)[l.ip := l] else Listed(list[..i], n)
        ensures Networks(list[..i + 1]) == Networks(list[..i]) + {l.network}
      {
        ListedOneMore(list, i, n);
      }
      if l.network !in nets {
        NotListed(list[..i], l.network);
      }
      nets := nets[l.network := NetState(st.next, st.leases[l.ip := l])];
    }

    method RecomputeNext()
      modifies this`nets
      ensures nets.Keys == old(nets).Keys
      ensures forall n <- nets :: nets[n] == Reset(net, old(nets)[n].leases)
    {
      var rest := nets.Keys;
      while rest != {}
        invariant rest <= nets.Keys == old(nets).Keys
        invariant forall n <- nets ::
            nets[n] == if n in rest then old(nets)[n] else Reset(net, old(nets)[n].leases)
        decreases rest
      {
        var n :| n in rest;
        var leases := nets[n].leases;
        var next := Next(net.base);
        if next in leases {
          var i := 0;
          while i < TRIES
            invariant 0 <= i <= TRIES
            invariant i < TRIES ==> next in leases
            invariant Skip(leases, next, TRIES - i) == Skip(leases, Next(net.base), TRIES)
          {
            next := Next(next);
            i := i + 1;
            if next !in leases { break; }
          }
        }
        nets := nets[n := NetState(next, leases)];
        rest := rest - {n};
      }
    }

    method Save(ok: bool)
      modifies this`file
      ensures file == if ok then AllLeases(nets) else old(file)
    {
      if ok {
        file := set network, ip | network in nets && ip in nets[network].leases :: nets[network].leases[ip];
      }
    }

    method Holder(st: NetState, device: string) returns (found: bool, ip: nat)
      requires OneEach(st)
      ensures found == Holds(st, device)
      ensures found ==> ip == HolderOf(st, device)
    {
      var rest := st.leases.Keys;
      ip := 0;
      while rest != {}
        invariant rest <= st.leases.Keys
        invariant forall a <- st.leases :: a in rest || st.leases[a].device != device
        decreases rest
      {
        var a :| a in rest;
        if st.leases[a].device == device {
          return true, a;
        }
        rest := rest - {a};
      }
      return false, 0;
    }

    lemma GrantKeepsOneEach(st: NetState, network: string, account: string, device: string)
      requires OneEach(st)
      ensures OneEach(Granted(net, st, network, account, device))
    {
    }

    method Allocate(network: string, account: string, device: string, saveOk: bool) returns (r: Outcome)
      requires Valid()
      modifies this
      ensures Valid()
      ensures View() == Allocated(old(View()), network, account, device, saveOk)
      ensures r == Answer(old(View()), network, device, saveOk)
    {
      var st := if network in nets then nets[network] else Fresh(net);
      GrantKeepsOneEach(st, network, account, device);
      var found, held := Holder(st, device);
      if found {
        nets := nets[network := NetState(st.next, st.leases[held := st.leases[held].(account := account)])];
        return Leased(held);
      }
      var next := st.next;
      var i := 0;
      while i < TRIES
        invariant 0 <= i <= TRIES
        invariant nets == old(nets) && file == old(file)
        invariant ScanFree(net, st.leases, next, TRIES - i) == ScanFree(net, st.leases, st.next, TRIES)
      {
        i := i + 1;
        if !net.Contains(next) {
          nets := nets[network := NetState(next, st.leases)];
          return Exhausted;
        }
        var ip := next;
        next := Next(next);
        if ip != net.Broadcast() && ip !in st.leases {
          nets := nets[network := NetState(next, st.leases[ip := Lease(network, account, device, ip)])];
          Save(saveOk);
          return if saveOk then Leased(ip) else SaveFailed;
        }
      }
      nets := nets[network := NetState(next, st.leases)];
      return Exhausted;
    }

    /** All leases, in any order. */
    method Array() returns (out: seq<Lease>)
      ensures forall l :: l in out <==> l in AllLeases(nets)
    {
      out := [];
      var rest := AllLeases(nets);
      while rest != {}
        invariant rest <= AllLeases(nets)
        invariant forall l :: l in out <==> l in AllLeases(nets) && l !in rest
        decreases rest
      {
        var l :| l in rest;
        out := out + [l];
        rest := rest - {l};
      }
    }
  }
}
