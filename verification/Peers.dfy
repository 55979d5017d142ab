/** Control messages about peers, and a client's table of online peers
    (internal/protocol/control.go; internal/client/peers.go; internal/client/client.go: `handleCtrl`). */
module Peers {

  datatype PeerInfo = PeerInfo(ip: nat, hostname: string, os: string, egress: bool)

  datatype Ctrl =
    | PeerJoin(peer: PeerInfo)
    | PeerLeave(ip: nat)
    | QuotaNotice(used: int, limit: int, egressUsed: int, egressLimit: int)

  type View = map<nat, PeerInfo>

  function Apply(v: View, m: Ctrl): View {
    match m
    case PeerJoin(peer) => v[peer.ip := peer]
    case PeerLeave(ip) => v - {ip}
    case QuotaNotice(_, _, _, _) => v
  }

  /** What a message changes: a join lists its peer, a leave takes the peer at its address out, nothing else
      changes, and a notice changes nothing. */
  lemma AppliedAt(v: View, m: Ctrl, a: nat)
    ensures var v', here := Apply(v, m), (m.PeerJoin? && m.peer.ip == a) || (m.PeerLeave? && m.ip == a);
            && (here && m.PeerJoin? ==> a in v' && v'[a] == m.peer)
            && (here && m.PeerLeave? ==> a !in v')
            && (!here ==> (a in v' <==> a in v) && (a in v' ==> v'[a] == v[a]))
  {
  }

  /** A view after all messages still under way have been handled. */
  function ApplyAll(v: View, ms: seq<Ctrl>): View {
    if ms == [] then v else Apply(ApplyAll(v, ms[..|ms| - 1]), ms[|ms| - 1])
  }

  lemma ApplyOneMore(v: View, ms: seq<Ctrl>, m: Ctrl)
    ensures ApplyAll(v, ms + [m]) == Apply(ApplyAll(v, ms), m)
  {
    assert (ms + [m])[..|ms + [m]| - 1] == ms;
  }

  lemma {:induction false} ApplyFirst(v: View, ms: seq<Ctrl>)
    requires ms != []
    ensures ApplyAll(v, ms) == ApplyAll(Apply(v, ms[0]), ms[1..])
  {
    if |ms| == 1 {
      assert ms[..0] == [] && ms[1..] == [];
    } else {
      var n := |ms| - 1;
      ApplyFirst(v, ms[..n]);
      assert ms[..n][1..] == ms[1..][..n - 1];
      assert ms[1..][n - 1] == ms[n];
    }
  }

  /** The peers a list describes; the last one wins. */
  function ViewOf(v: View, peers: seq<PeerInfo>): View {
    if peers == [] then v else
      var p := peers[|peers| - 1];
      ViewOf(v, peers[..|peers| - 1])[p.ip := p]
  }

  lemma {:induction false} ViewOfAt(v: View, peers: seq<PeerInfo>, w: View, a: nat)
    requires forall p <- peers :: p.ip in w && w[p.ip] == p
    ensures a in ViewOf(v, peers) <==> a in v || exists p :: p in peers && p.ip == a
    ensures a in ViewOf(v, peers) ==>
              ViewOf(v, peers)[a] == if exists p :: p in peers && p.ip == a then w[a] else v[a]
  {
    if peers != [] {
      var init, p := peers[..|peers| - 1], peers[|peers| - 1];
      assert p in peers && forall q <- init :: q in peers;
      assert forall q <- peers :: q in init || q == p;
      ViewOfAt(v, init, w, a);
    }
  }

  /** A list of peers in any order, laid over a table one by one, is laid over it at once. */
  lemma OverlayOfList(v: View, peers: seq<PeerInfo>, w: View)
    requires forall p <- peers :: p.ip in w && w[p.ip] == p
    requires forall ip <- w :: w[ip] in peers && w[ip].ip == ip
    ensures ViewOf(v, peers) == v + w
  {
    forall a: nat
      ensures a in ViewOf(v, peers) <==> a in v + w
      ensures a in ViewOf(v, peers) ==> ViewOf(v, peers)[a] == (v + w)[a]
    {
      ViewOfAt(v, peers, w, a);
    }
  }

  class PeerRegistry {
    var byIP: View

    constructor ()
      ensures byIP == map[]
    {
      byIP := map[];
    }

    method Upsert(peer: PeerInfo)
      modifies this
      ensures byIP == Apply(old(byIP), PeerJoin(peer))
    {
      byIP := byIP[peer.ip := peer];
    }

    method UpsertMany(peers: seq<PeerInfo>)
      modifies this
      ensures byIP == ViewOf(old(byIP), peers)
    {
      for i := 0 to |peers|
        invariant byIP == ViewOf(old(byIP), peers[..i])
      {
        assert peers[..i + 1][..i] == peers[..i];
        byIP := byIP[peers[i].ip := peers[i]];
      }
      assert peers[..|peers|] == peers;
    }

    method Remove(ip: nat)
      modifies this
      ensures byIP == Apply(old(byIP), PeerLeave(ip))
    {
      byIP := byIP - {ip};
    }

    method HandleCtrl(m: Ctrl)
      modifies this
      ensures byIP == Apply(old(byIP), m)
    {
      match m
      case PeerJoin(peer) => Upsert(peer);
      case PeerLeave(ip) => Remove(ip);
      case QuotaNotice(_, _, _, _) =>
    }

    /** Finds the address of an online peer of that name that may serve as exit, if there is one; which
        one, when several share the name, depends on the map order. */
    method ResolveEgress(hostname: string) returns (found: bool, ip: nat)
      ensures found ==> ip in byIP && byIP[ip].hostname == hostname && byIP[ip].egress
      ensures !found ==> forall a <- byIP :: !(byIP[a].hostname == hostname && byIP[a].egress)
    {
      var rest := byIP.Keys;
      while rest != {}
        invariant rest <= byIP.Keys
        invariant forall a <- byIP :: a in rest || !(byIP[a].hostname == hostname && byIP[a].egress)
        decreases rest
      {
        var a :| a in rest;
        if byIP[a].hostname == hostname && byIP[a].egress {
          return true, a;
        }
        rest := rest - {a};
      }
      return false, 0;
    }

    method ByIPEgress(ip: nat) returns (ok: bool)
      ensures ok <==> ip in byIP && byIP[ip].egress
    {
      ok := ip in byIP && byIP[ip].egress;
    }

    /** All peers, in any order. */
    method Snapshot() returns (out: seq<PeerInfo>)
      ensures forall p :: p in out <==> exists ip :: ip in byIP && byIP[ip] == p
      ensures |out| == |byIP|
    {
      out := [];
      var rest := byIP;
      while rest != map[]
        invariant forall ip <- rest :: ip in byIP && rest[ip] == byIP[ip]
        invariant forall p :: p in out <==> exists ip :: ip in byIP && ip !in rest && byIP[ip] == p
        invariant |out| + |rest| == |byIP|
        decreases |rest|
      {
        var ip :| ip in rest;
        var out0, rest0 := out, rest;
        out := out + [rest[ip]];
        rest := rest - {ip};
        forall p
          ensures p in out <==> exists a :: a in byIP && a !in rest && byIP[a] == p
        {
          assert p in out <==> p in out0 || p == byIP[ip];
        }
      }
    }
  }
}
