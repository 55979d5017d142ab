/** The usage ledger: hourly traffic buckets and the sums read from them
    (internal/account/usage.go). */
module Usage {
  import opened MapSum
  import opened Clock

  /** `egress` is the exit device the bytes went through, "" for plain mesh traffic; `hour` is the
      Unix time at which the hour began. */
  datatype Bucket = Bucket(account: string, device: string, egress: string, hour: int)

  datatype Counters = Counters(rx: int, tx: int)

  datatype Column = Rx | Tx

  function Read(c: Counters, col: Column): int {
    if col == Rx then c.rx else c.tx
  }

  type Ledger = map<Bucket, Counters>

  /** The three sums the server reads: an account's traffic, the traffic served by an exit, and the
      exit traffic of a consuming device. */
  datatype Query = OfAccount(id: string) | ViaExit(id: string) | LaneOf(id: string)

  predicate About(q: Query, b: Bucket) {
    match q
    case OfAccount(id) => b.account == id
    case ViaExit(id) => b.egress == id
    case LaneOf(id) => b.device == id && b.egress != ""
  }

  predicate Selects(q: Query, from: int, b: Bucket) {
    About(q, b) && b.hour >= from
  }

  /** The part of a bucket's counter a query counts. */
  function Counted(q: Query, from: int, b: Bucket, v: int): int {
    if Selects(q, from, b) then v else 0
  }

  function Selection(l: Ledger, col: Column, q: Query, from: int): map<Bucket, int> {
    map b | b in l && Selects(q, from, b) :: Read(l[b], col)
  }

  ghost function Total(l: Ledger, col: Column, q: Query, from: int): int {
    Sum(Selection(l, col, q, from))
  }

  /** The sum over all buckets whatever. */
  ghost function Grand(l: Ledger, col: Column): int {
    Sum(map b | b in l :: Read(l[b], col))
  }

  function At(l: Ledger, b: Bucket): Counters {
    if b in l then l[b] else Counters(0, 0)
  }

  function Added(l: Ledger, b: Bucket, rx: int, tx: int): Ledger {
    l[b := Counters(At(l, b).rx + rx, At(l, b).tx + tx)]
  }

  /** Adding to a bucket moves exactly the sums that select it, by exactly the added bytes. */
  lemma AddedTotal(l: Ledger, b: Bucket, rx: int, tx: int, col: Column, q: Query, from: int)
    ensures Total(Added(l, b, rx, tx), col, q, from)
            == Total(l, col, q, from) + Counted(q, from, b, if col == Rx then rx else tx)
  {
    var s, s' := Selection(l, col, q, from), Selection(Added(l, b, rx, tx), col, q, from);
    var v := Read(Added(l, b, rx, tx)[b], col);
    if Selects(q, from, b) {
      assert s' == s[b := v];
      SumUpdate(s, b, v);
    } else {
      assert s' == s;
    }
  }

  lemma AddedGrand(l: Ledger, b: Bucket, rx: int, tx: int, col: Column)
    ensures Grand(Added(l, b, rx, tx), col) == Grand(l, col) + if col == Rx then rx else tx
  {
    var s := map k | k in l :: Read(l[k], col);
    var l' := Added(l, b, rx, tx);
    assert (map k | k in l' :: Read(l'[k], col)) == s[b := Read(l'[b], col)];
    SumUpdate(s, b, Read(l'[b], col));
  }

  lemma TotalRemove(l: Ledger, b: Bucket, col: Column, q: Query, from: int)
    requires b in l
    ensures Total(l, col, q, from) == Counted(q, from, b, Read(l[b], col)) + Total(l - {b}, col, q, from)
  {
    AddedTotal(l - {b}, b, l[b].rx, l[b].tx, col, q, from);
    assert Added(l - {b}, b, l[b].rx, l[b].tx) == l;
  }

  class UsageStore {
    var buckets: Ledger

    constructor ()
      ensures buckets == map[]
    {
      buckets := map[];
    }

    method Add(account: string, device: string, egress: string, rx: int, tx: int, at: nat)
      modifies this
      ensures buckets == Added(old(buckets), Bucket(account, device, egress, HourStart(at)), rx, tx)
    {
      var b := Bucket(account, device, egress, HourStart(at));
      var c := Counters(0, 0);
      if b in buckets {
        c := buckets[b];
      }
      buckets := buckets[b := Counters(c.rx + rx, c.tx + tx)];
    }

    /** The loop shared by the three sums; the buckets come in any order. */
    method Accumulate(q: Query, from: int) returns (out: Counters)
      ensures out.rx == Total(buckets, Rx, q, from)
      ensures out.tx == Total(buckets, Tx, q, from)
    {
      out := Counters(0, 0);
      var rest := buckets;
      while rest != map[]
        invariant Total(buckets, Rx, q, from) == out.rx + Total(rest, Rx, q, from)
        invariant Total(buckets, Tx, q, from) == out.tx + Total(rest, Tx, q, from)
        decreases |rest|
      {
        var b :| b in rest;
        TotalRemove(rest, b, Rx, q, from);
        TotalRemove(rest, b, Tx, q, from);
        if Selects(q, from, b) {
          out := Counters(out.rx + rest[b].rx, out.tx + rest[b].tx);
        }
        rest := rest - {b};
      }
    }

    method Totals(account: string, since: nat) returns (out: Counters)
      ensures out.rx == Total(buckets, Rx, OfAccount(account), HourStart(since))
      ensures out.tx == Total(buckets, Tx, OfAccount(account), HourStart(since))
    {
      out := Accumulate(OfAccount(account), HourStart(since));
    }

    method EgressTotals(exit: string, since: nat) returns (out: Counters)
      ensures out.rx == Total(buckets, Rx, ViaExit(exit), HourStart(since))
      ensures out.tx == Total(buckets, Tx, ViaExit(exit), HourStart(since))
    {
      out := Accumulate(ViaExit(exit), HourStart(since));
    }

    method EgressLaneTotals(consumer: string, since: nat) returns (out: Counters)
      ensures out.rx == Total(buckets, Rx, LaneOf(consumer), HourStart(since))
      ensures out.tx == Total(buckets, Tx, LaneOf(consumer), HourStart(since))
    {
      out := Accumulate(LaneOf(consumer), HourStart(since));
    }
  }
}
