/** The per-device usage report the admin page adds up, built in one pass over the ledger
    (internal/account/usage.go: `PerConsumer`; internal/server/api.go: `handleAdminUsages`). */
module Report {
  import opened MapSum
  import opened Usage
  import opened Clock
  import opened LedgerText

  datatype Row = Row(account: string, device: string, rx: int, tx: int, egress: int)

  /** The text key rows are grouped by. */
  function GroupKey(account: string, device: string): string {
    account + "|" + device
  }

  function BucketKey(b: Bucket): string { GroupKey(b.account, b.device) }

  function RowKey(r: Row): string { GroupKey(r.account, r.device) }

  /** What one grouping key contributes: all its buckets, or only those of the exit lane. */
  function KeyPart(l: Ledger, k: string, from: int, col: Column, exitOnly: bool): map<Bucket, int> {
    map b | b in l && b.hour >= from && BucketKey(b) == k && (exitOnly ==> b.egress != "") :: Read(l[b], col)
  }

  ghost function KeySum(l: Ledger, k: string, from: int, col: Column, exitOnly: bool): int {
    Sum(KeyPart(l, k, from, col, exitOnly))
  }

  lemma KeySumRemove(l: Ledger, b: Bucket, k: string, from: int, col: Column, exitOnly: bool)
    requires b in l
    ensures KeySum(l, k, from, col, exitOnly) == KeySum(l - {b}, k, from, col, exitOnly)
            + if b.hour >= from && BucketKey(b) == k && (exitOnly ==> b.egress != "") then Read(l[b], col) else 0
  {
    var m := KeyPart(l, k, from, col, exitOnly);
    assert KeyPart(l - {b}, k, from, col, exitOnly) == m - {b};
    if b in m {
      SumRemove(m, b);
    } else {
      assert m - {b} == m;
    }
  }

  /** One row's figures against the ledger. */
  ghost predicate RowAdds(l: Ledger, from: int, r: Row) {
    && r.rx == KeySum(l, RowKey(r), from, Rx, false)
    && r.tx == KeySum(l, RowKey(r), from, Tx, false)
    && r.egress == KeySum(l, RowKey(r), from, Tx, true)
  }

  predicate DistinctKeys(rows: seq<Row>) {
    forall i, j :: 0 <= i < j < |rows| ==> RowKey(rows[i]) != RowKey(rows[j])
  }

  ghost predicate Reported(rows: seq<Row>, b: Bucket) {
    exists i :: 0 <= i < |rows| && RowKey(rows[i]) == BucketKey(b)
  }

  ghost predicate FromLedger(l: Ledger, from: int, r: Row) {
    exists b :: b in l && b.hour >= from && b.account == r.account && b.device == r.device
  }

  ghost predicate Named(l: Ledger, from: int, rows: seq<Row>) {
    forall i :: 0 <= i < |rows| ==> FromLedger(l, from, rows[i])
  }

  /** The report: one row per grouping key in range, carrying that key's sums. */
  ghost predicate Reports(l: Ledger, from: int, rows: seq<Row>) {
    && DistinctKeys(rows)
    && (forall b <- l :: b.hour >= from ==> Reported(rows, b))
    && Named(l, from, rows)
    && (forall i :: 0 <= i < |rows| ==> RowAdds(l, from, rows[i]))
  }

  // ---- the single pass ----

  /** Row `r` plus what the buckets still to visit will add is the whole of key `k`. */
  ghost predicate Partial(l: Ledger, rest: Ledger, from: int, k: string, r: Row) {
    && r.rx + KeySum(rest, k, from, Rx, false) == KeySum(l, k, from, Rx, false)
    && r.tx + KeySum(rest, k, from, Tx, false) == KeySum(l, k, from, Tx, false)
    && r.egress + KeySum(rest, k, from, Tx, true) == KeySum(l, k, from, Tx, true)
  }

  function Blank(account: string, device: string): Row {
    Row(account, device, 0, 0, 0)
  }

  function AddTo(r: Row, b: Bucket, c: Counters): Row {
    r.(rx := r.rx + c.rx, tx := r.tx + c.tx, egress := if b.egress != "" then r.egress + c.tx else r.egress)
  }

  lemma PartialStep(l: Ledger, rest: Ledger, from: int, b: Bucket, k: string, r: Row)
    requires b in rest && Partial(l, rest, from, k, r)
    ensures b.hour >= from && BucketKey(b) == k ==> Partial(l, rest - {b}, from, k, AddTo(r, b, rest[b]))
    ensures !(b.hour >= from && BucketKey(b) == k) ==> Partial(l, rest - {b}, from, k, r)
  {
    KeySumRemove(rest, b, k, from, Rx, false);
    KeySumRemove(rest, b, k, from, Tx, false);
    KeySumRemove(rest, b, k, from, Tx, true);
  }

  /** The index map and the row slice name each other. */
  predicate Indexed(idx: map<string, nat>, out: seq<Row>) {
    && (forall k <- idx :: idx[k] < |out| && RowKey(out[idx[k]]) == k)
    && (forall i :: 0 <= i < |out| ==> RowKey(out[i]) in idx && idx[RowKey(out[i])] == i)
  }

  function Current(idx: map<string, nat>, out: seq<Row>, k: string): Row
    requires Indexed(idx, out)
  {
    if k in idx then out[idx[k]] else Blank("", "")
  }

  ghost predicate Tallied(l: Ledger, rest: Ledger, from: int, idx: map<string, nat>, out: seq<Row>)
    requires Indexed(idx, out)
  {
    forall k: string :: Partial(l, rest, from, k, Current(idx, out, k))
  }

  /** The loop body for a bucket in range: find or append the row of its key, add its counters. */
  method Enter(b: Bucket, c: Counters, idx: map<string, nat>, out: seq<Row>)
    returns (idx': map<string, nat>, out': seq<Row>)
    requires Indexed(idx, out)
    ensures Indexed(idx', out') && idx'.Keys == idx.Keys + {BucketKey(b)}
    ensures forall k :: k != BucketKey(b) ==> Current(idx', out', k) == Current(idx, out, k)
    ensures Current(idx', out', BucketKey(b))
            == AddTo(if BucketKey(b) in idx then Current(idx, out, BucketKey(b)) else Blank(b.account, b.device), b, c)
    ensures |out| <= |out'| <= |out| + 1
    ensures forall i :: 0 <= i < |out| ==> out'[i].account == out[i].account && out'[i].device == out[i].device
    ensures |out'| > |out| ==> out'[|out|].account == b.account && out'[|out|].device == b.device
  {
    idx', out' := idx, out;
    var k := BucketKey(b);
    if k !in idx' {
      idx' := idx'[k := |out'|];
      out' := out' + [Blank(b.account, b.device)];
    }
    var i := idx'[k];
    out' := out'[i := AddTo(out'[i], b, c)];
  }

  lemma VisitInRange(l: Ledger, rest: Ledger, from: int, b: Bucket,
                     idx: map<string, nat>, out: seq<Row>, idx': map<string, nat>, out': seq<Row>)
    requires Indexed(idx, out) && Indexed(idx', out') && Tallied(l, rest, from, idx, out)
    requires b in rest && b.hour >= from
    requires forall k :: k != BucketKey(b) ==> Current(idx', out', k) == Current(idx, out, k)
    requires Current(idx', out', BucketKey(b)) ==
             AddTo(if BucketKey(b) in idx then Current(idx, out, BucketKey(b)) else Blank(b.account, b.device),
                   b, rest[b])
    ensures Tallied(l, rest - {b}, from, idx', out')
  {
    forall k: string
      ensures Partial(l, rest - {b}, from, k, Current(idx', out', k))
    {
      assert Partial(l, rest, from, k, Current(idx, out, k));
      PartialStep(l, rest, from, b, k, Current(idx, out, k));
    }
  }

  lemma VisitOutOfRange(l: Ledger, rest: Ledger, from: int, b: Bucket, idx: map<string, nat>, out: seq<Row>)
    requires Indexed(idx, out) && Tallied(l, rest, from, idx, out) && b in rest && b.hour < from
    ensures Tallied(l, rest - {b}, from, idx, out)
  {
    forall k: string
      ensures Partial(l, rest - {b}, from, k, Current(idx, out, k))
    {
      assert Partial(l, rest, from, k, Current(idx, out, k));
      PartialStep(l, rest, from, b, k, Current(idx, out, k));
    }
  }

  lemma AllVisited(l: Ledger, from: int, idx: map<string, nat>, out: seq<Row>)
    requires Indexed(idx, out) && Tallied(l, map[], from, idx, out)
    ensures forall i :: 0 <= i < |out| ==> RowAdds(l, from, out[i])
  {
    forall i | 0 <= i < |out|
      ensures RowAdds(l, from, out[i])
    {
      assert Partial(l, map[], from, RowKey(out[i]), Current(idx, out, RowKey(out[i])));
    }
  }

  lemma NamedStep(l: Ledger, from: int, b: Bucket, out: seq<Row>, out': seq<Row>)
    requires Named(l, from, out) && b in l && b.hour >= from
    requires |out| <= |out'| <= |out| + 1
    requires forall i :: 0 <= i < |out| ==> out'[i].account == out[i].account && out'[i].device == out[i].device
    requires |out'| > |out| ==> out'[|out|].account == b.account && out'[|out|].device == b.device
    ensures Named(l, from, out')
  {
    forall i | 0 <= i < |out'|
      ensures FromLedger(l, from, out'[i])
    {
      if i < |out| {
        assert FromLedger(l, from, out[i]);
      }
    }
  }

  method PerConsumer(u: UsageStore, since: nat) returns (out: seq<Row>)
    ensures Reports(u.buckets, HourStart(since), out)
  {
    var idx: map<string, nat> := map[];
    out := [];
    var hh := HourStart(since);
    var rest := u.buckets;
    while rest != map[]
      invariant forall b <- rest :: b in u.buckets && rest[b] == u.buckets[b]
      invariant Indexed(idx, out)
      invariant forall b <- u.buckets :: b in rest || b.hour < hh || BucketKey(b) in idx
      invariant Named(u.buckets, hh, out)
      invariant Tallied(u.buckets, rest, hh, idx, out)
      decreases |rest|
    {
      var b :| b in rest;
      if b.hour < hh {
        VisitOutOfRange(u.buckets, rest, hh, b, idx, out);
      } else {
        var idx', out' := Enter(b, rest[b], idx, out);
        VisitInRange(u.buckets, rest, hh, b, idx, out, idx', out');
        NamedStep(u.buckets, hh, b, out, out');
        idx, out := idx', out';
      }
      rest := rest - {b};
    }
    AllVisited(u.buckets, hh, idx, out);
  }

  // ---- what the report means ----

  ghost predicate HasRow(rows: seq<Row>, account: string, device: string) {
    exists i :: 0 <= i < |rows| && rows[i].account == account && rows[i].device == device
  }

  /** No two devices in range share a grouping key. */
  predicate Separable(l: Ledger, from: int) {
    forall a, b | a in l && b in l && a.hour >= from && b.hour >= from && BucketKey(a) == BucketKey(b) ::
      a.account == b.account && a.device == b.device
  }

  lemma CleanAccountsSeparate(l: Ledger, from: int)
    requires forall b <- l :: BarFree(b.account)
    ensures Separable(l, from)
  {
    forall a, b | a in l && b in l && a.hour >= from && b.hour >= from && BucketKey(a) == BucketKey(b)
      ensures a.account == b.account && a.device == b.device
    {
      SameKeySameNames(a, b);
    }
  }

  lemma SameKeySameNames(a: Bucket, b: Bucket)
    requires BarFree(a.account) && BarFree(b.account) && BucketKey(a) == BucketKey(b)
    ensures a.account == b.account && a.device == b.device
  {
    HeadOf(a.account, a.device);
    HeadOf(b.account, b.device);
    assert BucketKey(a)[|a.account| + 1..] == a.device;
    assert BucketKey(b)[|b.account| + 1..] == b.device;
  }

  lemma RowOf(l: Ledger, from: int, rows: seq<Row>, b: Bucket)
    requires Reports(l, from, rows) && Separable(l, from) && b in l && b.hour >= from
    ensures HasRow(rows, b.account, b.device)
  {
    assert Reported(rows, b);
    var i :| 0 <= i < |rows| && RowKey(rows[i]) == BucketKey(b);
    assert FromLedger(l, from, rows[i]);
  }

  /** Every device with traffic in range has its own row, and no other row exists, exactly when the
      grouping keys tell devices apart. */
  lemma OneRowPerDevice(l: Ledger, from: int, rows: seq<Row>)
    requires Reports(l, from, rows)
    ensures (forall b <- l :: b.hour >= from ==> HasRow(rows, b.account, b.device)) <==> Separable(l, from)
    ensures forall i, j | 0 <= i < |rows| && 0 <= j < |rows| ::
              rows[i].account == rows[j].account && rows[i].device == rows[j].device ==> i == j
  {
    if Separable(l, from) {
      forall b | b in l && b.hour >= from
        ensures HasRow(rows, b.account, b.device)
      {
        RowOf(l, from, rows, b);
      }
    } else {
      var a, b :| a in l && b in l && a.hour >= from && b.hour >= from && BucketKey(a) == BucketKey(b)
                  && !(a.account == b.account && a.device == b.device);
      assert !(HasRow(rows, a.account, a.device) && HasRow(rows, b.account, b.device));
    }
  }

  /** The rows a roll-up adds, and the figure it takes from each. */
  predicate Picks(q: Query, r: Row)
    requires !q.ViaExit?
  {
    if q.OfAccount? then r.account == q.id else r.device == q.id
  }

  function Figure(q: Query, col: Column, r: Row): int {
    if q.LaneOf? then r.egress else if col == Rx then r.rx else r.tx
  }

  function RollUp(rows: seq<Row>, q: Query, col: Column): int
    requires !q.ViaExit?
  {
    if rows == [] then 0 else
      var r := rows[|rows| - 1];
      RollUp(rows[..|rows| - 1], q, col) + if Picks(q, r) then Figure(q, col, r) else 0
  }

  ghost function PickedKeys(rows: seq<Row>, q: Query): set<string>
    requires !q.ViaExit?
  {
    set i | 0 <= i < |rows| && Picks(q, rows[i]) :: RowKey(rows[i])
  }

  lemma PickedKeysOfLast(rows: seq<Row>, q: Query)
    requires !q.ViaExit? && rows != [] && DistinctKeys(rows)
    ensures var n := |rows| - 1;
            && RowKey(rows[n]) !in PickedKeys(rows[..n], q)
            && PickedKeys(rows, q)
               == PickedKeys(rows[..n], q) + if Picks(q, rows[n]) then {RowKey(rows[n])} else {}
  {
  }

  /** A roll-up over rows with distinct keys is a sum over those keys. */
  lemma {:induction false} RollUpIsSum(rows: seq<Row>, q: Query, col: Column, sums: map<string, int>)
    requires !q.ViaExit? && DistinctKeys(rows)
    requires sums.Keys == PickedKeys(rows, q)
    requires forall i :: 0 <= i < |rows| && Picks(q, rows[i]) ==> sums[RowKey(rows[i])] == Figure(q, col, rows[i])
    ensures RollUp(rows, q, col) == Sum(sums)
  {
    if rows != [] {
      var n := |rows| - 1;
      var k := RowKey(rows[n]);
      PickedKeysOfLast(rows, q);
      var sums' := if Picks(q, rows[n]) then sums - {k} else sums;
      assert sums'.Keys == PickedKeys(rows[..n], q);
      RollUpIsSum(rows[..n], q, col, sums');
      if Picks(q, rows[n]) {
        SumRemove(sums, k);
      }
    }
  }

  lemma KeyOfRow(l: Ledger, from: int, r: Row, b: Bucket)
    requires FromLedger(l, from, r) && Separable(l, from) && b in l && b.hour >= from
    ensures BucketKey(b) == RowKey(r) <==> b.account == r.account && b.device == r.device
  {
    var a :| a in l && a.hour >= from && a.account == r.account && a.device == r.device;
    assert BucketKey(a) == RowKey(r);
  }

  /** The buckets a query takes from one device's key are the device's own. */
  lemma GroupIsKeyPart(l: Ledger, from: int, r: Row, q: Query, col: Column)
    requires FromLedger(l, from, r) && Separable(l, from)
    requires !q.ViaExit? && Picks(q, r)
    ensures GroupOf(Selection(l, col, q, from), BucketKey, RowKey(r)) == KeyPart(l, RowKey(r), from, col, q.LaneOf?)
  {
    var m, p := GroupOf(Selection(l, col, q, from), BucketKey, RowKey(r)), KeyPart(l, RowKey(r), from, col, q.LaneOf?);
    forall b | b in l && b.hour >= from
      ensures b in m <==> b in p
    {
      KeyOfRow(l, from, r, b);
    }
    assert m.Keys == p.Keys;
  }

  lemma SelectedHavePickedKeys(l: Ledger, from: int, rows: seq<Row>, q: Query, col: Column)
    requires Reports(l, from, rows) && Separable(l, from) && !q.ViaExit?
    ensures forall b <- Selection(l, col, q, from) :: BucketKey(b) in PickedKeys(rows, q)
  {
    forall b | b in Selection(l, col, q, from)
      ensures BucketKey(b) in PickedKeys(rows, q)
    {
      OneRowPerDevice(l, from, rows);
      assert HasRow(rows, b.account, b.device);
    }
  }

  /** The buckets a query takes from one row's key sum to the row's figure. */
  lemma RowFigure(l: Ledger, from: int, rows: seq<Row>, i: nat, q: Query, col: Column)
    requires Reports(l, from, rows) && Separable(l, from) && !q.ViaExit?
    requires q.LaneOf? ==> col == Tx
    requires i < |rows| && Picks(q, rows[i])
    ensures Sum(GroupOf(Selection(l, col, q, from), BucketKey, RowKey(rows[i]))) == Figure(q, col, rows[i])
  {
    assert FromLedger(l, from, rows[i]);
    GroupIsKeyPart(l, from, rows[i], q, col);
    assert RowAdds(l, from, rows[i]);
  }

  lemma GroupFigures(l: Ledger, from: int, rows: seq<Row>, q: Query, col: Column)
    requires Reports(l, from, rows) && Separable(l, from) && !q.ViaExit?
    requires q.LaneOf? ==> col == Tx
    ensures var sums := GroupSums(Selection(l, col, q, from), BucketKey, PickedKeys(rows, q));
            forall i :: 0 <= i < |rows| && Picks(q, rows[i]) ==> sums[RowKey(rows[i])] == Figure(q, col, rows[i])
  {
    forall i | 0 <= i < |rows| && Picks(q, rows[i])
      ensures Sum(GroupOf(Selection(l, col, q, from), BucketKey, RowKey(rows[i]))) == Figure(q, col, rows[i])
    {
      RowFigure(l, from, rows, i, q, col);
    }
  }

  /** The admin roll-up agrees with the quota figures: an account's rows add up to its `Totals`, a
      device's row egress to the tx of its `EgressLaneTotals`. */
  lemma ReportAgreesWithTotals(l: Ledger, from: int, rows: seq<Row>, q: Query, col: Column)
    requires Reports(l, from, rows) && Separable(l, from) && !q.ViaExit?
    requires q.LaneOf? ==> col == Tx
    ensures RollUp(rows, q, col) == Total(l, col, q, from)
  {
    var m := Selection(l, col, q, from);
    var groups := PickedKeys(rows, q);
    SelectedHavePickedKeys(l, from, rows, q, col);
    SumByGroup(m, BucketKey, groups);
    GroupFigures(l, from, rows, q, col);
    RollUpIsSum(rows, q, col, GroupSums(m, BucketKey, groups));
  }
}
