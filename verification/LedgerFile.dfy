/** Saving the ledger under text keys and opening it again, with the one-time folding of rows that
    counted each packet twice (internal/account/usage.go: `keyedBuckets`, `OpenUsage`). */
module LedgerFile {
  import opened Usage
  import opened LedgerText

  type File = map<string, Counters>

  /** Rows with equal columns are taken for double-counted ones and lose the rx half. */
  function Fold(c: Counters): Counters {
    if c.rx == c.tx then Counters(0, c.tx) else c
  }

  function FoldLedger(l: Ledger): Ledger {
    map b | b in l :: Fold(l[b])
  }

  predicate CleanLedger(l: Ledger) {
    forall b <- l :: CleanIds(b) && IsInt64(b.hour)
  }

  predicate DoubleCounted(c: Counters) {
    c.rx == c.tx != 0
  }

  /** `file` is what saving `l` may write, in whatever order the buckets are visited: when two buckets
      print the same key, either may win. */
  ghost predicate Saves(l: Ledger, file: File) {
    && (forall b <- l :: PrintKey(b) in file)
    && (forall k <- file :: exists b :: b in l && PrintKey(b) == k && file[k] == l[b])
  }

  /** `l` is what opening `file` may give: unreadable keys are skipped, and when two keys read as the
      same bucket either may win. */
  ghost predicate Opens(file: File, l: Ledger) {
    && (forall k <- file :: ParseKey(k).Key? ==> ParseKey(k).bucket in l)
    && (forall b <- l :: exists k :: k in file && ParseKey(k) == Key(b) && l[b] == Fold(file[k]))
  }

  method KeyedBuckets(u: UsageStore) returns (file: File)
    ensures Saves(u.buckets, file)
  {
    file := map[];
    var rest := u.buckets;
    while rest != map[]
      invariant forall b <- rest :: b in u.buckets && rest[b] == u.buckets[b]
      invariant forall b <- u.buckets :: b in rest || PrintKey(b) in file
      invariant forall k <- file :: exists b :: b in u.buckets && PrintKey(b) == k && file[k] == u.buckets[b]
      decreases |rest|
    {
      var b :| b in rest;
      file := file[PrintKey(b) := rest[b]];
      rest := rest - {b};
    }
  }

  method OpenUsage(file: File) returns (u: UsageStore)
    ensures fresh(u) && Opens(file, u.buckets)
  {
    u := new UsageStore();
    var rest := file;
    while rest != map[]
      invariant forall k <- rest :: k in file && rest[k] == file[k]
      invariant forall k <- file :: k in rest || (ParseKey(k).Key? ==> ParseKey(k).bucket in u.buckets)
      invariant forall b <- u.buckets ::
          exists k :: k in file && ParseKey(k) == Key(b) && u.buckets[b] == Fold(file[k])
      decreases |rest|
    {
      var k :| k in rest;
      var c := rest[k];
      if c.rx == c.tx {
        c := Counters(0, c.tx);
      }
      match ParseKey(k) {
        case Malformed =>
        case Key(b) => u.buckets := u.buckets[b := c];
      }
      rest := rest - {k};
    }
  }

  /** Opening keeps every saved bucket ... */
  lemma RowKept(l: Ledger, file: File, l': Ledger, b: Bucket)
    requires CleanLedger(l) && Saves(l, file) && Opens(file, l') && b in l
    ensures b in l'
  {
    KeyRoundTrip(b);
    assert PrintKey(b) in file;
  }

  /** ... and invents none. */
  lemma RowFolded(l: Ledger, file: File, l': Ledger, b: Bucket)
    requires CleanLedger(l) && Saves(l, file) && Opens(file, l') && b in l'
    ensures b in l && l'[b] == Fold(l[b])
  {
    var k :| k in file && ParseKey(k) == Key(b) && l'[b] == Fold(file[k]);
    var a :| a in l && PrintKey(a) == k && file[k] == l[a];
    KeyRoundTrip(a);
  }

  /** Saving and opening a ledger of bar-free ids keeps every bucket and folds its row, nothing else. */
  lemma Reopened(l: Ledger, file: File, l': Ledger)
    requires CleanLedger(l) && Saves(l, file) && Opens(file, l')
    ensures l' == FoldLedger(l)
  {
    RowsKept(l, file, l');
    RowsFolded(l, file, l');
    SameAsFolded(l, l');
  }

  lemma RowsKept(l: Ledger, file: File, l': Ledger)
    requires CleanLedger(l) && Saves(l, file) && Opens(file, l')
    ensures forall b <- l :: b in l'
  {
    forall b | b in l ensures b in l' { RowKept(l, file, l', b); }
  }

  lemma RowsFolded(l: Ledger, file: File, l': Ledger)
    requires CleanLedger(l) && Saves(l, file) && Opens(file, l')
    ensures forall b <- l' :: b in l && l'[b] == Fold(l[b])
  {
    forall b | b in l' ensures b in l && l'[b] == Fold(l[b]) { RowFolded(l, file, l', b); }
  }

  lemma SameAsFolded(l: Ledger, l': Ledger)
    requires forall b <- l :: b in l'
    requires forall b <- l' :: b in l && l'[b] == Fold(l[b])
    ensures l' == FoldLedger(l)
  {
    assert l'.Keys == FoldLedger(l).Keys;
  }

  lemma FoldIsIdentity(l: Ledger)
    ensures FoldLedger(l) == l <==> forall b <- l :: !DoubleCounted(l[b])
  {
    if b :| b in l && DoubleCounted(l[b]) {
      assert FoldLedger(l)[b].rx == 0 != l[b].rx;
    } else {
      assert FoldLedger(l).Keys == l.Keys;
    }
  }

  lemma FoldTwice(l: Ledger)
    ensures FoldLedger(FoldLedger(l)) == FoldLedger(l)
  {
    FoldIsIdentity(FoldLedger(l));
  }

  lemma FoldKeepsTx(l: Ledger, q: Query, from: int)
    ensures Total(FoldLedger(l), Tx, q, from) == Total(l, Tx, q, from)
  {
    assert Selection(FoldLedger(l), Tx, q, from) == Selection(l, Tx, q, from);
  }

  /** Save then Open is the identity exactly on ledgers without double-counted rows. */
  lemma ReopenIsIdentity(l: Ledger, file: File, l': Ledger)
    requires CleanLedger(l) && Saves(l, file) && Opens(file, l')
    ensures l' == l <==> forall b <- l :: !DoubleCounted(l[b])
  {
    Reopened(l, file, l');
    FoldIsIdentity(l);
  }

  /** A second save and open changes nothing any more, and no reload ever changes a tx sum. */
  lemma ReloadTwice(l: Ledger, file: File, l': Ledger, file': File, l'': Ledger, q: Query, from: int)
    requires CleanLedger(l) && Saves(l, file) && Opens(file, l')
    requires Saves(l', file') && Opens(file', l'')
    ensures l'' == l'
    ensures Total(l', Tx, q, from) == Total(l, Tx, q, from)
  {
    Reopened(l, file, l');
    Reopened(l', file', l'');
    FoldTwice(l);
    FoldKeepsTx(l, q, from);
  }

  /** A bar in an id breaks the round trip: the two rows of this ledger share one key. */
  lemma BarredIdsCollide()
    ensures var a, b := Bucket("x|y", "z", "", 0), Bucket("x", "y|z", "", 0);
            && a != b
            && PrintKey(a) == PrintKey(b)
            && forall file :: Saves(map[a := Counters(0, 1), b := Counters(0, 2)], file) ==> |file| == 1
  {
    var a, b := Bucket("x|y", "z", "", 0), Bucket("x", "y|z", "", 0);
    var l := map[a := Counters(0, 1), b := Counters(0, 2)];
    var k := PrintKey(a);
    assert "x|y" + "|" + ("z" + "|" + ("" + "|" + "0")) == "x" + "|" + ("y|z" + "|" + ("" + "|" + "0"));
    forall file | Saves(l, file)
      ensures |file| == 1
    {
      assert file.Keys == {k};
    }
  }
}
