/** The request rate limiter: fixed windows per key, with lazy pruning (internal/server/rate.go). */
module RateLimit {

  /** Above this many entries, opening a window prunes the table. */
  const PRUNE_ABOVE: nat := 10000

  datatype Entry = Entry(start: int, n: int)

  type Table = map<string, Entry>

  predicate Expired(e: Entry, window: int, now: int) { now - e.start >= window }

  function Pruned(t: Table, window: int, now: int): Table {
    map k | k in t && !Expired(t[k], window, now) :: t[k]
  }

  predicate Opens(t: Table, key: string, window: int, now: int) {
    key !in t || Expired(t[key], window, now)
  }

  /** The window a call falls in, before the call is counted. */
  function Current(t: Table, key: string, window: int, now: int): Entry {
    if Opens(t, key, window, now) then Entry(now, 0) else t[key]
  }

  predicate Answer(t: Table, key: string, limit: int, window: int, now: int) {
    Current(t, key, window, now).n + 1 <= limit
  }

  /** The table after a call; `prune` says whether large tables are pruned. */
  function After(t: Table, key: string, window: int, now: int, prune: bool): Table {
    var e := Current(t, key, window, now);
    var grown := t[key := e];
    var kept := if Opens(t, key, window, now) && prune && |grown| > PRUNE_ABOVE then Pruned(grown, window, now)
                else grown;
    if key in kept then kept[key := Entry(e.start, e.n + 1)] else kept
  }

  class RateLimiter {
    var hits: Table

    constructor ()
      ensures hits == map[]
    {
      hits := map[];
    }

    method Allow(key: string, limit: int, window: int, now: int) returns (ok: bool)
      modifies this
      ensures ok <==> Answer(old(hits), key, limit, window, now)
      ensures hits == After(old(hits), key, window, now, true)
    {
      var e := Entry(now, 0);
      if key !in hits || now - hits[key].start >= window {
        hits := hits[key := e];
        if |hits| > PRUNE_ABOVE {
          Prune(now, window);
        }
      } else {
        e := hits[key];
      }
      e := Entry(e.start, e.n + 1);
      if key in hits {
        hits := hits[key := e];
      }
      return e.n <= limit;
    }

    method Prune(now: int, window: int)
      modifies this
      ensures hits == Pruned(old(hits), window, now)
    {
      var rest := hits.Keys;
      while rest != {}
        invariant rest <= hits.Keys <= old(hits).Keys
        invariant forall k <- hits :: hits[k] == old(hits)[k]
        invariant forall k <- old(hits) :: k in rest || (k in hits <==> !Expired(old(hits)[k], window, now))
        decreases rest
      {
        var k :| k in rest;
        if now - hits[k].start >= window {
          hits := hits - {k};
        }
        rest := rest - {k};
      }
    }
  }

  // ---- traces ----

  /** One limiter serves calls of different windows; a key keeps to one. */
  datatype Call = Call(key: string, limit: int, window: int, now: int)

  /** The allowed calls so far. */
  datatype Hit = Hit(key: string, at: int)

  datatype State = State(table: Table, allowed: seq<Hit>)

  function Step(s: State, c: Call, prune: bool): State {
    State(After(s.table, c.key, c.window, c.now, prune),
          if Answer(s.table, c.key, c.limit, c.window, c.now) then s.allowed + [Hit(c.key, c.now)] else s.allowed)
  }

  function Run(cs: seq<Call>, prune: bool): State {
    if cs == [] then State(map[], []) else Step(Run(cs[..|cs| - 1], prune), cs[|cs| - 1], prune)
  }

  predicate Monotone(cs: seq<Call>) {
    forall i, j :: 0 <= i < j < |cs| ==> cs[i].now <= cs[j].now
  }

  /** Allowed calls of a key in the half-open interval [lo, hi). */
  function Count(hits: seq<Hit>, key: string, lo: int, hi: int): nat {
    if hits == [] then 0 else
      var h := hits[|hits| - 1];
      Count(hits[..|hits| - 1], key, lo, hi) + if h.key == key && lo <= h.at < hi then 1 else 0
  }

  /** Allowed calls in the window length from `x` on. */
  function InWindow(hits: seq<Hit>, key: string, x: int, window: int): nat {
    Count(hits, key, x, x + window)
  }

  /** Allowed calls strictly after `x` and before `hi`. */
  function Later(hits: seq<Hit>, key: string, x: int, hi: int): nat {
    Count(hits, key, x + 1, hi)
  }

  lemma CountOneMore(hits: seq<Hit>, h: Hit, key: string, lo: int, hi: int)
    ensures Count(hits + [h], key, lo, hi)
            == Count(hits, key, lo, hi) + if h.key == key && lo <= h.at < hi then 1 else 0
  {
    assert (hits + [h])[..|hits|] == hits;
  }

  lemma {:induction false} CountSplit(hits: seq<Hit>, key: string, lo: int, mid: int, hi: int)
    requires lo <= mid <= hi
    ensures Count(hits, key, lo, hi) == Count(hits, key, lo, mid) + Count(hits, key, mid, hi)
  {
    if hits != [] {
      CountSplit(hits[..|hits| - 1], key, lo, mid, hi);
    }
  }

  lemma {:induction false} CountWithin(hits: seq<Hit>, key: string, lo: int, hi: int, lo': int, hi': int)
    requires lo' <= lo && hi <= hi'
    ensures Count(hits, key, lo, hi) <= Count(hits, key, lo', hi')
  {
    if hits != [] {
      CountWithin(hits[..|hits| - 1], key, lo, hi, lo', hi');
    }
  }

  lemma {:induction false} CountNone(hits: seq<Hit>, key: string, lo: int, hi: int)
    requires forall h <- hits :: h.key == key ==> h.at < lo
    ensures Count(hits, key, lo, hi) == 0
  {
    if hits != [] {
      assert hits[|hits| - 1] in hits;
      CountNone(hits[..|hits| - 1], key, lo, hi);
    }
  }

  // ---- what one window length can see ----

  /** What the entry of a key says about its allowed calls: at most the limit since its window opened and
      one less after that first instant; one less than the limit in the window length before; less than
      twice the limit in any. */
  ghost predicate KeyInv(s: State, key: string, limit: nat, window: int, now: int) {
    && (forall h <- s.allowed :: h.key == key ==> key in s.table && h.at <= now)
    && (key in s.table ==>
          var e := s.table[key];
          && e.start <= now && 1 <= e.n
          && (forall h <- s.allowed :: h.key == key ==> h.at < e.start + window)
          && SinceOpening(s.allowed, key, limit, e)
          && Count(s.allowed, key, e.start - window + 1, e.start) <= limit - 1)
    && (forall x: int :: InWindow(s.allowed, key, x, window) <= 2 * limit - 1)
  }

  ghost predicate SinceOpening(hits: seq<Hit>, key: string, limit: nat, e: Entry) {
    && (forall hi: int :: Count(hits, key, e.start, hi) <= e.n && Count(hits, key, e.start, hi) <= limit)
    && (forall hi: int :: Later(hits, key, e.start, hi) <= e.n - 1 && Later(hits, key, e.start, hi) <= limit - 1)
  }

  lemma OtherKey(s: State, c: Call, key: string, limit: nat, window: int, now: int)
    requires KeyInv(s, key, limit, window, now) && c.key != key && now <= c.now
    ensures KeyInv(Step(s, c, false), key, limit, window, c.now)
  {
    var s' := Step(s, c, false);
    forall lo: int, hi: int
      ensures Count(s'.allowed, key, lo, hi) == Count(s.allowed, key, lo, hi)
    {
      CountOneMore(s.allowed, Hit(c.key, c.now), key, lo, hi);
    }
    forall x: int, hi: int
      ensures Later(s'.allowed, key, x, hi) == Later(s.allowed, key, x, hi)
    {
      assert Count(s'.allowed, key, x + 1, hi) == Count(s.allowed, key, x + 1, hi);
    }
    forall x: int
      ensures InWindow(s'.allowed, key, x, window) <= 2 * limit - 1
    {
      assert InWindow(s.allowed, key, x, window) <= 2 * limit - 1;
    }
  }

  /** The counts after a call of the key itself. */
  lemma CountsAfter(s: State, c: Call, lo: int, hi: int)
    ensures var s' := Step(s, c, false);
            Count(s'.allowed, c.key, lo, hi)
            == Count(s.allowed, c.key, lo, hi)
               + if Answer(s.table, c.key, c.limit, c.window, c.now) && lo <= c.now < hi then 1 else 0
  {
    CountOneMore(s.allowed, Hit(c.key, c.now), c.key, lo, hi);
  }

  /** Before a window opens at `c.now`, the last window length saw less than the limit, and nothing is
      later: the call that opened the window before lies too far back. */
  lemma BeforeOpening(s: State, c: Call, limit: nat, window: int, now: int)
    requires c.window == window > 0 && limit >= 1 && KeyInv(s, c.key, limit, window, now) && now <= c.now
    requires Opens(s.table, c.key, c.window, c.now)
    ensures forall h <- s.allowed :: h.key == c.key ==> h.at < c.now
    ensures Count(s.allowed, c.key, c.now - window + 1, c.now) <= limit - 1
  {
    if c.key in s.table {
      var e := s.table[c.key];
      assert Later(s.allowed, c.key, e.start, c.now) <= limit - 1;
      CountWithin(s.allowed, c.key, c.now - window + 1, c.now, e.start + 1, c.now);
    } else {
      CountNone(s.allowed, c.key, c.now - window + 1, c.now);
    }
  }

  lemma OpeningEntry(s: State, c: Call, limit: nat, window: int, now: int)
    requires c.window == window > 0 && 1 <= limit && c.limit <= limit
    requires KeyInv(s, c.key, limit, window, now) && now <= c.now
    requires Opens(s.table, c.key, c.window, c.now)
    ensures var s' := Step(s, c, false);
            && s'.table[c.key] == Entry(c.now, 1)
            && SinceOpening(s'.allowed, c.key, limit, Entry(c.now, 1))
            && Count(s'.allowed, c.key, c.now - window + 1, c.now) <= limit - 1
  {
    BeforeOpening(s, c, limit, window, now);
    var s' := Step(s, c, false);
    forall hi: int
      ensures Count(s'.allowed, c.key, c.now, hi) <= 1
    {
      CountsAfter(s, c, c.now, hi);
      CountNone(s.allowed, c.key, c.now, hi);
    }
    forall hi: int
      ensures Later(s'.allowed, c.key, c.now, hi) == 0
    {
      CountsAfter(s, c, c.now + 1, hi);
      CountNone(s.allowed, c.key, c.now + 1, hi);
    }
    CountsAfter(s, c, c.now - window + 1, c.now);
  }

  lemma OpeningWindows(s: State, c: Call, limit: nat, window: int, now: int, x: int)
    requires c.window == window > 0 && 1 <= limit && c.limit <= limit
    requires KeyInv(s, c.key, limit, window, now) && now <= c.now
    requires Opens(s.table, c.key, c.window, c.now)
    ensures InWindow(Step(s, c, false).allowed, c.key, x, window) <= 2 * limit - 1
  {
    BeforeOpening(s, c, limit, window, now);
    CountsAfter(s, c, x, x + window);
    assert InWindow(s.allowed, c.key, x, window) <= 2 * limit - 1;
    if x <= c.now < x + window {
      CountSplit(s.allowed, c.key, x, c.now, x + window);
      CountNone(s.allowed, c.key, c.now, x + window);
      CountWithin(s.allowed, c.key, x, c.now, c.now - window + 1, c.now);
    }
  }

  lemma InsideEntry(s: State, c: Call, limit: nat, window: int, now: int)
    requires c.window == window > 0 && 1 <= limit && c.limit <= limit
    requires KeyInv(s, c.key, limit, window, now) && now <= c.now
    requires !Opens(s.table, c.key, c.window, c.now)
    ensures var s', e := Step(s, c, false), s.table[c.key];
            && s'.table[c.key] == Entry(e.start, e.n + 1)
            && SinceOpening(s'.allowed, c.key, limit, Entry(e.start, e.n + 1))
            && Count(s'.allowed, c.key, e.start - window + 1, e.start) <= limit - 1
  {
    var s', e := Step(s, c, false), s.table[c.key];
    forall hi: int
      ensures Count(s'.allowed, c.key, e.start, hi) <= e.n + 1 && Count(s'.allowed, c.key, e.start, hi) <= limit
    {
      CountsAfter(s, c, e.start, hi);
      assert Count(s.allowed, c.key, e.start, hi) <= e.n;
    }
    forall hi: int
      ensures Later(s'.allowed, c.key, e.start, hi) <= e.n && Later(s'.allowed, c.key, e.start, hi) <= limit - 1
    {
      CountsAfter(s, c, e.start + 1, hi);
      assert Later(s.allowed, c.key, e.start, hi) <= e.n - 1;
    }
    CountsAfter(s, c, e.start - window + 1, e.start);
  }

  lemma InsideWindows(s: State, c: Call, limit: nat, window: int, now: int, x: int)
    requires c.window == window > 0 && 1 <= limit && c.limit <= limit
    requires KeyInv(s, c.key, limit, window, now) && now <= c.now
    requires !Opens(s.table, c.key, c.window, c.now)
    ensures InWindow(Step(s, c, false).allowed, c.key, x, window) <= 2 * limit - 1
  {
    var e := s.table[c.key];
    CountsAfter(s, c, x, x + window);
    assert InWindow(s.allowed, c.key, x, window) <= 2 * limit - 1;
    if x <= c.now < x + window && Answer(s.table, c.key, c.limit, c.window, c.now) {
      assert Count(s.allowed, c.key, e.start, x + window) <= e.n;
      if x <= e.start {
        CountSplit(s.allowed, c.key, x, e.start, x + window);
        CountWithin(s.allowed, c.key, x, e.start, e.start - window + 1, e.start);
      } else {
        CountWithin(s.allowed, c.key, x, x + window, e.start, x + window);
      }
    }
  }

  lemma OwnKey(s: State, c: Call, limit: nat, window: int, now: int)
    requires c.window == window > 0 && 1 <= limit && c.limit <= limit
    requires KeyInv(s, c.key, limit, window, now) && now <= c.now
    ensures KeyInv(Step(s, c, false), c.key, limit, window, c.now)
  {
    if Opens(s.table, c.key, c.window, c.now) {
      BeforeOpening(s, c, limit, window, now);
      OpeningEntry(s, c, limit, window, now);
      forall x: int
        ensures InWindow(Step(s, c, false).allowed, c.key, x, window) <= 2 * limit - 1
      {
        OpeningWindows(s, c, limit, window, now, x);
      }
    } else {
      InsideEntry(s, c, limit, window, now);
      forall x: int
        ensures InWindow(Step(s, c, false).allowed, c.key, x, window) <= 2 * limit - 1
      {
        InsideWindows(s, c, limit, window, now, x);
      }
    }
  }

  predicate LimitedTo(cs: seq<Call>, key: string, limit: nat) {
    forall c <- cs :: c.key == key ==> c.limit <= limit
  }

  predicate OwnWindow(cs: seq<Call>, key: string, window: int) {
    forall c <- cs :: c.key == key ==> c.window == window
  }

  lemma {:induction false} RunKeyInv(cs: seq<Call>, key: string, limit: nat, window: int, now: int)
    requires window > 0 && limit >= 1 && Monotone(cs) && LimitedTo(cs, key, limit) && OwnWindow(cs, key, window)
    requires cs != [] ==> now == cs[|cs| - 1].now
    ensures KeyInv(Run(cs, false), key, limit, window, now)
  {
    if cs != [] {
      var init, c := cs[..|cs| - 1], cs[|cs| - 1];
      assert c in cs && forall d <- init :: d in cs;
      var before := if init == [] then c.now else init[|init| - 1].now;
      RunKeyInv(init, key, limit, window, before);
      if c.key == key {
        OwnKey(Run(init, false), c, limit, window, before);
      } else {
        OtherKey(Run(init, false), c, key, limit, window, before);
      }
    }
  }

  // ---- when pruning does not matter ----

  /** For a key of window `window`: the pruned table has its entry, or the entry has expired. */
  predicate Thinner(p: Table, u: Table, key: string, window: int, now: int) {
    && (key in p ==> key in u && p[key] == u[key])
    && (key in u ==> key in p || Expired(u[key], window, now))
  }

  /** A call that cannot throw away a running entry of that window: it opens no window in a large table,
      or its own window is no shorter. */
  predicate Spares(t: Table, c: Call, window: int) {
    || c.window >= window
    || !Opens(t, c.key, c.window, c.now)
    || |t[c.key := Entry(c.now, 0)]| <= PRUNE_ABOVE
  }

  predicate Spared(cs: seq<Call>, window: int) {
    cs != [] ==> Spared(cs[..|cs| - 1], window) && Spares(Run(cs[..|cs| - 1], true).table, cs[|cs| - 1], window)
  }

  /** Traces in which no call has a shorter window are spared, whatever the table size ... */
  lemma {:induction false} WideWindowsSpare(cs: seq<Call>, window: int)
    requires forall c <- cs :: c.window >= window
    ensures Spared(cs, window)
  {
    if cs != [] {
      assert cs[|cs| - 1] in cs && forall c <- cs[..|cs| - 1] :: c in cs;
      WideWindowsSpare(cs[..|cs| - 1], window);
    }
  }

  lemma SparedOther(p: Table, u: Table, c: Call, key: string, window: int, now: int)
    requires window > 0 && Thinner(p, u, key, window, now) && now <= c.now && Spares(p, c, window) && c.key != key
    ensures Thinner(After(p, c.key, c.window, c.now, true), After(u, c.key, c.window, c.now, false), key, window, c.now)
  {
  }

  lemma SparedOwn(p: Table, u: Table, c: Call, window: int, now: int)
    requires c.window == window > 0 && Thinner(p, u, c.key, window, now) && now <= c.now
    ensures Answer(p, c.key, c.limit, window, c.now) == Answer(u, c.key, c.limit, window, c.now)
    ensures Thinner(After(p, c.key, window, c.now, true), After(u, c.key, window, c.now, false), c.key, window, c.now)
  {
    assert Current(p, c.key, window, c.now) == Current(u, c.key, window, c.now);
  }

  lemma CountOfStep(s: State, c: Call, prune: bool, key: string, lo: int, hi: int)
    ensures Count(Step(s, c, prune).allowed, key, lo, hi)
            == Count(s.allowed, key, lo, hi)
               + if c.key == key && Answer(s.table, key, c.limit, c.window, c.now) && lo <= c.now < hi then 1 else 0
  {
    CountOneMore(s.allowed, Hit(c.key, c.now), key, lo, hi);
  }

  lemma {:induction false} RunThinner(cs: seq<Call>, key: string, window: int, now: int)
    requires window > 0 && Monotone(cs) && OwnWindow(cs, key, window) && Spared(cs, window)
    requires cs != [] ==> now == cs[|cs| - 1].now
    ensures Thinner(Run(cs, true).table, Run(cs, false).table, key, window, now)
    ensures forall lo: int, hi: int ::
              Count(Run(cs, true).allowed, key, lo, hi) == Count(Run(cs, false).allowed, key, lo, hi)
  {
    if cs != [] {
      var init, c := cs[..|cs| - 1], cs[|cs| - 1];
      assert c in cs && forall d <- init :: d in cs;
      var before := if init == [] then c.now else init[|init| - 1].now;
      RunThinner(init, key, window, before);
      var p, u := Run(init, true), Run(init, false);
      if c.key == key {
        SparedOwn(p.table, u.table, c, window, before);
      } else {
        SparedOther(p.table, u.table, c, key, window, before);
      }
      forall lo: int, hi: int
        ensures Count(Run(cs, true).allowed, key, lo, hi) == Count(Run(cs, false).allowed, key, lo, hi)
      {
        CountOfStep(p, c, true, key, lo, hi);
        CountOfStep(u, c, false, key, lo, hi);
      }
    }
  }

  /** For a key of one window, in any trace whose calls spare that window and a clock that does not run
      backward: the key is answered as if nothing was ever pruned. */
  lemma PruningIsInvisible(cs: seq<Call>, next: Call)
    requires next.window > 0 && Monotone(cs + [next]) && OwnWindow(cs, next.key, next.window) && Spared(cs, next.window)
    ensures Answer(Run(cs, true).table, next.key, next.limit, next.window, next.now)
            == Answer(Run(cs, false).table, next.key, next.limit, next.window, next.now)
    ensures forall lo: int, hi: int ::
              Count(Run(cs, true).allowed, next.key, lo, hi) == Count(Run(cs, false).allowed, next.key, lo, hi)
  {
    assert Monotone(cs) by {
      assert forall i :: 0 <= i < |cs| ==> cs[i] == (cs + [next])[i];
    }
    var before := if cs == [] then next.now else cs[|cs| - 1].now;
    RunThinner(cs, next.key, next.window, before);
    assert before <= next.now by {
      assert cs != [] ==> (cs + [next])[|cs| - 1] == cs[|cs| - 1] && (cs + [next])[|cs|] == next;
    }
    SparedOwn(Run(cs, true).table, Run(cs, false).table, next, next.window, before);
  }

  /** In the same traces any half-open interval of the key's window length sees less than twice its limit
      of allowed calls. */
  lemma LessThanTwiceTheLimit(cs: seq<Call>, key: string, limit: nat, window: int, x: int)
    requires window > 0 && Monotone(cs) && LimitedTo(cs, key, limit) && OwnWindow(cs, key, window) && Spared(cs, window)
    ensures InWindow(Run(cs, true).allowed, key, x, window) <= if limit == 0 then 0 else 2 * limit - 1
  {
    SameInWindow(cs, key, window, x);
    UnprunedBound(cs, key, limit, window, x);
  }

  // ---- who is refused ----

  /** How many calls of the key, allowed or not, the trace has from `lo` on. */
  function CallsSince(cs: seq<Call>, key: string, lo: int): nat {
    if cs == [] then 0 else
      var c := cs[|cs| - 1];
      CallsSince(cs[..|cs| - 1], key, lo) + if c.key == key && c.now >= lo then 1 else 0
  }

  lemma {:induction false} MoreCallsSince(cs: seq<Call>, key: string, lo: int, lo': int)
    requires lo' <= lo
    ensures CallsSince(cs, key, lo) <= CallsSince(cs, key, lo')
  {
    if cs != [] {
      MoreCallsSince(cs[..|cs| - 1], key, lo, lo');
    }
  }

  /** An entry counts calls made since its window opened, and no others. */
  lemma {:induction false} EntryCounts(cs: seq<Call>, key: string, window: int, now: int)
    requires window > 0 && Monotone(cs) && OwnWindow(cs, key, window)
    requires cs != [] ==> now == cs[|cs| - 1].now
    ensures var t := Run(cs, false).table;
            key in t ==> t[key].start <= now && t[key].n <= CallsSince(cs, key, t[key].start)
  {
    if cs != [] {
      var init, c := cs[..|cs| - 1], cs[|cs| - 1];
      assert c in cs && forall d <- init :: d in cs;
      EntryCounts(init, key, window, if init == [] then c.now else init[|init| - 1].now);
    }
  }

  /** In the same traces a call is refused only if its key has been called as often as its limit within the
      window length before it. */
  lemma RefusedOnlyWhenBusy(cs: seq<Call>, next: Call)
    requires next.window > 0 && Monotone(cs + [next]) && OwnWindow(cs, next.key, next.window) && Spared(cs, next.window)
    requires next.limit >= 1 && !Answer(Run(cs, true).table, next.key, next.limit, next.window, next.now)
    ensures CallsSince(cs, next.key, next.now - next.window + 1) >= next.limit
  {
    PruningIsInvisible(cs, next);
    assert Monotone(cs) by {
      assert forall i :: 0 <= i < |cs| ==> cs[i] == (cs + [next])[i];
    }
    EntryCounts(cs, next.key, next.window, if cs == [] then next.now else cs[|cs| - 1].now);
    var e := Run(cs, false).table[next.key];
    MoreCallsSince(cs, next.key, e.start, next.now - next.window + 1);
  }

  lemma SameInWindow(cs: seq<Call>, key: string, window: int, x: int)
    requires window > 0 && Monotone(cs) && OwnWindow(cs, key, window) && Spared(cs, window)
    ensures InWindow(Run(cs, true).allowed, key, x, window) == InWindow(Run(cs, false).allowed, key, x, window)
  {
    RunThinner(cs, key, window, if cs == [] then 0 else cs[|cs| - 1].now);
  }

  lemma InvBounds(s: State, key: string, limit: nat, window: int, now: int, x: int)
    requires KeyInv(s, key, limit, window, now)
    ensures InWindow(s.allowed, key, x, window) <= 2 * limit - 1
  {
  }

  lemma UnprunedBound(cs: seq<Call>, key: string, limit: nat, window: int, x: int)
    requires window > 0 && Monotone(cs) && LimitedTo(cs, key, limit) && OwnWindow(cs, key, window)
    ensures InWindow(Run(cs, false).allowed, key, x, window) <= if limit == 0 then 0 else 2 * limit - 1
  {
    var now := if cs == [] then 0 else cs[|cs| - 1].now;
    if limit == 0 {
      NeverAllowed(cs, key, window);
      CountNone(Run(cs, false).allowed, key, x, x + window);
    } else {
      RunKeyInv(cs, key, limit, window, now);
      InvBounds(Run(cs, false), key, limit, window, now, x);
    }
  }

  /** Without a positive limit no call is allowed at all. */
  lemma {:induction false} NeverAllowed(cs: seq<Call>, key: string, window: int)
    requires window > 0 && Monotone(cs) && LimitedTo(cs, key, 0) && OwnWindow(cs, key, window)
    ensures forall h <- Run(cs, false).allowed :: h.key != key
  {
    if cs != [] {
      var init, c := cs[..|cs| - 1], cs[|cs| - 1];
      assert c in cs && forall d <- init :: d in cs;
      NeverAllowed(init, key, window);
      RunKeyInv(init, key, 1, window, if init == [] then 0 else init[|init| - 1].now);
    }
  }

  /** Exactly when a call of another key changes, by pruning, what a key is told at that or a later time:
      it opens a window in a table above 10000 entries, the key's entry has expired under the caller's
      window and not under its own, and a fresh start and the running count fall on different sides of
      the limit. */
  lemma PruneChangesExactly(t: Table, c: Call, key: string, limit: int, window: int, later: int)
    requires c.key != key && c.now <= later
    ensures Answer(After(t, c.key, c.window, c.now, true), key, limit, window, later)
            != Answer(After(t, c.key, c.window, c.now, false), key, limit, window, later)
            <==> && Opens(t, c.key, c.window, c.now) && |t[c.key := Entry(c.now, 0)]| > PRUNE_ABOVE
                 && key in t && Expired(t[key], c.window, c.now) && !Expired(t[key], window, later)
                 && (1 <= limit) != (t[key].n + 1 <= limit)
  {
    var grown := t[c.key := Entry(c.now, 0)];
    assert key in Pruned(grown, c.window, c.now) <==> key in t && !Expired(t[key], c.window, c.now);
  }

  // ---- the bound is exact ----

  /** `k` calls of one key at one instant. */
  function Burst(k: nat, key: string, limit: int, window: int, now: int): (cs: seq<Call>)
    ensures |cs| == k && forall c <- cs :: c == Call(key, limit, window, now)
  {
    seq(k, _ => Call(key, limit, window, now))
  }

  function Hits(k: nat, key: string, at: int): (hits: seq<Hit>)
    ensures |hits| == k
  {
    seq(k, _ => Hit(key, at))
  }

  lemma RunOneMore(cs: seq<Call>, c: Call, prune: bool)
    ensures Run(cs + [c], prune) == Step(Run(cs, prune), c, prune)
  {
    assert (cs + [c])[..|cs|] == cs;
  }

  predicate Has(t: Table, key: string, e: Entry) {
    key in t && t[key] == e
  }

  /** A call in a running window, within the limit. */
  lemma StepInside(s: State, c: Call, e: Entry)
    requires Has(s.table, c.key, e) && !Expired(e, c.window, c.now) && e.n + 1 <= c.limit
    ensures Has(Step(s, c, true).table, c.key, Entry(e.start, e.n + 1))
    ensures Step(s, c, true).allowed == s.allowed + [Hit(c.key, c.now)]
  {
  }

  /** A call that opens a window; however large the table, its own entry is not pruned. */
  lemma StepOpening(s: State, c: Call)
    requires Opens(s.table, c.key, c.window, c.now) && 1 <= c.limit && c.window > 0
    ensures Has(Step(s, c, true).table, c.key, Entry(c.now, 1))
    ensures Step(s, c, true).allowed == s.allowed + [Hit(c.key, c.now)]
  {
  }

  lemma BurstOneMore(cs: seq<Call>, k: nat, key: string, limit: int, window: int, now: int)
    requires k >= 1
    ensures cs + Burst(k, key, limit, window, now)
            == (cs + Burst(k - 1, key, limit, window, now)) + [Call(key, limit, window, now)]
  {
  }

  lemma HitsOneMore(hits: seq<Hit>, k: nat, key: string, at: int)
    requires k >= 1
    ensures hits + Hits(k, key, at) == (hits + Hits(k - 1, key, at)) + [Hit(key, at)]
  {
  }

  /** The same call `k` times over. */
  function Repeated(s: State, c: Call, k: nat): State {
    if k == 0 then s else Step(Repeated(s, c, k - 1), c, true)
  }

  lemma NoBurst(cs: seq<Call>, c: Call)
    ensures cs + Burst(0, c.key, c.limit, c.window, c.now) == cs
  {
  }

  lemma {:induction false} RunBurst(cs: seq<Call>, k: nat, c: Call)
    ensures Run(cs + Burst(k, c.key, c.limit, c.window, c.now), true) == Repeated(Run(cs, true), c, k)
  {
    if k == 0 {
      NoBurst(cs, c);
    } else {
      RunBurst(cs, k - 1, c);
      BurstOneMore(cs, k, c.key, c.limit, c.window, c.now);
      RunOneMore(cs + Burst(k - 1, c.key, c.limit, c.window, c.now), c, true);
    }
  }

  /** Calls in a running window are counted on and allowed up to the limit. */
  lemma {:induction false} RepeatedInside(s: State, c: Call, k: nat, e: Entry)
    requires Has(s.table, c.key, e) && !Expired(e, c.window, c.now) && e.n + k <= c.limit
    ensures Has(Repeated(s, c, k).table, c.key, Entry(e.start, e.n + k))
    ensures Repeated(s, c, k).allowed == s.allowed + Hits(k, c.key, c.now)
  {
    if k == 0 {
      assert s.allowed + Hits(0, c.key, c.now) == s.allowed;
    } else {
      RepeatedInside(s, c, k - 1, e);
      StepInside(Repeated(s, c, k - 1), c, Entry(e.start, e.n + k - 1));
      HitsOneMore(s.allowed, k, c.key, c.now);
    }
  }

  /** A window that opens with such calls. */
  lemma {:induction false} RepeatedOpens(s: State, c: Call, k: nat)
    requires 1 <= k <= c.limit && c.window > 0 && Opens(s.table, c.key, c.window, c.now)
    ensures Has(Repeated(s, c, k).table, c.key, Entry(c.now, k))
    ensures Repeated(s, c, k).allowed == s.allowed + Hits(k, c.key, c.now)
  {
    if k == 1 {
      StepOpening(s, c);
      assert Repeated(s, c, 0) == s;
      assert Hits(1, c.key, c.now) == [Hit(c.key, c.now)];
    } else {
      RepeatedOpens(s, c, k - 1);
      StepInside(Repeated(s, c, k - 1), c, Entry(c.now, k - 1));
      HitsOneMore(s.allowed, k, c.key, c.now);
    }
  }

  lemma {:induction false} CountHits(hits: seq<Hit>, k: nat, key: string, at: int, lo: int, hi: int)
    ensures Count(hits + Hits(k, key, at), key, lo, hi) == Count(hits, key, lo, hi) + if lo <= at < hi then k else 0
  {
    if k == 0 {
      assert hits + Hits(0, key, at) == hits;
    } else {
      CountHits(hits, k - 1, key, at, lo, hi);
      HitsOneMore(hits, k, key, at);
      CountOneMore(hits + Hits(k - 1, key, at), Hit(key, at), key, lo, hi);
    }
  }

  lemma OpeningBurst(cs: seq<Call>, k: nat, c: Call)
    requires 1 <= k <= c.limit && c.window > 0 && Opens(Run(cs, true).table, c.key, c.window, c.now)
    ensures var s, s' := Run(cs, true), Run(cs + Burst(k, c.key, c.limit, c.window, c.now), true);
            Has(s'.table, c.key, Entry(c.now, k)) && s'.allowed == s.allowed + Hits(k, c.key, c.now)
  {
    RunBurst(cs, k, c);
    RepeatedOpens(Run(cs, true), c, k);
  }

  lemma InnerBurst(cs: seq<Call>, k: nat, c: Call, e: Entry)
    requires Has(Run(cs, true).table, c.key, e) && !Expired(e, c.window, c.now) && e.n + k <= c.limit
    ensures var s, s' := Run(cs, true), Run(cs + Burst(k, c.key, c.limit, c.window, c.now), true);
            Has(s'.table, c.key, Entry(e.start, e.n + k)) && s'.allowed == s.allowed + Hits(k, c.key, c.now)
  {
    RunBurst(cs, k, c);
    RepeatedInside(Run(cs, true), c, k, e);
  }

  lemma FirstBurst(k: nat, c: Call)
    requires 1 <= k <= c.limit && c.window > 0
    ensures var s := Run(Burst(k, c.key, c.limit, c.window, c.now), true);
            Has(s.table, c.key, Entry(c.now, k)) && s.allowed == Hits(k, c.key, c.now)
  {
    OpeningBurst([], k, c);
    assert [] + Burst(k, c.key, c.limit, c.window, c.now) == Burst(k, c.key, c.limit, c.window, c.now);
    assert [] + Hits(k, c.key, c.now) == Hits(k, c.key, c.now);
  }

  /** One call, a burst at the end of its window, a full burst at the start of the next. */
  function TwoBursts(key: string, limit: nat, window: int): seq<Call>
    requires limit >= 1
  {
    Burst(1, key, limit, window, 0) + Burst(limit - 1, key, limit, window, window - 1)
    + Burst(limit, key, limit, window, window)
  }

  lemma FirstWindow(key: string, limit: nat, window: int)
    requires limit >= 1 && window >= 2
    ensures var s := Run(Burst(1, key, limit, window, 0) + Burst(limit - 1, key, limit, window, window - 1), true);
            && Has(s.table, key, Entry(0, limit))
            && s.allowed == Hits(1, key, 0) + Hits(limit - 1, key, window - 1)
  {
    FirstBurst(1, Call(key, limit, window, 0));
    InnerBurst(Burst(1, key, limit, window, 0), limit - 1, Call(key, limit, window, window - 1), Entry(0, 1));
  }

  lemma TwoBurstsAllowed(key: string, limit: nat, window: int)
    requires limit >= 1 && window >= 2
    ensures Run(TwoBursts(key, limit, window), true).allowed
            == Hits(1, key, 0) + Hits(limit - 1, key, window - 1) + Hits(limit, key, window)
  {
    FirstWindow(key, limit, window);
    OpeningBurst(Burst(1, key, limit, window, 0) + Burst(limit - 1, key, limit, window, window - 1), limit,
                 Call(key, limit, window, window));
  }

  lemma TwoBurstsCounted(key: string, limit: nat, window: int)
    requires limit >= 1 && window >= 2
    ensures InWindow(Hits(1, key, 0) + Hits(limit - 1, key, window - 1) + Hits(limit, key, window),
                     key, window - 1, window) == 2 * limit - 1
  {
    var h1, h2 := Hits(1, key, 0), Hits(limit - 1, key, window - 1);
    CountHits([], 1, key, 0, window - 1, window - 1 + window);
    assert [] + h1 == h1;
    CountHits(h1, limit - 1, key, window - 1, window - 1, window - 1 + window);
    CountHits(h1 + h2, limit, key, window, window - 1, window - 1 + window);
  }

  /** For every limit and every window of two instants or more, some trace of the one key reaches the
      bound. */
  lemma TwiceLessOneIsReached(key: string, limit: nat, window: int)
    requires limit >= 1 && window >= 2
    ensures var cs := TwoBursts(key, limit, window);
            && Monotone(cs) && LimitedTo(cs, key, limit) && OwnWindow(cs, key, window) && Spared(cs, window)
            && InWindow(Run(cs, true).allowed, key, window - 1, window) == 2 * limit - 1
  {
    TwoBurstsAllowed(key, limit, window);
    TwoBurstsCounted(key, limit, window);
    WideWindowsSpare(TwoBursts(key, limit, window), window);
  }

  // ---- a flood of shorter windows ----

  /** Other keys. */
  function Name(key: string, i: nat): string { key + seq(i + 1, _ => 'x') }

  lemma NamesDiffer(key: string, i: nat, j: nat)
    ensures Name(key, i) != key
    ensures i != j ==> Name(key, i) != Name(key, j)
  {
    assert |Name(key, i)| == |key| + i + 1 && |Name(key, j)| == |key| + j + 1;
  }

  /** The first calls of `m` other keys at time `short`, under windows of that length. */
  function Flood(key: string, m: nat, short: int): (cs: seq<Call>)
    ensures |cs| == m
  {
    seq(m, i requires 0 <= i < m => Call(Name(key, i), 1, short, short))
  }

  lemma FloodOneMore(cs: seq<Call>, key: string, m: nat, short: int)
    requires m > 0
    ensures cs + Flood(key, m, short) == (cs + Flood(key, m - 1, short)) + [Call(Name(key, m - 1), 1, short, short)]
  {
  }

  /** The key's own entry, from time 0, and the entries of `m` flooding keys. */
  predicate Flooded(t: Table, key: string, m: nat) {
    && |t| == m + 1 && key in t && t[key].start == 0
    && forall k <- t :: k == key || exists i: nat :: i < m && k == Name(key, i)
  }

  lemma FloodStep(s: State, key: string, m: nat, short: int)
    requires Flooded(s.table, key, m) && m + 2 <= PRUNE_ABOVE
    ensures Flooded(Step(s, Call(Name(key, m), 1, short, short), true).table, key, m + 1)
  {
    var c := Call(Name(key, m), 1, short, short);
    NewName(s.table, key, m);
    var t := Step(s, c, true).table;
    assert t == s.table[c.key := Entry(short, 1)];
    forall k | k in t
      ensures k == key || exists i: nat :: i < m + 1 && k == Name(key, i)
    {
      if k != key && k != c.key {
        var i: nat :| i < m && k == Name(key, i);
      }
    }
  }

  lemma NewName(t: Table, key: string, m: nat)
    requires Flooded(t, key, m)
    ensures Name(key, m) !in t && Name(key, m) != key
  {
    forall i: nat
      ensures Name(key, i) != key && (i < m ==> Name(key, m) != Name(key, i))
    {
      NamesDiffer(key, m, i);
      NamesDiffer(key, i, m);
    }
  }

  lemma {:induction false} FloodFills(cs: seq<Call>, key: string, m: nat, short: int)
    requires Flooded(Run(cs, true).table, key, 0) && m + 1 <= PRUNE_ABOVE
    ensures Flooded(Run(cs + Flood(key, m, short), true).table, key, m)
  {
    if m == 0 {
      assert cs + Flood(key, 0, short) == cs;
    } else {
      FloodFills(cs, key, m - 1, short);
      FloodOneMore(cs, key, m, short);
      RunOneMore(cs + Flood(key, m - 1, short), Call(Name(key, m - 1), 1, short, short), true);
      FloodStep(Run(cs + Flood(key, m - 1, short), true), key, m - 1, short);
    }
  }

  /** The flooding key that fills the table throws the entry away. */
  lemma FloodForgets(cs: seq<Call>, key: string, short: int)
    requires Flooded(Run(cs, true).table, key, 0) && short > 0
    ensures key !in Run(cs + Flood(key, PRUNE_ABOVE, short), true).table
  {
    var m := PRUNE_ABOVE - 1;
    FloodFills(cs, key, m, short);
    FloodOneMore(cs, key, PRUNE_ABOVE, short);
    RunOneMore(cs + Flood(key, m, short), Call(Name(key, m), 1, short, short), true);
    LastOfFlood(Run(cs + Flood(key, m, short), true), key, m, short);
  }

  lemma LastOfFlood(s: State, key: string, m: nat, short: int)
    requires Flooded(s.table, key, m) && m + 1 == PRUNE_ABOVE && short > 0
    ensures key !in Step(s, Call(Name(key, m), 1, short, short), true).table
  {
    NewName(s.table, key, m);
    assert |s.table[Name(key, m) := Entry(short, 0)]| == |s.table| + 1;
  }

  lemma {:induction false} FloodCounts(cs: seq<Call>, key: string, m: nat, short: int, lo: int, hi: int)
    ensures Count(Run(cs + Flood(key, m, short), true).allowed, key, lo, hi)
            == Count(Run(cs, true).allowed, key, lo, hi)
  {
    if m == 0 {
      assert cs + Flood(key, 0, short) == cs;
    } else {
      FloodCounts(cs, key, m - 1, short, lo, hi);
      FloodOneMore(cs, key, m, short);
      OtherKeyCounts(cs + Flood(key, m - 1, short), key, m - 1, short, lo, hi);
    }
  }

  lemma OtherKeyCounts(cs: seq<Call>, key: string, i: nat, short: int, lo: int, hi: int)
    ensures Count(Run(cs + [Call(Name(key, i), 1, short, short)], true).allowed, key, lo, hi)
            == Count(Run(cs, true).allowed, key, lo, hi)
  {
    var c := Call(Name(key, i), 1, short, short);
    RunOneMore(cs, c, true);
    NamesDiffer(key, i, i);
    CountOfStep(Run(cs, true), c, true, key, lo, hi);
  }

  lemma {:induction false} RepeatedKeys(s: State, c: Call, k: nat)
    requires k >= 1 && s.table.Keys <= {c.key}
    ensures Repeated(s, c, k).table.Keys <= {c.key}
  {
    if k > 1 {
      RepeatedKeys(s, c, k - 1);
      OneKey(Repeated(s, c, k - 1), c);
    } else {
      assert Repeated(s, c, 0) == s;
      OneKey(s, c);
    }
  }

  lemma OneKey(s: State, c: Call)
    requires s.table.Keys <= {c.key}
    ensures Step(s, c, true).table.Keys <= {c.key}
  {
  }

  /** A burst at time 0 under the long window, the flood, and the same burst again. */
  function ForgottenTrace(key: string, limit: nat, short: int, long: int): seq<Call> {
    Burst(limit, key, limit, long, 0) + Flood(key, PRUNE_ABOVE, short) + Burst(limit, key, limit, long, short)
  }

  lemma AfterFirstBurst(key: string, limit: nat, long: int)
    requires limit >= 1 && long > 0
    ensures Flooded(Run(Burst(limit, key, limit, long, 0), true).table, key, 0)
    ensures Run(Burst(limit, key, limit, long, 0), true).allowed == Hits(limit, key, 0)
  {
    var c := Call(key, limit, long, 0);
    FirstBurst(limit, c);
    RunBurst([], limit, c);
    assert [] + Burst(limit, key, limit, long, 0) == Burst(limit, key, limit, long, 0);
    RepeatedKeys(Run([], true), c, limit);
    assert Run(Burst(limit, key, limit, long, 0), true).table.Keys == {key};
  }

  lemma ForgottenMonotone(key: string, limit: nat, short: int, long: int)
    requires 0 < short
    ensures Monotone(ForgottenTrace(key, limit, short, long))
  {
  }

  lemma ForgottenCalls(key: string, limit: nat, short: int, long: int)
    ensures LimitedTo(ForgottenTrace(key, limit, short, long), key, limit)
    ensures OwnWindow(ForgottenTrace(key, limit, short, long), key, long)
  {
    forall c | c in ForgottenTrace(key, limit, short, long) && c.key == key
      ensures c.limit <= limit && c.window == long
    {
      if c in Flood(key, PRUNE_ABOVE, short) {
        var i :| 0 <= i < PRUNE_ABOVE && c == Call(Name(key, i), 1, short, short);
        NamesDiffer(key, i, 0);
      }
    }
  }

  /** Sparing is needed: from the empty table, for every limit and every two windows, a flood of 10000 new
      keys under the shorter one makes the limiter forget a key of the longer, which is then allowed twice
      its limit within one window. */
  lemma ShorterWindowForgets(key: string, limit: nat, short: int, long: int)
    requires limit >= 1 && 0 < short < long
    ensures var cs := ForgottenTrace(key, limit, short, long);
            && Monotone(cs) && LimitedTo(cs, key, limit) && OwnWindow(cs, key, long)
            && InWindow(Run(cs, true).allowed, key, 0, long) == 2 * limit
  {
    var b := Burst(limit, key, limit, long, 0);
    var bf := b + Flood(key, PRUNE_ABOVE, short);
    AfterFirstBurst(key, limit, long);
    FloodForgets(b, key, short);
    FloodCounts(b, key, PRUNE_ABOVE, short, 0, long);
    OpeningBurst(bf, limit, Call(key, limit, long, short));
    CountHits(Run(bf, true).allowed, limit, key, short, 0, long);
    CountHits([], limit, key, 0, 0, long);
    assert [] + Hits(limit, key, 0) == Hits(limit, key, 0);
    ForgottenMonotone(key, limit, short, long);
    ForgottenCalls(key, limit, short, long);
  }
}
